/**
 * Syntax scoring (day10.rs): lines of brackets are reduced by deleting adjacent
 * matching pairs until nothing changes; a closer left over is the syntax
 * error, and otherwise the openers left over are closed in reverse.
 */
module SyntaxScoring {
  import opened Sorting

  datatype Option<T> = None | Some(value: T)

  predicate IsOpener(c: char) {
    c == '(' || c == '[' || c == '{' || c == '<'
  }

  predicate IsCloser(c: char) {
    c == ')' || c == ']' || c == '}' || c == '>'
  }

  /** `a` opens the chunk that `b` closes. */
  predicate Pairs(a: char, b: char) {
    (a == '(' && b == ')') || (a == '[' && b == ']') || (a == '{' && b == '}') || (a == '<' && b == '>')
  }

  /** `str::replace` of the two-character pattern `ab` by nothing: matches are found left to right, without overlap, in the original text. */
  function RemovePair(s: string, a: char, b: char): (r: string)
    ensures |r| <= |s|
    decreases |s|
  {
    if |s| < 2 then s
    else if s[0] == a && s[1] == b then RemovePair(s[2..], a, b)
    else [s[0]] + RemovePair(s[1..], a, b)
  }

  /** One round of `simplify`: delete "()", then "[]", then "{}", then "<>". */
  function Pass(s: string): (r: string)
    ensures |r| <= |s|
  {
    RemovePair(RemovePair(RemovePair(RemovePair(s, '(', ')'), '[', ']'), '{', '}'), '<', '>')
  }

  /** The fixed point `simplify` reaches: repeat rounds until a round deletes nothing. */
  function Simplified(s: string): string
    decreases |s|
  {
    if |Pass(s)| == |s| then s else Simplified(Pass(s))
  }

  /** No two adjacent characters form a matching pair. */
  predicate NoPairs(t: string) {
    forall i :: 0 <= i < |t| - 1 ==> !Pairs(t[i], t[i + 1])
  }

  /** A round of `replace` that deletes nothing found no occurrence of its pattern and left the text as it was. */
  lemma {:induction false} RemovePairSame(s: string, a: char, b: char)
    requires |RemovePair(s, a, b)| == |s|
    ensures RemovePair(s, a, b) == s
    ensures forall i :: 0 <= i < |s| - 1 ==> !(s[i] == a && s[i + 1] == b)
    decreases |s|
  {
    if |s| >= 2 {
      if s[0] == a && s[1] == b {
        assert false;
      } else {
        RemovePairSame(s[1..], a, b);
        forall i | 0 <= i < |s| - 1 ensures !(s[i] == a && s[i + 1] == b) {
          if i > 0 {
            assert s[i] == s[1..][i - 1] && s[i + 1] == s[1..][i];
          }
        }
      }
    }
  }

  /** A round that deletes nothing means no matching pair is left. */
  lemma PassFixed(t: string)
    requires |Pass(t)| == |t|
    ensures Pass(t) == t && NoPairs(t)
  {
    var t1 := RemovePair(t, '(', ')');
    var t2 := RemovePair(t1, '[', ']');
    var t3 := RemovePair(t2, '{', '}');
    RemovePairSame(t, '(', ')');
    RemovePairSame(t1, '[', ']');
    RemovePairSame(t2, '{', '}');
    RemovePairSame(t3, '<', '>');
  }

  /** `simplify`'s result has no matching pair left and is never longer than its input. */
  lemma {:induction false} SimplifiedShape(s: string)
    ensures NoPairs(Simplified(s)) && |Simplified(s)| <= |s|
    decreases |s|
  {
    if |Pass(s)| == |s| {
      PassFixed(s);
    } else {
      SimplifiedShape(Pass(s));
    }
  }

  /** `simplify`: apply rounds while the length keeps changing. */
  method Simplify(tokens: string) returns (r: string)
    ensures r == Simplified(tokens)
    ensures NoPairs(r) && |r| <= |tokens|
  {
    r := tokens;
    var prevLen := 0;
    while prevLen != |r|
      invariant Simplified(r) == Simplified(tokens)
      invariant prevLen == |r| ==> Pass(r) == r
      decreases |r| + (if prevLen != |r| then 1 else 0)
    {
      prevLen := |r|;
      var next := Pass(r);
      if |next| == |r| {
        PassFixed(r);
      }
      r := next;
    }
    assert |Pass(r)| == |r|;
    SimplifiedShape(tokens);
  }

  /** The position of the first closer, as `find` reports it. */
  function FirstCloser(t: string): (r: Option<nat>)
    ensures r.Some? ==> r.value < |t| && IsCloser(t[r.value]) && forall j :: 0 <= j < r.value ==> !IsCloser(t[j])
    ensures r.None? ==> forall j :: 0 <= j < |t| ==> !IsCloser(t[j])
  {
    if t == [] then None
    else if IsCloser(t[0]) then Some(0)
    else
      match FirstCloser(t[1..])
      case None => None
      case Some(i) => Some(i + 1)
  }

  predicate IsAscii(c: char) {
    (c as int) < 0x80
  }

  predicate AllAscii(t: string) {
    forall i :: 0 <= i < |t| ==> IsAscii(t[i])
  }

  /** The number of bytes of a character's UTF-8 encoding. */
  function Utf8Width(c: char): (w: nat)
    ensures 1 <= w <= 4
    ensures w == 1 <==> IsAscii(c)
  {
    if (c as int) < 0x80 then 1
    else if (c as int) < 0x800 then 2
    else if (c as int) < 0x1_0000 then 3
    else 4
  }

  /** The byte offset of the `i`-th character in the UTF-8 encoding of `t`: the offset `str::find` reports. */
  function ByteOffset(t: string, i: nat): (b: nat)
    requires i <= |t|
    ensures b >= i
  {
    if i == 0 then 0 else ByteOffset(t, i - 1) + Utf8Width(t[i - 1])
  }

  /** Byte offsets and character indices agree exactly as long as every character before is ASCII. */
  lemma {:induction false} ByteOffsetAscii(t: string, i: nat)
    requires i <= |t|
    ensures ByteOffset(t, i) == i <==> AllAscii(t[..i])
  {
    if i > 0 {
      ByteOffsetAscii(t, i - 1);
      assert forall k :: 0 <= k < i - 1 ==> t[..i][k] == t[..i - 1][k];
      assert t[..i][i - 1] == t[i - 1];
    }
  }

  /**
   * The scan of `scan_for_error` on simplified text: `find` gives the byte
   * offset of the first closer, and `chars().nth` reads that offset as a
   * character index, which is past the end (None) or another character
   * whenever a wider character comes before the closer.
   */
  function ScanAt(t: string): (r: Option<char>)
    ensures FirstCloser(t).None? ==> r.None?
    ensures r.Some? ==> exists i :: FirstCloser(t).value <= i < |t| && r.value == t[i]
  {
    match FirstCloser(t)
    case None => None
    case Some(pos) =>
      var b := ByteOffset(t, pos);
      if b < |t| then Some(t[b]) else None
  }

  /** The first illegal closer of a line: what `scan_for_error` is meant to report. */
  function FirstError(s: string): (r: Option<char>)
    ensures r.Some? ==> IsCloser(r.value)
    ensures r.None? <==> FirstCloser(Simplified(s)).None?
    ensures AllBrackets(s) ==> (r.None? <==> Run([], s).Incomplete?) && (r.Some? ==> Run([], s) == Corrupted(r.value))
  {
    var t := Simplified(s);
    var r := match FirstCloser(t) case None => None case Some(pos) => Some(t[pos]);
    if AllBrackets(s) then ScanIsStackReading(s); r else r
  }

  /** On ASCII text the scan finds the first closer itself. */
  lemma ScanAscii(t: string)
    requires AllAscii(t)
    ensures ScanAt(t) == match FirstCloser(t) case None => None case Some(pos) => Some(t[pos])
  {
    if FirstCloser(t).Some? {
      var pos := FirstCloser(t).value;
      ByteOffsetAscii(t, pos);
      assert AllAscii(t[..pos]) by {
        assert forall k :: 0 <= k < pos ==> t[..pos][k] == t[k];
      }
    }
  }

  /** A wide character before the closer hides it: the source reports no error on "\u{e9})". */
  lemma WideCharHidesError()
    ensures ScanAt(Simplified(['\U{E9}', ')'])) == None
    ensures FirstError(['\U{E9}', ')']) == Some(')')
  {
    var s := ['\U{E9}', ')'];
    assert Pass(s) == s;
    assert FirstCloser(s) == Some(1);
    assert ByteOffset(s, 1) == 2;
  }

  /** ... or reads another character in its place: on "\u{e9})a)" the scan yields 'a', which `solution_a` declares unreachable. */
  lemma WideCharMisreads()
    ensures ScanAt(Simplified(['\U{E9}', ')', 'a', ')'])) == Some('a')
    ensures FirstError(['\U{E9}', ')', 'a', ')']) == Some(')')
  {
    var s := ['\U{E9}', ')', 'a', ')'];
    assert RemovePair(s, '(', ')') == s by {
      assert RemovePair(s[3..], '(', ')') == s[3..];
      assert RemovePair(s[2..], '(', ')') == s[2..];
      assert RemovePair(s[1..], '(', ')') == s[1..];
    }
    assert Pass(s) == s;
    assert FirstCloser(s) == Some(1);
    assert ByteOffset(s, 1) == 2;
  }

  lemma {:induction false} RemovePairAscii(s: string, a: char, b: char)
    requires AllAscii(s)
    ensures AllAscii(RemovePair(s, a, b))
    decreases |s|
  {
    if |s| >= 2 {
      if s[0] == a && s[1] == b {
        RemovePairAscii(s[2..], a, b);
      } else {
        RemovePairAscii(s[1..], a, b);
      }
    }
  }

  /** Simplifying only deletes characters, so ASCII text stays ASCII. */
  lemma {:induction false} SimplifiedAscii(s: string)
    requires AllAscii(s)
    ensures AllAscii(Simplified(s))
    decreases |s|
  {
    if |Pass(s)| != |s| {
      var t1 := RemovePair(s, '(', ')');
      var t2 := RemovePair(t1, '[', ']');
      var t3 := RemovePair(t2, '{', '}');
      RemovePairAscii(s, '(', ')');
      RemovePairAscii(t1, '[', ']');
      RemovePairAscii(t2, '{', '}');
      RemovePairAscii(t3, '<', '>');
      SimplifiedAscii(Pass(s));
    }
  }

  /** `scan_for_error`: simplify, then read the character at the first closer's byte offset. */
  method ScanForError(tokens: string) returns (error: Option<char>)
    ensures error == ScanAt(Simplified(tokens))
    ensures AllAscii(tokens) ==> error == FirstError(tokens)
  {
    var t := Simplify(tokens);
    var pos := FirstCloser(t);
    if pos.Some? {
      var b := ByteOffset(t, pos.value);
      if b < |t| {
        error := Some(t[b]);
      } else {
        error := None;
      }
    } else {
      error := None;
    }
    if AllAscii(tokens) {
      SimplifiedAscii(tokens);
      ScanAscii(t);
    }
  }

  /** `validate`: the simplified chunk when no closer is left, otherwise None. */
  method Validate(tokens: string) returns (valid: Option<string>)
    ensures valid.None? <==> exists j :: 0 <= j < |Simplified(tokens)| && IsCloser(Simplified(tokens)[j])
    ensures valid.Some? ==> valid.value == Simplified(tokens) && forall j :: 0 <= j < |valid.value| ==> !IsCloser(valid.value[j])
  {
    var t := Simplify(tokens);
    if FirstCloser(t).Some? {
      return None;
    }
    return Some(t);
  }

  /** The closer of an opener; any other character is left alone. */
  function Swap(c: char): char {
    match c
    case '(' => ')'
    case '[' => ']'
    case '{' => '}'
    case '<' => '>'
    case _ => c
  }

  /** `complete`: turn every opener into its closer, then reverse. */
  function Complete(t: string): (r: string)
    ensures |r| == |t|
    ensures forall i :: 0 <= i < |t| ==> r[i] == Swap(t[|t| - 1 - i])
  {
    seq(|t|, i requires 0 <= i < |t| => Swap(t[|t| - 1 - i]))
  }

  // ---------------------------------------------------------------------------
  // The reference reading of a line: a stack of open chunks.

  datatype Outcome = Corrupted(c: char) | Incomplete(stack: string)

  /** Read a line left to right: openers are pushed, a closer must close the top chunk, else it is the error. */
  function Run(stack: string, s: string): Outcome
    decreases |s|
  {
    if s == [] then Incomplete(stack)
    else if IsOpener(s[0]) then Run(stack + [s[0]], s[1..])
    else if stack != [] && Pairs(stack[|stack| - 1], s[0]) then Run(stack[..|stack| - 1], s[1..])
    else Corrupted(s[0])
  }

  /** Deleting matching pairs never changes how the line reads. */
  lemma {:induction false} RunRemovePair(stack: string, s: string, a: char, b: char)
    requires Pairs(a, b)
    ensures Run(stack, RemovePair(s, a, b)) == Run(stack, s)
    decreases |s|
  {
    if |s| >= 2 {
      if s[0] == a && s[1] == b {
        RunRemovePair(stack, s[2..], a, b);
        assert s[1..][1..] == s[2..];
        assert (stack + [a])[..|stack|] == stack;
      } else {
        RunRemovePair(stack, s[1..], a, b);
        var r := [s[0]] + RemovePair(s[1..], a, b);
        assert r[0] == s[0] && r[1..] == RemovePair(s[1..], a, b);
        if IsOpener(s[0]) {
          RunRemovePair(stack + [s[0]], s[1..], a, b);
        } else if stack != [] && Pairs(stack[|stack| - 1], s[0]) {
          RunRemovePair(stack[..|stack| - 1], s[1..], a, b);
        }
      }
    }
  }

  lemma {:induction false} RunSimplified(s: string)
    ensures Run([], Simplified(s)) == Run([], s)
    decreases |s|
  {
    if |Pass(s)| != |s| {
      RunSimplified(Pass(s));
      var t1 := RemovePair(s, '(', ')');
      var t2 := RemovePair(t1, '[', ']');
      var t3 := RemovePair(t2, '{', '}');
      RunRemovePair([], s, '(', ')');
      RunRemovePair([], t1, '[', ']');
      RunRemovePair([], t2, '{', '}');
      RunRemovePair([], t3, '<', '>');
    }
  }

  predicate AllBrackets(s: string) {
    forall i :: 0 <= i < |s| ==> IsOpener(s[i]) || IsCloser(s[i])
  }

  lemma {:induction false} RemovePairKeeps(s: string, a: char, b: char)
    requires AllBrackets(s)
    ensures AllBrackets(RemovePair(s, a, b))
    decreases |s|
  {
    if |s| >= 2 {
      if s[0] == a && s[1] == b {
        RemovePairKeeps(s[2..], a, b);
      } else {
        RemovePairKeeps(s[1..], a, b);
      }
    }
  }

  lemma {:induction false} SimplifiedBrackets(s: string)
    requires AllBrackets(s)
    ensures AllBrackets(Simplified(s))
    decreases |s|
  {
    if |Pass(s)| != |s| {
      var t1 := RemovePair(s, '(', ')');
      var t2 := RemovePair(t1, '[', ']');
      var t3 := RemovePair(t2, '{', '}');
      RemovePairKeeps(s, '(', ')');
      RemovePairKeeps(t1, '[', ']');
      RemovePairKeeps(t2, '{', '}');
      RemovePairKeeps(t3, '<', '>');
      SimplifiedBrackets(Pass(s));
    }
  }

  /** Openers are simply pushed. */
  lemma {:induction false} RunOpeners(stack: string, p: string, rest: string)
    requires forall i :: 0 <= i < |p| ==> IsOpener(p[i])
    ensures Run(stack, p + rest) == Run(stack + p, rest)
    decreases |p|
  {
    if p != [] {
      assert (p + rest)[0] == p[0] && (p + rest)[1..] == p[1..] + rest;
      assert Run(stack, p + rest) == Run(stack + [p[0]], p[1..] + rest);
      RunOpeners(stack + [p[0]], p[1..], rest);
      assert stack + [p[0]] + p[1..] == stack + p;
    } else {
      assert p + rest == rest && stack + p == stack;
    }
  }

  /** A bracket line without matching pairs reads as its first closer, or as the line itself when it has no closer. */
  lemma ReducedRun(t: string)
    requires AllBrackets(t) && NoPairs(t)
    ensures match FirstCloser(t)
            case Some(pos) => Run([], t) == Corrupted(t[pos])
            case None => Run([], t) == Incomplete(t)
  {
    match FirstCloser(t)
    case None =>
      RunOpeners([], t, []);
      assert t + [] == t;
    case Some(pos) =>
      var p := t[..pos];
      assert t == p + t[pos..];
      RunOpeners([], p, t[pos..]);
      assert [] + p == p;
      if pos > 0 {
        assert !Pairs(t[pos - 1], t[pos]);
      }
  }

  /**
   * What `scan_for_error` reports is exactly the first illegal closer of the
   * stack reading, and a line it accepts reads as the simplified openers.
   */
  lemma ScanIsStackReading(s: string)
    requires AllBrackets(s)
    ensures match FirstCloser(Simplified(s))
            case Some(pos) => Run([], s) == Corrupted(Simplified(s)[pos])
            case None => Run([], s) == Incomplete(Simplified(s))
  {
    SimplifiedShape(s);
    SimplifiedBrackets(s);
    RunSimplified(s);
    ReducedRun(Simplified(s));
  }

  lemma {:induction false} RunAppend(stack: string, s: string, c: string)
    requires Run(stack, s).Incomplete?
    ensures Run(stack, s + c) == Run(Run(stack, s).stack, c)
    decreases |s|
  {
    if s != [] {
      assert (s + c)[0] == s[0] && (s + c)[1..] == s[1..] + c;
      if IsOpener(s[0]) {
        RunAppend(stack + [s[0]], s[1..], c);
      } else {
        RunAppend(stack[..|stack| - 1], s[1..], c);
      }
    } else {
      assert s + c == c;
    }
  }

  lemma {:induction false} CompleteCloses(stack: string)
    requires forall i :: 0 <= i < |stack| ==> IsOpener(stack[i])
    ensures Run(stack, Complete(stack)) == Incomplete([])
    decreases |stack|
  {
    if stack != [] {
      var init := stack[..|stack| - 1];
      var c := Complete(stack);
      assert c[1..] == Complete(init);
      CompleteCloses(init);
    }
  }

  /** Appending the completion of an accepted line closes every chunk it opened. */
  lemma CompletionCloses(s: string)
    requires AllBrackets(s) && FirstCloser(Simplified(s)).None?
    ensures Run([], s + Complete(Simplified(s))) == Incomplete([])
  {
    ScanIsStackReading(s);
    SimplifiedBrackets(s);
    RunAppend([], s, Complete(Simplified(s)));
    CompleteCloses(Simplified(s));
  }

  // ---------------------------------------------------------------------------
  // Scores.

  /** `solution_a`'s points for an illegal closer. */
  function ErrorScore(c: char): (n: nat)
    requires IsCloser(c)
    ensures n in {3, 57, 1197, 25137}
  {
    match c
    case ')' => 3
    case ']' => 57
    case '}' => 1197
    case '>' => 25137
  }

  /** The digit of a closer in a completion score. */
  function Digit(c: char): (d: nat)
    requires IsCloser(c)
    ensures 1 <= d <= 4
  {
    match c
    case ')' => 1
    case ']' => 2
    case '}' => 3
    case '>' => 4
  }

  /** `get_score`: the completion read as a base-5 number with digits 1 to 4; anything but a closer is unreachable. */
  function GetScore(s: string): (r: nat)
    requires forall i :: 0 <= i < |s| ==> IsCloser(s[i])
    ensures r == 0 <==> s == []
  {
    if s == [] then 0 else GetScore(s[..|s| - 1]) * 5 + Digit(s[|s| - 1])
  }

  /** Different completions never share a score. */
  lemma {:induction false} ScoreInjective(a: string, b: string)
    requires forall i :: 0 <= i < |a| ==> IsCloser(a[i])
    requires forall i :: 0 <= i < |b| ==> IsCloser(b[i])
    requires GetScore(a) == GetScore(b)
    ensures a == b
    decreases |a|
  {
    if a != [] && b != [] {
      var n := GetScore(a);
      assert n % 5 == Digit(a[|a| - 1]) && n / 5 == GetScore(a[..|a| - 1]);
      assert n % 5 == Digit(b[|b| - 1]) && n / 5 == GetScore(b[..|b| - 1]);
      ScoreInjective(a[..|a| - 1], b[..|b| - 1]);
      assert a == a[..|a| - 1] + [a[|a| - 1]];
      assert b == b[..|b| - 1] + [b[|b| - 1]];
    }
  }

  /** Every scanned character is a closer: `solution_a` declares any other one unreachable. */
  predicate ScansClosers(lines: seq<string>) {
    forall k :: 0 <= k < |lines| && ScanAt(Simplified(lines[k])).Some? ==> IsCloser(ScanAt(Simplified(lines[k])).value)
  }

  /** The sum of the error points of the scanned characters. */
  function ErrorTotal(lines: seq<string>): nat
    requires ScansClosers(lines)
  {
    if lines == [] then 0
    else
      var e := ScanAt(Simplified(lines[|lines| - 1]));
      ErrorTotal(lines[..|lines| - 1]) + match e case None => 0 case Some(c) => ErrorScore(c)
  }

  /** The sum of the error points of the first illegal closers. */
  function FirstErrorTotal(lines: seq<string>): nat {
    if lines == [] then 0
    else
      var e := FirstError(lines[|lines| - 1]);
      FirstErrorTotal(lines[..|lines| - 1]) + match e case None => 0 case Some(c) => ErrorScore(c)
  }

  /** On ASCII lines the scan never misreads, and the total is that of the first illegal closers. */
  lemma {:induction false} AsciiErrorTotal(lines: seq<string>)
    requires forall k :: 0 <= k < |lines| ==> AllAscii(lines[k])
    ensures ScansClosers(lines) && ErrorTotal(lines) == FirstErrorTotal(lines)
  {
    forall k | 0 <= k < |lines|
      ensures ScanAt(Simplified(lines[k])) == FirstError(lines[k])
    {
      SimplifiedAscii(lines[k]);
      ScanAscii(Simplified(lines[k]));
    }
    if lines != [] {
      AsciiErrorTotal(lines[..|lines| - 1]);
    }
  }

  /** `solution_a`: the error points summed over all lines. */
  method SolutionA(lines: seq<string>) returns (total: nat)
    requires ScansClosers(lines)
    ensures total == ErrorTotal(lines)
    ensures (forall k :: 0 <= k < |lines| ==> AllAscii(lines[k])) ==> total == FirstErrorTotal(lines)
  {
    total := 0;
    for k := 0 to |lines|
      invariant ScansClosers(lines[..k]) && total == ErrorTotal(lines[..k])
    {
      assert lines[..k + 1][..k] == lines[..k];
      var error := ScanForError(lines[k]);
      if error.Some? {
        total := total + ErrorScore(error.value);
      }
    }
    assert lines[..|lines|] == lines;
    if forall k :: 0 <= k < |lines| ==> AllAscii(lines[k]) {
      AsciiErrorTotal(lines);
    }
  }

  /** Every line without an illegal closer is made of brackets only; a corrupted line may hold anything. */
  predicate KeptBrackets(lines: seq<string>) {
    forall k :: 0 <= k < |lines| && FirstCloser(Simplified(lines[k])).None? ==> AllBrackets(lines[k])
  }

  /** The completion scores of the accepted lines, in line order; only an accepted line must be made of brackets. */
  function CompletionScores(lines: seq<string>): (r: seq<nat>)
    requires KeptBrackets(lines)
  {
    if lines == [] then []
    else
      var t := Simplified(lines[|lines| - 1]);
      var rest := CompletionScores(lines[..|lines| - 1]);
      if FirstCloser(t).Some? then rest
      else
        SimplifiedBrackets(lines[|lines| - 1]);
        rest + [GetScore(Complete(t))]
  }

  /** `solution_b`: the middle of the sorted completion scores; the index needs at least one accepted line. */
  method SolutionB(lines: seq<string>) returns (middle: int)
    requires KeptBrackets(lines)
    requires CompletionScores(lines) != []
    ensures var sorted := Sort(CompletionScores(lines));
            middle == sorted[|sorted| / 2] && middle in CompletionScores(lines)
  {
    var scores: seq<nat> := [];
    for k := 0 to |lines|
      invariant KeptBrackets(lines[..k]) && scores == CompletionScores(lines[..k])
    {
      assert lines[..k + 1][..k] == lines[..k];
      var valid := Validate(lines[k]);
      if valid.Some? {
        assert FirstCloser(Simplified(lines[k])).None?;
        SimplifiedBrackets(lines[k]);
        scores := scores + [GetScore(Complete(valid.value))];
      }
    }
    assert lines[..|lines|] == lines;
    var sorted := Sort(scores);
    assert |sorted| == |scores| by {
      assert |multiset(sorted)| == |multiset(scores)|;
    }
    middle := sorted[|sorted| / 2];
    assert middle in multiset(sorted);
  }
}

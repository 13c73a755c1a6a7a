/*
 * Arithmetic logic unit (day 24). A program of `inp add mul div mod eql`
 * instructions runs over four registers w, x, y, z. The search feeds the
 * `inp` instructions one digit each, trying 9 down to 1 (or 1 up to 9),
 * memoises the states that lead nowhere, and accepts a run that ends with
 * z = 0. The answer lists the accepted digits in input order.
 */
module Alu {

  datatype Option<T> = None | Some(value: T)

  /** Register index: w = 0, x = 1, y = 2, z = 3. */
  type Reg = r: nat | r < 4

  type Regs = s: seq<int> | |s| == 4 witness [0, 0, 0, 0]

  datatype Argument = Register(r: Reg) | Literal(v: int)

  datatype Instruction =
    | Inp(a: Reg)
    | Add(a: Reg, b: Argument)
    | Mul(a: Reg, b: Argument)
    | Div(a: Reg, b: Argument)
    | Mdl(a: Reg, b: Argument)
    | Eql(a: Reg, b: Argument)

  /** `get_value`. */
  function Value(arg: Argument, regs: Regs): int {
    match arg
    case Register(r) => regs[r]
    case Literal(v) => v
  }

  // ---------------------------------------------------------------------------
  // Division that truncates toward zero, as Rust's `/` and `%` on integers.

  function Abs(a: int): nat {
    if a < 0 then -a else a
  }

  function TDiv(a: int, b: int): int
    requires b != 0
  {
    if (a < 0) == (b < 0) then Abs(a) / Abs(b) else -(Abs(a) / Abs(b))
  }

  function TMod(a: int, b: int): int
    requires b != 0
  {
    if a < 0 then -(Abs(a) % Abs(b)) else Abs(a) % Abs(b)
  }

  /**
   * Truncating division: quotient and remainder recombine to the dividend,
   * the remainder is smaller than the divisor and takes the dividend's sign,
   * and for a non-negative dividend and a positive divisor they agree with
   * floor division.
   */
  lemma TruncatingDivision(a: int, b: int)
    requires b != 0
    ensures a == b * TDiv(a, b) + TMod(a, b)
    ensures Abs(TMod(a, b)) < Abs(b)
    ensures a > 0 ==> TMod(a, b) >= 0
    ensures a < 0 ==> TMod(a, b) <= 0
    ensures a >= 0 && b > 0 ==> TDiv(a, b) == a / b && TMod(a, b) == a % b
  {
    var q, m := Abs(a) / Abs(b), Abs(a) % Abs(b);
    assert Abs(a) == Abs(b) * q + m;
    if a < 0 && b < 0 {
      assert a == b * q - m;
    } else if a < 0 {
      assert a == b * -q - m;
    } else if b < 0 {
      assert a == b * -q + m;
    }
  }

  // ---------------------------------------------------------------------------
  // Executing one instruction.

  /** What `eval` needs: a digit for `inp`, a non-zero operand for `div` and `mod`. */
  predicate CanExec(ins: Instruction, regs: Regs, input: Option<int>) {
    (ins.Inp? ==> input.Some?) && ((ins.Div? || ins.Mdl?) ==> Value(ins.b, regs) != 0)
  }

  /** `eval` on a copy of the registers. */
  function Exec(ins: Instruction, regs: Regs, input: Option<int>): (r: Regs)
    requires CanExec(ins, regs, input)
    ensures forall j :: 0 <= j < 4 && j != ins.a ==> r[j] == regs[j]
    ensures ins.Inp? ==> r[ins.a] == input.value
    ensures ins.Eql? ==> (r[ins.a] == 1 <==> regs[ins.a] == Value(ins.b, regs)) && (r[ins.a] == 0 || r[ins.a] == 1)
  {
    match ins
    case Inp(a) => regs[a := input.value]
    case Add(a, b) => regs[a := regs[a] + Value(b, regs)]
    case Mul(a, b) => regs[a := regs[a] * Value(b, regs)]
    case Div(a, b) => regs[a := TDiv(regs[a], Value(b, regs))]
    case Mdl(a, b) => regs[a := TMod(regs[a], Value(b, regs))]
    case Eql(a, b) => regs[a := if regs[a] == Value(b, regs) then 1 else 0]
  }

  /** `Instruction::eval`: updates register `a` in place and no other. */
  method Eval(ins: Instruction, registers: array<int>, input: Option<int>)
    requires registers.Length == 4
    requires CanExec(ins, registers[..], input)
    modifies registers
    ensures registers[..] == Exec(ins, old(registers[..]), input)
  {
    var regs: Regs := registers[..];
    match ins
    case Inp(a) => registers[a] := input.value;
    case Add(a, b) => registers[a] := registers[a] + Value(b, regs);
    case Mul(a, b) => registers[a] := registers[a] * Value(b, regs);
    case Div(a, b) => registers[a] := TDiv(registers[a], Value(b, regs));
    case Mdl(a, b) => registers[a] := TMod(registers[a], Value(b, regs));
    case Eql(a, b) => registers[a] := if registers[a] == Value(b, regs) then 1 else 0;
  }

  /** Every `div` and `mod` divides by a non-zero literal, so no run of the program can divide by zero. */
  predicate Safe(prog: seq<Instruction>) {
    forall i :: 0 <= i < |prog| ==> ((prog[i].Div? || prog[i].Mdl?) ==> prog[i].b.Literal? && prog[i].b.v != 0)
  }

  /** The `while let` loop of `solve_recursive`: run to the next `inp` or to the end. */
  function RunToInput(prog: seq<Instruction>, c: nat, regs: Regs): (r: (nat, Regs))
    requires Safe(prog) && c <= |prog|
    ensures c <= r.0 <= |prog| && (r.0 < |prog| ==> prog[r.0].Inp?)
    decreases |prog| - c
  {
    if c == |prog| || prog[c].Inp? then (c, regs)
    else RunToInput(prog, c + 1, Exec(prog[c], regs, None))
  }

  /** Feed `d` to the instruction at `c`, then run to the next `inp`. */
  function After(prog: seq<Instruction>, c: nat, regs: Regs, d: int): (r: (nat, Regs))
    requires Safe(prog) && c < |prog|
    ensures c < r.0 <= |prog|
  {
    RunToInput(prog, c + 1, Exec(prog[c], regs, Some(d)))
  }

  // ---------------------------------------------------------------------------
  // What the search looks for.

  /** Starting at `c`, the program fed the digits `ds` consumes all of them and ends with z = 0. */
  predicate Accepts(prog: seq<Instruction>, c: nat, regs: Regs, ds: seq<int>)
    requires Safe(prog) && c < |prog|
    decreases |prog| - c
  {
    |ds| >= 1 &&
    var next := After(prog, c, regs, ds[0]);
    if next.0 == |prog| then |ds| == 1 && next.1[3] == 0
    else Accepts(prog, next.0, next.1, ds[1..])
  }

  predicate AllDigits(ds: seq<int>) {
    forall i :: 0 <= i < |ds| ==> 1 <= ds[i] <= 9
  }

  /** The `k`-th digit tried: 9, 8, ..., 1, or 1, 2, ..., 9 when reversed. */
  function DigitAt(reverse: bool, k: nat): int
    requires k < 9
  {
    if reverse then k + 1 else 9 - k
  }

  /** Where a digit comes in the order of trial. */
  function Rank(reverse: bool, d: int): int {
    if reverse then d - 1 else 9 - d
  }

  /** `d` is tried before `e`. */
  predicate Prefers(reverse: bool, d: int, e: int) {
    if reverse then d < e else d > e
  }

  /** `ds` comes no later than `es` in the lexicographic order of trial. */
  predicate LexFirst(ds: seq<int>, es: seq<int>, reverse: bool) {
    ds == es ||
    (|ds| > 0 && |es| > 0 &&
     (Prefers(reverse, ds[0], es[0]) || (ds[0] == es[0] && LexFirst(ds[1..], es[1..], reverse))))
  }

  /** The depth-first search of `solve_recursive`, without its cache, returning the digits it accepts. */
  function Search(prog: seq<Instruction>, c: nat, regs: Regs, reverse: bool): (r: Option<seq<int>>)
    requires Safe(prog) && c < |prog|
    ensures r.Some? ==> |r.value| >= 1 && AllDigits(r.value)
    decreases |prog| - c, 1
  {
    TryFrom(prog, c, regs, reverse, 0)
  }

  /** The search over the digits from the `k`-th on. */
  function TryFrom(prog: seq<Instruction>, c: nat, regs: Regs, reverse: bool, k: nat): (r: Option<seq<int>>)
    requires Safe(prog) && c < |prog| && k <= 9
    ensures r.Some? ==> |r.value| >= 1 && AllDigits(r.value)
    decreases |prog| - c, 0, 9 - k
  {
    if k == 9 then None
    else
      var d := DigitAt(reverse, k);
      var next := After(prog, c, regs, d);
      if next.0 < |prog| then
        var sub := Search(prog, next.0, next.1, reverse);
        if sub.Some? then Some([d] + sub.value) else TryFrom(prog, c, regs, reverse, k + 1)
      else if next.1[3] == 0 then Some([d])
      else TryFrom(prog, c, regs, reverse, k + 1)
  }

  /**
   * The search finds an input exactly when some digit input is accepted, and
   * what it finds is accepted and comes first in the order of trial: for the
   * descending order, the largest model number.
   */
  lemma {:induction false} SearchFirst(prog: seq<Instruction>, c: nat, regs: Regs, reverse: bool)
    requires Safe(prog) && c < |prog|
    ensures Search(prog, c, regs, reverse).None? ==>
      forall es :: AllDigits(es) ==> !Accepts(prog, c, regs, es)
    ensures Search(prog, c, regs, reverse).Some? ==>
      var ds := Search(prog, c, regs, reverse).value;
      AllDigits(ds) && Accepts(prog, c, regs, ds) &&
      forall es :: AllDigits(es) && Accepts(prog, c, regs, es) ==> LexFirst(ds, es, reverse)
    decreases |prog| - c, 1
  {
    TryFromFirst(prog, c, regs, reverse, 0);
  }

  lemma {:induction false} TryFromFirst(prog: seq<Instruction>, c: nat, regs: Regs, reverse: bool, k: nat)
    requires Safe(prog) && c < |prog| && k <= 9
    ensures TryFrom(prog, c, regs, reverse, k).None? ==>
      forall es :: AllDigits(es) && Accepts(prog, c, regs, es) ==> Rank(reverse, es[0]) < k
    ensures TryFrom(prog, c, regs, reverse, k).Some? ==>
      var ds := TryFrom(prog, c, regs, reverse, k).value;
      Accepts(prog, c, regs, ds) &&
      forall es :: AllDigits(es) && Accepts(prog, c, regs, es) && Rank(reverse, es[0]) >= k ==> LexFirst(ds, es, reverse)
    decreases |prog| - c, 0, 9 - k
  {
    hide Accepts, RunToInput, Search, LexFirst;
    AcceptsNonEmpty(prog, c, regs);
    if k < 9 {
      var d := DigitAt(reverse, k);
      var next := After(prog, c, regs, d);
      TryFromFirst(prog, c, regs, reverse, k + 1);
      if next.0 < |prog| {
        SearchFirst(prog, next.0, next.1, reverse);
        var sub := Search(prog, next.0, next.1, reverse);
        if sub.Some? {
          DeeperFound(prog, c, regs, reverse, k, sub.value);
        } else {
          DeeperFails(prog, c, regs, reverse, k);
        }
      } else {
        LastInput(prog, c, regs, reverse, k);
      }
    }
  }

  /** The digit tried k-th leads to the next `inp`, from which the search finds `rest`. */
  lemma DeeperFound(prog: seq<Instruction>, c: nat, regs: Regs, reverse: bool, k: nat, rest: seq<int>)
    requires Safe(prog) && c < |prog| && k < 9
    requires After(prog, c, regs, DigitAt(reverse, k)).0 < |prog|
    requires var next := After(prog, c, regs, DigitAt(reverse, k));
      Accepts(prog, next.0, next.1, rest) &&
      forall es :: AllDigits(es) && Accepts(prog, next.0, next.1, es) ==> LexFirst(rest, es, reverse)
    ensures var ds := [DigitAt(reverse, k)] + rest;
      Accepts(prog, c, regs, ds) &&
      forall es :: AllDigits(es) && Accepts(prog, c, regs, es) && Rank(reverse, es[0]) >= k ==> LexFirst(ds, es, reverse)
  {
    var d := DigitAt(reverse, k);
    var next := After(prog, c, regs, d);
    var ds := [d] + rest;
    assert ds[1..] == rest;
    forall es | AllDigits(es) && Accepts(prog, c, regs, es) && Rank(reverse, es[0]) >= k
      ensures LexFirst(ds, es, reverse)
    {
      if es[0] == d {
        assert Accepts(prog, next.0, next.1, es[1..]);
        assert AllDigits(es[1..]);
      }
    }
  }

  /** The digit tried k-th leads to the next `inp`, from which nothing is accepted. */
  lemma DeeperFails(prog: seq<Instruction>, c: nat, regs: Regs, reverse: bool, k: nat)
    requires Safe(prog) && c < |prog| && k < 9
    requires After(prog, c, regs, DigitAt(reverse, k)).0 < |prog|
    requires var next := After(prog, c, regs, DigitAt(reverse, k));
      forall es :: AllDigits(es) ==> !Accepts(prog, next.0, next.1, es)
    ensures forall es :: AllDigits(es) && Accepts(prog, c, regs, es) ==> es[0] != DigitAt(reverse, k)
  {
    var d := DigitAt(reverse, k);
    var next := After(prog, c, regs, d);
    forall es | AllDigits(es) && Accepts(prog, c, regs, es)
      ensures es[0] != d
    {
      if es[0] == d {
        assert Accepts(prog, next.0, next.1, es[1..]);
        assert AllDigits(es[1..]);
      }
    }
  }

  /** The digit tried k-th runs the program to its end: it alone is accepted with that digit, if z is 0. */
  lemma LastInput(prog: seq<Instruction>, c: nat, regs: Regs, reverse: bool, k: nat)
    requires Safe(prog) && c < |prog| && k < 9
    requires After(prog, c, regs, DigitAt(reverse, k)).0 == |prog|
    ensures var d := DigitAt(reverse, k);
      if After(prog, c, regs, d).1[3] == 0 then
        Accepts(prog, c, regs, [d]) &&
        forall es :: AllDigits(es) && Accepts(prog, c, regs, es) && Rank(reverse, es[0]) >= k ==> LexFirst([d], es, reverse)
      else
        forall es :: AllDigits(es) && Accepts(prog, c, regs, es) ==> es[0] != d
  {
  }

  /** An accepted input has at least one digit. */
  lemma AcceptsNonEmpty(prog: seq<Instruction>, c: nat, regs: Regs)
    requires Safe(prog) && c < |prog|
    ensures forall es :: Accepts(prog, c, regs, es) ==> |es| >= 1
  {
  }

  // ---------------------------------------------------------------------------
  // The memoised search.

  /** The number `solve_recursive` builds: each digit is added below the digits found after it. */
  function Encode(ds: seq<int>): int {
    if ds == [] then 0 else Encode(ds[1..]) * 10 + ds[0]
  }

  lemma EncodeCons(d: int, ts: seq<int>)
    ensures Encode([d] + ts) == Encode(ts) * 10 + d
  {
    assert ([d] + ts)[1..] == ts;
  }

  lemma EncodeSingle(d: int)
    ensures Encode([d]) == d
  {
    assert [d][1..] == [];
  }

  function EncodeOption(o: Option<seq<int>>): Option<int> {
    match o
    case None => None
    case Some(ds) => Some(Encode(ds))
  }

  /** The cache of `solve_recursive`, keyed by counter and registers. */
  class Memo {
    var entries: map<(nat, Regs), Option<int>>

    constructor ()
      ensures entries == map[]
    {
      entries := map[];
    }

    /** Every entry records a state from which the search finds nothing. */
    predicate OnlyFailures(prog: seq<Instruction>, reverse: bool)
      reads this
    {
      FailuresOnly(entries, prog, reverse)
    }
  }

  predicate FailuresOnly(entries: map<(nat, Regs), Option<int>>, prog: seq<Instruction>, reverse: bool) {
    Safe(prog) &&
    forall key :: key in entries ==>
      key.0 < |prog| && entries[key] == None && Search(prog, key.0, key.1, reverse) == None
  }

  /** Recording a state the search fails from keeps the cache sound. */
  lemma RecordFailure(entries: map<(nat, Regs), Option<int>>, prog: seq<Instruction>, reverse: bool, c: nat, regs: Regs)
    requires FailuresOnly(entries, prog, reverse) && c < |prog|
    requires Search(prog, c, regs, reverse) == None
    ensures FailuresOnly(entries[(c, regs) := None], prog, reverse)
  {
  }

  lemma SearchStart(prog: seq<Instruction>, c: nat, regs: Regs, reverse: bool)
    requires Safe(prog) && c < |prog|
    ensures Search(prog, c, regs, reverse) == TryFrom(prog, c, regs, reverse, 0)
  {
  }

  lemma TryFromEnd(prog: seq<Instruction>, c: nat, regs: Regs, reverse: bool)
    requires Safe(prog) && c < |prog|
    ensures TryFrom(prog, c, regs, reverse, 9) == None
  {
  }

  /** One step of `TryFrom`, spelled out. */
  lemma TryFromStep(prog: seq<Instruction>, c: nat, regs: Regs, reverse: bool, k: nat)
    requires Safe(prog) && c < |prog| && k < 9
    ensures var d := DigitAt(reverse, k);
      var next := After(prog, c, regs, d);
      TryFrom(prog, c, regs, reverse, k) ==
        if next.0 < |prog| then
          (if Search(prog, next.0, next.1, reverse).Some? then Some([d] + Search(prog, next.0, next.1, reverse).value)
           else TryFrom(prog, c, regs, reverse, k + 1))
        else if next.1[3] == 0 then Some([d])
        else TryFrom(prog, c, regs, reverse, k + 1)
  {
  }

  /**
   * The non-`inp` branch of the `while let` loop in `solve_recursive`:
   * evaluates instructions in place until the next `inp` or the end.
   */
  method RunToNextInput(prog: seq<Instruction>, start: nat, regs: array<int>) returns (c: nat)
    requires Safe(prog) && start <= |prog| && regs.Length == 4
    modifies regs
    ensures (c, regs[..]) == RunToInput(prog, start, old(regs[..]))
  {
    c := start;
    while c < |prog| && !prog[c].Inp?
      invariant start <= c <= |prog|
      invariant RunToInput(prog, c, regs[..]) == RunToInput(prog, start, old(regs[..]))
      decreases |prog| - c
    {
      Eval(prog[c], regs, None);
      c := c + 1;
    }
  }

  /**
   * The body of the digit loop in `solve_recursive` up to the next `inp`:
   * copy the registers, feed `digit` to the instruction at `counter`, and
   * run on in place.
   */
  method FeedDigit(prog: seq<Instruction>, counter: nat, registers: Regs, digit: int) returns (c: nat, after: Regs)
    requires Safe(prog) && counter < |prog|
    ensures (c, after) == After(prog, counter, registers, digit)
  {
    var regs := new int[4];
    regs[0], regs[1], regs[2], regs[3] := registers[0], registers[1], registers[2], registers[3];
    assert regs[..] == registers;
    Eval(prog[counter], regs, Some(digit));
    c := RunToNextInput(prog, counter + 1, regs);
    after := regs[..];
  }

  /**
   * `solve_recursive`. A success is stored under the state reached at the
   * next `inp` (or at the end), which no later lookup reads: once a digit
   * succeeds every caller returns at once. The failures it stores keep the
   * cache sound.
   */
  method SolveRecursive(prog: seq<Instruction>, counter: nat, registers: Regs, cache: Memo, reverse: bool)
    returns (result: Option<int>)
    requires counter < |prog| && cache.OnlyFailures(prog, reverse)
    modifies cache
    ensures result == EncodeOption(Search(prog, counter, registers, reverse))
    ensures result == None ==> cache.OnlyFailures(prog, reverse)
    decreases |prog| - counter
  {
    hide Search, TryFrom, RunToInput, Accepts, Encode;
    if (counter, registers) in cache.entries {
      return cache.entries[(counter, registers)];
    }
    var digits := if reverse then [1, 2, 3, 4, 5, 6, 7, 8, 9] else [9, 8, 7, 6, 5, 4, 3, 2, 1];
    assert forall j :: 0 <= j < 9 ==> digits[j] == DigitAt(reverse, j);
    SearchStart(prog, counter, registers, reverse);
    for k := 0 to 9
      invariant cache.OnlyFailures(prog, reverse)
      invariant TryFrom(prog, counter, registers, reverse, k) == Search(prog, counter, registers, reverse)
    {
      var digit := digits[k];
      TryFromStep(prog, counter, registers, reverse, k);
      var c, regs := FeedDigit(prog, counter, registers, digit);
      if c < |prog| {
        var sub := SolveRecursive(prog, c, regs, cache, reverse);
        if sub.Some? {
          var r := sub.value * 10 + digit;
          EncodeCons(digit, Search(prog, c, regs, reverse).value);
          cache.entries := cache.entries[(c, regs) := Some(r)];
          return Some(r);
        }
      } else if regs[3] == 0 {
        cache.entries := cache.entries[(c, regs) := Some(digit)];
        EncodeSingle(digit);
        return Some(digit);
      }
    }
    TryFromEnd(prog, counter, registers, reverse);
    RecordFailure(cache.entries, prog, reverse, counter, registers);
    cache.entries := cache.entries[(counter, registers) := None];
    return None;
  }

  // ---------------------------------------------------------------------------
  // Decimal text.

  function DigitChar(d: nat): char
    requires d < 10
  {
    (d + '0' as int) as char
  }

  predicate AllDigitChars(s: string) {
    forall i :: 0 <= i < |s| ==> '0' <= s[i] <= '9'
  }

  /** `to_string` of a non-negative integer. */
  function NatString(n: nat): (s: string)
    ensures |s| >= 1 && AllDigitChars(s)
  {
    if n < 10 then [DigitChar(n)] else NatString(n / 10) + [DigitChar(n % 10)]
  }

  /** The value of a string of decimal digits. */
  function ParseNat(s: string): nat
    requires AllDigitChars(s)
  {
    if s == [] then 0 else ParseNat(s[..|s| - 1]) * 10 + (s[|s| - 1] as int - '0' as int)
  }

  lemma {:induction false} NatStringRoundTrip(n: nat)
    ensures ParseNat(NatString(n)) == n
  {
    var s := NatString(n);
    if n >= 10 {
      NatStringRoundTrip(n / 10);
      assert s[..|s| - 1] == NatString(n / 10);
    }
  }

  /** `.chars().rev().collect()`. */
  function Reverse(s: string): string {
    if s == [] then [] else Reverse(s[1..]) + [s[0]]
  }

  lemma {:induction false} ReverseSnoc(s: string, c: char)
    ensures Reverse(s + [c]) == [c] + Reverse(s)
  {
    if s != [] {
      assert (s + [c])[1..] == s[1..] + [c];
      ReverseSnoc(s[1..], c);
    } else {
      assert [c][1..] == [];
    }
  }

  /** The accepted digits as text, in input order. */
  function DigitString(ds: seq<int>): string
    requires AllDigits(ds)
  {
    seq(|ds|, i requires 0 <= i < |ds| => DigitChar(ds[i]))
  }

  /** Reversing the text of the built number spells the digits in the order they were fed. */
  lemma {:induction false} AnswerSpellsDigits(ds: seq<int>)
    requires |ds| >= 1 && AllDigits(ds)
    ensures Encode(ds) >= 1
    ensures Reverse(NatString(Encode(ds))) == DigitString(ds)
  {
    var n := Encode(ds);
    if |ds| == 1 {
      assert ds == [ds[0]];
      EncodeSingle(ds[0]);
      assert NatString(n) == [DigitChar(ds[0])];
      assert Reverse(NatString(n)) == Reverse([DigitChar(ds[0])][1..]) + [DigitChar(ds[0])];
    } else {
      var rest := ds[1..];
      AnswerSpellsDigits(rest);
      var m := Encode(rest);
      assert n == m * 10 + ds[0];
      assert n / 10 == m && n % 10 == ds[0];
      ReverseSnoc(NatString(m), DigitChar(ds[0]));
      assert DigitString(ds) == [DigitChar(ds[0])] + DigitString(rest);
    }
  }

  /**
   * `solve`: the digits accepted by the search from all-zero registers, as
   * text. The source unwraps the search result, so some input must be
   * accepted.
   */
  method Solve(prog: seq<Instruction>, reverse: bool) returns (answer: string)
    requires |prog| >= 1 && Safe(prog)
    requires Search(prog, 0, [0, 0, 0, 0], reverse).Some?
    ensures var ds := Search(prog, 0, [0, 0, 0, 0], reverse).value;
      answer == DigitString(ds) && Accepts(prog, 0, [0, 0, 0, 0], ds) &&
      forall es :: AllDigits(es) && Accepts(prog, 0, [0, 0, 0, 0], es) ==> LexFirst(ds, es, reverse)
  {
    var cache := new Memo();
    var result := SolveRecursive(prog, 0, [0, 0, 0, 0], cache, reverse);
    SearchFirst(prog, 0, [0, 0, 0, 0], reverse);
    var ds := Search(prog, 0, [0, 0, 0, 0], reverse).value;
    AnswerSpellsDigits(ds);
    answer := Reverse(NatString(result.value));
  }

  /** `solution_a`: the largest accepted model number. */
  method SolutionA(prog: seq<Instruction>) returns (answer: string)
    requires |prog| >= 1 && Safe(prog)
    requires Search(prog, 0, [0, 0, 0, 0], false).Some?
    ensures var ds := Search(prog, 0, [0, 0, 0, 0], false).value;
      answer == DigitString(ds) && Accepts(prog, 0, [0, 0, 0, 0], ds)
  {
    answer := Solve(prog, false);
  }

  /** `solution_b`: the smallest accepted model number. */
  method SolutionB(prog: seq<Instruction>) returns (answer: string)
    requires |prog| >= 1 && Safe(prog)
    requires Search(prog, 0, [0, 0, 0, 0], true).Some?
    ensures var ds := Search(prog, 0, [0, 0, 0, 0], true).value;
      answer == DigitString(ds) && Accepts(prog, 0, [0, 0, 0, 0], ds)
  {
    answer := Solve(prog, true);
  }

  // ---------------------------------------------------------------------------
  // Parsing one line, already split at spaces.

  function RegName(r: Reg): string {
    if r == 0 then "w" else if r == 1 then "x" else if r == 2 then "y" else "z"
  }

  /** `str_to_reg`; `None` where the source panics. */
  function ParseRegister(s: string): Option<Reg> {
    if s == "w" then Some(0)
    else if s == "x" then Some(1)
    else if s == "y" then Some(2)
    else if s == "z" then Some(3)
    else None
  }

  predicate AllAlphabetic(s: string) {
    forall i :: 0 <= i < |s| ==> ('a' <= s[i] <= 'z' || 'A' <= s[i] <= 'Z')
  }

  /** `str::parse::<i64>`: an optional sign and at least one decimal digit. */
  function ParseInt(s: string): Option<int> {
    if |s| >= 2 && (s[0] == '-' || s[0] == '+') && AllDigitChars(s[1..]) then
      var n: int := ParseNat(s[1..]);
      Some(if s[0] == '-' then -n else n)
    else if |s| >= 1 && AllDigitChars(s) then Some(ParseNat(s))
    else None
  }

  /** An operand is a register when all its characters are letters, else a literal. */
  function ParseOperand(s: string): Option<Argument> {
    if AllAlphabetic(s) then
      match ParseRegister(s)
      case None => None
      case Some(r) => Some(Register(r))
    else
      match ParseInt(s)
      case None => None
      case Some(v) => Some(Literal(v))
  }

  /** One line of `Instruction::parse`; `None` where the source panics. */
  function ParseInstruction(words: seq<string>): Option<Instruction> {
    if |words| < 2 || ParseRegister(words[1]).None? then None
    else if |words| >= 3 && ParseOperand(words[2]).None? then None
    else
      var a := ParseRegister(words[1]).value;
      if |words| == 2 then
        if words[0] == "inp" then Some(Inp(a)) else None
      else
        var b := ParseOperand(words[2]).value;
        if words[0] == "add" then Some(Add(a, b))
        else if words[0] == "mul" then Some(Mul(a, b))
        else if words[0] == "div" then Some(Div(a, b))
        else if words[0] == "mod" then Some(Mdl(a, b))
        else if words[0] == "eql" then Some(Eql(a, b))
        else None
  }

  function OperandText(b: Argument): string {
    match b
    case Register(r) => RegName(r)
    case Literal(v) => if v < 0 then "-" + NatString(-v) else NatString(v)
  }

  /** The words of an instruction's line. */
  function Words(ins: Instruction): seq<string> {
    match ins
    case Inp(a) => ["inp", RegName(a)]
    case Add(a, b) => ["add", RegName(a), OperandText(b)]
    case Mul(a, b) => ["mul", RegName(a), OperandText(b)]
    case Div(a, b) => ["div", RegName(a), OperandText(b)]
    case Mdl(a, b) => ["mod", RegName(a), OperandText(b)]
    case Eql(a, b) => ["eql", RegName(a), OperandText(b)]
  }

  /** w, x, y, z are the only register names, and they map to 0 to 3. */
  lemma RegisterNames(s: string, r: Reg)
    ensures ParseRegister(s) == Some(r) <==> s == RegName(r)
  {
  }

  /** Operands read back as written: a register name is all letters, a literal is not. */
  lemma OperandRoundTrip(b: Argument)
    ensures ParseOperand(OperandText(b)) == Some(b)
  {
    match b
    case Register(r) =>
      assert AllAlphabetic(RegName(r));
    case Literal(v) =>
      var digits := NatString(Abs(v));
      NatStringRoundTrip(Abs(v));
      assert !AllAlphabetic(OperandText(b)) by {
        if v < 0 {
          assert OperandText(b)[1] == digits[0];
        } else {
          assert OperandText(b)[0] == digits[0];
        }
      }
      if v < 0 {
        assert OperandText(b)[1..] == digits;
      }
  }

  /** Every instruction reads back from its own words; `mod` is the text of `Mdl`. */
  lemma ParseRoundTrip(ins: Instruction)
    ensures ParseInstruction(Words(ins)) == Some(ins)
  {
    var w := Words(ins);
    RegisterNames(w[1], ins.a);
    if !ins.Inp? {
      OperandRoundTrip(ins.b);
      assert |w| == 3 && ParseOperand(w[2]) == Some(ins.b);
    }
    assert ParseRegister(w[1]) == Some(ins.a);
  }

  /** `Instruction::parse` over all lines; `None` if any line is rejected. */
  function ParseProgram(lines: seq<seq<string>>): (r: Option<seq<Instruction>>)
    ensures r.Some? ==> (|r.value| == |lines| &&
      forall i :: 0 <= i < |lines| ==> ParseInstruction(lines[i]) == Some(r.value[i]))
  {
    if lines == [] then Some([])
    else
      match ParseInstruction(lines[0])
      case None => None
      case Some(ins) =>
        match ParseProgram(lines[1..])
        case None => None
        case Some(rest) => Some([ins] + rest)
  }
}

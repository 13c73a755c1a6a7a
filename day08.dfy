/**
 * Seven-segment search (day08.rs): each wire a..g starts with every segment
 * as a candidate; the scrambled patterns, shortest first, narrow the
 * candidates by the digits of their length until every wire has exactly one
 * segment, and the four output patterns are then read as a number.
 */
module SevenSegment {
  import opened Sorting

  datatype Option<T> = None | Some(value: T)

  const Wires: string := "abcdefg"
  const AllSegments: set<char> := {'a', 'b', 'c', 'd', 'e', 'f', 'g'}

  const DisplayZero: string := "abcefg"
  const DisplayOne: string := "cf"
  const DisplayTwo: string := "acdeg"
  const DisplayThree: string := "acdfg"
  const DisplayFour: string := "bcdf"
  const DisplayFive: string := "abdfg"
  const DisplaySix: string := "abdefg"
  const DisplaySeven: string := "acf"
  const DisplayEight: string := "abcdefg"
  const DisplayNine: string := "abcdfg"

  /** The lit segments of each digit. */
  function Pattern(d: nat): string
    requires d <= 9
  {
    [DisplayZero, DisplayOne, DisplayTwo, DisplayThree, DisplayFour,
     DisplayFive, DisplaySix, DisplaySeven, DisplayEight, DisplayNine][d]
  }

  /** `solution_a` counts the output words of length 2, 3, 4 or 7: the digits 1, 7, 4 and 8. */
  predicate IsEasy(word: string) {
    |word| == 2 || |word| == 3 || |word| == 4 || |word| == 7
  }

  function EasyIndices(words: seq<string>): set<nat> {
    set i: nat | i < |words| && IsEasy(words[i])
  }

  /** `solution_a`: one for every easy output word. */
  function SolutionA(words: seq<string>): (r: nat)
    ensures r == |EasyIndices(words)|
  {
    if words == [] then 0
    else
      var init := words[..|words| - 1];
      var rest := SolutionA(init);
      assert forall i: nat :: i < |init| ==> init[i] == words[i];
      if IsEasy(words[|words| - 1]) then
        assert EasyIndices(words) == EasyIndices(init) + {|words| - 1};
        rest + 1
      else
        assert EasyIndices(words) == EasyIndices(init);
        rest
  }

  function Letter(c: char): int {
    c as int
  }

  /** `parse`: the letters of every cluster in ascending order. */
  function Parse(part: seq<string>): (r: seq<string>)
    ensures |r| == |part|
    ensures forall i :: 0 <= i < |r| ==> SortedBy(r[i], Letter) && multiset(r[i]) == multiset(part[i])
  {
    seq(|part|, i requires 0 <= i < |part| => SortBy(part[i], Letter))
  }

  /**
   * The search state: the patterns still to use (longest first, used from the
   * back), the four output patterns, and each wire's candidate segments.
   */
  datatype Display = Display(mixed: seq<string>, shown: seq<string>, maps: map<char, set<char>>)

  function NegLength(s: string): int {
    -|s|
  }

  /** `new`: patterns sorted by decreasing length, and every wire may be any segment. */
  function New(patterns: seq<string>, outputs: seq<string>): (d: Display)
    ensures SortedBy(d.mixed, NegLength) && multiset(d.mixed) == multiset(Parse(patterns))
    ensures d.shown == Parse(outputs)
    ensures d.maps.Keys == AllSegments && forall w :: w in d.maps ==> d.maps[w] == AllSegments
  {
    Display(SortBy(Parse(patterns), NegLength), Parse(outputs), map w | w in AllSegments :: AllSegments)
  }

  /** Every wire is a key and every candidate a segment. */
  predicate WellFormed(maps: map<char, set<char>>) {
    maps.Keys == AllSegments && forall w :: w in maps ==> maps[w] <= AllSegments
  }

  predicate IsWord(s: string) {
    forall i :: 0 <= i < |s| ==> s[i] in AllSegments
  }

  /** `is_solved`: every wire has exactly one candidate. */
  predicate IsSolved(maps: map<char, set<char>>) {
    forall w :: w in maps ==> |maps[w]| == 1
  }

  /** `is_valid`: no wire has run out of candidates. */
  predicate IsValid(maps: map<char, set<char>>) {
    forall w :: w in maps ==> maps[w] != {}
  }

  /** A solved state is always valid. */
  lemma SolvedIsValid(maps: map<char, set<char>>)
    requires IsSolved(maps)
    ensures IsValid(maps)
  {
    forall w | w in maps ensures maps[w] != {} {
      assert |maps[w]| == 1;
    }
  }

  lemma WiresAreSegments()
    ensures forall c :: c in Wires <==> c in AllSegments
  {
    assert Wires == ['a', 'b', 'c', 'd', 'e', 'f', 'g'];
  }

  /** The cluster lengths `expand` knows; any other is unreachable. */
  predicate KnownLength(n: nat) {
    n == 0 || 2 <= n <= 7
  }

  /** The digits a cluster of length `n` may show: one for 2, 3, 4; three for 5 and 6; none for 0 and 7. */
  function Candidates(n: nat): (r: seq<string>)
    requires KnownLength(n)
    ensures |r| == (if n == 2 || n == 3 || n == 4 then 1 else if n == 5 || n == 6 then 3 else 0)
    ensures forall k :: 0 <= k < |r| ==> |r[k]| == n
  {
    match n
    case 2 => [DisplayOne]
    case 3 => [DisplaySeven]
    case 4 => [DisplayFour]
    case 5 => [DisplayTwo, DisplayThree, DisplayFive]
    case 6 => [DisplayZero, DisplaySix, DisplayNine]
    case _ => []
  }

  /** The wires missing from a cluster, in a..g order. */
  function Complement(s: string, cluster: string): (r: string)
    ensures forall c :: c in r <==> c in s && c !in cluster
  {
    if s == [] then []
    else
      var rest := Complement(s[1..], cluster);
      assert forall c :: c in s <==> c == s[0] || c in s[1..];
      if s[0] in cluster then rest else [s[0]] + rest
  }

  /** The candidates of `s` that the pattern lights. */
  function Keep(s: set<char>, pattern: string): (r: set<char>)
    ensures forall c :: c in r <==> c in s && c in pattern
  {
    set c | c in s && c in pattern
  }

  /** The candidates of `s` that the pattern leaves dark. */
  function Drop(s: set<char>, pattern: string): (r: set<char>)
    ensures forall c :: c in r <==> c in s && c !in pattern
  {
    set c | c in s && c !in pattern
  }

  /** The candidates of every wire once `cluster` is known to show `pattern`. */
  function Narrow(maps: map<char, set<char>>, cluster: string, pattern: string): (r: map<char, set<char>>)
    ensures r.Keys == maps.Keys
    ensures forall w :: w in r ==> r[w] <= maps[w]
  {
    map w | w in maps ::
      if w in cluster then Keep(maps[w], pattern)
      else if w in Wires then Drop(maps[w], pattern)
      else maps[w]
  }

  /** `retain` on the candidates of every listed wire: keep the segments the pattern lights, or those it leaves dark. */
  method Retain(maps: map<char, set<char>>, wires: string, pattern: string, lit: bool) returns (r: map<char, set<char>>)
    requires forall i :: 0 <= i < |wires| ==> wires[i] in maps
    ensures r.Keys == maps.Keys
    ensures forall w :: w in r ==>
              r[w] == if w !in wires then maps[w] else if lit then Keep(maps[w], pattern) else Drop(maps[w], pattern)
  {
    r := maps;
    for i := 0 to |wires|
      invariant r.Keys == maps.Keys
      invariant forall w :: w in r ==>
                  r[w] == if w !in wires[..i] then maps[w] else if lit then Keep(maps[w], pattern) else Drop(maps[w], pattern)
    {
      var c := wires[i];
      if lit {
        assert Keep(Keep(maps[c], pattern), pattern) == Keep(maps[c], pattern);
        r := r[c := Keep(r[c], pattern)];
      } else {
        assert Drop(Drop(maps[c], pattern), pattern) == Drop(maps[c], pattern);
        r := r[c := Drop(r[c], pattern)];
      }
      assert wires[..i + 1] == wires[..i] + [c];
    }
    assert wires[..|wires|] == wires;
  }

  /** Keeping the lit segments on the cluster's wires, then dropping them from the complement's, is `Narrow`. */
  lemma TwoRetains(maps: map<char, set<char>>, inCluster: map<char, set<char>>, result: map<char, set<char>>,
                   cluster: string, complement: string, pattern: string)
    requires WellFormed(maps) && inCluster.Keys == maps.Keys && result.Keys == maps.Keys
    requires forall w :: w in inCluster ==> inCluster[w] == if w !in cluster then maps[w] else Keep(maps[w], pattern)
    requires forall w :: w in result ==> result[w] == if w !in complement then inCluster[w] else Drop(inCluster[w], pattern)
    requires forall c :: c in complement <==> c in Wires && c !in cluster
    ensures result == Narrow(maps, cluster, pattern)
  {
    var narrowed := Narrow(maps, cluster, pattern);
    forall w | w in result ensures result[w] == narrowed[w] {
      if w in cluster {
        assert w !in complement;
      } else if w in Wires {
        assert w in complement;
      }
    }
  }

  /**
   * `update_segment_maps`: wires of the cluster keep only segments of the
   * pattern, every other wire loses them; each key must be present.
   */
  method UpdateSegmentMaps(node: Display, cluster: string, pattern: string) returns (child: Display)
    requires WellFormed(node.maps) && IsWord(cluster)
    ensures child == node.(maps := Narrow(node.maps, cluster, pattern))
  {
    var inCluster := Retain(node.maps, cluster, pattern, true);
    var complement := Complement(Wires, cluster);
    WiresAreSegments();
    var maps := Retain(inCluster, complement, pattern, false);
    TwoRetains(node.maps, inCluster, maps, cluster, complement, pattern);
    child := node.(maps := maps);
  }

  /** `expand`'s children: pop the last pattern and narrow once for every digit of its length. */
  function Children(node: Display): (r: seq<Display>)
    requires node.mixed != [] ==> KnownLength(|node.mixed[|node.mixed| - 1]|)
    ensures |r| <= 3
    ensures node.mixed == [] ==> r == []
    ensures forall k :: 0 <= k < |r| ==> r[k].mixed == node.mixed[..|node.mixed| - 1] && r[k].shown == node.shown
  {
    if node.mixed == [] then []
    else
      var cluster := node.mixed[|node.mixed| - 1];
      var patterns := Candidates(|cluster|);
      seq(|patterns|, k requires 0 <= k < |patterns| =>
        node.(mixed := node.mixed[..|node.mixed| - 1], maps := Narrow(node.maps, cluster, patterns[k])))
  }

  /** `expand`: one `update_segment_maps` call per candidate digit. */
  method Expand(node: Display) returns (children: seq<Display>)
    requires WellFormed(node.maps)
    requires node.mixed != [] ==> KnownLength(|node.mixed[|node.mixed| - 1]|) && IsWord(node.mixed[|node.mixed| - 1])
    ensures children == Children(node)
  {
    var cluster := "";
    var popped := node.mixed;
    if popped != [] {
      cluster := popped[|popped| - 1];
      popped := popped[..|popped| - 1];
    }
    var patterns := Candidates(|cluster|);
    var parent := node.(mixed := popped);
    children := [];
    for k := 0 to |patterns|
      invariant |children| == k
      invariant forall j :: 0 <= j < k ==> children[j] == parent.(maps := Narrow(node.maps, cluster, patterns[j]))
    {
      var child := UpdateSegmentMaps(parent, cluster, patterns[k]);
      children := children + [child];
    }
  }

  /** The one candidate of a solved wire, the first of a..g in the set. */
  function Pick(s: set<char>, from: string): (c: char)
    requires exists i :: 0 <= i < |from| && from[i] in s
    ensures c in s
  {
    if from[0] in s then from[0] else Pick(s, from[1..])
  }

  lemma PickSingle(s: set<char>, c: char)
    requires s == {c} && c in AllSegments
    ensures (exists i :: 0 <= i < |Wires| && Wires[i] in s) && Pick(s, Wires) == c
  {
    assert Wires[c as int - 'a' as int] == c;
  }

  /** Which digit a sorted segment list shows; 0 when it shows none. */
  function Digit(s: string): (d: nat)
    ensures d <= 9
    ensures forall k :: 1 <= k <= 9 ==> (d == k <==> s == Pattern(k))
  {
    if s == DisplayZero then 0
    else if s == DisplayOne then 1
    else if s == DisplayTwo then 2
    else if s == DisplayThree then 3
    else if s == DisplayFour then 4
    else if s == DisplayFive then 5
    else if s == DisplaySix then 6
    else if s == DisplaySeven then 7
    else if s == DisplayEight then 8
    else if s == DisplayNine then 9
    else 0
  }

  /** Every wire of a solved, well-formed state can be read. */
  predicate Readable(maps: map<char, set<char>>, cluster: string) {
    forall i :: 0 <= i < |cluster| ==> cluster[i] in maps && exists j :: 0 <= j < |Wires| && Wires[j] in maps[cluster[i]]
  }

  lemma SolvedReadable(maps: map<char, set<char>>, cluster: string)
    requires WellFormed(maps) && IsSolved(maps) && IsWord(cluster)
    ensures Readable(maps, cluster)
  {
    forall i | 0 <= i < |cluster| ensures exists j :: 0 <= j < |Wires| && Wires[j] in maps[cluster[i]] {
      var w := cluster[i];
      var c :| c in maps[w];
      assert maps[w] == {c} by {
        assert |maps[w] - {c}| == 0;
        assert maps[w] - {c} == {};
      }
      PickSingle(maps[w], c);
    }
  }

  /** `map`: the segments the cluster's wires drive, sorted, read as a digit. */
  function Map(maps: map<char, set<char>>, cluster: string): (d: nat)
    requires Readable(maps, cluster)
    ensures d <= 9
  {
    var image := seq(|cluster|, i requires 0 <= i < |cluster| && Readable(maps, cluster) => Pick(maps[cluster[i]], Wires));
    Digit(SortBy(image, Letter))
  }

  /** `map_display_clusters`: the four output digits as a decimal number. */
  function MapDisplayClusters(node: Display): (v: nat)
    requires |node.shown| >= 4
    requires forall k :: 0 <= k < 4 ==> Readable(node.maps, node.shown[k])
    ensures v < 10000
    ensures v / 1000 == Map(node.maps, node.shown[0]) && v / 100 % 10 == Map(node.maps, node.shown[1])
    ensures v / 10 % 10 == Map(node.maps, node.shown[2]) && v % 10 == Map(node.maps, node.shown[3])
  {
    Decimal(Map(node.maps, node.shown[0]), Map(node.maps, node.shown[1]), Map(node.maps, node.shown[2]), Map(node.maps, node.shown[3]))
  }

  /** The number four decimal digits make, each read back from it. */
  function Decimal(a: nat, b: nat, c: nat, d: nat): (v: nat)
    requires a <= 9 && b <= 9 && c <= 9 && d <= 9
    ensures v < 10000 && v / 1000 == a && v / 100 % 10 == b && v / 10 % 10 == c && v % 10 == d
  {
    var v := a * 1000 + b * 100 + c * 10 + d;
    assert v / 10 == a * 100 + b * 10 + c;
    assert v / 100 == a * 10 + b;
    assert v / 1000 == a;
    v
  }

  // ---------------------------------------------------------------------------
  // The search.

  /** The candidates agree with `cluster` showing `pattern`. */
  predicate Fits(maps: map<char, set<char>>, cluster: string, pattern: string) {
    forall w, c :: w in maps && c in maps[w] ==> (w in cluster ==> c in pattern) && (w !in cluster ==> c !in pattern)
  }

  /** Some digit of the cluster's length fits it. */
  predicate Respects(maps: map<char, set<char>>, cluster: string)
    requires KnownLength(|cluster|)
  {
    exists k :: 0 <= k < |Candidates(|cluster|)| && Fits(maps, cluster, Candidates(|cluster|)[k])
  }

  /** What the source requires of a starting display. */
  predicate Startable(init: Display) {
    WellFormed(init.maps) && |init.shown| >= 4 &&
    (forall j :: 0 <= j < |init.mixed| ==> KnownLength(|init.mixed[j]|) && IsWord(init.mixed[j])) &&
    (forall k :: 0 <= k < 4 ==> IsWord(init.shown[k]))
  }

  /**
   * A state reached from `init`: the same outputs, a prefix of its patterns
   * still to use, fewer candidates, and a fitting digit for every pattern used.
   */
  predicate Refines(node: Display, init: Display)
    requires Startable(init)
  {
    WellFormed(node.maps) && node.shown == init.shown &&
    |node.mixed| <= |init.mixed| && node.mixed == init.mixed[..|node.mixed|] &&
    (forall w :: w in node.maps ==> node.maps[w] <= init.maps[w]) &&
    (forall j :: |node.mixed| <= j < |init.mixed| ==> Respects(node.maps, init.mixed[j]))
  }

  lemma FitsShrink(big: map<char, set<char>>, small: map<char, set<char>>, cluster: string, pattern: string)
    requires Fits(big, cluster, pattern)
    requires small.Keys == big.Keys && forall w :: w in small ==> small[w] <= big[w]
    ensures Fits(small, cluster, pattern)
  {
  }

  /** A child fits the pattern it was narrowed by. */
  lemma ChildFits(node: Display, k: nat)
    requires WellFormed(node.maps) && node.mixed != [] && KnownLength(|node.mixed[|node.mixed| - 1]|)
    requires k < |Children(node)|
    ensures var cluster := node.mixed[|node.mixed| - 1];
            Fits(Children(node)[k].maps, cluster, Candidates(|cluster|)[k])
  {
    var cluster := node.mixed[|node.mixed| - 1];
    var pattern := Candidates(|cluster|)[k];
    var child := Children(node)[k];
    forall w, c | w in child.maps && c in child.maps[w]
      ensures (w in cluster ==> c in pattern) && (w !in cluster ==> c !in pattern)
    {
      WiresAreSegments();
    }
  }

  /** Fewer candidates keep respecting a cluster. */
  lemma RespectsShrink(big: map<char, set<char>>, small: map<char, set<char>>, cluster: string)
    requires KnownLength(|cluster|) && Respects(big, cluster)
    requires small.Keys == big.Keys && forall w :: w in small ==> small[w] <= big[w]
    ensures Respects(small, cluster)
  {
    var i :| 0 <= i < |Candidates(|cluster|)| && Fits(big, cluster, Candidates(|cluster|)[i]);
    FitsShrink(big, small, cluster, Candidates(|cluster|)[i]);
  }

  /** The k-th child narrows the candidates by the k-th digit of the last cluster's length. */
  lemma ChildMaps(node: Display, k: nat)
    requires node.mixed != [] && KnownLength(|node.mixed[|node.mixed| - 1]|)
    requires k < |Children(node)|
    ensures var cluster := node.mixed[|node.mixed| - 1];
            k < |Candidates(|cluster|)| && Children(node)[k].maps == Narrow(node.maps, cluster, Candidates(|cluster|)[k])
  {
  }

  /** A child respects every pattern its parent has used, and the one it was narrowed by. */
  lemma ChildRespects(node: Display, init: Display, k: nat)
    requires Startable(init) && Refines(node, init) && node.mixed != []
    requires k < |Children(node)|
    ensures forall j :: |node.mixed| - 1 <= j < |init.mixed| ==> Respects(Children(node)[k].maps, init.mixed[j])
  {
    var n := |node.mixed|;
    var cluster := node.mixed[n - 1];
    var child := Children(node)[k];
    assert cluster == init.mixed[n - 1];
    ChildMaps(node, k);
    ChildFits(node, k);
    assert Respects(child.maps, cluster);
    forall j | n <= j < |init.mixed| ensures Respects(child.maps, init.mixed[j]) {
      RespectsShrink(node.maps, child.maps, init.mixed[j]);
    }
  }

  /** Every child of a reached state is reached too. */
  lemma ChildRefines(node: Display, init: Display, k: nat)
    requires Startable(init) && Refines(node, init) && node.mixed != []
    requires k < |Children(node)|
    ensures Refines(Children(node)[k], init)
  {
    var n := |node.mixed|;
    var child := Children(node)[k];
    ChildRespects(node, init, k);
    ChildMaps(node, k);
    assert init.mixed[..n][..n - 1] == init.mixed[..n - 1];
  }

  function Pow4(n: nat): (r: nat)
    ensures r >= 1
  {
    if n == 0 then 1 else 4 * Pow4(n - 1)
  }

  /** A bound on the work left: a state with n patterns to use has at most 4^n descendants. */
  function Weight(stack: seq<Display>): nat {
    if stack == [] then 0 else Weight(stack[..|stack| - 1]) + Pow4(|stack[|stack| - 1].mixed|)
  }

  lemma {:induction false} WeightAppend(a: seq<Display>, b: seq<Display>)
    ensures Weight(a + b) == Weight(a) + Weight(b)
    decreases |b|
  {
    if b == [] {
      assert a + b == a;
    } else {
      assert (a + b)[..|a + b| - 1] == a + b[..|b| - 1];
      WeightAppend(a, b[..|b| - 1]);
    }
  }

  /** Re-ordering the stack keeps its weight. */
  lemma {:induction false} WeightPermutation(a: seq<Display>, b: seq<Display>)
    requires multiset(a) == multiset(b)
    ensures Weight(a) == Weight(b)
    decreases |a|
  {
    if a != [] {
      var x := a[|a| - 1];
      assert a == a[..|a| - 1] + [x];
      assert x in multiset(b);
      var i :| 0 <= i < |b| && b[i] == x;
      assert b == b[..i] + [x] + b[i + 1..];
      var rest := b[..i] + b[i + 1..];
      assert multiset(b) == multiset(b[..i]) + multiset{x} + multiset(b[i + 1..]);
      assert multiset(a) == multiset(a[..|a| - 1]) + multiset{x};
      assert multiset(rest) == multiset(b[..i]) + multiset(b[i + 1..]);
      assert multiset(a[..|a| - 1]) == multiset(a) - multiset{x};
      assert multiset(rest) == multiset(b) - multiset{x};
      assert multiset(a[..|a| - 1]) == multiset(rest);
      WeightPermutation(a[..|a| - 1], rest);
      WeightAppend(b[..i] + [x], b[i + 1..]);
      WeightAppend(b[..i], b[i + 1..]);
      WeightAppend(b[..i], [x]);
      assert [x][..0] == [];
    }
  }

  /** `i` times `unit`, for the at most three children of a state. */
  function Share(i: nat, unit: nat): nat {
    if i == 0 then 0 else if i == 1 then unit else if i == 2 then 2 * unit else 3 * unit
  }

  /** The stack's order key: states with fewer patterns left go to the back, where `pop` takes them. */
  function Remaining(d: Display): int {
    -|d.mixed|
  }

  /** Lexicographic order of patterns, as Rust compares `String`s. */
  predicate StrLess(a: string, b: string) {
    if a == [] then b != []
    else if b == [] then false
    else if a[0] != b[0] then a[0] < b[0]
    else StrLess(a[1..], b[1..])
  }

  /** Lexicographic order of pattern lists, as Rust compares `Vec<String>`s. */
  predicate LexLess(a: seq<string>, b: seq<string>) {
    if a == [] then b != []
    else if b == [] then false
    else if a[0] != b[0] then StrLess(a[0], b[0])
    else LexLess(a[1..], b[1..])
  }

  /**
   * Every stacked state's patterns are a prefix of the starting list, so the
   * source's descending comparison of pattern lists is descending length.
   */
  lemma {:induction false} PrefixOrder(a: seq<string>, b: seq<string>, all: seq<string>)
    requires |a| <= |all| && |b| <= |all| && a == all[..|a|] && b == all[..|b|]
    ensures LexLess(a, b) <==> |a| < |b|
    decreases |a|
  {
    if a != [] && b != [] {
      assert a[0] == b[0];
      PrefixOrder(a[1..], b[1..], all[1..]);
    }
  }

  /** A solved state reached from `init`, and the value its outputs read as. */
  predicate Answer(init: Display, winner: Display, value: nat)
    requires Startable(init)
  {
    Refines(winner, init) && IsSolved(winner.maps) &&
    (forall k :: 0 <= k < 4 ==> Readable(winner.maps, winner.shown[k])) &&
    value == MapDisplayClusters(winner)
  }

  /** A solved state reached from `init` can be read, and is an answer. */
  lemma SolvedAnswer(init: Display, node: Display)
    requires Startable(init) && Refines(node, init) && IsSolved(node.maps)
    ensures forall k :: 0 <= k < 4 ==> Readable(node.maps, node.shown[k])
    ensures Answer(init, node, MapDisplayClusters(node))
  {
    forall k | 0 <= k < 4 ensures Readable(node.maps, node.shown[k]) {
      SolvedReadable(node.maps, node.shown[k]);
    }
  }

  /** Every stacked state is reached from `init`. */
  predicate AllRefine(stack: seq<Display>, init: Display)
    requires Startable(init)
  {
    forall d :: d in stack ==> Refines(d, init)
  }

  lemma AllRefinePush(stack: seq<Display>, node: Display, init: Display)
    requires Startable(init) && AllRefine(stack, init) && Refines(node, init)
    ensures AllRefine(stack + [node], init)
  {
    forall d | d in stack + [node] ensures Refines(d, init) {
      if d != node {
        assert d in stack;
      }
    }
  }

  lemma WeightPush(stack: seq<Display>, node: Display)
    ensures Weight(stack + [node]) == Weight(stack) + Pow4(|node.mixed|)
  {
    assert (stack + [node])[..|stack|] == stack;
  }

  /** One child in `solve`'s loop: read it when solved, push it when valid, drop it otherwise. */
  method Consider(init: Display, node: Display, stack: seq<Display>) returns (stack': seq<Display>, value: Option<nat>, ghost winner: Display)
    requires Startable(init) && Refines(node, init) && AllRefine(stack, init)
    ensures value.Some? ==> Answer(init, winner, value.value)
    ensures value.None? ==> AllRefine(stack', init) && Weight(stack') <= Weight(stack) + Pow4(|node.mixed|)
  {
    hide AllRefine, Weight;
    winner := node;
    stack' := stack;
    value := None;
    if IsSolved(node.maps) {
      SolvedAnswer(init, node);
      value := Some(MapDisplayClusters(node));
    } else if IsValid(node.maps) {
      WeightPush(stack, node);
      AllRefinePush(stack, node, init);
      stack' := stack + [node];
    }
  }

  /**
   * The body of `solve`'s loop for the popped state `current`: read the first
   * solved child, otherwise push every valid child.
   */
  method Visit(init: Display, current: Display, stack: seq<Display>) returns (stack': seq<Display>, value: Option<nat>, ghost winner: Display)
    requires Startable(init) && Refines(current, init)
    requires AllRefine(stack, init)
    ensures value.Some? ==> Answer(init, winner, value.value)
    ensures value.None? ==> AllRefine(stack', init) && Weight(stack') < Weight(stack) + Pow4(|current.mixed|)
  {
    var n := |current.mixed|;
    if n > 0 {
      assert current.mixed[n - 1] == init.mixed[n - 1];
    }
    ghost var unit := if n > 0 then Pow4(n - 1) else 0;
    var next := Expand(current);
    stack', value, winner := PushChildren(init, current, next, stack, unit);
    ShareBelow(|next|, n);
  }

  /** At most three children, each weighing a quarter of their parent, weigh less than it. */
  lemma ShareBelow(k: nat, n: nat)
    requires k <= 3 && (n == 0 ==> k == 0)
    ensures Share(k, if n > 0 then Pow4(n - 1) else 0) < Pow4(n)
  {
    if n > 0 {
      assert Pow4(n) == 4 * Pow4(n - 1);
    }
  }

  /** The loop over the children of `current`: each is read or pushed by `Consider`, each push adding at most `unit` to the weight. */
  method PushChildren(init: Display, current: Display, next: seq<Display>, stack: seq<Display>, ghost unit: nat)
    returns (stack': seq<Display>, value: Option<nat>, ghost winner: Display)
    requires Startable(init) && Refines(current, init) && AllRefine(stack, init)
    requires current.mixed != [] ==> KnownLength(|current.mixed[|current.mixed| - 1]|)
    requires next == Children(current) && unit == (if current.mixed != [] then Pow4(|current.mixed| - 1) else 0)
    ensures value.Some? ==> Answer(init, winner, value.value)
    ensures value.None? ==> AllRefine(stack', init) && Weight(stack') <= Weight(stack) + Share(|next|, unit)
  {
    hide Weight, AllRefine, Children;
    winner := init;
    stack' := stack;
    value := None;
    for i := 0 to |next|
      invariant AllRefine(stack', init)
      invariant Weight(stack') <= Weight(stack) + Share(i, unit)
    {
      var node := next[i];
      ChildRefines(current, init, i);
      var found;
      stack', found, winner := Consider(init, node, stack');
      if found.Some? {
        return stack', found, winner;
      }
    }
  }

  /**
   * `solve`: depth-first search, taking the state with the fewest patterns
   * left; the first solved child is read. None where the source reaches its
   * `unreachable!`: the stack ran empty.
   */
  method Solve(init: Display) returns (value: Option<nat>, ghost winner: Display)
    requires Startable(init)
    ensures value.Some? ==> Answer(init, winner, value.value)
  {
    assert Refines(init, init) by {
      assert init.mixed[..|init.mixed|] == init.mixed;
    }
    winner := init;
    var stack := [init];
    while stack != []
      invariant AllRefine(stack, init)
      decreases Weight(stack)
    {
      ghost var weight := Weight(stack);
      var current := stack[|stack| - 1];
      assert current in stack;
      stack := stack[..|stack| - 1];
      assert weight == Weight(stack) + Pow4(|current.mixed|);
      var found;
      stack, found, winner := Visit(init, current, stack);
      if found.Some? {
        return found, winner;
      }
      var sorted := SortBy(stack, Remaining);
      WeightPermutation(stack, sorted);
      assert forall d :: d in sorted ==> d in multiset(stack);
      stack := sorted;
    }
    value := None;
  }
}

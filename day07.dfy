/** The treachery of whales (day07.rs): aligning crab positions at the cheapest fuel cost. */
module Whales {
  import opened Sorting

  datatype Option<T> = None | Some(value: T)

  /** The tokens that parse as integers, in input order. */
  function Parsed(tokens: seq<Option<int>>): (r: seq<int>)
    ensures forall x :: x in r <==> Some(x) in tokens
  {
    if tokens == [] then []
    else
      var rest := Parsed(tokens[1..]);
      assert forall t :: t in tokens <==> t == tokens[0] || t in tokens[1..];
      if tokens[0].Some? then [tokens[0].value] + rest else rest
  }

  /** `parse`: the tokens that are integers, sorted ascending. */
  function Parse(tokens: seq<Option<int>>): (r: seq<int>)
    ensures Sorted(r) && multiset(r) == multiset(Parsed(tokens))
    ensures forall x :: x in r <==> Some(x) in tokens
  {
    var r := Sort(Parsed(tokens));
    assert forall x :: x in r <==> x in multiset(r);
    assert forall x :: x in Parsed(tokens) <==> x in multiset(Parsed(tokens));
    r
  }

  function Abs(x: int): nat {
    if x < 0 then -x else x
  }

  /** The part-A fuel to bring every crab to `x`: the sum of the distances. */
  function Fuel(s: seq<int>, x: int): nat {
    if s == [] then 0 else Abs(x - s[0]) + Fuel(s[1..], x)
  }

  lemma {:induction false} FuelLast(s: seq<int>, x: int)
    requires s != []
    ensures Fuel(s, x) == Fuel(s[..|s| - 1], x) + Abs(x - s[|s| - 1])
  {
    if |s| > 1 {
      assert s[1..][..|s| - 2] == s[..|s| - 1][1..];
      FuelLast(s[1..], x);
    }
  }

  /**
   * The median of a sorted list minimises the part-A fuel: no target is
   * cheaper than `s[|s| / 2]`. Peeling the outermost pair keeps the median and
   * costs at least their spread, exactly that when the target lies between them.
   */
  lemma {:induction false} MedianMinimises(s: seq<int>, x: int)
    requires Sorted(s) && s != []
    ensures Fuel(s, s[|s| / 2]) <= Fuel(s, x)
    decreases |s|
  {
    var m := s[|s| / 2];
    if |s| >= 2 {
      var inner := s[1..|s| - 1];
      assert Sorted(inner);
      FuelLast(s, x);
      FuelLast(s, m);
      assert s[..|s| - 1][1..] == inner;
      assert Fuel(s[..|s| - 1], x) == Abs(x - s[0]) + Fuel(inner, x);
      assert Fuel(s[..|s| - 1], m) == Abs(m - s[0]) + Fuel(inner, m);
      if inner != [] {
        assert inner[|inner| / 2] == m;
        MedianMinimises(inner, x);
      }
    }
  }

  /**
   * Part A with the median index as the source computes it: `len / 2` for an
   * even length but `len / 2 + 1` for an odd one; the index must be in range.
   */
  function SolutionAAsWritten(positions: seq<int>): (r: nat)
    requires |positions| >= 2
    ensures |positions| % 2 == 0 ==> r == Fuel(positions, positions[|positions| / 2])
    ensures |positions| % 2 == 1 ==> r == Fuel(positions, positions[|positions| / 2 + 1])
  {
    var medianPos := if |positions| % 2 == 0 then |positions| / 2 else |positions| / 2 + 1;
    Fuel(positions, positions[medianPos])
  }

  /** On [0, 0, 10] the odd-length index picks 10 and charges 20, while aligning at 0 costs 10. */
  lemma MedianOffByOne()
    ensures SolutionAAsWritten([0, 0, 10]) == 20
    ensures Fuel([0, 0, 10], 0) == 10
  {
    assert [0, 0, 10][1..] == [0, 10];
    assert [0, 10][1..] == [10];
    assert [10][1..] == [];
  }

  /** Part A with the median index `len / 2` for every length: the least part-A fuel over all targets. */
  function SolutionA(positions: seq<int>): (r: nat)
    requires Sorted(positions) && positions != []
    ensures forall x :: r <= Fuel(positions, x)
    ensures exists k :: 0 <= k < |positions| && r == Fuel(positions, positions[k])
  {
    var m := positions[|positions| / 2];
    forall x ensures Fuel(positions, m) <= Fuel(positions, x) {
      MedianMinimises(positions, x);
    }
    Fuel(positions, m)
  }

  /** The triangular numbers 1 + 2 + ... + n, step by step. */
  function Triangle(n: nat): nat {
    if n == 0 then 0 else Triangle(n - 1) + n
  }

  /** `cost`: moving `n` steps costs n(n+1)/2. */
  function Cost(n: nat): nat {
    n * (n + 1) / 2
  }

  /** Each further step costs one more than the last: `cost` is the triangular sum. */
  lemma {:induction false} CostIsTriangle(n: nat)
    ensures Cost(n) == Triangle(n)
  {
    if n > 0 {
      CostIsTriangle(n - 1);
      assert n * (n + 1) == (n - 1) * n + 2 * n;
    }
  }

  /** `total`: the part-B fuel to bring every crab to `x`. */
  function Total(s: seq<int>, x: int): nat {
    if s == [] then 0 else Cost(Abs(x - s[0])) + Total(s[1..], x)
  }

  /** Part-B fuel is never below part-A fuel, since each step costs at least one. */
  lemma {:induction false} TotalAtLeastFuel(s: seq<int>, x: int)
    ensures Total(s, x) >= Fuel(s, x)
  {
    if s != [] {
      TotalAtLeastFuel(s[1..], x);
      CostIsTriangle(Abs(x - s[0]));
      TriangleAtLeast(Abs(x - s[0]));
    }
  }

  lemma {:induction false} TriangleAtLeast(n: nat)
    ensures Triangle(n) >= n
  {
    if n > 0 {
      TriangleAtLeast(n - 1);
    }
  }

  /** `solution_b` given the rounded mean: the cheaper of aligning at the mean and one below it. */
  function SolutionB(positions: seq<int>, mean: int): (r: nat)
    ensures r <= Total(positions, mean) && r <= Total(positions, mean - 1)
    ensures r == Total(positions, mean) || r == Total(positions, mean - 1)
  {
    var total1 := Total(positions, mean);
    var total2 := Total(positions, mean - 1);
    if total1 <= total2 then total1 else total2
  }
}

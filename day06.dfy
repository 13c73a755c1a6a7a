/** Lanternfish (day06.rs): fish counted per timer value in nine buckets, rotated once a day. */
module Lanternfish {

  /** Timers run from 0 to `CycleMax + NewDelay`: 6 for a grown fish, 8 for a newborn. */
  const CycleMax: nat := 6
  const NewDelay: nat := 2
  const Max: nat := CycleMax + NewDelay
  const Buckets: nat := Max + 1

  /** The number of fish with timer `t`. */
  function CountOf(timers: seq<nat>, t: nat): nat {
    if timers == [] then 0
    else CountOf(timers[..|timers| - 1], t) + (if timers[|timers| - 1] == t then 1 else 0)
  }

  /** The nine buckets of a list of timers. */
  function Census(timers: seq<nat>): (p: seq<nat>)
    ensures |p| == Buckets
  {
    seq(Buckets, t requires 0 <= t < Buckets => CountOf(timers, t))
  }

  /** The sum of a bucket list. */
  function Sum(p: seq<nat>): nat {
    if p == [] then 0 else Sum(p[..|p| - 1]) + p[|p| - 1]
  }

  /**
   * One day: the fish at timer 0 give birth, going back to timer 6 while their
   * young start at 8; every other bucket moves down by one.
   */
  function Day(p: seq<nat>): (q: seq<nat>)
    requires |p| == Buckets
    ensures |q| == Buckets
  {
    seq(Buckets, k requires 0 <= k < Buckets =>
      (if k == Max || k == CycleMax then p[0] else 0) + (if k < Max then p[k + 1] else 0))
  }

  /** The buckets after `days` days. */
  function Days(p: seq<nat>, days: nat): (q: seq<nat>)
    requires |p| == Buckets
    ensures |q| == Buckets
  {
    if days == 0 then p else Day(Days(p, days - 1))
  }

  /** What the day loop has written into the fresh buckets after visiting buckets `0..n`. */
  function Partial(p: seq<nat>, n: nat, k: nat): nat
    requires |p| == Buckets && k < Buckets
  {
    (if n > 0 && (k == Max || k == CycleMax) then p[0] else 0) + (if k < Max && k + 1 < n then p[k + 1] else 0)
  }

  lemma SumNine(p: seq<nat>)
    requires |p| == Buckets
    ensures Sum(p) == p[0] + p[1] + p[2] + p[3] + p[4] + p[5] + p[6] + p[7] + p[8]
  {
    assert Sum(p[..1]) == p[0] by { assert p[..1][..0] == []; }
    assert Sum(p[..2]) == Sum(p[..1]) + p[1] by { assert p[..2][..1] == p[..1]; }
    assert Sum(p[..3]) == Sum(p[..2]) + p[2] by { assert p[..3][..2] == p[..2]; }
    assert Sum(p[..4]) == Sum(p[..3]) + p[3] by { assert p[..4][..3] == p[..3]; }
    assert Sum(p[..5]) == Sum(p[..4]) + p[4] by { assert p[..5][..4] == p[..4]; }
    assert Sum(p[..6]) == Sum(p[..5]) + p[5] by { assert p[..6][..5] == p[..5]; }
    assert Sum(p[..7]) == Sum(p[..6]) + p[6] by { assert p[..7][..6] == p[..6]; }
    assert Sum(p[..8]) == Sum(p[..7]) + p[7] by { assert p[..8][..7] == p[..7]; }
    assert p[..9] == p;
  }

  /** A day adds exactly the newborns, one per fish at timer 0. */
  lemma DayTotal(p: seq<nat>)
    requires |p| == Buckets
    ensures Sum(Day(p)) == Sum(p) + p[0]
  {
    SumNine(p);
    SumNine(Day(p));
  }

  /** No fish is lost: the population never shrinks from one day to the next. */
  lemma {:induction false} DaysGrow(p: seq<nat>, days: nat)
    requires |p| == Buckets
    ensures Sum(Days(p, days)) >= Sum(p)
  {
    if days > 0 {
      DaysGrow(p, days - 1);
      DayTotal(Days(p, days - 1));
    }
  }

  lemma {:induction false} CountTotal(timers: seq<nat>, n: nat)
    requires n <= Buckets
    requires forall i :: 0 <= i < |timers| ==> timers[i] < n
    ensures Sum(seq(n, t requires 0 <= t < n => CountOf(timers, t))) == |timers|
    decreases |timers|, n
  {
    if timers == [] {
      if n > 0 {
        var s := seq(n, t requires 0 <= t < n => CountOf(timers, t));
        assert s[..n - 1] == seq(n - 1, t requires 0 <= t < n - 1 => CountOf(timers, t));
        CountTotal(timers, n - 1);
      }
    } else {
      var init := timers[..|timers| - 1];
      var last := timers[|timers| - 1];
      CountTotal(init, n);
      SumBump(seq(n, t requires 0 <= t < n => CountOf(init, t)), seq(n, t requires 0 <= t < n => CountOf(timers, t)), last);
    }
  }

  /** Adding one to a single entry adds one to the sum. */
  lemma {:induction false} SumBump(a: seq<nat>, b: seq<nat>, j: nat)
    requires |a| == |b| && j < |a|
    requires forall k :: 0 <= k < |a| ==> b[k] == a[k] + (if k == j then 1 else 0)
    ensures Sum(b) == Sum(a) + 1
  {
    var n := |a| - 1;
    if j < n {
      SumBump(a[..n], b[..n], j);
    } else {
      assert a[..n] == b[..n];
    }
  }

  /** `parse`: one bucket per timer value counting the fish with that timer; every timer must be below 9. */
  method Parse(timers: seq<nat>) returns (population: array<nat>)
    requires forall i :: 0 <= i < |timers| ==> timers[i] < Buckets
    ensures fresh(population) && population.Length == Buckets
    ensures population[..] == Census(timers)
    ensures Sum(population[..]) == |timers|
  {
    population := new nat[Buckets](_ => 0);
    for i := 0 to |timers|
      invariant forall t :: 0 <= t < Buckets ==> population[t] == CountOf(timers[..i], t)
    {
      assert timers[..i + 1][..i] == timers[..i];
      population[timers[i]] := population[timers[i]] + 1;
    }
    assert timers[..|timers|] == timers;
    CountTotal(timers, Buckets);
  }

  /**
   * The inner loop of `solve`: bucket 0 is written to buckets 8 and 6 of the
   * zeroed scratch array, and every other bucket is added one below.
   */
  method Rotate(population: array<nat>, newPopulation: array<nat>)
    requires population != newPopulation
    requires population.Length == Buckets && newPopulation.Length == Buckets
    requires forall k :: 0 <= k < Buckets ==> newPopulation[k] == 0
    modifies newPopulation
    ensures newPopulation[..] == Day(population[..])
  {
    for n := 0 to Buckets
      invariant forall k :: 0 <= k < Buckets ==> newPopulation[k] == Partial(population[..], n, k)
    {
      if n == 0 {
        newPopulation[Max] := population[0];
        newPopulation[CycleMax] := population[0];
      } else {
        newPopulation[n - 1] := newPopulation[n - 1] + population[n];
      }
    }
  }

  /** `for val in &mut new_population { *val = 0; }`. */
  method Clear(a: array<nat>)
    modifies a
    ensures forall k :: 0 <= k < a.Length ==> a[k] == 0
  {
    for k := 0 to a.Length
      invariant forall j :: 0 <= j < k ==> a[j] == 0
    {
      a[k] := 0;
    }
  }

  /**
   * `solve`: rotate the buckets once a day into a zeroed scratch array, swap the
   * two arrays and zero the new scratch; the answer is the final total.
   */
  method Solve(timers: seq<nat>, numDays: nat) returns (count: nat)
    requires forall i :: 0 <= i < |timers| ==> timers[i] < Buckets
    ensures count == Sum(Days(Census(timers), numDays))
    ensures count >= |timers|
  {
    var population := Parse(timers);
    ghost var initial := population[..];
    var newPopulation := new nat[Buckets](_ => 0);
    for i := 0 to numDays
      invariant fresh(population) && fresh(newPopulation)
      invariant population != newPopulation
      invariant population.Length == Buckets && newPopulation.Length == Buckets
      invariant population[..] == Days(initial, i)
      invariant forall k :: 0 <= k < Buckets ==> newPopulation[k] == 0
    {
      Rotate(population, newPopulation);
      population, newPopulation := newPopulation, population;
      Clear(newPopulation);
    }
    SumNine(population[..]);
    count := population[0] + population[1] + population[2] + population[3] + population[4] +
             population[5] + population[6] + population[7] + population[8];
    DaysGrow(initial, numDays);
  }
}

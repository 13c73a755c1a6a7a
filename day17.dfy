/**
 * Trick shot (day17.rs): a probe launched from the origin with an integer
 * velocity; each step moves it by its velocity, drag pulls a positive x
 * velocity towards 0 and gravity lowers the y velocity by 1. The question is
 * which launch velocities put the probe inside a rectangular target area.
 */
module TrickShot {

  /** `TargetArea`: the inclusive bounds of the target. */
  datatype TargetArea = TargetArea(xMin: int, xMax: int, yMin: int, yMax: int)

  /** The probe's position and velocity. */
  datatype Probe = Probe(x: int, y: int, vx: int, vy: int)

  /** `position_is_valid`: not yet past the target to the right, and not yet below it. */
  predicate PositionIsValid(a: TargetArea, x: int, y: int) {
    x <= a.xMax && y >= a.yMin
  }

  /** `is_in_target_area`: inside the target, all four bounds inclusive. */
  predicate IsInTargetArea(a: TargetArea, x: int, y: int) {
    a.xMin <= x <= a.xMax && a.yMin <= y <= a.yMax
  }

  /** One step of the loop in `check_solution`. */
  function Step(p: Probe): Probe {
    Probe(p.x + p.vx, p.y + p.vy, if p.vx > 0 then p.vx - 1 else p.vx, p.vy - 1)
  }

  function Launch(vx: int, vy: int): Probe {
    Probe(0, 0, vx, vy)
  }

  /** The probe after `k` steps. */
  function Trajectory(p: Probe, k: nat): Probe
    decreases k
  {
    if k == 0 then p else Trajectory(Step(p), k - 1)
  }

  /**
   * `check_solution` as a function: walk while the position is valid and
   * answer true at the first position inside the target. While the y velocity
   * is not negative it falls; after that the height falls towards `yMin`.
   */
  function Hits(a: TargetArea, p: Probe): bool
    decreases if p.vy >= 0 then 1 else 0, if p.vy >= 0 then p.vy else p.y - a.yMin
  {
    if !PositionIsValid(a, p.x, p.y) then false
    else if IsInTargetArea(a, p.x, p.y) then true
    else Hits(a, Step(p))
  }

  /** The probe is in the target after `k` steps, and every position before was valid. */
  predicate Reaches(a: TargetArea, p: Probe, k: nat) {
    var q := Trajectory(p, k);
    IsInTargetArea(a, q.x, q.y) &&
    forall j :: 0 <= j < k ==> PositionIsValid(a, Trajectory(p, j).x, Trajectory(p, j).y)
  }

  /** `Hits` is true exactly when some position visited before the walk stops is in the target. */
  lemma {:induction false} HitsIff(a: TargetArea, p: Probe)
    ensures Hits(a, p) <==> exists k :: Reaches(a, p, k)
    decreases if p.vy >= 0 then 1 else 0, if p.vy >= 0 then p.vy else p.y - a.yMin
  {
    assert Trajectory(p, 0) == p;
    if PositionIsValid(a, p.x, p.y) && !IsInTargetArea(a, p.x, p.y) {
      HitsIff(a, Step(p));
      if Hits(a, p) {
        var k :| Reaches(a, Step(p), k);
        ReachesStep(a, p, k);
      } else if k: nat :| Reaches(a, p, k) {
        assert k > 0;
        ReachesStep(a, p, k - 1);
      }
    } else if PositionIsValid(a, p.x, p.y) {
      assert Reaches(a, p, 0);
    }
  }

  /** From a valid position, reaching the target after `k + 1` steps is reaching it from the next position after `k`. */
  lemma ReachesStep(a: TargetArea, p: Probe, k: nat)
    requires PositionIsValid(a, p.x, p.y)
    ensures Reaches(a, p, k + 1) <==> Reaches(a, Step(p), k)
  {
    forall j | 0 <= j < k
      ensures Trajectory(p, j + 1) == Trajectory(Step(p), j)
    {
    }
    if Reaches(a, Step(p), k) {
      forall j | 0 <= j < k + 1
        ensures PositionIsValid(a, Trajectory(p, j).x, Trajectory(p, j).y)
      {
        if j > 0 {
          assert Trajectory(p, j) == Trajectory(Step(p), j - 1);
        }
      }
    }
  }

  /**
   * `check_solution`: steps the probe while its position is valid and
   * answers whether it stopped inside the target.
   */
  method CheckSolution(a: TargetArea, xVel0: int, yVel0: int) returns (r: bool)
    ensures r == Hits(a, Launch(xVel0, yVel0))
  {
    var xVel, yVel := xVel0, yVel0;
    var x, y := 0, 0;
    while PositionIsValid(a, x, y)
      invariant Hits(a, Probe(x, y, xVel, yVel)) == Hits(a, Launch(xVel0, yVel0))
      decreases if yVel >= 0 then 1 else 0, if yVel >= 0 then yVel else y - a.yMin
    {
      if IsInTargetArea(a, x, y) {
        return true;
      }
      x := x + xVel;
      y := y + yVel;
      if xVel > 0 {
        xVel := xVel - 1;
      }
      yVel := yVel - 1;
    }
    return false;
  }

  // ---------------------------------------------------------------------------
  // The shape of a trajectory.

  lemma {:induction false} TrajectoryAdd(p: Probe, m: nat, n: nat)
    ensures Trajectory(p, m + n) == Trajectory(Trajectory(p, m), n)
    decreases m
  {
    if m > 0 {
      TrajectoryAdd(Step(p), m - 1, n);
    }
  }

  /** Gravity: the y velocity after `k` steps is `k` less. A non-negative x velocity stays non-negative. */
  lemma {:induction false} Velocities(p: Probe, k: nat)
    ensures Trajectory(p, k).vy == p.vy - k
    ensures p.vx >= 0 ==> Trajectory(p, k).vx >= 0
    decreases k
  {
    if k > 0 {
      Velocities(Step(p), k - 1);
    }
  }

  /** With a non-negative x velocity the probe never moves left. */
  lemma {:induction false} XMonotone(p: Probe, j: nat, k: nat)
    requires p.vx >= 0 && j <= k
    ensures Trajectory(p, j).x <= Trajectory(p, k).x
    decreases k
  {
    if j > 0 {
      XMonotone(Step(p), j - 1, k - 1);
    } else if k > 0 {
      XMonotone(Step(p), 0, k - 1);
    }
  }

  /** Once the y velocity is not positive, the probe never rises. */
  lemma {:induction false} Falling(p: Probe, k: nat)
    requires p.vy <= 0
    ensures Trajectory(p, k).y <= p.y
    decreases k
  {
    if k > 0 {
      Falling(Step(p), k - 1);
    }
  }

  /** The height is a concave path: in between, it is at least the lower of the start and a later height. */
  lemma {:induction false} YAbove(p: Probe, j: nat, k: nat)
    requires j <= k
    ensures Trajectory(p, j).y >= p.y || Trajectory(p, j).y >= Trajectory(p, k).y
    decreases k
  {
    if j > 0 {
      var q := Step(p);
      YAbove(q, j - 1, k - 1);
      if p.vy < 0 {
        Falling(q, k - 1);
      }
    }
  }

  /**
   * The walk never stops too early: with a non-negative x velocity, from a
   * valid position, any later position inside the target is found by `Hits`.
   * (A target above the start or left of it would be missed.)
   */
  lemma EarlyStopSafe(a: TargetArea, p: Probe, k: nat)
    requires p.vx >= 0 && PositionIsValid(a, p.x, p.y)
    requires IsInTargetArea(a, Trajectory(p, k).x, Trajectory(p, k).y)
    ensures Hits(a, p)
  {
    forall j | 0 <= j < k
      ensures PositionIsValid(a, Trajectory(p, j).x, Trajectory(p, j).y)
    {
      XMonotone(p, j, k);
      YAbove(p, j, k);
    }
    assert Reaches(a, p, k);
    HitsIff(a, p);
  }

  /** `1 + 2 + ... + n`. */
  function Tri(n: nat): nat {
    if n == 0 then 0 else n + Tri(n - 1)
  }

  lemma {:induction false} TriFormula(n: nat)
    ensures 2 * Tri(n) == n * (n + 1)
  {
    if n > 0 {
      TriFormula(n - 1);
    }
  }

  lemma {:induction false} TriMonotone(m: nat, n: nat)
    requires m <= n
    ensures Tri(m) <= Tri(n)
  {
    if m < n {
      TriMonotone(m, n - 1);
    }
  }

  /** With y velocity `vy >= 0` the probe rises at most `Tri(vy)`. */
  lemma {:induction false} HeightBound(p: Probe, k: nat)
    requires p.vy >= 0
    ensures Trajectory(p, k).y <= p.y + Tri(p.vy)
    decreases k
  {
    if k > 0 {
      if p.vy > 0 {
        HeightBound(Step(p), k - 1);
      } else {
        Falling(Step(p), k - 1);
      }
    }
  }

  /** ... and it rises exactly that much, after `vy` steps. */
  lemma {:induction false} Apex(p: Probe)
    requires p.vy >= 0
    ensures Trajectory(p, p.vy).y == p.y + Tri(p.vy)
    decreases p.vy
  {
    if p.vy > 0 {
      Apex(Step(p));
    }
  }

  /** After `2 vy + 1` steps the probe is back at its starting height, falling at `vy + 1`. */
  lemma {:induction false} Return(p: Probe)
    requires p.vy >= 0
    ensures Trajectory(p, 2 * p.vy + 1).y == p.y && Trajectory(p, 2 * p.vy + 1).vy == -p.vy - 1
    decreases p.vy
  {
    var q := Step(p);
    if p.vy > 0 {
      Return(q);
      TrajectoryAdd(q, 2 * q.vy + 1, 1);
    }
  }

  /** After `x` steps or more, a probe with x velocity `vx >= 0` has come to rest `Tri(vx)` to the right. */
  lemma {:induction false} XStalls(p: Probe, k: nat)
    requires 0 <= p.vx <= k
    ensures Trajectory(p, k).x == p.x + Tri(p.vx)
    decreases k
  {
    if k > 0 {
      XStalls(Step(p), k - 1);
    }
  }

  // ---------------------------------------------------------------------------
  // The two answers.

  /** `solution_a`: the triangular number `yMin (yMin + 1) / 2`. */
  function SolutionA(a: TargetArea): (r: int)
    ensures a.yMin < 0 ==> r == Tri(-a.yMin - 1)
  {
    TriFormula(if a.yMin < 0 then -a.yMin - 1 else 0);
    (a.yMin + 1) * a.yMin / 2
  }

  /**
   * For a target below the origin, a launch upwards at `vy >= -yMin` comes
   * back through height 0 and its next step jumps past the bottom of the
   * target: it cannot hit.
   */
  lemma TooFastMisses(a: TargetArea, vx: int, vy: int)
    requires a.yMax < 0 && vy >= -a.yMin
    ensures !Hits(a, Launch(vx, vy))
  {
    var p := Launch(vx, vy);
    var n := 2 * vy + 1;
    HitsIff(a, p);
    if k: nat :| Reaches(a, p, k) {
      Return(p);
      TrajectoryAdd(p, n, 1);
      if k <= n {
        YAbove(p, k, n);
      }
    }
  }

  /** `solution_a` is an upper bound: no launch that hits a target below the origin ever rises above it. */
  lemma HighestBound(a: TargetArea, vx: int, vy: int, k: nat)
    requires a.yMax < 0 && Hits(a, Launch(vx, vy))
    ensures Trajectory(Launch(vx, vy), k).y <= SolutionA(a)
  {
    if vy >= -a.yMin {
      TooFastMisses(a, vx, vy);
    } else if vy >= 0 {
      HeightBound(Launch(vx, vy), k);
      TriMonotone(vy, -a.yMin - 1);
    } else {
      Falling(Launch(vx, vy), k);
    }
  }

  /**
   * ... and it is reached: launched upwards at `-yMin - 1`, with an x velocity
   * that comes to rest above the target soon enough, the probe hits the
   * target's bottom row and its apex is `solution_a`.
   */
  lemma HighestAttained(a: TargetArea, vx: nat)
    requires a.yMin <= a.yMax < 0 && a.xMin <= Tri(vx) <= a.xMax && vx <= -2 * a.yMin
    ensures Hits(a, Launch(vx, -a.yMin - 1))
    ensures Trajectory(Launch(vx, -a.yMin - 1), -a.yMin - 1).y == SolutionA(a)
  {
    var vy := -a.yMin - 1;
    var p := Launch(vx, vy);
    var n := 2 * vy + 1;
    Return(p);
    TrajectoryAdd(p, n, 1);
    XStalls(p, n + 1);
    EarlyStopSafe(a, p, n + 1);
    Apex(p);
  }

  /** The launch velocities `solution_b` tries that hit the target. */
  function HitSet(a: TargetArea): set<(int, int)> {
    set x, y | 1 <= x <= a.xMax && a.yMin <= y <= -a.yMin && Hits(a, Launch(x, y)) :: (x, y)
  }

  /** The hitting velocities among x in `1..xEnd - 1` and y in `yMin..-yMin`. */
  function Columns(a: TargetArea, xEnd: int): set<(int, int)> {
    set x, y | 1 <= x < xEnd && a.yMin <= y <= -a.yMin && Hits(a, Launch(x, y)) :: (x, y)
  }

  /** The hitting velocities with x velocity `x` and y in `yMin..yEnd - 1`. */
  function Column(a: TargetArea, x: int, yEnd: int): set<(int, int)> {
    set y | a.yMin <= y < yEnd && Hits(a, Launch(x, y)) :: (x, y)
  }

  /**
   * `solution_b`: counts the velocities with x in `1..=xMax` and y in
   * `yMin..=-yMin` for which `check_solution` holds.
   */
  method SolutionB(a: TargetArea) returns (count: nat)
    ensures count == |HitSet(a)|
  {
    count := 0;
    var x := 1;
    while x <= a.xMax
      invariant 1 <= x && (x == 1 || x <= a.xMax + 1)
      invariant count == |Columns(a, x)|
      decreases a.xMax - x
    {
      var c := CountColumn(a, x);
      ColumnsStep(a, x);
      count := count + c;
      x := x + 1;
    }
    HitSetColumns(a, x);
  }

  /** The columns up to `x` inclusive are those before it and column `x`, which shares no velocity with them. */
  lemma ColumnsStep(a: TargetArea, x: int)
    requires x >= 1
    ensures |Columns(a, x + 1)| == |Columns(a, x)| + |Column(a, x, -a.yMin + 1)|
  {
    var before, col := Columns(a, x), Column(a, x, -a.yMin + 1);
    forall v | v in Columns(a, x + 1) ensures v in before + col {
      if v.0 == x {
        assert a.yMin <= v.1 < -a.yMin + 1 && Hits(a, Launch(x, v.1));
      } else {
        assert 1 <= v.0 < x && a.yMin <= v.1 <= -a.yMin && Hits(a, Launch(v.0, v.1));
      }
    }
    forall v | v in col ensures v in Columns(a, x + 1) {
      assert 1 <= v.0 < x + 1 && a.yMin <= v.1 <= -a.yMin && Hits(a, Launch(v.0, v.1));
    }
    assert Columns(a, x + 1) == before + col;
    assert before !! col;
  }

  lemma HitSetColumns(a: TargetArea, xEnd: int)
    requires xEnd == a.xMax + 1 || (a.xMax < 1 && xEnd == 1)
    ensures HitSet(a) == Columns(a, xEnd)
  {
    forall v | v in Columns(a, xEnd) ensures v in HitSet(a) {
      assert 1 <= v.0 <= a.xMax && a.yMin <= v.1 <= -a.yMin && Hits(a, Launch(v.0, v.1));
    }
    forall v | v in HitSet(a) ensures v in Columns(a, xEnd) {
      assert 1 <= v.0 < xEnd && a.yMin <= v.1 <= -a.yMin && Hits(a, Launch(v.0, v.1));
    }
  }

  /** The inner range of `solution_b`: for x velocity `x`, the count of y in `yMin..=-yMin` that hit. */
  method CountColumn(a: TargetArea, x: int) returns (count: nat)
    ensures count == |Column(a, x, -a.yMin + 1)|
  {
    count := 0;
    var y := a.yMin;
    assert Column(a, x, y) == {};
    while y <= -a.yMin
      invariant a.yMin <= y && (a.yMin <= -a.yMin ==> y <= -a.yMin + 1)
      invariant count == |Column(a, x, y)|
      decreases -a.yMin - y
    {
      var hit := CheckSolution(a, x, y);
      if hit {
        assert Column(a, x, y + 1) == Column(a, x, y) + {(x, y)};
      } else {
        assert Column(a, x, y + 1) == Column(a, x, y);
      }
      count := if hit then count + 1 else count;
      y := y + 1;
    }
    if a.yMin > -a.yMin {
      assert Column(a, x, -a.yMin + 1) == {};
    }
  }
}

/** Hydrothermal venture (day05.rs): rasterising vent lines into a count per point and counting overlaps. */
module HydrothermalVenture {

  type Point = (nat, nat)

  datatype Line = Line(x1: nat, y1: nat, x2: nat, y2: nat)

  /** `Line::new`: the first four numbers on the line are x1, y1, x2, y2. */
  function New(values: seq<nat>): (l: Line)
    requires |values| >= 4
    ensures l.x1 == values[0] && l.y1 == values[1] && l.x2 == values[2] && l.y2 == values[3]
  {
    Line(values[0], values[1], values[2], values[3])
  }

  /** `is_horizontal` compares the x coordinates (so it holds for a line running along y). */
  predicate IsHorizontal(l: Line) {
    l.x1 == l.x2
  }

  /** `is_vertical` compares the y coordinates. */
  predicate IsVertical(l: Line) {
    l.y1 == l.y2
  }

  function Max(a: nat, b: nat): nat {
    if a >= b then a else b
  }

  function Diff(a: nat, b: nat): nat {
    if a >= b then a - b else b - a
  }

  /**
   * `n_closer`: `n` steps from `v1` toward `v2`, stopping at `v2`; going down,
   * `v1 - n` is a `u32` subtraction, so `n` may not exceed `v1`.
   */
  function NCloser(v1: nat, v2: nat, n: nat): (v: nat)
    requires v1 > v2 ==> n <= v1
    ensures n == 0 ==> v == v1
    ensures Diff(v, v1) == (if n <= Diff(v1, v2) then n else Diff(v1, v2))
    ensures Diff(v, v1) + Diff(v, v2) == Diff(v1, v2)
  {
    if v1 <= v2 then (if v1 + n <= v2 then v1 + n else v2)
    else (if v1 - n >= v2 then v1 - n else v2)
  }

  /** `num_steps`: the larger of the two coordinate spans. */
  function NumSteps(l: Line): nat {
    Max(Diff(l.x1, l.x2), Diff(l.y1, l.y2))
  }

  /** No `n_closer` call of `intersect` underflows. */
  predicate NoUnderflow(l: Line) {
    (l.x1 > l.x2 ==> NumSteps(l) <= l.x1) && (l.y1 > l.y2 ==> NumSteps(l) <= l.y1)
  }

  /** The points `intersect` visits: step n of 0..=num_steps moves each coordinate n closer to its end. */
  function Points(l: Line): (ps: seq<Point>)
    requires NoUnderflow(l)
    ensures |ps| == NumSteps(l) + 1
    ensures ps[0] == (l.x1, l.y1) && ps[NumSteps(l)] == (l.x2, l.y2)
  {
    seq(NumSteps(l) + 1, n requires 0 <= n <= NumSteps(l) => (NCloser(l.x1, l.x2, n), NCloser(l.y1, l.y2, n)))
  }

  predicate Distinct<T(==)>(s: seq<T>) {
    forall i, j :: 0 <= i < j < |s| ==> s[i] != s[j]
  }

  /** The visited points are all different: the coordinate with the larger span moves on every step. */
  lemma PointsDistinct(l: Line)
    requires NoUnderflow(l)
    ensures Distinct(Points(l))
  {
    var ps := Points(l);
    forall i, j | 0 <= i < j < |ps| ensures ps[i] != ps[j] {
      if Diff(l.x1, l.x2) == NumSteps(l) {
        assert Diff(ps[i].0, l.x1) == i && Diff(ps[j].0, l.x1) == j;
      } else {
        assert Diff(ps[i].1, l.y1) == i && Diff(ps[j].1, l.y1) == j;
      }
    }
  }

  /** The count at a point, 0 when the point has no entry. */
  function Get(plane: map<Point, nat>, p: Point): nat {
    if p in plane then plane[p] else 0
  }

  /** `intersect`: every visited point gains exactly one, inserted at 1 when absent; nothing else changes. */
  method Intersect(l: Line, plane: map<Point, nat>) returns (plane': map<Point, nat>)
    requires NoUnderflow(l)
    ensures forall p :: Get(plane', p) == Get(plane, p) + (if p in Points(l) then 1 else 0)
    ensures forall p :: p in plane' <==> p in plane || p in Points(l)
  {
    var points := Points(l);
    PointsDistinct(l);
    plane' := plane;
    for k := 0 to |points|
      invariant forall p :: Get(plane', p) == Get(plane, p) + (if p in points[..k] then 1 else 0)
      invariant forall p :: p in plane' <==> p in plane || p in points[..k]
    {
      var point := points[k];
      assert points[..k + 1] == points[..k] + [point];
      assert point !in points[..k];
      plane' := plane'[point := Get(plane', point) + 1];
    }
    assert points[..|points|] == points;
  }

  /** How many of the lines pass through `p`. */
  function Coverage(lines: seq<Line>, p: Point): nat
    requires forall i :: 0 <= i < |lines| ==> NoUnderflow(lines[i])
  {
    if lines == [] then 0
    else Coverage(lines[..|lines| - 1], p) + (if p in Points(lines[|lines| - 1]) then 1 else 0)
  }

  /** Every point some line passes through. */
  function AllPoints(lines: seq<Line>): set<Point>
    requires forall i :: 0 <= i < |lines| ==> NoUnderflow(lines[i])
  {
    if lines == [] then {}
    else
      var ps := Points(lines[|lines| - 1]);
      AllPoints(lines[..|lines| - 1]) + (set k | 0 <= k < |ps| :: ps[k])
  }

  /** Some line passes through `p`. */
  ghost predicate OnSomeLine(lines: seq<Line>, p: Point)
    requires forall i :: 0 <= i < |lines| ==> NoUnderflow(lines[i])
  {
    exists i :: 0 <= i < |lines| && p in Points(lines[i])
  }

  /** Dropping the last line: `p` is on some line exactly when it is on an earlier one or on the last. */
  lemma OnSomeLineSnoc(lines: seq<Line>, p: Point)
    requires forall i :: 0 <= i < |lines| ==> NoUnderflow(lines[i])
    requires lines != []
    ensures OnSomeLine(lines, p) <==> OnSomeLine(lines[..|lines| - 1], p) || p in Points(lines[|lines| - 1])
  {
    hide Points;
    var init := lines[..|lines| - 1];
    if OnSomeLine(init, p) {
      var i :| 0 <= i < |init| && p in Points(init[i]);
      assert lines[i] == init[i];
    }
    if OnSomeLine(lines, p) {
      var i :| 0 <= i < |lines| && p in Points(lines[i]);
      if i < |init| {
        assert init[i] == lines[i];
      }
    }
  }

  /** The count of lines through `p` is positive exactly when some line passes through it. */
  lemma {:induction false} CoverageOnSomeLine(lines: seq<Line>, p: Point)
    requires forall i :: 0 <= i < |lines| ==> NoUnderflow(lines[i])
    ensures Coverage(lines, p) > 0 <==> OnSomeLine(lines, p)
  {
    if lines != [] {
      CoverageOnSomeLine(lines[..|lines| - 1], p);
      OnSomeLineSnoc(lines, p);
    }
  }

  /** The union of the lines' points holds exactly the points some line passes through. */
  lemma {:induction false} AllPointsOnSomeLine(lines: seq<Line>, p: Point)
    requires forall i :: 0 <= i < |lines| ==> NoUnderflow(lines[i])
    ensures p in AllPoints(lines) <==> OnSomeLine(lines, p)
  {
    if lines != [] {
      var ps := Points(lines[|lines| - 1]);
      AllPointsOnSomeLine(lines[..|lines| - 1], p);
      OnSomeLineSnoc(lines, p);
      assert p in ps ==> p in (set k | 0 <= k < |ps| :: ps[k]);
    }
  }

  /** A point is covered at all exactly when some line passes through it. */
  lemma CoverageCovered(lines: seq<Line>, p: Point)
    requires forall i :: 0 <= i < |lines| ==> NoUnderflow(lines[i])
    ensures Coverage(lines, p) > 0 <==> p in AllPoints(lines)
    ensures p in AllPoints(lines) <==> exists i :: 0 <= i < |lines| && p in Points(lines[i])
  {
    CoverageOnSomeLine(lines, p);
    AllPointsOnSomeLine(lines, p);
  }

  /** The points at least two lines pass through. */
  function Overlaps(lines: seq<Line>): set<Point>
    requires forall i :: 0 <= i < |lines| ==> NoUnderflow(lines[i])
  {
    set p | p in AllPoints(lines) && Coverage(lines, p) > 1
  }

  /**
   * `count_overlaps`: rasterise every line into the plane, then count the
   * entries above 1, which are exactly the points at least two lines pass through.
   */
  method CountOverlaps(lines: seq<Line>) returns (overlaps: nat)
    requires forall i :: 0 <= i < |lines| ==> NoUnderflow(lines[i])
    ensures overlaps == |Overlaps(lines)|
  {
    var plane: map<Point, nat> := map[];
    for k := 0 to |lines|
      invariant forall p :: Get(plane, p) == Coverage(lines[..k], p)
      invariant forall p :: p in plane ==> Coverage(lines[..k], p) > 0
    {
      assert lines[..k + 1][..k] == lines[..k];
      plane := Intersect(lines[k], plane);
    }
    assert lines[..|lines|] == lines;
    var over := set p | p in plane && plane[p] > 1;
    forall p ensures p in over <==> p in Overlaps(lines) {
      CoverageCovered(lines, p);
    }
    assert over == Overlaps(lines);
    overlaps := |over|;
  }

  /** `solution_a`: only the lines for which `is_horizontal` or `is_vertical` holds. */
  function AxisLines(lines: seq<Line>): (r: seq<Line>)
    ensures forall l :: l in r <==> l in lines && (IsHorizontal(l) || IsVertical(l))
    ensures forall l :: multiset(r)[l] == if IsHorizontal(l) || IsVertical(l) then multiset(lines)[l] else 0
  {
    if lines == [] then []
    else
      var rest := AxisLines(lines[1..]);
      assert forall l :: l in lines <==> l == lines[0] || l in lines[1..];
      assert lines == [lines[0]] + lines[1..];
      if IsHorizontal(lines[0]) || IsVertical(lines[0]) then [lines[0]] + rest else rest
  }

  /** An axis-parallel line only moves along one coordinate, so it never underflows. */
  lemma AxisLineSafe(l: Line)
    requires IsHorizontal(l) || IsVertical(l)
    ensures NoUnderflow(l)
  {
  }

  method SolutionA(lines: seq<Line>) returns (overlaps: nat)
    ensures var axis := AxisLines(lines);
            (forall i :: 0 <= i < |axis| ==> NoUnderflow(axis[i])) &&
            overlaps == |Overlaps(axis)|
  {
    var axis := AxisLines(lines);
    forall i | 0 <= i < |axis| ensures NoUnderflow(axis[i]) {
      assert axis[i] in axis;
      AxisLineSafe(axis[i]);
    }
    overlaps := CountOverlaps(axis);
  }
}

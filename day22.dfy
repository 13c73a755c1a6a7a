/*
 * Reactor reboot (day 22). Each reboot step switches every cube of a cuboid
 * on or off. The active region is kept as a list of pairwise disjoint "on"
 * cuboids: an "on" step adds the parts of its cuboid not yet covered, an
 * "off" step cuts its cuboid out of every active one. Both answers sum the
 * volumes of the active list.
 */
module ReactorReboot {

  datatype Point = Point(x: int, y: int, z: int)

  /** `Cuboid`: the inclusive ranges on the three axes, and whether the step turns cubes on. */
  datatype Cuboid = Cuboid(state: bool, xMin: int, xMax: int, yMin: int, yMax: int, zMin: int, zMax: int)

  predicate Contains(c: Cuboid, p: Point) {
    c.xMin <= p.x <= c.xMax && c.yMin <= p.y <= c.yMax && c.zMin <= p.z <= c.zMax
  }

  function Max(a: int, b: int): int {
    if a >= b then a else b
  }

  function Min(a: int, b: int): int {
    if a <= b then a else b
  }

  /** `is_empty`: some axis has its minimum above its maximum. */
  predicate IsEmpty(c: Cuboid) {
    c.xMin > c.xMax || c.yMin > c.yMax || c.zMin > c.zMax
  }

  /** A cuboid is empty exactly when it contains no cube. */
  lemma EmptyIffNoPoint(c: Cuboid)
    ensures IsEmpty(c) <==> forall p :: !Contains(c, p)
  {
    if !IsEmpty(c) {
      assert Contains(c, Point(c.xMin, c.yMin, c.zMin));
    }
  }

  /** `overlaps`: the ranges meet on every axis. */
  predicate Overlaps(a: Cuboid, b: Cuboid) {
    a.xMin <= b.xMax && a.xMax >= b.xMin &&
    a.yMin <= b.yMax && a.yMax >= b.yMin &&
    a.zMin <= b.zMax && a.zMax >= b.zMin
  }

  /**
   * Overlap is symmetric; cuboids that do not overlap share no cube, and two
   * non-empty cuboids overlap exactly when they share one.
   */
  lemma OverlapsIffShared(a: Cuboid, b: Cuboid)
    ensures Overlaps(a, b) == Overlaps(b, a)
    ensures !Overlaps(a, b) ==> forall p :: Contains(a, p) ==> !Contains(b, p)
    ensures !IsEmpty(a) && !IsEmpty(b) ==> (Overlaps(a, b) <==> exists p :: Contains(a, p) && Contains(b, p))
  {
    if !IsEmpty(a) && !IsEmpty(b) && Overlaps(a, b) {
      assert Contains(a, Point(Max(a.xMin, b.xMin), Max(a.yMin, b.yMin), Max(a.zMin, b.zMin)));
    }
  }

  // ---------------------------------------------------------------------------
  // Cutting one cuboid out of another.

  /** `x_cut_low`: the slab of `a` below `b` on x. */
  function XCutLow(a: Cuboid, b: Cuboid): Cuboid {
    Cuboid(a.state, a.xMin, b.xMin - 1, a.yMin, a.yMax, a.zMin, a.zMax)
  }

  /** `x_cut_high`: the slab of `a` above `b` on x. */
  function XCutHigh(a: Cuboid, b: Cuboid): Cuboid {
    Cuboid(a.state, b.xMax + 1, a.xMax, a.yMin, a.yMax, a.zMin, a.zMax)
  }

  /** `y_cut_low`: within the shared x range, the part of `a` below `b` on y. */
  function YCutLow(a: Cuboid, b: Cuboid): Cuboid {
    Cuboid(a.state, Max(a.xMin, b.xMin), Min(a.xMax, b.xMax), a.yMin, b.yMin - 1, a.zMin, a.zMax)
  }

  /** `y_cut_high`: within the shared x range, the part of `a` above `b` on y. */
  function YCutHigh(a: Cuboid, b: Cuboid): Cuboid {
    Cuboid(a.state, Max(a.xMin, b.xMin), Min(a.xMax, b.xMax), b.yMax + 1, a.yMax, a.zMin, a.zMax)
  }

  /** `z_cut_low`: within the shared x and y ranges, the part of `a` below `b` on z. */
  function ZCutLow(a: Cuboid, b: Cuboid): Cuboid {
    Cuboid(a.state, Max(a.xMin, b.xMin), Min(a.xMax, b.xMax), Max(a.yMin, b.yMin), Min(a.yMax, b.yMax), a.zMin, b.zMin - 1)
  }

  /** `z_cut_high`: within the shared x and y ranges, the part of `a` above `b` on z. */
  function ZCutHigh(a: Cuboid, b: Cuboid): Cuboid {
    Cuboid(a.state, Max(a.xMin, b.xMin), Min(a.xMax, b.xMax), Max(a.yMin, b.yMin), Min(a.yMax, b.yMax), b.zMax + 1, a.zMax)
  }

  function Cuts(a: Cuboid, b: Cuboid): seq<Cuboid> {
    [XCutLow(a, b), XCutHigh(a, b), YCutLow(a, b), YCutHigh(a, b), ZCutLow(a, b), ZCutHigh(a, b)]
  }

  /** `.filter(|c| !c.is_empty())`. */
  function NonEmptyOnly(l: seq<Cuboid>): seq<Cuboid> {
    if l == [] then []
    else (if IsEmpty(l[0]) then [] else [l[0]]) + NonEmptyOnly(l[1..])
  }

  /** `subtract`: `a` itself when the two do not overlap, else the non-empty cuts. */
  function Subtract(a: Cuboid, b: Cuboid): seq<Cuboid> {
    if !Overlaps(a, b) then [a] else NonEmptyOnly(Cuts(a, b))
  }

  // ---------------------------------------------------------------------------
  // Lists of cuboids as sets of cubes.

  /** No cube of `a` is in `b`. */
  ghost predicate Apart(a: Cuboid, b: Cuboid) {
    forall p :: Contains(a, p) ==> !Contains(b, p)
  }

  /** Every cube of `a` is in `b`. */
  ghost predicate Inside(a: Cuboid, b: Cuboid) {
    forall p :: Contains(a, p) ==> Contains(b, p)
  }

  /** Some cuboid of the list contains `p`. */
  predicate Covered(l: seq<Cuboid>, p: Point) {
    exists i :: 0 <= i < |l| && Contains(l[i], p)
  }

  /** No cube is in two cuboids of the list. */
  ghost predicate Disjoint(l: seq<Cuboid>) {
    forall i, j :: 0 <= i < |l| && 0 <= j < |l| && i != j ==> Apart(l[i], l[j])
  }

  predicate AllOn(l: seq<Cuboid>) {
    forall i :: 0 <= i < |l| ==> l[i].state
  }

  predicate NoneEmpty(l: seq<Cuboid>) {
    forall i :: 0 <= i < |l| ==> !IsEmpty(l[i])
  }

  lemma CoveredAppend(a: seq<Cuboid>, b: seq<Cuboid>, p: Point)
    ensures Covered(a + b, p) <==> Covered(a, p) || Covered(b, p)
  {
    if Covered(b, p) {
      var j :| 0 <= j < |b| && Contains(b[j], p);
      assert (a + b)[|a| + j] == b[j];
    }
    if Covered(a, p) {
      var i :| 0 <= i < |a| && Contains(a[i], p);
      assert (a + b)[i] == a[i];
    }
    if Covered(a + b, p) {
      var k :| 0 <= k < |a + b| && Contains((a + b)[k], p);
      if k >= |a| {
        assert b[k - |a|] == (a + b)[k];
      }
    }
  }

  /** Two disjoint lists whose cuboids are apart make a disjoint list. */
  lemma DisjointAppend(a: seq<Cuboid>, b: seq<Cuboid>)
    requires Disjoint(a) && Disjoint(b)
    requires forall p :: Covered(a, p) ==> !Covered(b, p)
    ensures Disjoint(a + b)
  {
    var ab := a + b;
    forall i, j | 0 <= i < |ab| && 0 <= j < |ab| && i != j
      ensures Apart(ab[i], ab[j])
    {
      forall p | Contains(ab[i], p)
        ensures !Contains(ab[j], p)
      {
        if i < |a| && j >= |a| {
          assert Covered(a, p);
          assert !Contains(b[j - |a|], p);
        } else if i >= |a| && j < |a| {
          assert Covered(b, p) by {
            assert Contains(b[i - |a|], p);
          }
          assert !Covered(a, p);
          assert ab[j] == a[j];
        } else if i < |a| {
          assert Apart(a[i], a[j]);
        } else {
          assert Apart(b[i - |a|], b[j - |a|]);
        }
      }
    }
  }

  /** Dropping the empty cuboids changes no cube and keeps the rest. */
  lemma {:induction false} NonEmptyOnlyFacts(l: seq<Cuboid>)
    ensures |NonEmptyOnly(l)| <= |l|
    ensures forall c :: c in NonEmptyOnly(l) ==> c in l && !IsEmpty(c)
    ensures forall p :: Covered(NonEmptyOnly(l), p) <==> Covered(l, p)
    ensures Disjoint(l) ==> Disjoint(NonEmptyOnly(l))
  {
    if l != [] {
      var head := if IsEmpty(l[0]) then [] else [l[0]];
      NonEmptyOnlyFacts(l[1..]);
      forall p
        ensures Covered(NonEmptyOnly(l), p) <==> Covered(l, p)
      {
        CoveredAppend(head, NonEmptyOnly(l[1..]), p);
        CoveredAppend([l[0]], l[1..], p);
        assert [l[0]] + l[1..] == l;
        EmptyIffNoPoint(l[0]);
      }
      if Disjoint(l) {
        assert Disjoint(l[1..]) by {
          forall i, j | 0 <= i < |l[1..]| && 0 <= j < |l[1..]| && i != j
            ensures Apart(l[1..][i], l[1..][j])
          {
            assert Apart(l[i + 1], l[j + 1]);
          }
        }
        forall p | Covered(head, p)
          ensures !Covered(NonEmptyOnly(l[1..]), p)
        {
          assert Contains(l[0], p) by {
            assert head[0] == l[0];
          }
          forall k | 0 <= k < |l[1..]|
            ensures !Contains(l[1..][k], p)
          {
            assert Apart(l[0], l[k + 1]);
          }
        }
        DisjointAppend(head, NonEmptyOnly(l[1..]));
      }
    }
  }

  /** The six cuts of `a` by an overlapping, non-empty `b` share no cube. */
  lemma CutsApart(a: Cuboid, b: Cuboid)
    requires Overlaps(a, b) && !IsEmpty(b)
    ensures Disjoint(Cuts(a, b))
  {
    var cs := Cuts(a, b);
    forall i, j | 0 <= i < |cs| && 0 <= j < |cs| && i != j
      ensures Apart(cs[i], cs[j])
    {
      forall p | Contains(cs[i], p)
        ensures !Contains(cs[j], p)
      {
        if i == 0 || i == 1 {
          assert p.x < b.xMin || p.x > b.xMax;
        } else if i == 2 || i == 3 {
          assert b.xMin <= p.x <= b.xMax && (p.y < b.yMin || p.y > b.yMax);
        } else {
          assert b.xMin <= p.x <= b.xMax && b.yMin <= p.y <= b.yMax;
        }
      }
    }
  }

  /** The six cuts of `a` by an overlapping `b`: pairwise apart, inside `a`, apart from `b`, covering `a` outside `b`. */
  lemma CutsFacts(a: Cuboid, b: Cuboid)
    requires Overlaps(a, b)
    ensures !IsEmpty(b) ==> Disjoint(Cuts(a, b))
    ensures forall c :: c in Cuts(a, b) ==> c.state == a.state && Inside(c, a) && Apart(c, b)
    ensures forall p :: Covered(Cuts(a, b), p) <==> Contains(a, p) && !Contains(b, p)
  {
    var cs := Cuts(a, b);
    if !IsEmpty(b) {
      CutsApart(a, b);
    }
    forall p | Contains(a, p) && !Contains(b, p)
      ensures Covered(cs, p)
    {
      if p.x < b.xMin {
        assert Contains(cs[0], p);
      } else if p.x > b.xMax {
        assert Contains(cs[1], p);
      } else if p.y < b.yMin {
        assert Contains(cs[2], p);
      } else if p.y > b.yMax {
        assert Contains(cs[3], p);
      } else if p.z < b.zMin {
        assert Contains(cs[4], p);
      } else {
        assert Contains(cs[5], p);
      }
    }
  }

  /**
   * `subtract`: at most six pieces, each with `a`'s state and inside `a`,
   * pairwise apart, non-empty when `a` is, and covering exactly the cubes of
   * `a` outside `b`.
   */
  lemma SubtractFacts(a: Cuboid, b: Cuboid)
    ensures |Subtract(a, b)| <= 6
    ensures forall c :: c in Subtract(a, b) ==> c.state == a.state && Inside(c, a)
    ensures !IsEmpty(a) ==> NoneEmpty(Subtract(a, b))
    ensures !IsEmpty(b) ==> Disjoint(Subtract(a, b))
    ensures forall p :: Covered(Subtract(a, b), p) <==> Contains(a, p) && !Contains(b, p)
  {
    if Overlaps(a, b) {
      CutsFacts(a, b);
      NonEmptyOnlyFacts(Cuts(a, b));
    } else {
      OverlapsIffShared(a, b);
      forall p
        ensures Covered([a], p) <==> Contains(a, p)
      {
        if Contains(a, p) {
          assert [a][0] == a;
        }
      }
    }
  }

  // ---------------------------------------------------------------------------
  // The reboot.

  /** `.flat_map(|c| c.subtract(b))` over a list. */
  function FlatSubtract(l: seq<Cuboid>, b: Cuboid): seq<Cuboid> {
    if l == [] then [] else Subtract(l[0], b) + FlatSubtract(l[1..], b)
  }

  /** Cutting `b` out of every cuboid of a list leaves the list's cubes outside `b`, and keeps it disjoint, on and non-empty. */
  lemma {:induction false} FlatSubtractFacts(l: seq<Cuboid>, b: Cuboid)
    ensures forall p :: Covered(FlatSubtract(l, b), p) <==> Covered(l, p) && !Contains(b, p)
    ensures AllOn(l) ==> AllOn(FlatSubtract(l, b))
    ensures NoneEmpty(l) ==> NoneEmpty(FlatSubtract(l, b))
    ensures Disjoint(l) && !IsEmpty(b) ==> Disjoint(FlatSubtract(l, b))
  {
    if l != [] {
      var s, rest := Subtract(l[0], b), FlatSubtract(l[1..], b);
      SubtractFacts(l[0], b);
      FlatSubtractFacts(l[1..], b);
      forall p
        ensures Covered(s + rest, p) <==> Covered(l, p) && !Contains(b, p)
      {
        CoveredAppend(s, rest, p);
        CoveredAppend([l[0]], l[1..], p);
        assert [l[0]] + l[1..] == l;
        assert Covered([l[0]], p) <==> Contains(l[0], p) by {
          assert [l[0]][0] == l[0];
        }
      }
      if AllOn(l) {
        assert AllOn(l[1..]) by {
          forall i | 0 <= i < |l[1..]| ensures l[1..][i].state { assert l[1..][i] == l[i + 1]; }
        }
        forall i | 0 <= i < |s + rest| ensures (s + rest)[i].state
        {
          if i < |s| {
            assert s[i] in s;
          } else {
            assert (s + rest)[i] == rest[i - |s|];
          }
        }
      }
      if NoneEmpty(l) {
        assert NoneEmpty(l[1..]) by {
          forall i | 0 <= i < |l[1..]| ensures !IsEmpty(l[1..][i]) { assert l[1..][i] == l[i + 1]; }
        }
        forall i | 0 <= i < |s + rest| ensures !IsEmpty((s + rest)[i])
        {
          if i >= |s| {
            assert (s + rest)[i] == rest[i - |s|];
          }
        }
      }
      if Disjoint(l) && !IsEmpty(b) {
        assert Disjoint(l[1..]) by {
          forall i, j | 0 <= i < |l[1..]| && 0 <= j < |l[1..]| && i != j
            ensures Apart(l[1..][i], l[1..][j])
          {
            assert Apart(l[i + 1], l[j + 1]);
          }
        }
        forall p | Covered(s, p)
          ensures !Covered(rest, p)
        {
          assert Contains(l[0], p) by {
            var i :| 0 <= i < |s| && Contains(s[i], p);
            assert s[i] in s;
          }
          forall k | 0 <= k < |l[1..]|
            ensures !Contains(l[1..][k], p)
          {
            assert Apart(l[0], l[k + 1]);
          }
        }
        DisjointAppend(s, rest);
      }
    }
  }

  /** The inner loop of an "on" step: the pieces of `sub` left after cutting out each of `actives` in turn. */
  function Carve(sub: seq<Cuboid>, actives: seq<Cuboid>): seq<Cuboid> {
    if actives == [] then sub
    else FlatSubtract(Carve(sub, actives[..|actives| - 1]), actives[|actives| - 1])
  }

  lemma CoveredSnoc(l: seq<Cuboid>, p: Point)
    requires l != []
    ensures Covered(l, p) <==> Covered(l[..|l| - 1], p) || Contains(l[|l| - 1], p)
  {
    assert l == l[..|l| - 1] + [l[|l| - 1]];
    CoveredAppend(l[..|l| - 1], [l[|l| - 1]], p);
    assert Covered([l[|l| - 1]], p) <==> Contains(l[|l| - 1], p) by {
      assert [l[|l| - 1]][0] == l[|l| - 1];
    }
  }

  /** Carving leaves exactly the cubes of `sub` outside every active cuboid, and keeps `sub` disjoint, on and non-empty. */
  lemma {:induction false} CarveFacts(sub: seq<Cuboid>, actives: seq<Cuboid>)
    ensures forall p :: Covered(Carve(sub, actives), p) <==> Covered(sub, p) && !Covered(actives, p)
    ensures AllOn(sub) ==> AllOn(Carve(sub, actives))
    ensures NoneEmpty(sub) ==> NoneEmpty(Carve(sub, actives))
    ensures Disjoint(sub) && NoneEmpty(actives) ==> Disjoint(Carve(sub, actives))
  {
    if actives != [] {
      var front, last := actives[..|actives| - 1], actives[|actives| - 1];
      assert NoneEmpty(actives) ==> NoneEmpty(front) by {
        if NoneEmpty(actives) {
          forall i | 0 <= i < |front| ensures !IsEmpty(front[i]) { assert front[i] == actives[i]; }
        }
      }
      CarveFacts(sub, front);
      FlatSubtractFacts(Carve(sub, front), last);
      forall p
        ensures Covered(Carve(sub, actives), p) <==> Covered(sub, p) && !Covered(actives, p)
      {
        CoveredSnoc(actives, p);
      }
    }
  }

  /** One reboot step on the active list. */
  function Step(active: seq<Cuboid>, c: Cuboid): seq<Cuboid> {
    if c.state then active + Carve([c], active) else FlatSubtract(active, c)
  }

  /** `get_active_cuboids` as a fold over the steps. */
  function Reboot(steps: seq<Cuboid>): seq<Cuboid> {
    if steps == [] then [] else Step(Reboot(steps[..|steps| - 1]), steps[|steps| - 1])
  }

  /** The reference meaning of a sequence of steps: a cube is on when the last step containing it turned it on. */
  predicate Lit(steps: seq<Cuboid>, p: Point) {
    if steps == [] then false
    else if Contains(steps[|steps| - 1], p) then steps[|steps| - 1].state
    else Lit(steps[..|steps| - 1], p)
  }

  /**
   * The active list is a list of "on" cuboids covering exactly the lit
   * cubes; when no step is empty, its cuboids are non-empty and pairwise
   * disjoint.
   */
  lemma {:induction false} RebootLit(steps: seq<Cuboid>)
    ensures AllOn(Reboot(steps))
    ensures forall p :: Covered(Reboot(steps), p) <==> Lit(steps, p)
    ensures NoneEmpty(steps) ==> NoneEmpty(Reboot(steps)) && Disjoint(Reboot(steps))
  {
    if steps != [] {
      var front, c := steps[..|steps| - 1], steps[|steps| - 1];
      var active := Reboot(front);
      RebootLit(front);
      assert NoneEmpty(steps) ==> NoneEmpty(front) by {
        if NoneEmpty(steps) {
          forall i | 0 <= i < |front| ensures !IsEmpty(front[i]) { assert front[i] == steps[i]; }
        }
      }
      if c.state {
        var carved := Carve([c], active);
        assert Disjoint([c]) && AllOn([c]);
        assert !IsEmpty(c) ==> NoneEmpty([c]);
        CarveFacts([c], active);
        forall p
          ensures Covered(active + carved, p) <==> Lit(steps, p)
        {
          CoveredAppend(active, carved, p);
          assert Covered([c], p) <==> Contains(c, p) by {
            assert [c][0] == c;
          }
        }
        if NoneEmpty(steps) {
          DisjointAppend(active, carved);
        }
        forall i | 0 <= i < |active + carved| ensures (active + carved)[i].state
        {
          if i >= |active| {
            assert (active + carved)[i] == carved[i - |active|];
          }
        }
        if NoneEmpty(steps) {
          forall i | 0 <= i < |active + carved| ensures !IsEmpty((active + carved)[i])
          {
            if i >= |active| {
              assert (active + carved)[i] == carved[i - |active|];
            }
          }
        }
      } else {
        FlatSubtractFacts(active, c);
      }
    }
  }

  /** The inner loop of `get_active_cuboids` for an "on" step. */
  method NewSubregions(cuboid: Cuboid, active: seq<Cuboid>) returns (subregions: seq<Cuboid>)
    ensures subregions == Carve([cuboid], active)
  {
    subregions := [cuboid];
    for k := 0 to |active|
      invariant subregions == Carve([cuboid], active[..k])
    {
      assert active[..k + 1][..k] == active[..k];
      subregions := FlatSubtract(subregions, active[k]);
    }
    assert active[..|active|] == active;
  }

  /** `get_active_cuboids`. */
  method GetActiveCuboids(steps: seq<Cuboid>) returns (active: seq<Cuboid>)
    ensures active == Reboot(steps)
  {
    active := [];
    for n := 0 to |steps|
      invariant active == Reboot(steps[..n])
    {
      var cuboid := steps[n];
      assert steps[..n + 1][..n] == steps[..n];
      if cuboid.state {
        var subregions := NewSubregions(cuboid, active);
        active := active + subregions;
      } else {
        active := FlatSubtract(active, cuboid);
      }
    }
    assert steps[..|steps|] == steps;
  }

  // ---------------------------------------------------------------------------
  // Volumes.

  function AbsDiff(a: int, b: int): nat {
    if a >= b then a - b else b - a
  }

  /** `volume`: the product of the three side lengths. */
  function Volume(c: Cuboid): nat {
    (AbsDiff(c.xMax, c.xMin) + 1) * (AbsDiff(c.yMax, c.yMin) + 1) * (AbsDiff(c.zMax, c.zMin) + 1)
  }

  /** The cubes of a cuboid. */
  function Points(c: Cuboid): set<Point> {
    set x, y, z | c.xMin <= x <= c.xMax && c.yMin <= y <= c.yMax && c.zMin <= z <= c.zMax :: Point(x, y, z)
  }

  lemma PointsMembers(c: Cuboid)
    ensures forall p :: p in Points(c) <==> Contains(c, p)
  {
    forall p | Contains(c, p)
      ensures p in Points(c)
    {
      assert p == Point(p.x, p.y, p.z);
    }
  }

  /** Cutting a cuboid in two splits its cubes into two disjoint sets. */
  lemma SplitCount(c: Cuboid, lo: Cuboid, hi: Cuboid)
    requires forall p :: Contains(c, p) <==> Contains(lo, p) || Contains(hi, p)
    requires forall p :: Contains(lo, p) ==> !Contains(hi, p)
    ensures |Points(c)| == |Points(lo)| + |Points(hi)|
  {
    PointsMembers(c);
    PointsMembers(lo);
    PointsMembers(hi);
    assert Points(c) == Points(lo) + Points(hi);
    assert Points(lo) * Points(hi) == {};
  }

  lemma Distribute(n: int, a: int)
    ensures n * a == (n - 1) * a + a
  {
  }

  /** A non-empty cuboid one cube thick on x and y holds one cube per z value. */
  lemma {:induction false} CountLine(c: Cuboid)
    requires !IsEmpty(c) && c.xMin == c.xMax && c.yMin == c.yMax
    ensures |Points(c)| == c.zMax - c.zMin + 1
    decreases c.zMax - c.zMin
  {
    if c.zMin < c.zMax {
      var lo, hi := c.(zMax := c.zMax - 1), c.(zMin := c.zMax);
      SplitCount(c, lo, hi);
      CountLine(lo);
      CountLine(hi);
    } else {
      PointsMembers(c);
      assert Points(c) == {Point(c.xMin, c.yMin, c.zMin)};
    }
  }

  /** A non-empty cuboid one cube thick on x holds one line of cubes per y value. */
  lemma {:induction false} CountSlab(c: Cuboid)
    requires !IsEmpty(c) && c.xMin == c.xMax
    ensures |Points(c)| == (c.yMax - c.yMin + 1) * (c.zMax - c.zMin + 1)
    decreases c.yMax - c.yMin
  {
    if c.yMin < c.yMax {
      var lo, hi := c.(yMax := c.yMax - 1), c.(yMin := c.yMax);
      SplitCount(c, lo, hi);
      CountSlab(lo);
      CountLine(hi);
      Distribute(c.yMax - c.yMin + 1, c.zMax - c.zMin + 1);
    } else {
      CountLine(c);
    }
  }

  /** A non-empty cuboid holds as many cubes as the product of its side lengths. */
  lemma {:induction false} CountPoints(c: Cuboid)
    requires !IsEmpty(c)
    ensures |Points(c)| == (c.xMax - c.xMin + 1) * ((c.yMax - c.yMin + 1) * (c.zMax - c.zMin + 1))
    decreases c.xMax - c.xMin
  {
    if c.xMin < c.xMax {
      var lo, hi := c.(xMax := c.xMax - 1), c.(xMin := c.xMax);
      SplitCount(c, lo, hi);
      CountPoints(lo);
      CountSlab(hi);
      Distribute(c.xMax - c.xMin + 1, (c.yMax - c.yMin + 1) * (c.zMax - c.zMin + 1));
    } else {
      CountSlab(c);
    }
  }

  /** The volume of a non-empty cuboid is the number of its cubes. */
  lemma VolumeCounts(c: Cuboid)
    requires !IsEmpty(c)
    ensures Volume(c) == |Points(c)|
  {
    CountPoints(c);
    var nx, ny, nz := c.xMax - c.xMin + 1, c.yMax - c.yMin + 1, c.zMax - c.zMin + 1;
    assert Volume(c) == nx * ny * nz;
    assert nx * ny * nz == nx * (ny * nz);
  }

  /** `.map(|c| c.volume()).sum()`. */
  function SumVolumes(l: seq<Cuboid>): nat {
    if l == [] then 0 else Volume(l[0]) + SumVolumes(l[1..])
  }

  /** The cubes of a list of cuboids. */
  function UnionPoints(l: seq<Cuboid>): set<Point> {
    if l == [] then {} else Points(l[0]) + UnionPoints(l[1..])
  }

  lemma {:induction false} UnionMembers(l: seq<Cuboid>)
    ensures forall p :: p in UnionPoints(l) <==> Covered(l, p)
  {
    if l != [] {
      UnionMembers(l[1..]);
      PointsMembers(l[0]);
      forall p
        ensures p in UnionPoints(l) <==> Covered(l, p)
      {
        CoveredAppend([l[0]], l[1..], p);
        assert [l[0]] + l[1..] == l;
        assert Covered([l[0]], p) <==> Contains(l[0], p) by {
          assert [l[0]][0] == l[0];
        }
      }
    }
  }

  /** The volumes of a disjoint list of non-empty cuboids add up to the number of cubes it covers. */
  lemma {:induction false} SumVolumesCounts(l: seq<Cuboid>)
    requires NoneEmpty(l) && Disjoint(l)
    ensures SumVolumes(l) == |UnionPoints(l)|
  {
    if l != [] {
      assert NoneEmpty(l[1..]) by {
        forall i | 0 <= i < |l[1..]| ensures !IsEmpty(l[1..][i]) { assert l[1..][i] == l[i + 1]; }
      }
      assert Disjoint(l[1..]) by {
        forall i, j | 0 <= i < |l[1..]| && 0 <= j < |l[1..]| && i != j
          ensures Apart(l[1..][i], l[1..][j])
        {
          assert Apart(l[i + 1], l[j + 1]);
        }
      }
      SumVolumesCounts(l[1..]);
      VolumeCounts(l[0]);
      PointsMembers(l[0]);
      UnionMembers(l[1..]);
      forall p | p in Points(l[0])
        ensures p !in UnionPoints(l[1..])
      {
        forall k | 0 <= k < |l[1..]|
          ensures !Contains(l[1..][k], p)
        {
          assert Apart(l[0], l[k + 1]);
        }
      }
      assert Points(l[0]) * UnionPoints(l[1..]) == {};
    }
  }

  /** A lit cube lies in some step. */
  lemma {:induction false} LitInside(steps: seq<Cuboid>, p: Point)
    requires Lit(steps, p)
    ensures Covered(steps, p)
  {
    CoveredSnoc(steps, p);
    if !Contains(steps[|steps| - 1], p) {
      LitInside(steps[..|steps| - 1], p);
    }
  }

  /** The cubes that are on after all the steps. */
  function LitPoints(steps: seq<Cuboid>): set<Point> {
    set p | p in UnionPoints(steps) && Lit(steps, p)
  }

  /** The active list covers exactly the lit cubes, and its volumes count them. */
  lemma ActiveCountsLit(steps: seq<Cuboid>)
    requires NoneEmpty(steps)
    ensures UnionPoints(Reboot(steps)) == LitPoints(steps)
    ensures SumVolumes(Reboot(steps)) == |LitPoints(steps)|
  {
    var active := Reboot(steps);
    RebootLit(steps);
    UnionMembers(active);
    UnionMembers(steps);
    forall p | Lit(steps, p)
      ensures p in UnionPoints(steps)
    {
      LitInside(steps, p);
    }
    assert UnionPoints(active) == LitPoints(steps);
    SumVolumesCounts(active);
  }

  /** The initialization region of part one. */
  const Region := Cuboid(true, -50, 50, -50, 50, -50, 50)

  /** The clamp in `solution_a`. */
  function Clamp(c: Cuboid): Cuboid {
    Cuboid(c.state, Max(c.xMin, -50), Min(c.xMax, 50), Max(c.yMin, -50), Min(c.yMax, 50), Max(c.zMin, -50), Min(c.zMax, 50))
  }

  function ClampAll(l: seq<Cuboid>): seq<Cuboid> {
    seq(|l|, i requires 0 <= i < |l| => Clamp(l[i]))
  }

  /** Clamping keeps a list disjoint and covers exactly its cubes inside the region. */
  lemma ClampAllFacts(l: seq<Cuboid>)
    ensures Disjoint(l) ==> Disjoint(ClampAll(l))
    ensures forall p :: Covered(ClampAll(l), p) <==> Covered(l, p) && Contains(Region, p)
  {
    var clamped := ClampAll(l);
    if Disjoint(l) {
      forall i, j | 0 <= i < |clamped| && 0 <= j < |clamped| && i != j
        ensures Apart(clamped[i], clamped[j])
      {
        forall p | Contains(clamped[i], p)
          ensures !Contains(clamped[j], p)
        {
          assert Contains(l[i], p);
          assert Apart(l[i], l[j]);
        }
      }
    }
    forall p
      ensures Covered(clamped, p) <==> Covered(l, p) && Contains(Region, p)
    {
      if Covered(clamped, p) {
        var i :| 0 <= i < |clamped| && Contains(clamped[i], p);
        assert Contains(l[i], p);
      }
      if Covered(l, p) && Contains(Region, p) {
        var i :| 0 <= i < |l| && Contains(l[i], p);
        assert Contains(clamped[i], p);
      }
    }
  }

  /** Part one counts exactly the lit cubes inside the region. */
  lemma ClampedCountsLit(steps: seq<Cuboid>)
    requires NoneEmpty(steps)
    ensures SumVolumes(NonEmptyOnly(ClampAll(Reboot(steps)))) == |LitPoints(steps) * Points(Region)|
  {
    var active := Reboot(steps);
    var clamped := ClampAll(active);
    var kept := NonEmptyOnly(clamped);
    RebootLit(steps);
    ActiveCountsLit(steps);
    ClampAllFacts(active);
    NonEmptyOnlyFacts(clamped);
    assert NoneEmpty(kept) by {
      forall i | 0 <= i < |kept| ensures !IsEmpty(kept[i]) { assert kept[i] in kept; }
    }
    SumVolumesCounts(kept);
    UnionMembers(kept);
    UnionMembers(active);
    PointsMembers(Region);
    assert UnionPoints(kept) == LitPoints(steps) * Points(Region);
  }

  /** `solution_a`: the number of lit cubes in the initialization region. */
  method SolutionA(steps: seq<Cuboid>) returns (n: nat)
    ensures n == SumVolumes(NonEmptyOnly(ClampAll(Reboot(steps))))
    ensures NoneEmpty(steps) ==> n == |LitPoints(steps) * Points(Region)|
  {
    var active := GetActiveCuboids(steps);
    n := SumVolumes(NonEmptyOnly(ClampAll(active)));
    if NoneEmpty(steps) {
      ClampedCountsLit(steps);
    }
  }

  /** `solution_b`: the number of lit cubes. */
  method SolutionB(steps: seq<Cuboid>) returns (n: nat)
    ensures n == SumVolumes(Reboot(steps))
    ensures NoneEmpty(steps) ==> n == |LitPoints(steps)|
  {
    var active := GetActiveCuboids(steps);
    n := SumVolumes(active);
    if NoneEmpty(steps) {
      ActiveCountsLit(steps);
    }
  }
}

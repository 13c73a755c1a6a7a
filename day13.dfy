/**
 * Transparent origami (day13.rs): a set of dots on transparent paper is
 * folded along vertical (x) and horizontal (y) lines; a dot below or right of
 * the line lands on its mirror image. The paper is a `Foldable` whose fields
 * are replaced by each fold; `Sheet` is its value.
 */
module TransparentOrigami {

  type Dot = (nat, nat)

  datatype FoldType = X | Y

  datatype Fold = Fold(foldType: FoldType, value: nat)

  /** The value of a `Foldable`: the largest row and column index shown, and the dots. */
  datatype Sheet = Sheet(rows: nat, cols: nat, points: set<Dot>)

  // ---------------------------------------------------------------------------
  // Folding, on values.

  /** Where a coordinate lands: kept before the line, mirrored from it on; `2*value - x` must not underflow. */
  function Reflect(c: nat, value: nat): (r: nat)
    requires c <= 2 * value
    ensures r <= value && (r == c || r + c == 2 * value)
  {
    if c < value then c else 2 * value - c
  }

  /** `fold_along_x` moves one dot here. */
  function MirrorX(p: Dot, value: nat): Dot
    requires p.0 <= 2 * value
  {
    (Reflect(p.0, value), p.1)
  }

  /** `fold_along_y` moves one dot here. */
  function MirrorY(p: Dot, value: nat): Dot
    requires p.1 <= 2 * value
  {
    (p.0, Reflect(p.1, value))
  }

  /** The dots after `fold_along_x`. */
  function FoldedX(points: set<Dot>, value: nat): (r: set<Dot>)
    requires forall p :: p in points ==> p.0 <= 2 * value
    ensures forall q :: q in r ==> q.0 <= value
  {
    set p | p in points :: MirrorX(p, value)
  }

  /** The dots after `fold_along_y`. */
  function FoldedY(points: set<Dot>, value: nat): (r: set<Dot>)
    requires forall p :: p in points ==> p.1 <= 2 * value
    ensures forall q :: q in r ==> q.1 <= value
  {
    set p | p in points :: MirrorY(p, value)
  }

  lemma FoldedXAdd(points: set<Dot>, p: Dot, value: nat)
    requires forall q :: q in points ==> q.0 <= 2 * value
    requires p.0 <= 2 * value
    ensures FoldedX(points + {p}, value) == FoldedX(points, value) + {MirrorX(p, value)}
  {
  }

  lemma FoldedYAdd(points: set<Dot>, p: Dot, value: nat)
    requires forall q :: q in points ==> q.1 <= 2 * value
    requires p.1 <= 2 * value
    ensures FoldedY(points + {p}, value) == FoldedY(points, value) + {MirrorY(p, value)}
  {
  }

  /** An x-fold never adds dots: two may land on one place. */
  lemma {:induction false} FoldedXSmaller(points: set<Dot>, value: nat)
    requires forall p :: p in points ==> p.0 <= 2 * value
    ensures |FoldedX(points, value)| <= |points|
  {
    if points != {} {
      var p :| p in points;
      var rest := points - {p};
      FoldedXSmaller(rest, value);
      FoldedXAdd(rest, p, value);
      assert rest + {p} == points;
    }
  }

  /** A y-fold never adds dots: two may land on one place. */
  lemma {:induction false} FoldedYSmaller(points: set<Dot>, value: nat)
    requires forall p :: p in points ==> p.1 <= 2 * value
    ensures |FoldedY(points, value)| <= |points|
  {
    if points != {} {
      var p :| p in points;
      var rest := points - {p};
      FoldedYSmaller(rest, value);
      FoldedYAdd(rest, p, value);
      assert rest + {p} == points;
    }
  }

  /**
   * After an x-fold there is a dot at `q` exactly when `q` is left of or on
   * the line and there was a dot at `q` or at its mirror image; the row of a
   * dot never changes.
   */
  lemma FoldedXMirror(points: set<Dot>, value: nat, q: Dot)
    requires forall p :: p in points ==> p.0 <= 2 * value
    ensures q in FoldedX(points, value) <==> q.0 <= value && (q in points || (2 * value - q.0, q.1) in points)
  {
    if q.0 <= value && (2 * value - q.0, q.1) in points {
      var p: Dot := (2 * value - q.0, q.1);
      assert MirrorX(p, value) == q;
    }
  }

  /** After a y-fold there is a dot at `q` exactly when `q` is above or on the line and there was a dot at `q` or at its mirror image. */
  lemma FoldedYMirror(points: set<Dot>, value: nat, q: Dot)
    requires forall p :: p in points ==> p.1 <= 2 * value
    ensures q in FoldedY(points, value) <==> q.1 <= value && (q in points || (q.0, 2 * value - q.1) in points)
  {
    if q.1 <= value && (q.0, 2 * value - q.1) in points {
      var p: Dot := (q.0, 2 * value - q.1);
      assert MirrorY(p, value) == q;
    }
  }

  /** The fold can be made: `value - 1` does not underflow and no dot lies beyond twice the line. */
  predicate CanFold(sh: Sheet, fold: Fold) {
    fold.value >= 1 &&
    match fold.foldType
    case X => forall p :: p in sh.points ==> p.0 <= 2 * fold.value
    case Y => forall p :: p in sh.points ==> p.1 <= 2 * fold.value
  }

  /** `fold_along`: the folded dots, and the folded dimension set to `value - 1`. */
  function FoldSheet(sh: Sheet, fold: Fold): (r: Sheet)
    requires CanFold(sh, fold)
    ensures |r.points| <= |sh.points|
    ensures fold.foldType == X ==> r.cols == fold.value - 1 && r.rows == sh.rows
    ensures fold.foldType == Y ==> r.rows == fold.value - 1 && r.cols == sh.cols
  {
    match fold.foldType
    case X => FoldedXSmaller(sh.points, fold.value); Sheet(sh.rows, fold.value - 1, FoldedX(sh.points, fold.value))
    case Y => FoldedYSmaller(sh.points, fold.value); Sheet(fold.value - 1, sh.cols, FoldedY(sh.points, fold.value))
  }

  predicate CanFoldAll(sh: Sheet, folds: seq<Fold>)
    decreases |folds|
  {
    folds == [] || (CanFold(sh, folds[0]) && CanFoldAll(FoldSheet(sh, folds[0]), folds[1..]))
  }

  /** The sheet after every fold in turn. */
  function FoldAll(sh: Sheet, folds: seq<Fold>): (r: Sheet)
    requires CanFoldAll(sh, folds)
    ensures |r.points| <= |sh.points|
    decreases |folds|
  {
    if folds == [] then sh else FoldAll(FoldSheet(sh, folds[0]), folds[1..])
  }

  // ---------------------------------------------------------------------------
  // Parsing the dots.

  function MaxX(dots: seq<Dot>): nat {
    if dots == [] then 0 else
      var m := MaxX(dots[..|dots| - 1]);
      if dots[|dots| - 1].0 > m then dots[|dots| - 1].0 else m
  }

  function MaxY(dots: seq<Dot>): nat {
    if dots == [] then 0 else
      var m := MaxY(dots[..|dots| - 1]);
      if dots[|dots| - 1].1 > m then dots[|dots| - 1].1 else m
  }

  /** `MaxX` bounds every column and is one of them (or 0, the start value). */
  lemma {:induction false} MaxXIsMax(dots: seq<Dot>)
    ensures forall k :: 0 <= k < |dots| ==> dots[k].0 <= MaxX(dots)
    ensures MaxX(dots) == 0 || exists k :: 0 <= k < |dots| && dots[k].0 == MaxX(dots)
  {
    if dots != [] {
      var init := dots[..|dots| - 1];
      MaxXIsMax(init);
      assert forall k :: 0 <= k < |init| ==> init[k] == dots[k];
    }
  }

  /** `MaxY` bounds every row and is one of them (or 0, the start value). */
  lemma {:induction false} MaxYIsMax(dots: seq<Dot>)
    ensures forall k :: 0 <= k < |dots| ==> dots[k].1 <= MaxY(dots)
    ensures MaxY(dots) == 0 || exists k :: 0 <= k < |dots| && dots[k].1 == MaxY(dots)
  {
    if dots != [] {
      var init := dots[..|dots| - 1];
      MaxYIsMax(init);
      assert forall k :: 0 <= k < |init| ==> init[k] == dots[k];
    }
  }

  /** The dots listed, each once. */
  function Elements(dots: seq<Dot>): set<Dot> {
    set k | 0 <= k < |dots| :: dots[k]
  }

  lemma ElementsSnoc(dots: seq<Dot>)
    requires dots != []
    ensures Elements(dots) == Elements(dots[..|dots| - 1]) + {dots[|dots| - 1]}
  {
    var init := dots[..|dots| - 1];
    forall q ensures q in Elements(dots) <==> q in Elements(init) + {dots[|dots| - 1]} {
      if q in Elements(dots) {
        var k :| 0 <= k < |dots| && dots[k] == q;
        if k < |init| {
          assert init[k] == q;
        }
      }
      if q in Elements(init) {
        var k :| 0 <= k < |init| && init[k] == q;
        assert dots[k] == q;
      }
    }
  }

  /** The sheet `parse` builds from the dots. */
  function ParsedSheet(dots: seq<Dot>): Sheet {
    Sheet(MaxY(dots), MaxX(dots), Elements(dots))
  }

  /** Repeated dots are stored once. */
  lemma {:induction false} DotsAtMost(dots: seq<Dot>)
    ensures |ParsedSheet(dots).points| <= |dots|
  {
    if dots != [] {
      var init := dots[..|dots| - 1];
      DotsAtMost(init);
      ElementsSnoc(dots);
    }
  }

  // ---------------------------------------------------------------------------
  // Rendering.

  function Pixel(sh: Sheet, col: nat, row: nat): char {
    if (col, row) in sh.points then '#' else '.'
  }

  /** Row `row`: columns 0 to `cols`, then "\r\n". */
  function Line(sh: Sheet, row: nat): (r: string)
    ensures |r| == sh.cols + 3
  {
    seq(sh.cols + 1, col requires 0 <= col => Pixel(sh, col, row)) + "\r\n"
  }

  /** The first `n` lines. */
  function Lines(sh: Sheet, n: nat): string {
    if n == 0 then [] else Lines(sh, n - 1) + Line(sh, n - 1)
  }

  /** What `stringify` shows. */
  function Render(sh: Sheet): string {
    Lines(sh, sh.rows + 1)
  }

  /** Each line is `cols + 3` characters long. */
  lemma {:induction false} LinesLength(sh: Sheet, n: nat)
    ensures |Lines(sh, n)| == n * (sh.cols + 3)
  {
    if n > 0 {
      LinesLength(sh, n - 1);
    }
  }

  /** Line `row` sits right after the lines before it. */
  lemma {:induction false} LinesPrefix(sh: Sheet, row: nat, n: nat)
    requires row < n
    ensures Lines(sh, row) + Line(sh, row) <= Lines(sh, n)
  {
    if row < n - 1 {
      LinesPrefix(sh, row, n - 1);
    }
  }

  /**
   * `rows + 1` lines of `cols + 1` characters and "\r\n" each, where the
   * character in column `col` of line `row` is '#' exactly when there is a
   * dot at `(col, row)`.
   */
  lemma RenderShape(sh: Sheet, row: nat, col: nat)
    requires row <= sh.rows && col <= sh.cols + 2
    ensures |Render(sh)| == (sh.rows + 1) * (sh.cols + 3)
    ensures Render(sh)[row * (sh.cols + 3) + col] ==
      if col <= sh.cols then (if (col, row) in sh.points then '#' else '.') else "\r\n"[col - sh.cols - 1]
  {
    LinesLength(sh, sh.rows + 1);
    LinesLength(sh, row);
    LinesPrefix(sh, row, sh.rows + 1);
    assert (Lines(sh, row) + Line(sh, row))[|Lines(sh, row)| + col] == Line(sh, row)[col];
  }

  // ---------------------------------------------------------------------------
  // The paper.

  class Foldable {
    var rows: nat
    var cols: nat
    var points: set<Dot>

    function State(): Sheet
      reads this
    {
      Sheet(rows, cols, points)
    }

    /** `Foldable::new`: no dots, a 1 by 1 sheet. */
    constructor ()
      ensures State() == Sheet(0, 0, {})
    {
      rows := 0;
      cols := 0;
      points := {};
    }

    /** `fold_along_x`: every dot is moved into a new set, then `cols` and `points` are replaced. */
    method FoldAlongX(value: nat)
      requires CanFold(State(), Fold(X, value))
      modifies this
      ensures rows == old(rows) && cols == value - 1 && points == FoldedX(old(points), value)
    {
      assert FoldedX({}, value) == {};
      hide FoldedX;
      var newPoints: set<Dot> := {};
      var old_points := points;
      var remaining := points;
      assert old_points - remaining == {};
      while remaining != {}
        invariant remaining <= old_points && unchanged(this)
        invariant newPoints == FoldedX(old_points - remaining, value)
        decreases |remaining|
      {
        var p :| p in remaining;
        var (x, y) := p;
        if x < value {
          newPoints := newPoints + {(x, y)};
        } else {
          newPoints := newPoints + {(2 * value - x, y)};
        }
        FoldedXAdd(old_points - remaining, p, value);
        assert old_points - (remaining - {p}) == (old_points - remaining) + {p};
        remaining := remaining - {p};
      }
      assert old_points - remaining == old_points;
      cols := value - 1;
      points := newPoints;
    }

    /** `fold_along_y`: every dot is moved into a new set, then `rows` and `points` are replaced. */
    method FoldAlongY(value: nat)
      requires CanFold(State(), Fold(Y, value))
      modifies this
      ensures rows == value - 1 && cols == old(cols) && points == FoldedY(old(points), value)
    {
      assert FoldedY({}, value) == {};
      hide FoldedY;
      var newPoints: set<Dot> := {};
      var old_points := points;
      var remaining := points;
      assert old_points - remaining == {};
      while remaining != {}
        invariant remaining <= old_points && unchanged(this)
        invariant newPoints == FoldedY(old_points - remaining, value)
        decreases |remaining|
      {
        var p :| p in remaining;
        var (x, y) := p;
        if y < value {
          newPoints := newPoints + {(x, y)};
        } else {
          newPoints := newPoints + {(x, 2 * value - y)};
        }
        FoldedYAdd(old_points - remaining, p, value);
        assert old_points - (remaining - {p}) == (old_points - remaining) + {p};
        remaining := remaining - {p};
      }
      assert old_points - remaining == old_points;
      rows := value - 1;
      points := newPoints;
    }

    /** `fold_along`: dispatch on the fold's direction. */
    method FoldAlong(fold: Fold)
      requires CanFold(State(), fold)
      modifies this
      ensures State() == FoldSheet(old(State()), fold)
    {
      match fold.foldType
      case X => FoldAlongX(fold.value);
      case Y => FoldAlongY(fold.value);
    }

    /** `stringify`: the picture, appended character by character. */
    method Stringify() returns (s: string)
      ensures s == Render(State())
    {
      var sh := State();
      s := [];
      for row := 0 to rows + 1
        invariant s == Lines(sh, row)
      {
        for col := 0 to cols + 1
          invariant s == Lines(sh, row) + Line(sh, row)[..col]
        {
          assert Line(sh, row)[..col + 1] == Line(sh, row)[..col] + [Pixel(sh, col, row)];
          if (col, row) in points {
            s := s + "#";
          } else {
            s := s + ".";
          }
        }
        assert Line(sh, row) == Line(sh, row)[..cols + 1] + "\r\n";
        s := s + "\r\n";
      }
    }
  }

  /** `parse` (the dots): each dot widens the sheet to reach it and joins the set. */
  method Parse(dots: seq<Dot>) returns (f: Foldable)
    ensures fresh(f) && f.State() == ParsedSheet(dots)
  {
    f := new Foldable();
    for i := 0 to |dots|
      invariant f.State() == ParsedSheet(dots[..i])
    {
      var init := dots[..i + 1];
      assert init[..i] == dots[..i] && init[i] == dots[i];
      ElementsSnoc(init);
      var (x, y) := dots[i];
      if x > f.cols {
        f.cols := x;
      }
      if y > f.rows {
        f.rows := y;
      }
      f.points := f.points + {(x, y)};
    }
    assert dots[..|dots|] == dots;
  }

  /** `solution_a`: the number of dots left after the first fold, never more than the dots listed. */
  method SolutionA(dots: seq<Dot>, folds: seq<Fold>) returns (count: nat)
    requires |folds| > 0 && CanFold(ParsedSheet(dots), folds[0])
    ensures count == |FoldSheet(ParsedSheet(dots), folds[0]).points|
    ensures count <= |dots|
  {
    var foldable := Parse(dots);
    foldable.FoldAlong(folds[0]);
    count := |foldable.points|;
    DotsAtMost(dots);
  }

  /** `solution_b`: the picture after every fold. */
  method SolutionB(dots: seq<Dot>, folds: seq<Fold>) returns (s: string)
    requires CanFoldAll(ParsedSheet(dots), folds)
    ensures s == Render(FoldAll(ParsedSheet(dots), folds))
  {
    var foldable := Parse(dots);
    for i := 0 to |folds|
      invariant CanFoldAll(foldable.State(), folds[i..])
      invariant FoldAll(foldable.State(), folds[i..]) == FoldAll(ParsedSheet(dots), folds)
    {
      assert folds[i..][1..] == folds[i + 1..];
      foldable.FoldAlong(folds[i]);
    }
    s := foldable.Stringify();
  }
}

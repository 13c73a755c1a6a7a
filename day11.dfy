/**
 * Dumbo octopus (day11.rs). A grid of energy levels; in a step every octopus
 * gains one energy, and one above 9 flashes, giving one energy to each of its
 * neighbours through a worklist, at most once per step; afterwards every
 * octopus that flashed drops to 0.
 *
 * `step` takes the grid by value and hands it back, so the grid is a datatype
 * and `Step` a method from the old grid to the new one. Its worklist loops are
 * proved against the functions `Round`, `Cascade` and `StepSpec`, and the
 * promises of a step are lemmas about those.
 */
module DumboOctopus {

  datatype Option<T> = None | Some(value: T)

  type Cell = (nat, nat)

  /** `Octopus`: its energy, whether it flashed in this step, and the cells around it. */
  datatype Octopus = Octopus(energy: nat, flashing: bool, adjacent: seq<Cell>)

  /** `OctopusGrid`: its height and width and the octopus at every cell. */
  datatype Grid = Grid(rows: nat, cols: nat, octopi: map<Cell, Octopus>)

  // ---------------------------------------------------------------------------
  // Building the grid.

  /** The half-open range `lo..end`. */
  function Interval(lo: nat, end: nat): (r: seq<nat>)
    ensures forall x :: x in r <==> lo <= x < end
  {
    if end <= lo then []
    else
      var r := seq(end - lo, i => lo + i);
      forall x | lo <= x < end ensures x in r {
        assert r[x - lo] == x;
      }
      r
  }

  /** `cartesian_product`: every pair, first components in order, second components in order within each. */
  function Product(xs: seq<nat>, ys: seq<nat>): (r: seq<Cell>)
    ensures forall p :: p in r <==> p.0 in xs && p.1 in ys
  {
    if xs == [] then []
    else
      var row := seq(|ys|, j requires 0 <= j < |ys| => (xs[0], ys[j]));
      assert forall p :: p in row <==> p.0 == xs[0] && p.1 in ys by {
        forall p: Cell | p.0 == xs[0] && p.1 in ys ensures p in row {
          var j :| 0 <= j < |ys| && ys[j] == p.1;
          assert row[j] == p;
        }
      }
      assert forall x :: x in xs <==> x == xs[0] || x in xs[1..];
      row + Product(xs[1..], ys)
  }

  /** Every cell of a `rows` by `cols` grid, row by row, as `step` lists them first. */
  function AllCells(rows: nat, cols: nat): (r: seq<Cell>)
    ensures forall p :: p in r <==> p.0 < rows && p.1 < cols
  {
    Product(Interval(0, rows), Interval(0, cols))
  }

  /** `x.checked_sub(1).unwrap_or_default()..=min(x + 1, n - 1)`. */
  function Span(x: nat, n: nat): (r: seq<nat>)
    requires n >= 1
    ensures forall y :: y in r ==> y < n
  {
    Interval(if x == 0 then 0 else x - 1, if x + 1 <= n - 1 then x + 2 else n)
  }

  /** `square` without `x`, in order. */
  function Without(square: seq<Cell>, x: Cell): (r: seq<Cell>)
    ensures forall p :: p in r <==> p in square && p != x
  {
    if square == [] then []
    else
      assert forall p :: p in square <==> p == square[0] || p in square[1..];
      if square[0] == x then Without(square[1..], x)
      else [square[0]] + Without(square[1..], x)
  }

  /** The neighbour list `new` builds: the square around the cell clipped to the grid, without the cell. */
  function Around(row: nat, col: nat, rows: nat, cols: nat): (r: seq<Cell>)
    requires rows >= 1 && cols >= 1
    ensures forall q :: q in r ==> q.0 < rows && q.1 < cols
  {
    Without(Product(Span(row, rows), Span(col, cols)), (row, col))
  }

  /** One row or column apart at most. */
  predicate Near(a: nat, b: nat) {
    a <= b + 1 && b <= a + 1
  }

  /** Inside the grid, the neighbour list is the eight cells around, as far as they exist. */
  lemma AroundIsNeighbourhood(row: nat, col: nat, rows: nat, cols: nat, p: Cell)
    requires row < rows && col < cols
    ensures p in Around(row, col, rows, cols) <==>
              p.0 < rows && p.1 < cols && Near(p.0, row) && Near(p.1, col) && p != (row, col)
  {
  }

  predicate IsDigit(c: char) {
    '0' <= c <= '9'
  }

  /** `to_digit(10)` of a decimal digit. */
  function DigitValue(c: char): (d: nat)
    requires IsDigit(c)
    ensures d <= 9
  {
    c as nat - '0' as nat
  }

  /** The cells holding a character. */
  function Keys(lines: seq<string>): set<Cell> {
    set r: nat, c: nat | r < |lines| && c < |lines[r]| :: (r, c)
  }

  /**
   * `OctopusGrid::new`: the height is the number of lines and the width that
   * of the first line; every character becomes an octopus with its digit as
   * energy, not flashing, and its neighbour list. A non-digit makes
   * `to_digit(10).unwrap()` panic, and an empty first line under a non-empty
   * one makes `cols - 1` underflow.
   */
  function New(lines: seq<string>): (g: Grid)
    requires |lines| > 0
    requires forall r, c :: 0 <= r < |lines| && 0 <= c < |lines[r]| ==> IsDigit(lines[r][c])
    requires forall r :: 0 <= r < |lines| && |lines[r]| > 0 ==> |lines[0]| > 0
    ensures g.rows == |lines| && g.cols == |lines[0]| && g.octopi.Keys == Keys(lines)
    ensures forall p :: p in g.octopi ==> g.octopi[p].energy == DigitValue(lines[p.0][p.1]) && !g.octopi[p].flashing
    ensures forall p :: p in g.octopi ==> g.octopi[p].adjacent == Around(p.0, p.1, g.rows, g.cols)
    ensures ListsWithin(g.octopi, g.rows, g.cols)
  {
    var rows, cols := |lines|, |lines[0]|;
    var octopi := map p | p in Keys(lines) ::
      Octopus(DigitValue(lines[p.0][p.1]), false, Around(p.0, p.1, rows, cols));
    Grid(rows, cols, octopi)
  }

  /** Every line as long as the first. */
  predicate Rectangular(lines: seq<string>) {
    forall r :: 0 <= r < |lines| ==> |lines[r]| == |lines[0]|
  }

  /**
   * A new grid is well formed exactly when no line is shorter than the first:
   * a shorter line leaves a cell of the rectangle without an octopus, where
   * `step` panics. Lines longer than the first are allowed. The grid starts
   * settled either way.
   */
  lemma NewWellFormed(lines: seq<string>)
    requires |lines| > 0
    requires forall r, c :: 0 <= r < |lines| && 0 <= c < |lines[r]| ==> IsDigit(lines[r][c])
    requires forall r :: 0 <= r < |lines| && |lines[r]| > 0 ==> |lines[0]| > 0
    ensures WellFormed(New(lines)) <==> forall r :: 0 <= r < |lines| ==> |lines[r]| >= |lines[0]|
    ensures Settled(New(lines).octopi)
  {
    var g := New(lines);
    if forall r :: 0 <= r < |lines| ==> |lines[r]| >= |lines[0]| {
      forall p | InGrid(g, p) ensures p in g.octopi {
        assert p in Keys(lines);
      }
    } else {
      var r :| 0 <= r < |lines| && |lines[r]| < |lines[0]|;
      var p: Cell := (r, |lines[r]|);
      assert InGrid(g, p) && p !in Keys(lines);
    }
  }

  /**
   * A new grid from a rectangular input is well formed and settled, and every
   * octopus's neighbour list holds exactly the cells around it.
   */
  lemma NewIsSettled(lines: seq<string>)
    requires |lines| > 0 && |lines[0]| > 0 && Rectangular(lines)
    requires forall r, c :: 0 <= r < |lines| && 0 <= c < |lines[r]| ==> IsDigit(lines[r][c])
    ensures WellFormed(New(lines)) && Settled(New(lines).octopi)
    ensures forall p, q :: p in New(lines).octopi ==>
              (q in New(lines).octopi[p].adjacent <==> q in New(lines).octopi && Near(p.0, q.0) && Near(p.1, q.1) && q != p)
  {
    var g := New(lines);
    forall p: Cell | p.0 < g.rows && p.1 < g.cols ensures p in g.octopi {
      assert p in Keys(lines);
    }
    forall p, q | p in g.octopi
      ensures q in g.octopi[p].adjacent <==> q in g.octopi && Near(p.0, q.0) && Near(p.1, q.1) && q != p
    {
      AroundIsNeighbourhood(p.0, p.1, g.rows, g.cols, q);
      assert q.0 < g.rows && q.1 < g.cols ==> q in Keys(lines);
    }
  }

  // ---------------------------------------------------------------------------
  // One step, as functions.

  /** Every neighbour listed is an octopus of the grid, so `get_mut(..).unwrap()` never fails. */
  predicate Closed(m: map<Cell, Octopus>) {
    forall c, k :: c in m && 0 <= k < |m[c].adjacent| ==> m[c].adjacent[k] in m
  }

  predicate AllIn(cells: seq<Cell>, m: map<Cell, Octopus>) {
    forall k :: 0 <= k < |cells| ==> cells[k] in m
  }

  /** Inside the `rows` by `cols` rectangle that `step` queues. */
  predicate InGrid(g: Grid, p: Cell) {
    p.0 < g.rows && p.1 < g.cols
  }

  /** Every cell listed lies inside the rectangle. */
  predicate Within(cells: seq<Cell>, rows: nat, cols: nat) {
    forall k :: 0 <= k < |cells| ==> cells[k].0 < rows && cells[k].1 < cols
  }

  /** Every neighbour list lies inside the rectangle. */
  predicate ListsWithin(m: map<Cell, Octopus>, rows: nat, cols: nat) {
    forall c :: c in m ==> Within(m[c].adjacent, rows, cols)
  }

  /**
   * What `step` needs of a grid: every cell of the rectangle it queues is an
   * octopus, so `get_mut(cell).unwrap()` succeeds, and every neighbour list
   * stays inside the rectangle. A line longer than the first gives octopi
   * outside the rectangle; a grid with them is well formed, and `step` never
   * reaches them.
   */
  ghost predicate WellFormed(g: Grid) {
    ListsWithin(g.octopi, g.rows, g.cols) && forall p :: InGrid(g, p) ==> p in g.octopi
  }

  /** The octopi inside the rectangle. */
  function Inside(g: Grid): (r: set<Cell>)
    ensures r <= g.octopi.Keys
    ensures r == g.octopi.Keys <==> forall p :: p in g.octopi ==> InGrid(g, p)
  {
    set p | p in g.octopi && InGrid(g, p)
  }

  /** Between steps: no flag set and every energy at most 9. */
  predicate Settled(m: map<Cell, Octopus>) {
    forall c :: c in m ==> !m[c].flashing && m[c].energy <= 9
  }

  /** During a step: a flashing octopus is at exactly 10, any other at most 9. */
  predicate Charged(m: map<Cell, Octopus>) {
    forall c :: c in m ==> if m[c].flashing then m[c].energy == 10 else m[c].energy <= 9
  }

  /** The octopi that have not flashed in this step. */
  function Calm(m: map<Cell, Octopus>): set<Cell> {
    set c | c in m && !m[c].flashing
  }

  /** The octopi that have flashed in this step. */
  function Flashed(m: map<Cell, Octopus>): set<Cell> {
    set c | c in m && m[c].flashing
  }

  /**
   * One visit of the worklist: a flashing octopus is skipped; any other gains
   * one energy, and above 9 it starts flashing and its neighbours are pushed.
   */
  function Visit(m: map<Cell, Octopus>, cell: Cell): (r: (map<Cell, Octopus>, seq<Cell>))
    requires cell in m
    ensures r.0.Keys == m.Keys
    ensures forall c :: c in m && c != cell ==> r.0[c] == m[c]
    ensures m[cell].flashing ==> r.0 == m && r.1 == []
    ensures !m[cell].flashing ==>
              r.0[cell].energy == m[cell].energy + 1 && r.0[cell].adjacent == m[cell].adjacent &&
              (r.0[cell].flashing <==> m[cell].energy + 1 > 9) &&
              r.1 == (if r.0[cell].flashing then m[cell].adjacent else [])
  {
    var o := m[cell];
    if o.flashing then (m, [])
    else if o.energy + 1 > 9 then (m[cell := o.(energy := o.energy + 1, flashing := true)], o.adjacent)
    else (m[cell := o.(energy := o.energy + 1)], [])
  }

  /**
   * One pass over the worklist, the `for cell in to_update` loop: the visits
   * in order, with everything they push.
   */
  function Round(m: map<Cell, Octopus>, cells: seq<Cell>): (r: (map<Cell, Octopus>, seq<Cell>))
    requires AllIn(cells, m)
    ensures r.0.Keys == m.Keys
    ensures forall c :: c in m ==> r.0[c].adjacent == m[c].adjacent
    ensures forall c :: c in m && m[c].flashing ==> r.0[c] == m[c]
    ensures Calm(r.0) <= Calm(m)
    ensures r.1 != [] ==> Calm(r.0) < Calm(m)
    ensures Closed(m) ==> AllIn(r.1, m)
  {
    if cells == [] then (m, [])
    else
      var prev := Round(m, cells[..|cells| - 1]);
      var cell := cells[|cells| - 1];
      var next := Visit(prev.0, cell);
      assert next.1 != [] ==> cell in Calm(prev.0) && cell !in Calm(next.0);
      (next.0, prev.1 + next.1)
  }

  lemma SubsetSmaller<T>(a: set<T>, b: set<T>)
    requires a <= b
    ensures |a| <= |b| && (a < b ==> |a| < |b|)
  {
    assert b == a + (b - a) && a * (b - a) == {};
    if a < b {
      var x :| x in b && x !in a;
      assert x in b - a;
    }
  }

  /**
   * The `while !to_update.is_empty()` loop: passes over the worklist until
   * nothing is pushed. Each pass that pushes anything starts a new flash, so
   * the number of calm octopi falls, and a pass that pushes nothing ends it.
   */
  function Cascade(m: map<Cell, Octopus>, toUpdate: seq<Cell>): (r: map<Cell, Octopus>)
    requires Closed(m) && AllIn(toUpdate, m)
    ensures r.Keys == m.Keys && Closed(r)
    ensures forall c :: c in m ==> r[c].adjacent == m[c].adjacent
    ensures forall c :: c in m && m[c].flashing ==> r[c] == m[c]
    decreases |Calm(m)|, |toUpdate|
  {
    if toUpdate == [] then m
    else
      var next := Round(m, toUpdate);
      SubsetSmaller(Calm(next.0), Calm(m));
      Cascade(next.0, next.1)
  }

  /** The loop at the end of `step`: a flashing octopus drops to energy 0 and its flag is cleared. */
  function ResetOne(o: Octopus): (r: Octopus)
    ensures r.adjacent == o.adjacent && !r.flashing
  {
    if o.flashing then o.(energy := 0, flashing := false) else o
  }

  function Reset(m: map<Cell, Octopus>): (r: map<Cell, Octopus>)
    ensures r.Keys == m.Keys && forall c :: c in m ==> r[c] == ResetOne(m[c])
  {
    map c | c in m :: ResetOne(m[c])
  }

  /** The first worklist of a step holds octopi of the rectangle only, and every neighbour listed is an octopus. */
  lemma AllCellsIn(g: Grid)
    requires WellFormed(g)
    ensures AllIn(AllCells(g.rows, g.cols), g.octopi) && Within(AllCells(g.rows, g.cols), g.rows, g.cols)
    ensures Closed(g.octopi)
  {
    var cells := AllCells(g.rows, g.cols);
    forall k | 0 <= k < |cells| ensures cells[k] in g.octopi && InGrid(g, cells[k]) {
      assert cells[k] in cells;
    }
    forall c, k | c in g.octopi && 0 <= k < |g.octopi[c].adjacent| ensures g.octopi[c].adjacent[k] in g.octopi {
      assert InGrid(g, g.octopi[c].adjacent[k]);
    }
  }

  /**
   * A pass over cells of the rectangle pushes only cells of the rectangle and
   * leaves every octopus outside it as it was.
   */
  lemma {:induction false} RoundOutside(m: map<Cell, Octopus>, cells: seq<Cell>, rows: nat, cols: nat)
    requires AllIn(cells, m) && ListsWithin(m, rows, cols) && Within(cells, rows, cols)
    ensures Within(Round(m, cells).1, rows, cols)
    ensures forall c :: c in m && !(c.0 < rows && c.1 < cols) ==> Round(m, cells).0[c] == m[c]
    decreases |cells|
  {
    if cells != [] {
      var init := cells[..|cells| - 1];
      var cell := cells[|cells| - 1];
      assert Within(init, rows, cols) by {
        forall k | 0 <= k < |init| ensures init[k].0 < rows && init[k].1 < cols {
          assert init[k] == cells[k];
        }
      }
      RoundOutside(m, init, rows, cols);
      var prev := Round(m, init);
      var next := Visit(prev.0, cell);
      assert Within(next.1, rows, cols) by {
        assert next.1 == [] || next.1 == m[cell].adjacent;
      }
      var pushed := prev.1 + next.1;
      forall k | 0 <= k < |pushed| ensures pushed[k].0 < rows && pushed[k].1 < cols {
        if k < |prev.1| {
          assert pushed[k] == prev.1[k];
        } else {
          assert pushed[k] == next.1[k - |prev.1|];
        }
      }
    }
  }

  /** The whole propagation leaves every octopus outside the rectangle as it was. */
  lemma {:induction false} CascadeOutside(m: map<Cell, Octopus>, toUpdate: seq<Cell>, rows: nat, cols: nat)
    requires Closed(m) && AllIn(toUpdate, m) && ListsWithin(m, rows, cols) && Within(toUpdate, rows, cols)
    ensures forall c :: c in m && !(c.0 < rows && c.1 < cols) ==> Cascade(m, toUpdate)[c] == m[c]
    decreases |Calm(m)|, |toUpdate|
  {
    if toUpdate != [] {
      var next := Round(m, toUpdate);
      SubsetSmaller(Calm(next.0), Calm(m));
      RoundOutside(m, toUpdate, rows, cols);
      assert ListsWithin(next.0, rows, cols) by {
        forall c | c in next.0 ensures Within(next.0[c].adjacent, rows, cols) {
          assert next.0[c].adjacent == m[c].adjacent;
        }
      }
      CascadeOutside(next.0, next.1, rows, cols);
    }
  }

  /**
   * `step`: every cell queued once, row by row; the cascade; then the reset,
   * returning the number of octopi that flashed.
   */
  function StepSpec(g: Grid): (r: (Grid, nat))
    requires WellFormed(g)
    ensures WellFormed(r.0) && r.0.rows == g.rows && r.0.cols == g.cols && r.0.octopi.Keys == g.octopi.Keys
    ensures forall c :: c in g.octopi ==> r.0.octopi[c].adjacent == g.octopi[c].adjacent
    ensures r.1 <= |g.octopi|
    ensures forall p :: p in g.octopi && !InGrid(g, p) && !g.octopi[p].flashing ==> r.0.octopi[p] == g.octopi[p]
  {
    AllCellsIn(g);
    var m := Cascade(g.octopi, AllCells(g.rows, g.cols));
    SubsetSmaller(Flashed(m), m.Keys);
    CascadeOutside(g.octopi, AllCells(g.rows, g.cols), g.rows, g.cols);
    ResetKeeps(g, m);
    (g.(octopi := Reset(m)), |Flashed(m)|)
  }

  /**
   * Resetting the octopi after the propagation keeps the grid well formed,
   * and an octopus outside the rectangle that the propagation left alone and
   * that was not flashing is unchanged.
   */
  lemma ResetKeeps(g: Grid, m: map<Cell, Octopus>)
    requires WellFormed(g) && m.Keys == g.octopi.Keys
    requires forall c :: c in m ==> m[c].adjacent == g.octopi[c].adjacent
    requires forall c :: c in m && !(c.0 < g.rows && c.1 < g.cols) ==> m[c] == g.octopi[c]
    ensures WellFormed(g.(octopi := Reset(m)))
    ensures forall c :: c in g.octopi ==> Reset(m)[c].adjacent == g.octopi[c].adjacent
    ensures forall p :: p in g.octopi && !InGrid(g, p) && !g.octopi[p].flashing ==> Reset(m)[p] == g.octopi[p]
  {
    var g' := g.(octopi := Reset(m));
    forall c | c in g'.octopi ensures Within(g'.octopi[c].adjacent, g.rows, g.cols) {
      assert g'.octopi[c].adjacent == g.octopi[c].adjacent;
    }
    assert forall p :: InGrid(g', p) ==> InGrid(g, p);
  }

  // ---------------------------------------------------------------------------
  // What a step promises.

  /** A pass keeps a flashing octopus at 10 and any other at 9 or below. */
  lemma {:induction false} RoundCharged(m: map<Cell, Octopus>, cells: seq<Cell>)
    requires AllIn(cells, m) && Charged(m)
    ensures Charged(Round(m, cells).0)
    decreases |cells|
  {
    if cells != [] {
      RoundCharged(m, cells[..|cells| - 1]);
    }
  }

  lemma {:induction false} CascadeCharged(m: map<Cell, Octopus>, toUpdate: seq<Cell>)
    requires Closed(m) && AllIn(toUpdate, m) && Charged(m)
    ensures Charged(Cascade(m, toUpdate))
    decreases |Calm(m)|, |toUpdate|
  {
    if toUpdate != [] {
      var next := Round(m, toUpdate);
      SubsetSmaller(Calm(next.0), Calm(m));
      RoundCharged(m, toUpdate);
      CascadeCharged(next.0, next.1);
    }
  }

  /** Flashing, or at energy 1 or more: what every octopus is once it has been visited. */
  predicate Touched(o: Octopus) {
    o.flashing || o.energy >= 1
  }

  /** A pass touches every octopus it visits and keeps touched those that were. */
  lemma {:induction false} RoundTouches(m: map<Cell, Octopus>, cells: seq<Cell>)
    requires AllIn(cells, m)
    ensures forall c :: c in m && (c in cells || Touched(m[c])) ==> Touched(Round(m, cells).0[c])
    decreases |cells|
  {
    if cells != [] {
      var init := cells[..|cells| - 1];
      RoundTouches(m, init);
      assert forall c :: c in cells <==> c in init || c == cells[|cells| - 1];
    }
  }

  lemma {:induction false} CascadeTouches(m: map<Cell, Octopus>, toUpdate: seq<Cell>)
    requires Closed(m) && AllIn(toUpdate, m)
    ensures forall c :: c in m && (c in toUpdate || Touched(m[c])) ==> Touched(Cascade(m, toUpdate)[c])
    decreases |Calm(m)|, |toUpdate|
  {
    if toUpdate != [] {
      var next := Round(m, toUpdate);
      SubsetSmaller(Calm(next.0), Calm(m));
      RoundTouches(m, toUpdate);
      CascadeTouches(next.0, next.1);
    }
  }

  /** After a step from a settled grid no flag is set and every energy is at most 9. */
  lemma StepSettles(g: Grid)
    requires WellFormed(g) && Settled(g.octopi)
    ensures Settled(StepSpec(g).0.octopi)
  {
    AllCellsIn(g);
    var m := Cascade(g.octopi, AllCells(g.rows, g.cols));
    CascadeCharged(g.octopi, AllCells(g.rows, g.cols));
    ResetSettles(m);
    assert StepSpec(g).0.octopi == Reset(m);
  }

  /** Resetting a charged grid settles it. */
  lemma ResetSettles(m: map<Cell, Octopus>)
    requires Charged(m)
    ensures Settled(Reset(m))
  {
  }

  /** Every energy is 0. */
  predicate AllDark(m: map<Cell, Octopus>) {
    forall c :: c in m ==> m[c].energy == 0
  }

  /**
   * From a settled grid, a step leaves every energy at 0 exactly when every
   * octopus of the rectangle flashed in it and every octopus outside it was
   * already at 0: one of the rectangle that did not flash was visited and
   * kept an energy of at least 1, and one outside is never visited. On a grid
   * without octopi outside the rectangle, `Inside(g)` is every octopus.
   */
  lemma DarkIffAllFlashed(g: Grid)
    requires WellFormed(g) && Settled(g.octopi)
    ensures AllDark(StepSpec(g).0.octopi) <==>
              StepSpec(g).1 == |Inside(g)| && forall p :: p in g.octopi && !InGrid(g, p) ==> g.octopi[p].energy == 0
  {
    hide Cascade, AllCells, Round, Visit, Reset, Flashed;
    AllCellsIn(g);
    var cells := AllCells(g.rows, g.cols);
    var m := Cascade(g.octopi, cells);
    CascadeTouches(g.octopi, cells);
    CascadeOutside(g.octopi, cells, g.rows, g.cols);
    assert forall c :: c in Inside(g) ==> Touched(m[c]) by {
      forall c | c in Inside(g) ensures Touched(m[c]) {
        assert c in cells;
      }
    }
    ResetDark(m, Inside(g));
  }

  /**
   * When every octopus of `inside` was touched and none outside it flashed,
   * the reset leaves all dark exactly when all of `inside` flashed and the
   * others were at 0 already.
   */
  lemma ResetDark(m: map<Cell, Octopus>, inside: set<Cell>)
    requires inside <= m.Keys
    requires forall c :: c in inside ==> Touched(m[c])
    requires forall c :: c in m && c !in inside ==> !m[c].flashing
    ensures AllDark(Reset(m)) <==> |Flashed(m)| == |inside| && forall c :: c in m && c !in inside ==> m[c].energy == 0
  {
    assert Flashed(m) <= inside;
    SubsetSmaller(Flashed(m), inside);
    if AllDark(Reset(m)) {
      forall c | c in inside ensures c in Flashed(m) {
        assert Reset(m)[c].energy == 0;
      }
      assert Flashed(m) == inside;
      forall c | c in m && c !in inside ensures m[c].energy == 0 {
        assert Reset(m)[c] == m[c];
      }
    }
    if |Flashed(m)| == |inside| && forall c :: c in m && c !in inside ==> m[c].energy == 0 {
      assert Flashed(m) == inside;
      forall c | c in Reset(m) ensures Reset(m)[c].energy == 0 {
        if c in inside {
          assert m[c].flashing;
        }
      }
    }
  }

  /** The grid after `n` steps. */
  function After(g: Grid, n: nat): (r: Grid)
    requires WellFormed(g)
    ensures WellFormed(r) && r.rows == g.rows && r.cols == g.cols && r.octopi.Keys == g.octopi.Keys
  {
    if n == 0 then g else StepSpec(After(g, n - 1)).0
  }

  /** The flashes over the first `n` steps. */
  function TotalFlashes(g: Grid, n: nat): nat
    requires WellFormed(g)
  {
    if n == 0 then 0 else TotalFlashes(g, n - 1) + StepSpec(After(g, n - 1)).1
  }

  /** No step has more flashes than octopi. */
  lemma {:induction false} TotalFlashesBound(g: Grid, n: nat)
    requires WellFormed(g)
    ensures TotalFlashes(g, n) <= n * |g.octopi|
  {
    if n > 0 {
      TotalFlashesBound(g, n - 1);
      assert |After(g, n - 1).octopi| == |g.octopi| by {
        assert After(g, n - 1).octopi.Keys == g.octopi.Keys;
      }
      assert (n - 1) * |g.octopi| + |g.octopi| == n * |g.octopi|;
    }
  }

  // ---------------------------------------------------------------------------
  // The step as the source writes it.

  /** The `for cell in to_update` loop: visit each queued cell, collecting what flashes push. */
  method Pass(octopi: map<Cell, Octopus>, toUpdate: seq<Cell>) returns (octopi': map<Cell, Octopus>, toPropagate: seq<Cell>)
    requires AllIn(toUpdate, octopi)
    ensures (octopi', toPropagate) == Round(octopi, toUpdate)
  {
    octopi' := octopi;
    toPropagate := [];
    assert toUpdate[..0] == [];
    for i := 0 to |toUpdate|
      invariant (octopi', toPropagate) == Round(octopi, toUpdate[..i])
    {
      RoundSnoc(octopi, toUpdate, i);
      octopi', toPropagate := Charge(octopi', toUpdate[i], toPropagate);
    }
    assert toUpdate[..|toUpdate|] == toUpdate;
  }

  /** The body of the pass for one cell: charge it unless it already flashed, and queue its neighbours when it flashes. */
  method Charge(octopi: map<Cell, Octopus>, cell: Cell, toPropagate: seq<Cell>) returns (octopi': map<Cell, Octopus>, toPropagate': seq<Cell>)
    requires cell in octopi
    ensures octopi' == Visit(octopi, cell).0 && toPropagate' == toPropagate + Visit(octopi, cell).1
  {
    octopi', toPropagate' := octopi, toPropagate;
    assert toPropagate + [] == toPropagate;
    var o := octopi[cell];
    if !o.flashing {
      o := o.(energy := o.energy + 1);
      if o.energy > 9 {
        o := o.(flashing := true);
        toPropagate' := toPropagate' + o.adjacent;
      }
      octopi' := octopi'[cell := o];
    }
  }

  /** One more cell of the pass is one more `Visit`. */
  lemma RoundSnoc(m: map<Cell, Octopus>, cells: seq<Cell>, i: nat)
    requires AllIn(cells, m) && i < |cells|
    ensures AllIn(cells[..i], m) && AllIn(cells[..i + 1], m) && cells[i] in Round(m, cells[..i]).0
    ensures Round(m, cells[..i + 1]) ==
              (Visit(Round(m, cells[..i]).0, cells[i]).0, Round(m, cells[..i]).1 + Visit(Round(m, cells[..i]).0, cells[i]).1)
  {
    assert cells[..i + 1][..i] == cells[..i];
  }

  /** The octopi with those outside `remaining` reset already. */
  function PartReset(m: map<Cell, Octopus>, remaining: set<Cell>): (r: map<Cell, Octopus>)
    ensures r.Keys == m.Keys
  {
    map c | c in m :: if c in remaining then m[c] else ResetOne(m[c])
  }

  /** Resetting one more octopus, which only changes it when it flashed. */
  lemma PartResetOne(m: map<Cell, Octopus>, remaining: set<Cell>, c: Cell)
    requires c in remaining && c in m
    ensures PartReset(m, remaining - {c}) == PartReset(m, remaining)[c := ResetOne(m[c])]
    ensures !m[c].flashing ==> PartReset(m, remaining - {c}) == PartReset(m, remaining)
  {
    var before, after := PartReset(m, remaining), PartReset(m, remaining - {c});
    assert after == before[c := ResetOne(m[c])];
    if !m[c].flashing {
      assert after == before;
    }
  }

  /** The loop over `values_mut()` at the end of `step`: count the flashing octopi and reset them. */
  method ResetFlashing(octopi: map<Cell, Octopus>) returns (numFlashing: nat, octopi': map<Cell, Octopus>)
    ensures numFlashing == |Flashed(octopi)| && octopi' == Reset(octopi)
  {
    numFlashing := 0;
    octopi' := octopi;
    var remaining := octopi.Keys;
    assert octopi' == PartReset(octopi, remaining);
    while remaining != {}
      invariant remaining <= octopi.Keys
      invariant octopi' == PartReset(octopi, remaining)
      invariant numFlashing == |Flashed(octopi) - remaining|
      decreases |remaining|
    {
      var c :| c in remaining;
      FlashedCount(octopi, remaining, c);
      PartResetOne(octopi, remaining, c);
      if octopi[c].flashing {
        numFlashing := numFlashing + 1;
        octopi' := octopi'[c := octopi[c].(energy := 0, flashing := false)];
      }
      remaining := remaining - {c};
    }
    assert Flashed(octopi) - {} == Flashed(octopi);
    assert PartReset(octopi, {}) == Reset(octopi);
  }

  /** Taking one more octopus out of those still to look at counts it when it flashed. */
  lemma FlashedCount(octopi: map<Cell, Octopus>, remaining: set<Cell>, c: Cell)
    requires c in remaining && c in octopi
    ensures |Flashed(octopi) - (remaining - {c})| == |Flashed(octopi) - remaining| + if octopi[c].flashing then 1 else 0
  {
    if octopi[c].flashing {
      assert Flashed(octopi) - (remaining - {c}) == (Flashed(octopi) - remaining) + {c};
    } else {
      assert Flashed(octopi) - (remaining - {c}) == Flashed(octopi) - remaining;
    }
  }

  /**
   * `OctopusGrid::step`: queue every cell row by row, pass over the worklist
   * until nothing is pushed, then reset the octopi that flashed.
   */
  method Step(g: Grid) returns (g': Grid, flashes: nat)
    requires WellFormed(g)
    ensures (g', flashes) == StepSpec(g)
  {
    AllCellsIn(g);
    var toUpdate := AllCells(g.rows, g.cols);
    var octopi := g.octopi;
    while toUpdate != []
      invariant Closed(octopi) && AllIn(toUpdate, octopi)
      invariant Cascade(octopi, toUpdate) == Cascade(g.octopi, AllCells(g.rows, g.cols))
      decreases |Calm(octopi)|, |toUpdate|
    {
      var toPropagate;
      ghost var before := octopi;
      octopi, toPropagate := Pass(octopi, toUpdate);
      SubsetSmaller(Calm(octopi), Calm(before));
      toUpdate := toPropagate;
    }
    var reset;
    flashes, reset := ResetFlashing(octopi);
    g' := g.(octopi := reset);
  }

  /** `solution_a`: the flashes over 100 steps, at most 100 per octopus. */
  method SolutionA(g: Grid) returns (numFlashes: nat)
    requires WellFormed(g)
    ensures numFlashes == TotalFlashes(g, 100) && numFlashes <= 100 * |g.octopi|
  {
    var grid := g;
    numFlashes := 0;
    for i := 1 to 101
      invariant grid == After(g, i - 1) && numFlashes == TotalFlashes(g, i - 1)
    {
      var flashing;
      grid, flashing := Step(grid);
      numFlashes := numFlashes + flashing;
    }
    TotalFlashesBound(g, 100);
  }

  /** Some energy is not 0: `values().any(|o| o.energy_level != 0)`. */
  predicate AnyAwake(m: map<Cell, Octopus>)
    ensures AnyAwake(m) <==> !AllDark(m)
  {
    exists c :: c in m && m[c].energy != 0
  }

  /** No grid before step `n` is all dark. */
  ghost predicate DarkBefore(g: Grid, n: nat)
    requires WellFormed(g)
  {
    forall k :: 0 <= k < n ==> !AllDark(After(g, k).octopi)
  }

  lemma DarkBeforeStep(g: Grid, n: nat)
    requires WellFormed(g) && DarkBefore(g, n) && !AllDark(After(g, n).octopi)
    ensures DarkBefore(g, n + 1)
  {
  }

  /** The step into an all-dark grid from a settled one is one in which every octopus of the rectangle flashed. */
  lemma FirstDarkStep(g: Grid, prev: Grid, i: nat)
    requires WellFormed(g) && i > 0 && prev == After(g, i - 1) && Settled(prev.octopi)
    requires AllDark(StepSpec(prev).0.octopi)
    ensures StepSpec(After(g, i - 1)).1 == |Inside(g)|
  {
    hide StepSpec, After;
    DarkIffAllFlashed(prev);
    InsideSame(prev, g);
  }

  /** Two grids with the same octopi and the same rectangle have the same octopi inside it. */
  lemma InsideSame(a: Grid, b: Grid)
    requires a.octopi.Keys == b.octopi.Keys && a.rows == b.rows && a.cols == b.cols
    ensures Inside(a) == Inside(b)
  {
  }

  /**
   * An octopus outside the rectangle that is not flashing keeps its energy
   * through every step: no worklist ever holds it.
   */
  lemma {:induction false} ExtrasStay(g: Grid, n: nat, p: Cell)
    requires WellFormed(g) && p in g.octopi && !InGrid(g, p) && !g.octopi[p].flashing
    ensures After(g, n).octopi[p] == g.octopi[p]
  {
    hide StepSpec, WellFormed, Inside, Cascade, Reset, AllCells;
    if n > 0 {
      ExtrasStay(g, n - 1, p);
      StepKeepsExtra(After(g, n - 1), p);
    }
  }

  /** One step leaves a non-flashing octopus outside the rectangle as it was. */
  lemma StepKeepsExtra(g: Grid, p: Cell)
    requires WellFormed(g) && p in g.octopi && !InGrid(g, p) && !g.octopi[p].flashing
    ensures StepSpec(g).0.octopi[p] == g.octopi[p]
  {
  }


  /**
   * `solution_b`: the number of steps until every energy is 0, looking at no
   * more than `fuel` steps. From a settled grid the answer is the first step
   * in which every octopus flashed.
   */
  method SolutionB(g: Grid, fuel: nat) returns (r: Option<nat>)
    requires WellFormed(g)
    ensures r.Some? ==> r.value <= fuel && AllDark(After(g, r.value).octopi) && DarkBefore(g, r.value)
    ensures r.None? ==> DarkBefore(g, fuel + 1)
    ensures r.Some? && r.value > 0 && Settled(g.octopi) ==> StepSpec(After(g, r.value - 1)).1 == |Inside(g)|
    ensures r.Some? ==> forall p :: p in g.octopi && !InGrid(g, p) && !g.octopi[p].flashing ==> g.octopi[p].energy == 0
  {
    var grid := g;
    var i := 0;
    ghost var prev := g;
    while AnyAwake(grid.octopi) && i < fuel
      invariant i <= fuel && grid == After(g, i)
      invariant i > 0 ==> prev == After(g, i - 1) && grid == StepSpec(prev).0
      invariant Settled(g.octopi) ==> Settled(grid.octopi) && Settled(prev.octopi)
      invariant DarkBefore(g, i)
      decreases fuel - i
    {
      if Settled(g.octopi) {
        StepSettles(grid);
      }
      DarkBeforeStep(g, i);
      prev := grid;
      var next, _ := Step(grid);
      grid := next;
      i := i + 1;
    }
    if AnyAwake(grid.octopi) {
      DarkBeforeStep(g, i);
      r := None;
    } else {
      if i > 0 && Settled(g.octopi) {
        FirstDarkStep(g, prev, i);
      }
      forall p | p in g.octopi && !InGrid(g, p) && !g.octopi[p].flashing ensures g.octopi[p].energy == 0 {
        ExtrasStay(g, i, p);
      }
      r := Some(i);
    }
  }
}

/**
 * Day 15, "Chiton": the lowest total risk of a walk from the top-left to
 * the bottom-right corner of a grid of risk levels, where entering a cell
 * costs its level. Part two first enlarges the grid five times in each
 * direction, each tile's levels raised by its distance from the original
 * tile and wrapped back into 1..9.
 *
 * `solve` keeps a table of the least risk found per cell and a heap of
 * partial walks; a walk is extended to each neighbour and pushed only when
 * it improves that neighbour's entry. The model proves that, once the heap
 * is empty, the table entry of every cell is the cost of a real walk to it
 * and no walk to it costs less.
 */
module Chiton {
  datatype Option<T> = None | Some(value: T)

  /** `u32::MAX`, the risk table's mark for a cell not reached yet. */
  const MaxRisk: nat := 0xFFFF_FFFF

  /** A cell as (x, y): x indexes the rows, y the columns. */
  type Cell = (int, int)

  // ---------------------------------------------------------------------------
  // Expanding the grid.

  /** A raised level brought back into 1..9 by taking 9 off while it exceeds 9. */
  function Wrap(v: nat): (r: nat)
    ensures v <= 9 ==> r == v
    ensures v >= 1 ==> 1 <= r <= 9
    ensures r % 9 == v % 9
  {
    if v <= 9 then v else (v - 1) % 9 + 1
  }

  /** The `while new_val > 9 { new_val -= 9 }` loop of `expand`. */
  method Reduce(v: nat) returns (r: nat)
    ensures r == Wrap(v)
  {
    r := v;
    while r > 9
      invariant Wrap(r) == Wrap(v)
    {
      r := r - 9;
    }
  }

  /**
   * The level `expand` leaves at (i, j) of the grid five times as large:
   * cell (i % lenX, j % lenY) of the original, raised by the tile numbers
   * i / lenX and j / lenY; the cells of tiles at or past the multipliers
   * keep the 0 the new grid starts with.
   */
  function Expanded(a: array2<nat>, xMult: nat, yMult: nat, i: nat, j: nat): nat
    reads a
    requires i < 5 * a.Length0 && j < 5 * a.Length1
  {
    if i / a.Length0 < xMult && j / a.Length1 < yMult then
      Wrap(a[i % a.Length0, j % a.Length1] + i / a.Length0 + j / a.Length1)
    else 0
  }

  /** The tile copy (mx, my) of cell (x, y) sits at (x + mx·lenX, y + my·lenY). */
  lemma TileCoords(x: nat, m: nat, len: nat)
    requires x < len
    ensures (x + m * len) / len == m && (x + m * len) % len == x
  {
    var n := x + m * len;
    var q, r := n / len, n % len;
    assert n == q * len + r;
    assert 0 <= r < len;
    assert (q - m) * len == x - r;
    assert 0 - len < x - r < len;
    MultipleBounds(q - m, len);
  }

  lemma MultipleBounds(k: int, len: nat)
    requires len > 0
    ensures k >= 1 ==> k * len >= len
    ensures k <= -1 ==> k * len <= 0 - len
  {
  }

  /** A cell of the grid five times as long lies in one of the five tiles. */
  lemma TileBelow(i: nat, len: nat)
    requires i < 5 * len
    ensures i / len < 5 && i % len < len
  {
  }

  /** A cell of the enlarged grid is the one tile copy its quotient and remainder name. */
  lemma TileUnique(i: nat, x: nat, m: nat, len: nat)
    requires len > 0 && i % len == x && i / len == m
    ensures i == x + m * len
  {
  }

  /** Every tile copy of an original level in 1..9 is again in 1..9. */
  lemma ExpandedRange(a: array2<nat>, xMult: nat, yMult: nat, i: nat, j: nat)
    requires i < 5 * a.Length0 && j < 5 * a.Length1
    requires forall x, y :: 0 <= x < a.Length0 && 0 <= y < a.Length1 ==> 1 <= a[x, y] <= 9
    requires i / a.Length0 < xMult && j / a.Length1 < yMult
    ensures 1 <= Expanded(a, xMult, yMult, i, j) <= 9
  {
  }

  /** Tile (mx, my) holds the original level raised by mx + my, wrapped. */
  lemma TileValue(a: array2<nat>, xMult: nat, yMult: nat, x: nat, y: nat, mx: nat, my: nat)
    requires x < a.Length0 && y < a.Length1 && mx < xMult <= 5 && my < yMult <= 5
    ensures x + mx * a.Length0 < 5 * a.Length0 && y + my * a.Length1 < 5 * a.Length1
    ensures Expanded(a, xMult, yMult, x + mx * a.Length0, y + my * a.Length1) == Wrap(a[x, y] + mx + my)
  {
    TileCoords(x, mx, a.Length0);
    TileCoords(y, my, a.Length1);
  }

  /**
   * The two inner loops of `expand` for one original cell (x, y): every
   * tile copy below the multipliers gets its raised level; nothing else
   * changes.
   */
  method FillTiles(np: array2<nat>, a: array2<nat>, xMult: nat, yMult: nat, x: nat, y: nat)
    requires np != a && np.Length0 == 5 * a.Length0 && np.Length1 == 5 * a.Length1
    requires x < a.Length0 && y < a.Length1 && xMult <= 5 && yMult <= 5
    modifies np
    ensures forall i, j :: 0 <= i < np.Length0 && 0 <= j < np.Length1 ==>
      np[i, j] == if Copy(a, i, j, x, y, xMult, yMult) then Expanded(a, xMult, yMult, i, j) else old(np[i, j])
  {
    for mx := 0 to xMult
      invariant forall i, j :: 0 <= i < np.Length0 && 0 <= j < np.Length1 ==>
        np[i, j] == if Copy(a, i, j, x, y, mx, yMult) then Expanded(a, xMult, yMult, i, j) else old(np[i, j])
    {
      FillColumn(np, a, xMult, yMult, x, y, mx);
    }
  }

  /** The innermost loop of `expand`: the copies of (x, y) in the tiles (mx, 0), (mx, 1), ... */
  method FillColumn(np: array2<nat>, a: array2<nat>, xMult: nat, yMult: nat, x: nat, y: nat, mx: nat)
    requires np != a && np.Length0 == 5 * a.Length0 && np.Length1 == 5 * a.Length1
    requires x < a.Length0 && y < a.Length1 && mx < xMult <= 5 && yMult <= 5
    modifies np
    ensures forall i, j :: 0 <= i < np.Length0 && 0 <= j < np.Length1 ==>
      np[i, j] == if Copy(a, i, j, x, y, mx + 1, yMult) && i / a.Length0 == mx then Expanded(a, xMult, yMult, i, j) else old(np[i, j])
  {
    var lx, ly := a.Length0, a.Length1;
    for my := 0 to yMult
      invariant forall i, j :: 0 <= i < np.Length0 && 0 <= j < np.Length1 ==>
        np[i, j] == if Copy(a, i, j, x, y, mx + 1, my) && i / lx == mx then Expanded(a, xMult, yMult, i, j) else old(np[i, j])
    {
      SetCopy(np, a, xMult, yMult, x, y, mx, my);
      forall i, j | 0 <= i < np.Length0 && 0 <= j < np.Length1
        ensures np[i, j] == if Copy(a, i, j, x, y, mx + 1, my + 1) && i / lx == mx then Expanded(a, xMult, yMult, i, j) else old(np[i, j])
      {
        ColumnCell(a, i, j, x, y, mx, my);
      }
    }
  }

  /** The body of the innermost loop: the copy of (x, y) in tile (mx, my) gets its raised level. */
  method SetCopy(np: array2<nat>, a: array2<nat>, xMult: nat, yMult: nat, x: nat, y: nat, mx: nat, my: nat)
    requires np != a && np.Length0 == 5 * a.Length0 && np.Length1 == 5 * a.Length1
    requires x < a.Length0 && y < a.Length1 && mx < xMult <= 5 && my < yMult <= 5
    modifies np
    ensures forall i, j :: 0 <= i < np.Length0 && 0 <= j < np.Length1 ==>
      np[i, j] == if i == x + mx * a.Length0 && j == y + my * a.Length1 then Expanded(a, xMult, yMult, i, j) else old(np[i, j])
  {
    var newVal := Reduce(a[x, y] + mx + my);
    TileValue(a, xMult, yMult, x, y, mx, my);
    np[x + mx * a.Length0, y + my * a.Length1] := newVal;
  }

  /** Column `mx` of tile copies of (x, y) grows by the copy in tile (mx, my) and by nothing else. */
  lemma ColumnCell(a: array2<nat>, i: nat, j: nat, x: nat, y: nat, mx: nat, my: nat)
    requires x < a.Length0 && y < a.Length1
    ensures (Copy(a, i, j, x, y, mx + 1, my + 1) && i / a.Length0 == mx) <==>
      (Copy(a, i, j, x, y, mx + 1, my) && i / a.Length0 == mx) || (i == x + mx * a.Length0 && j == y + my * a.Length1)
  {
    var lx, ly := a.Length0, a.Length1;
    TileCoords(x, mx, lx);
    TileCoords(y, my, ly);
    if i % lx == x && j % ly == y && i / lx == mx && j / ly == my {
      TileUnique(i, x, mx, lx);
      TileUnique(j, y, my, ly);
    }
  }

  /** (i, j) is a tile copy of (x, y) in a tile below (mx, my). */
  predicate Copy(a: array2<nat>, i: nat, j: nat, x: nat, y: nat, mx: nat, my: nat)
    requires a.Length0 > 0 && a.Length1 > 0
  {
    i % a.Length0 == x && j % a.Length1 == y && i / a.Length0 < mx && j / a.Length1 < my
  }

  // ---------------------------------------------------------------------------
  // The grid.

  class Grid {
    var points: array2<nat>
    var lenX: nat
    var lenY: nat

    ghost predicate Valid()
      reads this
    {
      points.Length0 == lenX && points.Length1 == lenY
    }

    /** `new` from the digit rows of the input, which are all as long as the first. */
    constructor (rows: seq<seq<nat>>)
      requires |rows| >= 1
      requires forall i :: 0 <= i < |rows| ==> |rows[i]| == |rows[0]|
      ensures Valid() && fresh(points) && lenX == |rows| && lenY == |rows[0]|
      ensures forall i, j :: 0 <= i < lenX && 0 <= j < lenY ==> points[i, j] == rows[i][j]
    {
      points := new nat[|rows|, |rows[0]|]((i, j) requires 0 <= i < |rows| && 0 <= j < |rows[0]| => rows[i][j]);
      lenX := |rows|;
      lenY := |rows[0]|;
    }

    /**
     * `expand`: a new grid five times as long in each direction whatever the
     * multipliers (which may not pass 5), filled tile by tile.
     */
    method Expand(xMult: nat, yMult: nat)
      requires Valid() && xMult <= 5 && yMult <= 5
      modifies this
      ensures Valid() && fresh(points) && lenX == 5 * old(lenX) && lenY == 5 * old(lenY)
      ensures forall i, j :: 0 <= i < lenX && 0 <= j < lenY ==> points[i, j] == Expanded(old(points), xMult, yMult, i, j)
    {
      var a := points;
      var lx, ly := lenX, lenY;
      var np := new nat[5 * lx, 5 * ly]((i, j) => 0);
      for x := 0 to lx
        invariant forall i, j :: 0 <= i < np.Length0 && 0 <= j < np.Length1 ==>
          np[i, j] == if i % lx < x then Expanded(a, xMult, yMult, i, j) else 0
      {
        for y := 0 to ly
          invariant forall i, j :: 0 <= i < np.Length0 && 0 <= j < np.Length1 ==>
            np[i, j] == if i % lx < x || (i % lx == x && j % ly < y) then Expanded(a, xMult, yMult, i, j) else 0
        {
          FillTiles(np, a, xMult, yMult, x, y);
        }
      }
      points := np;
      lenX := 5 * lx;
      lenY := 5 * ly;
    }
  }

  // ---------------------------------------------------------------------------
  // Walks through the grid.

  predicate InGrid(a: array2<nat>, c: Cell) {
    0 <= c.0 < a.Length0 && 0 <= c.1 < a.Length1
  }

  /** The risk level of a cell: the cost of entering it. */
  function Val(a: array2<nat>, c: Cell): nat
    reads a
    requires InGrid(a, c)
  {
    a[c.0, c.1]
  }

  /** Horizontally or vertically next to each other. */
  predicate Adjacent(c: Cell, d: Cell) {
    (c.0 == d.0 && (c.1 - d.1 == 1 || d.1 - c.1 == 1)) || (c.1 == d.1 && (c.0 - d.0 == 1 || d.0 - c.0 == 1))
  }

  predicate Link(w: seq<Cell>, i: int)
    requires 0 < i < |w|
  {
    Adjacent(w[i - 1], w[i])
  }

  /** A walk from the top-left cell through the grid, one neighbour at a time. */
  predicate Walk(a: array2<nat>, w: seq<Cell>) {
    |w| >= 1 && w[0] == (0, 0) &&
    (forall i :: 0 <= i < |w| ==> InGrid(a, w[i])) &&
    (forall i :: 0 < i < |w| ==> Link(w, i))
  }

  /** The risk of a walk: the levels of the cells it enters; the start is never entered. */
  function Cost(a: array2<nat>, w: seq<Cell>): nat
    reads a
    requires forall i :: 0 <= i < |w| ==> InGrid(a, w[i])
    decreases |w|
  {
    if |w| <= 1 then 0 else Cost(a, w[..|w| - 1]) + Val(a, w[|w| - 1])
  }

  /** `w` is a walk to `c` costing `cost`. */
  predicate WalkTo(a: array2<nat>, w: seq<Cell>, c: Cell, cost: nat)
    reads a
  {
    Walk(a, w) && w[|w| - 1] == c && Cost(a, w) == cost
  }

  /** A walk goes on to any neighbour, at the cost of entering it. */
  lemma WalkSnoc(a: array2<nat>, w: seq<Cell>, c: Cell)
    requires Walk(a, w) && InGrid(a, c) && Adjacent(w[|w| - 1], c)
    ensures Walk(a, w + [c]) && Cost(a, w + [c]) == Cost(a, w) + Val(a, c)
  {
    var w' := w + [c];
    assert w'[..|w|] == w;
    forall i | 0 < i < |w| ensures Link(w', i) {
      assert Link(w, i);
    }
    assert Link(w', |w|);
  }

  // ---------------------------------------------------------------------------
  // Paths.

  /** A partial walk on the heap: where it ends, its risk, and the heap's key. */
  datatype Path = Path(locX: int, locY: int, risk: nat, heuristic: nat)

  function Loc(p: Path): Cell {
    (p.locX, p.locY)
  }

  /** `Path::new`: the start, with no risk. */
  function NewPath(): Path {
    Path(0, 0, 0, 0)
  }

  /**
   * `Path::step`: the path one cell on by (dx, dy); None off the grid (a
   * negative coordinate wraps to a huge index that no row has). The key is
   * the risk plus the distance past the far corner.
   */
  function StepPath(g: Grid, p: Path, dx: int, dy: int): (r: Option<Path>)
    reads g, g.points
    requires g.Valid()
    ensures r.None? <==> !InGrid(g.points, (p.locX + dx, p.locY + dy))
    ensures r.Some? ==> Loc(r.value) == (p.locX + dx, p.locY + dy) && r.value.risk == p.risk + Val(g.points, Loc(r.value))
    ensures r.Some? ==> r.value.heuristic >= r.value.risk + 2
  {
    var c := (p.locX + dx, p.locY + dy);
    if !InGrid(g.points, c) then None
    else
      var risk := p.risk + Val(g.points, c);
      Some(Path(c.0, c.1, risk, risk + (g.lenX - c.0) + (g.lenY - c.1)))
  }

  function Somes(opts: seq<Option<Path>>): (r: seq<Path>)
    ensures |r| <= |opts|
    ensures forall q :: q in r <==> Some(q) in opts
  {
    if opts == [] then []
    else (if opts[0].Some? then [opts[0].value] else []) + Somes(opts[1..])
  }

  /** `Path::next`: the steps up, right, down and left that stay on the grid. */
  function Next(g: Grid, p: Path): (r: seq<Path>)
    reads g, g.points
    requires g.Valid()
    ensures |r| <= 4
    ensures forall q :: q in r ==> InGrid(g.points, Loc(q)) && Adjacent(Loc(p), Loc(q)) && q.risk == p.risk + Val(g.points, Loc(q))
  {
    Somes([StepPath(g, p, 0, -1), StepPath(g, p, 1, 0), StepPath(g, p, 0, 1), StepPath(g, p, -1, 0)])
  }

  /** Every neighbour on the grid is reached by one of the steps. */
  lemma NextComplete(g: Grid, p: Path, c: Cell)
    requires g.Valid() && InGrid(g.points, c) && Adjacent(Loc(p), c)
    ensures exists q :: q in Next(g, p) && Loc(q) == c
  {
    var steps := [StepPath(g, p, 0, -1), StepPath(g, p, 1, 0), StepPath(g, p, 0, 1), StepPath(g, p, -1, 0)];
    var k := if c == (p.locX, p.locY - 1) then 0 else if c == (p.locX + 1, p.locY) then 1
             else if c == (p.locX, p.locY + 1) then 2 else 3;
    assert steps[k].Some? && Loc(steps[k].value) == c;
    assert Some(steps[k].value) in steps;
  }

  /** The index of a path with the least key: the one the max-heap on reversed keys pops. */
  function Lowest(heap: seq<Path>): (k: nat)
    requires heap != []
    ensures k < |heap| && forall q :: q in heap ==> heap[k].heuristic <= q.heuristic
  {
    if |heap| == 1 then 0
    else
      var k := Lowest(heap[1..]) + 1;
      assert forall q :: q in heap ==> q == heap[0] || q in heap[1..];
      if heap[0].heuristic <= heap[k].heuristic then 0 else k
  }

  // ---------------------------------------------------------------------------
  // The search.

  /** The bottom-right cell, whose entry `solve` reports. */
  function End(g: Grid): Cell
    reads g
  {
    (g.lenX - 1, g.lenY - 1)
  }

  /** The risk table's entry for a cell. */
  function Entry(risk: array2<nat>, c: Cell): nat
    reads risk
    requires InGrid(risk, c)
  {
    risk[c.0, c.1]
  }

  /** A cell's entry, except that the start counts as reached with no risk. */
  function Reached(risk: array2<nat>, c: Cell): nat
    reads risk
    requires InGrid(risk, c)
  {
    if c == (0, 0) then 0 else Entry(risk, c)
  }

  /** No neighbour of `c` would improve by going through `c` at risk `d`. */
  ghost predicate Relaxed(a: array2<nat>, risk: array2<nat>, c: Cell, d: nat)
    reads a, risk
    requires risk.Length0 == a.Length0 && risk.Length1 == a.Length1
  {
    forall n {:trigger Entry(risk, n)} :: InGrid(a, n) && Adjacent(c, n) ==> Entry(risk, n) <= d + Val(a, n)
  }

  /** A path on the heap ends at `c` with risk `d`. */
  ghost predicate Pending(heap: seq<Path>, c: Cell, d: nat) {
    exists q :: q in heap && Loc(q) == c && q.risk == d
  }

  /** Every cell has had its neighbours relaxed from its entry, or a path on the heap will do it. */
  ghost predicate Settled(a: array2<nat>, risk: array2<nat>, heap: seq<Path>)
    reads a, risk
    requires risk.Length0 == a.Length0 && risk.Length1 == a.Length1
  {
    forall c {:trigger Reached(risk, c)} :: InGrid(a, c) ==> Relaxed(a, risk, c, Reached(risk, c)) || Pending(heap, c, Reached(risk, c))
  }

  /**
   * The heap's paths and the table's entries are backed by walks: `walks[k]`
   * is a walk for `heap[k]`, and `via[c]` one for every entry below the
   * "not reached" mark.
   */
  ghost predicate Sound(a: array2<nat>, risk: array2<nat>, heap: seq<Path>, walks: seq<seq<Cell>>, via: map<Cell, seq<Cell>>)
    reads a, risk
    requires risk.Length0 == a.Length0 && risk.Length1 == a.Length1
  {
    |walks| == |heap| &&
    (forall k :: 0 <= k < |heap| ==> WalkTo(a, walks[k], Loc(heap[k]), heap[k].risk)) &&
    (forall c {:trigger Entry(risk, c)} :: InGrid(a, c) ==> Entry(risk, c) <= MaxRisk) &&
    (forall c {:trigger Entry(risk, c)} :: InGrid(a, c) && Entry(risk, c) < MaxRisk ==> c in via && |via[c]| >= 2 && WalkTo(a, via[c], c, Entry(risk, c)))
  }

  /**
   * One pass of the loop below: the neighbour path `q` takes its cell's entry
   * and goes on the heap when it improves on the entry; nothing else changes.
   */
  method Improve(g: Grid, risk: array2<nat>, q: Path, heap: seq<Path>, ghost walks: seq<seq<Cell>>,
                 ghost via: map<Cell, seq<Cell>>, ghost wq: seq<Cell>)
    returns (heap': seq<Path>, ghost walks': seq<seq<Cell>>, ghost via': map<Cell, seq<Cell>>)
    requires g.Valid() && risk != g.points && risk.Length0 == g.lenX && risk.Length1 == g.lenY
    requires WalkTo(g.points, wq, Loc(q), q.risk) && |wq| >= 2
    requires Sound(g.points, risk, heap, walks, via)
    modifies risk
    ensures Sound(g.points, risk, heap', walks', via') && heap <= heap'
    ensures risk[q.locX, q.locY] <= q.risk && risk[q.locX, q.locY] <= old(risk[q.locX, q.locY])
    ensures risk[q.locX, q.locY] != old(risk[q.locX, q.locY]) ==> Pending(heap', Loc(q), risk[q.locX, q.locY])
    ensures forall c, d :: Pending(heap, c, d) ==> Pending(heap', c, d)
    ensures forall i, j :: 0 <= i < risk.Length0 && 0 <= j < risk.Length1 && (i, j) != Loc(q) ==> risk[i, j] == old(risk[i, j])
    ensures forall i, j :: 0 <= i < risk.Length0 && 0 <= j < risk.Length1 ==> risk[i, j] <= old(risk[i, j])
    ensures forall i, j :: 0 <= i < risk.Length0 && 0 <= j < risk.Length1 && risk[i, j] != old(risk[i, j]) ==> Pending(heap', (i, j), risk[i, j])
  {
    heap', walks', via' := heap, walks, via;
    if q.risk < risk[q.locX, q.locY] {
      risk[q.locX, q.locY] := q.risk;
      heap' := heap' + [q];
      walks' := walks' + [wq];
      via' := via'[Loc(q) := wq];
      assert heap'[|heap|] == q;
      forall c | InGrid(g.points, c)
        ensures Entry(risk, c) <= MaxRisk
        ensures Entry(risk, c) < MaxRisk ==> c in via' && |via'[c]| >= 2 && WalkTo(g.points, via'[c], c, Entry(risk, c))
      {
        if c != Loc(q) {
          assert Entry(risk, c) == old(Entry(risk, c));
        } else {
          assert old(Entry(risk, c)) <= MaxRisk;
        }
      }
    }
  }

  /**
   * The `for next in path.next(&grid)` loop of `solve`: each neighbour whose
   * entry the path improves gets the new risk and a path on the heap.
   */
  method Relax(g: Grid, risk: array2<nat>, p: Path, next: seq<Path>, heap: seq<Path>, ghost walks: seq<seq<Cell>>,
               ghost via: map<Cell, seq<Cell>>, ghost wp: seq<Cell>)
    returns (heap': seq<Path>, ghost walks': seq<seq<Cell>>, ghost via': map<Cell, seq<Cell>>)
    requires g.Valid() && risk != g.points && risk.Length0 == g.lenX && risk.Length1 == g.lenY
    requires WalkTo(g.points, wp, Loc(p), p.risk)
    requires forall q :: q in next ==> InGrid(g.points, Loc(q)) && Adjacent(Loc(p), Loc(q)) && q.risk == p.risk + Val(g.points, Loc(q))
    requires Sound(g.points, risk, heap, walks, via)
    modifies risk
    ensures Sound(g.points, risk, heap', walks', via')
    ensures heap <= heap'
    ensures forall i, j :: 0 <= i < risk.Length0 && 0 <= j < risk.Length1 ==> risk[i, j] <= old(risk[i, j])
    ensures forall i, j :: 0 <= i < risk.Length0 && 0 <= j < risk.Length1 && risk[i, j] != old(risk[i, j]) ==> Pending(heap', (i, j), risk[i, j])
    ensures forall s :: 0 <= s < |next| ==> InGrid(risk, Loc(next[s])) && Entry(risk, Loc(next[s])) <= next[s].risk
  {
    hide Sound;
    heap', walks', via' := heap, walks, via;
    for t := 0 to |next|
      invariant Sound(g.points, risk, heap', walks', via')
      invariant heap <= heap'
      invariant forall i, j :: 0 <= i < risk.Length0 && 0 <= j < risk.Length1 ==> risk[i, j] <= old(risk[i, j])
      invariant forall i, j :: 0 <= i < risk.Length0 && 0 <= j < risk.Length1 && risk[i, j] != old(risk[i, j]) ==> Pending(heap', (i, j), risk[i, j])
      invariant forall s :: 0 <= s < t ==> InGrid(risk, Loc(next[s])) && Entry(risk, Loc(next[s])) <= next[s].risk
    {
      var q := next[t];
      assert q in next;
      ghost var wq := wp + [Loc(q)];
      WalkSnoc(g.points, wp, Loc(q));
      ghost var heapBefore := heap';
      label before:
      heap', walks', via' := Improve(g, risk, q, heap', walks', via', wq);
      forall i, j | 0 <= i < risk.Length0 && 0 <= j < risk.Length1 && risk[i, j] != old(risk[i, j])
        ensures Pending(heap', (i, j), risk[i, j])
      {
        if risk[i, j] == old@before(risk[i, j]) {
          assert Pending(heapBefore, (i, j), risk[i, j]);
        }
      }
    }
  }

  /**
   * One round of the `while let Some(path) = heap.pop()` loop once `p` is
   * popped from `heapIn`, leaving `rest`: relaxing its neighbours keeps every
   * cell settled. A cell whose entry fell has a new path on the heap; any
   * other cell stays relaxed as entries only fall, or keeps its path on the
   * heap unless that path was `p`, whose neighbours have just been relaxed.
   */
  method Round(g: Grid, risk: array2<nat>, p: Path, next: seq<Path>, ghost heapIn: seq<Path>, rest: seq<Path>,
               ghost walks: seq<seq<Cell>>, ghost via: map<Cell, seq<Cell>>, ghost wp: seq<Cell>)
    returns (heap': seq<Path>, ghost walks': seq<seq<Cell>>, ghost via': map<Cell, seq<Cell>>)
    requires g.Valid() && risk != g.points && risk.Length0 == g.lenX && risk.Length1 == g.lenY
    requires WalkTo(g.points, wp, Loc(p), p.risk)
    requires forall q :: q in next ==> InGrid(g.points, Loc(q)) && Adjacent(Loc(p), Loc(q)) && q.risk == p.risk + Val(g.points, Loc(q))
    requires forall n :: InGrid(g.points, n) && Adjacent(Loc(p), n) ==> exists q :: q in next && Loc(q) == n
    requires Sound(g.points, risk, rest, walks, via) && Settled(g.points, risk, heapIn)
    requires forall q :: q in heapIn && q != p ==> q in rest
    modifies risk
    ensures Sound(g.points, risk, heap', walks', via') && Settled(g.points, risk, heap')
  {
    heap', walks', via' := Relax(g, risk, p, next, rest, walks, via, wp);
    forall n | InGrid(g.points, n) && Adjacent(Loc(p), n) ensures Entry(risk, n) <= p.risk + Val(g.points, n) {
      var q :| q in next && Loc(q) == n;
      var s :| 0 <= s < |next| && next[s] == q;
    }
    forall c | InGrid(g.points, c) ensures Relaxed(g.points, risk, c, Reached(risk, c)) || Pending(heap', c, Reached(risk, c)) {
      if c != (0, 0) && risk[c.0, c.1] != old(risk[c.0, c.1]) {
        assert Pending(heap', c, risk[c.0, c.1]);
      } else {
        var d := Reached(risk, c);
        assert d == old(Reached(risk, c));
        if old(Relaxed(g.points, risk, c, d)) {
          forall n | InGrid(g.points, n) && Adjacent(c, n) ensures Entry(risk, n) <= d + Val(g.points, n) {
            assert old(Entry(risk, n)) <= d + Val(g.points, n);
            assert risk[n.0, n.1] <= old(risk[n.0, n.1]);
          }
        } else {
          assert Pending(heapIn, c, d);
          var q :| q in heapIn && Loc(q) == c && q.risk == d;
          if q != p {
            assert q in rest;
            assert q in heap';
          }
        }
      }
    }
  }

  /** Once every cell is relaxed, no walk of at least one step costs less than its end's entry. */
  lemma {:induction false} WalkBound(a: array2<nat>, risk: array2<nat>, w: seq<Cell>)
    requires risk.Length0 == a.Length0 && risk.Length1 == a.Length1
    requires forall c {:trigger Reached(risk, c)} :: InGrid(a, c) ==> Relaxed(a, risk, c, Reached(risk, c))
    requires Walk(a, w) && |w| >= 2
    ensures Entry(risk, w[|w| - 1]) <= Cost(a, w)
  {
    var init := w[..|w| - 1];
    var c, n := init[|init| - 1], w[|w| - 1];
    forall i | 0 < i < |init| ensures Link(init, i) {
      assert Link(w, i);
    }
    assert Walk(a, init);
    assert Link(w, |w| - 1);
    assert Relaxed(a, risk, c, Reached(risk, c));
    if |init| >= 2 {
      WalkBound(a, risk, init);
    }
  }

  /** Taking the path at `k` off the heap, with its walk, keeps the rest sound and every other path. */
  lemma RemoveSound(a: array2<nat>, risk: array2<nat>, heap: seq<Path>, walks: seq<seq<Cell>>, via: map<Cell, seq<Cell>>, k: nat)
    requires risk.Length0 == a.Length0 && risk.Length1 == a.Length1
    requires Sound(a, risk, heap, walks, via) && k < |heap|
    ensures Sound(a, risk, heap[..k] + heap[k + 1..], walks[..k] + walks[k + 1..], via)
    ensures forall q :: q in heap && q != heap[k] ==> q in heap[..k] + heap[k + 1..]
  {
    var rest, restWalks := heap[..k] + heap[k + 1..], walks[..k] + walks[k + 1..];
    forall j | 0 <= j < |rest| ensures WalkTo(a, restWalks[j], Loc(rest[j]), rest[j].risk) {
      var i := if j < k then j else j + 1;
      assert rest[j] == heap[i] && restWalks[j] == walks[i];
    }
    forall q | q in heap && q != heap[k] ensures q in rest {
      var i :| 0 <= i < |heap| && heap[i] == q;
      assert q == rest[if i < k then i else i - 1];
    }
  }

  /**
   * `solve`: pop the path with the least key, relax its neighbours, until the
   * heap is empty; then the entry of the bottom-right cell. `fuel` bounds the
   * number of pops (None when it runs out). The entry is the cost of a real
   * walk, when one reached the cell, and no walk costs less.
   */
  method Solve(g: Grid, fuel: nat) returns (r: Option<nat>, ghost best: seq<Cell>)
    requires g.Valid() && g.lenX >= 1 && g.lenY >= 1
    ensures r.Some? ==> r.value <= MaxRisk
    ensures r.Some? ==> forall w :: Walk(g.points, w) && |w| >= 2 && w[|w| - 1] == End(g) ==> r.value <= Cost(g.points, w)
    ensures r.Some? && r.value < MaxRisk ==> |best| >= 2 && WalkTo(g.points, best, End(g), r.value)
  {
    var a := g.points;
    var risk := new nat[g.lenX, g.lenY]((i, j) => MaxRisk);
    var heap := [NewPath()];
    ghost var walks: seq<seq<Cell>> := [[(0, 0)]];
    ghost var via: map<Cell, seq<Cell>> := map[];
    assert WalkTo(a, walks[0], Loc(heap[0]), 0);
    assert Pending(heap, (0, 0), 0) by {
      assert heap[0] in heap;
    }
    var pops := 0;
    while heap != [] && pops < fuel
      invariant Sound(a, risk, heap, walks, via)
      invariant Settled(a, risk, heap)
      decreases fuel - pops
    {
      var k := Lowest(heap);
      var p := heap[k];
      ghost var wp := walks[k];
      ghost var heap0 := heap;
      var rest := heap[..k] + heap[k + 1..];
      ghost var restWalks := walks[..k] + walks[k + 1..];
      RemoveSound(a, risk, heap, walks, via, k);
      var next := Next(g, p);
      forall n | InGrid(a, n) && Adjacent(Loc(p), n) ensures exists q :: q in next && Loc(q) == n {
        NextComplete(g, p, n);
      }
      heap, walks, via := Round(g, risk, p, next, heap0, rest, restWalks, via, wp);
      pops := pops + 1;
    }
    if heap != [] {
      r, best := None, [];
    } else {
      forall w | Walk(a, w) && |w| >= 2 && w[|w| - 1] == End(g) ensures risk[g.lenX - 1, g.lenY - 1] <= Cost(a, w) {
        WalkBound(a, risk, w);
      }
      var least := risk[g.lenX - 1, g.lenY - 1];
      assert Entry(risk, End(g)) == least;
      r := Some(least);
      best := if least < MaxRisk then via[End(g)] else [];
    }
  }

  /**
   * `solution_a`: the search on the grid as read. The answer is the least
   * cost of a walk from the top-left to the bottom-right cell.
   */
  method SolutionA(rows: seq<seq<nat>>, fuel: nat) returns (r: Option<nat>, g: Grid)
    requires |rows| >= 1 && |rows[0]| >= 1
    requires forall i :: 0 <= i < |rows| ==> |rows[i]| == |rows[0]|
    ensures g.Valid() && g.lenX == |rows| && g.lenY == |rows[0]|
    ensures forall i, j :: 0 <= i < g.lenX && 0 <= j < g.lenY ==> g.points[i, j] == rows[i][j]
    ensures r.Some? ==> forall w :: Walk(g.points, w) && |w| >= 2 && w[|w| - 1] == End(g) ==> r.value <= Cost(g.points, w)
    ensures r.Some? && r.value < MaxRisk ==> exists w :: |w| >= 2 && WalkTo(g.points, w, End(g), r.value)
  {
    g := new Grid(rows);
    ghost var best;
    r, best := Solve(g, fuel);
  }

  /**
   * `solution_b`: the search on the grid enlarged five times in each
   * direction, each cell holding its tile's raised level.
   */
  method SolutionB(rows: seq<seq<nat>>, fuel: nat) returns (r: Option<nat>, g: Grid)
    requires |rows| >= 1 && |rows[0]| >= 1
    requires forall i :: 0 <= i < |rows| ==> |rows[i]| == |rows[0]|
    ensures g.Valid() && g.lenX == 5 * |rows| && g.lenY == 5 * |rows[0]|
    ensures forall i, j :: 0 <= i < g.lenX && 0 <= j < g.lenY ==>
      g.points[i, j] == Wrap(rows[i % |rows|][j % |rows[0]|] + i / |rows| + j / |rows[0]|)
    ensures r.Some? ==> forall w :: Walk(g.points, w) && |w| >= 2 && w[|w| - 1] == End(g) ==> r.value <= Cost(g.points, w)
    ensures r.Some? && r.value < MaxRisk ==> exists w :: |w| >= 2 && WalkTo(g.points, w, End(g), r.value)
  {
    g := new Grid(rows);
    ghost var a := g.points;
    g.Expand(5, 5);
    forall i, j | 0 <= i < g.lenX && 0 <= j < g.lenY
      ensures g.points[i, j] == Wrap(rows[i % |rows|][j % |rows[0]|] + i / |rows| + j / |rows[0]|)
    {
      TileBelow(i, |rows|);
      TileBelow(j, |rows[0]|);
      assert g.points[i, j] == Expanded(a, 5, 5, i, j);
    }
    ghost var best;
    r, best := Solve(g, fuel);
  }
}

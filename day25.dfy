/*
 * Sea cucumbers (day 25). Two herds share a grid that wraps around at its
 * edges. In each round the east-facing herd moves first, then the
 * south-facing herd; in each half-step every cucumber whose target cell is
 * empty moves into it, all decided on the grid as it was before the
 * half-step. The answer is the number of the first round in which nothing
 * moves.
 */
module SeaCucumber {

  datatype Option<T> = None | Some(value: T)

  datatype Cell = Empty | East | South

  function ToChar(cell: Cell): char {
    match cell
    case Empty => '.'
    case East => '>'
    case South => 'v'
  }

  /**
   * `Cell::from_char`; `None` where the source panics. Only `.`, `>` and
   * `v` are cells, and each cell is read from its own character.
   */
  function FromChar(c: char): (r: Option<Cell>)
    ensures r.Some? <==> (c == '.' || c == '>' || c == 'v')
    ensures r.Some? ==> ToChar(r.value) == c
  {
    if c == '.' then Some(Empty)
    else if c == '>' then Some(East)
    else if c == 'v' then Some(South)
    else None
  }

  /** The grid parse of `solution_a`: one row per line; `None` on any other character. */
  function ParseRow(line: string): (r: Option<seq<Cell>>)
    ensures r.Some? ==> |r.value| == |line| && forall j :: 0 <= j < |line| ==> FromChar(line[j]) == Some(r.value[j])
  {
    if line == [] then Some([])
    else
      match FromChar(line[0])
      case None => None
      case Some(cell) =>
        match ParseRow(line[1..])
        case None => None
        case Some(rest) => Some([cell] + rest)
  }

  function ParseGrid(lines: seq<string>): (r: Option<seq<seq<Cell>>>)
    ensures r.Some? ==> |r.value| == |lines| && forall i :: 0 <= i < |lines| ==> ParseRow(lines[i]) == Some(r.value[i])
  {
    if lines == [] then Some([])
    else
      match ParseRow(lines[0])
      case None => None
      case Some(row) =>
        match ParseGrid(lines[1..])
        case None => None
        case Some(rest) => Some([row] + rest)
  }

  // ---------------------------------------------------------------------------
  // One half-step, as a function of the grid before it.

  /** At least one row, all of the same length. */
  predicate Rectangular(g: seq<seq<Cell>>) {
    |g| >= 1 && forall r :: 0 <= r < |g| ==> |g[r]| == |g[0]|
  }

  predicate InGrid(g: seq<seq<Cell>>, a: int, b: int) {
    0 <= a < |g| && 0 <= b < |g[0]|
  }

  /** The cell a cucumber of herd `kind` at (a, b) moves into, wrapping around. */
  function Target(g: seq<seq<Cell>>, kind: Cell, a: int, b: int): (t: (int, int))
    requires Rectangular(g) && InGrid(g, a, b) && kind != Empty
    ensures InGrid(g, t.0, t.1)
  {
    if kind == East then (a, (b + 1) % |g[0]|) else ((a + 1) % |g|, b)
  }

  /** The cell from which a cucumber of herd `kind` would move into (a, b). */
  function Source(g: seq<seq<Cell>>, kind: Cell, a: int, b: int): (s: (int, int))
    requires Rectangular(g) && InGrid(g, a, b) && kind != Empty
    ensures InGrid(g, s.0, s.1)
  {
    if kind == East then (a, if b == 0 then |g[0]| - 1 else b - 1)
    else (if a == 0 then |g| - 1 else a - 1, b)
  }

  /** Moving and coming from undo each other. */
  lemma TargetSource(g: seq<seq<Cell>>, kind: Cell, a: int, b: int)
    requires Rectangular(g) && InGrid(g, a, b) && kind != Empty
    ensures var t := Target(g, kind, a, b); Source(g, kind, t.0, t.1) == (a, b)
    ensures var s := Source(g, kind, a, b); Target(g, kind, s.0, s.1) == (a, b)
  {
    WrapNext(a, |g|);
    WrapNext(b, |g[0]|);
    if a == 0 {
      WrapNext(|g| - 1, |g|);
    } else {
      WrapNext(a - 1, |g|);
    }
    if b == 0 {
      WrapNext(|g[0]| - 1, |g[0]|);
    } else {
      WrapNext(b - 1, |g[0]|);
    }
  }

  /** The index after k, wrapping around at n. */
  lemma WrapNext(k: int, n: int)
    requires 0 <= k < n
    ensures (k + 1) % n == if k + 1 == n then 0 else k + 1
  {
  }

  /** The cucumber at (a, b) belongs to `kind` and its target is empty. */
  predicate Moves(g: seq<seq<Cell>>, kind: Cell, a: int, b: int)
    requires Rectangular(g) && InGrid(g, a, b) && kind != Empty
  {
    var t := Target(g, kind, a, b);
    g[a][b] == kind && g[t.0][t.1] == Empty
  }

  /** The cell (a, b) after the half-step of `kind`. */
  function NewCell(g: seq<seq<Cell>>, kind: Cell, a: int, b: int): Cell
    requires Rectangular(g) && InGrid(g, a, b) && kind != Empty
  {
    var s := Source(g, kind, a, b);
    if Moves(g, kind, a, b) then Empty
    else if Moves(g, kind, s.0, s.1) then kind
    else g[a][b]
  }

  /** The half-step of herd `kind`. */
  function Step(g: seq<seq<Cell>>, kind: Cell): (r: seq<seq<Cell>>)
    requires Rectangular(g) && kind != Empty
    ensures Rectangular(r) && |r| == |g| && |r[0]| == |g[0]|
  {
    seq(|g|, a requires 0 <= a < |g| => seq(|g[0]|, b requires 0 <= b < |g[0]| => NewCell(g, kind, a, b)))
  }

  ghost predicate AnyMoves(g: seq<seq<Cell>>, kind: Cell)
    requires Rectangular(g) && kind != Empty
  {
    exists a, b :: InGrid(g, a, b) && Moves(g, kind, a, b)
  }

  /**
   * A cucumber of the moving herd leaves its cell for its target exactly
   * when the target was empty before the half-step, and stays otherwise;
   * every other cell keeps its content unless a cucumber moved into it.
   */
  lemma StepMoves(g: seq<seq<Cell>>, kind: Cell, a: int, b: int)
    requires Rectangular(g) && InGrid(g, a, b) && kind != Empty
    ensures var t := Target(g, kind, a, b);
      g[a][b] == kind ==>
        if g[t.0][t.1] == Empty then Step(g, kind)[a][b] == Empty && Step(g, kind)[t.0][t.1] == kind
        else Step(g, kind)[a][b] == kind
    ensures var s := Source(g, kind, a, b);
      g[a][b] != kind ==>
        Step(g, kind)[a][b] == (if g[a][b] == Empty && g[s.0][s.1] == kind then kind else g[a][b])
  {
    TargetSource(g, kind, a, b);
    var t := Target(g, kind, a, b);
    TargetSource(g, kind, t.0, t.1);
    var s := Source(g, kind, a, b);
    TargetSource(g, kind, s.0, s.1);
  }

  /** A half-step leaves the grid as it was exactly when no cucumber of its herd can move. */
  lemma StepFixedIff(g: seq<seq<Cell>>, kind: Cell)
    requires Rectangular(g) && kind != Empty
    ensures Step(g, kind) == g <==> !AnyMoves(g, kind)
  {
    var h := Step(g, kind);
    if AnyMoves(g, kind) {
      var a, b :| InGrid(g, a, b) && Moves(g, kind, a, b);
      assert h[a][b] == Empty;
    } else {
      forall a | 0 <= a < |g|
        ensures h[a] == g[a]
      {
        forall b | 0 <= b < |g[0]|
          ensures h[a][b] == g[a][b]
        {
          var s := Source(g, kind, a, b);
          assert !Moves(g, kind, s.0, s.1);
        }
      }
    }
  }

  // ---------------------------------------------------------------------------
  // A half-step keeps both herds' sizes.

  function CellsOf(g: seq<seq<Cell>>, x: Cell): set<(int, int)>
    requires Rectangular(g)
  {
    set a, b | 0 <= a < |g| && 0 <= b < |g[0]| && g[a][b] == x :: (a, b)
  }

  function Movers(g: seq<seq<Cell>>, kind: Cell): set<(int, int)>
    requires Rectangular(g) && kind != Empty
  {
    set a, b | 0 <= a < |g| && 0 <= b < |g[0]| && Moves(g, kind, a, b) :: (a, b)
  }

  /** The targets of a set of cells. */
  function Targets(g: seq<seq<Cell>>, kind: Cell, s: set<(int, int)>): set<(int, int)>
    requires Rectangular(g) && kind != Empty
  {
    set p | p in s && InGrid(g, p.0, p.1) :: Target(g, kind, p.0, p.1)
  }

  /** Distinct cells have distinct targets, so a set of cells has as many targets as members. */
  lemma {:induction false} TargetsCount(g: seq<seq<Cell>>, kind: Cell, s: set<(int, int)>)
    requires Rectangular(g) && kind != Empty
    requires forall p :: p in s ==> InGrid(g, p.0, p.1)
    ensures |Targets(g, kind, s)| == |s|
    decreases |s|
  {
    if s != {} {
      var p :| p in s;
      var rest := s - {p};
      TargetsCount(g, kind, rest);
      var t := Target(g, kind, p.0, p.1);
      assert Targets(g, kind, s) == Targets(g, kind, rest) + {t};
      assert t !in Targets(g, kind, rest) by {
        if t in Targets(g, kind, rest) {
          var q :| q in rest && InGrid(g, q.0, q.1) && Target(g, kind, q.0, q.1) == t;
          TargetSource(g, kind, p.0, p.1);
          TargetSource(g, kind, q.0, q.1);
        }
      }
    }
  }

  /** Every target of a mover was empty and is taken by the herd. */
  lemma TargetsFilled(g: seq<seq<Cell>>, kind: Cell)
    requires Rectangular(g) && kind != Empty
    ensures Targets(g, kind, Movers(g, kind)) * CellsOf(g, kind) == {}
    ensures Targets(g, kind, Movers(g, kind)) <= CellsOf(Step(g, kind), kind)
  {
    var h := Step(g, kind);
    forall p | p in Targets(g, kind, Movers(g, kind))
      ensures p !in CellsOf(g, kind) && p in CellsOf(h, kind)
    {
      var q :| q in Movers(g, kind) && InGrid(g, q.0, q.1) && Target(g, kind, q.0, q.1) == p;
      StepMoves(g, kind, q.0, q.1);
      assert h[p.0][p.1] == kind;
    }
  }

  /** Movers belong to the herd, and the rest of the herd stays where it was. */
  lemma StayersStay(g: seq<seq<Cell>>, kind: Cell)
    requires Rectangular(g) && kind != Empty
    ensures Movers(g, kind) <= CellsOf(g, kind)
    ensures forall p :: p in Movers(g, kind) ==> InGrid(g, p.0, p.1)
    ensures CellsOf(g, kind) - Movers(g, kind) <= CellsOf(Step(g, kind), kind)
  {
    var h := Step(g, kind);
    forall p | p in CellsOf(g, kind) - Movers(g, kind)
      ensures p in CellsOf(h, kind)
    {
      StepMoves(g, kind, p.0, p.1);
      assert h[p.0][p.1] == kind;
    }
  }

  /** After the half-step the herd is made of the cucumbers that stayed and those that arrived. */
  lemma NewHerdFrom(g: seq<seq<Cell>>, kind: Cell)
    requires Rectangular(g) && kind != Empty
    ensures CellsOf(Step(g, kind), kind) <= (CellsOf(g, kind) - Movers(g, kind)) + Targets(g, kind, Movers(g, kind))
  {
    var h := Step(g, kind);
    forall p | p in CellsOf(h, kind)
      ensures p in (CellsOf(g, kind) - Movers(g, kind)) + Targets(g, kind, Movers(g, kind))
    {
      var a, b := p.0, p.1;
      if g[a][b] == kind {
        assert !Moves(g, kind, a, b);
        assert p !in Movers(g, kind);
      } else {
        var s := Source(g, kind, a, b);
        TargetSource(g, kind, a, b);
        assert s in Movers(g, kind);
      }
    }
  }

  /** Removing a subset and adding as many new members keeps a set's size. */
  lemma ExchangeCount(before: set<(int, int)>, gone: set<(int, int)>, added: set<(int, int)>, after: set<(int, int)>)
    requires gone <= before && added * before == {} && |added| == |gone|
    requires after == (before - gone) + added
    ensures |after| == |before|
  {
    assert before == (before - gone) + gone;
    assert (before - gone) * gone == {};
    assert (before - gone) * added == {};
  }

  /** The moving herd keeps its size: movers leave, and as many empty targets fill. */
  lemma MovingHerdCount(g: seq<seq<Cell>>, kind: Cell)
    requires Rectangular(g) && kind != Empty
    ensures |CellsOf(Step(g, kind), kind)| == |CellsOf(g, kind)|
  {
    hide CellsOf, Movers, Targets, Step;
    TargetsFilled(g, kind);
    StayersStay(g, kind);
    NewHerdFrom(g, kind);
    var m := Movers(g, kind);
    TargetsCount(g, kind, m);
    ExchangeCount(CellsOf(g, kind), m, Targets(g, kind, m), CellsOf(Step(g, kind), kind));
  }

  /** The other herd does not move at all. */
  lemma OtherHerdStays(g: seq<seq<Cell>>, kind: Cell, x: Cell)
    requires Rectangular(g) && kind != Empty && x != Empty && x != kind
    ensures CellsOf(Step(g, kind), x) == CellsOf(g, x)
  {
    var h := Step(g, kind);
    forall a, b | InGrid(g, a, b)
      ensures h[a][b] == x <==> g[a][b] == x
    {
      StepMoves(g, kind, a, b);
    }
  }

  /** Each half-step preserves the number of east-facing and of south-facing cucumbers. */
  lemma StepKeepsHerds(g: seq<seq<Cell>>, kind: Cell)
    requires Rectangular(g) && kind != Empty
    ensures |CellsOf(Step(g, kind), East)| == |CellsOf(g, East)|
    ensures |CellsOf(Step(g, kind), South)| == |CellsOf(g, South)|
  {
    MovingHerdCount(g, kind);
    if kind == East {
      OtherHerdStays(g, kind, South);
    } else {
      OtherHerdStays(g, kind, East);
    }
  }

  // ---------------------------------------------------------------------------
  // Rounds.

  function Round(g: seq<seq<Cell>>): (r: seq<seq<Cell>>)
    requires Rectangular(g)
    ensures Rectangular(r) && |r| == |g| && |r[0]| == |g[0]|
  {
    Step(Step(g, East), South)
  }

  /** Some cucumber moves in the round: `stopped` is cleared. */
  ghost predicate RoundMoves(g: seq<seq<Cell>>)
    requires Rectangular(g)
  {
    AnyMoves(g, East) || AnyMoves(Step(g, East), South)
  }

  /** A round leaves the grid as it was exactly when nothing moves in it. */
  lemma RoundFixedIff(g: seq<seq<Cell>>)
    requires Rectangular(g)
    ensures Round(g) == g <==> !RoundMoves(g)
  {
    var h := Step(g, East);
    StepFixedIff(g, East);
    StepFixedIff(h, South);
    if AnyMoves(g, East) {
      var a, b :| InGrid(g, a, b) && Moves(g, East, a, b);
      var t := Target(g, East, a, b);
      StepMoves(g, East, a, b);
      StepMoves(h, South, t.0, t.1);
      assert Round(g)[t.0][t.1] == East != g[t.0][t.1];
    }
  }

  /** The grid after `n` rounds. */
  function Rounds(g: seq<seq<Cell>>, n: nat): (r: seq<seq<Cell>>)
    requires Rectangular(g)
    ensures Rectangular(r) && |r| == |g| && |r[0]| == |g[0]|
  {
    if n == 0 then g else Round(Rounds(g, n - 1))
  }

  /** The value of `iterations` when the loop stops, if it stops within `fuel` rounds. */
  ghost function Settle(g: seq<seq<Cell>>, fuel: nat): Option<nat>
    requires Rectangular(g)
    decreases fuel
  {
    if fuel == 0 then None
    else if !RoundMoves(g) then Some(1)
    else
      match Settle(Round(g), fuel - 1)
      case None => None
      case Some(n) => Some(n + 1)
  }

  /**
   * The count includes the first round in which nothing moves: after n - 1
   * rounds the grid is still, and at no earlier round was it.
   */
  lemma {:induction false} SettleFirstStill(g: seq<seq<Cell>>, fuel: nat)
    decreases fuel
    requires Rectangular(g) && Settle(g, fuel).Some?
    ensures var n := Settle(g, fuel).value;
      n >= 1 && Round(Rounds(g, n - 1)) == Rounds(g, n - 1) &&
      forall k :: 0 <= k < n - 1 ==> Round(Rounds(g, k)) != Rounds(g, k)
  {
    hide Round, Step, AnyMoves;
    var n := Settle(g, fuel).value;
    RoundFixedIff(g);
    if !RoundMoves(g) {
      assert n == 1;
      assert Rounds(g, 0) == g;
    } else {
      var h := Round(g);
      assert Settle(h, fuel - 1).Some? && n == Settle(h, fuel - 1).value + 1;
      SettleFirstStill(h, fuel - 1);
      RoundsShift(g, n - 1);
      forall k | 0 <= k < n - 1
        ensures Round(Rounds(g, k)) != Rounds(g, k)
      {
        if k == 0 {
          assert Rounds(g, 0) == g;
        } else {
          RoundsShift(g, k);
        }
      }
    }
  }

  /** n rounds from g are n - 1 rounds from the grid after one round. */
  lemma {:induction false} RoundsShift(g: seq<seq<Cell>>, n: nat)
    requires Rectangular(g) && n >= 1
    ensures Rounds(g, n) == Rounds(Round(g), n - 1)
  {
    if n > 1 {
      RoundsShift(g, n - 1);
    }
  }

  // ---------------------------------------------------------------------------
  // The in-place simulation.

  function Contents(grid: array2<Cell>): seq<seq<Cell>>
    reads grid
  {
    seq(grid.Length0, a requires 0 <= a < grid.Length0 reads grid =>
      seq(grid.Length1, b requires 0 <= b < grid.Length1 reads grid => grid[a, b]))
  }

  /** Cells before (a, b) in row-major order. */
  predicate Visited(a: int, b: int, i: int, j: int) {
    a < i || (a == i && b < j)
  }

  /** The cell (a, b) of the copy once the cells before (i, j) have been processed. */
  function PartialCell(g: seq<seq<Cell>>, kind: Cell, i: int, j: int, a: int, b: int): Cell
    requires Rectangular(g) && InGrid(g, a, b) && kind != Empty
  {
    var s := Source(g, kind, a, b);
    if Visited(a, b, i, j) && Moves(g, kind, a, b) then Empty
    else if Visited(s.0, s.1, i, j) && Moves(g, kind, s.0, s.1) then kind
    else g[a][b]
  }

  /** The copy holds the partial half-step once the cells before (i, j) have been processed. */
  ghost predicate CopyAt(next: array2<Cell>, g: seq<seq<Cell>>, kind: Cell, i: int, j: int)
    requires Rectangular(g) && kind != Empty
    reads next
  {
    next.Length0 == |g| && next.Length1 == |g[0]| &&
    forall a, b :: 0 <= a < |g| && 0 <= b < |g[0]| ==> next[a, b] == PartialCell(g, kind, i, j, a, b)
  }

  /** Some cell before (i, j) has moved. */
  ghost predicate MovedBefore(g: seq<seq<Cell>>, kind: Cell, i: int, j: int)
    requires Rectangular(g) && kind != Empty
  {
    exists a, b :: InGrid(g, a, b) && Visited(a, b, i, j) && Moves(g, kind, a, b)
  }

  /** Processing one more cell adds its own move, if any. */
  lemma MovedBeforeNext(g: seq<seq<Cell>>, kind: Cell, i: int, j: int)
    requires Rectangular(g) && InGrid(g, i, j) && kind != Empty
    ensures MovedBefore(g, kind, i, j + 1) <==> MovedBefore(g, kind, i, j) || Moves(g, kind, i, j)
  {
    if MovedBefore(g, kind, i, j + 1) && !Moves(g, kind, i, j) {
      var a, b :| InGrid(g, a, b) && Visited(a, b, i, j + 1) && Moves(g, kind, a, b);
      assert Visited(a, b, i, j);
    }
  }

  /** The end of one row is the start of the next. */
  lemma RowDone(g: seq<seq<Cell>>, kind: Cell, i: int)
    requires Rectangular(g) && 0 <= i < |g| && kind != Empty
    ensures forall a, b :: InGrid(g, a, b) ==> PartialCell(g, kind, i, |g[0]|, a, b) == PartialCell(g, kind, i + 1, 0, a, b)
    ensures MovedBefore(g, kind, i, |g[0]|) <==> MovedBefore(g, kind, i + 1, 0)
  {
    forall a, b | InGrid(g, a, b)
      ensures Visited(a, b, i, |g[0]|) == Visited(a, b, i + 1, 0)
    {
    }
    if MovedBefore(g, kind, i + 1, 0) {
      var a, b :| InGrid(g, a, b) && Visited(a, b, i + 1, 0) && Moves(g, kind, a, b);
      assert Visited(a, b, i, |g[0]|);
    }
  }

  /** Before any cell the copy is the grid; after all cells it is the half-step. */
  lemma Ends(g: seq<seq<Cell>>, kind: Cell)
    requires Rectangular(g) && kind != Empty
    ensures forall a, b :: InGrid(g, a, b) ==> PartialCell(g, kind, 0, 0, a, b) == g[a][b]
    ensures forall a, b :: InGrid(g, a, b) ==> PartialCell(g, kind, |g|, 0, a, b) == Step(g, kind)[a][b]
    ensures !MovedBefore(g, kind, 0, 0)
    ensures MovedBefore(g, kind, |g|, 0) <==> AnyMoves(g, kind)
  {
  }

  /**
   * The body of the inner loop of a half-step of `solution_a`: if the cell
   * holds `kind` and its target in the old grid is empty, write the move
   * into the copy.
   */
  method ProcessCell(grid: array2<Cell>, next: array2<Cell>, ghost g: seq<seq<Cell>>, kind: Cell, i: int, j: int, moved: bool)
    returns (movedNow: bool)
    requires grid != next && grid.Length0 >= 1 && kind != Empty && g == Contents(grid)
    requires 0 <= i < grid.Length0 && 0 <= j < grid.Length1
    requires Rectangular(g) && CopyAt(next, g, kind, i, j)
    requires moved <==> MovedBefore(g, kind, i, j)
    modifies next
    ensures CopyAt(next, g, kind, i, j + 1)
    ensures movedNow <==> MovedBefore(g, kind, i, j + 1)
  {
    assert grid[i, j] == g[i][j];
    var rows, cols := grid.Length0, grid.Length1;
    MovedBeforeNext(g, kind, i, j);
    MovesAt(g, kind, i, j);
    hide Target, Source, Moves, PartialCell, MovedBefore, Step, NewCell;
    var t := if kind == East then (i, (j + 1) % cols) else ((i + 1) % rows, j);
    assert grid[t.0, t.1] == g[t.0][t.1];
    movedNow := moved;
    if grid[i, j] == kind && grid[t.0, t.1] == Empty {
      WriteMove(next, g, kind, i, j, t);
      movedNow := true;
    } else {
      ProcessStill(g, kind, i, j);
    }
  }

  /** A cucumber at (i, j) moves to t: the copy gets it at t and an empty cell at (i, j). */
  method WriteMove(next: array2<Cell>, ghost g: seq<seq<Cell>>, kind: Cell, i: int, j: int, t: (int, int))
    requires Rectangular(g) && InGrid(g, i, j) && kind != Empty
    requires Moves(g, kind, i, j) && t == Target(g, kind, i, j)
    requires CopyAt(next, g, kind, i, j)
    modifies next
    ensures CopyAt(next, g, kind, i, j + 1)
  {
    ProcessMover(g, kind, i, j);
    hide Target, Source, Moves, PartialCell;
    ghost var snap := Contents(next);
    next[t.0, t.1] := kind;
    next[i, j] := Empty;
    forall a, b | 0 <= a < |g| && 0 <= b < |g[0]|
      ensures next[a, b] == PartialCell(g, kind, i, j + 1, a, b)
    {
      if (a, b) != (i, j) && (a, b) != t {
        assert next[a, b] == snap[a][b];
      }
    }
  }

  /** Where a cucumber moves to, and when, as the loop body computes it. */
  lemma MovesAt(g: seq<seq<Cell>>, kind: Cell, i: int, j: int)
    requires Rectangular(g) && InGrid(g, i, j) && kind != Empty
    ensures Target(g, kind, i, j) == if kind == East then (i, (j + 1) % |g[0]|) else ((i + 1) % |g|, j)
    ensures var t := Target(g, kind, i, j); Moves(g, kind, i, j) <==> g[i][j] == kind && g[t.0][t.1] == Empty
  {
  }

  /** The inner loop of a half-step: one row of cells. */
  method ProcessRow(grid: array2<Cell>, next: array2<Cell>, ghost g: seq<seq<Cell>>, kind: Cell, i: int, moved: bool)
    returns (movedNow: bool)
    requires grid != next && grid.Length0 >= 1 && kind != Empty && g == Contents(grid)
    requires 0 <= i < grid.Length0
    requires Rectangular(g) && CopyAt(next, g, kind, i, 0)
    requires moved <==> MovedBefore(g, kind, i, 0)
    modifies next
    ensures CopyAt(next, g, kind, i + 1, 0)
    ensures movedNow <==> MovedBefore(g, kind, i + 1, 0)
  {
    movedNow := moved;
    for j := 0 to grid.Length1
      invariant CopyAt(next, g, kind, i, j)
      invariant movedNow <==> MovedBefore(g, kind, i, j)
    {
      movedNow := ProcessCell(grid, next, g, kind, i, j, movedNow);
    }
    RowDone(g, kind, i);
  }

  /**
   * One half-step of `solution_a`: clone the grid, then process every cell
   * in row-major order, deciding each move on the old grid.
   */
  method HalfStep(grid: array2<Cell>, kind: Cell) returns (next: array2<Cell>, moved: bool)
    requires grid.Length0 >= 1 && kind != Empty
    ensures fresh(next) && next.Length0 == grid.Length0 && next.Length1 == grid.Length1
    ensures Contents(next) == Step(Contents(grid), kind)
    ensures moved <==> AnyMoves(Contents(grid), kind)
  {
    ghost var g := Contents(grid);
    assert Rectangular(g);
    var rows, cols := grid.Length0, grid.Length1;
    next := new Cell[rows, cols]((a, b) reads grid requires 0 <= a < rows && 0 <= b < cols => grid[a, b]);
    Ends(g, kind);
    moved := false;
    for i := 0 to rows
      invariant CopyAt(next, g, kind, i, 0)
      invariant moved <==> MovedBefore(g, kind, i, 0)
    {
      moved := ProcessRow(grid, next, g, kind, i, moved);
    }
    assert Contents(next) == Step(g, kind) by {
      forall a | 0 <= a < rows
        ensures Contents(next)[a] == Step(g, kind)[a]
      {
        forall b | 0 <= b < cols
          ensures Contents(next)[a][b] == Step(g, kind)[a][b]
        {
        }
      }
    }
  }

  /** Processing a mover at (i, j) changes the partial copy at (i, j) and at its target only. */
  lemma ProcessMover(g: seq<seq<Cell>>, kind: Cell, i: int, j: int)
    requires Rectangular(g) && InGrid(g, i, j) && kind != Empty && Moves(g, kind, i, j)
    ensures var t := Target(g, kind, i, j);
      PartialCell(g, kind, i, j + 1, i, j) == Empty &&
      PartialCell(g, kind, i, j + 1, t.0, t.1) == kind &&
      forall a, b :: InGrid(g, a, b) && (a, b) != (i, j) && (a, b) != t ==>
        PartialCell(g, kind, i, j + 1, a, b) == PartialCell(g, kind, i, j, a, b)
  {
    var t := Target(g, kind, i, j);
    TargetSource(g, kind, i, j);
    forall a, b | InGrid(g, a, b) && (a, b) != (i, j) && (a, b) != t
      ensures PartialCell(g, kind, i, j + 1, a, b) == PartialCell(g, kind, i, j, a, b)
    {
      TargetSource(g, kind, a, b);
    }
  }

  /** Processing a cell that does not move changes nothing in the partial copy. */
  lemma ProcessStill(g: seq<seq<Cell>>, kind: Cell, i: int, j: int)
    requires Rectangular(g) && InGrid(g, i, j) && kind != Empty && !Moves(g, kind, i, j)
    ensures forall a, b :: InGrid(g, a, b) ==> PartialCell(g, kind, i, j + 1, a, b) == PartialCell(g, kind, i, j, a, b)
  {
    forall a, b | InGrid(g, a, b)
      ensures PartialCell(g, kind, i, j + 1, a, b) == PartialCell(g, kind, i, j, a, b)
    {
      TargetSource(g, kind, a, b);
    }
  }

  /**
   * The loop of `solution_a`: rounds of an east then a south half-step,
   * counted until a round in which nothing moved, that round included.
   * The loop only ends if the herds come to rest, here within `fuel` rounds.
   */
  method CountRounds(cells: seq<seq<Cell>>, ghost fuel: nat) returns (iterations: nat)
    requires Rectangular(cells) && Settle(cells, fuel).Some?
    ensures iterations == Settle(cells, fuel).value
  {
    hide Settle, Step, AnyMoves, NewCell, Contents;
    var grid := NewGrid(cells);
    iterations := 0;
    var stopped := false;
    ghost var cur := cells;
    ghost var left := fuel;
    while !stopped
      invariant grid.Length0 >= 1 && Rectangular(cur) && Contents(grid) == cur
      invariant !stopped ==> (Settle(cur, left).Some? &&
        iterations + Settle(cur, left).value == Settle(cells, fuel).value)
      invariant stopped ==> iterations == Settle(cells, fuel).value
      decreases if stopped then 0 else left + 1
    {
      iterations := iterations + 1;
      stopped := true;
      var east, movedEast := HalfStep(grid, East);
      var south, movedSouth := HalfStep(east, South);
      if movedEast || movedSouth {
        stopped := false;
      }
      grid := south;
      SettleUnfold(cur, left);
      cur := Round(cur);
      if !stopped {
        left := left - 1;
      }
    }
  }

  /** One more round: the count either ends here or continues from the next grid. */
  lemma SettleUnfold(g: seq<seq<Cell>>, fuel: nat)
    requires Rectangular(g) && Settle(g, fuel).Some?
    ensures fuel >= 1
    ensures !RoundMoves(g) ==> Settle(g, fuel).value == 1
    ensures RoundMoves(g) ==> Settle(Round(g), fuel - 1).Some? && Settle(g, fuel).value == Settle(Round(g), fuel - 1).value + 1
  {
  }

  /** The grid of cells as a two-dimensional array. */
  method NewGrid(cells: seq<seq<Cell>>) returns (grid: array2<Cell>)
    requires Rectangular(cells)
    ensures fresh(grid) && grid.Length0 >= 1 && Contents(grid) == cells
  {
    var rows, cols := |cells|, |cells[0]|;
    grid := new Cell[rows, cols]((a, b) requires 0 <= a < rows && 0 <= b < cols => cells[a][b]);
    assert Contents(grid) == cells by {
      forall a | 0 <= a < rows
        ensures Contents(grid)[a] == cells[a]
      {
        assert |cells[a]| == cols;
      }
    }
  }

  /** `solution_a`. */
  method SolutionA(lines: seq<string>, ghost fuel: nat) returns (answer: Option<nat>)
    requires ParseGrid(lines).Some? ==> Rectangular(ParseGrid(lines).value) && Settle(ParseGrid(lines).value, fuel).Some?
    ensures ParseGrid(lines).None? ==> answer == None
    ensures ParseGrid(lines).Some? ==> answer == Some(Settle(ParseGrid(lines).value, fuel).value)
  {
    var parsed := ParseGrid(lines);
    if parsed.None? {
      return None;
    }
    var iterations := CountRounds(parsed.value, fuel);
    return Some(iterations);
  }
}

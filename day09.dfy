/**
 * Smoke basin (day09.rs): low points of a height map, their risk levels, and
 * the basins found by a worklist flood fill through cells of height other than 9.
 */
module SmokeBasin {
  import opened Sorting

  type Cell = (nat, nat)

  /** Every row as wide as the first; the source takes the width from row 0. */
  predicate Rectangular(h: seq<seq<nat>>) {
    |h| > 0 && forall r :: 0 <= r < |h| ==> |h[r]| == |h[0]|
  }

  predicate InGrid(h: seq<seq<nat>>, c: Cell) {
    |h| > 0 && c.0 < |h| && c.1 < |h[0]|
  }

  function Height(h: seq<seq<nat>>, c: Cell): nat
    requires Rectangular(h) && InGrid(h, c)
  {
    h[c.0][c.1]
  }

  // ---------------------------------------------------------------------------
  // Parsing.

  predicate IsDigit(c: char) {
    '0' <= c <= '9'
  }

  /** `parse_line`: the value of every decimal digit of the line, in order; other characters are skipped. */
  function ParseLine(line: string): (r: seq<nat>)
    ensures |r| <= |line|
    ensures forall i :: 0 <= i < |r| ==> r[i] <= 9
  {
    if line == [] then []
    else
      var rest := ParseLine(line[1..]);
      if IsDigit(line[0]) then [line[0] as nat - '0' as nat] + rest else rest
  }

  /** The digits written out as text. */
  function Render(ds: seq<nat>): (s: string)
    requires forall i :: 0 <= i < |ds| ==> ds[i] <= 9
    ensures |s| == |ds| && forall i :: 0 <= i < |s| ==> IsDigit(s[i])
  {
    if ds == [] then [] else [('0' as nat + ds[0]) as char] + Render(ds[1..])
  }

  /** Parsing a rendered row gives the row back. */
  lemma {:induction false} ParseRender(ds: seq<nat>)
    requires forall i :: 0 <= i < |ds| ==> ds[i] <= 9
    ensures ParseLine(Render(ds)) == ds
  {
    if ds != [] {
      ParseRender(ds[1..]);
      var s := Render(ds);
      assert s[1..] == Render(ds[1..]);
    }
  }

  // ---------------------------------------------------------------------------
  // Low points.

  /** Orthogonal neighbours. */
  predicate Adjacent(p: Cell, q: Cell) {
    (p.0 == q.0 && (p.1 + 1 == q.1 || q.1 + 1 == p.1)) || (p.1 == q.1 && (p.0 + 1 == q.0 || q.0 + 1 == p.0))
  }

  /** Strictly below every orthogonal neighbour inside the grid. */
  ghost predicate IsLow(h: seq<seq<nat>>, p: Cell)
    requires Rectangular(h) && InGrid(h, p)
  {
    forall q :: InGrid(h, q) && Adjacent(p, q) ==> Height(h, p) < Height(h, q)
  }

  /**
   * `get_risk_level`: the height plus one when the cell is below the cell
   * above, left, right and below it, each only where it exists; else 0.
   */
  function RiskLevel(h: seq<seq<nat>>, row: nat, col: nat): (r: nat)
    requires Rectangular(h) && InGrid(h, (row, col))
    ensures r == 0 || r == h[row][col] + 1
  {
    var v := h[row][col];
    var lowest :=
      (row == 0 || v < h[row - 1][col]) &&
      (col == 0 || v < h[row][col - 1]) &&
      (col + 1 >= |h[row]| || v < h[row][col + 1]) &&
      (row + 1 >= |h| || v < h[row + 1][col]);
    if lowest then v + 1 else 0
  }

  /** The risk level is positive exactly at the low points; missing edge neighbours do not count. */
  lemma RiskLevelIsLow(h: seq<seq<nat>>, row: nat, col: nat)
    requires Rectangular(h) && InGrid(h, (row, col))
    ensures RiskLevel(h, row, col) > 0 <==> IsLow(h, (row, col))
  {
    var v := h[row][col];
    if RiskLevel(h, row, col) == 0 {
      if row > 0 && v >= h[row - 1][col] {
        assert Adjacent((row, col), (row - 1, col));
      } else if col > 0 && v >= h[row][col - 1] {
        assert Adjacent((row, col), (row, col - 1));
      } else if col + 1 < |h[row]| && v >= h[row][col + 1] {
        assert Adjacent((row, col), (row, col + 1));
      } else {
        assert Adjacent((row, col), (row + 1, col));
      }
    }
  }

  /** The risk levels of the first `c` cells of a row. */
  function RowRisk(h: seq<seq<nat>>, row: nat, c: nat): nat
    requires Rectangular(h) && row < |h| && c <= |h[0]|
  {
    if c == 0 then 0 else RowRisk(h, row, c - 1) + RiskLevel(h, row, c - 1)
  }

  /** The risk levels of the first `r` rows. */
  function GridRisk(h: seq<seq<nat>>, r: nat): nat
    requires Rectangular(h) && r <= |h|
  {
    if r == 0 then 0 else GridRisk(h, r - 1) + RowRisk(h, r - 1, |h[0]|)
  }

  predicate AllInGrid(h: seq<seq<nat>>, ps: seq<Cell>) {
    forall i :: 0 <= i < |ps| ==> InGrid(h, ps[i])
  }

  /** The cells of the first `c` in a row with a positive risk level, left to right. */
  function RowLows(h: seq<seq<nat>>, row: nat, c: nat): (r: seq<Cell>)
    requires Rectangular(h) && row < |h| && c <= |h[0]|
    ensures AllInGrid(h, r) && |r| <= c
  {
    if c == 0 then []
    else if RiskLevel(h, row, c - 1) > 0 then RowLows(h, row, c - 1) + [(row, c - 1)]
    else RowLows(h, row, c - 1)
  }

  /** A cell is listed for a row exactly when it lies in that row, before `c`, with a positive risk level. */
  lemma {:induction false} RowLowsMembers(h: seq<seq<nat>>, row: nat, c: nat, p: Cell)
    requires Rectangular(h) && row < |h| && c <= |h[0]|
    ensures p in RowLows(h, row, c) <==> p.0 == row && p.1 < c && RiskLevel(h, row, p.1) > 0
  {
    if c > 0 {
      RowLowsMembers(h, row, c - 1, p);
    }
  }

  /** The cells of the first `r` rows with a positive risk level, in the source's row-major order. */
  function LowPoints(h: seq<seq<nat>>, r: nat): (ps: seq<Cell>)
    requires Rectangular(h) && r <= |h|
    ensures AllInGrid(h, ps)
  {
    if r == 0 then [] else LowPoints(h, r - 1) + RowLows(h, r - 1, |h[0]|)
  }

  /** A cell is listed exactly when it lies in the first `r` rows with a positive risk level. */
  lemma {:induction false} LowPointsMembers(h: seq<seq<nat>>, r: nat, p: Cell)
    requires Rectangular(h) && r <= |h|
    ensures p in LowPoints(h, r) <==> InGrid(h, p) && p.0 < r && RiskLevel(h, p.0, p.1) > 0
  {
    hide RiskLevel, RowLows, AllInGrid;
    if r > 0 {
      var before, row := LowPoints(h, r - 1), RowLows(h, r - 1, |h[0]|);
      assert p in LowPoints(h, r) <==> p in before || p in row;
      LowPointsMembers(h, r - 1, p);
      RowLowsMembers(h, r - 1, |h[0]|, p);
    }
  }

  /** The listed cells are exactly the low points of the map. */
  lemma LowPointsAreLow(h: seq<seq<nat>>, p: Cell)
    requires Rectangular(h)
    ensures p in LowPoints(h, |h|) <==> InGrid(h, p) && IsLow(h, p)
  {
    LowPointsMembers(h, |h|, p);
    if InGrid(h, p) {
      RiskLevelIsLow(h, p.0, p.1);
    }
  }

  /** The sum of height plus one over a list of cells. */
  function SumRisk(h: seq<seq<nat>>, ps: seq<Cell>): nat
    requires Rectangular(h) && AllInGrid(h, ps)
  {
    if ps == [] then 0 else SumRisk(h, ps[..|ps| - 1]) + Height(h, ps[|ps| - 1]) + 1
  }

  lemma {:induction false} SumRiskAppend(h: seq<seq<nat>>, a: seq<Cell>, b: seq<Cell>)
    requires Rectangular(h) && AllInGrid(h, a) && AllInGrid(h, b)
    ensures AllInGrid(h, a + b) && SumRisk(h, a + b) == SumRisk(h, a) + SumRisk(h, b)
    decreases |b|
  {
    if b != [] {
      assert (a + b)[..|a + b| - 1] == a + b[..|b| - 1];
      SumRiskAppend(h, a, b[..|b| - 1]);
    } else {
      assert a + b == a;
    }
  }

  lemma {:induction false} RowRiskIsLows(h: seq<seq<nat>>, row: nat, c: nat)
    requires Rectangular(h) && row < |h| && c <= |h[0]|
    ensures RowRisk(h, row, c) == SumRisk(h, RowLows(h, row, c))
  {
    if c > 0 {
      RowRiskIsLows(h, row, c - 1);
      if RiskLevel(h, row, c - 1) > 0 {
        var rest := RowLows(h, row, c - 1);
        assert (rest + [(row, c - 1)])[..|rest|] == rest;
      }
    }
  }

  /** `solution_a`: the risk levels summed over the whole map. */
  function SolutionA(h: seq<seq<nat>>): (total: nat)
    requires Rectangular(h)
    ensures total == SumRisk(h, LowPoints(h, |h|))
  {
    LowPointsRisk(h, |h|);
    GridRisk(h, |h|)
  }

  /** The risk total is the sum of height plus one over the low points. */
  lemma {:induction false} LowPointsRisk(h: seq<seq<nat>>, r: nat)
    requires Rectangular(h) && r <= |h|
    ensures GridRisk(h, r) == SumRisk(h, LowPoints(h, r))
  {
    hide RiskLevel, RowLows, RowRisk, AllInGrid, Height;
    if r > 0 {
      LowPointsRisk(h, r - 1);
      RowRiskIsLows(h, r - 1, |h[0]|);
      SumRiskAppend(h, LowPoints(h, r - 1), RowLows(h, r - 1, |h[0]|));
    }
  }

  // ---------------------------------------------------------------------------
  // Basins.

  /** The cells a basin may spread to from `p`: orthogonal, inside the grid, not of height 9. */
  function Neighbours(h: seq<seq<nat>>, p: Cell): (ns: set<Cell>)
    requires Rectangular(h)
    ensures forall q :: q in ns <==> InGrid(h, q) && Adjacent(p, q) && Height(h, q) != 9
  {
    var around := [(p.0 + 1, p.1), (p.0, p.1 + 1)] +
      (if p.0 > 0 then [(p.0 - 1, p.1)] else []) + (if p.1 > 0 then [(p.0, p.1 - 1)] else []);
    set q | q in around && InGrid(h, q) && Height(h, q) != 9
  }

  /** The orthogonal neighbours inside the grid, in the order `expand_node` lists them. */
  function Around(h: seq<seq<nat>>, p: Cell): (around: seq<Cell>)
    requires Rectangular(h) && InGrid(h, p)
    ensures |around| <= 4 && AllInGrid(h, around)
  {
    (if p.0 > 0 then [(p.0 - 1, p.1)] else []) +
    (if p.1 > 0 then [(p.0, p.1 - 1)] else []) +
    (if p.1 + 1 < |h[0]| then [(p.0, p.1 + 1)] else []) +
    (if p.0 + 1 < |h| then [(p.0 + 1, p.1)] else [])
  }

  /** `Around` holds exactly the cells of the grid next to `p`. */
  lemma AroundAdjacent(h: seq<seq<nat>>, p: Cell, q: Cell)
    requires Rectangular(h) && InGrid(h, p)
    ensures q in Around(h, p) <==> InGrid(h, q) && Adjacent(p, q)
  {
  }

  /**
   * `expand_node`: the cell above, left, right and below, each only where it
   * exists, then dropping those of height 9.
   */
  method ExpandNode(p: Cell, h: seq<seq<nat>>) returns (nodes: seq<Cell>)
    requires Rectangular(h) && InGrid(h, p)
    ensures |nodes| <= 4
    ensures forall q :: q in nodes <==> q in Neighbours(h, p)
  {
    var (row, col) := p;
    var around: seq<Cell> := [];
    if row > 0 {
      around := around + [(row - 1, col)];
    }
    if col > 0 {
      around := around + [(row, col - 1)];
    }
    if col + 1 < |h[0]| {
      around := around + [(row, col + 1)];
    }
    if row + 1 < |h| {
      around := around + [(row + 1, col)];
    }
    assert around == Around(h, p);
    nodes := DropNines(h, around);
    NeighboursAround(h, p);
  }

  /** The filter at the end of `expand_node`: the listed cells not of height 9, in order. */
  method DropNines(h: seq<seq<nat>>, around: seq<Cell>) returns (nodes: seq<Cell>)
    requires Rectangular(h) && AllInGrid(h, around)
    ensures |nodes| <= |around|
    ensures forall q :: q in nodes <==> q in around && Height(h, q) != 9
  {
    nodes := [];
    for i := 0 to |around|
      invariant |nodes| <= i
      invariant forall q :: q in nodes <==> q in around[..i] && Height(h, q) != 9
    {
      assert around[..i + 1] == around[..i] + [around[i]];
      if h[around[i].0][around[i].1] != 9 {
        nodes := nodes + [around[i]];
      }
    }
    assert around[..|around|] == around;
  }

  /** The spreads of `p` are the cells of `Around` not of height 9. */
  lemma NeighboursAround(h: seq<seq<nat>>, p: Cell)
    requires Rectangular(h) && InGrid(h, p)
    ensures forall q :: q in Neighbours(h, p) <==> q in Around(h, p) && Height(h, q) != 9
  {
    forall q ensures q in Neighbours(h, p) <==> q in Around(h, p) && Height(h, q) != 9 {
      AroundAdjacent(h, p, q);
    }
  }

  /** A walk through the basin: every step goes to one of the `Neighbours`. */
  predicate IsWalk(h: seq<seq<nat>>, w: seq<Cell>)
    requires Rectangular(h)
  {
    |w| >= 1 && InGrid(h, w[0]) && forall i :: 0 <= i < |w| - 1 ==> w[i + 1] in Neighbours(h, w[i])
  }

  /** The cells of the map. */
  function Cells(h: seq<seq<nat>>): set<Cell>
    requires Rectangular(h)
  {
    set r: nat, c: nat | r < |h| && c < |h[0]| :: (r, c)
  }

  ghost predicate Reaches(h: seq<seq<nat>>, start: Cell, q: Cell)
    requires Rectangular(h)
  {
    exists w :: IsWalk(h, w) && w[0] == start && w[|w| - 1] == q
  }

  /** The basin of `start`: every cell some walk from it reaches. */
  ghost function Component(h: seq<seq<nat>>, start: Cell): set<Cell>
    requires Rectangular(h)
  {
    set q | q in Cells(h) && Reaches(h, start, q)
  }

  /** Every walk from a cell of a closed set stays inside it. */
  lemma {:induction false} WalkStays(h: seq<seq<nat>>, basin: set<Cell>, w: seq<Cell>)
    requires Rectangular(h) && IsWalk(h, w) && w[0] in basin
    requires forall q, n :: q in basin && n in Neighbours(h, q) ==> n in basin
    ensures w[|w| - 1] in basin
    decreases |w|
  {
    if |w| > 1 {
      var init := w[..|w| - 1];
      assert IsWalk(h, init) by {
        forall i | 0 <= i < |init| - 1 ensures init[i + 1] in Neighbours(h, init[i]) {
          assert init[i] == w[i] && init[i + 1] == w[i + 1];
        }
      }
      WalkStays(h, basin, init);
      assert w[|w| - 2] == init[|init| - 1];
    }
  }

  /** Every basin cell with its spreads is either filled or still waiting. */
  predicate Closed(h: seq<seq<nat>>, basin: set<Cell>, stack: seq<Cell>)
    requires Rectangular(h)
  {
    forall q, n :: q in basin && n in Neighbours(h, q) ==> n in basin || n in stack
  }

  /**
   * A waiting cell that is already filled has its spreads filled or waiting
   * above it, so popping it again pushes nothing.
   */
  predicate Ordered(h: seq<seq<nat>>, basin: set<Cell>, stack: seq<Cell>)
    requires Rectangular(h)
  {
    forall i, n :: 0 <= i < |stack| && stack[i] in basin && n in Neighbours(h, stack[i]) ==> n in basin || n in stack[i + 1..]
  }

  /** The neighbours not filled yet, in order. */
  function Unvisited(next: seq<Cell>, basin: set<Cell>): (r: seq<Cell>)
    ensures forall q :: q in r <==> q in next && q !in basin
  {
    if next == [] then []
    else
      var rest := Unvisited(next[..|next| - 1], basin);
      assert forall q :: q in next <==> q in next[..|next| - 1] || q == next[|next| - 1];
      if next[|next| - 1] in basin then rest else rest + [next[|next| - 1]]
  }

  /** One round of the flood fill keeps both invariants. */
  lemma PopKeeps(h: seq<seq<nat>>, basin: set<Cell>, stack: seq<Cell>, next: seq<Cell>)
    requires Rectangular(h) && stack != []
    requires Closed(h, basin, stack) && Ordered(h, basin, stack)
    requires forall q :: q in next <==> q in Neighbours(h, stack[|stack| - 1])
    ensures var current := stack[|stack| - 1];
            var basin' := basin + {current};
            var stack' := stack[..|stack| - 1] + Unvisited(next, basin');
            Closed(h, basin', stack') && Ordered(h, basin', stack') &&
            (current in basin ==> stack' == stack[..|stack| - 1])
  {
    var current := stack[|stack| - 1];
    var basin' := basin + {current};
    if current in basin {
      RefillPushesNothing(h, basin, stack, next);
    }
    PopKeepsClosed(h, basin, stack, next);
    PopKeepsOrdered(h, basin, stack, next);
  }

  /** Popping a cell that is already filled pushes nothing. */
  lemma RefillPushesNothing(h: seq<seq<nat>>, basin: set<Cell>, stack: seq<Cell>, next: seq<Cell>)
    requires Rectangular(h) && stack != [] && stack[|stack| - 1] in basin
    requires Ordered(h, basin, stack)
    requires forall q :: q in next <==> q in Neighbours(h, stack[|stack| - 1])
    ensures Unvisited(next, basin + {stack[|stack| - 1]}) == []
  {
    var current := stack[|stack| - 1];
    forall n | n in Neighbours(h, current) ensures n in basin {
      assert stack[|stack| - 1..][1..] == [];
    }
    forall i | 0 <= i < |next| ensures next[i] in basin + {current} {
      assert next[i] in next;
    }
    UnvisitedNone(next, basin + {current});
  }

  /** Nothing is pushed when every spread is filled already. */
  lemma {:induction false} UnvisitedNone(next: seq<Cell>, basin: set<Cell>)
    requires forall i :: 0 <= i < |next| ==> next[i] in basin
    ensures Unvisited(next, basin) == []
  {
    if next != [] {
      UnvisitedNone(next[..|next| - 1], basin);
    }
  }

  lemma PopKeepsClosed(h: seq<seq<nat>>, basin: set<Cell>, stack: seq<Cell>, next: seq<Cell>)
    requires Rectangular(h) && stack != []
    requires Closed(h, basin, stack)
    requires forall q :: q in next <==> q in Neighbours(h, stack[|stack| - 1])
    ensures var current := stack[|stack| - 1];
            var basin' := basin + {current};
            Closed(h, basin', stack[..|stack| - 1] + Unvisited(next, basin'))
  {
    var current := stack[|stack| - 1];
    var rest := stack[..|stack| - 1];
    var basin' := basin + {current};
    var stack' := rest + Unvisited(next, basin');
    forall q, n | q in basin' && n in Neighbours(h, q) ensures n in basin' || n in stack' {
      if q != current && n !in basin' {
        assert n in stack;
        var k :| 0 <= k < |stack| && stack[k] == n;
        assert k < |rest| && rest[k] == n;
      }
    }
  }

  lemma PopKeepsOrdered(h: seq<seq<nat>>, basin: set<Cell>, stack: seq<Cell>, next: seq<Cell>)
    requires Rectangular(h) && stack != []
    requires Ordered(h, basin, stack)
    requires forall q :: q in next <==> q in Neighbours(h, stack[|stack| - 1])
    ensures var current := stack[|stack| - 1];
            var basin' := basin + {current};
            Ordered(h, basin', stack[..|stack| - 1] + Unvisited(next, basin'))
  {
    var current := stack[|stack| - 1];
    var rest := stack[..|stack| - 1];
    var basin' := basin + {current};
    var pushed := Unvisited(next, basin');
    var stack' := rest + pushed;
    forall i, n | 0 <= i < |stack'| && stack'[i] in basin' && n in Neighbours(h, stack'[i])
      ensures n in basin' || n in stack'[i + 1..]
    {
      if i < |rest| && n !in basin' {
        assert stack'[i] == stack[i];
        if stack[i] == current {
          assert n in pushed;
          var k :| 0 <= k < |pushed| && pushed[k] == n;
          assert stack'[i + 1..][|rest| + k - i - 1] == n;
        } else {
          assert n in stack[i + 1..];
          var k :| 0 <= k < |stack[i + 1..]| && stack[i + 1..][k] == n;
          assert i + 1 + k < |rest|;
          assert stack'[i + 1..][k] == n;
        }
      }
    }
  }

  /** Walks from `start` to every filled or waiting cell. */
  predicate Walked(h: seq<seq<nat>>, start: Cell, walks: map<Cell, seq<Cell>>)
    requires Rectangular(h)
  {
    forall q :: q in walks ==> IsWalk(h, walks[q]) && walks[q][0] == start && walks[q][|walks[q]| - 1] == q
  }

  lemma Extend(h: seq<seq<nat>>, w: seq<Cell>, n: Cell)
    requires Rectangular(h) && IsWalk(h, w) && n in Neighbours(h, w[|w| - 1])
    ensures IsWalk(h, w + [n]) && (w + [n])[0] == w[0] && (w + [n])[|w|] == n
  {
    var w' := w + [n];
    forall i | 0 <= i < |w'| - 1 ensures w'[i + 1] in Neighbours(h, w'[i]) {
      if i < |w| - 1 {
        assert w'[i] == w[i] && w'[i + 1] == w[i + 1];
      }
    }
  }

  /** The loop of `get_basin_size` that pushes the spreads not filled yet, in order. */
  method PushUnvisited(next: seq<Cell>, basin: set<Cell>, stack: seq<Cell>) returns (stack': seq<Cell>)
    ensures stack' == stack + Unvisited(next, basin)
  {
    stack' := stack;
    for i := 0 to |next|
      invariant stack' == stack + Unvisited(next[..i], basin)
    {
      assert next[..i + 1][..i] == next[..i];
      if next[i] !in basin {
        stack' := stack' + [next[i]];
      }
    }
    assert next[..|next|] == next;
  }

  /** Walks to the spreads of `current`, each one step past the walk to `current`. */
  ghost method AddWalks(h: seq<seq<nat>>, start: Cell, current: Cell, next: seq<Cell>, walks: map<Cell, seq<Cell>>)
    returns (walks': map<Cell, seq<Cell>>)
    requires Rectangular(h) && Walked(h, start, walks) && current in walks
    requires forall q :: q in next ==> q in Neighbours(h, current)
    ensures Walked(h, start, walks') && walks.Keys <= walks'.Keys
    ensures forall q :: q in next ==> q in walks'
  {
    walks' := walks;
    for i := 0 to |next|
      invariant Walked(h, start, walks') && walks.Keys <= walks'.Keys && current in walks'
      invariant forall q :: q in next[..i] ==> q in walks'
    {
      var node := next[i];
      assert next[..i + 1] == next[..i] + [node];
      if node !in walks' {
        assert node in Neighbours(h, current);
        Extend(h, walks'[current], node);
        walks' := walks'[node := walks'[current] + [node]];
      }
    }
    assert next[..|next|] == next;
  }

  /**
   * `get_basin_size`: pop a cell, fill it, push its unfilled spreads, until
   * nothing waits. The filled cells are exactly the cells reachable from the
   * start, so the size is that of the basin and at least one.
   */
  method GetBasinSize(h: seq<seq<nat>>, row: nat, col: nat) returns (size: nat, basin: set<Cell>)
    requires Rectangular(h) && InGrid(h, (row, col))
    ensures basin == Component(h, (row, col)) && (row, col) in basin
    ensures size == |basin| && size >= 1
  {
    var start := (row, col);
    basin := {};
    var stack := [start];
    ghost var walks: map<Cell, seq<Cell>> := map[start := [start]];
    while stack != []
      invariant FillInvariant(h, start, basin, stack, walks)
      invariant start in basin || start in stack
      decreases |Cells(h) - basin|, |stack|
    {
      ghost var oldBasin, oldStack := basin, stack;
      basin, stack, walks := FillStep(h, start, basin, stack, walks);
      if basin != oldBasin {
        FillShrinks(Cells(h), oldBasin, oldStack[|oldStack| - 1]);
      }
    }
    FilledIsComponent(h, start, basin, walks);
    size := |basin|;
  }

  /** Filling a new cell of the map leaves fewer cells unfilled. */
  lemma FillShrinks(cells: set<Cell>, basin: set<Cell>, x: Cell)
    requires x in cells && x !in basin
    ensures |cells - (basin + {x})| < |cells - basin|
  {
    assert cells - (basin + {x}) == (cells - basin) - {x};
  }

  /** What the flood fill keeps between rounds. */
  ghost predicate FillInvariant(h: seq<seq<nat>>, start: Cell, basin: set<Cell>, stack: seq<Cell>, walks: map<Cell, seq<Cell>>)
    requires Rectangular(h)
  {
    Closed(h, basin, stack) && Ordered(h, basin, stack) && Walked(h, start, walks) &&
    (forall q :: q in basin ==> q in walks) &&
    (forall i :: 0 <= i < |stack| ==> stack[i] in walks) &&
    basin <= Cells(h)
  }

  /**
   * One round of `get_basin_size`: pop the top cell, fill it, and push its
   * spreads not filled yet. Either the cell was new, or it was filled already
   * and the stack only shrinks.
   */
  method FillStep(h: seq<seq<nat>>, ghost start: Cell, basin: set<Cell>, stack: seq<Cell>, ghost walks: map<Cell, seq<Cell>>)
    returns (basin': set<Cell>, stack': seq<Cell>, ghost walks': map<Cell, seq<Cell>>)
    requires Rectangular(h) && stack != [] && FillInvariant(h, start, basin, stack, walks)
    ensures FillInvariant(h, start, basin', stack', walks')
    ensures basin' == basin + {stack[|stack| - 1]}
    ensures stack[|stack| - 1] in Cells(h)
    ensures stack[|stack| - 1] in basin ==> stack' == stack[..|stack| - 1]
    ensures start in basin || start in stack ==> start in basin' || start in stack'
  {
    var current := stack[|stack| - 1];
    WalkInGrid(h, walks[current], |walks[current]| - 1);
    stack' := stack[..|stack| - 1];
    basin' := basin + {current};
    var next := ExpandNode(current, h);
    PopKeeps(h, basin, stack, next);
    stack' := PushUnvisited(next, basin', stack');
    walks' := AddWalks(h, start, current, next, walks);
  }

  /** A closed fill whose cells all have walks from the start is the start's basin. */
  lemma FilledIsComponent(h: seq<seq<nat>>, start: Cell, basin: set<Cell>, walks: map<Cell, seq<Cell>>)
    requires Rectangular(h) && Closed(h, basin, []) && Walked(h, start, walks) && start in basin
    requires forall q :: q in basin ==> q in walks
    ensures basin == Component(h, start)
  {
    forall q | q in basin ensures q in Component(h, start) {
      WalkInGrid(h, walks[q], |walks[q]| - 1);
      assert Reaches(h, start, q) by {
        assert IsWalk(h, walks[q]) && walks[q][0] == start && walks[q][|walks[q]| - 1] == q;
      }
    }
    forall q | q in Component(h, start) ensures q in basin {
      ComponentStays(h, start, basin, q);
    }
  }

  /** A cell some walk from the start reaches lies in any closed set holding the start. */
  lemma ComponentStays(h: seq<seq<nat>>, start: Cell, basin: set<Cell>, q: Cell)
    requires Rectangular(h) && Closed(h, basin, []) && start in basin && Reaches(h, start, q)
    ensures q in basin
  {
    var w :| IsWalk(h, w) && w[0] == start && w[|w| - 1] == q;
    WalkStays(h, basin, w);
  }


  lemma WalkInGrid(h: seq<seq<nat>>, w: seq<Cell>, i: nat)
    requires Rectangular(h) && IsWalk(h, w) && i < |w|
    ensures InGrid(h, w[i]) && w[i] in Cells(h)
  {
    if i > 0 {
      assert w[i] in Neighbours(h, w[i - 1]);
    }
  }

  /** The product of the first three entries, or of all when there are fewer. */
  function TopThreeProduct(s: seq<nat>): nat {
    if |s| == 0 then 1
    else if |s| == 1 then s[0]
    else if |s| == 2 then s[0] * s[1]
    else s[0] * s[1] * s[2]
  }

  function Neg(x: int): int {
    -x
  }

  /** `n` is the size of the basin of `p`. */
  ghost predicate BasinSize(h: seq<seq<nat>>, p: Cell, n: nat)
    requires Rectangular(h)
  {
    n == |Component(h, p)| && n >= 1
  }

  /** The loop of `solution_b` measuring the basin of every low point, in order. */
  method BasinSizes(h: seq<seq<nat>>, lows: seq<Cell>) returns (all: seq<nat>)
    requires Rectangular(h) && AllInGrid(h, lows)
    ensures |all| == |lows| && forall k :: 0 <= k < |lows| ==> BasinSize(h, lows[k], all[k])
  {
    hide Component, Cells;
    all := [];
    for k := 0 to |lows|
      invariant |all| == k
      invariant forall j :: 0 <= j < k ==> BasinSize(h, lows[j], all[j])
    {
      var size, _ := GetBasinSize(h, lows[k].0, lows[k].1);
      all := all + [size];
    }
  }

  /**
   * `solution_b`: the basin sizes of the low points in row-major order, sorted
   * largest first, and the three largest multiplied.
   */
  method SolutionB(h: seq<seq<nat>>) returns (score: nat, ghost sizes: seq<nat>)
    requires Rectangular(h)
    ensures var lows := LowPoints(h, |h|);
            |sizes| == |lows| &&
            (forall k :: 0 <= k < |lows| ==> BasinSize(h, lows[k], sizes[k])) &&
            score == TopThreeProduct(SortBy(sizes, Neg))
  {
    var lows := LowPoints(h, |h|);
    var all := BasinSizes(h, lows);
    sizes := all;
    var sorted := SortBy(all, Neg);
    score := TopThreeProduct(sorted);
  }
}

/**
 * The four-slot amphipod burrow (day23_b.rs): 23 cells, the seven hallway cells
 * 0..6 and the rooms A1..A4 = 7..10, B1..B4 = 11..14, C1..C4 = 15..18,
 * D1..D4 = 19..22, slot 1 nearest the hallway.
 */
module BurrowDeep {
  import opened Burrow

  const Cells: nat := 23

  /** `connecting_rooms`: the neighbours of every cell with the step count to each. */
  function ConnectingRooms(r: nat): (edges: seq<Edge>)
    requires r < Cells
  {
    match r
    case 0 => [Edge(1, 1)]
    case 1 => [Edge(0, 1), Edge(7, 2), Edge(2, 2)]
    case 2 => [Edge(1, 2), Edge(7, 2), Edge(11, 2), Edge(3, 2)]
    case 3 => [Edge(2, 2), Edge(11, 2), Edge(15, 2), Edge(4, 2)]
    case 4 => [Edge(3, 2), Edge(15, 2), Edge(19, 2), Edge(5, 2)]
    case 5 => [Edge(4, 2), Edge(19, 2), Edge(6, 1)]
    case 6 => [Edge(5, 1)]
    case 7 => [Edge(8, 1), Edge(1, 2), Edge(2, 2)]
    case 8 => [Edge(7, 1), Edge(9, 1)]
    case 9 => [Edge(8, 1), Edge(10, 1)]
    case 10 => [Edge(9, 1)]
    case 11 => [Edge(12, 1), Edge(2, 2), Edge(3, 2)]
    case 12 => [Edge(11, 1), Edge(13, 1)]
    case 13 => [Edge(12, 1), Edge(14, 1)]
    case 14 => [Edge(13, 1)]
    case 15 => [Edge(16, 1), Edge(3, 2), Edge(4, 2)]
    case 16 => [Edge(15, 1), Edge(17, 1)]
    case 17 => [Edge(16, 1), Edge(18, 1)]
    case 18 => [Edge(17, 1)]
    case 19 => [Edge(20, 1), Edge(4, 2), Edge(5, 2)]
    case 20 => [Edge(19, 1), Edge(21, 1)]
    case 21 => [Edge(20, 1), Edge(22, 1)]
    case _ => [Edge(21, 1)]
  }

  function Table(): (adj: Adjacency)
    ensures |adj| == Cells
  {
    seq(Cells, r requires 0 <= r < Cells => ConnectingRooms(r))
  }

  /** Every neighbour listed for a cell is a cell that lists the first back at the same cost. */
  lemma RowBack(i: nat)
    requires i < Cells
    ensures forall k :: 0 <= k < |ConnectingRooms(i)| ==>
              ConnectingRooms(i)[k].room < Cells &&
              Edge(i, ConnectingRooms(i)[k].cost) in ConnectingRooms(ConnectingRooms(i)[k].room)
  {
  }

  /** No neighbour is listed twice for a cell. */
  lemma RowDistinct(i: nat)
    requires i < Cells
    ensures forall j, k :: 0 <= j < k < |ConnectingRooms(i)| ==> ConnectingRooms(i)[j].room != ConnectingRooms(i)[k].room
  {
  }

  /** One row of the table: targets in range and distinct, and each edge listed back with its cost. */
  lemma RowShape(i: nat)
    requires i < Cells
    ensures forall k :: 0 <= k < |ConnectingRooms(i)| ==>
              ConnectingRooms(i)[k].room < Cells &&
              Edge(i, ConnectingRooms(i)[k].cost) in ConnectingRooms(ConnectingRooms(i)[k].room)
    ensures forall j, k :: 0 <= j < k < |ConnectingRooms(i)| ==> ConnectingRooms(i)[j].room != ConnectingRooms(i)[k].room
  {
    RowBack(i);
    RowDistinct(i);
  }

  /** The table is well formed, lists no neighbour twice and is symmetric. */
  lemma TableShape()
    ensures WellFormed(Table()) && DistinctTargets(Table()) && Symmetric(Table())
  {
    forall i | 0 <= i < Cells
      ensures forall k :: 0 <= k < |Table()[i]| ==>
                Table()[i][k].room < Cells && Edge(i, Table()[i][k].cost) in Table()[Table()[i][k].room]
      ensures forall j, k :: 0 <= j < k < |Table()[i]| ==> Table()[i][j].room != Table()[i][k].room
    {
      RowShape(i);
      assert Table()[i] == ConnectingRooms(i);
      forall k | 0 <= k < |Table()[i]| ensures Table()[Table()[i][k].room] == ConnectingRooms(Table()[i][k].room) {
      }
    }
  }

  /** A spanning tree of the table: every cell but 0 hangs below a lower-numbered neighbour. */
  const Parents: seq<nat> := [0, 0, 1, 2, 3, 4, 5, 1, 7, 8, 9, 2, 11, 12, 13, 3, 15, 16, 17, 4, 19, 20, 21]

  /** Where each cell appears in its parent's neighbour list. */
  const ParentSlot: seq<nat> := [0, 0, 2, 3, 3, 3, 2, 1, 0, 1, 1, 2, 0, 1, 1, 2, 0, 1, 1, 2, 0, 1, 1]

  lemma ParentListed(c: nat)
    requires 1 <= c < Cells
    ensures Parents[c] < c && ParentSlot[c] < |ConnectingRooms(Parents[c])|
    ensures ConnectingRooms(Parents[c])[ParentSlot[c]].room == c
  {
  }

  lemma TableParents()
    ensures ParentTable(Table(), Parents)
  {
    forall c | 1 <= c < Cells
      ensures Parents[c] < c && exists k :: 0 <= k < |Table()[Parents[c]]| && Table()[Parents[c]][k].room == c
    {
      ParentListed(c);
      assert Table()[Parents[c]] == ConnectingRooms(Parents[c]);
      assert Table()[Parents[c]][ParentSlot[c]].room == c;
    }
  }

  /** Every cell can reach every other: the search always finds a route. */
  lemma TableConnected()
    ensures Connected(Table())
  {
    TableShape();
    TableParents();
    ConnectedByParents(Table(), Parents);
  }

  // ---------------------------------------------------------------------------
  // Legality of a move.

  /** `Room::is_matching_type`: `r` is a slot of the home room of `a`; never for an empty cell. */
  predicate IsMatchingType(r: nat, a: Amphipod) {
    match a
    case Empty => false
    case Amber => 7 <= r <= 10
    case Bronze => 11 <= r <= 14
    case Copper => 15 <= r <= 18
    case Desert => 19 <= r <= 22
  }

  /** The deepest slot of the home room of `a`. */
  function Bottom(a: Amphipod): nat
    requires a != Empty
  {
    match a
    case Amber => 10
    case Bronze => 14
    case Copper => 18
    case Desert => 22
  }

  /**
   * `room_group_matches` with the `*_correct_below_room` helpers: `r` is in the
   * home room of `a` and every deeper slot of that room already holds `a`.
   */
  predicate RoomGroupMatches(state: seq<Amphipod>, r: nat, a: Amphipod)
    requires |state| == Cells
  {
    IsMatchingType(r, a) && forall s :: r < s <= Bottom(a) ==> state[s] == a
  }

  /** `route_is_empty`: every cell of the route (start excluded, end included) is empty. */
  predicate RouteIsEmpty(state: seq<Amphipod>, route: seq<nat>) {
    forall k :: 0 <= k < |route| ==> route[k] < |state| && state[route[k]] == Empty
  }

  /**
   * `is_valid_path`: a settled amphipod does not move; a hallway destination is
   * always allowed; a room destination must be its settled home slot.
   */
  predicate IsValidPath(state: seq<Amphipod>, p: Path, a: Amphipod)
    requires |state| == Cells
  {
    if RoomGroupMatches(state, p.start, a) then false
    else if IsHall(p.end) then true
    else RoomGroupMatches(state, p.end, a)
  }

  /** The filter and map of `get_valid_moves` over the path list of one cell. */
  function MovesFor(state: seq<Amphipod>, paths: seq<Path>, a: Amphipod): seq<Move>
    requires |state| == Cells
  {
    if paths == [] then []
    else
      var p := paths[|paths| - 1];
      MovesFor(state, paths[..|paths| - 1], a) +
      (if RouteIsEmpty(state, p.route) && IsValidPath(state, p, a)
       then [Move(p.start, p.end, MoveCost(p.dist, a))] else [])
  }

  /** `get_valid_moves` over the cells below `n`, in cell order. */
  function ValidMoves(state: seq<Amphipod>, pathMap: map<nat, seq<Path>>, n: nat): seq<Move>
    requires |state| == Cells && n <= Cells
    requires forall r: nat :: r < n ==> r in pathMap
  {
    if n == 0 then []
    else
      ValidMoves(state, pathMap, n - 1) +
      (if state[n - 1] == Empty then [] else MovesFor(state, pathMap[n - 1], state[n - 1]))
  }

  /** Every move listed for a path list comes from one of its paths that passes both filters. */
  lemma {:induction false} MovesForSource(state: seq<Amphipod>, paths: seq<Path>, a: Amphipod, m: Move)
    returns (p: Path)
    requires |state| == Cells && m in MovesFor(state, paths, a)
    ensures p in paths && RouteIsEmpty(state, p.route) && IsValidPath(state, p, a)
    ensures m == Move(p.start, p.end, MoveCost(p.dist, a))
  {
    var init := paths[..|paths| - 1];
    assert paths == init + [paths[|paths| - 1]];
    if m in MovesFor(state, init, a) {
      p := MovesForSource(state, init, a, m);
    } else {
      p := paths[|paths| - 1];
    }
  }

  /** Every path that passes both filters gives a listed move. */
  lemma {:induction false} MovesForHas(state: seq<Amphipod>, paths: seq<Path>, a: Amphipod, p: Path)
    requires |state| == Cells && p in paths
    requires RouteIsEmpty(state, p.route) && IsValidPath(state, p, a)
    ensures Move(p.start, p.end, MoveCost(p.dist, a)) in MovesFor(state, paths, a)
  {
    var init := paths[..|paths| - 1];
    assert paths == init + [paths[|paths| - 1]];
    if p != paths[|paths| - 1] {
      MovesForHas(state, init, a, p);
    }
  }

  /** Every move of `get_valid_moves` comes from an occupied cell's path list. */
  lemma {:induction false} ValidMovesSource(state: seq<Amphipod>, pathMap: map<nat, seq<Path>>, n: nat, m: Move)
    returns (i: nat)
    requires |state| == Cells && n <= Cells
    requires forall r: nat :: r < n ==> r in pathMap
    requires m in ValidMoves(state, pathMap, n)
    ensures i < n && state[i] != Empty && m in MovesFor(state, pathMap[i], state[i])
  {
    if m in ValidMoves(state, pathMap, n - 1) {
      i := ValidMovesSource(state, pathMap, n - 1, m);
    } else {
      i := n - 1;
    }
  }

  lemma {:induction false} ValidMovesHas(state: seq<Amphipod>, pathMap: map<nat, seq<Path>>, n: nat, i: nat, m: Move)
    requires |state| == Cells && n <= Cells
    requires forall r: nat :: r < n ==> r in pathMap
    requires i < n && state[i] != Empty && m in MovesFor(state, pathMap[i], state[i])
    ensures m in ValidMoves(state, pathMap, n)
  {
    if i < n - 1 {
      ValidMovesHas(state, pathMap, n - 1, i, m);
    }
  }

  /** The path table built by `get_path_map` over this burrow's table. */
  ghost predicate PathMapOk(pathMap: map<nat, seq<Path>>) {
    (forall r: nat :: r in pathMap <==> r < Cells) &&
    forall r :: r in pathMap ==> PathsFrom(Table(), r, Cells, pathMap[r])
  }

  /** `get_path_map` for this burrow: one route from every cell to every non-hallway-pair cell. */
  method PathMap() returns (pathMap: map<nat, seq<Path>>)
    ensures PathMapOk(pathMap)
    ensures forall r :: r in pathMap ==> forall k :: 0 <= k < |pathMap[r]| ==> IsRoute(Table(), pathMap[r][k])
  {
    TableShape();
    TableConnected();
    pathMap := GetPathMap(Table());
  }

  /**
   * `get_valid_moves`: for every occupied cell, the paths from it whose route is
   * empty and which `is_valid_path` allows, each priced at distance times the
   * mover's step cost.
   */
  method GetValidMoves(g: Grid, pathMap: map<nat, seq<Path>>) returns (moves: seq<Move>)
    requires |g.state| == Cells
    requires forall r: nat :: r < Cells ==> r in pathMap
    ensures moves == ValidMoves(g.state, pathMap, Cells)
  {
    moves := [];
    for i := 0 to Cells
      invariant moves == ValidMoves(g.state, pathMap, i)
    {
      var amphipod := g.state[i];
      if amphipod == Empty {
        continue;
      }
      var paths := pathMap[i];
      var valid: seq<Move> := [];
      for j := 0 to |paths|
        invariant valid == MovesFor(g.state, paths[..j], amphipod)
      {
        var path := paths[j];
        assert paths[..j + 1][..j] == paths[..j];
        if RouteIsEmpty(g.state, path.route) && IsValidPath(g.state, path, amphipod) {
          valid := valid + [Move(path.start, path.end, MoveCost(path.dist, amphipod))];
        }
      }
      assert paths[..|paths|] == paths;
      moves := moves + valid;
    }
  }

  /**
   * Every generated move starts at an occupied cell that is not settled, ends
   * at a different, empty cell that is a hallway cell or a settled home slot,
   * and costs the length of a route between the two times the mover's step cost.
   */
  lemma ValidMoveSound(state: seq<Amphipod>, pathMap: map<nat, seq<Path>>, m: Move) returns (p: Path)
    requires |state| == Cells && PathMapOk(pathMap)
    requires m in ValidMoves(state, pathMap, Cells)
    ensures m.start < Cells && m.end < Cells && m.start != m.end
    ensures state[m.start] != Empty && state[m.end] == Empty
    ensures !RoomGroupMatches(state, m.start, state[m.start])
    ensures IsHall(m.end) || RoomGroupMatches(state, m.end, state[m.start])
    ensures p in pathMap[m.start] && IsRoute(Table(), p) && p.start == m.start && p.end == m.end
    ensures m.cost == MoveCost(p.dist, state[m.start])
  {
    TableConnected();
    var i := ValidMovesSource(state, pathMap, Cells, m);
    p := MovesForSource(state, pathMap[i], state[i], m);
    var k :| 0 <= k < |pathMap[i]| && pathMap[i][k] == p;
    assert PathsFrom(Table(), i, Cells, pathMap[i]);
    assert p.start == i && p.end == Ends(Cells, i)[k];
    assert IsRoute(Table(), p);
    assert p.end in Ends(Cells, i);
    assert state[p.route[|p.route| - 1]] == Empty;
  }

  lemma ListedPathStart(pathMap: map<nat, seq<Path>>, i: nat, p: Path)
    requires PathMapOk(pathMap) && i < Cells && p in pathMap[i]
    ensures p.start == i
  {
    var k :| 0 <= k < |pathMap[i]| && pathMap[i][k] == p;
    assert PathsFrom(Table(), i, Cells, pathMap[i]);
  }

  /** Conversely, every empty-route path that `is_valid_path` allows from an occupied cell is generated. */
  lemma ValidMoveComplete(state: seq<Amphipod>, pathMap: map<nat, seq<Path>>, i: nat, p: Path)
    requires |state| == Cells && PathMapOk(pathMap)
    requires i < Cells && state[i] != Empty && p in pathMap[i]
    requires RouteIsEmpty(state, p.route) && IsValidPath(state, p, state[i])
    ensures Move(i, p.end, MoveCost(p.dist, state[i])) in ValidMoves(state, pathMap, Cells)
  {
    ListedPathStart(pathMap, i, p);
    MovesForHas(state, pathMap[i], state[i], p);
    ValidMovesHas(state, pathMap, Cells, i, Move(i, p.end, MoveCost(p.dist, state[i])));
  }

  /** An amphipod whose home-room slot and every deeper slot are settled generates no move. */
  lemma SettledStays(state: seq<Amphipod>, pathMap: map<nat, seq<Path>>, i: nat)
    requires |state| == Cells && PathMapOk(pathMap)
    requires i < Cells && RoomGroupMatches(state, i, state[i])
    ensures forall m :: m in ValidMoves(state, pathMap, Cells) ==> m.start != i
  {
    forall m | m in ValidMoves(state, pathMap, Cells) ensures m.start != i {
      var _ := ValidMoveSound(state, pathMap, m);
    }
  }

  // ---------------------------------------------------------------------------
  // Goal test and the heap priority.

  /** The home kind of a room slot. */
  function HomeOf(r: nat): Amphipod
    requires 7 <= r < Cells
  {
    if r <= 10 then Amber else if r <= 14 then Bronze else if r <= 18 then Copper else Desert
  }

  /** `is_solved`: all sixteen room slots hold their home kind. */
  predicate IsSolved(state: seq<Amphipod>)
    requires |state| == Cells
  {
    forall r :: 7 <= r < Cells ==> state[r] == HomeOf(r)
  }

  /** Solved means every room slot holds an amphipod for which it is a matching slot. */
  lemma SolvedIsAllMatching(state: seq<Amphipod>)
    requires |state| == Cells
    ensures IsSolved(state) <==> forall r :: 7 <= r < Cells ==> IsMatchingType(r, state[r])
  {
    if forall r :: 7 <= r < Cells ==> IsMatchingType(r, state[r]) {
      forall r | 7 <= r < Cells ensures state[r] == HomeOf(r) {
        assert IsMatchingType(r, state[r]);
      }
    }
  }

  /** The run of `a` counted upward from the slot `slot`, stopping at `top` or at the first other occupant. */
  function RunFromBottom(state: seq<Amphipod>, top: nat, slot: nat, a: Amphipod): (n: nat)
    requires top <= slot < |state|
    ensures n <= slot - top + 1
    decreases slot
  {
    if state[slot] != a then 0
    else if slot == top then 1
    else 1 + RunFromBottom(state, top, slot - 1, a)
  }

  lemma {:induction false} RunFull(state: seq<Amphipod>, top: nat, slot: nat, a: Amphipod)
    requires top <= slot < |state|
    ensures RunFromBottom(state, top, slot, a) == slot - top + 1 <==>
            forall r :: top <= r <= slot ==> state[r] == a
    decreases slot
  {
    if state[slot] == a && slot > top {
      RunFull(state, top, slot - 1, a);
    }
  }

  /** `heuristic`: the settled amphipods, counted per room from the bottom slot upward. */
  function Heuristic(state: seq<Amphipod>): nat
    requires |state| == Cells
  {
    RunFromBottom(state, 7, 10, Amber) + RunFromBottom(state, 11, 14, Bronze) +
    RunFromBottom(state, 15, 18, Copper) + RunFromBottom(state, 19, 22, Desert)
  }

  /** The heuristic is at most 16 and reaches 16 exactly on a solved grid. */
  lemma HeuristicSolved(state: seq<Amphipod>)
    requires |state| == Cells
    ensures Heuristic(state) <= 16
    ensures Heuristic(state) == 16 <==> IsSolved(state)
  {
    RunFull(state, 7, 10, Amber);
    RunFull(state, 11, 14, Bronze);
    RunFull(state, 15, 18, Copper);
    RunFull(state, 19, 22, Desert);
  }

  /** The heap ordering of `Ord for Grid`: the heuristic first (grids of another size never occur). */
  function Priority(g: Grid): nat {
    if |g.state| == Cells then Heuristic(g.state) else 0
  }

}

/**
 * The search of day23_b.rs over four-slot burrows: which grids it reaches, and
 * the best-first loop of `solution`.
 */
module BurrowDeepSearch {
  import opened Burrow
  import opened BurrowDeep


  /** Same cells, same amphipods, and at least the starting cost: what every move keeps. */
  ghost predicate Conserves(init: Grid, g: Grid) {
    |g.state| == Cells && multiset(g.state) == multiset(init.state) && g.cost >= init.cost
  }

  /** `h` is `g` after one of the moves `get_valid_moves` offers on it. */
  ghost predicate MoveStep(pathMap: map<nat, seq<Path>>, g: Grid, h: Grid) {
    PathMapOk(pathMap) && |g.state| == Cells &&
    exists m :: m in ValidMoves(g.state, pathMap, Cells) && m.start < Cells && m.end < Cells && h == Apply(g, m)
  }

  /** Grids each reached from the one before by a valid move. */
  ghost predicate Trace(pathMap: map<nat, seq<Path>>, t: seq<Grid>) {
    |t| >= 1 && forall k :: 0 <= k < |t| - 1 ==> MoveStep(pathMap, t[k], t[k + 1])
  }

  /** `g` is reached from `init` by a sequence of valid moves, each adding its cost. */
  ghost predicate Reachable(pathMap: map<nat, seq<Path>>, init: Grid, g: Grid) {
    exists t :: Trace(pathMap, t) && t[0] == init && t[|t| - 1] == g
  }

  /** Reached by valid moves, with the cells and amphipods of the start and at least its cost. */
  ghost predicate Descends(pathMap: map<nat, seq<Path>>, init: Grid, g: Grid) {
    Reachable(pathMap, init, g) && Conserves(init, g)
  }

  lemma ReachableStart(pathMap: map<nat, seq<Path>>, init: Grid)
    ensures Reachable(pathMap, init, init)
  {
    assert Trace(pathMap, [init]);
  }

  /** A valid move from a reachable grid reaches another. */
  lemma ReachableMove(pathMap: map<nat, seq<Path>>, init: Grid, g: Grid, m: Move)
    requires Reachable(pathMap, init, g) && PathMapOk(pathMap) && |g.state| == Cells
    requires m in ValidMoves(g.state, pathMap, Cells) && m.start < Cells && m.end < Cells
    ensures Reachable(pathMap, init, Apply(g, m))
  {
    var t :| Trace(pathMap, t) && t[0] == init && t[|t| - 1] == g;
    var t' := t + [Apply(g, m)];
    assert MoveStep(pathMap, g, Apply(g, m));
    assert forall k :: 0 <= k < |t| ==> t'[k] == t[k];
    assert Trace(pathMap, t');
  }

  /** Along a trace of valid moves the cells, the amphipods and a cost no lower are kept. */
  lemma {:induction false} TraceConserves(pathMap: map<nat, seq<Path>>, t: seq<Grid>)
    requires PathMapOk(pathMap) && Trace(pathMap, t) && |t[0].state| == Cells
    ensures Conserves(t[0], t[|t| - 1])
    decreases |t|
  {
    if |t| > 1 {
      var s := t[..|t| - 1];
      assert Trace(pathMap, s) by {
        forall k | 0 <= k < |s| - 1
          ensures MoveStep(pathMap, s[k], s[k + 1])
        {
          assert s[k] == t[k] && s[k + 1] == t[k + 1];
        }
      }
      TraceConserves(pathMap, s);
      var g := t[|t| - 2];
      assert MoveStep(pathMap, g, t[|t| - 1]);
      var m :| m in ValidMoves(g.state, pathMap, Cells) && m.start < Cells && m.end < Cells && t[|t| - 1] == Apply(g, m);
      var _ := ValidMoveSound(g.state, pathMap, m);
      ApplyConserves(g, m);
    }
  }

  /** A reachable grid conserves the cells and amphipods of the start, at no lower cost. */
  lemma ReachableConserves(pathMap: map<nat, seq<Path>>, init: Grid, g: Grid)
    requires PathMapOk(pathMap) && |init.state| == Cells && Reachable(pathMap, init, g)
    ensures Conserves(init, g)
  {
    var t :| Trace(pathMap, t) && t[0] == init && t[|t| - 1] == g;
    TraceConserves(pathMap, t);
  }

  /** Each successor generated from a descendant of the start is one too. */
  lemma SuccessorsReachable(pathMap: map<nat, seq<Path>>, init: Grid, g: Grid, nexts: seq<Grid>)
    requires Descends(pathMap, init, g) && PathMapOk(pathMap)
    requires forall m :: m in ValidMoves(g.state, pathMap, Cells) ==> m.start < Cells && m.end < Cells
    requires |nexts| == |ValidMoves(g.state, pathMap, Cells)|
    requires forall k :: 0 <= k < |nexts| ==> nexts[k] == Apply(g, ValidMoves(g.state, pathMap, Cells)[k])
    ensures forall k :: 0 <= k < |nexts| ==> Descends(pathMap, init, nexts[k])
  {
    var moves := ValidMoves(g.state, pathMap, Cells);
    forall k | 0 <= k < |nexts|
      ensures Descends(pathMap, init, nexts[k])
    {
      assert moves[k] in moves;
      var _ := ValidMoveSound(g.state, pathMap, moves[k]);
      ApplyConserves(g, moves[k]);
      ReachableMove(pathMap, init, g, moves[k]);
    }
  }

  /** The successors of one popped grid: `generate_from_moves` over `get_valid_moves`. */
  method Successors(ghost init: Grid, current: Grid, pathMap: map<nat, seq<Path>>) returns (nexts: seq<Grid>)
    requires Descends(pathMap, init, current) && PathMapOk(pathMap)
    ensures |nexts| == |ValidMoves(current.state, pathMap, Cells)|
    ensures forall k :: 0 <= k < |nexts| ==> Descends(pathMap, init, nexts[k])
  {
    var moves := GetValidMoves(current, pathMap);
    forall m | m in moves ensures m.start < Cells && m.end < Cells {
      var _ := ValidMoveSound(current.state, pathMap, m);
    }
    nexts := GenerateFromMoves(current, moves);
    SuccessorsReachable(pathMap, init, current, nexts);
  }

  /** Every grid on a heap descends from the start; removing one keeps that. */
  lemma HeapRemove(pathMap: map<nat, seq<Path>>, init: Grid, heap: seq<Grid>, i: nat)
    requires i < |heap| && forall g :: g in heap ==> Descends(pathMap, init, g)
    ensures Descends(pathMap, init, heap[i])
    ensures forall g :: g in heap[..i] + heap[i + 1..] ==> Descends(pathMap, init, g)
  {
    assert forall g :: g in heap[..i] + heap[i + 1..] ==> g in heap;
  }

  /** Pushing descendants onto a heap of descendants keeps every grid a descendant. */
  lemma HeapPush(pathMap: map<nat, seq<Path>>, init: Grid, heap: seq<Grid>, nexts: seq<Grid>, heap': seq<Grid>)
    requires forall g :: g in heap ==> Descends(pathMap, init, g)
    requires forall k :: 0 <= k < |nexts| ==> Descends(pathMap, init, nexts[k])
    requires forall g :: g in heap' ==> g in heap || g in nexts
    ensures forall g :: g in heap' ==> Descends(pathMap, init, g)
  {
  }

  /** The log of expanded grids: each a descendant, unsolved, no dearer than the best cost then, which the best cost now does not exceed. */
  ghost predicate Logged(pathMap: map<nat, seq<Path>>, init: Grid, expanded: seq<Grid>, bounds: seq<nat>, best: nat) {
    |bounds| == |expanded| &&
    forall k :: 0 <= k < |expanded| ==>
      Descends(pathMap, init, expanded[k]) && !IsSolved(expanded[k].state) &&
      expanded[k].cost <= bounds[k] && best <= bounds[k]
  }

  lemma LogAppend(pathMap: map<nat, seq<Path>>, init: Grid, expanded: seq<Grid>, bounds: seq<nat>, best: nat, g: Grid)
    requires Logged(pathMap, init, expanded, bounds, best)
    requires Descends(pathMap, init, g) && !IsSolved(g.state) && g.cost <= best
    ensures Logged(pathMap, init, expanded + [g], bounds + [best], best)
  {
  }

  lemma LogContents(pathMap: map<nat, seq<Path>>, init: Grid, expanded: seq<Grid>, bounds: seq<nat>, best: nat)
    requires Logged(pathMap, init, expanded, bounds, best)
    ensures |bounds| == |expanded|
    ensures forall k :: 0 <= k < |expanded| ==>
              Descends(pathMap, init, expanded[k]) && !IsSolved(expanded[k].state) &&
              expanded[k].cost <= bounds[k] && best <= bounds[k]
  {
  }

  lemma LogLower(pathMap: map<nat, seq<Path>>, init: Grid, expanded: seq<Grid>, bounds: seq<nat>, best: nat, best': nat)
    requires Logged(pathMap, init, expanded, bounds, best) && best' <= best
    ensures Logged(pathMap, init, expanded, bounds, best')
  {
  }

  /**
   * Whether the inner loop of `solution` pushes `nexts[k]`: it must be cheaper
   * than the best cost, and when its occupancy is listed, cheaper than the
   * listed cost and than every earlier successor with the same occupancy.
   */
  predicate Kept(considered: map<seq<Amphipod>, nat>, nexts: seq<Grid>, best: nat, k: nat)
    requires k < |nexts|
  {
    nexts[k].cost < best &&
    (nexts[k].state in considered ==>
       nexts[k].cost < considered[nexts[k].state] &&
       forall j :: 0 <= j < k && nexts[j].state == nexts[k].state ==> nexts[k].cost < nexts[j].cost)
  }

  /** The kept successors among the first `n`, in their order. */
  function KeptPrefix(considered: map<seq<Amphipod>, nat>, nexts: seq<Grid>, best: nat, n: nat): (r: seq<Grid>)
    requires n <= |nexts|
    ensures forall g :: g in r ==> g in nexts && g.cost < best
  {
    if n == 0 then []
    else KeptPrefix(considered, nexts, best, n - 1) + if Kept(considered, nexts, best, n - 1) then [nexts[n - 1]] else []
  }

  /** Each kept successor among the first `n` is in their kept prefix, and nothing else is. */
  lemma {:induction false} KeptListed(considered: map<seq<Amphipod>, nat>, nexts: seq<Grid>, best: nat, n: nat)
    requires n <= |nexts|
    ensures forall k :: 0 <= k < n && Kept(considered, nexts, best, k) ==> nexts[k] in KeptPrefix(considered, nexts, best, n)
    ensures forall g :: g in KeptPrefix(considered, nexts, best, n) ==> exists k :: 0 <= k < n && Kept(considered, nexts, best, k) && g == nexts[k]
  {
    if n > 0 {
      KeptListed(considered, nexts, best, n - 1);
      var kept := KeptPrefix(considered, nexts, best, n);
      assert forall g :: g in KeptPrefix(considered, nexts, best, n - 1) ==> g in kept;
    }
  }

  /**
   * The lowest cost listed for occupancy `s` after the first `n` successors:
   * no higher than the listed cost and than each such successor's cost, and
   * equal to one of them.
   */
  predicate LowestAfter(considered: map<seq<Amphipod>, nat>, nexts: seq<Grid>, n: nat, s: seq<Amphipod>, cost: nat)
    requires n <= |nexts| && s in considered
  {
    cost <= considered[s] &&
    (forall j :: 0 <= j < n && nexts[j].state == s ==> cost <= nexts[j].cost) &&
    (cost == considered[s] || exists j :: 0 <= j < n && nexts[j].state == s && cost == nexts[j].cost)
  }

  /** The table lists the same occupancies, each at its lowest cost after the first `n` successors. */
  predicate LowestTable(considered: map<seq<Amphipod>, nat>, nexts: seq<Grid>, n: nat, table: map<seq<Amphipod>, nat>)
    requires n <= |nexts|
  {
    table.Keys == considered.Keys && forall s :: s in considered ==> LowestAfter(considered, nexts, n, s, table[s])
  }

  /** One more successor: the lowest listed cost moves to it exactly when it is cheaper. */
  lemma LowestStep(considered: map<seq<Amphipod>, nat>, nexts: seq<Grid>, k: nat, s: seq<Amphipod>, cost: nat)
    requires k < |nexts| && s in considered && LowestAfter(considered, nexts, k, s, cost)
    ensures nexts[k].state == s ==>
              (nexts[k].cost < cost <==>
                 nexts[k].cost < considered[s] && forall j :: 0 <= j < k && nexts[j].state == s ==> nexts[k].cost < nexts[j].cost)
    ensures nexts[k].state == s && nexts[k].cost < cost ==> LowestAfter(considered, nexts, k + 1, s, nexts[k].cost)
    ensures !(nexts[k].state == s && nexts[k].cost < cost) ==> LowestAfter(considered, nexts, k + 1, s, cost)
  {
    if nexts[k].state == s && nexts[k].cost >= cost {
      if cost != considered[s] {
        var j :| 0 <= j < k && nexts[j].state == s && cost == nexts[j].cost;
        assert nexts[k].cost >= nexts[j].cost;
      }
    }
  }

  /** One turn of the inner loop keeps the table at the lowest costs, and pushes exactly the kept successor. */
  lemma TableStep(considered: map<seq<Amphipod>, nat>, nexts: seq<Grid>, best: nat, k: nat, table: map<seq<Amphipod>, nat>)
    requires k < |nexts| && LowestTable(considered, nexts, k, table)
    ensures var next := nexts[k];
            var table' := if next.state in table && next.cost < table[next.state] then table[next.state := next.cost] else table;
            LowestTable(considered, nexts, k + 1, table')
    ensures Kept(considered, nexts, best, k) <==>
              nexts[k].cost < best && (nexts[k].state in table ==> nexts[k].cost < table[nexts[k].state])
    ensures KeptPrefix(considered, nexts, best, k + 1) ==
              KeptPrefix(considered, nexts, best, k) + if Kept(considered, nexts, best, k) then [nexts[k]] else []
  {
    var next := nexts[k];
    var table' := if next.state in table && next.cost < table[next.state] then table[next.state := next.cost] else table;
    forall s | s in considered
      ensures LowestAfter(considered, nexts, k + 1, s, table'[s])
    {
      LowestStep(considered, nexts, k, s, table[s]);
    }
    if next.state in considered {
      LowestStep(considered, nexts, k, next.state, table[next.state]);
    }
  }

  /**
   * The inner loop of `solution`: a successor whose occupancy is listed at a
   * cost no higher is skipped, a cheaper one lowers the listed cost, and the
   * successor is pushed when cheaper than the best so far. Occupancies not yet
   * listed are not added to the table.
   */
  method PushSuccessors(heap: seq<Grid>, considered: map<seq<Amphipod>, nat>, nexts: seq<Grid>, best: nat)
    returns (heap': seq<Grid>, considered': map<seq<Amphipod>, nat>)
    ensures heap' == heap + KeptPrefix(considered, nexts, best, |nexts|)
    ensures forall k :: 0 <= k < |nexts| && Kept(considered, nexts, best, k) ==> nexts[k] in heap'
    ensures forall g :: g in heap' ==> g in heap || (g in nexts && g.cost < best)
    ensures considered'.Keys == considered.Keys
    ensures forall s :: s in considered ==> LowestAfter(considered, nexts, |nexts|, s, considered'[s])
  {
    heap', considered' := heap, considered;
    for k := 0 to |nexts|
      invariant heap' == heap + KeptPrefix(considered, nexts, best, k)
      invariant LowestTable(considered, nexts, k, considered')
    {
      var next := nexts[k];
      TableStep(considered, nexts, best, k, considered');
      if next.state in considered' {
        var lowestCost := considered'[next.state];
        if next.cost < lowestCost {
          considered' := considered'[next.state := next.cost];
        } else {
          continue;
        }
      }
      if next.cost < best {
        heap' := heap' + [next];
      }
    }
    KeptListed(considered, nexts, best, |nexts|);
  }

  /**
   * `solution`: best-first search over grids. A popped grid is recorded in the
   * visited table with its cost; a solved grid can only lower the best cost and
   * is not expanded, nor is a grid dearer than the best cost. A successor whose
   * occupancy was seen at a cost no higher is dropped; the others are queued
   * when cheaper than the best cost. `fuel` bounds the number of pops.
   *
   * The answer is `UsizeMax` or the cost of a solved grid with the same
   * amphipods; the ghost log lists every expanded grid with the best cost at
   * the moment it was expanded.
   */
  method Solve(init: Grid, pathMap: map<nat, seq<Path>>, fuel: nat)
    returns (best: nat, ghost winner: Grid, ghost expanded: seq<Grid>, ghost bounds: seq<nat>)
    requires |init.state| == Cells && PathMapOk(pathMap)
    ensures best <= UsizeMax
    ensures best < UsizeMax ==> Descends(pathMap, init, winner) && IsSolved(winner.state) && winner.cost == best
    ensures |bounds| == |expanded|
    ensures forall k :: 0 <= k < |expanded| ==>
              Descends(pathMap, init, expanded[k]) && !IsSolved(expanded[k].state) &&
              expanded[k].cost <= bounds[k] && best <= bounds[k]
  {
    best := UsizeMax;
    winner := init;
    expanded, bounds := [], [];
    ReachableStart(pathMap, init);
    assert Logged(pathMap, init, expanded, bounds, best);
    var heap: seq<Grid> := [init];
    var considered: map<seq<Amphipod>, nat> := map[];
    var pops := 0;
    while heap != [] && pops < fuel
      invariant forall g :: g in heap ==> Descends(pathMap, init, g)
      invariant best <= UsizeMax
      invariant best < UsizeMax ==> Descends(pathMap, init, winner) && IsSolved(winner.state) && winner.cost == best
      invariant Logged(pathMap, init, expanded, bounds, best)
      decreases fuel - pops
    {
      var i := PopIndex(heap, Priority);
      var current := heap[i];
      HeapRemove(pathMap, init, heap, i);
      heap := heap[..i] + heap[i + 1..];
      pops := pops + 1;
      considered := considered[current.state := current.cost];

      if IsSolved(current.state) {
        if current.cost < best {
          LogLower(pathMap, init, expanded, bounds, best, current.cost);
          best := current.cost;
          winner := current;
        }
        continue;
      }
      if current.cost > best {
        continue;
      }
      LogAppend(pathMap, init, expanded, bounds, best, current);
      expanded, bounds := expanded + [current], bounds + [best];

      var nexts := Successors(init, current, pathMap);
      ghost var before := heap;
      heap, considered := PushSuccessors(heap, considered, nexts, best);
      HeapPush(pathMap, init, before, nexts, heap);
    }
    LogContents(pathMap, init, expanded, bounds, best);
  }
}

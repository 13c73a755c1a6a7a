/**
 * The two-slot amphipod burrow (day23_a.rs): 15 cells, the seven hallway cells
 * 0..6 and the rooms A1, A2 = 7, 8, B1, B2 = 9, 10, C1, C2 = 11, 12 and
 * D1, D2 = 13, 14, slot 1 nearest the hallway.
 */
module BurrowShallow {
  import opened Burrow

  const Cells: nat := 15

  /** `connecting_rooms`: the neighbours of every cell with the step count to each. */
  function ConnectingRooms(r: nat): (edges: seq<Edge>)
    requires r < Cells
  {
    match r
    case 0 => [Edge(1, 1)]
    case 1 => [Edge(0, 1), Edge(7, 2), Edge(2, 2)]
    case 2 => [Edge(1, 2), Edge(7, 2), Edge(9, 2), Edge(3, 2)]
    case 3 => [Edge(2, 2), Edge(9, 2), Edge(11, 2), Edge(4, 2)]
    case 4 => [Edge(3, 2), Edge(11, 2), Edge(13, 2), Edge(5, 2)]
    case 5 => [Edge(4, 2), Edge(13, 2), Edge(6, 1)]
    case 6 => [Edge(5, 1)]
    case 7 => [Edge(8, 1), Edge(1, 2), Edge(2, 2)]
    case 8 => [Edge(7, 1)]
    case 9 => [Edge(10, 1), Edge(2, 2), Edge(3, 2)]
    case 10 => [Edge(9, 1)]
    case 11 => [Edge(12, 1), Edge(3, 2), Edge(4, 2)]
    case 12 => [Edge(11, 1)]
    case 13 => [Edge(14, 1), Edge(4, 2), Edge(5, 2)]
    case _ => [Edge(13, 1)]
  }

  function Table(): (adj: Adjacency)
    ensures |adj| == Cells
  {
    seq(Cells, r requires 0 <= r < Cells => ConnectingRooms(r))
  }

  /** One row of the table: targets in range and distinct, and each edge listed back with its cost. */
  lemma RowShape(i: nat)
    requires i < Cells
    ensures forall k :: 0 <= k < |ConnectingRooms(i)| ==>
              ConnectingRooms(i)[k].room < Cells &&
              Edge(i, ConnectingRooms(i)[k].cost) in ConnectingRooms(ConnectingRooms(i)[k].room)
    ensures forall j, k :: 0 <= j < k < |ConnectingRooms(i)| ==> ConnectingRooms(i)[j].room != ConnectingRooms(i)[k].room
  {
  }

  /** The table is well formed, lists no neighbour twice and is symmetric. */
  lemma TableShape()
    ensures WellFormed(Table()) && DistinctTargets(Table()) && Symmetric(Table())
  {
    forall i | 0 <= i < Cells
      ensures forall k :: 0 <= k < |Table()[i]| ==>
                Table()[i][k].room < Cells && Edge(i, Table()[i][k].cost) in Table()[Table()[i][k].room]
      ensures forall j, k :: 0 <= j < k < |Table()[i]| ==> Table()[i][j].room != Table()[i][k].room
    {
      RowShape(i);
      assert Table()[i] == ConnectingRooms(i);
      forall k | 0 <= k < |Table()[i]| ensures Table()[Table()[i][k].room] == ConnectingRooms(Table()[i][k].room) {
      }
    }
  }

  /** A spanning tree of the table: every cell but 0 hangs below a lower-numbered neighbour. */
  const Parents: seq<nat> := [0, 0, 1, 2, 3, 4, 5, 1, 7, 2, 9, 3, 11, 4, 13]

  lemma TableParents()
    ensures ParentTable(Table(), Parents)
  {
    var index := [0, 0, 2, 3, 3, 3, 2, 1, 0, 2, 0, 2, 0, 2, 0];
    forall c | 1 <= c < Cells
      ensures Parents[c] < c && exists k :: 0 <= k < |Table()[Parents[c]]| && Table()[Parents[c]][k].room == c
    {
      assert Table()[Parents[c]] == ConnectingRooms(Parents[c]);
      assert Table()[Parents[c]][index[c]].room == c;
    }
  }

  /** Every cell can reach every other: the search always finds a route. */
  lemma TableConnected()
    ensures Connected(Table())
  {
    TableShape();
    TableParents();
    ConnectedByParents(Table(), Parents);
  }

  /** The path table built by `get_path_map` over this burrow's table. */
  ghost predicate PathMapOk(pathMap: map<nat, seq<Path>>) {
    (forall r: nat :: r in pathMap <==> r < Cells) &&
    forall r :: r in pathMap ==> PathsFrom(Table(), r, Cells, pathMap[r])
  }

  /** `get_path_map` for this burrow: one route from every cell to every non-hallway-pair cell. */
  method PathMap() returns (pathMap: map<nat, seq<Path>>)
    ensures PathMapOk(pathMap)
    ensures forall r :: r in pathMap ==> forall k :: 0 <= k < |pathMap[r]| ==> IsRoute(Table(), pathMap[r][k])
  {
    TableShape();
    TableConnected();
    pathMap := GetPathMap(Table());
  }

  lemma ListedPathStart(pathMap: map<nat, seq<Path>>, i: nat, p: Path)
    requires PathMapOk(pathMap) && i < Cells && p in pathMap[i]
    ensures p.start == i && IsRoute(Table(), p) && p.end < Cells
  {
    TableConnected();
    var k :| 0 <= k < |pathMap[i]| && pathMap[i][k] == p;
    assert PathsFrom(Table(), i, Cells, pathMap[i]);
    assert p.end in Ends(Cells, i);
  }

  // ---------------------------------------------------------------------------
  // Legality of a move.

  /** `Room::is_matching_type`: `r` is a slot of the home room of `a`; never for an empty cell. */
  predicate IsMatchingType(r: nat, a: Amphipod) {
    match a
    case Empty => false
    case Amber => r == 7 || r == 8
    case Bronze => r == 9 || r == 10
    case Copper => r == 11 || r == 12
    case Desert => r == 13 || r == 14
  }

  /** `Room::is_2nd_room`: the slot farther from the hallway. */
  predicate IsSecondRoom(r: nat) {
    r == 8 || r == 10 || r == 12 || r == 14
  }

  /** `Room::is_first_room`-cells: the slot next to the hallway, whose `get_second_room` is the next cell. */
  predicate IsFirstRoom(r: nat) {
    r == 7 || r == 9 || r == 11 || r == 13
  }

  /** `room_is_empty` over a whole route (start excluded, end included). */
  predicate RouteIsEmpty(state: seq<Amphipod>, route: seq<nat>) {
    forall k :: 0 <= k < |route| ==> route[k] < |state| && state[route[k]] == Empty
  }

  /**
   * `Path::is_valid`: an amphipod in the 2nd slot of its home room, or in the
   * 1st slot above a correct 2nd slot, stays put; every route cell must be
   * empty; a hallway destination is allowed; a room destination must be the
   * mover's home room, either its 2nd slot or its 1st slot above a same-kind
   * 2nd slot.
   */
  predicate IsValid(state: seq<Amphipod>, p: Path, a: Amphipod)
    requires |state| == Cells && p.start < Cells && p.end < Cells
  {
    if IsMatchingType(p.start, a) && (IsSecondRoom(p.start) || IsMatchingType(p.start + 1, state[p.start + 1])) then false
    else if !RouteIsEmpty(state, p.route) then false
    else if IsHall(p.end) then true
    else if !IsMatchingType(p.end, a) then false
    else if IsSecondRoom(p.end) then true
    else IsMatchingType(p.end, state[p.end + 1])
  }

  /** The rules of `Path::is_valid`, each as the source's comments state it. */
  lemma ValidPathRules(state: seq<Amphipod>, p: Path, a: Amphipod)
    requires |state| == Cells && p.start < Cells && p.end < Cells && a != Empty
    ensures IsMatchingType(p.start, a) && IsSecondRoom(p.start) ==> !IsValid(state, p, a)
    ensures IsMatchingType(p.start, a) && IsFirstRoom(p.start) && state[p.start + 1] == a ==> !IsValid(state, p, a)
    ensures (exists k :: 0 <= k < |p.route| && p.route[k] < Cells && state[p.route[k]] != Empty) ==> !IsValid(state, p, a)
    ensures IsValid(state, p, a) && !IsHall(p.end) ==>
              IsMatchingType(p.end, a) && (IsSecondRoom(p.end) || (IsFirstRoom(p.end) && state[p.end + 1] == a))
    ensures !IsMatchingType(p.start, a) && RouteIsEmpty(state, p.route) && IsHall(p.end) ==> IsValid(state, p, a)
  {
    if IsValid(state, p, a) && !IsHall(p.end) && !IsSecondRoom(p.end) {
      assert IsFirstRoom(p.end);
      assert IsMatchingType(p.end, state[p.end + 1]);
      assert IsMatchingType(p.end + 1, a);
    }
  }

  // ---------------------------------------------------------------------------
  // Move generation.

  /** The filter and map of `get_valid_moves` over the path list of one cell. */
  function MovesFor(state: seq<Amphipod>, paths: seq<Path>, a: Amphipod): seq<Move>
    requires |state| == Cells
    requires forall p :: p in paths ==> p.start < Cells && p.end < Cells
  {
    if paths == [] then []
    else
      var p := paths[|paths| - 1];
      MovesFor(state, paths[..|paths| - 1], a) +
      (if IsValid(state, p, a) then [Move(p.start, p.end, MoveCost(p.dist, a))] else [])
  }

  /** Every cell's paths stay inside the burrow. */
  ghost predicate PathsInside(pathMap: map<nat, seq<Path>>) {
    (forall r: nat :: r < Cells ==> r in pathMap) &&
    forall r, p :: r in pathMap && p in pathMap[r] ==> p.start < Cells && p.end < Cells
  }

  /** The moves of every occupied cell below `n`, in cell order, before the homeward filter. */
  function AllMoves(state: seq<Amphipod>, pathMap: map<nat, seq<Path>>, n: nat): seq<Move>
    requires |state| == Cells && n <= Cells && PathsInside(pathMap)
  {
    if n == 0 then []
    else
      AllMoves(state, pathMap, n - 1) +
      (if state[n - 1] == Empty then [] else MovesFor(state, pathMap[n - 1], state[n - 1]))
  }

  /** A move that takes its mover into its home room. */
  predicate Homeward(state: seq<Amphipod>, m: Move)
    requires |state| == Cells && m.start < Cells
  {
    IsMatchingType(m.end, state[m.start])
  }

  /** The homeward moves of a list, in order. */
  function HomewardOnly(state: seq<Amphipod>, moves: seq<Move>): (r: seq<Move>)
    requires |state| == Cells && forall m :: m in moves ==> m.start < Cells
    ensures forall m :: m in r <==> m in moves && Homeward(state, m)
    ensures (forall m :: m in moves ==> !Homeward(state, m)) ==> r == []
  {
    if moves == [] then []
    else
      var rest := HomewardOnly(state, moves[1..]);
      assert forall m :: m in moves[1..] ==> m in moves;
      assert forall m :: m in moves ==> m == moves[0] || m in moves[1..];
      if Homeward(state, moves[0]) then [moves[0]] + rest else rest
  }

  /** `get_valid_moves`: all valid moves, or only the homeward ones when there is any. */
  function ValidMoves(state: seq<Amphipod>, pathMap: map<nat, seq<Path>>): seq<Move>
    requires |state| == Cells && PathsInside(pathMap)
  {
    var all := AllMoves(state, pathMap, Cells);
    AllMovesInside(state, pathMap, Cells);
    var home := HomewardOnly(state, all);
    if home != [] then home else all
  }

  lemma {:induction false} AllMovesInside(state: seq<Amphipod>, pathMap: map<nat, seq<Path>>, n: nat)
    requires |state| == Cells && n <= Cells && PathsInside(pathMap)
    ensures forall m :: m in AllMoves(state, pathMap, n) ==> m.start < Cells && m.end < Cells
  {
    if n > 0 {
      AllMovesInside(state, pathMap, n - 1);
      MovesForInside(state, pathMap[n - 1], if state[n - 1] == Empty then Amber else state[n - 1]);
    }
  }

  lemma {:induction false} MovesForInside(state: seq<Amphipod>, paths: seq<Path>, a: Amphipod)
    requires |state| == Cells
    requires forall p :: p in paths ==> p.start < Cells && p.end < Cells
    ensures forall m :: m in MovesFor(state, paths, a) ==> m.start < Cells && m.end < Cells
  {
    if paths != [] {
      assert forall p :: p in paths[..|paths| - 1] ==> p in paths;
      MovesForInside(state, paths[..|paths| - 1], a);
    }
  }

  /** Every move listed for a path list comes from one of its paths that `Path::is_valid` allows. */
  lemma {:induction false} MovesForSource(state: seq<Amphipod>, paths: seq<Path>, a: Amphipod, m: Move)
    returns (p: Path)
    requires |state| == Cells
    requires forall p :: p in paths ==> p.start < Cells && p.end < Cells
    requires m in MovesFor(state, paths, a)
    ensures p in paths && IsValid(state, p, a) && m == Move(p.start, p.end, MoveCost(p.dist, a))
  {
    var init := paths[..|paths| - 1];
    assert paths == init + [paths[|paths| - 1]];
    if m in MovesFor(state, init, a) {
      p := MovesForSource(state, init, a, m);
    } else {
      p := paths[|paths| - 1];
    }
  }

  /** Every path that `Path::is_valid` allows gives a listed move. */
  lemma {:induction false} MovesForHas(state: seq<Amphipod>, paths: seq<Path>, a: Amphipod, p: Path)
    requires |state| == Cells
    requires forall p :: p in paths ==> p.start < Cells && p.end < Cells
    requires p in paths && IsValid(state, p, a)
    ensures Move(p.start, p.end, MoveCost(p.dist, a)) in MovesFor(state, paths, a)
  {
    var init := paths[..|paths| - 1];
    assert paths == init + [paths[|paths| - 1]];
    if p != paths[|paths| - 1] {
      MovesForHas(state, init, a, p);
    }
  }

  lemma {:induction false} AllMovesSource(state: seq<Amphipod>, pathMap: map<nat, seq<Path>>, n: nat, m: Move)
    returns (i: nat)
    requires |state| == Cells && n <= Cells && PathsInside(pathMap)
    requires m in AllMoves(state, pathMap, n)
    ensures i < n && state[i] != Empty && m in MovesFor(state, pathMap[i], state[i])
  {
    if m in AllMoves(state, pathMap, n - 1) {
      i := AllMovesSource(state, pathMap, n - 1, m);
    } else {
      i := n - 1;
    }
  }

  lemma {:induction false} AllMovesHas(state: seq<Amphipod>, pathMap: map<nat, seq<Path>>, n: nat, i: nat, m: Move)
    requires |state| == Cells && n <= Cells && PathsInside(pathMap)
    requires i < n && state[i] != Empty && m in MovesFor(state, pathMap[i], state[i])
    ensures m in AllMoves(state, pathMap, n)
  {
    if i < n - 1 {
      AllMovesHas(state, pathMap, n - 1, i, m);
    }
  }

  lemma PathMapInside(pathMap: map<nat, seq<Path>>)
    requires PathMapOk(pathMap)
    ensures PathsInside(pathMap)
  {
    forall r, p | r in pathMap && p in pathMap[r] ensures p.start < Cells && p.end < Cells {
      ListedPathStart(pathMap, r, p);
    }
  }

  /**
   * Every move before the homeward filter starts at an occupied cell and ends at
   * a different, empty cell, allowed by `Path::is_valid` and priced at a route's
   * length times the mover's step cost.
   */
  lemma AllMoveSound(state: seq<Amphipod>, pathMap: map<nat, seq<Path>>, m: Move) returns (p: Path)
    requires |state| == Cells && PathMapOk(pathMap)
    requires PathsInside(pathMap) && m in AllMoves(state, pathMap, Cells)
    ensures m.start < Cells && m.end < Cells && m.start != m.end
    ensures state[m.start] != Empty && state[m.end] == Empty
    ensures p in pathMap[m.start] && IsRoute(Table(), p) && p.start == m.start && p.end == m.end
    ensures IsValid(state, p, state[m.start]) && m.cost == MoveCost(p.dist, state[m.start])
  {
    var i := AllMovesSource(state, pathMap, Cells, m);
    p := MovesForSource(state, pathMap[i], state[i], m);
    ListedPathStart(pathMap, i, p);
    assert p.route[|p.route| - 1] == p.end;
  }

  /** Conversely, every path that `Path::is_valid` allows from an occupied cell is a move before the filter. */
  lemma AllMoveComplete(state: seq<Amphipod>, pathMap: map<nat, seq<Path>>, i: nat, p: Path)
    requires |state| == Cells && PathMapOk(pathMap) && PathsInside(pathMap)
    requires i < Cells && state[i] != Empty && p in pathMap[i] && IsValid(state, p, state[i])
    ensures Move(i, p.end, MoveCost(p.dist, state[i])) in AllMoves(state, pathMap, Cells)
  {
    ListedPathStart(pathMap, i, p);
    MovesForHas(state, pathMap[i], state[i], p);
    AllMovesHas(state, pathMap, Cells, i, Move(i, p.end, MoveCost(p.dist, state[i])));
  }

  /**
   * The homeward filter: when some valid move takes its mover home, exactly the
   * homeward valid moves are returned; otherwise all valid moves are.
   */
  lemma HomewardFilter(state: seq<Amphipod>, pathMap: map<nat, seq<Path>>)
    requires |state| == Cells && PathsInside(pathMap)
    ensures var all := AllMoves(state, pathMap, Cells);
            (exists m :: m in all && m.start < Cells && IsMatchingType(m.end, state[m.start])) ==>
              forall m :: m in ValidMoves(state, pathMap) <==> m in all && m.start < Cells && IsMatchingType(m.end, state[m.start])
    ensures var all := AllMoves(state, pathMap, Cells);
            (forall m :: m in all && m.start < Cells ==> !IsMatchingType(m.end, state[m.start])) ==> ValidMoves(state, pathMap) == all
  {
    var all := AllMoves(state, pathMap, Cells);
    AllMovesInside(state, pathMap, Cells);
    if exists m :: m in all && m.start < Cells && IsMatchingType(m.end, state[m.start]) {
      var m :| m in all && m.start < Cells && IsMatchingType(m.end, state[m.start]);
      assert m in HomewardOnly(state, all);
    }
  }

  /** Every returned move is valid, conserves the amphipods and lands on an empty cell. */
  lemma ValidMoveSound(state: seq<Amphipod>, pathMap: map<nat, seq<Path>>, m: Move) returns (p: Path)
    requires |state| == Cells && PathMapOk(pathMap)
    requires PathsInside(pathMap) && m in ValidMoves(state, pathMap)
    ensures m.start < Cells && m.end < Cells && m.start != m.end
    ensures state[m.start] != Empty && state[m.end] == Empty
    ensures p in pathMap[m.start] && IsRoute(Table(), p) && p.start == m.start && p.end == m.end
    ensures IsValid(state, p, state[m.start]) && m.cost == MoveCost(p.dist, state[m.start])
  {
    HomewardFilter(state, pathMap);
    assert m in AllMoves(state, pathMap, Cells);
    p := AllMoveSound(state, pathMap, m);
  }

  /**
   * `get_valid_moves`: every path of every occupied cell that `Path::is_valid`
   * allows, priced at distance times the step cost; then, if any of them takes
   * its mover home, only those.
   */
  method GetValidMoves(g: Grid, pathMap: map<nat, seq<Path>>) returns (moves: seq<Move>)
    requires |g.state| == Cells && PathsInside(pathMap)
    ensures moves == ValidMoves(g.state, pathMap)
  {
    moves := [];
    for i := 0 to Cells
      invariant moves == AllMoves(g.state, pathMap, i)
    {
      var amphipod := g.state[i];
      if amphipod == Empty {
        continue;
      }
      var paths := pathMap[i];
      var valid: seq<Move> := [];
      for j := 0 to |paths|
        invariant valid == MovesFor(g.state, paths[..j], amphipod)
      {
        var path := paths[j];
        assert paths[..j + 1][..j] == paths[..j];
        assert path in paths;
        if IsValid(g.state, path, amphipod) {
          valid := valid + [Move(path.start, path.end, MoveCost(path.dist, amphipod))];
        }
      }
      assert paths[..|paths|] == paths;
      moves := moves + valid;
    }
    AllMovesInside(g.state, pathMap, Cells);
    var home := HomewardOnly(g.state, moves);
    if home != [] {
      moves := home;
    }
  }

  // ---------------------------------------------------------------------------
  // Goal test and the heap priority.

  /** The home kind of a room slot. */
  function HomeOf(r: nat): Amphipod
    requires 7 <= r < Cells
  {
    if r <= 8 then Amber else if r <= 10 then Bronze else if r <= 12 then Copper else Desert
  }

  /** `is_solved`: all eight room slots hold their home kind. */
  predicate IsSolved(state: seq<Amphipod>)
    requires |state| == Cells
  {
    forall r :: 7 <= r < Cells ==> state[r] == HomeOf(r)
  }

  /** The score of one room in `num_correct`: 2 when both slots are right, 1 when only the 2nd is and the 1st is empty. */
  function RoomScore(state: seq<Amphipod>, first: nat, a: Amphipod): nat
    requires first + 1 < |state|
  {
    if state[first] == a && state[first + 1] == a then 2
    else if state[first] == Empty && state[first + 1] == a then 1
    else 0
  }

  /** `num_correct`: the heap priority, at most 8 and exactly 8 on a solved grid. */
  function NumCorrect(state: seq<Amphipod>): (n: nat)
    requires |state| == Cells
    ensures n <= 8
    ensures n == 8 <==> IsSolved(state)
  {
    RoomScore(state, 7, Amber) + RoomScore(state, 9, Bronze) +
    RoomScore(state, 11, Copper) + RoomScore(state, 13, Desert)
  }

  /** The heap ordering of `Ord for Grid`: `num_correct` first (grids of another size never occur). */
  function Priority(g: Grid): nat {
    if |g.state| == Cells then NumCorrect(g.state) else 0
  }

}

/**
 * The search of day23_a.rs over two-slot burrows: which grids it reaches, and
 * the best-first loop of `solution`.
 */
module BurrowShallowSearch {
  import opened Burrow
  import opened BurrowShallow


  /** Same cells, same amphipods, and at least the starting cost: what every move keeps. */
  ghost predicate Conserves(init: Grid, g: Grid) {
    |g.state| == Cells && multiset(g.state) == multiset(init.state) && g.cost >= init.cost
  }

  /** `h` is `g` after one of the moves `get_valid_moves` offers on it. */
  ghost predicate MoveStep(pathMap: map<nat, seq<Path>>, g: Grid, h: Grid) {
    PathsInside(pathMap) && |g.state| == Cells &&
    exists m :: m in ValidMoves(g.state, pathMap) && m.start < Cells && m.end < Cells && h == Apply(g, m)
  }

  /** Grids each reached from the one before by a valid move. */
  ghost predicate Trace(pathMap: map<nat, seq<Path>>, t: seq<Grid>) {
    |t| >= 1 && forall k :: 0 <= k < |t| - 1 ==> MoveStep(pathMap, t[k], t[k + 1])
  }

  /** `g` is reached from `init` by a sequence of valid moves, each adding its cost. */
  ghost predicate Reachable(pathMap: map<nat, seq<Path>>, init: Grid, g: Grid) {
    exists t :: Trace(pathMap, t) && t[0] == init && t[|t| - 1] == g
  }

  /** Reached by valid moves, with the cells and amphipods of the start and at least its cost. */
  ghost predicate Descends(pathMap: map<nat, seq<Path>>, init: Grid, g: Grid) {
    Reachable(pathMap, init, g) && Conserves(init, g)
  }

  lemma ReachableStart(pathMap: map<nat, seq<Path>>, init: Grid)
    ensures Reachable(pathMap, init, init)
  {
    assert Trace(pathMap, [init]);
  }

  /** A valid move from a reachable grid reaches another. */
  lemma ReachableMove(pathMap: map<nat, seq<Path>>, init: Grid, g: Grid, m: Move)
    requires Reachable(pathMap, init, g) && PathsInside(pathMap) && |g.state| == Cells
    requires m in ValidMoves(g.state, pathMap) && m.start < Cells && m.end < Cells
    ensures Reachable(pathMap, init, Apply(g, m))
  {
    var t :| Trace(pathMap, t) && t[0] == init && t[|t| - 1] == g;
    var t' := t + [Apply(g, m)];
    assert MoveStep(pathMap, g, Apply(g, m));
    assert forall k :: 0 <= k < |t| ==> t'[k] == t[k];
    assert Trace(pathMap, t');
  }

  /** Along a trace of valid moves the cells, the amphipods and a cost no lower are kept. */
  lemma {:induction false} TraceConserves(pathMap: map<nat, seq<Path>>, t: seq<Grid>)
    requires PathMapOk(pathMap) && Trace(pathMap, t) && |t[0].state| == Cells
    ensures Conserves(t[0], t[|t| - 1])
    decreases |t|
  {
    if |t| > 1 {
      var s := t[..|t| - 1];
      assert Trace(pathMap, s) by {
        forall k | 0 <= k < |s| - 1
          ensures MoveStep(pathMap, s[k], s[k + 1])
        {
          assert s[k] == t[k] && s[k + 1] == t[k + 1];
        }
      }
      TraceConserves(pathMap, s);
      var g := t[|t| - 2];
      assert MoveStep(pathMap, g, t[|t| - 1]);
      var m :| m in ValidMoves(g.state, pathMap) && m.start < Cells && m.end < Cells && t[|t| - 1] == Apply(g, m);
      var _ := ValidMoveSound(g.state, pathMap, m);
      ApplyConserves(g, m);
    }
  }

  /** A reachable grid conserves the cells and amphipods of the start, at no lower cost. */
  lemma ReachableConserves(pathMap: map<nat, seq<Path>>, init: Grid, g: Grid)
    requires PathMapOk(pathMap) && |init.state| == Cells && Reachable(pathMap, init, g)
    ensures Conserves(init, g)
  {
    var t :| Trace(pathMap, t) && t[0] == init && t[|t| - 1] == g;
    TraceConserves(pathMap, t);
  }

  /** Each successor generated from a reachable grid is reachable and conserves the start. */
  lemma SuccessorsReachable(pathMap: map<nat, seq<Path>>, init: Grid, g: Grid, nexts: seq<Grid>)
    requires Descends(pathMap, init, g) && PathMapOk(pathMap) && PathsInside(pathMap)
    requires |nexts| == |ValidMoves(g.state, pathMap)|
    requires forall k :: 0 <= k < |nexts| ==>
               var m := ValidMoves(g.state, pathMap)[k];
               m.start < Cells && m.end < Cells && nexts[k] == Apply(g, m)
    ensures forall k :: 0 <= k < |nexts| ==> Descends(pathMap, init, nexts[k])
  {
    var moves := ValidMoves(g.state, pathMap);
    forall k | 0 <= k < |nexts|
      ensures Descends(pathMap, init, nexts[k])
    {
      assert moves[k] in moves;
      var _ := ValidMoveSound(g.state, pathMap, moves[k]);
      ApplyConserves(g, moves[k]);
      ReachableMove(pathMap, init, g, moves[k]);
    }
  }

  /** Every grid on a heap descends from the start; removing one keeps that. */
  lemma HeapRemove(pathMap: map<nat, seq<Path>>, init: Grid, heap: seq<Grid>, i: nat)
    requires i < |heap| && forall g :: g in heap ==> Descends(pathMap, init, g)
    ensures Descends(pathMap, init, heap[i])
    ensures forall g :: g in heap[..i] + heap[i + 1..] ==> Descends(pathMap, init, g)
  {
    assert forall g :: g in heap[..i] + heap[i + 1..] ==> g in heap;
  }

  /** Pushing descendants onto a heap of descendants keeps every grid a descendant. */
  lemma HeapPush(pathMap: map<nat, seq<Path>>, init: Grid, heap: seq<Grid>, nexts: seq<Grid>, heap': seq<Grid>)
    requires forall g :: g in heap ==> Descends(pathMap, init, g)
    requires forall k :: 0 <= k < |nexts| ==> Descends(pathMap, init, nexts[k])
    requires forall g :: g in heap' ==> g in heap || g in nexts
    ensures forall g :: g in heap' ==> Descends(pathMap, init, g)
  {
  }

  /** The log of expanded grids: each a descendant, unsolved, no dearer than the best cost then, which the best cost now does not exceed. */
  ghost predicate Logged(pathMap: map<nat, seq<Path>>, init: Grid, expanded: seq<Grid>, bounds: seq<nat>, best: nat) {
    |bounds| == |expanded| &&
    forall k :: 0 <= k < |expanded| ==>
      Descends(pathMap, init, expanded[k]) && !IsSolved(expanded[k].state) &&
      expanded[k].cost <= bounds[k] && best <= bounds[k]
  }

  lemma LogAppend(pathMap: map<nat, seq<Path>>, init: Grid, expanded: seq<Grid>, bounds: seq<nat>, best: nat, g: Grid)
    requires Logged(pathMap, init, expanded, bounds, best)
    requires Descends(pathMap, init, g) && !IsSolved(g.state) && g.cost <= best
    ensures Logged(pathMap, init, expanded + [g], bounds + [best], best)
  {
  }

  lemma LogContents(pathMap: map<nat, seq<Path>>, init: Grid, expanded: seq<Grid>, bounds: seq<nat>, best: nat)
    requires Logged(pathMap, init, expanded, bounds, best)
    ensures |bounds| == |expanded|
    ensures forall k :: 0 <= k < |expanded| ==>
              Descends(pathMap, init, expanded[k]) && !IsSolved(expanded[k].state) &&
              expanded[k].cost <= bounds[k] && best <= bounds[k]
  {
  }

  lemma LogLower(pathMap: map<nat, seq<Path>>, init: Grid, expanded: seq<Grid>, bounds: seq<nat>, best: nat, best': nat)
    requires Logged(pathMap, init, expanded, bounds, best) && best' <= best
    ensures Logged(pathMap, init, expanded, bounds, best')
  {
  }

  /** The successors of one popped grid: `generate_from_moves` over `get_valid_moves`. */
  method Successors(ghost init: Grid, current: Grid, pathMap: map<nat, seq<Path>>) returns (nexts: seq<Grid>)
    requires Descends(pathMap, init, current) && PathMapOk(pathMap) && PathsInside(pathMap)
    ensures |nexts| == |ValidMoves(current.state, pathMap)|
    ensures forall k :: 0 <= k < |nexts| ==> Descends(pathMap, init, nexts[k])
  {
    var moves := GetValidMoves(current, pathMap);
    forall m | m in moves ensures m.start < Cells && m.end < Cells {
      var _ := ValidMoveSound(current.state, pathMap, m);
    }
    nexts := GenerateFromMoves(current, moves);
    SuccessorsReachable(pathMap, init, current, nexts);
  }

  /**
   * The inner loop of `solution`: a successor already listed at its own cost is
   * skipped, any other is listed and pushed when cheaper than the best so far.
   */
  method PushSuccessors(ghost init: Grid, heap: seq<Grid>, considered: map<Grid, nat>, nexts: seq<Grid>, best: nat)
    returns (heap': seq<Grid>, considered': map<Grid, nat>)
    requires forall g :: g in considered ==> considered[g] == g.cost
    ensures forall g :: g in considered' ==> considered'[g] == g.cost
    ensures forall g :: g in heap' <==> g in heap || (g in nexts && g !in considered && g.cost < best)
  {
    heap', considered' := heap, considered;
    for k := 0 to |nexts|
      invariant considered' == considered
      invariant forall g :: g in heap' <==> g in heap || (g in nexts[..k] && g !in considered && g.cost < best)
    {
      var next := nexts[k];
      assert nexts[..k + 1] == nexts[..k] + [next];
      if next in considered' {
        var lowestCost := considered'[next];
        assert lowestCost == next.cost;
        if next.cost < lowestCost {
          considered' := considered'[next := next.cost];
        } else {
          continue;
        }
      }
      if next.cost < best {
        heap' := heap' + [next];
      }
    }
    assert nexts[..|nexts|] == nexts;
  }

  /**
   * `solution`: best-first search over grids. Here the visited table is keyed
   * by the whole grid, occupancy and cost, since `Grid` derives its equality
   * (only the hash ignores the cost); so a listed successor always has exactly
   * the listed cost, and the "cheaper than before" branch never fires.
   * `fuel` bounds the number of pops.
   */
  method Solve(init: Grid, pathMap: map<nat, seq<Path>>, fuel: nat)
    returns (best: nat, ghost winner: Grid, ghost expanded: seq<Grid>, ghost bounds: seq<nat>)
    requires |init.state| == Cells && PathMapOk(pathMap)
    ensures best <= UsizeMax
    ensures best < UsizeMax ==> Descends(pathMap, init, winner) && IsSolved(winner.state) && winner.cost == best
    ensures |bounds| == |expanded|
    ensures forall k :: 0 <= k < |expanded| ==>
              Descends(pathMap, init, expanded[k]) && !IsSolved(expanded[k].state) &&
              expanded[k].cost <= bounds[k] && best <= bounds[k]
  {
    PathMapInside(pathMap);
    best := UsizeMax;
    winner := init;
    expanded, bounds := [], [];
    ReachableStart(pathMap, init);
    assert Logged(pathMap, init, expanded, bounds, best);
    var heap: seq<Grid> := [init];
    var considered: map<Grid, nat> := map[];
    var pops := 0;
    while heap != [] && pops < fuel
      invariant forall g :: g in heap ==> Descends(pathMap, init, g)
      invariant forall g :: g in considered ==> considered[g] == g.cost
      invariant best <= UsizeMax
      invariant best < UsizeMax ==> Descends(pathMap, init, winner) && IsSolved(winner.state) && winner.cost == best
      invariant Logged(pathMap, init, expanded, bounds, best)
      decreases fuel - pops
    {
      var i := PopIndex(heap, Priority);
      var current := heap[i];
      HeapRemove(pathMap, init, heap, i);
      heap := heap[..i] + heap[i + 1..];
      pops := pops + 1;
      considered := considered[current := current.cost];

      if IsSolved(current.state) {
        if current.cost < best {
          LogLower(pathMap, init, expanded, bounds, best, current.cost);
          best := current.cost;
          winner := current;
        }
        continue;
      }
      if current.cost > best {
        continue;
      }
      LogAppend(pathMap, init, expanded, bounds, best, current);
      expanded, bounds := expanded + [current], bounds + [best];

      var nexts := Successors(init, current, pathMap);
      ghost var before := heap;
      heap, considered := PushSuccessors(init, heap, considered, nexts, best);
      HeapPush(pathMap, init, before, nexts, heap);
    }
    LogContents(pathMap, init, expanded, bounds, best);
  }
}

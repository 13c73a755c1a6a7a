/**
 * Pieces shared by the two amphipod burrows (2-slot rooms in day23_a.rs,
 * 4-slot rooms in day23_b.rs): the amphipod kinds with their step costs, the
 * adjacency-table vocabulary, and the route search that both files implement
 * identically (`find_path` and `get_path_map`) over their own adjacency table.
 *
 * Cells are the Rust enum discriminants: the seven hallway cells are 0..6 in
 * both burrows, the room slots follow.
 */
module Burrow {

  /** The five values of the `Amphipod` enum; `Empty` is the source's `Amphipod::None`, an empty cell. */
  datatype Amphipod = Empty | Amber | Bronze | Copper | Desert

  /** The per-step cost, which the source stores as the enum discriminant. */
  function StepCost(a: Amphipod): (c: nat)
    ensures a == Empty <==> c == 0
    ensures a != Empty ==> c == 1 || c == 10 || c == 100 || c == 1000
  {
    match a
    case Empty => 0
    case Amber => 1
    case Bronze => 10
    case Copper => 100
    case Desert => 1000
  }

  /** The energy of a move: the route length times the mover's step cost. */
  function MoveCost(dist: nat, a: Amphipod): nat {
    dist * StepCost(a)
  }

  /** `Amphipod::from_char`: the four letters, anything else is an empty cell. */
  function FromChar(c: char): (a: Amphipod)
    ensures a != Empty <==> c in {'A', 'B', 'C', 'D'}
  {
    match c
    case 'A' => Amber
    case 'B' => Bronze
    case 'C' => Copper
    case 'D' => Desert
    case _ => Empty
  }

  /** `Room::is_hall`: the hallway cells are the first seven discriminants. */
  predicate IsHall(r: nat) {
    r < 7
  }

  /** One `(Room, usize)` entry of `connecting_rooms`: a neighbour and the step count to it. */
  datatype Edge = Edge(room: nat, cost: nat)

  /** `connecting_rooms` tabulated: entry `r` lists the neighbours of cell `r`. */
  type Adjacency = seq<seq<Edge>>

  ghost predicate WellFormed(adj: Adjacency) {
    forall i, k :: 0 <= i < |adj| && 0 <= k < |adj[i]| ==> adj[i][k].room < |adj|
  }

  /** No cell lists the same neighbour twice. */
  ghost predicate DistinctTargets(adj: Adjacency) {
    forall i, j, k :: 0 <= i < |adj| && 0 <= j < k < |adj[i]| ==> adj[i][j].room != adj[i][k].room
  }

  /** Every edge appears in both directions with the same cost. */
  ghost predicate Symmetric(adj: Adjacency) {
    WellFormed(adj) &&
    forall i, k :: 0 <= i < |adj| && 0 <= k < |adj[i]| ==> Edge(i, adj[i][k].cost) in adj[adj[i][k].room]
  }

  /** A set of cells that contains every neighbour of each of its cells. */
  ghost predicate Closed(adj: Adjacency, s: set<nat>) {
    forall v, k :: v in s && 0 <= v < |adj| && 0 <= k < |adj[v]| ==> adj[v][k].room in s
  }

  /** Connected: the only closed set that holds a cell holds every cell. */
  ghost predicate Connected(adj: Adjacency) {
    forall s: set<nat> :: Closed(adj, s) && (exists r :: r in s && r < |adj|) ==>
      forall i :: 0 <= i < |adj| ==> i in s
  }

  /** The step cost of the first edge from `a` to `b`, or `None` when they are not adjacent. */
  function EdgeCost(edges: seq<Edge>, b: nat): (c: Option<nat>)
    ensures c.Some? <==> exists k :: 0 <= k < |edges| && edges[k].room == b
    ensures c.Some? ==> Edge(b, c.value) in edges
  {
    if edges == [] then None
    else if edges[0].room == b then Some(edges[0].cost)
    else EdgeCost(edges[1..], b)
  }

  datatype Option<T> = None | Some(value: T)

  /** `route` steps along edges of `adj` starting from `from`. */
  ghost predicate IsWalk(adj: Adjacency, from: nat, route: seq<nat>)
    decreases |route|
  {
    from < |adj| &&
    (route != [] ==> EdgeCost(adj[from], route[0]).Some? && IsWalk(adj, route[0], route[1..]))
  }

  /** The sum of the edge costs along a walk. */
  ghost function WalkCost(adj: Adjacency, from: nat, route: seq<nat>): nat
    requires IsWalk(adj, from, route)
    decreases |route|
  {
    if route == [] then 0 else EdgeCost(adj[from], route[0]).value + WalkCost(adj, route[0], route[1..])
  }

  ghost predicate Distinct(s: seq<nat>) {
    forall i, j :: 0 <= i < j < |s| ==> s[i] != s[j]
  }

  /** A `Path` of the route table: start, end, the route (start excluded, end included) and its length. */
  datatype Path = Path(start: nat, end: nat, route: seq<nat>, dist: nat)

  /** What a found route is: a simple walk from start to end whose length is its edge-cost sum. */
  ghost predicate IsRoute(adj: Adjacency, p: Path) {
    |p.route| > 0 && p.route[|p.route| - 1] == p.end &&
    p.start !in p.route && Distinct(p.route) &&
    IsWalk(adj, p.start, p.route) && p.dist == WalkCost(adj, p.start, p.route)
  }

  // ---------------------------------------------------------------------------
  // The depth-first search of `find_path`. A partial path is a list of edges,
  // the first being `(room1, 0)`, exactly as the source's `Vec<(Room, usize)>`.

  function Rooms(es: seq<Edge>): (r: seq<nat>)
    ensures |r| == |es| && forall k :: 0 <= k < |es| ==> r[k] == es[k].room
  {
    if es == [] then [] else [es[0].room] + Rooms(es[1..])
  }

  function SumCosts(es: seq<Edge>): nat {
    if es == [] then 0 else es[0].cost + SumCosts(es[1..])
  }

  /** `es` follows adjacency edges, each step using the edge the table lists. */
  ghost predicate EdgeWalk(adj: Adjacency, es: seq<Edge>) {
    (forall k :: 0 <= k < |es| ==> es[k].room < |adj|) &&
    forall k :: 1 <= k < |es| ==> es[k] in adj[es[k - 1].room]
  }

  /** The number of cells below `n` that are not in `s`: the search's termination measure. */
  ghost function Unseen(n: nat, s: set<nat>): nat {
    if n == 0 then 0 else Unseen(n - 1, s) + (if n - 1 in s then 0 else 1)
  }

  lemma {:induction false} UnseenShrinks(n: nat, s: set<nat>, t: set<nat>)
    requires s <= t
    ensures Unseen(n, t) <= Unseen(n, s)
    ensures (exists v :: v < n && v in t && v !in s) ==> Unseen(n, t) < Unseen(n, s)
  {
    if n > 0 {
      UnseenShrinks(n - 1, s, t);
      if exists v :: v < n && v in t && v !in s {
        var v :| v < n && v in t && v !in s;
        if v != n - 1 {
          assert v < n - 1;
        }
      }
    }
  }

  ghost function Lasts(stack: seq<seq<Edge>>): set<nat> {
    set q: seq<Edge> | q in stack && q != [] :: q[|q| - 1].room
  }

  /** The route and length that `find_path` reads off a found edge list (lines skip(1) and sum). */
  lemma {:induction false} EdgeWalkRoute(adj: Adjacency, es: seq<Edge>)
    requires |es| >= 1 && EdgeWalk(adj, es) && DistinctTargets(adj)
    ensures IsWalk(adj, es[0].room, Rooms(es[1..]))
    ensures WalkCost(adj, es[0].room, Rooms(es[1..])) == SumCosts(es[1..])
    decreases |es|
  {
    if |es| > 1 {
      EdgeWalkRoute(adj, es[1..]);
      assert Rooms(es[1..]) == [es[1].room] + Rooms(es[2..]);
      assert es[1..][1..] == es[2..];
      FirstEdgeCost(adj[es[0].room], es[1]);
    }
  }

  /** With distinct targets, the edge found by `EdgeCost` is the one that is listed. */
  lemma {:induction false} FirstEdgeCost(edges: seq<Edge>, e: Edge)
    requires e in edges
    requires forall j, k :: 0 <= j < k < |edges| ==> edges[j].room != edges[k].room
    ensures EdgeCost(edges, e.room) == Some(e.cost)
  {
    if edges[0] != e {
      var k :| 0 <= k < |edges| && edges[k] == e;
      assert k > 0 && edges[0].room != e.room;
      assert e in edges[1..];
      FirstEdgeCost(edges[1..], e);
    }
  }

  lemma SumCostsLeading(es: seq<Edge>)
    requires |es| >= 1 && es[0].cost == 0
    ensures SumCosts(es) == SumCosts(es[1..])
  {
  }

  /** The neighbours in `edges` that are not yet visited (the `filter` in `find_path`). */
  function Unvisited(edges: seq<Edge>, visited: set<nat>): (r: seq<Edge>)
    ensures forall k :: 0 <= k < |r| ==> r[k] in edges && r[k].room !in visited
    ensures forall e :: e in edges && e.room !in visited ==> e in r
    ensures (forall j, k :: 0 <= j < k < |edges| ==> edges[j].room != edges[k].room) ==>
            forall j, k :: 0 <= j < k < |r| ==> r[j].room != r[k].room
  {
    if edges == [] then []
    else
      var rest := Unvisited(edges[1..], visited);
      assert forall k :: 0 <= k < |rest| ==> rest[k] in edges[1..];
      if edges[0].room in visited then rest else [edges[0]] + rest
  }

  /** The partial paths pushed for `conns`: each one except a step onto `room2`. */
  function Pushed(current: seq<Edge>, conns: seq<Edge>, room2: nat): seq<seq<Edge>> {
    if conns == [] then []
    else
      var init := conns[..|conns| - 1];
      var c := conns[|conns| - 1];
      if c.room == room2 then Pushed(current, init, room2)
      else Pushed(current, init, room2) + [current + [c]]
  }

  /** The pushed paths are exactly the one-step extensions of `current` that avoid `room2`. */
  lemma {:induction false} PushedShape(current: seq<Edge>, conns: seq<Edge>, room2: nat)
    ensures forall q :: q in Pushed(current, conns, room2) <==>
              exists c :: c in conns && c.room != room2 && q == current + [c]
  {
    if conns != [] {
      var init := conns[..|conns| - 1];
      var c := conns[|conns| - 1];
      assert conns == init + [c];
      PushedShape(current, init, room2);
    }
  }

  /** The cells marked visited while pushing `conns`. */
  ghost function PushedRooms(conns: seq<Edge>, room2: nat): set<nat> {
    set c | c in conns && c.room != room2 :: c.room
  }

  /** The found path: the last step of `conns` onto `room2`, or empty. */
  function Found(current: seq<Edge>, conns: seq<Edge>, room2: nat): (r: seq<Edge>)
    ensures r != [] <==> exists c :: c in conns && c.room == room2
    ensures r != [] ==> |r| == |current| + 1 && r[..|current|] == current &&
                        r[|current|] in conns && r[|current|].room == room2
  {
    if conns == [] then []
    else
      var init := conns[..|conns| - 1];
      var c := conns[|conns| - 1];
      assert conns == init + [c];
      if c.room == room2 then
        assert (current + [c])[..|current|] == current;
        current + [c]
      else Found(current, init, room2)
  }

  /**
   * The `for_each` over the connections of the popped path: a connection onto
   * `room2` becomes the found path, every other one is pushed and marked visited.
   */
  method PushConnections(current: seq<Edge>, conns: seq<Edge>, room2: nat,
                         stack: seq<seq<Edge>>, visited: set<nat>)
    returns (stack': seq<seq<Edge>>, visited': set<nat>, found: seq<Edge>)
    ensures stack' == stack + Pushed(current, conns, room2)
    ensures visited' == visited + PushedRooms(conns, room2)
    ensures found == Found(current, conns, room2)
  {
    assert conns[..0] == [];
    assert Pushed(current, [], room2) == [] && PushedRooms([], room2) == {} && Found(current, [], room2) == [];
    hide Pushed, PushedRooms, Found;
    stack', visited', found := stack, visited, [];
    var j := 0;
    while j < |conns|
      invariant 0 <= j <= |conns|
      invariant stack' == stack + Pushed(current, conns[..j], room2)
      invariant visited' == visited + PushedRooms(conns[..j], room2)
      invariant found == Found(current, conns[..j], room2)
    {
      var connection := conns[j];
      var newPath := current + [connection];
      assert conns[..j + 1] == conns[..j] + [connection];
      PushSnoc(current, conns[..j], connection, room2);
      if connection.room == room2 {
        found := newPath;
      } else {
        stack' := stack' + [newPath];
        visited' := visited' + {connection.room};
      }
      j := j + 1;
    }
    assert conns[..j] == conns;
  }

  lemma PushSnoc(current: seq<Edge>, conns: seq<Edge>, c: Edge, room2: nat)
    ensures Pushed(current, conns + [c], room2) ==
            if c.room == room2 then Pushed(current, conns, room2)
            else Pushed(current, conns, room2) + [current + [c]]
    ensures Found(current, conns + [c], room2) ==
            if c.room == room2 then current + [c] else Found(current, conns, room2)
    ensures PushedRooms(conns + [c], room2) ==
            PushedRooms(conns, room2) + (if c.room == room2 then {} else {c.room})
  {
    assert (conns + [c])[..|conns|] == conns;
  }

  /** What every partial path on the search stack satisfies. */
  ghost predicate Partial(adj: Adjacency, room1: nat, visited: set<nat>, q: seq<Edge>) {
    |q| >= 1 && q[0] == Edge(room1, 0) && EdgeWalk(adj, q) &&
    Distinct(Rooms(q)) && forall k :: 0 <= k < |q| ==> q[k].room in visited
  }

  lemma ExtendPartial(adj: Adjacency, room1: nat, visited: set<nat>, visited': set<nat>, q: seq<Edge>, c: Edge)
    requires Partial(adj, room1, visited, q) && visited <= visited'
    requires c.room < |adj| && c in adj[q[|q| - 1].room] && c.room !in visited && c.room in visited'
    ensures Partial(adj, room1, visited', q + [c])
  {
    assert Rooms(q + [c]) == Rooms(q) + [c.room];
  }

  /** The invariant of the search loop while nothing has been found. */
  ghost predicate SearchInv(adj: Adjacency, room1: nat, room2: nat, visited: set<nat>,
                            stack: seq<seq<Edge>>, expanded: set<nat>) {
    (forall v :: v in visited ==> v < |adj|) &&
    room1 in visited && room2 !in visited &&
    (forall q :: q in stack ==> Partial(adj, room1, visited, q)) &&
    expanded <= visited &&
    (forall v :: v in visited ==> v in expanded || v in Lasts(stack)) &&
    (forall v, k :: v in expanded && v < |adj| && 0 <= k < |adj[v]| ==> adj[v][k].room in visited)
  }

  /** The search starts from `room1` alone. */
  lemma SearchInit(adj: Adjacency, room1: nat, room2: nat)
    requires room1 < |adj| && room1 != room2
    ensures SearchInv(adj, room1, room2, {room1}, [[Edge(room1, 0)]], {})
  {
    assert Lasts([[Edge(room1, 0)]]) == {room1} by {
      assert [Edge(room1, 0)] in [[Edge(room1, 0)]];
    }
    assert Rooms([Edge(room1, 0)]) == [room1];
  }

  /** An exhausted search has visited a closed set that holds `room1` but not `room2`. */
  lemma SearchExhausted(adj: Adjacency, room1: nat, room2: nat, visited: set<nat>, expanded: set<nat>)
    requires room1 < |adj| && room2 < |adj| && SearchInv(adj, room1, room2, visited, [], expanded)
    ensures Closed(adj, visited) && !Connected(adj)
  {
    assert Lasts([]) == {};
    assert Closed(adj, visited);
    assert room1 in visited && room1 < |adj|;
    assert room2 !in visited;
  }

  /** One iteration: the popped path either reaches `room2` or the invariant carries over. */
  lemma ExpandTop(adj: Adjacency, room1: nat, room2: nat, visited: set<nat>, rest: seq<seq<Edge>>,
                  current: seq<Edge>, expanded: set<nat>)
    requires WellFormed(adj)
    requires SearchInv(adj, room1, room2, visited, rest + [current], expanded)
    ensures Partial(adj, room1, visited, current) && current[|current| - 1].room < |adj|
    ensures var last := current[|current| - 1].room;
            var conns := Unvisited(adj[last], visited);
            var found := Found(current, conns, room2);
            var visited' := visited + PushedRooms(conns, room2);
            var stack' := rest + Pushed(current, conns, room2);
            (found != [] ==> FoundExtends(adj, room1, room2, visited, current, found)) &&
            (found == [] ==>
               SearchInv(adj, room1, room2, visited', stack', expanded + {last}) &&
               Unseen(|adj|, visited') <= Unseen(|adj|, visited) &&
               (Unseen(|adj|, visited') < Unseen(|adj|, visited) || stack' == rest))
  {
    assert current in rest + [current];
    var last := current[|current| - 1].room;
    var conns := Unvisited(adj[last], visited);
    var found := Found(current, conns, room2);
    if found == [] {
      SearchStep(adj, room1, room2, visited, rest, current, expanded);
    } else {
      var c := found[|current|];
      assert c in conns;
      var k :| 0 <= k < |conns| && conns[k] == c;
      assert c in adj[last];
    }
  }

  /** Expanding the top of the stack without reaching `room2` keeps the invariant and makes progress. */
  lemma SearchStep(adj: Adjacency, room1: nat, room2: nat, visited: set<nat>, rest: seq<seq<Edge>>,
                   current: seq<Edge>, expanded: set<nat>)
    requires WellFormed(adj)
    requires SearchInv(adj, room1, room2, visited, rest + [current], expanded)
    requires Partial(adj, room1, visited, current)
    requires Found(current, Unvisited(adj[current[|current| - 1].room], visited), room2) == []
    ensures var last := current[|current| - 1].room;
            var conns := Unvisited(adj[last], visited);
            var visited' := visited + PushedRooms(conns, room2);
            var stack' := rest + Pushed(current, conns, room2);
            SearchInv(adj, room1, room2, visited', stack', expanded + {last}) &&
            Unseen(|adj|, visited') <= Unseen(|adj|, visited) &&
            (Unseen(|adj|, visited') < Unseen(|adj|, visited) || stack' == rest)
  {
    var last := current[|current| - 1].room;
    var conns := Unvisited(adj[last], visited);
    var visited' := visited + PushedRooms(conns, room2);
    var stack' := rest + Pushed(current, conns, room2);
    var expanded' := expanded + {last};
    PushedShape(current, conns, room2);
    assert current in rest + [current];
    assert forall v :: v in visited' ==> v < |adj|;
    assert room2 !in visited';
    assert expanded' <= visited';
    StepPartial(adj, room1, visited, visited', rest, current, conns, room2);
    StepCovered(visited, visited', rest, current, expanded, conns, room2);
    StepClosed(adj, visited, current, conns, room2);
    StepProgress(adj, visited, rest, current, conns, room2);
  }

  lemma StepPartial(adj: Adjacency, room1: nat, visited: set<nat>, visited': set<nat>, rest: seq<seq<Edge>>,
                    current: seq<Edge>, conns: seq<Edge>, room2: nat)
    requires WellFormed(adj) && |current| >= 1 && current[|current| - 1].room < |adj|
    requires conns == Unvisited(adj[current[|current| - 1].room], visited)
    requires visited' == visited + PushedRooms(conns, room2)
    requires forall q :: q in rest + [current] ==> Partial(adj, room1, visited, q)
    requires forall q :: q in Pushed(current, conns, room2) <==>
               exists c :: c in conns && c.room != room2 && q == current + [c]
    ensures forall q :: q in rest + Pushed(current, conns, room2) ==> Partial(adj, room1, visited', q)
  {
    assert current in rest + [current];
    forall q | q in rest + Pushed(current, conns, room2) ensures Partial(adj, room1, visited', q) {
      if q in rest {
        assert q in rest + [current];
      } else {
        var c :| c in conns && c.room != room2 && q == current + [c];
        ExtendPartial(adj, room1, visited, visited', current, c);
      }
    }
  }

  lemma StepCovered(visited: set<nat>, visited': set<nat>, rest: seq<seq<Edge>>, current: seq<Edge>,
                    expanded: set<nat>, conns: seq<Edge>, room2: nat)
    requires |current| >= 1
    requires visited' == visited + PushedRooms(conns, room2)
    requires forall v :: v in visited ==> v in expanded || v in Lasts(rest + [current])
    requires forall q :: q in Pushed(current, conns, room2) <==>
               exists c :: c in conns && c.room != room2 && q == current + [c]
    ensures forall v :: v in visited' ==>
              v in expanded + {current[|current| - 1].room} || v in Lasts(rest + Pushed(current, conns, room2))
  {
    var stack' := rest + Pushed(current, conns, room2);
    forall v | v in visited' ensures v in expanded + {current[|current| - 1].room} || v in Lasts(stack') {
      if v !in visited {
        var c :| c in conns && c.room != room2 && c.room == v;
        assert current + [c] in stack';
      } else if v != current[|current| - 1].room && v !in expanded {
        var q: seq<Edge> :| q in rest + [current] && q != [] && q[|q| - 1].room == v;
        assert q in rest;
        assert q in stack';
      }
    }
  }

  lemma StepClosed(adj: Adjacency, visited: set<nat>, current: seq<Edge>, conns: seq<Edge>, room2: nat)
    requires |current| >= 1 && current[|current| - 1].room < |adj|
    requires conns == Unvisited(adj[current[|current| - 1].room], visited)
    requires Found(current, conns, room2) == []
    ensures var edges := adj[current[|current| - 1].room];
            forall k :: 0 <= k < |edges| ==> edges[k].room in visited + PushedRooms(conns, room2)
  {
    var last := current[|current| - 1].room;
    forall k | 0 <= k < |adj[last]| ensures adj[last][k].room in visited + PushedRooms(conns, room2) {
      var e := adj[last][k];
      if e.room !in visited {
        assert e in conns;
      }
    }
  }

  /** Pushing something marks at least one cell that was not visited before. */
  lemma {:induction false} PushedNewRoom(current: seq<Edge>, conns: seq<Edge>, room2: nat, visited: set<nat>)
    requires forall c :: c in conns ==> c.room !in visited
    ensures Pushed(current, conns, room2) != [] ==> exists v :: v in PushedRooms(conns, room2) && v !in visited
  {
    if conns != [] {
      var init := conns[..|conns| - 1];
      var c := conns[|conns| - 1];
      assert conns == init + [c];
      PushSnoc(current, init, c, room2);
      if c.room != room2 {
        assert c.room in PushedRooms(conns, room2);
      } else {
        PushedNewRoom(current, init, room2, visited);
      }
    }
  }

  lemma StepProgress(adj: Adjacency, visited: set<nat>, rest: seq<seq<Edge>>,
                     current: seq<Edge>, conns: seq<Edge>, room2: nat)
    requires forall c :: c in conns ==> c.room !in visited && c.room < |adj|
    ensures var visited' := visited + PushedRooms(conns, room2);
            Unseen(|adj|, visited') <= Unseen(|adj|, visited) &&
            (Unseen(|adj|, visited') < Unseen(|adj|, visited) || rest + Pushed(current, conns, room2) == rest)
  {
    var visited' := visited + PushedRooms(conns, room2);
    UnseenShrinks(|adj|, visited, visited');
    PushedNewRoom(current, conns, room2, visited);
    if Pushed(current, conns, room2) == [] {
      assert rest + [] == rest;
    }
  }

  /** `found` is the partial path `current` followed by a step onto `room2`. */
  ghost predicate FoundExtends(adj: Adjacency, room1: nat, room2: nat, visited: set<nat>,
                               current: seq<Edge>, found: seq<Edge>) {
    Partial(adj, room1, visited, current) && room2 !in visited &&
    current[|current| - 1].room < |adj| &&
    |found| == |current| + 1 && found[..|current|] == current &&
    found[|current|] in adj[current[|current| - 1].room] && found[|current|].room == room2
  }

  /** The found edge list is a walk of distinct cells starting at `(room1, 0)`. */
  lemma FoundWalk(adj: Adjacency, room1: nat, room2: nat, visited: set<nat>,
                  current: seq<Edge>, found: seq<Edge>)
    requires WellFormed(adj)
    requires FoundExtends(adj, room1, room2, visited, current, found)
    ensures |found| >= 2 && found[0] == Edge(room1, 0) && EdgeWalk(adj, found)
    ensures Distinct(Rooms(found)) && Rooms(found)[|found| - 1] == room2
  {
    var c := found[|current|];
    assert found == current + [c];
    ExtendPartial(adj, room1, visited, visited + {room2}, current, c);
  }

  /** A found edge list gives the route and length that `find_path` reads off it. */
  lemma FoundRoute(adj: Adjacency, room1: nat, room2: nat, visited: set<nat>,
                   current: seq<Edge>, found: seq<Edge>)
    requires WellFormed(adj) && DistinctTargets(adj)
    requires FoundExtends(adj, room1, room2, visited, current, found) && room1 != room2
    ensures IsRoute(adj, Path(room1, room2, Rooms(found[1..]), SumCosts(found)))
  {
    FoundWalk(adj, room1, room2, visited, current, found);
    var rooms := Rooms(found);
    var route := Rooms(found[1..]);
    EdgeWalkRoute(adj, found);
    SumCostsLeading(found);
    assert rooms[1..] == route;
    assert rooms[0] == room1;
    assert route[|route| - 1] == room2;
    assert Distinct(route);
    assert room1 !in route by {
      forall k | 0 <= k < |route| ensures route[k] != room1 {
        assert route[k] == rooms[k + 1];
      }
    }
  }

  /**
   * `find_path`: a depth-first search from `room1` that marks cells visited
   * when they are pushed and stops as soon as `room2` is reached. If it is never
   * reached the source returns an empty route with distance 0; the ghost result
   * `seen` then witnesses that `room2` is cut off from `room1`.
   */
  method FindPath(adj: Adjacency, room1: nat, room2: nat) returns (p: Path, ghost seen: set<nat>)
    requires WellFormed(adj) && DistinctTargets(adj)
    requires room1 < |adj| && room2 < |adj| && room1 != room2
    ensures p.start == room1 && p.end == room2
    ensures p.route != [] ==> IsRoute(adj, p)
    ensures p.route == [] ==> p.dist == 0 && Closed(adj, seen) && room1 in seen && room2 !in seen
    ensures Connected(adj) ==> p.route != []
  {
    var found: seq<Edge> := [];
    var visited: set<nat> := {room1};
    var stack: seq<seq<Edge>> := [[Edge(room1, 0)]];
    ghost var expanded: set<nat> := {};
    ghost var visitedBefore: set<nat> := {};
    var current: seq<Edge> := [];
    SearchInit(adj, room1, room2);
    while stack != []
      invariant found == [] ==> SearchInv(adj, room1, room2, visited, stack, expanded)
      invariant found != [] ==> FoundExtends(adj, room1, room2, visitedBefore, current, found)
      decreases Unseen(|adj|, visited), |stack|
    {
      current := stack[|stack| - 1];
      var rest := stack[..|stack| - 1];
      assert stack == rest + [current];
      ExpandTop(adj, room1, room2, visited, rest, current, expanded);
      var last := current[|current| - 1].room;
      var connections := Unvisited(adj[last], visited);
      ghost var visited0 := visited;
      stack, visited, found := PushConnections(current, connections, room2, rest, visited);
      expanded := expanded + {last};
      if found != [] {
        visitedBefore := visited0;
        break;
      }
    }

    seen := visited;
    if found == [] {
      p := Path(room1, room2, [], 0);
      SearchExhausted(adj, room1, room2, visited, expanded);
    } else {
      p := Path(room1, room2, Rooms(found[1..]), SumCosts(found));
      FoundRoute(adj, room1, room2, visitedBefore, current, found);
    }
  }

  // ---------------------------------------------------------------------------
  // `get_path_map`: one path from every cell to every other cell, except between
  // two hallway cells (an amphipod that enters the hallway stops there).

  /** The destinations listed for `room1`, in index order. */
  function Ends(n: nat, room1: nat): (r: seq<nat>)
    ensures forall x: nat :: x in r <==> x < n && x != room1 && !(IsHall(room1) && IsHall(x))
    ensures forall j, k :: 0 <= j < k < |r| ==> r[j] < r[k]
  {
    if n == 0 then []
    else if n - 1 == room1 || (IsHall(room1) && IsHall(n - 1)) then Ends(n - 1, room1)
    else
      var prev := Ends(n - 1, room1);
      assert forall j :: 0 <= j < |prev| ==> prev[j] < n - 1 by {
        forall j | 0 <= j < |prev| ensures prev[j] < n - 1 {
          assert prev[j] in prev;
        }
      }
      prev + [n - 1]
  }

  /** `paths` lists, for each destination of `room1` below `n`, a path to it found by the search. */
  ghost predicate PathsFrom(adj: Adjacency, room1: nat, n: nat, paths: seq<Path>) {
    |paths| == |Ends(n, room1)| &&
    forall k :: 0 <= k < |paths| ==>
      paths[k].start == room1 && paths[k].end == Ends(n, room1)[k] &&
      (Connected(adj) ==> IsRoute(adj, paths[k]))
  }

  /** `get_path_map`: a path list for every cell of the table. */
  method GetPathMap(adj: Adjacency) returns (pathMap: map<nat, seq<Path>>)
    requires WellFormed(adj) && DistinctTargets(adj)
    ensures forall r: nat :: r in pathMap <==> r < |adj|
    ensures forall r :: r in pathMap ==> PathsFrom(adj, r, |adj|, pathMap[r])
  {
    pathMap := map[];
    var room1 := 0;
    while room1 < |adj|
      invariant room1 <= |adj|
      invariant forall r: nat :: r in pathMap <==> r < room1
      invariant forall r :: r in pathMap ==> PathsFrom(adj, r, |adj|, pathMap[r])
    {
      var paths: seq<Path> := [];
      var room2 := 0;
      while room2 < |adj|
        invariant room2 <= |adj|
        invariant PathsFrom(adj, room1, room2, paths)
      {
        if room2 != room1 && !(IsHall(room1) && IsHall(room2)) {
          var path, _ := FindPath(adj, room1, room2);
          paths := paths + [path];
        }
        room2 := room2 + 1;
      }
      pathMap := pathMap[room1 := paths];
      room1 := room1 + 1;
    }
  }

  /** Connectivity from a parent table: every cell but 0 is listed as a neighbour of a lower-numbered cell. */
  ghost predicate ParentTable(adj: Adjacency, parent: seq<nat>) {
    |parent| == |adj| &&
    forall c :: 1 <= c < |adj| ==>
      parent[c] < c && exists k :: 0 <= k < |adj[parent[c]]| && adj[parent[c]][k].room == c
  }

  lemma ClosedUp(adj: Adjacency, parent: seq<nat>, s: set<nat>, c: nat)
    requires Symmetric(adj) && ParentTable(adj, parent) && Closed(adj, s)
    requires 1 <= c < |adj| && c in s
    ensures parent[c] in s
  {
    var p := parent[c];
    var k :| 0 <= k < |adj[p]| && adj[p][k].room == c;
    assert Edge(p, adj[p][k].cost) in adj[c];
    var j :| 0 <= j < |adj[c]| && adj[c][j] == Edge(p, adj[p][k].cost);
  }

  lemma ClosedDown(adj: Adjacency, parent: seq<nat>, s: set<nat>, c: nat)
    requires ParentTable(adj, parent) && Closed(adj, s)
    requires 1 <= c < |adj| && parent[c] in s
    ensures c in s
  {
    var p := parent[c];
    var k :| 0 <= k < |adj[p]| && adj[p][k].room == c;
  }

  /** A closed set holding any cell holds cell 0. */
  lemma {:induction false} ClosedHoldsRoot(adj: Adjacency, parent: seq<nat>, s: set<nat>, r: nat)
    requires Symmetric(adj) && ParentTable(adj, parent) && Closed(adj, s)
    requires r < |adj| && r in s
    ensures 0 in s
    decreases r
  {
    if r > 0 {
      ClosedUp(adj, parent, s, r);
      ClosedHoldsRoot(adj, parent, s, parent[r]);
    }
  }

  /** A closed set holding cell 0 holds every cell below `n`. */
  lemma {:induction false} ClosedHoldsAll(adj: Adjacency, parent: seq<nat>, s: set<nat>, n: nat)
    requires ParentTable(adj, parent) && Closed(adj, s)
    requires 0 in s && n <= |adj|
    ensures forall i :: 0 <= i < n ==> i in s
  {
    if n > 1 {
      ClosedHoldsAll(adj, parent, s, n - 1);
      ClosedDown(adj, parent, s, n - 1);
    }
  }

  lemma ConnectedByParents(adj: Adjacency, parent: seq<nat>)
    requires Symmetric(adj) && ParentTable(adj, parent)
    ensures Connected(adj)
  {
    forall s: set<nat> | Closed(adj, s) && (exists r :: r in s && r < |adj|)
      ensures forall i :: 0 <= i < |adj| ==> i in s
    {
      var r :| r in s && r < |adj|;
      ClosedHoldsRoot(adj, parent, s, r);
      ClosedHoldsAll(adj, parent, s, |adj|);
    }
  }

  // ---------------------------------------------------------------------------
  // The grid: an occupancy array and the accumulated cost, and the moves on it.

  /** A `Grid`: the occupant of every cell and the energy spent so far. */
  datatype Grid = Grid(state: seq<Amphipod>, cost: nat)

  /** A `Move`: the mover's start and end cell and the energy it costs. */
  datatype Move = Move(start: nat, end: nat, cost: nat)

  /** The grid after a move: the start is emptied, the mover sits at the end, the cost is added. */
  function Apply(g: Grid, m: Move): (h: Grid)
    requires m.start < |g.state| && m.end < |g.state|
  {
    Grid(g.state[m.start := Empty][m.end := g.state[m.start]], g.cost + m.cost)
  }

  /** A move to an empty cell keeps every other cell, adds its cost, and conserves the amphipods. */
  lemma ApplyConserves(g: Grid, m: Move)
    requires m.start < |g.state| && m.end < |g.state| && m.start != m.end
    requires g.state[m.end] == Empty
    ensures var h := Apply(g, m);
            |h.state| == |g.state| && h.cost == g.cost + m.cost &&
            h.state[m.start] == Empty && h.state[m.end] == g.state[m.start] &&
            (forall i :: 0 <= i < |g.state| && i != m.start && i != m.end ==> h.state[i] == g.state[i]) &&
            multiset(h.state) == multiset(g.state)
  {
    MoveMultiset(g.state, m.start, m.end);
  }

  /** Moving the content of cell `a` into the empty cell `b` keeps the multiset of cells. */
  lemma MoveMultiset(s: seq<Amphipod>, a: nat, b: nat)
    requires a < |s| && b < |s| && a != b && s[b] == Empty
    ensures multiset(s[a := Empty][b := s[a]]) == multiset(s)
  {
    var s1 := s[a := Empty];
    assert multiset(s1) == multiset(s) - multiset{s[a]} + multiset{Empty};
    assert multiset(s1[b := s[a]]) == multiset(s1) - multiset{Empty} + multiset{s[a]};
  }

  /**
   * `generate_from_moves`: for every move, a copy of the grid with the two cells
   * written and the cost added.
   */
  method GenerateFromMoves(g: Grid, moves: seq<Move>) returns (grids: seq<Grid>)
    requires forall k :: 0 <= k < |moves| ==> moves[k].start < |g.state| && moves[k].end < |g.state|
    ensures |grids| == |moves|
    ensures forall k :: 0 <= k < |moves| ==> grids[k] == Apply(g, moves[k])
  {
    grids := [];
    for k := 0 to |moves|
      invariant |grids| == k
      invariant forall j :: 0 <= j < k ==> grids[j] == Apply(g, moves[j])
    {
      var m := moves[k];
      var state := g.state;
      var amphipod := state[m.start];
      state := state[m.start := Empty];
      state := state[m.end := amphipod];
      grids := grids + [Grid(state, g.cost + m.cost)];
    }
  }

  // ---------------------------------------------------------------------------
  // The `BinaryHeap` of the drivers, as a bag of grids popped at a maximum of the
  // grid ordering: the higher priority first, then the lower cost.

  predicate Outranks(prio: Grid -> nat, g: Grid, h: Grid) {
    prio(g) > prio(h) || (prio(g) == prio(h) && g.cost < h.cost)
  }

  /** The index of a greatest element under `Outranks`, as `BinaryHeap::pop` returns. */
  method PopIndex(heap: seq<Grid>, prio: Grid -> nat) returns (i: nat)
    requires heap != []
    ensures i < |heap|
    ensures forall j :: 0 <= j < |heap| ==> !Outranks(prio, heap[j], heap[i])
  {
    i := 0;
    for j := 1 to |heap|
      invariant i < j
      invariant forall k :: 0 <= k < j ==> !Outranks(prio, heap[k], heap[i])
    {
      if Outranks(prio, heap[j], heap[i]) {
        i := j;
      }
    }
  }

  /** `usize::MAX`, the initial `best_solution`. */
  const UsizeMax: nat := 0xFFFF_FFFF_FFFF_FFFF
}

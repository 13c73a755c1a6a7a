/**
 * Passage pathing (day12.rs): counting the paths from "start" to "end"
 * through a cave graph, where a small (lower-case) cave may be entered once,
 * or, in part B, one small cave twice. The search is a stack of partial paths.
 */
module PassagePathing {

  datatype Option<T> = None | Some(value: T)

  type Connections = map<string, seq<string>>

  // ---------------------------------------------------------------------------
  // Parsing the edges.

  /** Push `b` on the list of `a`, creating the list when `a` has none yet. */
  function AddNeighbour(adj: Connections, a: string, b: string): (r: Connections)
    ensures r.Keys == adj.Keys + {a}
    ensures r[a] == (if a in adj then adj[a] else []) + [b]
    ensures forall x :: x in adj && x != a ==> r[x] == adj[x]
  {
    if a in adj then adj[a := adj[a] + [b]] else adj[a := [b]]
  }

  /** The fold of `parse`: for each edge `a-b` in order, `b` joins the list of `a`, then `a` that of `b`. */
  function Adjacency(edges: seq<(string, string)>): Connections {
    if edges == [] then map[]
    else
      var e := edges[|edges| - 1];
      AddNeighbour(AddNeighbour(Adjacency(edges[..|edges| - 1]), e.0, e.1), e.1, e.0)
  }

  /**
   * Every cave named in an edge has a list, and `b` is on the list of `a`
   * exactly when some edge joins them, in either direction.
   */
  lemma {:induction false} AdjacencyMembers(edges: seq<(string, string)>, a: string, b: string)
    ensures a in Adjacency(edges) <==> exists e :: e in edges && (e.0 == a || e.1 == a)
    ensures a in Adjacency(edges) ==> (b in Adjacency(edges)[a] <==> (a, b) in edges || (b, a) in edges)
  {
    if edges != [] {
      var init := edges[..|edges| - 1];
      var e := edges[|edges| - 1];
      AdjacencyMembers(init, a, b);
      assert forall x :: x in edges <==> x in init || x == e;
    }
  }

  /** `parse`: the adjacency lists, built edge by edge in a mutable map. */
  method Parse(edges: seq<(string, string)>) returns (adj: Connections)
    ensures adj == Adjacency(edges)
  {
    adj := map[];
    for i := 0 to |edges|
      invariant adj == Adjacency(edges[..i])
    {
      assert edges[..i + 1][..i] == edges[..i] && edges[..i + 1][i] == edges[i];
      var (a, b) := edges[i];
      ghost var before := adj;
      if a in adj {
        adj := adj[a := adj[a] + [b]];
      } else {
        adj := adj[a := [b]];
      }
      assert adj == AddNeighbour(before, a, b);
      ghost var middle := adj;
      if b in adj {
        adj := adj[b := adj[b] + [a]];
      } else {
        adj := adj[b := [a]];
      }
      assert adj == AddNeighbour(middle, b, a);
    }
    assert edges[..|edges|] == edges;
  }

  // ---------------------------------------------------------------------------
  // Paths.

  /** `Path`: the caves visited so far and whether a small cave may still be entered twice. */
  datatype Path = Path(data: seq<string>, canRevisit: bool)

  /** `Path::new`: just "start", with the given allowance. */
  function NewPath(canRevisit: bool): (p: Path)
    ensures p.data == ["start"] && p.canRevisit == canRevisit
  {
    Path(["start"], canRevisit)
  }

  /** `contains`: some cave of the path has this name. */
  function Contains(p: Path, node: string): (r: bool)
    ensures r <==> node in p.data
  {
    exists i :: 0 <= i < |p.data| && p.data[i] == node
  }

  /** `prev`: the last cave; `last().unwrap()` needs a non-empty path. */
  function Prev(p: Path): string
    requires |p.data| > 0
  {
    p.data[|p.data| - 1]
  }

  /** `append`: a copy one cave longer, whose allowance is used up by a revisit. */
  function Append(p: Path, node: string, isRevisit: bool): (q: Path)
    ensures q.data == p.data + [node]
    ensures q.canRevisit <==> p.canRevisit && !isRevisit
  {
    Path(p.data + [node], p.canRevisit && !isRevisit)
  }

  /** `chars().all(is_lowercase)`, over ASCII letters. */
  predicate IsSmall(node: string) {
    forall k :: 0 <= k < |node| ==> 'a' <= node[k] <= 'z'
  }

  /** Entering `node` would visit a small cave a second time. */
  predicate IsRevisit(p: Path, node: string) {
    IsSmall(node) && Contains(p, node)
  }

  /** The search extends a path into `node`: not "start", not "end", and not a revisit without the allowance. */
  predicate Admits(p: Path, node: string) {
    node != "start" && node != "end" && !(IsRevisit(p, node) && !p.canRevisit)
  }

  /** The paths pushed for the caves in `nodes`, in order. */
  function Children(p: Path, nodes: seq<string>): (r: seq<Path>)
    ensures |r| <= |nodes|
    ensures forall k :: 0 <= k < |r| ==> exists j :: 0 <= j < |nodes| && Admits(p, nodes[j]) && r[k] == Append(p, nodes[j], IsRevisit(p, nodes[j]))
  {
    if nodes == [] then []
    else
      var rest := Children(p, nodes[..|nodes| - 1]);
      var node := nodes[|nodes| - 1];
      assert forall j :: 0 <= j < |nodes| - 1 ==> nodes[..|nodes| - 1][j] == nodes[j];
      if Admits(p, node) then rest + [Append(p, node, IsRevisit(p, node))] else rest
  }

  /** Every cave the search admits is pushed: `Children` leaves out exactly the rejected caves. */
  lemma {:induction false} ChildrenAdmitted(p: Path, nodes: seq<string>, j: int)
    requires 0 <= j < |nodes| && Admits(p, nodes[j])
    ensures Append(p, nodes[j], IsRevisit(p, nodes[j])) in Children(p, nodes)
  {
    if j < |nodes| - 1 {
      ChildrenAdmitted(p, nodes[..|nodes| - 1], j);
    }
  }

  /** The number of times "end" is listed. */
  function Ends(nodes: seq<string>): nat {
    if nodes == [] then 0 else Ends(nodes[..|nodes| - 1]) + if nodes[|nodes| - 1] == "end" then 1 else 0
  }

  /** One path is counted for each listing of "end". */
  lemma {:induction false} EndsCount(nodes: seq<string>)
    ensures Ends(nodes) == multiset(nodes)["end"]
  {
    if nodes != [] {
      EndsCount(nodes[..|nodes| - 1]);
      assert nodes == nodes[..|nodes| - 1] + [nodes[|nodes| - 1]];
    }
  }

  // ---------------------------------------------------------------------------
  // What the search keeps.

  /** The small caves entered a second or later time along the caves. */
  function Repeats(data: seq<string>): nat {
    if data == [] then 0
    else
      var init := data[..|data| - 1];
      Repeats(init) + if IsSmall(data[|data| - 1]) && data[|data| - 1] in init then 1 else 0
  }

  /** The search may go from `a` to `b`: `b` is on the list of `a` and is not "start". */
  predicate Step(conn: Connections, a: string, b: string) {
    a in conn && b in conn[a] && b != "start"
  }

  /** A walk from "start" along the connections that never comes back to "start". */
  predicate Walk(conn: Connections, data: seq<string>) {
    |data| >= 1 && data[0] == "start" &&
    forall i :: 0 <= i < |data| - 1 ==> Step(conn, data[i], data[i + 1])
  }

  function Allowance(b: bool): nat {
    if b then 1 else 0
  }

  /**
   * A path on the stack: a walk that has not reached "end", whose small-cave
   * revisits and remaining allowance add up to the allowance it started with.
   */
  predicate Partial(conn: Connections, p: Path, allowed: bool) {
    Walk(conn, p.data) && "end" !in p.data && Repeats(p.data) + Allowance(p.canRevisit) == Allowance(allowed)
  }

  /** A counted path: a walk ending at its only "end", with no more small-cave revisits than allowed. */
  predicate Complete(conn: Connections, data: seq<string>, allowed: bool) {
    Walk(conn, data) && |data| >= 2 && data[|data| - 1] == "end" && "end" !in data[..|data| - 1] &&
    Repeats(data) <= Allowance(allowed)
  }

  /** The path the search starts from is on the stack legitimately. */
  lemma NewPartial(conn: Connections, allowed: bool)
    ensures Partial(conn, NewPath(allowed), allowed)
  {
    assert NewPath(allowed).data[..0] == [];
  }

  /** Each pushed path is a partial path again: one more step, and a revisit spends the allowance. */
  lemma ChildPartial(conn: Connections, p: Path, node: string, allowed: bool)
    requires Partial(conn, p, allowed) && Prev(p) in conn && node in conn[Prev(p)] && Admits(p, node)
    ensures Partial(conn, Append(p, node, IsRevisit(p, node)), allowed)
  {
    var q := Append(p, node, IsRevisit(p, node));
    assert q.data[..|q.data| - 1] == p.data;
    WalkExtend(conn, p.data, node);
  }

  /** A walk goes on along a listed connection into any cave but "start". */
  lemma WalkExtend(conn: Connections, data: seq<string>, node: string)
    requires Walk(conn, data) && data[|data| - 1] in conn && node in conn[data[|data| - 1]] && node != "start"
    ensures Walk(conn, data + [node])
  {
    var d := data + [node];
    forall i | 0 <= i < |d| - 1
      ensures Step(conn, d[i], d[i + 1])
    {
      if i < |data| - 1 {
        assert d[i] == data[i] && d[i + 1] == data[i + 1];
      }
    }
  }

  lemma ChildrenPartial(conn: Connections, p: Path, nodes: seq<string>, allowed: bool)
    requires Partial(conn, p, allowed) && Prev(p) in conn
    requires forall j :: 0 <= j < |nodes| ==> nodes[j] in conn[Prev(p)]
    ensures forall k :: 0 <= k < |Children(p, nodes)| ==> Partial(conn, Children(p, nodes)[k], allowed)
  {
    var r := Children(p, nodes);
    forall k | 0 <= k < |r| ensures Partial(conn, r[k], allowed) {
      var j :| 0 <= j < |nodes| && Admits(p, nodes[j]) && r[k] == Append(p, nodes[j], IsRevisit(p, nodes[j]));
      ChildPartial(conn, p, nodes[j], allowed);
    }
  }

  /** Stepping into a listed "end" completes a path. */
  lemma EndComplete(conn: Connections, p: Path, allowed: bool)
    requires Partial(conn, p, allowed) && Prev(p) in conn && "end" in conn[Prev(p)]
    ensures Complete(conn, p.data + ["end"], allowed)
  {
    var d := p.data + ["end"];
    assert d[..|d| - 1] == p.data;
    WalkExtend(conn, p.data, "end");
  }

  // ---------------------------------------------------------------------------
  // Completeness: every complete path is reached from some stacked prefix.

  /** Revisits only accumulate along a path. */
  lemma {:induction false} RepeatsPrefix(a: seq<string>, b: seq<string>)
    requires a <= b
    ensures Repeats(a) <= Repeats(b)
    decreases |b|
  {
    if |a| < |b| {
      RepeatsPrefix(a, b[..|b| - 1]);
    } else {
      assert a == b;
    }
  }

  /** A complete path is counted, or some stacked path is a prefix of it. */
  ghost predicate Covered(c: seq<string>, stack: seq<Path>, found: seq<seq<string>>) {
    c in found || exists k :: 0 <= k < |stack| && stack[k].data <= c
  }

  /**
   * A complete path extending a stacked path goes one cave further along the
   * list of its last cave: into "end", which it then ends with, or into a cave
   * the search admits.
   */
  lemma PopExtends(conn: Connections, allowed: bool, p: Path, c: seq<string>)
    requires Partial(conn, p, allowed) && Complete(conn, c, allowed) && p.data <= c
    ensures |p.data| < |c| && Prev(p) in conn && c[|p.data|] in conn[Prev(p)]
    ensures c[|p.data|] == "end" ==> c == p.data + ["end"]
    ensures c[|p.data|] != "end" ==> Admits(p, c[|p.data|]) && p.data + [c[|p.data|]] <= c
  {
    var n := |p.data|;
    assert forall i :: 0 <= i < n ==> p.data[i] == c[i] && p.data[i] != "end";
    assert c[|c| - 1] == "end";
    assert n < |c|;
    assert forall i :: 0 <= i < |c| - 1 ==> c[..|c| - 1][i] == c[i];
    assert Step(conn, c[n - 1], c[n]);
    var node := c[n];
    assert p.data + [node] <= c;
    RepeatsPrefix(p.data + [node], c);
    assert (p.data + [node])[..n] == p.data;
  }

  /** A complete path extending `p` is `p` ended at "end", or extends one of the paths pushed for `p`. */
  lemma PopCoveredTop(conn: Connections, allowed: bool, p: Path, c: seq<string>)
    requires Partial(conn, p, allowed) && Prev(p) in conn && Complete(conn, c, allowed) && p.data <= c
    ensures c in Ended(p, Ends(conn[Prev(p)])) ||
      exists i :: 0 <= i < |Children(p, conn[Prev(p)])| && Children(p, conn[Prev(p)])[i].data <= c
  {
    var next := conn[Prev(p)];
    PopExtends(conn, allowed, p, c);
    var node := c[|p.data|];
    var j :| 0 <= j < |next| && next[j] == node;
    if node == "end" {
      EndsCount(next);
      assert Ended(p, Ends(next))[0] == c;
    } else {
      ChildrenAdmitted(p, next, j);
    }
  }

  /** Replacing the top of the stack by paths that cover whatever it covered keeps `c` covered. */
  lemma CoveredPop(c: seq<string>, stack: seq<Path>, found: seq<seq<string>>, children: seq<Path>, ended: seq<seq<string>>)
    requires stack != [] && Covered(c, stack, found)
    requires stack[|stack| - 1].data <= c ==> c in ended || exists i :: 0 <= i < |children| && children[i].data <= c
    ensures Covered(c, stack[..|stack| - 1] + children, found + ended)
  {
    var rest := stack[..|stack| - 1];
    var st, fd := rest + children, found + ended;
    if c in found {
      assert fd[..|found|] == found;
    } else {
      var k :| 0 <= k < |stack| && stack[k].data <= c;
      if k < |stack| - 1 {
        assert st[k] == stack[k];
      } else if c in ended {
        var m :| 0 <= m < |ended| && ended[m] == c;
        assert fd[|found| + m] == c;
      } else {
        var i :| 0 <= i < |children| && children[i].data <= c;
        assert st[|rest| + i] == children[i];
      }
    }
  }

  /** Popping a path whose last cave has a list keeps every complete path covered. */
  lemma PopCoveredListed(conn: Connections, allowed: bool, stack: seq<Path>, found: seq<seq<string>>, c: seq<string>)
    requires stack != [] && Partial(conn, stack[|stack| - 1], allowed) && Prev(stack[|stack| - 1]) in conn
    requires Complete(conn, c, allowed) && Covered(c, stack, found)
    ensures var p := stack[|stack| - 1];
      Covered(c, stack[..|stack| - 1] + Children(p, conn[Prev(p)]), found + Ended(p, Ends(conn[Prev(p)])))
  {
    var p := stack[|stack| - 1];
    if p.data <= c {
      PopCoveredTop(conn, allowed, p, c);
    }
    CoveredPop(c, stack, found, Children(p, conn[Prev(p)]), Ended(p, Ends(conn[Prev(p)])));
  }

  /** Popping a path whose last cave has no list keeps every complete path covered: none extends it. */
  lemma PopCoveredDropped(conn: Connections, allowed: bool, stack: seq<Path>, found: seq<seq<string>>, c: seq<string>)
    requires stack != [] && Partial(conn, stack[|stack| - 1], allowed) && Prev(stack[|stack| - 1]) !in conn
    requires Complete(conn, c, allowed) && Covered(c, stack, found)
    ensures Covered(c, stack[..|stack| - 1], found)
  {
    if c !in found {
      var k :| 0 <= k < |stack| && stack[k].data <= c;
      if k == |stack| - 1 {
        PopExtends(conn, allowed, stack[k], c);
      } else {
        assert stack[..|stack| - 1][k] == stack[k];
      }
    }
  }

  // ---------------------------------------------------------------------------
  // Uniqueness: with no cave listed twice as a neighbour, no path is counted twice.

  predicate Distinct<T(==)>(s: seq<T>) {
    forall i, j :: 0 <= i < j < |s| ==> s[i] != s[j]
  }

  /** No cave's list names the same neighbour twice. */
  predicate NoRepeatedNeighbours(conn: Connections) {
    forall a :: a in conn ==> Distinct(conn[a])
  }

  /** No stacked path is a prefix of another. */
  ghost predicate PrefixFree(stack: seq<Path>) {
    forall i, j :: 0 <= i < |stack| && 0 <= j < |stack| && i != j ==> !(stack[i].data <= stack[j].data)
  }

  /** No stacked path is a prefix of a counted one. */
  ghost predicate Apart(stack: seq<Path>, found: seq<seq<string>>) {
    forall i, j :: 0 <= i < |stack| && 0 <= j < |found| ==> !(stack[i].data <= found[j])
  }

  /** `ch` is `pd` one cave longer. */
  predicate Extends(pd: seq<string>, ch: seq<string>) {
    |ch| == |pd| + 1 && ch[..|pd|] == pd
  }

  lemma PrefixOfExtension(a: seq<string>, pd: seq<string>, ch: seq<string>)
    requires Extends(pd, ch)
    ensures a <= ch ==> a <= pd || a == ch
  {
    if a <= ch && |a| <= |pd| {
      assert a == ch[..|a|] && ch[..|a|] == pd[..|a|];
    }
  }

  lemma ExtensionPrefix(pd: seq<string>, ch: seq<string>, b: seq<string>)
    requires Extends(pd, ch)
    ensures ch <= b ==> pd <= b
  {
    if ch <= b {
      assert pd == ch[..|pd|] && ch[..|pd|] == b[..|pd|];
    }
  }

  /** Each path pushed for `p` is `p` one admitted cave longer, that cave being listed and not "end". */
  lemma {:induction false} ChildrenShape(p: Path, nodes: seq<string>)
    ensures forall k :: 0 <= k < |Children(p, nodes)| ==>
      Extends(p.data, Children(p, nodes)[k].data) && Children(p, nodes)[k].data[|p.data|] in nodes &&
      Children(p, nodes)[k].data[|p.data|] != "end"
  {
    if nodes != [] {
      var init := nodes[..|nodes| - 1];
      var node := nodes[|nodes| - 1];
      ChildrenShape(p, init);
      var rest := Children(p, init);
      assert forall x :: x in init ==> x in nodes;
      if Admits(p, node) {
        var child := Append(p, node, IsRevisit(p, node));
        assert child.data[..|p.data|] == p.data;
        assert Children(p, nodes) == rest + [child];
      }
    }
  }

  /** With no cave listed twice, the paths pushed for `p` are all different. */
  lemma {:induction false} ChildrenDistinct(p: Path, nodes: seq<string>)
    requires Distinct(nodes)
    ensures forall i, j :: 0 <= i < j < |Children(p, nodes)| ==> Children(p, nodes)[i].data != Children(p, nodes)[j].data
  {
    if nodes != [] {
      var init := nodes[..|nodes| - 1];
      var node := nodes[|nodes| - 1];
      assert Distinct(init);
      ChildrenDistinct(p, init);
      ChildrenShape(p, init);
      var rest := Children(p, init);
      if Admits(p, node) {
        var child := Append(p, node, IsRevisit(p, node));
        assert node !in init by {
          assert forall m :: 0 <= m < |init| ==> init[m] == nodes[m] && nodes[m] != nodes[|nodes| - 1];
        }
        assert forall i :: 0 <= i < |rest| ==> rest[i].data[|p.data|] != child.data[|p.data|];
        assert Children(p, nodes) == rest + [child];
      }
    }
  }

  /** A cave listed at most once is listed that often. */
  lemma {:induction false} DistinctCount(nodes: seq<string>, x: string)
    requires Distinct(nodes)
    ensures multiset(nodes)[x] <= 1
  {
    if nodes != [] {
      var init := nodes[..|nodes| - 1];
      assert Distinct(init);
      DistinctCount(init, x);
      assert nodes == init + [nodes[|nodes| - 1]];
      if nodes[|nodes| - 1] == x {
        assert x !in init by {
          assert forall m :: 0 <= m < |init| ==> init[m] == nodes[m] && nodes[m] != nodes[|nodes| - 1];
        }
      }
    }
  }

  /** Popping `p` and pushing its children keeps the stack prefix free. */
  lemma PopPrefixFree(p: Path, stack: seq<Path>, children: seq<Path>)
    requires stack != [] && p == stack[|stack| - 1] && PrefixFree(stack)
    requires forall k :: 0 <= k < |children| ==> Extends(p.data, children[k].data)
    requires forall i, j :: 0 <= i < j < |children| ==> children[i].data != children[j].data
    ensures PrefixFree(stack[..|stack| - 1] + children)
  {
    var rest := stack[..|stack| - 1];
    var st := rest + children;
    forall i | 0 <= i < |rest|
      ensures rest[i] == stack[i] && !(stack[i].data <= p.data) && !(p.data <= stack[i].data)
    {
      assert stack[i] == stack[i] && i != |stack| - 1;
    }
    forall i, j | 0 <= i < |st| && 0 <= j < |st| && i != j
      ensures !(st[i].data <= st[j].data)
    {
      if i < |rest| && j < |rest| {
        assert st[i] == stack[i] && st[j] == stack[j];
      } else if i < |rest| {
        var ch := children[j - |rest|].data;
        assert st[i] == stack[i] && st[j].data == ch;
        PrefixOfExtension(stack[i].data, p.data, ch);
        assert p.data <= ch;
      } else if j < |rest| {
        var ch := children[i - |rest|].data;
        assert st[j] == stack[j] && st[i].data == ch;
        ExtensionPrefix(p.data, ch, stack[j].data);
      } else {
        var a, b := children[i - |rest|].data, children[j - |rest|].data;
        assert st[i].data == a && st[j].data == b && |a| == |b|;
        if i < j {
          assert a != b;
        } else {
          assert b != a;
        }
      }
    }
  }

  /** Popping `p` and pushing its children keeps stacked paths apart from counted ones, "end" included. */
  lemma PopApart(p: Path, stack: seq<Path>, found: seq<seq<string>>, children: seq<Path>, ended: seq<seq<string>>)
    requires stack != [] && p == stack[|stack| - 1] && PrefixFree(stack) && Apart(stack, found)
    requires forall k :: 0 <= k < |children| ==> Extends(p.data, children[k].data) && children[k].data[|p.data|] != "end"
    requires forall k :: 0 <= k < |ended| ==> ended[k] == p.data + ["end"]
    ensures Apart(stack[..|stack| - 1] + children, found + ended)
  {
    var rest := stack[..|stack| - 1];
    var st, fd := rest + children, found + ended;
    var e := p.data + ["end"];
    assert Extends(p.data, e);
    forall i, j | 0 <= i < |st| && 0 <= j < |fd|
      ensures !(st[i].data <= fd[j])
    {
      if i < |rest| {
        assert st[i] == stack[i] && i != |stack| - 1;
        if j < |found| {
          assert fd[j] == found[j];
        } else {
          assert fd[j] == e;
          PrefixOfExtension(stack[i].data, p.data, e);
          assert p.data <= e;
        }
      } else {
        var ch := children[i - |rest|].data;
        assert st[i].data == ch;
        if j < |found| {
          assert fd[j] == found[j];
          ExtensionPrefix(p.data, ch, found[j]);
        } else {
          assert fd[j] == e && ch[|p.data|] != e[|p.data|];
        }
      }
    }
  }

  /** The count of `p` ended at "end", at most once and never counted before, keeps the counted paths different. */
  lemma PopDistinct(p: Path, stack: seq<Path>, found: seq<seq<string>>, ended: seq<seq<string>>)
    requires stack != [] && p == stack[|stack| - 1] && Apart(stack, found) && Distinct(found)
    requires |ended| <= 1 && forall k :: 0 <= k < |ended| ==> ended[k] == p.data + ["end"]
    ensures Distinct(found + ended)
  {
    var fd := found + ended;
    assert p.data <= p.data + ["end"];
    forall i, j | 0 <= i < j < |fd|
      ensures fd[i] != fd[j]
    {
      assert fd[i] == found[i];
      if j < |found| {
        assert fd[j] == found[j];
      } else {
        assert fd[j] == p.data + ["end"] && !(stack[|stack| - 1].data <= found[i]);
      }
    }
  }

  /** Dropping the top of the stack keeps it prefix free and apart from the counted paths. */
  lemma PopRest(stack: seq<Path>, found: seq<seq<string>>)
    requires stack != [] && PrefixFree(stack) && Apart(stack, found)
    ensures PrefixFree(stack[..|stack| - 1]) && Apart(stack[..|stack| - 1], found)
  {
    var rest := stack[..|stack| - 1];
    assert forall i :: 0 <= i < |rest| ==> rest[i] == stack[i];
  }

  // ---------------------------------------------------------------------------
  // The search.

  /**
   * The `for &node in next` loop of `solve`: "start" is skipped, "end" is
   * counted and not extended, a small cave already on the path is skipped
   * unless the allowance is left, and every other cave is pushed as a longer
   * path.
   */
  method Explore(p: Path, next: seq<string>, stack: seq<Path>, count: nat) returns (stack': seq<Path>, count': nat)
    ensures stack' == stack + Children(p, next) && count' == count + Ends(next)
  {
    stack' := stack;
    count' := count;
    for i := 0 to |next|
      invariant stack' == stack + Children(p, next[..i]) && count' == count + Ends(next[..i])
    {
      assert next[..i + 1][..i] == next[..i];
      var node := next[i];
      if node == "start" {
        continue;
      }
      if node == "end" {
        count' := count' + 1;
        continue;
      }
      var isRevisit := IsSmall(node) && Contains(p, node);
      if isRevisit && !p.canRevisit {
        continue;
      }
      var newPath := Append(p, node, isRevisit);
      stack' := stack' + [newPath];
    }
    assert next[..|next|] == next;
  }

  /** `Ends(nodes)` copies of the path ended at "end". */
  function Ended(p: Path, n: nat): (r: seq<seq<string>>)
    ensures |r| == n && forall k :: 0 <= k < n ==> r[k] == p.data + ["end"]
  {
    seq(n, _ => p.data + ["end"])
  }

  /**
   * `solve`: pop a path, drop it when its last cave has no list, and explore
   * the caves listed. A graph with two big caves joined has endless paths,
   * so at most `fuel` paths are popped; `None` means the stack was not empty
   * by then. Every path counted is a complete path that keeps the small-cave
   * rule, every such path is counted, and none twice when no cave's list
   * names a neighbour twice.
   */
  method Solve(conn: Connections, canRevisit: bool, fuel: nat) returns (r: Option<nat>, ghost found: seq<seq<string>>)
    ensures r.Some? ==> r.value == |found|
    ensures forall k :: 0 <= k < |found| ==> Complete(conn, found[k], canRevisit)
    ensures r.Some? ==> forall c :: Complete(conn, c, canRevisit) ==> c in found
    ensures NoRepeatedNeighbours(conn) ==> Distinct(found)
  {
    var validPaths := 0;
    var toConsider := [NewPath(canRevisit)];
    NewPartial(conn, canRevisit);
    found := [];
    forall c | Complete(conn, c, canRevisit)
      ensures Covered(c, toConsider, found)
    {
      assert toConsider[0].data <= c;
    }
    var popped := 0;
    while toConsider != [] && popped < fuel
      invariant forall k :: 0 <= k < |toConsider| ==> Partial(conn, toConsider[k], canRevisit)
      invariant validPaths == |found| && forall k :: 0 <= k < |found| ==> Complete(conn, found[k], canRevisit)
      invariant forall c :: Complete(conn, c, canRevisit) ==> Covered(c, toConsider, found)
      invariant NoRepeatedNeighbours(conn) ==> PrefixFree(toConsider) && Apart(toConsider, found) && Distinct(found)
      decreases fuel - popped
    {
      ghost var stack, before := toConsider, found;
      var path := toConsider[|toConsider| - 1];
      toConsider := toConsider[..|toConsider| - 1];
      popped := popped + 1;
      var prev := Prev(path);
      if prev !in conn {
        forall c | Complete(conn, c, canRevisit)
          ensures Covered(c, toConsider, found)
        {
          PopCoveredDropped(conn, canRevisit, stack, found, c);
        }
        if NoRepeatedNeighbours(conn) {
          PopRest(stack, found);
        }
        continue;
      }
      var next := conn[prev];
      assert forall j :: 0 <= j < |next| ==> next[j] in conn[Prev(path)];
      ChildrenPartial(conn, path, next, canRevisit);
      toConsider, validPaths := Explore(path, next, toConsider, validPaths);
      EndsListed(next);
      if Ends(next) > 0 {
        EndComplete(conn, path, canRevisit);
      }
      found := found + Ended(path, Ends(next));
      forall c | Complete(conn, c, canRevisit)
        ensures Covered(c, toConsider, found)
      {
        PopCoveredListed(conn, canRevisit, stack, before, c);
      }
      if NoRepeatedNeighbours(conn) {
        PopUnique(conn, path, stack, before, next);
      }
    }
    if toConsider == [] {
      r := Some(validPaths);
    } else {
      r := None;
    }
  }

  /** One pop of `p` with its list `next` keeps the stack and the counted paths free of repeats. */
  lemma PopUnique(conn: Connections, p: Path, stack: seq<Path>, found: seq<seq<string>>, next: seq<string>)
    requires NoRepeatedNeighbours(conn) && |p.data| > 0 && Prev(p) in conn && next == conn[Prev(p)]
    requires stack != [] && p == stack[|stack| - 1] && PrefixFree(stack) && Apart(stack, found) && Distinct(found)
    ensures PrefixFree(stack[..|stack| - 1] + Children(p, next))
    ensures Apart(stack[..|stack| - 1] + Children(p, next), found + Ended(p, Ends(next)))
    ensures Distinct(found + Ended(p, Ends(next)))
  {
    ChildrenShape(p, next);
    ChildrenDistinct(p, next);
    PopPrefixFree(p, stack, Children(p, next));
    PopApart(p, stack, found, Children(p, next), Ended(p, Ends(next)));
    EndsCount(next);
    DistinctCount(next, "end");
    PopDistinct(p, stack, found, Ended(p, Ends(next)));
  }

  /** Some "end" is listed when the count is positive. */
  lemma {:induction false} EndsListed(nodes: seq<string>)
    ensures Ends(nodes) > 0 ==> "end" in nodes
  {
    if nodes != [] {
      EndsListed(nodes[..|nodes| - 1]);
      if Ends(nodes[..|nodes| - 1]) > 0 {
        assert nodes[..|nodes| - 1][0] in nodes;
        var k :| 0 <= k < |nodes| - 1 && nodes[..|nodes| - 1][k] == "end";
        assert nodes[k] == "end";
      }
    }
  }

  /** `solution_a`: no small cave twice. */
  method SolutionA(edges: seq<(string, string)>, fuel: nat) returns (r: Option<nat>, ghost found: seq<seq<string>>)
    ensures r.Some? ==> r.value == |found|
    ensures forall k :: 0 <= k < |found| ==> Complete(Adjacency(edges), found[k], false)
    ensures r.Some? ==> forall c :: Complete(Adjacency(edges), c, false) ==> c in found
    ensures NoRepeatedNeighbours(Adjacency(edges)) ==> Distinct(found)
  {
    var conn := Parse(edges);
    r, found := Solve(conn, false, fuel);
  }

  /** `solution_b`: one small cave may be entered twice. */
  method SolutionB(edges: seq<(string, string)>, fuel: nat) returns (r: Option<nat>, ghost found: seq<seq<string>>)
    ensures r.Some? ==> r.value == |found|
    ensures forall k :: 0 <= k < |found| ==> Complete(Adjacency(edges), found[k], true)
    ensures r.Some? ==> forall c :: Complete(Adjacency(edges), c, true) ==> c in found
    ensures NoRepeatedNeighbours(Adjacency(edges)) ==> Distinct(found)
  {
    var conn := Parse(edges);
    r, found := Solve(conn, true, fuel);
  }
}

/**
 * Snailfish numbers (day18.rs). A number is a binary tree of regular numbers;
 * the source keeps it flat, as the list of its regular numbers left to right,
 * each with its depth (one less than the brackets around it), and works on
 * that list in place. The model states each list operation, then proves it
 * equal to the tree operation it stands for.
 */
module Snailfish {

  datatype Option<T> = None | Some(value: T)

  /** `SnailfishElement`. */
  datatype Element = Element(value: nat, depth: nat)

  // ---------------------------------------------------------------------------
  // Trees, and the flat list of a tree.

  datatype Tree = Leaf(n: nat) | Pair(left: Tree, right: Tree)

  /**
   * The regular numbers of `t`, left to right, when `t` sits inside `nest`
   * brackets: a number inside `k >= 1` brackets has depth `k - 1`.
   */
  function Leaves(t: Tree, nest: nat): (r: seq<Element>)
    ensures |r| >= 1
  {
    match t
    case Leaf(v) => [Element(v, if nest == 0 then 0 else nest - 1)]
    case Pair(lt, rt) => Leaves(lt, nest + 1) + Leaves(rt, nest + 1)
  }

  /** The list the source keeps for the number `t`. */
  function Elements(t: Tree): seq<Element> {
    Leaves(t, 0)
  }

  /** The regular numbers of a pair inside `nest` brackets are all at depth `nest` or deeper. */
  lemma {:induction false} LeavesDepth(t: Tree, nest: nat)
    requires t.Pair?
    ensures forall k :: 0 <= k < |Leaves(t, nest)| ==> Leaves(t, nest)[k].depth >= nest
  {
    var s := Leaves(t, nest);
    var L, R := Leaves(t.left, nest + 1), Leaves(t.right, nest + 1);
    if t.left.Pair? {
      LeavesDepth(t.left, nest + 1);
    }
    if t.right.Pair? {
      LeavesDepth(t.right, nest + 1);
    }
    forall k | 0 <= k < |s|
      ensures s[k].depth >= nest
    {
      if k < |L| {
        assert s[k] == L[k];
      } else {
        assert s[k] == R[k - |L|];
      }
    }
  }

  predicate DepthsAtMost(s: seq<Element>, d: nat) {
    forall k :: 0 <= k < |s| ==> s[k].depth <= d
  }

  /** The magnitude of a tree: a regular number is its own, a pair is 3 times its left plus 2 times its right. */
  function Mag(t: Tree): nat {
    match t
    case Leaf(v) => v
    case Pair(lt, rt) => 3 * Mag(lt) + 2 * Mag(rt)
  }

  // ---------------------------------------------------------------------------
  // The three searches (`find` over the indices).

  predicate DeepAt(s: seq<Element>, k: nat)
    requires k < |s|
  {
    s[k].depth == 4
  }

  predicate BigAt(s: seq<Element>, k: nat)
    requires k < |s|
  {
    s[k].value >= 10
  }

  predicate EqAt(s: seq<Element>, k: nat)
    requires k + 1 < |s|
  {
    s[k].depth == s[k + 1].depth
  }

  /** The first element at depth 4, looking from index `from` on. */
  function FirstDeep(s: seq<Element>, from: nat := 0): (r: Option<nat>)
    requires from <= |s|
    ensures r.Some? ==> from <= r.value < |s| && DeepAt(s, r.value)
    ensures r.Some? ==> forall k :: from <= k < r.value ==> !DeepAt(s, k)
    ensures r.None? ==> forall k :: from <= k < |s| ==> !DeepAt(s, k)
    decreases |s| - from
  {
    if from == |s| then None
    else if s[from].depth == 4 then Some(from)
    else FirstDeep(s, from + 1)
  }

  /** The first element whose value is 10 or more, looking from index `from` on. */
  function FirstBig(s: seq<Element>, from: nat := 0): (r: Option<nat>)
    requires from <= |s|
    ensures r.Some? ==> from <= r.value < |s| && BigAt(s, r.value)
    ensures r.Some? ==> forall k :: from <= k < r.value ==> !BigAt(s, k)
    ensures r.None? ==> forall k :: from <= k < |s| ==> !BigAt(s, k)
    decreases |s| - from
  {
    if from == |s| then None
    else if s[from].value >= 10 then Some(from)
    else FirstBig(s, from + 1)
  }

  /** The first index, from `from` on, whose element has the depth of the next one. */
  function FirstEq(s: seq<Element>, from: nat := 0): (r: Option<nat>)
    ensures r.Some? ==> from <= r.value && r.value + 1 < |s| && EqAt(s, r.value)
    ensures r.Some? ==> forall k :: from <= k < r.value ==> !EqAt(s, k)
    ensures r.None? ==> forall k :: from <= k < |s| - 1 ==> !EqAt(s, k)
    decreases |s| - from
  {
    if from + 1 >= |s| then None
    else if s[from].depth == s[from + 1].depth then Some(from)
    else FirstEq(s, from + 1)
  }

  // ---------------------------------------------------------------------------
  // The list operations.

  function AddToLast(p: seq<Element>, v: nat): (r: seq<Element>)
    ensures |r| == |p|
  {
    if p == [] then [] else p[..|p| - 1] + [Element(p[|p| - 1].value + v, p[|p| - 1].depth)]
  }

  function AddToFirst(q: seq<Element>, v: nat): (r: seq<Element>)
    ensures |r| == |q|
  {
    if q == [] then [] else [Element(q[0].value + v, q[0].depth)] + q[1..]
  }

  /**
   * `explode` at `i`: the left value goes to the element before, the right
   * value to the element after the pair, and the pair becomes a 0 one level up.
   */
  function ExplodeAt(s: seq<Element>, i: nat): (r: seq<Element>)
    requires i + 1 < |s| && s[i].depth == 4
  {
    AddToLast(s[..i], s[i].value) + [Element(0, 3)] + AddToFirst(s[i + 2..], s[i + 1].value)
  }

  /** `split` at `i`: the value becomes a pair of its halves, rounded down then up, one level deeper. */
  function SplitAt(s: seq<Element>, i: nat): (r: seq<Element>)
    requires i < |s|
  {
    var e := s[i];
    s[..i] + [Element(e.value / 2, e.depth + 1), Element(e.value / 2 + e.value % 2, e.depth + 1)] + s[i + 1..]
  }

  /** One round of `magnitude` at `i`: the pair at `i` becomes 3 times its left plus 2 times its right, one level up. */
  function MergeAt(s: seq<Element>, i: nat): (r: seq<Element>)
    requires i + 1 < |s|
  {
    s[..i] + [Element(3 * s[i].value + 2 * s[i + 1].value, if s[i].depth > 0 then s[i].depth - 1 else 0)] + s[i + 2..]
  }

  /** Every depth one more (the loop in `add`). */
  function Deeper(s: seq<Element>): (r: seq<Element>)
    ensures |r| == |s|
  {
    if s == [] then [] else [Element(s[0].value, s[0].depth + 1)] + Deeper(s[1..])
  }

  // ---------------------------------------------------------------------------
  // The same operations on trees.

  function AddLeftmost(t: Tree, v: nat): Tree {
    match t
    case Leaf(x) => Leaf(x + v)
    case Pair(lt, rt) => Pair(AddLeftmost(lt, v), rt)
  }

  function AddRightmost(t: Tree, v: nat): Tree {
    match t
    case Leaf(x) => Leaf(x + v)
    case Pair(lt, rt) => Pair(lt, AddRightmost(rt, v))
  }

  /**
   * The leftmost pair of two regular numbers nested inside four pairs
   * explodes: it becomes 0, and its left and right values are added to the
   * nearest regular numbers on each side. The result also says which of the
   * two values found no neighbour inside `t` (0 once one was used).
   */
  function ExplodeTree(t: Tree, nest: nat): Option<(Tree, nat, nat)> {
    match t
    case Leaf(_) => None
    case Pair(lt, rt) =>
      if nest >= 4 && lt.Leaf? && rt.Leaf? then Some((Leaf(0), lt.n, rt.n))
      else
        match ExplodeTree(lt, nest + 1)
        case Some((lt', a, b)) => Some((Pair(lt', AddLeftmost(rt, b)), a, 0))
        case None =>
          match ExplodeTree(rt, nest + 1)
          case Some((rt', a, b)) => Some((Pair(AddRightmost(lt, a), rt'), 0, b))
          case None => None
  }

  /** The leftmost regular number of 10 or more splits into a pair of its halves, rounded down and up. */
  function SplitTree(t: Tree): Option<Tree> {
    match t
    case Leaf(v) => if v >= 10 then Some(Pair(Leaf(v / 2), Leaf((v + 1) / 2))) else None
    case Pair(lt, rt) =>
      match SplitTree(lt)
      case Some(lt') => Some(Pair(lt', rt))
      case None =>
        match SplitTree(rt)
        case Some(rt') => Some(Pair(lt, rt'))
        case None => None
  }

  /** Reduction: explode while possible, else split, until neither applies; `None` when `fuel` steps are not enough. */
  function ReduceTree(t: Tree, fuel: nat): Option<Tree>
    decreases fuel
  {
    if fuel == 0 then None
    else
      match ExplodeTree(t, 0)
      case Some((t', _, _)) => ReduceTree(t', fuel - 1)
      case None =>
        match SplitTree(t)
        case Some(t') => ReduceTree(t', fuel - 1)
        case None => Some(t)
  }

  /** The pair at the leftmost place whose two halves are both regular numbers, replaced by its magnitude. */
  function CollapseFirst(t: Tree): Tree
    requires t.Pair?
  {
    if t.left.Pair? then Pair(CollapseFirst(t.left), t.right)
    else if t.right.Pair? then Pair(t.left, CollapseFirst(t.right))
    else Leaf(3 * t.left.n + 2 * t.right.n)
  }

  // ---------------------------------------------------------------------------
  // The list operations on a split list.

  lemma ExplodeInLeft(L: seq<Element>, R: seq<Element>, i: nat)
    requires i + 1 < |L| && L[i].depth == 4
    ensures ExplodeAt(L + R, i) == ExplodeAt(L, i) + AddToFirst(R, if i + 2 < |L| then 0 else L[i + 1].value)
  {
    var s := L + R;
    assert s[..i] == L[..i] && s[i] == L[i] && s[i + 1] == L[i + 1];
    if i + 2 < |L| {
      assert s[i + 2..] == L[i + 2..] + R;
      assert AddToFirst(L[i + 2..] + R, L[i + 1].value) == AddToFirst(L[i + 2..], L[i + 1].value) + R;
      assert AddToFirst(R, 0) == R;
    } else {
      assert s[i + 2..] == R && L[i + 2..] == [];
    }
  }

  lemma ExplodeInRight(L: seq<Element>, R: seq<Element>, j: nat)
    requires j + 1 < |R| && R[j].depth == 4 && L != []
    ensures ExplodeAt(L + R, |L| + j) == AddToLast(L, if j == 0 then R[0].value else 0) + ExplodeAt(R, j)
  {
    var s := L + R;
    var i := |L| + j;
    assert s[i] == R[j] && s[i + 1] == R[j + 1] && s[i + 2..] == R[j + 2..];
    if j == 0 {
      assert s[..i] == L && R[..j] == [];
    } else {
      assert s[..i] == L + R[..j];
      assert AddToLast(L + R[..j], R[j].value) == L + AddToLast(R[..j], R[j].value);
      assert AddToLast(L, 0) == L;
    }
  }

  lemma SplitInLeft(L: seq<Element>, R: seq<Element>, i: nat)
    requires i < |L|
    ensures SplitAt(L + R, i) == SplitAt(L, i) + R
  {
    assert (L + R)[..i] == L[..i] && (L + R)[i] == L[i] && (L + R)[i + 1..] == L[i + 1..] + R;
  }

  lemma SplitInRight(L: seq<Element>, R: seq<Element>, j: nat)
    requires j < |R|
    ensures SplitAt(L + R, |L| + j) == L + SplitAt(R, j)
  {
    var i := |L| + j;
    assert (L + R)[..i] == L + R[..j] && (L + R)[i] == R[j] && (L + R)[i + 1..] == R[j + 1..];
  }

  lemma MergeInLeft(L: seq<Element>, R: seq<Element>, i: nat)
    requires i + 1 < |L|
    ensures MergeAt(L + R, i) == MergeAt(L, i) + R
  {
    assert (L + R)[..i] == L[..i] && (L + R)[i] == L[i] && (L + R)[i + 1] == L[i + 1];
    assert (L + R)[i + 2..] == L[i + 2..] + R;
  }

  lemma MergeInRight(L: seq<Element>, R: seq<Element>, j: nat)
    requires j + 1 < |R|
    ensures MergeAt(L + R, |L| + j) == L + MergeAt(R, j)
  {
    var i := |L| + j;
    assert (L + R)[..i] == L + R[..j] && (L + R)[i] == R[j] && (L + R)[i + 1] == R[j + 1];
    assert (L + R)[i + 2..] == R[j + 2..];
  }

  /** `Deeper` adds one to each depth and leaves each value. */
  lemma {:induction false} DeeperAt(s: seq<Element>)
    ensures forall k :: 0 <= k < |s| ==> Deeper(s)[k] == Element(s[k].value, s[k].depth + 1)
  {
    if s != [] {
      DeeperAt(s[1..]);
      forall k | 1 <= k < |s|
        ensures Deeper(s)[k] == Element(s[k].value, s[k].depth + 1)
      {
        assert Deeper(s)[k] == Deeper(s[1..])[k - 1];
      }
    }
  }

  lemma DeeperAppend(a: seq<Element>, b: seq<Element>)
    ensures Deeper(a + b) == Deeper(a) + Deeper(b)
  {
    var s := a + b;
    DeeperAt(a);
    DeeperAt(b);
    DeeperAt(s);
    forall k | 0 <= k < |s|
      ensures Deeper(s)[k] == (Deeper(a) + Deeper(b))[k]
    {
      if k < |a| {
        assert s[k] == a[k];
      } else {
        assert s[k] == b[k - |a|];
      }
    }
  }

  lemma AddToFirstAppend(L: seq<Element>, R: seq<Element>, v: nat)
    requires L != []
    ensures AddToFirst(L + R, v) == AddToFirst(L, v) + R
  {
    assert (L + R)[0] == L[0] && (L + R)[1..] == L[1..] + R;
  }

  lemma AddToLastAppend(L: seq<Element>, R: seq<Element>, v: nat)
    requires R != []
    ensures AddToLast(L + R, v) == L + AddToLast(R, v)
  {
    var s := L + R;
    assert s[|s| - 1] == R[|R| - 1] && s[..|s| - 1] == L + R[..|R| - 1];
  }

  // ---------------------------------------------------------------------------
  // The list operations are the tree operations.

  lemma {:induction false} LeavesAddLeftmost(t: Tree, nest: nat, v: nat)
    ensures Leaves(AddLeftmost(t, v), nest) == AddToFirst(Leaves(t, nest), v)
  {
    if t.Pair? {
      var L, R := Leaves(t.left, nest + 1), Leaves(t.right, nest + 1);
      LeavesAddLeftmost(t.left, nest + 1, v);
      AddToFirstAppend(L, R, v);
    }
  }

  lemma {:induction false} LeavesAddRightmost(t: Tree, nest: nat, v: nat)
    ensures Leaves(AddRightmost(t, v), nest) == AddToLast(Leaves(t, nest), v)
  {
    if t.Pair? {
      var L, R := Leaves(t.left, nest + 1), Leaves(t.right, nest + 1);
      LeavesAddRightmost(t.right, nest + 1, v);
      AddToLastAppend(L, R, v);
    }
  }

  /** The first depth-4 element of a joined list: in the left part if there is one there, else in the right part. */
  lemma FirstDeepAppend(L: seq<Element>, R: seq<Element>)
    ensures FirstDeep(L).Some? ==> FirstDeep(L + R) == FirstDeep(L)
    ensures FirstDeep(L).None? && FirstDeep(R).Some? ==> FirstDeep(L + R) == Some(|L| + FirstDeep(R).value)
    ensures FirstDeep(L).None? && FirstDeep(R).None? ==> FirstDeep(L + R).None?
  {
    var s := L + R;
    forall k | 0 <= k < |s|
      ensures DeepAt(s, k) == if k < |L| then DeepAt(L, k) else DeepAt(R, k - |L|)
    {
      if k < |L| {
        assert s[k] == L[k];
      } else {
        assert s[k] == R[k - |L|];
      }
    }
    if FirstDeep(L).Some? {
      DeepIs(s, FirstDeep(L).value);
    } else if FirstDeep(R).Some? {
      DeepIs(s, |L| + FirstDeep(R).value);
    } else {
      DeepNone(s);
    }
  }


  /** `FirstDeep` is the first index at depth 4. */
  lemma DeepIs(s: seq<Element>, i: nat)
    requires i < |s| && DeepAt(s, i) && forall k :: 0 <= k < i ==> !DeepAt(s, k)
    ensures FirstDeep(s) == Some(i)
  {
  }

  lemma DeepNone(s: seq<Element>)
    requires forall k :: 0 <= k < |s| ==> !DeepAt(s, k)
    ensures FirstDeep(s).None?
  {
  }

  lemma BigNone(s: seq<Element>)
    requires forall k :: 0 <= k < |s| ==> !BigAt(s, k)
    ensures FirstBig(s).None?
  {
  }

  /** `FirstBig` is the first index holding 10 or more. */
  lemma BigIs(s: seq<Element>, i: nat)
    requires i < |s| && BigAt(s, i) && forall k :: 0 <= k < i ==> !BigAt(s, k)
    ensures FirstBig(s) == Some(i)
  {
  }

  /** The first big value of a joined list: in the left part if there is one there, else in the right part. */
  lemma FirstBigAppend(L: seq<Element>, R: seq<Element>)
    ensures FirstBig(L).Some? ==> FirstBig(L + R) == FirstBig(L)
    ensures FirstBig(L).None? && FirstBig(R).Some? ==> FirstBig(L + R) == Some(|L| + FirstBig(R).value)
    ensures FirstBig(L).None? && FirstBig(R).None? ==> FirstBig(L + R).None?
  {
    var s := L + R;
    forall k | 0 <= k < |s|
      ensures BigAt(s, k) == if k < |L| then BigAt(L, k) else BigAt(R, k - |L|)
    {
      if k < |L| {
        assert s[k] == L[k];
      } else {
        assert s[k] == R[k - |L|];
      }
    }
    if FirstBig(L).Some? {
      BigIs(s, FirstBig(L).value);
    } else if FirstBig(R).Some? {
      BigIs(s, |L| + FirstBig(R).value);
    } else {
      BigNone(s);
    }
  }


  /**
   * `list` is `ExplodeAt` at the first depth-4 element of `s`, which has an
   * element after it, and `a` and `b` are the exploded values that have no
   * neighbour in `s` (0 for one that has).
   */
  predicate ExplodedAs(s: seq<Element>, list: seq<Element>, a: nat, b: nat) {
    FirstDeep(s).Some? &&
    var i := FirstDeep(s).value;
    i + 1 < |s| && list == ExplodeAt(s, i) &&
    a == (if i == 0 then s[i].value else 0) && b == (if i + 2 < |s| then 0 else s[i + 1].value)
  }

  /** The tree explosion `e`, of a tree inside `nest` brackets with list `s`, is the list explosion. */
  predicate ExplodeAgrees(e: Option<(Tree, nat, nat)>, s: seq<Element>, nest: nat) {
    (e.None? <==> FirstDeep(s).None?) &&
    (e.Some? ==> ExplodedAs(s, Leaves(e.value.0, nest), e.value.1, e.value.2))
  }

  /**
   * With every depth at most 4, the list's first depth-4 element is the left
   * half of the tree's exploding pair, its right half comes next, and
   * `ExplodeAt` gives the list of the exploded tree.
   */
  lemma {:induction false} ExplodeLeaves(t: Tree, nest: nat)
    requires nest <= 4 && DepthsAtMost(Leaves(t, nest), 4)
    ensures ExplodeAgrees(ExplodeTree(t, nest), Leaves(t, nest), nest)
  {
    if t.Pair? {
      BoundHalves(Leaves(t.left, nest + 1), Leaves(t.right, nest + 1));
      if nest == 4 {
        ExplodeBottom(t);
      } else {
        ExplodeLeaves(t.left, nest + 1);
        ExplodeLeaves(t.right, nest + 1);
        ExplodeStep(t, nest);
      }
    }
  }

  /** The inductive step of `ExplodeLeaves`. */
  lemma ExplodeStep(t: Tree, nest: nat)
    requires t.Pair? && nest < 4
    requires ExplodeAgrees(ExplodeTree(t.left, nest + 1), Leaves(t.left, nest + 1), nest + 1)
    requires ExplodeAgrees(ExplodeTree(t.right, nest + 1), Leaves(t.right, nest + 1), nest + 1)
    ensures ExplodeAgrees(ExplodeTree(t, nest), Leaves(t, nest), nest)
  {
    match ExplodeTree(t.left, nest + 1)
    case Some(el) =>
      ExplodeStepLeft(t, nest, el);
    case None =>
      match ExplodeTree(t.right, nest + 1)
      case Some(er) =>
        ExplodeStepRight(t, nest, er);
      case None =>
        FirstDeepAppend(Leaves(t.left, nest + 1), Leaves(t.right, nest + 1));
        assert ExplodeTree(t, nest).None?;
  }

  /** `ExplodeStep` where the left half explodes. */
  lemma ExplodeStepLeft(t: Tree, nest: nat, el: (Tree, nat, nat))
    requires t.Pair? && nest < 4 && ExplodeTree(t.left, nest + 1) == Some(el)
    requires ExplodedAs(Leaves(t.left, nest + 1), Leaves(el.0, nest + 1), el.1, el.2)
    ensures ExplodeTree(t, nest) == Some((Pair(el.0, AddLeftmost(t.right, el.2)), el.1, 0))
    ensures ExplodedAs(Leaves(t, nest), Leaves(Pair(el.0, AddLeftmost(t.right, el.2)), nest), el.1, 0)
  {
    var L, R := Leaves(t.left, nest + 1), Leaves(t.right, nest + 1);
    LeavesAddLeftmost(t.right, nest + 1, el.2);
    ExplodeLeftCase(L, R, Leaves(el.0, nest + 1), el.1, el.2);
  }

  /** `ExplodeStep` where the left half does not explode and the right half does. */
  lemma ExplodeStepRight(t: Tree, nest: nat, er: (Tree, nat, nat))
    requires t.Pair? && nest < 4 && ExplodeTree(t.left, nest + 1).None? && ExplodeTree(t.right, nest + 1) == Some(er)
    requires FirstDeep(Leaves(t.left, nest + 1)).None?
    requires ExplodedAs(Leaves(t.right, nest + 1), Leaves(er.0, nest + 1), er.1, er.2)
    ensures ExplodeTree(t, nest) == Some((Pair(AddRightmost(t.left, er.1), er.0), 0, er.2))
    ensures ExplodedAs(Leaves(t, nest), Leaves(Pair(AddRightmost(t.left, er.1), er.0), nest), 0, er.2)
  {
    var L, R := Leaves(t.left, nest + 1), Leaves(t.right, nest + 1);
    LeavesAddRightmost(t.left, nest + 1, er.1);
    ExplodeRightCase(L, R, Leaves(er.0, nest + 1), er.1, er.2);
  }

  lemma BoundHalves(L: seq<Element>, R: seq<Element>)
    requires DepthsAtMost(L + R, 4)
    ensures DepthsAtMost(L, 4) && DepthsAtMost(R, 4)
  {
    var s := L + R;
    assert forall k :: 0 <= k < |L| ==> s[k] == L[k];
    assert forall k :: 0 <= k < |R| ==> s[|L| + k] == R[k];
  }

  /** A pair inside four brackets, with nothing deeper than 4, is two regular numbers, and explodes whole. */
  lemma ExplodeBottom(t: Tree)
    requires t.Pair? && DepthsAtMost(Leaves(t, 4), 4)
    ensures ExplodeAgrees(ExplodeTree(t, 4), Leaves(t, 4), 4)
  {
    var s := Leaves(t, 4);
    var L, R := Leaves(t.left, 5), Leaves(t.right, 5);
    assert s[0] == L[0] && s[|L|] == R[0];
    if t.left.Pair? {
      LeavesDepth(t.left, 5);
    }
    if t.right.Pair? {
      LeavesDepth(t.right, 5);
    }
    assert s == [Element(t.left.n, 4), Element(t.right.n, 4)];
    assert ExplodeAt(s, 0) == [Element(0, 3)];
  }

  /** The step of `ExplodeLeaves` where the left half explodes: the right half gets the right value. */
  lemma ExplodeLeftCase(L: seq<Element>, R: seq<Element>, A: seq<Element>, a: nat, b: nat)
    requires R != [] && ExplodedAs(L, A, a, b)
    ensures ExplodedAs(L + R, A + AddToFirst(R, b), a, 0)
  {
    var i := FirstDeep(L).value;
    FirstDeepAppend(L, R);
    ExplodeInLeft(L, R, i);
    assert (L + R)[i] == L[i];
  }

  /** The step of `ExplodeLeaves` where the right half explodes: the left half gets the left value. */
  lemma ExplodeRightCase(L: seq<Element>, R: seq<Element>, B: seq<Element>, a: nat, b: nat)
    requires L != [] && FirstDeep(L).None? && ExplodedAs(R, B, a, b)
    ensures ExplodedAs(L + R, AddToLast(L, a) + B, 0, b)
  {
    var j := FirstDeep(R).value;
    ExplodeRightList(L, R, j, a, B);
    ExplodeRightAt(L, R, j, B, a, b);
  }

  lemma ExplodeRightAt(L: seq<Element>, R: seq<Element>, j: nat, B: seq<Element>, a: nat, b: nat)
    requires L != [] && FirstDeep(L).None? && FirstDeep(R) == Some(j) && j + 1 < |R| && R[j].depth == 4
    requires AddToLast(L, a) + B == ExplodeAt(L + R, |L| + j) && b == (if j + 2 < |R| then 0 else R[j + 1].value)
    ensures ExplodedAs(L + R, AddToLast(L, a) + B, 0, b)
  {
    hide ExplodeAt;
    ExplodeRightFacts(L, R, j);
    ExplodedInner(L + R, AddToLast(L, a) + B, b, |L| + j);
  }

  lemma ExplodeRightFacts(L: seq<Element>, R: seq<Element>, j: nat)
    requires L != [] && FirstDeep(L).None? && FirstDeep(R) == Some(j) && j + 1 < |R|
    ensures FirstDeep(L + R) == Some(|L| + j) && (L + R)[|L| + j + 1] == R[j + 1]
  {
    FirstDeepAppend(L, R);
  }

  lemma ExplodeRightList(L: seq<Element>, R: seq<Element>, j: nat, a: nat, B: seq<Element>)
    requires L != [] && j + 1 < |R| && R[j].depth == 4
    requires a == (if j == 0 then R[0].value else 0) && B == ExplodeAt(R, j)
    ensures AddToLast(L, a) + B == ExplodeAt(L + R, |L| + j)
  {
    ExplodeInRight(L, R, j);
  }

  lemma ExplodedInner(s: seq<Element>, list: seq<Element>, b: nat, i: nat)
    requires FirstDeep(s) == Some(i) && 0 < i && i + 1 < |s| && list == ExplodeAt(s, i)
    requires b == (if i + 2 < |s| then 0 else s[i + 1].value)
    ensures ExplodedAs(s, list, 0, b)
  {
  }

  /** The list's first value of 10 or more is the tree's splitting number, and `SplitAt` gives the list of the split tree. */
  lemma {:induction false} SplitLeaves(t: Tree, nest: nat)
    requires t.Pair? || nest >= 1
    ensures SplitTree(t).None? <==> FirstBig(Leaves(t, nest)).None?
    ensures SplitTree(t).Some? ==> Leaves(SplitTree(t).value, nest) == SplitAt(Leaves(t, nest), FirstBig(Leaves(t, nest)).value)
  {
    match t
    case Leaf(v) =>
      SplitLeaf(v, nest);
    case Pair(lt, rt) =>
      var L, R := Leaves(lt, nest + 1), Leaves(rt, nest + 1);
      SplitLeaves(lt, nest + 1);
      SplitLeaves(rt, nest + 1);
      FirstBigAppend(L, R);
      if FirstBig(L).Some? {
        SplitLeftCase(t, nest, L, R);
      } else if FirstBig(R).Some? {
        SplitRightCase(t, nest, L, R);
      } else {
        assert SplitTree(t).None?;
      }
  }

  /** The step of `SplitLeaves` where the left half splits. */
  lemma SplitLeftCase(t: Tree, nest: nat, L: seq<Element>, R: seq<Element>)
    requires t.Pair? && L == Leaves(t.left, nest + 1) && R == Leaves(t.right, nest + 1)
    requires SplitTree(t.left).Some? && FirstBig(L).Some? && FirstBig(L + R) == FirstBig(L)
    requires Leaves(SplitTree(t.left).value, nest + 1) == SplitAt(L, FirstBig(L).value)
    ensures SplitTree(t) == Some(Pair(SplitTree(t.left).value, t.right))
    ensures Leaves(SplitTree(t).value, nest) == SplitAt(L + R, FirstBig(L + R).value)
  {
    var lt' := SplitTree(t.left).value;
    var i := FirstBig(L).value;
    SplitInLeft(L, R, i);
    calc {
      Leaves(Pair(lt', t.right), nest);
      Leaves(lt', nest + 1) + R;
      SplitAt(L, i) + R;
      SplitAt(L + R, i);
    }
  }

  /** The step of `SplitLeaves` where the right half splits. */
  lemma SplitRightCase(t: Tree, nest: nat, L: seq<Element>, R: seq<Element>)
    requires t.Pair? && L == Leaves(t.left, nest + 1) && R == Leaves(t.right, nest + 1)
    requires SplitTree(t.left).None? && SplitTree(t.right).Some?
    requires FirstBig(R).Some? && FirstBig(L + R) == Some(|L| + FirstBig(R).value)
    requires Leaves(SplitTree(t.right).value, nest + 1) == SplitAt(R, FirstBig(R).value)
    ensures SplitTree(t) == Some(Pair(t.left, SplitTree(t.right).value))
    ensures Leaves(SplitTree(t).value, nest) == SplitAt(L + R, FirstBig(L + R).value)
  {
    var rt' := SplitTree(t.right).value;
    var j := FirstBig(R).value;
    SplitInRight(L, R, j);
    calc {
      Leaves(Pair(t.left, rt'), nest);
      L + Leaves(rt', nest + 1);
      L + SplitAt(R, j);
      SplitAt(L + R, |L| + j);
    }
  }

  lemma SplitLeaf(v: nat, nest: nat)
    requires nest >= 1
    ensures SplitTree(Leaf(v)).None? <==> FirstBig(Leaves(Leaf(v), nest)).None?
    ensures SplitTree(Leaf(v)).Some? ==> Leaves(SplitTree(Leaf(v)).value, nest) == SplitAt(Leaves(Leaf(v), nest), 0)
  {
    assert v / 2 + v % 2 == (v + 1) / 2;
  }

  /**
   * `magnitude`'s search finds the tree's leftmost pair of two regular
   * numbers, and `MergeAt` gives the list of the tree with that pair replaced
   * by its magnitude.
   */
  lemma {:induction false} CollapseLeaves(t: Tree, nest: nat)
    requires t.Pair?
    ensures FirstEq(Leaves(t, nest)).Some?
    ensures Leaves(CollapseFirst(t), nest) == MergeAt(Leaves(t, nest), FirstEq(Leaves(t, nest)).value)
  {
    var L, R := Leaves(t.left, nest + 1), Leaves(t.right, nest + 1);
    if t.left.Pair? {
      CollapseLeaves(t.left, nest + 1);
      CollapseLeft(L, R, Leaves(CollapseFirst(t.left), nest + 1));
    } else if t.right.Pair? {
      CollapseLeaves(t.right, nest + 1);
      LeavesDepth(t.right, nest + 1);
      assert R[0].depth >= nest + 1;
      CollapseRight(L, R, Leaves(CollapseFirst(t.right), nest + 1));
    } else {
      EqIs(L + R, 0);
    }
  }

  /** `FirstEq` is the first index whose element has the depth of the next. */
  lemma EqIs(s: seq<Element>, i: nat)
    requires i + 1 < |s| && EqAt(s, i) && forall k :: 0 <= k < i ==> !EqAt(s, k)
    ensures FirstEq(s) == Some(i)
  {
  }

  /** The step of `CollapseLeaves` where the pair collapsed is in the left half. */
  lemma CollapseLeft(L: seq<Element>, R: seq<Element>, A: seq<Element>)
    requires FirstEq(L).Some? && A == MergeAt(L, FirstEq(L).value)
    ensures FirstEq(L + R) == FirstEq(L) && A + R == MergeAt(L + R, FirstEq(L).value)
  {
    var s, i := L + R, FirstEq(L).value;
    forall k | 0 <= k <= i
      ensures EqAt(s, k) == EqAt(L, k)
    {
      assert s[k] == L[k] && s[k + 1] == L[k + 1];
    }
    EqIs(s, i);
    MergeInLeft(L, R, i);
  }

  /** The step of `CollapseLeaves` where the left half is one regular number, above the right half. */
  lemma CollapseRight(L: seq<Element>, R: seq<Element>, B: seq<Element>)
    requires |L| == 1 && R != [] && L[0].depth != R[0].depth
    requires FirstEq(R).Some? && B == MergeAt(R, FirstEq(R).value)
    ensures FirstEq(L + R) == Some(1 + FirstEq(R).value) && L + B == MergeAt(L + R, 1 + FirstEq(R).value)
  {
    var s, j := L + R, FirstEq(R).value;
    assert s[0] == L[0] && s[1] == R[0];
    assert !EqAt(s, 0);
    forall k | 1 <= k <= j + 1
      ensures EqAt(s, k) == EqAt(R, k - 1)
    {
      assert s[k] == R[k - 1] && s[k + 1] == R[k];
    }
    EqIs(s, 1 + j);
    MergeInRight(L, R, j);
  }

  /** Collapsing a pair into its magnitude keeps the magnitude of the whole. */
  lemma {:induction false} CollapseMag(t: Tree)
    requires t.Pair?
    ensures Mag(CollapseFirst(t)) == Mag(t)
  {
    if t.left.Pair? {
      CollapseMag(t.left);
    } else if t.right.Pair? {
      CollapseMag(t.right);
    }
  }

  /** A pair, or anything inside brackets, one level further in: every depth grows by one. */
  lemma {:induction false} LeavesDeeper(t: Tree, nest: nat)
    requires t.Pair? || nest >= 1
    ensures Leaves(t, nest + 1) == Deeper(Leaves(t, nest))
  {
    if t.Pair? {
      LeavesDeeper(t.left, nest + 1);
      LeavesDeeper(t.right, nest + 1);
      DeeperAppend(Leaves(t.left, nest + 1), Leaves(t.right, nest + 1));
    }
  }

  /** `add`'s list is the list of the pair of the two numbers. */
  lemma AddIsPair(t1: Tree, t2: Tree)
    requires t1.Pair? && t2.Pair?
    ensures Elements(Pair(t1, t2)) == Deeper(Elements(t1) + Elements(t2))
  {
    LeavesDeeper(t1, 0);
    LeavesDeeper(t2, 0);
    DeeperAppend(Elements(t1), Elements(t2));
  }

  /** The updates `explode` makes in place, one after the other, give `ExplodeAt`. */
  lemma ExplodeSteps(s: seq<Element>, i: nat, e1: seq<Element>, e2: seq<Element>, e3: seq<Element>)
    requires i + 1 < |s| && s[i].depth == 4
    requires e1 == if i > 0 then s[i - 1 := Element(s[i - 1].value + s[i].value, s[i - 1].depth)] else s
    requires e2 == if i + 2 < |s| then e1[i + 2 := Element(e1[i + 2].value + e1[i + 1].value, e1[i + 2].depth)] else e1
    requires e3 == e2[i := Element(0, 3)]
    ensures e3[..i + 1] + e3[i + 2..] == ExplodeAt(s, i)
  {
    var r := e3[..i + 1] + e3[i + 2..];
    assert r[..i] == e3[..i] == e1[..i] == AddToLast(s[..i], s[i].value);
    assert r[i + 1..] == e3[i + 2..] == e2[i + 2..] == AddToFirst(s[i + 2..], s[i + 1].value);
    assert r == r[..i] + [Element(0, 3)] + r[i + 1..];
  }

  /** A round of `reduce` that explodes, on the tree and on its list. */
  lemma ExplodeRound(u: Tree, f: nat)
    requires u.Pair? && DepthsAtMost(Elements(u), 4) && f > 0
    ensures FirstDeep(Elements(u)).None? <==> ExplodeTree(u, 0).None?
    ensures FirstDeep(Elements(u)).Some? ==> FirstDeep(Elements(u)).value + 1 < |Elements(u)|
    ensures ExplodeTree(u, 0).Some? ==> ExplodeTree(u, 0).value.0.Pair? && ReduceTree(ExplodeTree(u, 0).value.0, f - 1) == ReduceTree(u, f)
    ensures ExplodeTree(u, 0).Some? ==> Elements(ExplodeTree(u, 0).value.0) == ExplodeAt(Elements(u), FirstDeep(Elements(u)).value)
    ensures ExplodeTree(u, 0).Some? ==> DepthsAtMost(Elements(ExplodeTree(u, 0).value.0), 4)
  {
    ExplodeLeaves(u, 0);
    if ExplodeTree(u, 0).Some? {
      ExplodeDepths(Elements(u), FirstDeep(Elements(u)).value);
    }
  }

  /** A round of `reduce` that does not explode: it splits, or the number is reduced. */
  lemma SplitRound(u: Tree, f: nat)
    requires u.Pair? && DepthsAtMost(Elements(u), 4) && f > 0 && ExplodeTree(u, 0).None? && FirstDeep(Elements(u)).None?
    ensures FirstBig(Elements(u)).None? <==> SplitTree(u).None?
    ensures SplitTree(u).Some? ==> SplitTree(u).value.Pair? && ReduceTree(SplitTree(u).value, f - 1) == ReduceTree(u, f)
    ensures SplitTree(u).Some? ==> Elements(SplitTree(u).value) == SplitAt(Elements(u), FirstBig(Elements(u)).value)
    ensures SplitTree(u).Some? ==> DepthsAtMost(Elements(SplitTree(u).value), 4)
    ensures SplitTree(u).None? ==> ReduceTree(u, f) == Some(u) && DepthsAtMost(Elements(u), 3)
  {
    var s := Elements(u);
    SplitLeaves(u, 0);
    if SplitTree(u).Some? {
      SplitDepths(s, FirstBig(s).value);
    } else {
      forall k | 0 <= k < |s|
        ensures s[k].depth <= 3
      {
        assert !DeepAt(s, k);
      }
    }
  }

  /** Explode never deepens the list. */
  lemma ExplodeDepths(s: seq<Element>, i: nat)
    requires i + 1 < |s| && s[i].depth == 4 && DepthsAtMost(s, 4)
    ensures DepthsAtMost(ExplodeAt(s, i), 4)
  {
    var r := ExplodeAt(s, i);
    var A, B := AddToLast(s[..i], s[i].value), AddToFirst(s[i + 2..], s[i + 1].value);
    assert r == A + [Element(0, 3)] + B;
    forall k | 0 <= k < |r| ensures r[k].depth <= 4 {
      if k < i {
        assert r[k] == A[k];
        if k < i - 1 {
          assert A[k] == s[k];
        }
      } else if k > i {
        assert r[k] == B[k - i - 1];
        if k > i + 1 {
          assert B[k - i - 1] == s[k + 1];
        }
      }
    }
  }

  /** A split where nothing is at depth 4 keeps every depth at most 4. */
  lemma SplitDepths(s: seq<Element>, i: nat)
    requires i < |s| && DepthsAtMost(s, 4) && FirstDeep(s).None?
    ensures DepthsAtMost(SplitAt(s, i), 4)
  {
    var r := SplitAt(s, i);
    assert !DeepAt(s, i);
    forall k | 0 <= k < |r| ensures r[k].depth <= 4 {
      if k < i {
        assert r[k] == s[k];
      } else if k > i + 1 {
        assert r[k] == s[k - 1];
      }
    }
  }

  /** A reduced tree has nothing left to explode or split. */
  lemma {:induction false} ReduceTreeReduced(t: Tree, fuel: nat)
    requires ReduceTree(t, fuel).Some?
    ensures ExplodeTree(ReduceTree(t, fuel).value, 0).None? && SplitTree(ReduceTree(t, fuel).value).None?
    decreases fuel
  {
    match ExplodeTree(t, 0)
    case Some((t', _, _)) => ReduceTreeReduced(t', fuel - 1);
    case None =>
      match SplitTree(t)
      case Some(t') => ReduceTreeReduced(t', fuel - 1);
      case None =>
  }

  // ---------------------------------------------------------------------------
  // Reading a number.

  /** The digit character for `v`. */
  function DigitChar(v: nat): char
    requires v <= 9
  {
    ('0' as int + v) as char
  }

  /** A tree whose regular numbers are single digits. */
  predicate Digits(t: Tree) {
    match t
    case Leaf(v) => v <= 9
    case Pair(lt, rt) => Digits(lt) && Digits(rt)
  }

  /** A number written out in brackets. */
  function Show(t: Tree): string
    requires Digits(t)
  {
    match t
    case Leaf(v) => [DigitChar(v)]
    case Pair(lt, rt) => "[" + Show(lt) + "," + Show(rt) + "]"
  }

  /**
   * The loop of `parse` from a running bracket count: `[` and `]` count,
   * `,` is skipped, a digit is recorded at the count less one. `None` where
   * the source panics: a `]` or a digit with no bracket open, or a character
   * that is not a digit.
   */
  function ParseFrom(line: string, depth: nat): Option<seq<Element>> {
    if line == [] then Some([])
    else
      var c := line[0];
      if c == '[' then ParseFrom(line[1..], depth + 1)
      else if c == ']' then (if depth == 0 then None else ParseFrom(line[1..], depth - 1))
      else if c == ',' then ParseFrom(line[1..], depth)
      else if '0' <= c <= '9' && depth > 0 then
        match ParseFrom(line[1..], depth)
        case None => None
        case Some(rest) => Some([Element(c as int - '0' as int, depth - 1)] + rest)
      else None
  }

  /** `xs` put in front of a parse result, if there is one. */
  function Prepend(xs: seq<Element>, o: Option<seq<Element>>): Option<seq<Element>> {
    match o
    case None => None
    case Some(after) => Some(xs + after)
  }

  lemma PrependTwice(xs: seq<Element>, ys: seq<Element>, o: Option<seq<Element>>)
    ensures Prepend(xs, Prepend(ys, o)) == Prepend(xs + ys, o)
  {
    if o.Some? {
      assert xs + (ys + o.value) == (xs + ys) + o.value;
    }
  }

  /** Reading a written number back: its regular numbers, with depths from the brackets around them. */
  lemma {:induction false} ParseShow(t: Tree, depth: nat, rest: string)
    requires Digits(t) && (t.Pair? || depth >= 1)
    ensures ParseFrom(Show(t) + rest, depth) == Prepend(Leaves(t, depth), ParseFrom(rest, depth))
  {
    match t
    case Leaf(v) =>
      assert (Show(t) + rest)[1..] == rest;
    case Pair(lt, rt) =>
      var close := "]" + rest;
      var tail := "," + (Show(rt) + close);
      assert Show(t) + rest == [ '[' ] + (Show(lt) + tail);
      calc {
        ParseFrom(Show(t) + rest, depth);
        { ParsePunct('[', Show(lt) + tail, depth); }
        ParseFrom(Show(lt) + tail, depth + 1);
        { ParseShow(lt, depth + 1, tail); }
        Prepend(Leaves(lt, depth + 1), ParseFrom(tail, depth + 1));
        { ParsePunct(',', Show(rt) + close, depth + 1); }
        Prepend(Leaves(lt, depth + 1), ParseFrom(Show(rt) + close, depth + 1));
        { ParseShow(rt, depth + 1, close); }
        Prepend(Leaves(lt, depth + 1), Prepend(Leaves(rt, depth + 1), ParseFrom(close, depth + 1)));
        { ParsePunct(']', rest, depth + 1); }
        Prepend(Leaves(lt, depth + 1), Prepend(Leaves(rt, depth + 1), ParseFrom(rest, depth)));
        { PrependTwice(Leaves(lt, depth + 1), Leaves(rt, depth + 1), ParseFrom(rest, depth)); }
        Prepend(Leaves(t, depth), ParseFrom(rest, depth));
      }
  }

  /** A bracket or a comma changes only the bracket count. */
  lemma ParsePunct(c: char, s: string, depth: nat)
    requires c == '[' || c == ',' || (c == ']' && depth >= 1)
    ensures ParseFrom([c] + s, depth) == ParseFrom(s, if c == '[' then depth + 1 else if c == ']' then depth - 1 else depth)
  {
    assert ([c] + s)[1..] == s;
  }

  /** `parse` of a written number gives that number's list. */
  lemma ParseNumber(t: Tree)
    requires Digits(t) && t.Pair?
    ensures ParseFrom(Show(t), 0) == Some(Elements(t))
  {
    ParseShow(t, 0, "");
    assert Show(t) + "" == Show(t);
    assert Leaves(t, 0) + [] == Leaves(t, 0);
  }

  // ---------------------------------------------------------------------------
  // The number, updated in place.

  class SnailfishNumber {
    var elements: seq<Element>

    /** `SnailfishNumber::parse`. */
    constructor Parse(line: string)
      requires ParseFrom(line, 0).Some?
      ensures elements == ParseFrom(line, 0).value
    {
      var es: seq<Element> := [];
      var depth: nat := 0;
      var i := 0;
      while i < |line|
        invariant 0 <= i <= |line|
        invariant ParseFrom(line[i..], depth).Some?
        invariant ParseFrom(line, 0).value == es + ParseFrom(line[i..], depth).value
      {
        var c := line[i];
        assert line[i..][1..] == line[i + 1..];
        if c == '[' {
          depth := depth + 1;
        } else if c == ']' {
          depth := depth - 1;
        } else if c == ',' {
        } else {
          var rest := ParseFrom(line[i + 1..], depth).value;
          es := es + [Element(c as int - '0' as int, depth - 1)];
        }
        i := i + 1;
      }
      elements := es;
    }

    /** A copy (`clone`). */
    constructor Copy(other: SnailfishNumber)
      ensures elements == other.elements
    {
      elements := other.elements;
    }

    /** `explode`: the source needs the depth-4 element found to have an element after it. */
    method Explode() returns (exploded: bool)
      modifies this
      requires FirstDeep(elements).Some? ==> FirstDeep(elements).value + 1 < |elements|
      ensures exploded <==> FirstDeep(old(elements)).Some?
      ensures !exploded ==> elements == old(elements)
      ensures exploded ==> elements == ExplodeAt(old(elements), FirstDeep(old(elements)).value)
    {
      var found := FirstDeep(elements);
      if found.None? {
        return false;
      }
      var i := found.value;
      ghost var s := elements;
      if i > 0 {
        elements := elements[i - 1 := Element(elements[i - 1].value + elements[i].value, elements[i - 1].depth)];
      }
      ghost var e1 := elements;
      if i + 2 < |elements| {
        elements := elements[i + 2 := Element(elements[i + 2].value + elements[i + 1].value, elements[i + 2].depth)];
      }
      ghost var e2 := elements;
      elements := elements[i := Element(0, elements[i].depth - 1)];
      ExplodeSteps(s, i, e1, e2, elements);
      elements := elements[..i + 1] + elements[i + 2..];
      return true;
    }

    /** `split`. */
    method Split() returns (split: bool)
      modifies this
      ensures split <==> FirstBig(old(elements)).Some?
      ensures !split ==> elements == old(elements)
      ensures split ==> elements == SplitAt(old(elements), FirstBig(old(elements)).value)
    {
      var found := FirstBig(elements);
      if found.None? {
        return false;
      }
      var i := found.value;
      var half := elements[i].value / 2;
      var carry := elements[i].value % 2;
      elements := elements[i := Element(half, elements[i].depth + 1)];
      var newElement := Element(half + carry, elements[i].depth);
      elements := elements[..i + 1] + [newElement] + elements[i + 1..];
      return true;
    }

    /**
     * `reduce`: explode while possible, else split, until neither applies.
     * The list stands for the tree `t`, and the steps are those of
     * `ReduceTree`; the loop gives up after `fuel` rounds.
     */
    method Reduce(ghost t: Tree, fuel: nat) returns (done: bool)
      modifies this
      requires elements == Elements(t) && t.Pair? && DepthsAtMost(elements, 4)
      ensures done <==> ReduceTree(t, fuel).Some?
      ensures done ==> elements == Elements(ReduceTree(t, fuel).value)
      ensures done ==> FirstDeep(elements).None? && FirstBig(elements).None?
      ensures done ==> ReduceTree(t, fuel).value.Pair? && DepthsAtMost(elements, 3)
    {
      ghost var u := t;
      var f := fuel;
      while f > 0
        invariant elements == Elements(u) && u.Pair? && DepthsAtMost(elements, 4)
        invariant ReduceTree(u, f) == ReduceTree(t, fuel)
        decreases f
      {
        ExplodeRound(u, f);
        var exploded := Explode();
        if exploded {
          u := ExplodeTree(u, 0).value.0;
          f := f - 1;
          continue;
        }
        SplitRound(u, f);
        var split := Split();
        if !split {
          return true;
        }
        u := SplitTree(u).value;
        f := f - 1;
      }
      return false;
    }

    /** `add`: the other number's list appended, every depth one deeper, then `reduce`. */
    method Add(other: SnailfishNumber, ghost t1: Tree, ghost t2: Tree, fuel: nat) returns (done: bool)
      modifies this
      requires elements == Elements(t1) && other.elements == Elements(t2) && t1.Pair? && t2.Pair?
      requires DepthsAtMost(elements, 3) && DepthsAtMost(other.elements, 3)
      ensures done <==> ReduceTree(Pair(t1, t2), fuel).Some?
      ensures done ==> elements == Elements(ReduceTree(Pair(t1, t2), fuel).value)
      ensures done ==> ReduceTree(Pair(t1, t2), fuel).value.Pair? && DepthsAtMost(elements, 3)
    {
      var joined := elements + other.elements;
      elements := joined;
      for i := 0 to |elements|
        invariant |elements| == |joined|
        invariant forall k :: 0 <= k < i ==> elements[k] == Element(joined[k].value, joined[k].depth + 1)
        invariant forall k :: i <= k < |elements| ==> elements[k] == joined[k]
      {
        elements := elements[i := Element(elements[i].value, elements[i].depth + 1)];
      }
      DeeperAt(joined);
      AddIsPair(t1, t2);
      done := Reduce(Pair(t1, t2), fuel);
    }

    /** `magnitude`: on a copy of the list, the first two neighbours of equal depth merged until one is left. */
    method Magnitude(ghost t: Tree) returns (m: nat)
      requires elements == Elements(t)
      ensures m == Mag(t)
    {
      var es := elements;
      ghost var u := t;
      while |es| > 1
        invariant es == Elements(u) && Mag(u) == Mag(t)
        decreases |es|
      {
        CollapseLeaves(u, 0);
        CollapseMag(u);
        var i := FirstEq(es).value;
        var depth := if es[i].depth > 0 then es[i].depth - 1 else 0;
        es := es[..i] + [Element(3 * es[i].value + 2 * es[i + 1].value, depth)] + es[i + 2..];
        u := CollapseFirst(u);
      }
      return es[0].value;
    }
  }

  // ---------------------------------------------------------------------------
  // The two answers.

  /** A number as the puzzle input writes it: a pair, single digits, nested at most four deep. */
  predicate Input(t: Tree) {
    Digits(t) && t.Pair? && DepthsAtMost(Elements(t), 3)
  }

  /** The running sum of `solution_a`: `acc` added to each of `ts` in turn, `None` when fuel runs out. */
  function SumFrom(acc: Tree, ts: seq<Tree>, fuel: nat): Option<Tree>
    decreases |ts|
  {
    if ts == [] then Some(acc)
    else
      match ReduceTree(Pair(acc, ts[0]), fuel)
      case None => None
      case Some(a) => SumFrom(a, ts[1..], fuel)
  }

  /** A sum of at least two numbers is reduced: nothing explodes and nothing splits. */
  lemma {:induction false} SumReduced(acc: Tree, ts: seq<Tree>, fuel: nat)
    requires ts != [] && SumFrom(acc, ts, fuel).Some?
    ensures ExplodeTree(SumFrom(acc, ts, fuel).value, 0).None? && SplitTree(SumFrom(acc, ts, fuel).value).None?
    decreases |ts|
  {
    var a := ReduceTree(Pair(acc, ts[0]), fuel).value;
    if |ts| == 1 {
      assert SumFrom(a, ts[1..], fuel) == Some(a);
      ReduceTreeReduced(Pair(acc, ts[0]), fuel);
    } else {
      SumReduced(a, ts[1..], fuel);
    }
  }

  /** `parse`: one number per line. */
  method ParseAll(lines: seq<string>, ghost ts: seq<Tree>) returns (numbers: seq<SnailfishNumber>)
    requires |lines| == |ts| && forall i :: 0 <= i < |ts| ==> Digits(ts[i]) && ts[i].Pair? && lines[i] == Show(ts[i])
    ensures |numbers| == |lines|
    ensures forall i :: 0 <= i < |numbers| ==> fresh(numbers[i]) && numbers[i].elements == Elements(ts[i])
  {
    numbers := [];
    for i := 0 to |lines|
      invariant |numbers| == i
      invariant forall k :: 0 <= k < i ==> fresh(numbers[k]) && numbers[k].elements == Elements(ts[k])
    {
      ParseNumber(ts[i]);
      var n := new SnailfishNumber.Parse(lines[i]);
      numbers := numbers + [n];
    }
  }

  /** `solution_a`: the magnitude of the sum of all the numbers, in order; `None` when fuel runs out. */
  method SolutionA(lines: seq<string>, ghost ts: seq<Tree>, fuel: nat) returns (r: Option<nat>)
    requires |lines| == |ts| >= 1
    requires forall i :: 0 <= i < |ts| ==> Input(ts[i]) && lines[i] == Show(ts[i])
    ensures r.Some? <==> SumFrom(ts[0], ts[1..], fuel).Some?
    ensures r.Some? ==> r.value == Mag(SumFrom(ts[0], ts[1..], fuel).value)
  {
    var numbers := ParseAll(lines, ts);
    var number := new SnailfishNumber.Copy(numbers[0]);
    ghost var acc := ts[0];
    for i := 1 to |numbers|
      invariant forall k :: 0 <= k < |numbers| ==> numbers[k].elements == Elements(ts[k])
      invariant number.elements == Elements(acc) && acc.Pair? && DepthsAtMost(number.elements, 3)
      invariant SumFrom(acc, ts[i..], fuel) == SumFrom(ts[0], ts[1..], fuel)
    {
      var done := number.Add(numbers[i], acc, ts[i], fuel);
      if !done {
        return None;
      }
      acc := ReduceTree(Pair(acc, ts[i]), fuel).value;
    }
    assert ts[|numbers|..] == [];
    var m := number.Magnitude(acc);
    return Some(m);
  }

  /** Every ordered pair of two different numbers reduces within the fuel. */
  predicate PairsReduce(ts: seq<Tree>, fuel: nat) {
    forall i, j :: 0 <= i < |ts| && 0 <= j < |ts| && i != j ==> ReduceTree(Pair(ts[i], ts[j]), fuel).Some?
  }

  /** The magnitude of the sum of the `i`th and the `j`th number. */
  function PairMag(ts: seq<Tree>, i: nat, j: nat, fuel: nat): nat
    requires i < |ts| && j < |ts| && ReduceTree(Pair(ts[i], ts[j]), fuel).Some?
  {
    Mag(ReduceTree(Pair(ts[i], ts[j]), fuel).value)
  }

  /** `number.clone().add(other).magnitude()`: the magnitude of a sum, leaving both numbers as they were. */
  method SumMagnitude(number: SnailfishNumber, other: SnailfishNumber, ghost t1: Tree, ghost t2: Tree, fuel: nat) returns (r: Option<nat>)
    requires number.elements == Elements(t1) && other.elements == Elements(t2) && Input(t1) && Input(t2)
    ensures r.Some? <==> ReduceTree(Pair(t1, t2), fuel).Some?
    ensures r.Some? ==> r.value == Mag(ReduceTree(Pair(t1, t2), fuel).value)
  {
    var sum := new SnailfishNumber.Copy(number);
    var done := sum.Add(other, t1, t2, fuel);
    if !done {
      return None;
    }
    var m := sum.Magnitude(ReduceTree(Pair(t1, t2), fuel).value);
    return Some(m);
  }

  /** Every pair before `(i, j)`, in the order `solution_b` visits them, reduces and its magnitude is at most `largest`. */
  predicate BoundedBefore(ts: seq<Tree>, fuel: nat, i: nat, j: nat, largest: nat) {
    forall a, b :: 0 <= a < |ts| && 0 <= b < |ts| && a != b && (a < i || (a == i && b < j)) ==>
      ReduceTree(Pair(ts[a], ts[b]), fuel).Some? && PairMag(ts, a, b, fuel) <= largest
  }

  lemma BoundedStep(ts: seq<Tree>, fuel: nat, i: nat, j: nat, largest: nat, larger: nat)
    requires BoundedBefore(ts, fuel, i, j, largest) && largest <= larger && i < |ts| && j < |ts|
    requires i != j ==> ReduceTree(Pair(ts[i], ts[j]), fuel).Some? && PairMag(ts, i, j, fuel) <= larger
    ensures BoundedBefore(ts, fuel, i, j + 1, larger)
  {
  }

  lemma BoundedRow(ts: seq<Tree>, fuel: nat, i: nat, largest: nat)
    requires BoundedBefore(ts, fuel, i, |ts|, largest)
    ensures BoundedBefore(ts, fuel, i + 1, 0, largest)
  {
  }

  /** The inner loop of `solution_b`: the running `largest` against every sum of number `i` and another. */
  method LargestWith(numbers: seq<SnailfishNumber>, ghost ts: seq<Tree>, i: nat, fuel: nat, largest: nat)
    returns (r: Option<nat>, ghost wj: nat)
    requires |numbers| == |ts| && i < |ts|
    requires forall k :: 0 <= k < |ts| ==> numbers[k].elements == Elements(ts[k]) && Input(ts[k])
    requires BoundedBefore(ts, fuel, i, 0, largest)
    ensures r.None? ==> !PairsReduce(ts, fuel)
    ensures r.Some? ==> BoundedBefore(ts, fuel, i + 1, 0, r.value) && largest <= r.value
    ensures r.Some? && largest < r.value ==> Attains(ts, fuel, i, wj, r.value)
  {
    var best := largest;
    wj := 0;
    for j := 0 to |numbers|
      invariant BoundedBefore(ts, fuel, i, j, best) && largest <= best
      invariant largest < best ==> Attains(ts, fuel, i, wj, best)
    {
      if i == j {
        BoundedStep(ts, fuel, i, j, best, best);
        continue;
      }
      var sum := SumMagnitude(numbers[i], numbers[j], ts[i], ts[j], fuel);
      if sum.None? {
        return None, wj;
      }
      var magnitude := sum.value;
      if magnitude > best {
        BoundedStep(ts, fuel, i, j, best, magnitude);
        best := magnitude;
        wj := j;
      } else {
        BoundedStep(ts, fuel, i, j, best, best);
      }
    }
    BoundedRow(ts, fuel, i, best);
    return Some(best), wj;
  }

  /** The sum of the `i`th and the `j`th number, two different numbers, reduces to magnitude `m`. */
  predicate Attains(ts: seq<Tree>, fuel: nat, i: nat, j: nat, m: nat) {
    i < |ts| && j < |ts| && i != j && ReduceTree(Pair(ts[i], ts[j]), fuel).Some? && PairMag(ts, i, j, fuel) == m
  }

  lemma BoundedAll(ts: seq<Tree>, fuel: nat, largest: nat)
    requires BoundedBefore(ts, fuel, |ts|, 0, largest)
    ensures PairsReduce(ts, fuel)
    ensures forall i, j :: 0 <= i < |ts| && 0 <= j < |ts| && i != j ==> PairMag(ts, i, j, fuel) <= largest
    ensures largest == 0 && |ts| >= 2 ==> Attains(ts, fuel, 0, 1, 0)
  {
  }

  /** `solution_b`: the largest magnitude of a sum of two different numbers, 0 with fewer than two. */
  method SolutionB(lines: seq<string>, ghost ts: seq<Tree>, fuel: nat) returns (r: Option<nat>)
    requires |lines| == |ts|
    requires forall i :: 0 <= i < |ts| ==> Input(ts[i]) && lines[i] == Show(ts[i])
    ensures r.Some? <==> PairsReduce(ts, fuel)
    ensures r.Some? ==> forall i, j :: 0 <= i < |ts| && 0 <= j < |ts| && i != j ==> PairMag(ts, i, j, fuel) <= r.value
    ensures r.Some? && |ts| >= 2 ==> exists i, j :: Attains(ts, fuel, i, j, r.value)
    ensures r.Some? && |ts| < 2 ==> r.value == 0
  {
    var numbers := ParseAll(lines, ts);
    var largest := 0;
    ghost var wi, wj := 0, 1;
    for i := 0 to |numbers|
      invariant forall k :: 0 <= k < |ts| ==> numbers[k].elements == Elements(ts[k]) && Input(ts[k])
      invariant BoundedBefore(ts, fuel, i, 0, largest)
      invariant largest > 0 ==> Attains(ts, fuel, wi, wj, largest)
    {
      var row, w := LargestWith(numbers, ts, i, fuel, largest);
      if row.None? {
        return None;
      }
      if row.value > largest {
        wi, wj := i, w;
      }
      largest := row.value;
    }
    BoundedAll(ts, fuel, largest);
    return Some(largest);
  }
}

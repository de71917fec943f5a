/** Walking a tree by its links: in sort order forwards and backwards, and in postorder. */
module RbWalk {
  import opened Common
  import opened RbShape
  import opened RbMemory
  import opened RbOrder

  /** Memory carries the tree `whole`, and its nodes are all of `s`. */
  ghost predicate Carries(m: Memory, whole: Tree<RbNode>) {
    At(m, Top, whole) && m.row.Keys == Nodes(whole)
  }

  function FirstOf(s: seq<RbNode>): RbNode? {
    if s == [] then null else s[0]
  }

  function LastOf(s: seq<RbNode>): RbNode? {
    if s == [] then null else s[|s| - 1]
  }

  // ---------------------------------------------------------------- sort order

  method Leftmost(n0: RbNode, root: RbRoot, ghost s: set<RbNode>, ghost p: Path<RbNode>, ghost t0: Tree<RbNode>)
    returns (n: RbNode)
    requires At(Snapshot(root, s), p, t0) && RootOf(t0) == n0
    ensures Inorder(t0) != [] && n == Inorder(t0)[0]
  {
    n := n0;
    ghost var m, t, rest := Snapshot(root, s), t0, [];
    while n.left != null
      invariant t.Node? && t.node == n && n in s && Linked(m, t, m.row[n].pc.parent)
      invariant Inorder(t0) == Inorder(t) + rest
      decreases t
    {
      rest := [t.node] + Inorder(t.right) + rest;
      t := t.left;
      n := n.left;
    }
  }

  method Rightmost(n0: RbNode, root: RbRoot, ghost s: set<RbNode>, ghost p: Path<RbNode>, ghost t0: Tree<RbNode>)
    returns (n: RbNode)
    requires At(Snapshot(root, s), p, t0) && RootOf(t0) == n0
    ensures Inorder(t0) != [] && n == Inorder(t0)[|Inorder(t0)| - 1]
  {
    n := n0;
    ghost var m, t, rest := Snapshot(root, s), t0, [];
    while n.right != null
      invariant t.Node? && t.node == n && n in s && Linked(m, t, m.row[n].pc.parent)
      invariant Inorder(t0) == rest + Inorder(t)
      decreases t
    {
      assert rest + (Inorder(t.left) + [t.node] + Inorder(t.right))
        == (rest + Inorder(t.left) + [t.node]) + Inorder(t.right);
      rest := rest + Inorder(t.left) + [t.node];
      t := t.right;
      n := n.right;
    }
  }

  /** The first node in sort order. */
  method First(root: RbRoot, ghost s: set<RbNode>, ghost whole: Tree<RbNode>) returns (n: RbNode?)
    requires Carries(Snapshot(root, s), whole)
    ensures n == FirstOf(Inorder(whole))
  {
    n := root.node;
    if n == null {
      return null;
    }
    n := Leftmost(n, root, s, Top, whole);
  }

  method Last(root: RbRoot, ghost s: set<RbNode>, ghost whole: Tree<RbNode>) returns (n: RbNode?)
    requires Carries(Snapshot(root, s), whole)
    ensures n == LastOf(Inorder(whole))
  {
    n := root.node;
    if n == null {
      return null;
    }
    n := Rightmost(n, root, s, Top, whole);
  }

  /** The node after `node0`, told by the cut at `node0`. */
  method NextAtCut(node0: RbNode, root: RbRoot, ghost s: set<RbNode>, ghost p0: Path<RbNode>, ghost t0: Tree<RbNode>)
    returns (n: RbNode?)
    requires node0 in s && At(Snapshot(root, s), p0, t0) && t0.Node? && t0.node == node0
    ensures n == FirstOf(Inorder(t0.right) + After(p0))
  {
    var node := node0;
    ghost var m := Snapshot(root, s);
    NoSelfParent(m, p0, t0);
    if node.pc == PC(node, Red) {
      return null;
    }
    if node.right != null {
      ghost var q := InRight(p0, t0.color, t0.left, node0);
      AtGraft(m, q, t0.right);
      var r := Leftmost(node.right, root, s, q, t0.right);
      return r;
    }
    var parent := node.pc.parent;
    ghost var p, t := p0, t0;
    while parent != null && node == parent.right
      invariant At(m, p, t) && t.Node? && t.node == node && parent == ParentOf(p) && After(p) == After(p0)
      decreases p
    {
      Sides(m, p, t);
      AtGraft(m, p, t);
      p, t := p.up, Graft(p, t);
      node := parent;
      parent := node.pc.parent;
    }
    if parent != null {
      Sides(m, p, t);
    }
    return parent;
  }

  /** The node before `node0`. */
  method PrevAtCut(node0: RbNode, root: RbRoot, ghost s: set<RbNode>, ghost p0: Path<RbNode>, ghost t0: Tree<RbNode>)
    returns (n: RbNode?)
    requires node0 in s && At(Snapshot(root, s), p0, t0) && t0.Node? && t0.node == node0
    ensures n == LastOf(Before(p0) + Inorder(t0.left))
  {
    var node := node0;
    ghost var m := Snapshot(root, s);
    NoSelfParent(m, p0, t0);
    if node.pc == PC(node, Red) {
      return null;
    }
    if node.left != null {
      ghost var q := InLeft(p0, t0.color, node0, t0.right);
      AtGraft(m, q, t0.left);
      var r := Rightmost(node.left, root, s, q, t0.left);
      return r;
    }
    var parent := node.pc.parent;
    ghost var p, t := p0, t0;
    while parent != null && node == parent.left
      invariant At(m, p, t) && t.Node? && t.node == node && parent == ParentOf(p) && Before(p) == Before(p0)
      decreases p
    {
      Sides(m, p, t);
      AtGraft(m, p, t);
      p, t := p.up, Graft(p, t);
      node := parent;
      parent := node.pc.parent;
    }
    if parent != null {
      Sides(m, p, t);
    }
    return parent;
  }

  /** A linked node never looks like a cleared one, which is its own parent. */
  lemma {:induction false} NoSelfParent(m: Memory, p: Path<RbNode>, t: Tree<RbNode>)
    requires At(m, p, t) && t.Node?
    ensures t.node in m.row && m.row[t.node] == Row(PC(ParentOf(p), t.color), RootOf(t.left), RootOf(t.right))
    ensures ParentOf(p) != t.node
  {
    ApartDisjoint(p, Nodes(t));
  }

  lemma Regroup<N>(a: seq<N>, b: seq<N>, x: N, c: seq<N>, d: seq<N>)
    ensures a + (b + [x] + c) + d == (a + b) + [x] + (c + d)
  {
  }

  /** Where a cut's node stands in sort order. */
  lemma {:induction false} CutIndex(whole: Tree<RbNode>, p: Path<RbNode>, t: Tree<RbNode>, i: int)
    requires Plug(p, t) == whole && t.Node? && Distinct(whole)
    requires 0 <= i < |Inorder(whole)| && Inorder(whole)[i] == t.node
    ensures Inorder(whole)[i + 1..] == Inorder(t.right) + After(p)
    ensures Inorder(whole)[..i] == Before(p) + Inorder(t.left)
  {
    var s, a, b := Inorder(whole), Before(p) + Inorder(t.left), Inorder(t.right) + After(p);
    PlugInorder(p, t);
    assert s == a + [t.node] + b by {
      Regroup(Before(p), Inorder(t.left), t.node, Inorder(t.right), After(p));
    }
    DistinctInorder(whole);
    assert s[|a|] == t.node;
  }

  /** `n` is what comes after `x` in `s`, or null. */
  ghost predicate Follows(s: seq<RbNode>, x: RbNode, n: RbNode?) {
    forall i | 0 <= i < |s| && s[i] == x :: n == FirstOf(s[i + 1..])
  }

  /** `n` is what comes before `x` in `s`, or null. */
  ghost predicate Precedes(s: seq<RbNode>, x: RbNode, n: RbNode?) {
    forall i | 0 <= i < |s| && s[i] == x :: n == LastOf(s[..i])
  }

  /** Going back undoes going forward, and the other way round. */
  lemma {:induction false} PrecedesFollows(s: seq<RbNode>, x: RbNode, y: RbNode, n: RbNode?)
    requires NoDuplicates(s) && x in s && y in s
    ensures Follows(s, x, y) && Precedes(s, y, n) ==> n == x
    ensures Precedes(s, x, y) && Follows(s, y, n) ==> n == x
  {
    var i :| 0 <= i < |s| && s[i] == x;
    if Follows(s, x, y) && Precedes(s, y, n) {
      assert y == s[i + 1..][0] && s[i + 1] == y;
      assert n == LastOf(s[..i + 1]);
    }
    if Precedes(s, x, y) && Follows(s, y, n) {
      assert y == LastOf(s[..i]) && s[i - 1] == y;
      assert n == FirstOf(s[i - 1 + 1..]);
    }
  }

  method Next(node: RbNode, root: RbRoot, ghost s: set<RbNode>, ghost whole: Tree<RbNode>) returns (n: RbNode?)
    requires Carries(Snapshot(root, s), whole) && node in Nodes(whole)
    ensures Follows(Inorder(whole), node, n)
  {
    ghost var p, t := FindCut(Top, whole, node);
    AtPlug(Snapshot(root, s), p, t);
    n := NextAtCut(node, root, s, p, t);
    forall i | 0 <= i < |Inorder(whole)| && Inorder(whole)[i] == node
      ensures n == FirstOf(Inorder(whole)[i + 1..])
    {
      CutIndex(whole, p, t, i);
    }
  }

  method Prev(node: RbNode, root: RbRoot, ghost s: set<RbNode>, ghost whole: Tree<RbNode>) returns (n: RbNode?)
    requires Carries(Snapshot(root, s), whole) && node in Nodes(whole)
    ensures Precedes(Inorder(whole), node, n)
  {
    ghost var p, t := FindCut(Top, whole, node);
    AtPlug(Snapshot(root, s), p, t);
    n := PrevAtCut(node, root, s, p, t);
    forall i | 0 <= i < |Inorder(whole)| && Inorder(whole)[i] == node
      ensures n == LastOf(Inorder(whole)[..i])
    {
      CutIndex(whole, p, t, i);
    }
  }

  /** A walk through `order` has visited the first nodes and stands at the next, or at the end. */
  ghost predicate Walked(order: seq<RbNode>, visited: seq<RbNode>, n: RbNode?) {
    |visited| <= |order| && visited == order[..|visited|] && n == FirstOf(order[|visited|..])
  }

  lemma {:induction false} WalkStarts(order: seq<RbNode>)
    ensures Walked(order, [], FirstOf(order))
  {
    assert order[0..] == order;
  }

  lemma {:induction false} WalkAt(order: seq<RbNode>, visited: seq<RbNode>, n: RbNode?)
    requires Walked(order, visited, n)
    ensures if n == null then visited == order else |visited| < |order| && n in order
  {
    if n != null {
      assert order[|visited|..][0] == order[|visited|];
    }
  }

  lemma {:induction false} WalkStep(order: seq<RbNode>, visited: seq<RbNode>, n: RbNode, next: RbNode?)
    requires Walked(order, visited, n) && Follows(order, n, next)
    ensures Walked(order, visited + [n], next)
  {
    var i := |visited|;
    assert i < |order| && order[i..][0] == order[i] == n;
    assert order[..i] + [order[i]] == order[..i + 1];
  }

  /** Starting at the first node and stepping on until there is none visits exactly the sort order. */
  method VisitInOrder(root: RbRoot, ghost s: set<RbNode>, ghost whole: Tree<RbNode>) returns (visited: seq<RbNode>)
    requires Carries(Snapshot(root, s), whole)
    ensures visited == Inorder(whole)
  {
    hide Inorder, Walked, FirstOf, Follows, Nodes;
    ghost var order := Inorder(whole);
    WalkStarts(order);
    NodesOfInorder(whole);
    visited := [];
    var n := First(root, s, whole);
    while n != null
      invariant Walked(order, visited, n)
      decreases |order| - |visited|
    {
      WalkAt(order, visited, n);
      var next := Next(n, root, s, whole);
      WalkStep(order, visited, n, next);
      visited := visited + [n];
      n := next;
    }
    WalkAt(order, visited, n);
  }

  // ---------------------------------------------------------------- postorder

  ghost function Postorder(t: Tree<RbNode>): seq<RbNode> {
    if t.Leaf? then [] else Postorder(t.left) + Postorder(t.right) + [t.node]
  }

  /** What follows the subtree at the end of `p` in postorder. */
  ghost function PostAfter(p: Path<RbNode>): seq<RbNode> {
    match p
    case Top => []
    case InLeft(up, _, n, r) => Postorder(r) + [n] + PostAfter(up)
    case InRight(up, _, _, n) => [n] + PostAfter(up)
  }

  ghost function PostBefore(p: Path<RbNode>): seq<RbNode> {
    match p
    case Top => []
    case InLeft(up, _, _, _) => PostBefore(up)
    case InRight(up, _, l, _) => PostBefore(up) + Postorder(l)
  }

  lemma {:induction false} PlugTop(t: Tree<RbNode>)
    ensures Plug(Top, t) == t
  {
  }

  lemma {:induction false} PlugUp(p: Path<RbNode>, t: Tree<RbNode>)
    requires !p.Top?
    ensures Plug(p, t) == Plug(p.up, Graft(p, t))
  {
  }

  lemma {:induction false} Regroup3<N>(l: seq<N>, a: seq<N>, b: seq<N>, c: seq<N>, r: seq<N>)
    ensures l + (a + b + c) + r == l + a + (b + c + r) == (l + a) + b + (c + r)
  {
  }

  lemma {:induction false} PlugPostorder(p: Path<RbNode>, t: Tree<RbNode>)
    ensures Postorder(Plug(p, t)) == PostBefore(p) + Postorder(t) + PostAfter(p)
    decreases p
  {
    hide Plug;
    if p.Top? {
      PlugTop(t);
    } else {
      PlugUp(p, t);
      PlugPostorder(p.up, Graft(p, t));
      var l, r := PostBefore(p.up), PostAfter(p.up);
      if p.InLeft? {
        Regroup3(l, Postorder(t), Postorder(p.right), [p.node], r);
      } else {
        Regroup3(l, Postorder(p.left), Postorder(t), [p.node], r);
      }
    }
  }

  lemma {:induction false} NodesOfPostorder(t: Tree<RbNode>)
    ensures forall x <- Nodes(t) :: x in Postorder(t)
    ensures forall x <- Postorder(t) :: x in Nodes(t)
  {
    if t.Node? {
      NodesOfPostorder(t.left);
      NodesOfPostorder(t.right);
    }
  }

  /** Postorder lists every node once. */
  lemma {:induction false} DistinctPostorder(t: Tree<RbNode>)
    requires Distinct(t)
    ensures NoDuplicates(Postorder(t)) && |Postorder(t)| == |Inorder(t)|
  {
    if t.Node? {
      DistinctPostorder(t.left);
      DistinctPostorder(t.right);
      NodesOfPostorder(t.left);
      NodesOfPostorder(t.right);
      var l, r := Postorder(t.left), Postorder(t.right);
      forall y <- l ensures y !in r {
        assert y in Nodes(t.left);
      }
      forall i, j | 0 <= i < j < |l + r| ensures (l + r)[i] != (l + r)[j] {
        if i < |l| <= j {
          assert l[i] in l && r[j - |l|] in r;
        }
      }
      NoDuplicatesJoin(l + r, t.node, []);
      assert l + r + [t.node] + [] == Postorder(t);
    }
  }

  /** It lists every node after all nodes below it. */
  lemma {:induction false} ChildrenFirst(whole: Tree<RbNode>, p: Path<RbNode>, t: Tree<RbNode>, i: nat, j: nat)
    requires Plug(p, t) == whole && Distinct(whole) && t.Node?
    requires i < |Postorder(whole)| && Postorder(whole)[i] == t.node
    requires j < |Postorder(whole)| && Postorder(whole)[j] in Nodes(t) && j != i
    ensures j < i
  {
    hide Plug, Distinct, Nodes, PostBefore;
    var a, u := PostBefore(p), Postorder(t);
    PlugPostorder(p, t);
    DistinctPostorder(whole);
    NodesOfPostorder(t);
    assert Postorder(whole)[|a| + |u| - 1] == u[|u| - 1] == t.node;
    var k :| 0 <= k < |u| && u[k] == Postorder(whole)[j];
    assert Postorder(whole)[|a| + k] == u[k];
  }

  method LeftDeepest(n0: RbNode, root: RbRoot, ghost s: set<RbNode>, ghost p: Path<RbNode>, ghost t0: Tree<RbNode>)
    returns (n: RbNode)
    requires At(Snapshot(root, s), p, t0) && RootOf(t0) == n0
    ensures Postorder(t0) != [] && n == Postorder(t0)[0]
  {
    n := n0;
    ghost var m, t, rest := Snapshot(root, s), t0, [];
    while true
      invariant t.Node? && t.node == n && n in s && Linked(m, t, m.row[n].pc.parent)
      invariant Postorder(t0) == Postorder(t) + rest
      decreases t
    {
      if n.left != null {
        rest := Postorder(t.right) + [t.node] + rest;
        t := t.left;
        n := n.left;
      } else if n.right != null {
        rest := [t.node] + rest;
        t := t.right;
        n := n.right;
      } else {
        return;
      }
    }
  }

  method FirstPostorder(root: RbRoot, ghost s: set<RbNode>, ghost whole: Tree<RbNode>) returns (n: RbNode?)
    requires Carries(Snapshot(root, s), whole)
    ensures n == FirstOf(Postorder(whole))
  {
    if root.node == null {
      return null;
    }
    n := LeftDeepest(root.node, root, s, Top, whole);
  }

  method NextPostorderAtCut(node: RbNode, root: RbRoot, ghost s: set<RbNode>, ghost p: Path<RbNode>,
                            ghost t: Tree<RbNode>)
    returns (n: RbNode?)
    requires node in s && At(Snapshot(root, s), p, t) && t.Node? && t.node == node
    ensures n == FirstOf(PostAfter(p))
  {
    ghost var m := Snapshot(root, s);
    var parent := node.pc.parent;
    if parent != null {
      Sides(m, p, t);
    }
    if parent != null && node == parent.left && parent.right != null {
      ghost var q := InRight(p.up, p.color, t, p.node);
      AtGraft(m, p, t);
      AtGraft(m, q, p.right);
      var r := LeftDeepest(parent.right, root, s, q, p.right);
      return r;
    }
    return parent;
  }

  lemma {:induction false} CutPostIndex(whole: Tree<RbNode>, p: Path<RbNode>, t: Tree<RbNode>, i: int)
    requires Plug(p, t) == whole && t.Node? && Distinct(whole)
    requires 0 <= i < |Postorder(whole)| && Postorder(whole)[i] == t.node
    ensures Postorder(whole)[i + 1..] == PostAfter(p)
  {
    var s, a := Postorder(whole), PostBefore(p) + Postorder(t);
    PlugPostorder(p, t);
    DistinctPostorder(whole);
    assert s[|a| - 1] == Postorder(t)[|Postorder(t)| - 1] == t.node;
    assert s == a + PostAfter(p);
  }

  method NextPostorder(node: RbNode?, root: RbRoot, ghost s: set<RbNode>, ghost whole: Tree<RbNode>)
    returns (n: RbNode?)
    requires Carries(Snapshot(root, s), whole) && (node != null ==> node in s)
    ensures if node == null then n == null else Follows(Postorder(whole), node, n)
  {
    if node == null {
      return null;
    }
    ghost var p, t := FindCut(Top, whole, node);
    AtPlug(Snapshot(root, s), p, t);
    n := NextPostorderAtCut(node, root, s, p, t);
    forall i | 0 <= i < |Postorder(whole)| && Postorder(whole)[i] == node
      ensures n == FirstOf(Postorder(whole)[i + 1..])
    {
      CutPostIndex(whole, p, t, i);
    }
  }

  /** The postorder walk visits exactly the postorder. */
  method VisitPostorder(root: RbRoot, ghost s: set<RbNode>, ghost whole: Tree<RbNode>) returns (visited: seq<RbNode>)
    requires Carries(Snapshot(root, s), whole)
    ensures visited == Postorder(whole)
  {
    hide Postorder, Walked, FirstOf, Follows, Nodes;
    ghost var order := Postorder(whole);
    WalkStarts(order);
    NodesOfPostorder(whole);
    visited := [];
    var n := FirstPostorder(root, s, whole);
    while n != null
      invariant Walked(order, visited, n)
      decreases |order| - |visited|
    {
      WalkAt(order, visited, n);
      var next := NextPostorder(n, root, s, whole);
      WalkStep(order, visited, n, next);
      visited := visited + [n];
      n := next;
    }
    WalkAt(order, visited, n);
  }
}

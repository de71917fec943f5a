/** Red-black trees with a cached leftmost node: the interface the run queues and timers use. */
module RbCached {
  import opened Common
  import opened RbShape
  import opened RbMemory
  import opened RbOrder
  import opened RbWalk
  import Ins = RbInsert
  import Del = RbErase

  /** The place a search has reached: the root pointer, or a child pointer of a node. */
  datatype Link = AtRoot | AtLeft(of: RbNode) | AtRight(of: RbNode)

  ghost predicate LinkOf(link: Link, p: Path<RbNode>) {
    match p
    case Top => link == AtRoot
    case InLeft(_, _, n, _) => link == AtLeft(n)
    case InRight(_, _, _, n) => link == AtRight(n)
  }

  function Deref(link: Link, root: RbRoot): RbNode?
    reads root, if link.AtRoot? then {} else {link.of}
  {
    match link
    case AtRoot => root.node
    case AtLeft(n) => n.left
    case AtRight(n) => n.right
  }

  /** Every turn of `p` is the one that `x` takes. */
  ghost predicate Turns(p: Path<RbNode>, less: (RbNode, RbNode) -> bool, x: RbNode) {
    p.Top? || ((p.InLeft? <==> less(x, p.node)) && Turns(p.up, less, x))
  }

  lemma {:induction false} DerefCut(m: Memory, p: Path<RbNode>, t: Tree<RbNode>)
    requires At(m, p, t)
    ensures p.Top? ==> m.top == RootOf(t)
    ensures !p.Top? ==> p.node in m.row && (if p.InLeft? then m.row[p.node].left else m.row[p.node].right) == RootOf(t)
  {
  }

  lemma {:induction false} SortedPivot(less: (RbNode, RbNode) -> bool, a: seq<RbNode>, n: RbNode, b: seq<RbNode>,
                                       x: RbNode, all: set<RbNode>)
    requires Sorted(less, a + [n] + b) && StrictWeak(less, all) && x in all && n in all
    requires (forall y <- a :: y in all) && (forall y <- b :: y in all)
    ensures !less(x, n) ==> forall y <- a :: !less(x, y)
    ensures less(x, n) ==> forall y <- b :: less(x, y)
  {
    var s := a + [n] + b;
    assert s[|a|] == n;
    forall y <- a ensures !less(n, y) {
      var i :| 0 <= i < |a| && a[i] == y;
      assert s[i] == y;
    }
    forall y <- b ensures !less(y, n) {
      var i :| 0 <= i < |b| && b[i] == y;
      assert s[|a| + 1 + i] == y;
    }
  }

  /** Turning by `less` in a sorted tree ends where a sorted insertion puts the node. */
  lemma {:induction false} TurnsSplit(p: Path<RbNode>, t: Tree<RbNode>, less: (RbNode, RbNode) -> bool, x: RbNode,
                                      all: set<RbNode>)
    requires Turns(p, less, x) && StrictWeak(less, all) && x in all
    requires Sorted(less, Before(p) + Inorder(t) + After(p))
    requires (forall y <- Before(p) :: y in all) && (forall y <- Inorder(t) :: y in all)
    requires (forall y <- After(p) :: y in all)
    ensures forall y <- Before(p) :: !less(x, y)
    ensures forall y <- After(p) :: less(x, y)
    decreases p
  {
    if p.InLeft? {
      assert Before(p) + Inorder(t) + After(p)
        == (Before(p) + Inorder(t)) + [p.node] + (Inorder(p.right) + After(p.up));
      assert Before(p) + Inorder(t) + After(p) == Before(p.up) + Inorder(Graft(p, t)) + After(p.up);
      SortedPivot(less, Before(p) + Inorder(t), p.node, Inorder(p.right) + After(p.up), x, all);
      TurnsSplit(p.up, Graft(p, t), less, x, all);
    } else if p.InRight? {
      assert Before(p) + Inorder(t) + After(p) == (Before(p.up) + Inorder(p.left)) + [p.node] + (Inorder(t) + After(p));
      assert Before(p) + Inorder(t) + After(p) == Before(p.up) + Inorder(Graft(p, t)) + After(p.up);
      SortedPivot(less, Before(p.up) + Inorder(p.left), p.node, Inorder(t) + After(p), x, all);
      TurnsSplit(p.up, Graft(p, t), less, x, all);
    }
  }

  /** Filling the empty place at the end of `p`. */
  lemma {:induction false} LinkedIn(m: Memory, m': Memory, p: Path<RbNode>, x: RbNode)
    requires At(m, p, Leaf) && x !in m.row && x in m'.row && m'.row[x] == Row(PC(ParentOf(p), Red), null, null)
    requires SameBut(m, m', {ParentOf(p)})
    requires if p.Top? then m'.top == x else m'.top == m.top && p.node in m'.row && m'.row[p.node] == LastRow(p, x)
    ensures At(m', p, Node(Red, Leaf, x, Leaf))
  {
    PathInRows(m, p, null);
    ApartSwapped(p, {}, {x}, x);
    assert Nodes(Node(Red, Tree<RbNode>.Leaf, x, Leaf)) == {x};
    if !p.Top? {
      ApartFrame(p, {});
      LinkedFrame(m, m', Sibling(p), p.node, {p.node});
      HungFrame(m, m', p.up, p.node, {p.node});
    }
  }

  lemma PathInRows(m: Memory, p: Path<RbNode>, x: RbNode?)
    requires Hung(m, p, x)
    ensures PathNodes(p) <= m.row.Keys
  {
    if !p.Top? {
      TreeInRows(m, Sibling(p), p.node);
      PathInRows(m, p.up, p.node);
    }
  }

  lemma TreeInRows(m: Memory, t: Tree<RbNode>, parent: RbNode?)
    requires Linked(m, t, parent)
    ensures Nodes(t) <= m.row.Keys
  {
    if t.Node? {
      TreeInRows(m, t.left, t.node);
      TreeInRows(m, t.right, t.node);
    }
  }

  /** Hangs the red leaf `node` into the place `link`. */
  method LinkNode(node: RbNode, parent: RbNode?, link: Link, root: RbRoot, ghost s: set<RbNode>, ghost p: Path<RbNode>)
    requires At(Snapshot(root, s), p, Leaf) && LinkOf(link, p) && parent == ParentOf(p) && node !in s
    modifies root, s, node
    ensures At(Snapshot(root, s + {node}), p, Node(Red, Leaf, node, Leaf))
  {
    ghost var m := Snapshot(root, s);
    DerefCut(m, p, Leaf);
    node.pc := PC(parent, Red);
    node.left, node.right := null, null;
    match link {
      case AtRoot => root.node := node;
      case AtLeft(n) => n.left := node;
      case AtRight(n) => n.right := node;
    }
    LinkedIn(m, Snapshot(root, s + {node}), p, node);
  }

  /** What adding a node to a tree does to its sort order: the node goes in somewhere, and in a
      sorted tree it goes where a sorted insertion puts it. */
  ghost predicate Added(less: (RbNode, RbNode) -> bool, all: set<RbNode>, s: seq<RbNode>, s': seq<RbNode>, x: RbNode) {
    (exists k {:trigger s[..k]} :: 0 <= k <= |s| && s' == s[..k] + [x] + s[k..])
    && (Sorted(less, s) && StrictWeak(less, all) ==> s' == Insert(less, s, x))
  }

  lemma {:induction false} AddedAtPath(less: (RbNode, RbNode) -> bool, p: Path<RbNode>, x: RbNode, all: set<RbNode>)
    requires Turns(p, less, x) && x in all && forall y <- Inorder(Plug(p, Leaf)) :: y in all
    ensures Added(less, all, Inorder(Plug(p, Leaf)), Inorder(Plug(p, Node(Red, Leaf, x, Leaf))), x)
    ensures Inorder(Plug(p, Node(Red, Leaf, x, Leaf))) == Before(p) + [x] + After(p)
    ensures Inorder(Plug(p, Leaf)) == Before(p) + After(p)
  {
    var s, k := Inorder(Plug(p, Leaf)), |Before(p)|;
    PlugInorder(p, Leaf);
    PlugInorder(p, Node(Red, Leaf, x, Leaf));
    assert Inorder(Node(Red, Tree<RbNode>.Leaf, x, Leaf)) == [x];
    assert Before(p) + [] + After(p) == Before(p) + After(p);
    assert s[..k] == Before(p) && s[k..] == After(p);
    if Sorted(less, s) && StrictWeak(less, all) {
      assert Before(p) + Inorder(Tree<RbNode>.Leaf) + After(p) == s;
      TurnsSplit(p, Leaf, less, x, all);
      assert forall i | 0 <= i < k :: s[i] in Before(p);
      assert k < |s| ==> s[k] == After(p)[0] && s[k] in After(p);
      InsertAt(less, s, x, k);
    }
  }

  /** The first node changes exactly when every turn was to the left. */
  lemma {:induction false} FirstAfterAdd(p: Path<RbNode>, x: RbNode)
    requires x !in After(p)
    ensures AllLeft(p) ==> FirstOf(Before(p) + [x] + After(p)) == x
    ensures !AllLeft(p) ==> FirstOf(Before(p) + [x] + After(p)) == FirstOf(Before(p) + After(p)) && Before(p) != []
  {
    BeforeEmpty(p);
  }

  lemma BeforeEmpty(p: Path<RbNode>)
    ensures AllLeft(p) <==> Before(p) == []
  {
  }

  /** Nodes are added and removed together with their place in the order. */
  lemma {:induction false} NodesOfSplit(t: Tree<RbNode>, t': Tree<RbNode>, a: seq<RbNode>, x: RbNode, b: seq<RbNode>)
    requires Inorder(t) == a + b && Inorder(t') == a + [x] + b
    ensures Nodes(t') == Nodes(t) + {x}
    ensures Distinct(t') ==> Nodes(t) == Nodes(t') - {x}
  {
    NodesOfInorder(t);
    NodesOfInorder(t');
    assert x in Inorder(t') by { assert Inorder(t')[|a|] == x; }
    forall y <- Nodes(t') ensures y in Nodes(t) + {x} {
      assert y in a + [x] + b;
    }
    forall y <- Nodes(t) ensures y in Nodes(t') {
      assert y in a + b;
      assert y in a + [x] + b;
    }
    if Distinct(t') {
      DistinctInorder(t');
      NoDuplicatesSplit(a, x, b);
      assert x !in a + b;
    }
  }

  /** All that adding a node does to the tree. */
  lemma {:induction false} AddResult(less: (RbNode, RbNode) -> bool, t: Tree<RbNode>, t': Tree<RbNode>, p: Path<RbNode>,
                                     x: RbNode, all: set<RbNode>)
    requires Plug(p, Leaf) == t && Inorder(t') == Inorder(Plug(p, Node(Red, Leaf, x, Leaf))) && Turns(p, less, x)
    requires all == Nodes(t) + {x} && x !in Nodes(t)
    ensures Added(less, all, Inorder(t), Inorder(t'), x) && Nodes(t') == all
    ensures AllLeft(p) ==> FirstOf(Inorder(t')) == x
    ensures !AllLeft(p) ==> FirstOf(Inorder(t')) == FirstOf(Inorder(t)) && FirstOf(Inorder(t)) != x
  {
    NodesOfInorder(t);
    AddedAtPath(less, p, x, all);
    NodesOfSplit(t, t', Before(p), x, After(p));
    assert forall y <- After(p) :: y in Inorder(t);
    FirstAfterAdd(p, x);
    assert !AllLeft(p) ==> FirstOf(Inorder(t)) in Inorder(t);
  }

  /** `s'` is `s` without `x`. */
  ghost predicate Removed(s: seq<RbNode>, s': seq<RbNode>, x: RbNode) {
    exists k {:trigger s[..k]} :: 0 <= k < |s| && s[k] == x && s' == s[..k] + s[k + 1..]
  }

  /** All that removing a node does to the tree. */
  lemma {:induction false} RemoveResult(t: Tree<RbNode>, t': Tree<RbNode>, p: Path<RbNode>, u: Tree<RbNode>)
    requires Plug(p, u) == t && u.Node? && Distinct(t)
    requires Inorder(t') == (Before(p) + Inorder(u.left)) + (Inorder(u.right) + After(p))
    ensures Removed(Inorder(t), Inorder(t'), u.node) && Nodes(t') == Nodes(t) - {u.node}
    ensures FirstOf(Inorder(t)) != u.node ==> FirstOf(Inorder(t')) == FirstOf(Inorder(t))
    ensures FirstOf(Inorder(t)) == u.node ==> FirstOf(Inorder(t')) == FirstOf(Inorder(u.right) + After(p))
  {
    var a, b := Before(p) + Inorder(u.left), Inorder(u.right) + After(p);
    PlugInorder(p, u);
    Regroup(Before(p), Inorder(u.left), u.node, Inorder(u.right), After(p));
    DistinctInorder(t);
    RemovedMiddle(a, u.node, b);
    NodesOfSplit(t', t, a, u.node, b);
  }

  lemma {:induction false} RemovedMiddle(a: seq<RbNode>, x: RbNode, b: seq<RbNode>)
    requires NoDuplicates(a + [x] + b)
    ensures Removed(a + [x] + b, a + b, x)
    ensures FirstOf(a + [x] + b) != x ==> FirstOf(a + b) == FirstOf(a + [x] + b)
    ensures FirstOf(a + [x] + b) == x ==> FirstOf(a + b) == FirstOf(b)
  {
    var s := a + [x] + b;
    NoDuplicatesSplit(a, x, b);
    assert s[..|a|] == a && s[|a| + 1..] == b && s[|a|] == x;
    assert a != [] ==> a[0] in a;
    assert a == [] ==> a + b == b;
  }

  /** A snapshot of fewer rows carries a tree that never used the others. */
  lemma {:induction false} AtRestricted(m: Memory, m': Memory, t: Tree<RbNode>, d: set<RbNode?>)
    requires At(m, Top, t) && SameBut(m, m', d) && m'.top == m.top && forall n <- d :: n !in Nodes(t)
    ensures At(m', Top, t)
  {
    LinkedFrame(m, m', t, null, d);
  }

  lemma {:induction false} CutAt(m: Memory, whole: Tree<RbNode>, node: RbNode)
    returns (p: Path<RbNode>, u: Tree<RbNode>)
    requires Carries(m, whole) && node in m.row
    ensures At(m, p, u) && Plug(p, u) == whole && u.Node? && u.node == node
    ensures Distinct(whole) && m.row.Keys == Nodes(whole)
  {
    p, u := FindCut(Top, whole, node);
    AtPlug(m, p, u);
  }

  method EraseFrom(node: RbNode, root: RbRoot, ghost s: set<RbNode>, ghost p: Path<RbNode>, ghost u: Tree<RbNode>)
    returns (ghost whole: Tree<RbNode>)
    requires At(Snapshot(root, s), p, u) && u.Node? && u.node == node && RedBlack(Plug(p, u)) && Nodes(Plug(p, u)) == s
    modifies root, s
    ensures Carries(Snapshot(root, s - {node}), whole) && RedBlack(whole)
    ensures Inorder(whole) == (Before(p) + Inorder(u.left)) + (Inorder(u.right) + After(p))
  {
    AtPlug(Snapshot(root, s), p, u);
    NodeIn(p, u);
    whole := Del.Erase(node, root, s, p, u);
    RemoveResult(Plug(p, u), whole, p, u);
    AtRestricted(Snapshot(root, s), Snapshot(root, s - {node}), whole, {node});
  }

  lemma {:induction false} NodeIn(p: Path<RbNode>, u: Tree<RbNode>)
    requires u.Node?
    ensures u.node in Nodes(Plug(p, u))
  {
    PlugNodes(p, u);
  }

  // ---------------------------------------------------------------- runs

  datatype Op = Put(node: RbNode) | Take(node: RbNode)

  /** A run of insertions and removals on an empty tree, seen through its sort order. */
  ghost predicate Run(less: (RbNode, RbNode) -> bool, all: set<RbNode>, ops: seq<Op>, states: seq<seq<RbNode>>) {
    |states| == |ops| + 1 && states[0] == [] &&
    forall i | 0 <= i < |ops| :: RunStep(less, all, ops[i], states[i], states[i + 1])
  }

  ghost predicate RunStep(less: (RbNode, RbNode) -> bool, all: set<RbNode>, op: Op, s: seq<RbNode>, s': seq<RbNode>) {
    op.node in all &&
    match op
    case Put(x) => x !in s && Added(less, all, s, s', x)
    case Take(x) => x in s && Removed(s, s', x)
  }

  /** In every run the sort order stays sorted and free of duplicates. */
  lemma {:induction false} RunSorted(less: (RbNode, RbNode) -> bool, all: set<RbNode>, ops: seq<Op>,
                                     states: seq<seq<RbNode>>, i: nat)
    requires StrictWeak(less, all) && Run(less, all, ops, states) && i <= |ops|
    ensures Sorted(less, states[i]) && NoDuplicates(states[i]) && forall x <- states[i] :: x in all
  {
    if i > 0 {
      RunSorted(less, all, ops, states, i - 1);
      var s, s', x := states[i - 1], states[i], ops[i - 1].node;
      assert RunStep(less, all, ops[i - 1], s, s');
      if ops[i - 1].Put? {
        InsertSorted(less, s, x, all);
        var k :| 0 <= k <= |s| && s' == s[..k] + [x] + s[k..];
        assert s == s[..k] + s[k..];
        InsertNoDuplicates(s, x, k);
      } else {
        var k :| 0 <= k < |s| && s[k] == x && s' == s[..k] + s[k + 1..];
        RemoveSorted(less, s, k);
      }
    }
  }

  lemma {:induction false} InsertNoDuplicates(s: seq<RbNode>, x: RbNode, k: nat)
    requires NoDuplicates(s) && x !in s && k <= |s|
    ensures NoDuplicates(s[..k] + [x] + s[k..])
  {
    assert forall y <- s[..k] :: y in s;
    forall y <- s[..k] ensures y !in s[k..] {
      var i :| 0 <= i < k && s[i] == y;
    }
    NoDuplicatesJoin(s[..k], x, s[k..]);
  }

  /** A red-black tree of exactly the rows of `m`, and its first node. */
  ghost predicate Cached(m: Memory, whole: Tree<RbNode>, leftmost: RbNode?) {
    Carries(m, whole) && RedBlack(whole) && leftmost == FirstOf(Inorder(whole))
  }

  method EraseStep(node: RbNode, leftmost: RbNode?, root: RbRoot, ghost s: set<RbNode>, ghost whole: Tree<RbNode>)
    returns (first: RbNode?, leftmost': RbNode?, ghost whole': Tree<RbNode>)
    requires Cached(Snapshot(root, s), whole, leftmost) && node in s
    modifies root, s
    ensures Cached(Snapshot(root, s - {node}), whole', leftmost')
    ensures Removed(Inorder(whole), Inorder(whole'), node)
    ensures first == if leftmost == node then leftmost' else null
  {
    ghost var p, u := CutAt(Snapshot(root, s), whole, node);
    first, leftmost' := null, leftmost;
    if leftmost == node {
      first := NextAtCut(node, root, s, p, u);
      leftmost' := first;
    }
    whole' := EraseFrom(node, root, s, p, u);
    RemoveResult(whole, whole', p, u);
  }

  /** Walks down to the empty place where `node` belongs. */
  method FindPlace(node: RbNode, less: (RbNode, RbNode) -> bool, root: RbRoot, ghost s: set<RbNode>,
                   ghost whole: Tree<RbNode>)
    returns (link: Link, parent: RbNode?, isFirst: bool, ghost p: Path<RbNode>)
    requires At(Snapshot(root, s), Top, whole)
    ensures At(Snapshot(root, s), p, Leaf) && Plug(p, Leaf) == whole
    ensures LinkOf(link, p) && parent == ParentOf(p) && Turns(p, less, node) && (isFirst <==> AllLeft(p))
  {
    ghost var m, t := Snapshot(root, s), whole;
    link, parent, isFirst, p := AtRoot, null, true, Top;
    var at := root.node;
    while at != null
      invariant At(m, p, t) && Plug(p, t) == whole && at == RootOf(t)
      invariant LinkOf(link, p) && parent == ParentOf(p) && Turns(p, less, node) && (isFirst <==> AllLeft(p))
      decreases t
    {
      parent := at;
      if less(node, parent) {
        link := AtLeft(parent);
        p, t := InLeft(p, t.color, t.node, t.right), t.left;
      } else {
        link, isFirst := AtRight(parent), false;
        p, t := InRight(p, t.color, t.left, t.node), t.right;
      }
      AtGraft(m, p, t);
      DerefCut(m, p, t);
      at := Deref(link, root);
    }
  }

  method InsertColorCached(node: RbNode, isFirst: bool, leftmost: RbNode?, root: RbRoot, ghost s: set<RbNode>,
                           ghost p: Path<RbNode>)
    returns (leftmost': RbNode?, ghost whole: Tree<RbNode>)
    requires node in s && At(Snapshot(root, s), p, Node(Red, Leaf, node, Leaf)) && RedBlack(Plug(p, Leaf))
    modifies root, s
    ensures At(Snapshot(root, s), Top, whole) && RedBlack(whole)
    ensures Inorder(whole) == Inorder(Plug(p, Node(Red, Leaf, node, Leaf)))
    ensures leftmost' == if isFirst then node else leftmost
  {
    ghost var h := RedBlackCut(p, Leaf);
    leftmost' := if isFirst then node else leftmost;
    whole := Ins.InsertColor(node, root, s, p);
  }

  method AddStep(node: RbNode, less: (RbNode, RbNode) -> bool, leftmost: RbNode?, root: RbRoot, ghost s: set<RbNode>,
                 ghost whole: Tree<RbNode>)
    returns (first: RbNode?, leftmost': RbNode?, ghost whole': Tree<RbNode>)
    requires Cached(Snapshot(root, s), whole, leftmost) && node !in s
    modifies root, s, node
    ensures Cached(Snapshot(root, s + {node}), whole', leftmost')
    ensures Added(less, s + {node}, Inorder(whole), Inorder(whole'), node)
    ensures first == if leftmost' == node then node else null
  {
    hide Inorder, Plug, Turns, LinkOf, Added, RedBlack, AllLeft, Hung, Linked, Distinct, Apart;
    ghost var p;
    var link, parent, isFirst;
    link, parent, isFirst, p := FindPlace(node, less, root, s, whole);
    LinkNode(node, parent, link, root, s, p);
    leftmost', whole' := InsertColorCached(node, isFirst, leftmost, root, s + {node}, p);
    AddResult(less, whole, whole', p, node, s + {node});
    first := if isFirst then node else null;
  }

  class RbRootCached {
    const root: RbRoot
    var leftmost: RbNode?
    ghost var nodes: set<RbNode>
    ghost var tree: Tree<RbNode>

    /** A red-black tree of exactly `nodes`, with its first node cached. */
    ghost predicate Valid()
      reads this, root, nodes
    {
      Cached(Snapshot(root, nodes), tree, leftmost)
    }

    constructor ()
      ensures Valid() && nodes == {} && tree == Leaf && fresh(root)
    {
      root := new RbRoot();
      leftmost, nodes, tree := null, {}, Leaf;
    }

    /** Inserts `node` after all nodes it is not less than. */
    method Add(node: RbNode, less: (RbNode, RbNode) -> bool) returns (first: RbNode?)
      requires Valid() && node !in nodes
      modifies this, root, nodes, node
      ensures Valid() && nodes == old(nodes) + {node}
      ensures Added(less, nodes, old(Inorder(tree)), Inorder(tree), node)
      ensures first == if leftmost == node then node else null
    {
      first, leftmost, tree := AddStep(node, less, leftmost, root, nodes, tree);
      nodes := nodes + {node};
    }

    /** Removes `node`. The result is the new first node if that changed, otherwise null. */
    method Erase(node: RbNode) returns (first: RbNode?)
      requires Valid() && node in nodes
      modifies this, root, nodes
      ensures Valid() && nodes == old(nodes) - {node}
      ensures Removed(old(Inorder(tree)), Inorder(tree), node)
      ensures first == if old(leftmost) == node then leftmost else null
    {
      first, leftmost, tree := EraseStep(node, leftmost, root, nodes, tree);
      nodes := nodes - {node};
    }
  }
}

/** Unlinking a node, and replacing one node by another. */
module RbErase {
  import opened RbShape
  import opened RbMemory
  import opened RbEraseColor

  // ---------------------------------------------------------------- splicing out

  function Recolored(t: Tree<RbNode>, c: Color): Tree<RbNode> {
    if t.Leaf? then t else t.(color := c)
  }

  /** `x`, a node with at most the one child `k`, is bypassed: its parent points to `k`, which
      takes the packed word `pc`. */
  ghost predicate Bypassed(m: Memory, m': Memory, x: RbNode, k: RbNode?, pc: ParentColor) {
    ChildChanged(m, m', pc.parent, x, k)
    && (k != null ==> k in m.row && k in m'.row && m'.row[k] == m.row[k].(pc := pc))
    && SameBut(m, m', {pc.parent, k, x})
  }

  /** The rows written by a bypass lie outside the subtree and the path, but for their ends. */
  lemma {:induction false} BypassRows(p: Path<RbNode>, t: Tree<RbNode>, k: Tree<RbNode>, d: set<RbNode?>)
    requires Distinct(t) && Apart(p, Nodes(t)) && t.Node? && (k == t.left || k == t.right)
    requires d == {ParentOf(p), RootOf(k), t.node}
    ensures Distinct(k) && Apart(p, Nodes(k))
    ensures forall n <- d :: n !in Nodes(k) || n == RootOf(k)
    ensures forall n <- d :: n !in PathNodes(p) || n == ParentOf(p)
    ensures ParentOf(p) != null ==> ParentOf(p) !in {RootOf(k), t.node}
    ensures RootOf(k) != t.node
  {
    ApartDisjoint(p, Nodes(t));
    ApartSubset(p, Nodes(t), Nodes(k));
    assert k.Node? ==> k.node in Nodes(k);
    assert !p.Top? ==> p.node in PathNodes(p);
  }

  lemma {:induction false} BypassedAt(m: Memory, m': Memory, p: Path<RbNode>, t: Tree<RbNode>, k: Tree<RbNode>,
                                      c: Color)
    requires At(m, p, t) && t.Node? && (k == t.left || k == t.right)
    requires Bypassed(m, m', t.node, RootOf(k), PC(ParentOf(p), c))
    ensures At(m', p, Recolored(k, c))
  {
    var d := {ParentOf(p), RootOf(k), t.node};
    BypassRows(p, t, k, d);
    assert Linked(m, k, t.node);
    LinkedMoved(m, m', k, t.node, ParentOf(p), c, d);
    HungChanged(m, m', p, t.node, RootOf(k), Nodes(t), d);
    assert Nodes(Recolored(k, c)) == Nodes(k);
  }

  // ---------------------------------------------------------------- replacing

  /** `x` gets the row of `victim`, and everything that pointed to `victim` points to `x`. */
  ghost predicate Replaced(m: Memory, m': Memory, victim: RbNode, x: RbNode) {
    victim in m.row && x in m'.row && m'.row[x] == m.row[victim] &&
    var r := m.row[victim];
    && (r.left != null ==>
        r.left in m.row && r.left in m'.row && m'.row[r.left] == m.row[r.left].(pc := PC(x, m.row[r.left].pc.color)))
    && (r.right != null ==>
        r.right in m.row && r.right in m'.row
        && m'.row[r.right] == m.row[r.right].(pc := PC(x, m.row[r.right].pc.color)))
    && ChildChanged(m, m', r.pc.parent, victim, x)
    && SameBut(m, m', {x, victim, r.left, r.right, r.pc.parent})
  }

  /** Cuts at the two children. */
  lemma {:induction false} ReplaceRows(p: Path<RbNode>, t: Tree<RbNode>, x: RbNode, d: set<RbNode?>)
    requires Distinct(t) && Apart(p, Nodes(t)) && t.Node? && x !in Nodes(t) && x !in PathNodes(p)
    requires d == {x, t.node, RootOf(t.left), RootOf(t.right), ParentOf(p)}
    ensures forall n <- d :: n !in Nodes(t.left) || n == RootOf(t.left)
    ensures forall n <- d :: n !in Nodes(t.right) || n == RootOf(t.right)
    ensures forall n <- d :: n !in PathNodes(p) || n == ParentOf(p)
  {
    ApartDisjoint(p, Nodes(t));
    assert t.left.Node? ==> t.left.node in Nodes(t.left);
    assert t.right.Node? ==> t.right.node in Nodes(t.right);
    assert !p.Top? ==> p.node in PathNodes(p);
  }

  lemma {:induction false} ReplacedAt(m: Memory, m': Memory, p: Path<RbNode>, t: Tree<RbNode>, x: RbNode)
    requires At(m, p, t) && t.Node? && x !in Nodes(t) && x !in PathNodes(p) && Replaced(m, m', t.node, x)
    ensures At(m', p, t.(node := x))
  {
    var d := {x, t.node, RootOf(t.left), RootOf(t.right), ParentOf(p)};
    ReplaceRows(p, t, x, d);
    LinkedMoved(m, m', t.left, t.node, x, if t.left.Leaf? then Black else t.left.color, d);
    LinkedMoved(m, m', t.right, t.node, x, if t.right.Leaf? then Black else t.right.color, d);
    HungChanged(m, m', p, t.node, x, Nodes(t), d);
    ApartSwapped(p, Nodes(t), Nodes(t.(node := x)), x);
  }

  // ---------------------------------------------------------------- the successor

  lemma {:induction false} AtAppend(m: Memory, q: Path<RbNode>, base: Path<RbNode>, t: Tree<RbNode>)
    ensures At(m, Append(q, base), t) <==> At(m, base, Plug(q, t))
    decreases q
  {
    if !q.Top? {
      AtGraft(m, Append(q, base), t);
      AtAppend(m, q.up, base, Graft(q, t));
    }
  }

  /** The leftmost node below `child`, and the path to it. */
  method FindSuccessor(child: RbNode, root: RbRoot, ghost s: set<RbNode>, ghost base: Path<RbNode>,
                       ghost r: Tree<RbNode>)
    returns (parent: RbNode?, successor: RbNode, ghost q: Path<RbNode>, ghost t: Tree<RbNode>)
    requires At(Snapshot(root, s), base, r) && RootOf(r) == child
    ensures AllLeft(q) && Plug(q, t) == r && parent == ParentOf(q)
    ensures t.Node? && t.node == successor && t.left.Leaf? && At(Snapshot(root, s), Append(q, base), t)
    ensures Inorder(r) != [] && successor == Inorder(r)[0]
  {
    ghost var m := Snapshot(root, s);
    parent, successor := null, child;
    q, t := Top, r;
    var tmp := child.left;
    while tmp != null
      invariant Before(q) == []
      invariant AllLeft(q) && Plug(q, t) == r && parent == ParentOf(q)
      invariant t.Node? && t.node == successor && At(m, Append(q, base), t) && tmp == RootOf(t.left)
      decreases t
    {
      parent := successor;
      successor := tmp;
      q, t := InLeft(q, t.color, t.node, t.right), t.left;
      AtGraft(m, Append(q, base), t);
      tmp := tmp.left;
    }
    PlugInorder(q, t);
  }

  /** `m` with the child `x` of `parent` bypassed, `k` in its place and black. */
  ghost function Bypass(m: Memory, parent: RbNode, x: RbNode, k: RbNode?): Memory
    requires parent in m.row && (k != null ==> k in m.row)
  {
    var r := m.row[parent];
    var row := m.row[parent := if r.left == x then r.(left := k) else r.(right := k)];
    m.(row := if k == null then row else row[k := row[k].(pc := PC(parent, Black))])
  }

  /** The six rows in play are rows of `s`, and different ones: only the successor's parent may be
      the right child itself. */
  ghost predicate SixRows(s: set<RbNode>, node: RbNode, l: RbNode, child: RbNode, parent: RbNode, successor: RbNode,
                          child2: RbNode?, above: RbNode?) {
    {node, l, child, parent, successor} <= s && (child2 != null ==> child2 in s) && (above != null ==> above in s)
    && node !in {l, child, parent, successor, child2, above}
    && l !in {child, parent, successor, child2, above}
    && successor !in {child, parent, child2, above}
    && child2 !in {child, parent}
    && above !in {child, parent}
    && (above != null ==> above != child2)
  }

  /** What the second half of the unlinking writes. */
  ghost predicate TookOver(m: Memory, m': Memory, node: RbNode, successor: RbNode, parent: RbNode, child2: RbNode?) {
    {node, successor} <= m.row.Keys && successor in m'.row && m.row[node].left in m.row && m.row[node].left in m'.row &&
    var l := m.row[node].left;
    && m'.row[successor] == Row(m.row[node].pc, l, m.row[successor].right)
    && m'.row[l] == m.row[l].(pc := PC(successor, m.row[l].pc.color))
    && (child2 != null ==>
        child2 in m.row && child2 in m'.row && m'.row[child2] == m.row[child2].(pc := PC(parent, Black)))
    && ChildChanged(m, m', m.row[node].pc.parent, node, successor)
    && SameBut(m, m', {successor, l, child2, m.row[node].pc.parent})
  }

  /** `successor` takes the left child, the parent and the colour of `node`. */
  method TakeOver(node: RbNode, successor: RbNode, parent: RbNode, child2: RbNode?, root: RbRoot, ghost s: set<RbNode>)
    returns (rebalance: RbNode?)
    requires {node, successor} <= s && node.left in s && (child2 != null ==> child2 in s)
    requires node.pc.parent != null ==> node.pc.parent in s && node.pc.parent !in {node, successor, node.left, child2}
    requires node !in {successor, node.left, child2} && node.left !in {successor, child2} && successor != child2
    modifies root, s
    ensures rebalance == if child2 == null && old(successor.pc.color).Black? then parent else null
    ensures TookOver(old(Snapshot(root, s)), Snapshot(root, s), node, successor, parent, child2)
  {
    var tmp := node.left;
    successor.left := tmp;
    tmp.pc := PC(successor, tmp.pc.color);
    var pc := node.pc;
    tmp := pc.parent;
    ChangeChild(node, successor, tmp, root);
    if child2 != null {
      child2.pc := PC(parent, Black);
      rebalance := null;
    } else {
      rebalance := if successor.pc.color.Black? then parent else null;
    }
    successor.pc := pc;
  }

  /** Case 2: the successor is the right child itself. */
  method MoveChildUp(node: RbNode, successor: RbNode, root: RbRoot, ghost s: set<RbNode>) returns (rebalance: RbNode?)
    requires {node, successor} <= s && node.left in s && (successor.right != null ==> successor.right in s)
    requires node.pc.parent != null ==>
      node.pc.parent in s && node.pc.parent !in {node, successor, node.left, successor.right}
    requires node !in {successor, node.left, successor.right} && node.left !in {successor, successor.right}
    requires successor != successor.right
    requires node.right == successor
    modifies root, s
    ensures rebalance == if old(successor.right) == null && old(successor.pc.color).Black? then successor else null
    ensures Replaced(Bypass(old(Snapshot(root, s)), node, successor, old(successor.right)), Snapshot(root, s), node,
                     successor)
  {
    rebalance := TakeOver(node, successor, successor, successor.right, root, s);
  }

  /** What the first half of Case 3 writes. */
  ghost predicate Detached(m: Memory, m': Memory, parent: RbNode, successor: RbNode, child: RbNode) {
    {parent, successor, child} <= m.row.Keys && {parent, successor, child} <= m'.row.Keys
    && m'.row[parent].left == m.row[successor].right
    && (parent != child ==> m'.row[parent] == m.row[parent].(left := m.row[successor].right))
    && m'.row[child] == m.row[child].(left := m'.row[child].left, pc := PC(successor, m.row[child].pc.color))
    && (parent != child ==> m'.row[child].left == m.row[child].left)
    && m'.row[successor] == m.row[successor].(right := child)
    && m'.top == m.top && SameBut(m, m', {parent, successor, child})
  }

  method Detach(parent: RbNode, successor: RbNode, child: RbNode, ghost root: RbRoot, ghost s: set<RbNode>)
    requires {parent, successor, child} <= s && successor !in {parent, child}
    modifies s
    ensures Detached(old(Snapshot(root, s)), Snapshot(root, s), parent, successor, child)
  {
    parent.left := successor.right;
    successor.right := child;
    child.pc := PC(successor, child.pc.color);
  }

  lemma {:induction false} DetachedThenTookOver(m: Memory, m1: Memory, m': Memory, node: RbNode, parent: RbNode,
                                                successor: RbNode, child: RbNode)
    requires Detached(m, m1, parent, successor, child) && m.row[parent].left == successor
    requires node in m.row && m.row[node].left in m.row && m.row[node].right == child
    requires var k := m.row[successor].right;
      SixRows(m.row.Keys, node, m.row[node].left, child, parent, successor, k, m.row[node].pc.parent)
      && TookOver(m1, m', node, successor, parent, k)
    ensures Replaced(Bypass(m, parent, successor, m.row[successor].right), m', node, successor)
  {
  }

  /** Case 3: the successor lies further down. */
  method MoveSuccessorUp(node: RbNode, successor: RbNode, parent: RbNode, child: RbNode, root: RbRoot,
                         ghost s: set<RbNode>)
    returns (rebalance: RbNode?)
    requires node.left != null && node.right == child && parent.left == successor
    requires SixRows(s, node, node.left, child, parent, successor, successor.right, node.pc.parent)
    modifies root, s
    ensures rebalance == if old(successor.right) == null && old(successor.pc.color).Black? then parent else null
    ensures Replaced(Bypass(old(Snapshot(root, s)), parent, successor, old(successor.right)), Snapshot(root, s), node,
                     successor)
  {
    var child2 := successor.right;
    ghost var m := Snapshot(root, s);
    Detach(parent, successor, child, root, s);
    ghost var m1 := Snapshot(root, s);
    assert m1.row[node] == m.row[node] && m1.row[successor].pc == m.row[successor].pc;
    rebalance := TakeOver(node, successor, parent, child2, root, s);
    DetachedThenTookOver(m, m1, Snapshot(root, s), node, parent, successor, child);
  }

  /** The path to the successor `ts` of the root of `t`, and that path once `n` is in its place. */
  ghost function SuccessorPath(p: Path<RbNode>, t: Tree<RbNode>, q: Path<RbNode>, n: RbNode): Path<RbNode>
    requires t.Node?
  {
    Append(q, InRight(p, t.color, t.left, n))
  }

  ghost predicate IsSuccessor(t: Tree<RbNode>, q: Path<RbNode>, ts: Tree<RbNode>) {
    t.Node? && AllLeft(q) && Plug(q, ts) == t.right && ts.Node? && ts.left.Leaf?
  }

  function SuccessorParent(t: Tree<RbNode>, q: Path<RbNode>): RbNode
    requires t.Node?
  {
    if q.Top? then t.node else q.node
  }

  lemma {:induction false} AtSuccessor(m: Memory, p: Path<RbNode>, t: Tree<RbNode>, q: Path<RbNode>, ts: Tree<RbNode>)
    requires At(m, p, t) && IsSuccessor(t, q, ts)
    ensures At(m, SuccessorPath(p, t, q, t.node), ts)
    ensures ParentOf(SuccessorPath(p, t, q, t.node)) == SuccessorParent(t, q)
  {
    AtGraft(m, InRight(p, t.color, t.left, t.node), t.right);
    AtAppend(m, q, InRight(p, t.color, t.left, t.node), ts);
  }

  /** The successor is bypassed and then replaces the node to erase. */
  lemma {:induction false} SuccessorInstalled(m: Memory, m': Memory, p: Path<RbNode>, t: Tree<RbNode>, q: Path<RbNode>,
                                              ts: Tree<RbNode>)
    requires At(m, p, t) && IsSuccessor(t, q, ts) && SuccessorParent(t, q) in m.row
    requires ts.right.Node? ==> ts.right.node in m.row
    requires Replaced(Bypass(m, SuccessorParent(t, q), ts.node, RootOf(ts.right)), m', t.node, ts.node)
    ensures At(m', SuccessorPath(p, t, q, ts.node), Recolored(ts.right, Black))
  {
    var x, path, k := ts.node, SuccessorPath(p, t, q, t.node), Recolored(ts.right, Black);
    var base := InRight(p, t.color, t.left, t.node);
    var m1 := Bypass(m, SuccessorParent(t, q), x, RootOf(ts.right));
    AtSuccessor(m, p, t, q, ts);
    BypassRows(path, ts, ts.right, {ParentOf(path), RootOf(ts.right), x});
    BypassedAt(m, m1, path, ts, ts.right, Black);
    AtAppend(m1, q, base, k);
    AtGraft(m1, base, Plug(q, k));
    var u := t.(right := Plug(q, k));
    SuccessorFresh(p, t, q, ts, k);
    ReplacedAt(m1, m', p, u, x);
    AtGraft(m', InRight(p, t.color, t.left, x), Plug(q, k));
    AtAppend(m', q, InRight(p, t.color, t.left, x), k);
  }

  /** Once bypassed, the successor is nowhere in the tree. */
  lemma {:induction false} SuccessorFresh(p: Path<RbNode>, t: Tree<RbNode>, q: Path<RbNode>, ts: Tree<RbNode>,
                                          k: Tree<RbNode>)
    requires IsSuccessor(t, q, ts) && k == Recolored(ts.right, Black)
    requires Distinct(ts) && Apart(SuccessorPath(p, t, q, t.node), Nodes(ts))
    ensures ts.node !in Nodes(t.(right := Plug(q, k))) && ts.node !in PathNodes(p)
  {
    var path, base := SuccessorPath(p, t, q, t.node), InRight(p, t.color, t.left, t.node);
    ApartDisjoint(path, Nodes(ts));
    assert Nodes(k) == Nodes(ts.right);
    PlugNodes(path, k);
    PlugAppend(q, base, k);
    PlugNodes(p, t.(right := Plug(q, k)));
    assert Plug(base, Plug(q, k)) == Plug(p, t.(right := Plug(q, k)));
  }

  /** The rows around a node with two children. */
  lemma {:induction false} RowsAround(m: Memory, p: Path<RbNode>, t: Tree<RbNode>)
    requires At(m, p, t) && t.Node? && t.left.Node? && t.right.Node?
    ensures t.node in m.row && m.row[t.node] == Row(PC(ParentOf(p), t.color), t.left.node, t.right.node)
    ensures t.left.node in m.row && t.right.node in m.row
    ensures ParentOf(p) != null ==> ParentOf(p) in m.row && ParentOf(p) !in Nodes(t)
    ensures t.node !in Nodes(t.left) && t.node !in Nodes(t.right) && t.left.node !in Nodes(t.right)
    ensures t.left.node != t.node
    ensures t.right.node in Nodes(t.right) && Nodes(t.right) <= Nodes(t) && t.left.node in Nodes(t)
    ensures t.node in Nodes(t)
  {
    assert Linked(m, t.left, t.node) && Linked(m, t.right, t.node);
    assert t.left.node in Nodes(t.left);
    ApartDisjoint(p, Nodes(t));
  }

  /** The rows around its successor. */
  lemma {:induction false} RowsAtSuccessor(m: Memory, p: Path<RbNode>, t: Tree<RbNode>, q: Path<RbNode>,
                                           ts: Tree<RbNode>)
    requires At(m, p, t) && IsSuccessor(t, q, ts)
    ensures ts.node in m.row && m.row[ts.node].right == RootOf(ts.right) && m.row[ts.node].pc.color == ts.color
    ensures ts.right.Node? ==> ts.right.node in m.row && ts.right.node in Nodes(t.right) && ts.right.node != ts.node
    ensures ts.node in Nodes(t.right)
    ensures !q.Top? ==>
      q.node in m.row && m.row[q.node].left == ts.node
      && {q.node, RootOf(t.right)} <= Nodes(t.right) - {ts.node, RootOf(ts.right)}
  {
    var path := SuccessorPath(p, t, q, t.node);
    AtSuccessor(m, p, t, q, ts);
    PlugNodes(q, ts);
    assert ts.right.Node? ==> ts.right.node in Nodes(ts.right) && Linked(m, ts.right, ts.node);
    if !q.Top? {
      assert m.row[path.node] == LastRow(path, ts.node);
      ApartDisjoint(path, Nodes(ts));
      RootOnPath(q, ts, InRight(p, t.color, t.left, t.node));
    }
  }

  /** The root of a plugged tree is on the path. */
  lemma {:induction false} RootOnPath(q: Path<RbNode>, t: Tree<RbNode>, base: Path<RbNode>)
    requires !q.Top?
    ensures Plug(q, t).Node? && Plug(q, t).node in PathNodes(q) && q.node in PathNodes(q)
    ensures PathNodes(q) <= PathNodes(Append(q, base))
    decreases q
  {
    if !q.up.Top? {
      RootOnPath(q.up, Graft(q, t), base);
    }
  }

  /** What unlinking leaves behind: a red-black tree, or one with an empty subtree one short. */
  ghost predicate Unlinked(m: Memory, q: Path<RbNode>, u: Tree<RbNode>, rebalance: RbNode?) {
    if rebalance == null then At(m, q, u) && RedBlack(Plug(q, u))
    else u.Leaf? && OneShort(m, q, u, 0) && q.node == rebalance
  }

  /** Where a bypass leaves the rules: the bypassed node had no left child, or no right one. */
  lemma {:induction false} BypassFits(p: Path<RbNode>, t: Tree<RbNode>, k: Tree<RbNode>, h: nat)
    requires Balanced(t, h) && Fits(p, h) && (IsBlack(t) || AcceptsRed(p)) && t.Node?
    requires (t.left.Leaf? && k == t.right) || (t.right.Leaf? && k == t.left)
    ensures k.Node? ==> k.color.Red? && t.color.Black? && h == 1 && Balanced(Recolored(k, Black), 1)
    ensures k.Leaf? && t.color.Red? ==> h == 0
    ensures k.Leaf? && t.color.Black? ==> h == 1
    ensures k.Node? || t.color.Red? || p.Top? ==> RedBlack(Plug(p, Recolored(k, Black)))
  {
    if k.Node? {
      assert Balanced(k, 0);
      PlugRedBlack(p, Recolored(k, Black), 1);
    } else if t.color.Red? {
      PlugRedBlack(p, k, 0);
    }
  }

  /** Case 1 of the unlinking: at most one child, `child`. */
  method UnlinkOuter(node: RbNode, child: RbNode?, root: RbRoot, ghost s: set<RbNode>,
                     ghost p: Path<RbNode>, ghost t: Tree<RbNode>, ghost k: Tree<RbNode>, ghost h: nat)
    returns (rebalance: RbNode?)
    requires node in s && At(Snapshot(root, s), p, t) && t.Node? && t.node == node && child == RootOf(k)
    requires Balanced(t, h) && Fits(p, h) && (IsBlack(t) || AcceptsRed(p))
    requires (t.left.Leaf? && k == t.right) || (t.right.Leaf? && k == t.left)
    modifies root, s
    ensures Unlinked(Snapshot(root, s), p, Recolored(k, Black), rebalance)
  {
    ghost var m := Snapshot(root, s);
    BypassRows(p, t, k, {ParentOf(p), RootOf(k), node});
    BypassFits(p, t, k, h);
    assert Linked(m, k, node);
    var pc := node.pc;
    var parent := pc.parent;
    ChangeChild(node, child, parent, root);
    if child != null {
      child.pc := pc;
      rebalance := null;
    } else {
      rebalance := if pc.color.Black? then parent else null;
    }
    BypassedAt(m, Snapshot(root, s), p, t, k, t.color);
  }

  /** Cases 2 and 3: two children. */
  method UnlinkInner(node: RbNode, child: RbNode, root: RbRoot, ghost s: set<RbNode>,
                     ghost p: Path<RbNode>, ghost t: Tree<RbNode>)
    returns (rebalance: RbNode?, ghost q: Path<RbNode>, ghost ts: Tree<RbNode>)
    requires node in s && At(Snapshot(root, s), p, t) && t.Node? && t.node == node
    requires t.left.Node? && t.right.Node? && t.right.node == child && RedBlack(Plug(p, t))
    modifies root, s
    ensures IsSuccessor(t, q, ts)
    ensures Unlinked(Snapshot(root, s), SuccessorPath(p, t, q, ts.node), Recolored(ts.right, Black), rebalance)
  {
    ghost var m := Snapshot(root, s);
    RowsAround(m, p, t);
    ghost var base := InRight(p, t.color, t.left, node);
    AtGraft(m, base, t.right);
    var parent, successor;
    parent, successor, q, ts := FindSuccessor(child, root, s, base, t.right);
    RowsAtSuccessor(m, p, t, q, ts);
    SuccessorFits(p, t, q, ts);
    if parent == null {
      rebalance := MoveChildUp(node, successor, root, s);
    } else {
      rebalance := MoveSuccessorUp(node, successor, parent, child, root, s);
    }
    SuccessorInstalled(m, Snapshot(root, s), p, t, q, ts);
  }

  /** Where the rules stand once the successor has moved up. */
  lemma {:induction false} SuccessorFits(p: Path<RbNode>, t: Tree<RbNode>, q: Path<RbNode>, ts: Tree<RbNode>)
    requires RedBlack(Plug(p, t)) && IsSuccessor(t, q, ts)
    ensures var path := SuccessorPath(p, t, q, ts.node);
      if ts.right.Leaf? && ts.color.Black? then !path.Top? && Fits(path, 1)
      else RedBlack(Plug(path, Recolored(ts.right, Black)))
    ensures !SuccessorPath(p, t, q, ts.node).Top?
    ensures SuccessorPath(p, t, q, ts.node).node == if q.Top? then ts.node else q.node
  {
    var base := InRight(p, t.color, t.left, t.node);
    PlugAppend(q, base, ts);
    var h := RedBlackCut(Append(q, base), ts);
    FitsRenamed(q, p, t.color, t.left, t.node, ts.node, h);
    BypassFits(SuccessorPath(p, t, q, ts.node), ts, ts.right, h);
  }

  /** The order after unlinking a node with two children. */
  lemma {:induction false} SuccessorInorder(p: Path<RbNode>, t: Tree<RbNode>, q: Path<RbNode>, ts: Tree<RbNode>)
    requires IsSuccessor(t, q, ts)
    ensures Inorder(Plug(SuccessorPath(p, t, q, ts.node), Recolored(ts.right, Black)))
         == (Before(p) + Inorder(t.left)) + (Inorder(t.right) + After(p))
  {
    var base, k := InRight(p, t.color, t.left, ts.node), Recolored(ts.right, Black);
    var c := Inorder(ts.right);
    AppendTop(q);
    AppendAllLeft(q, Top);
    assert Before(q) == [];
    PlugInorder(q, ts);
    assert Inorder(t.right) == [ts.node] + c + After(q);
    AppendAllLeft(q, base);
    PlugInorder(Append(q, base), k);
    assert Inorder(k) == c;
    Reassociate(Before(p), Inorder(t.left), ts.node, c, After(q), After(p));
  }

  lemma Reassociate<N>(a: seq<N>, b: seq<N>, x: N, c: seq<N>, d: seq<N>, e: seq<N>)
    ensures (a + b + [x]) + c + (d + e) == (a + b) + (([x] + c + d) + e)
  {
  }

  lemma AppendTop(q: Path<RbNode>)
    ensures Append(q, Top) == q
  {
  }

  /** What is read off a node before it is unlinked. */
  lemma {:induction false} NodeRow(m: Memory, p: Path<RbNode>, t: Tree<RbNode>)
    requires At(m, p, t) && t.Node?
    ensures t.node in m.row && m.row[t.node] == Row(PC(ParentOf(p), t.color), RootOf(t.left), RootOf(t.right))
  {
  }

  lemma {:induction false} OuterInorder(p: Path<RbNode>, t: Tree<RbNode>, k: Tree<RbNode>)
    requires t.Node? && ((t.left.Leaf? && k == t.right) || (t.right.Leaf? && k == t.left))
    ensures Inorder(Plug(p, Recolored(k, Black))) == (Before(p) + Inorder(t.left)) + (Inorder(t.right) + After(p))
  {
    hide Plug, Before, After;
    PlugInorder(p, Recolored(k, Black));
    var b, l, r, a := Before(p), Inorder(t.left), Inorder(t.right), After(p);
    assert l + r == Inorder(k);
    assert (b + l) + (r + a) == b + (l + r) + a;
  }

  /** Takes `node` out of the tree and says where to rebalance, if anywhere. */
  method Unlink(node: RbNode, root: RbRoot, ghost s: set<RbNode>, ghost p: Path<RbNode>, ghost t: Tree<RbNode>)
    returns (rebalance: RbNode?, ghost q: Path<RbNode>, ghost u: Tree<RbNode>)
    requires node in s && At(Snapshot(root, s), p, t) && t.Node? && t.node == node && RedBlack(Plug(p, t))
    modifies root, s
    ensures Unlinked(Snapshot(root, s), q, u, rebalance)
    ensures Inorder(Plug(q, u)) == (Before(p) + Inorder(t.left)) + (Inorder(t.right) + After(p))
  {
    NodeRow(Snapshot(root, s), p, t);
    var child, tmp := node.right, node.left;
    if tmp == null {
      ghost var h := RedBlackCut(p, t);
      q, u := p, Recolored(t.right, Black);
      OuterInorder(p, t, t.right);
      rebalance := UnlinkOuter(node, child, root, s, p, t, t.right, h);
    } else if child == null {
      ghost var h := RedBlackCut(p, t);
      q, u := p, Recolored(t.left, Black);
      OuterInorder(p, t, t.left);
      rebalance := UnlinkOuter(node, tmp, root, s, p, t, t.left, h);
    } else {
      ghost var ts;
      rebalance, q, ts := UnlinkInner(node, child, root, s, p, t);
      SuccessorInorder(p, t, q, ts);
      q, u := SuccessorPath(p, t, q, ts.node), Recolored(ts.right, Black);
    }
  }

  /** Unlinks `node` and rebalances: the other nodes keep their order. */
  method Erase(node: RbNode, root: RbRoot, ghost s: set<RbNode>, ghost p: Path<RbNode>, ghost t: Tree<RbNode>)
    returns (ghost whole: Tree<RbNode>)
    requires node in s && At(Snapshot(root, s), p, t) && t.Node? && t.node == node && RedBlack(Plug(p, t))
    modifies root, s
    ensures At(Snapshot(root, s), Top, whole) && RedBlack(whole)
    ensures Inorder(whole) == (Before(p) + Inorder(t.left)) + (Inorder(t.right) + After(p))
  {
    ghost var q, u;
    var rebalance;
    rebalance, q, u := Unlink(node, root, s, p, t);
    if rebalance != null {
      whole := EraseColor(rebalance, root, s, q);
    } else {
      AtPlug(Snapshot(root, s), q, u);
      whole := Plug(q, u);
    }
  }

  method WriteReplacement(victim: RbNode, new_: RbNode, root: RbRoot, ghost s: set<RbNode>)
    requires {victim, new_} <= s && victim != new_ && victim.pc.parent !in {victim, new_}
    requires victim.left != null ==> victim.left in s && victim.left !in {victim, new_, victim.right, victim.pc.parent}
    requires victim.right != null ==> victim.right in s && victim.right !in {victim, new_, victim.pc.parent}
    requires victim.pc.parent != null ==> victim.pc.parent in s
    modifies root, s
    ensures Replaced(old(Snapshot(root, s)), Snapshot(root, s), victim, new_)
  {
    var parent := victim.pc.parent;
    new_.pc, new_.left, new_.right := victim.pc, victim.left, victim.right;
    if victim.left != null {
      victim.left.pc := PC(new_, victim.left.pc.color);
    }
    if victim.right != null {
      victim.right.pc := PC(new_, victim.right.pc.color);
    }
    ChangeChild(victim, new_, parent, root);
  }

  /** Puts `new_` in the place of `victim` without touching the balance. */
  method ReplaceNode(victim: RbNode, new_: RbNode, root: RbRoot, ghost s: set<RbNode>, ghost p: Path<RbNode>,
                     ghost t: Tree<RbNode>)
    requires {victim, new_} <= s && At(Snapshot(root, s), p, t) && t.Node? && t.node == victim
    requires new_ !in Nodes(t) && new_ !in PathNodes(p)
    modifies root, s
    ensures At(Snapshot(root, s), p, t.(node := new_))
  {
    ghost var m := Snapshot(root, s);
    ReplaceApart(m, p, t, new_);
    WriteReplacement(victim, new_, root, s);
    ReplacedAt(m, Snapshot(root, s), p, t, new_);
  }

  lemma {:induction false} ReplaceApart(m: Memory, p: Path<RbNode>, t: Tree<RbNode>, x: RbNode)
    requires At(m, p, t) && t.Node? && x !in Nodes(t) && x !in PathNodes(p)
    ensures t.node in m.row && t.node != x && m.row[t.node].left == RootOf(t.left)
    ensures m.row[t.node].right == RootOf(t.right)
    ensures t.left.Node? ==> t.left.node in m.row && t.left.node !in {x, t.node, RootOf(t.right)}
    ensures t.right.Node? ==> t.right.node in m.row && t.right.node !in {x, t.node, RootOf(t.left)}
    ensures m.row[t.node].pc.parent == ParentOf(p)
    ensures ParentOf(p) != null ==> ParentOf(p) in m.row && ParentOf(p) !in {x, t.node, RootOf(t.left), RootOf(t.right)}
  {
    assert Linked(m, t.left, t.node) && Linked(m, t.right, t.node);
    assert t.left.Node? ==> t.left.node in Nodes(t.left);
    assert t.right.Node? ==> t.right.node in Nodes(t.right);
    ApartDisjoint(p, Nodes(t));
  }
}

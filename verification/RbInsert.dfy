/** Rebalancing after a red leaf has been linked in. */
module RbInsert {
  import opened RbShape
  import opened RbMemory

  /** Two left turns above `t`: ready for a right rotation at the grandparent. */
  lemma OpenRight(m: Memory, p: Path<RbNode>, t: Tree<RbNode>)
    requires At(m, p, t) && p.InLeft? && p.up.InLeft?
    ensures RightReady(m, p.up.up, t, p.node, p.right, p.up.color, p.up.node, p.up.right)
    ensures m.row[p.up.node].left == p.node
  {
    AtGraft(m, p, t);
    AtGraft(m, p.up, Graft(p, t));
    PiecesLeftLeaning(p.up.up, p.color, t, p.node, p.right, p.up.color, p.up.node, p.up.right);
  }

  lemma OpenLeft(m: Memory, p: Path<RbNode>, t: Tree<RbNode>)
    requires At(m, p, t) && p.InRight? && p.up.InRight?
    ensures LeftReady(m, p.up.up, p.up.left, p.up.color, p.up.node, p.left, p.node, t)
    ensures m.row[p.up.node].right == p.node
  {
    AtGraft(m, p, t);
    AtGraft(m, p.up, Graft(p, t));
    PiecesRightLeaning(p.up.up, p.up.color, p.up.left, p.up.node, p.left, p.color, p.node, t);
  }

  /** What Case 2 writes when the uncle is on the right: `y`, right child of `x`, takes `x` as
      its left child and gives it `b`. The parent pointer of `y` stays stale. */
  ghost predicate TurnedLeft(m: Memory, m': Memory, x: RbNode, b: RbNode?, y: RbNode) {
    {x, y} <= m.row.Keys && {x, y} <= m'.row.Keys && (b != null ==> b in m.row && b in m'.row)
    && m'.row[x] == Row(PC(y, Red), m.row[x].left, b)
    && m'.row[y] == m.row[y].(left := x)
    && (b != null ==> m'.row[b] == m.row[b].(pc := PC(x, Black)))
    && m'.top == m.top && SameBut(m, m', {x, y, b})
  }

  ghost predicate TurnedRight(m: Memory, m': Memory, x: RbNode, b: RbNode?, y: RbNode) {
    {x, y} <= m.row.Keys && {x, y} <= m'.row.Keys && (b != null ==> b in m.row && b in m'.row)
    && m'.row[y] == Row(PC(x, Red), b, m.row[y].right)
    && m'.row[x] == m.row[x].(right := y)
    && (b != null ==> m'.row[b] == m.row[b].(pc := PC(y, Black)))
    && m'.top == m.top && SameBut(m, m', {x, y, b})
  }

  /** After Case 2, memory is ready for Case 3. */
  lemma {:induction false} TurnedLeftReady(m: Memory, m': Memory, p: Path<RbNode>, t: Tree<RbNode>)
    requires At(m, p, t) && t.Node? && IsBlack(t.left) && p.InRight? && p.up.InLeft?
    requires TurnedLeft(m, m', p.node, RootOf(t.left), t.node)
    ensures RightReady(m', p.up.up, Node(Red, p.left, p.node, t.left), t.node, t.right, p.up.color, p.up.node,
                       p.up.right)
  {
    var x, y, b := p.node, t.node, t.left;
    var d := {x, y, RootOf(b)};
    AtGraft(m, p, t);
    PiecesRightLeaning(p.up, p.color, p.left, x, b, t.color, y, t.right);
    RotationRows(p.up, p.left, x, b, y, t.right, d + {p.up.node});
    PiecesOffPath(p.up, p.left, x, b, y, t.right);
    LinkedMoved(m, m', b, y, x, Black, d);
    LinkedFrame(m, m', p.left, x, d);
    LinkedFrame(m, m', t.right, y, d);
    HungFrame(m, m', p.up, x, d);
    var a := Node(Red, p.left, x, b);
    PiecesLeftLeaning(p.up, Red, p.left, x, b, Red, y, t.right);
    ApartGraft(p.up, Node(Red, a, y, t.right));
    PiecesLeftLeaning(p.up.up, Red, a, y, t.right, p.up.color, p.up.node, p.up.right);
  }

  lemma {:induction false} TurnedRightReady(m: Memory, m': Memory, p: Path<RbNode>, t: Tree<RbNode>)
    requires At(m, p, t) && t.Node? && IsBlack(t.right) && p.InLeft? && p.up.InRight?
    requires TurnedRight(m, m', t.node, RootOf(t.right), p.node)
    ensures LeftReady(m', p.up.up, p.up.left, p.up.color, p.up.node, t.left, t.node,
                      Node(Red, t.right, p.node, p.right))
  {
    var x, y, b := t.node, p.node, t.right;
    var d := {x, y, RootOf(b)};
    AtGraft(m, p, t);
    PiecesLeftLeaning(p.up, t.color, t.left, x, b, p.color, y, p.right);
    RotationRows(p.up, t.left, x, b, y, p.right, d + {p.up.node});
    PiecesOffPath(p.up, t.left, x, b, y, p.right);
    LinkedMoved(m, m', b, x, y, Black, d);
    LinkedFrame(m, m', t.left, x, d);
    LinkedFrame(m, m', p.right, y, d);
    HungFrame(m, m', p.up, y, d);
    var c := Node(Red, b, y, p.right);
    PiecesRightLeaning(p.up, Red, t.left, x, b, Red, y, p.right);
    ApartGraft(p.up, Node(Red, t.left, x, c));
    PiecesRightLeaning(p.up.up, p.up.color, p.up.left, p.up.node, t.left, Red, x, c);
  }

  method WriteTurnLeft(x: RbNode, y: RbNode, ghost root: RbRoot, ghost s: set<RbNode>)
    requires x in s && y in s && x != y && (y.left != null ==> y.left in s && y.left !in {x, y})
    modifies s
    ensures TurnedLeft(old(Snapshot(root, s)), Snapshot(root, s), x, old(y.left), y)
  {
    var tmp := y.left;
    x.right := tmp;
    y.left := x;
    if tmp != null {
      tmp.pc := PC(x, Black);
    }
    x.pc := PC(y, Red);
  }

  method WriteTurnRight(y: RbNode, x: RbNode, ghost root: RbRoot, ghost s: set<RbNode>)
    requires x in s && y in s && x != y && (x.right != null ==> x.right in s && x.right !in {x, y})
    modifies s
    ensures TurnedRight(old(Snapshot(root, s)), Snapshot(root, s), x, old(x.right), y)
  {
    var tmp := x.right;
    y.left := tmp;
    x.right := y;
    if tmp != null {
      tmp.pc := PC(y, Black);
    }
    y.pc := PC(x, Red);
  }

  /** The grandparent's subtree after Case 1. */
  function Flipped(p: Path<RbNode>, t: Tree<RbNode>): Tree<RbNode>
    requires !p.Top? && !p.up.Top? && Sibling(p.up).Node?
  {
    var parent := Graft(p.(color := Black), t);
    var uncle := Sibling(p.up).(color := Black);
    if p.up.InLeft? then Node(Red, parent, p.up.node, uncle) else Node(Red, uncle, p.up.node, parent)
  }

  /** Case 1: the red parent and uncle turn black, the black grandparent red. */
  method FlipColors(tmp: RbNode, parent: RbNode, gparent: RbNode, root: RbRoot, ghost s: set<RbNode>,
                    ghost p: Path<RbNode>, ghost t: Tree<RbNode>) returns (above: RbNode?)
    requires At(Snapshot(root, s), p, t) && !p.Top? && !p.up.Top?
    requires RootOf(Sibling(p.up)) == tmp && parent == p.node && gparent == p.up.node
    modifies s
    ensures At(Snapshot(root, s), p.up.up, Flipped(p, t)) && above == ParentOf(p.up.up)
  {
    ghost var m := Snapshot(root, s);
    ghost var g, t1, u := p.up, Graft(p, t), Sibling(p.up);
    AtGraft(m, p, t);
    AtGraft(m, g, t1);
    AtGraft(m, Across(g, t1), u);
    Repaint(tmp, gparent, Black, root, s, Across(g, t1), u);
    ghost var u' := u.(color := Black);
    ghost var g' := Across(Across(g, t1), u');
    AtGraft(Snapshot(root, s), Across(g, t1), u');
    AtGraft(Snapshot(root, s), g', t1);
    Repaint(parent, gparent, Black, root, s, g', t1);
    AtGraft(Snapshot(root, s), g', t1.(color := Black));
    above := gparent.pc.parent;
    Repaint(gparent, above, Red, root, s, g.up, Graft(g', t1.(color := Black)));
  }

  /** Where the loop stands: the red subtree `t` hangs at the end of `p`, every rule holds within
      `t` and along `p`, and only `t` and its parent may both be red. */
  ghost predicate OneRedPair(m: Memory, p: Path<RbNode>, t: Tree<RbNode>, node: RbNode, h: nat) {
    At(m, p, t) && t.Node? && t.node == node && t.color.Red? && Balanced(t, h) && Fits(p, h)
  }

  /** Case 1 moves the red pair two levels up. */
  lemma {:induction false} FlippedFits(m: Memory, p: Path<RbNode>, t: Tree<RbNode>, h: nat)
    requires t.Node? && t.color.Red? && Balanced(t, h) && Fits(p, h) && !p.Top? && p.color.Red?
    requires !p.up.Top? && Sibling(p.up).Node? && Sibling(p.up).color.Red? && At(m, p.up.up, Flipped(p, t))
    ensures OneRedPair(m, p.up.up, Flipped(p, t), p.up.node, h + 1)
    ensures Inorder(Plug(p.up.up, Flipped(p, t))) == Inorder(Plug(p, t))
  {
    PlugSameInorder(p.up.up, Graft(p.up, Graft(p, t)), Flipped(p, t));
  }

  /** The subtree at the grandparent's place after Cases 2 and 3. */
  function SettledLeft(p: Path<RbNode>, t: Tree<RbNode>): Tree<RbNode>
    requires t.Node? && !p.Top? && p.up.InLeft?
  {
    if p.InLeft? then Node(Black, t, p.node, Node(Red, p.right, p.up.node, p.up.right))
    else Node(Black, Node(Red, p.left, p.node, t.left), t.node, Node(Red, t.right, p.up.node, p.up.right))
  }

  function SettledRight(p: Path<RbNode>, t: Tree<RbNode>): Tree<RbNode>
    requires t.Node? && !p.Top? && p.up.InRight?
  {
    if p.InRight? then Node(Black, Node(Red, p.up.left, p.up.node, p.left), p.node, t)
    else Node(Black, Node(Red, p.up.left, p.up.node, t.left), t.node, Node(Red, t.right, p.node, p.right))
  }

  /** It obeys the rules and keeps the order. */
  lemma {:induction false} SettledLeftFits(p: Path<RbNode>, t: Tree<RbNode>, h: nat)
    requires Balanced(t, h) && t.Node? && t.color.Red? && Fits(p, h) && !p.Top? && p.color.Red?
    requires p.up.InLeft? && IsBlack(p.up.right)
    ensures RedBlack(Plug(p.up.up, SettledLeft(p, t)))
    ensures Inorder(Plug(p.up.up, SettledLeft(p, t))) == Inorder(Plug(p, t))
  {
    var t' := SettledLeft(p, t);
    RotationInorder(Black, Red, Black, Red, t'.left, t'.node, t'.right.left, p.up.node, p.up.right);
    if p.InRight? {
      RotationInorder(Red, Red, Red, Red, p.left, p.node, t.left, t.node, t.right);
    }
    PlugSameInorder(p.up.up, Graft(p.up, Graft(p, t)), t');
    PlugRedBlack(p.up.up, t', h + 1);
  }

  lemma {:induction false} SettledRightFits(p: Path<RbNode>, t: Tree<RbNode>, h: nat)
    requires Balanced(t, h) && t.Node? && t.color.Red? && Fits(p, h) && !p.Top? && p.color.Red?
    requires p.up.InRight? && IsBlack(p.up.left)
    ensures RedBlack(Plug(p.up.up, SettledRight(p, t)))
    ensures Inorder(Plug(p.up.up, SettledRight(p, t))) == Inorder(Plug(p, t))
  {
    var t' := SettledRight(p, t);
    RotationInorder(Black, Red, Black, Red, p.up.left, p.up.node, t'.left.right, t'.node, t'.right);
    if p.InLeft? {
      RotationInorder(Red, Red, Red, Red, t.left, t.node, t.right, p.node, p.right);
    }
    PlugSameInorder(p.up.up, Graft(p.up, Graft(p, t)), t');
    PlugRedBlack(p.up.up, t', h + 1);
  }

  /** Cases 2 and 3 with the uncle on the right. */
  method SettleLeft(node: RbNode, parent0: RbNode, gparent: RbNode, root: RbRoot, ghost s: set<RbNode>,
                    ghost p: Path<RbNode>, ghost t: Tree<RbNode>)
    requires At(Snapshot(root, s), p, t) && t.Node? && t.node == node && IsBlack(t.left) && IsBlack(t.right)
    requires !p.Top? && p.up.InLeft? && p.node == parent0 && p.up.node == gparent && p.up.color.Black?
    requires IsBlack(Sibling(p))
    modifies root, s
    ensures At(Snapshot(root, s), p.up.up, SettledLeft(p, t))
  {
    var parent := parent0;
    ghost var m := Snapshot(root, s);
    Sides(m, p, t);
    var tmp := parent.right;
    if node == tmp {
      ChildrenApart(m, p, t);
      WriteTurnLeft(parent, node, root, s);
      TurnedLeftReady(m, Snapshot(root, s), p, t);
      parent := node;
      tmp := node.right;
      RotateRight(gparent, parent, tmp, root, Red, s, p.up.up, Node(Red, p.left, p.node, t.left), t.right, Black,
                  p.up.right);
    } else {
      OpenRight(m, p, t);
      RotateRight(gparent, parent, tmp, root, Red, s, p.up.up, t, p.right, Black, p.up.right);
    }
  }

  /** Cases 2 and 3 with the uncle on the left. */
  method SettleRight(node: RbNode, parent0: RbNode, gparent: RbNode, root: RbRoot, ghost s: set<RbNode>,
                     ghost p: Path<RbNode>, ghost t: Tree<RbNode>)
    requires At(Snapshot(root, s), p, t) && t.Node? && t.node == node && IsBlack(t.left) && IsBlack(t.right)
    requires !p.Top? && p.up.InRight? && p.node == parent0 && p.up.node == gparent && p.up.color.Black?
    requires IsBlack(Sibling(p))
    modifies root, s
    ensures At(Snapshot(root, s), p.up.up, SettledRight(p, t))
  {
    var parent := parent0;
    ghost var m := Snapshot(root, s);
    Sides(m, p, t);
    var tmp := parent.left;
    if node == tmp {
      ChildrenApart(m, p, t);
      WriteTurnRight(parent, node, root, s);
      TurnedRightReady(m, Snapshot(root, s), p, t);
      parent := node;
      tmp := node.left;
      RotateLeft(gparent, parent, tmp, root, Red, s, p.up.up, p.up.left, Black, t.left,
                 Node(Red, t.right, p.node, p.right));
    } else {
      OpenLeft(m, p, t);
      RotateLeft(gparent, parent, tmp, root, Red, s, p.up.up, p.up.left, Black, p.left, t);
    }
  }

  lemma ChildrenApart(m: Memory, p: Path<RbNode>, t: Tree<RbNode>)
    requires At(m, p, t) && !p.Top? && t.Node?
    ensures t.node != p.node && p.node in m.row && t.node in m.row
    ensures t.left.Node? ==> t.left.node in m.row && t.left.node !in {p.node, t.node}
    ensures t.right.Node? ==> t.right.node in m.row && t.right.node !in {p.node, t.node}
  {
    assert t.left.Node? ==> t.left.node in Nodes(t.left) && t.left.node in Nodes(t);
    assert t.right.Node? ==> t.right.node in Nodes(t.right) && t.right.node in Nodes(t);
    assert t.node in Nodes(t) && Linked(m, t.left, t.node) && Linked(m, t.right, t.node);
  }

  /** What the loop reads above a red parent. */
  lemma Grandparent(m: Memory, p: Path<RbNode>, t: Tree<RbNode>, h: nat)
    requires At(m, p, t) && Fits(p, h) && !p.Top? && p.color.Red?
    ensures p.node in m.row && m.row[p.node].pc == PC(ParentOf(p.up), Red)
    ensures !p.up.Top? && p.up.color.Black? && IsBlack(Sibling(p))
    ensures p.up.node in m.row && m.row[p.up.node] == LastRow(p.up, p.node)
    ensures p.up.InRight? <==> m.row[p.up.node].right == p.node
    ensures var uncle := Sibling(p.up); uncle.Node? ==> uncle.node in m.row && m.row[uncle.node].pc.color == uncle.color
  {
    AtGraft(m, p, t);
    Sides(m, p.up, Graft(p, t));
    assert Hung(m, p.up, p.node) && Linked(m, Sibling(p.up), p.up.node);
  }

  /** One round of the loop with a red parent: either the red pair moves up, or it is gone. */
  method RepairRedPair(node: RbNode, parent: RbNode, root: RbRoot, ghost s: set<RbNode>,
                       ghost p: Path<RbNode>, ghost t: Tree<RbNode>, ghost h: nat)
    returns (again: bool, gparent: RbNode, above: RbNode?, ghost t': Tree<RbNode>)
    requires node in s && OneRedPair(Snapshot(root, s), p, t, node, h) && parent == ParentOf(p) && p.color.Red?
    modifies root, s
    ensures !p.up.Top? && Inorder(Plug(p.up.up, t')) == Inorder(Plug(p, t))
    ensures again ==>
      OneRedPair(Snapshot(root, s), p.up.up, t', gparent, h + 1) && above == ParentOf(p.up.up) && gparent in s
    ensures !again ==> Settled(Snapshot(root, s), p.up.up, t')
  {
    Grandparent(Snapshot(root, s), p, t, h);
    above := null;
    gparent := parent.pc.parent;
    var tmp := gparent.right;
    if parent != tmp {
      if tmp != null && tmp.pc.color.Red? {
        above := FlipColors(tmp, parent, gparent, root, s, p, t);
        FlippedFits(Snapshot(root, s), p, t, h);
        return true, gparent, above, Flipped(p, t);
      }
      SettleLeft(node, parent, gparent, root, s, p, t);
      SettledLeftFits(p, t, h);
      return false, gparent, above, SettledLeft(p, t);
    } else {
      tmp := gparent.left;
      if tmp != null && tmp.pc.color.Red? {
        above := FlipColors(tmp, parent, gparent, root, s, p, t);
        FlippedFits(Snapshot(root, s), p, t, h);
        return true, gparent, above, Flipped(p, t);
      }
      SettleRight(node, parent, gparent, root, s, p, t);
      SettledRightFits(p, t, h);
      return false, gparent, above, SettledRight(p, t);
    }
  }

  /** Rebalances the tree after the red leaf `node0` was linked at the end of `p0`. */
  method InsertColor(node0: RbNode, root: RbRoot, ghost s: set<RbNode>, ghost p0: Path<RbNode>)
    returns (ghost whole: Tree<RbNode>)
    requires node0 in s && At(Snapshot(root, s), p0, Node(Red, Leaf, node0, Leaf)) && Fits(p0, 0)
    modifies root, s
    ensures At(Snapshot(root, s), Top, whole) && RedBlack(whole)
    ensures Inorder(whole) == Inorder(Plug(p0, Node(Red, Leaf, node0, Leaf)))
  {
    var node, parent := node0, node0.pc.parent;
    ghost var p, t, h := p0, Node(Red, Leaf, node, Leaf), 0;
    while true
      invariant node in s && OneRedPair(Snapshot(root, s), p, t, node, h) && parent == ParentOf(p)
      invariant Inorder(Plug(p, t)) == Inorder(Plug(p0, Node(Red, Leaf, node0, Leaf)))
      decreases p
    {
      if parent == null {
        Repaint(node, null, Black, root, s, p, t);
        PlugSameInorder(p, t, t.(color := Black));
        t := t.(color := Black);
        PlugRedBlack(p, t, h + 1);
        break;
      }
      if parent.pc.color.Black? {
        PlugRedBlack(p, t, h);
        break;
      }
      ghost var t';
      var again, gparent, above;
      again, gparent, above, t' := RepairRedPair(node, parent, root, s, p, t, h);
      p, t, h := p.up.up, t', h + 1;
      if !again {
        break;
      }
      node, parent := gparent, above;
    }
    AtPlug(Snapshot(root, s), p, t);
    return Plug(p, t);
  }
}

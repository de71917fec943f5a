/** Rebalancing after a black node has gone: the paths through `node`, which hangs at the end
    of a path, meet one black node too few. */
module RbEraseColor {
  import opened RbShape
  import opened RbMemory

  /** Where the loop stands: the black subtree `t` lacks one black node against its sibling, and
      no other rule is broken. */
  ghost predicate OneShort(m: Memory, p: Path<RbNode>, t: Tree<RbNode>, h: nat) {
    At(m, p, t) && !p.Top? && IsBlack(t) && Balanced(t, h) && Fits(p, h + 1)
  }

  /** The other child of the parent exists. */
  lemma SiblingExists(m: Memory, p: Path<RbNode>, t: Tree<RbNode>, h: nat)
    requires OneShort(m, p, t, h)
    ensures p.node in m.row && m.row[p.node] == LastRow(p, RootOf(t))
    ensures Sibling(p).Node? && Linked(m, Sibling(p), p.node) && Balanced(Sibling(p), h + 1)
    ensures p.InLeft? <==> m.row[p.node].right != RootOf(t)
    ensures Sibling(p).color.Red? ==>
      p.color.Black? && Sibling(p).left.Node? && Sibling(p).right.Node?
      && Sibling(p).left.color.Black? && Sibling(p).right.color.Black?
      && Balanced(Sibling(p).left, h + 1) && Balanced(Sibling(p).right, h + 1)
  {
    if t.Node? {
      Sides(m, p, t);
    }
    var sib := Sibling(p);
    assert sib.Node? && sib.color.Red? ==> Balanced(sib.left, h + 1) && Balanced(sib.right, h + 1);
  }

  /** The path to `t` after Case 1. */
  function Lowered(p: Path<RbNode>): Path<RbNode>
    requires !p.Top? && Sibling(p).Node?
  {
    if p.InLeft? then InLeft(InLeft(p.up, Black, p.right.node, p.right.right), Red, p.node, p.right.left)
    else InRight(InRight(p.up, Black, p.left.left, p.left.node), Red, p.left.right, p.node)
  }

  /** Ready for a left rotation at the parent. */
  lemma OpenAtParentLeft(m: Memory, p: Path<RbNode>, t: Tree<RbNode>)
    requires At(m, p, t) && p.InLeft? && p.right.Node?
    ensures LeftReady(m, p.up, t, p.color, p.node, p.right.left, p.right.node, p.right.right)
    ensures m.row[p.right.node] == Row(PC(p.node, p.right.color), RootOf(p.right.left), RootOf(p.right.right))
  {
    AtGraft(m, p, t);
    assert Linked(m, p.right, p.node);
    PiecesRightLeaning(p.up, p.color, t, p.node, p.right.left, p.right.color, p.right.node, p.right.right);
  }

  lemma OpenAtParentRight(m: Memory, p: Path<RbNode>, t: Tree<RbNode>)
    requires At(m, p, t) && p.InRight? && p.left.Node?
    ensures RightReady(m, p.up, p.left.left, p.left.node, p.left.right, p.color, p.node, t)
    ensures m.row[p.left.node] == Row(PC(p.node, p.left.color), RootOf(p.left.left), RootOf(p.left.right))
  {
    AtGraft(m, p, t);
    assert Linked(m, p.left, p.node);
    PiecesLeftLeaning(p.up, p.left.color, p.left.left, p.left.node, p.left.right, p.color, p.node, t);
  }

  /** Case 1: a red sibling. The rotation gives `t` a black sibling and a red parent. */
  method LowerLeft(parent: RbNode, sibling: RbNode, root: RbRoot, ghost s: set<RbNode>,
                   ghost p: Path<RbNode>, ghost t: Tree<RbNode>, ghost h: nat) returns (tmp1: RbNode)
    requires OneShort(Snapshot(root, s), p, t, h) && p.InLeft? && p.node == parent
    requires RootOf(p.right) == sibling && p.right.color.Red?
    modifies root, s
    ensures p.right.Node? && p.right.left.Node? && tmp1 == p.right.left.node && p.right.left.color.Black?
    ensures OneShort(Snapshot(root, s), Lowered(p), t, h)
    ensures Inorder(Plug(Lowered(p), t)) == Inorder(Plug(p, t))
  {
    ghost var m := Snapshot(root, s);
    SiblingExists(m, p, t, h);
    OpenAtParentLeft(m, p, t);
    tmp1 := sibling.left;
    RotateLeft(parent, sibling, tmp1, root, Red, s, p.up, t, p.color, p.right.left, p.right.right);
    ghost var q := Lowered(p);
    AtGraft(Snapshot(root, s), q, t);
    AtGraft(Snapshot(root, s), q.up, Graft(q, t));
    RotationInorder(Black, Red, Black, Red, t, parent, p.right.left, sibling, p.right.right);
    PlugSameInorder(p.up, Graft(p, t), Graft(q.up, Graft(q, t)));
  }

  method LowerRight(parent: RbNode, sibling: RbNode, root: RbRoot, ghost s: set<RbNode>,
                    ghost p: Path<RbNode>, ghost t: Tree<RbNode>, ghost h: nat) returns (tmp1: RbNode)
    requires OneShort(Snapshot(root, s), p, t, h) && p.InRight? && p.node == parent
    requires RootOf(p.left) == sibling && p.left.color.Red?
    modifies root, s
    ensures p.left.Node? && p.left.right.Node? && tmp1 == p.left.right.node && p.left.right.color.Black?
    ensures OneShort(Snapshot(root, s), Lowered(p), t, h)
    ensures Inorder(Plug(Lowered(p), t)) == Inorder(Plug(p, t))
  {
    ghost var m := Snapshot(root, s);
    SiblingExists(m, p, t, h);
    OpenAtParentRight(m, p, t);
    tmp1 := sibling.right;
    RotateRight(parent, sibling, tmp1, root, Red, s, p.up, p.left.left, p.left.right, p.color, t);
    ghost var q := Lowered(p);
    AtGraft(Snapshot(root, s), q, t);
    AtGraft(Snapshot(root, s), q.up, Graft(q, t));
    RotationInorder(Black, Red, Black, Red, p.left.left, sibling, p.left.right, parent, t);
    PlugSameInorder(p.up, Graft(p, t), Graft(q.up, Graft(q, t)));
  }

  ghost predicate SiblingRows(m: Memory, parent: RbNode, sib: Tree<RbNode>) {
    sib.Node? && sib.node in m.row
    && m.row[sib.node] == Row(PC(parent, Black), RootOf(sib.left), RootOf(sib.right))
    && (sib.left.Node? ==> sib.left.node in m.row && m.row[sib.left.node].pc.color == sib.left.color)
    && (sib.right.Node? ==> sib.right.node in m.row && m.row[sib.right.node].pc.color == sib.right.color)
  }

  /** What the loop reads off a black sibling. */
  lemma BlackSibling(m: Memory, p: Path<RbNode>, t: Tree<RbNode>, h: nat)
    requires OneShort(m, p, t, h) && IsBlack(Sibling(p))
    ensures Sibling(p).Node? && Linked(m, Sibling(p), p.node)
    ensures Balanced(Sibling(p).left, h) && Balanced(Sibling(p).right, h)
    ensures SiblingRows(m, p.node, Sibling(p))
  {
    var sib := Sibling(p);
    assert Linked(m, sib, p.node) && Linked(m, sib.left, sib.node) && Linked(m, sib.right, sib.node);
  }

  // ---------------------------------------------------------------- Case 2

  /** The path to `t` with its sibling and parent recoloured. */
  function Paint(p: Path<RbNode>, parent: Color, sibling: Color): Path<RbNode>
    requires !p.Top? && Sibling(p).Node?
  {
    if p.InLeft? then p.(color := parent, right := p.right.(color := sibling))
    else p.(color := parent, left := p.left.(color := sibling))
  }

  /** Case 2: a black sibling with black children turns red. A red parent then turns black and
      all is well; a black parent is now the root of a subtree that is one short. */
  method FlipSibling(parent: RbNode, sibling: RbNode, root: RbRoot, ghost s: set<RbNode>,
                     ghost p: Path<RbNode>, ghost t: Tree<RbNode>, ghost h: nat)
    returns (above: RbNode?)
    requires OneShort(Snapshot(root, s), p, t, h) && p.node == parent && RootOf(Sibling(p)) == sibling
    requires IsBlack(Sibling(p)) && IsBlack(Sibling(p).left) && IsBlack(Sibling(p).right)
    modifies s
    ensures Sibling(p).Node?
    ensures p.color.Red? ==> Settled(Snapshot(root, s), Paint(p, Black, Red), t) && above == null
    ensures p.color.Red? ==> Inorder(Plug(Paint(p, Black, Red), t)) == Inorder(Plug(p, t))
    ensures p.color.Black? ==>
      above == ParentOf(p.up) && Inorder(Plug(p.up, Graft(Paint(p, Black, Red), t))) == Inorder(Plug(p, t))
    ensures p.color.Black? && above != null ==> OneShort(Snapshot(root, s), p.up, Graft(Paint(p, Black, Red), t), h + 1)
    ensures p.color.Black? && above == null ==> Settled(Snapshot(root, s), p.up, Graft(Paint(p, Black, Red), t))
  {
    ghost var m, q, sib := Snapshot(root, s), Paint(p, Black, Red), Sibling(p);
    BlackSibling(m, p, t, h);
    AtGraft(m, p, t);
    AtGraft(m, Across(p, t), sib);
    Repaint(sibling, parent, Red, root, s, Across(p, t), sib);
    ghost var p1 := Paint(p, p.color, Red);
    AtGraft(Snapshot(root, s), Across(p, t), sib.(color := Red));
    assert Graft(p1, t) == Graft(Across(p, t), sib.(color := Red));
    AtGraft(Snapshot(root, s), p1, t);
    PlugSameInorder(p.up, Graft(p, t), Graft(q, t));
    PaintFits(p, t, h);
    if parent.pc.color.Red? {
      SetBlack(parent, root, s, p.up, Graft(p1, t));
      AtGraft(Snapshot(root, s), q, t);
      above := null;
    } else {
      above := parent.pc.parent;
    }
  }

  lemma PaintFits(p: Path<RbNode>, t: Tree<RbNode>, h: nat)
    requires !p.Top? && IsBlack(t) && Balanced(t, h) && Fits(p, h + 1)
    requires Sibling(p).Node? && Sibling(p).color.Black? && IsBlack(Sibling(p).left) && IsBlack(Sibling(p).right)
    ensures Balanced(Graft(Paint(p, Black, Red), t), h + 1)
    ensures p.color.Red? || p.up.Top? ==> RedBlack(Plug(Paint(p, Black, Red), t))
    ensures p.color.Black? ==> Fits(p.up, h + 2)
  {
    if p.color.Red? {
      PlugRedBlack(Paint(p, Black, Red), t, h);
    } else if p.up.Top? {
      PlugRedBlack(p.up, Graft(Paint(p, Black, Red), t), h + 1);
    }
  }

  // ---------------------------------------------------------------- Cases 3 and 4

  /** `m` with the root of `c` below `y` and black, as Case 4 is about to write it. */
  ghost function Reattached(m: Memory, y: RbNode, c: RbNode): Memory
    requires c in m.row
  {
    m.(row := m.row[c := m.row[c].(pc := PC(y, Black))])
  }

  /** All that Case 4 relies on with `t` on the left: the far nephew's parent pointer may be stale. */
  ghost predicate LastReadyLeft(m: Memory, up: Path<RbNode>, a: Tree<RbNode>, cx: Color, x: RbNode, b: Tree<RbNode>,
                                y: RbNode, c: Tree<RbNode>) {
    c.Node? && c.node in m.row && y in m.row && m.row[y].left == RootOf(b)
    && LeftReady(Reattached(m, y, c.node), up, a, cx, x, b, y, c)
  }

  ghost predicate LastReadyRight(m: Memory, up: Path<RbNode>, a: Tree<RbNode>, x: RbNode, b: Tree<RbNode>,
                                 cy: Color, y: RbNode, c: Tree<RbNode>) {
    a.Node? && a.node in m.row && x in m.row && m.row[x].right == RootOf(b)
    && RightReady(Reattached(m, x, a.node), up, a, x, b, cy, y, c)
  }

  lemma {:induction false} OpenLastLeft(m: Memory, p: Path<RbNode>, t: Tree<RbNode>)
    requires At(m, p, t) && p.InLeft? && p.right.Node? && p.right.right.Node?
    ensures LastReadyLeft(m, p.up, t, p.color, p.node, p.right.left, p.right.node, p.right.right.(color := Black))
  {
    OpenAtParentLeft(m, p, t);
    var sib := p.right;
    var far, m1 := sib.right, Reattached(m, sib.node, sib.right.node);
    assert Linked(m, sib, p.node) && Linked(m, far, sib.node);
    LinkedMoved(m, m1, far, sib.node, sib.node, Black, {far.node});
    PiecesOffPath(p.up, t, p.node, sib.left, sib.node, far);
    assert far.node in Nodes(far);
    LinkedFrame(m, m1, t, p.node, {far.node});
    LinkedFrame(m, m1, sib.left, sib.node, {far.node});
    HungFrame(m, m1, p.up, p.node, {far.node});
    assert Nodes(far.(color := Black)) == Nodes(far);
  }

  lemma {:induction false} OpenLastRight(m: Memory, p: Path<RbNode>, t: Tree<RbNode>)
    requires At(m, p, t) && p.InRight? && p.left.Node? && p.left.left.Node?
    ensures LastReadyRight(m, p.up, p.left.left.(color := Black), p.left.node, p.left.right, p.color, p.node, t)
  {
    OpenAtParentRight(m, p, t);
    var sib := p.left;
    var far, m1 := sib.left, Reattached(m, sib.node, sib.left.node);
    assert Linked(m, sib, p.node) && Linked(m, far, sib.node);
    LinkedMoved(m, m1, far, sib.node, sib.node, Black, {far.node});
    PiecesOffPath(p.up, far, sib.node, sib.right, p.node, t);
    assert far.node in Nodes(far);
    LinkedFrame(m, m1, t, p.node, {far.node});
    LinkedFrame(m, m1, sib.right, sib.node, {far.node});
    HungFrame(m, m1, p.up, p.node, {far.node});
    assert Nodes(far.(color := Black)) == Nodes(far);
  }

  method WriteLastLeft(parent: RbNode, sibling: RbNode, tmp1: RbNode, root: RbRoot, ghost s: set<RbNode>)
    requires parent in s && sibling in s && tmp1 in s && parent != sibling && tmp1 !in {parent, sibling}
    requires sibling.left != null ==> sibling.left in s && sibling.left !in {parent, sibling, tmp1}
    requires parent.pc.parent != null ==>
      parent.pc.parent in s && parent.pc.parent !in {parent, sibling, sibling.left, tmp1}
    modifies root, s
    ensures RotatedLeft(Reattached(old(Snapshot(root, s)), sibling, tmp1), Snapshot(root, s), parent,
                        old(sibling.left), sibling, Black)
  {
    var tmp2 := sibling.left;
    parent.right := tmp2;
    sibling.left := parent;
    tmp1.pc := PC(sibling, Black);
    if tmp2 != null {
      tmp2.pc := PC(parent, tmp2.pc.color);
    }
    RotateSetParents(parent, sibling, root, Black);
  }

  method WriteLastRight(parent: RbNode, sibling: RbNode, tmp1: RbNode, root: RbRoot, ghost s: set<RbNode>)
    requires parent in s && sibling in s && tmp1 in s && parent != sibling && tmp1 !in {parent, sibling}
    requires sibling.right != null ==> sibling.right in s && sibling.right !in {parent, sibling, tmp1}
    requires parent.pc.parent != null ==>
      parent.pc.parent in s && parent.pc.parent !in {parent, sibling, sibling.right, tmp1}
    modifies root, s
    ensures RotatedRight(Reattached(old(Snapshot(root, s)), sibling, tmp1), Snapshot(root, s), sibling,
                         old(sibling.right), parent, Black)
  {
    var tmp2 := sibling.right;
    parent.left := tmp2;
    sibling.right := parent;
    tmp1.pc := PC(sibling, Black);
    if tmp2 != null {
      tmp2.pc := PC(parent, tmp2.pc.color);
    }
    RotateSetParents(parent, sibling, root, Black);
  }

  /** What Case 3 writes with `t` on the left: the near nephew `x` takes the place of the sibling
      `y` below `parent`, and `y` goes down to its right. Both parent pointers stay stale. */
  ghost predicate NephewTurnedLeft(m: Memory, m': Memory, parent: RbNode, x: RbNode, b: RbNode?, y: RbNode) {
    {parent, x, y} <= m.row.Keys && {parent, x, y} <= m'.row.Keys && (b != null ==> b in m.row && b in m'.row)
    && m'.row[parent] == m.row[parent].(right := x)
    && m'.row[x] == m.row[x].(right := y)
    && m'.row[y] == m.row[y].(left := b)
    && (b != null ==> m'.row[b] == m.row[b].(pc := PC(y, Black)))
    && m'.top == m.top && SameBut(m, m', {parent, x, y, b})
  }

  ghost predicate NephewTurnedRight(m: Memory, m': Memory, parent: RbNode, x: RbNode, b: RbNode?, y: RbNode) {
    {parent, x, y} <= m.row.Keys && {parent, x, y} <= m'.row.Keys && (b != null ==> b in m.row && b in m'.row)
    && m'.row[parent] == m.row[parent].(left := y)
    && m'.row[y] == m.row[y].(left := x)
    && m'.row[x] == m.row[x].(right := b)
    && (b != null ==> m'.row[b] == m.row[b].(pc := PC(x, Black)))
    && m'.top == m.top && SameBut(m, m', {parent, x, y, b})
  }

  /** The pieces of the rotation that Case 4 does after Case 3. */
  lemma NephewPiecesLeft(p: Path<RbNode>, t: Tree<RbNode>)
    requires Distinct(t) && Apart(p, Nodes(t)) && p.InLeft? && p.right.Node? && p.right.left.Node?
    ensures Pieces(p.up, t, p.node, p.right.left.left, p.right.left.node,
                   Node(Black, p.right.left.right, p.right.node, p.right.right))
  {
    var q, sib := Across(p, t), p.right;
    var a, x, b, y, c := sib.left.left, sib.left.node, sib.left.right, sib.node, sib.right;
    ApartGraft(p, t);
    ApartGraft(q, sib);
    PiecesLeftLeaning(q, sib.left.color, a, x, b, sib.color, y, c);
    var far := Node(Black, b, y, c);
    PiecesRightLeaning(q, Red, a, x, b, Black, y, c);
    ApartGraft(q, Node(Red, a, x, far));
    PiecesRightLeaning(p.up, p.color, t, p.node, a, Red, x, far);
  }

  lemma NephewPiecesRight(p: Path<RbNode>, t: Tree<RbNode>)
    requires Distinct(t) && Apart(p, Nodes(t)) && p.InRight? && p.left.Node? && p.left.right.Node?
    ensures Pieces(p.up, Node(Black, p.left.left, p.left.node, p.left.right.left), p.left.right.node,
                   p.left.right.right, p.node, t)
  {
    var q, sib := Across(p, t), p.left;
    var a, x, b, y, c := sib.left, sib.node, sib.right.left, sib.right.node, sib.right.right;
    ApartGraft(p, t);
    ApartGraft(q, sib);
    PiecesRightLeaning(q, sib.color, a, x, b, sib.right.color, y, c);
    var far := Node(Black, a, x, b);
    PiecesLeftLeaning(q, Black, a, x, b, Red, y, c);
    ApartGraft(q, Node(Red, far, y, c));
    PiecesLeftLeaning(p.up, Red, far, y, c, p.color, p.node, t);
  }

  /** The rows Case 3 writes lie outside all that it moves, but for their ends. */
  lemma {:induction false} NephewRows(q: Path<RbNode>, a: Tree<RbNode>, x: RbNode, b: Tree<RbNode>, y: RbNode,
                                      c: Tree<RbNode>, d: set<RbNode?>)
    requires !q.Top? && Pieces(q, a, x, b, y, c) && d == {x, y, RootOf(b), q.node}
    ensures forall n <- d :: n !in Nodes(a)
    ensures forall n <- d :: n !in Nodes(c)
    ensures forall n <- d :: n !in Nodes(b) || n == RootOf(b)
    ensures forall n <- d :: n !in Nodes(Sibling(q))
    ensures forall n <- d :: n !in PathNodes(q.up)
    ensures q.node !in {x, y, RootOf(b)} && RootOf(b) !in {x, y}
  {
    RotationRows(q, a, x, b, y, c, d);
    LastNodeApart(q, Nodes(a) + {x} + Nodes(b) + {y} + Nodes(c));
  }

  /** All that Case 3 moves keeps its links. */
  lemma {:induction false} NephewLinks(m: Memory, m1: Memory, q: Path<RbNode>, a: Tree<RbNode>, pa: RbNode,
                    b: Tree<RbNode>, pb: RbNode, pb': RbNode, c: Tree<RbNode>, pc: RbNode, d: set<RbNode?>)
    requires !q.Top? && Distinct(b) && IsBlack(b)
    requires forall n <- d :: n !in Nodes(a) && n !in Nodes(c) && (n !in Nodes(b) || n == RootOf(b))
    requires forall n <- d :: n !in Nodes(Sibling(q)) && n !in PathNodes(q.up)
    requires Linked(m, a, pa) && Linked(m, b, pb) && Linked(m, c, pc)
    requires Linked(m, Sibling(q), q.node) && Hung(m, q.up, q.node)
    requires m1.top == m.top && SameBut(m, m1, d)
    requires b.Node? ==> b.node in m1.row && m1.row[b.node] == m.row[b.node].(pc := PC(pb', Black))
    ensures Linked(m1, a, pa) && Linked(m1, b, pb') && Linked(m1, c, pc)
    ensures Linked(m1, Sibling(q), q.node) && Hung(m1, q.up, q.node)
  {
    LinkedMoved(m, m1, b, pb, pb', Black, d);
    LinkedFrame(m, m1, a, pa, d);
    LinkedFrame(m, m1, c, pc, d);
    LinkedFrame(m, m1, Sibling(q), q.node, d);
    HungFrame(m, m1, q.up, q.node, d);
  }

  /** The pieces that Case 3 moves, seen from the sibling. */
  lemma {:induction false} OpenNephewLeft(m: Memory, p: Path<RbNode>, t: Tree<RbNode>)
    requires At(m, p, t) && p.InLeft? && p.right.Node? && p.right.left.Node?
    ensures Pieces(Across(p, t), p.right.left.left, p.right.left.node, p.right.left.right, p.right.node, p.right.right)
    ensures Linked(m, p.right.left.left, p.right.left.node) && Linked(m, p.right.left.right, p.right.left.node)
    ensures Linked(m, p.right.right, p.right.node) && Linked(m, t, p.node) && Hung(m, p.up, p.node)
    ensures p.right.left.node in m.row && m.row[p.right.left.node].left == RootOf(p.right.left.left)
    ensures p.right.node in m.row && m.row[p.right.node].right == RootOf(p.right.right)
    ensures p.node in m.row && m.row[p.node] == LastRow(p, RootOf(t))
  {
    AtGraft(m, p, t);
    AtGraft(m, Across(p, t), p.right);
    PiecesLeftLeaning(Across(p, t), p.right.left.color, p.right.left.left, p.right.left.node, p.right.left.right,
                      p.right.color, p.right.node, p.right.right);
    assert Linked(m, p.right.left, p.right.node);
  }

  lemma {:induction false} OpenNephewRight(m: Memory, p: Path<RbNode>, t: Tree<RbNode>)
    requires At(m, p, t) && p.InRight? && p.left.Node? && p.left.right.Node?
    ensures Pieces(Across(p, t), p.left.left, p.left.node, p.left.right.left, p.left.right.node, p.left.right.right)
    ensures Linked(m, p.left.right.right, p.left.right.node) && Linked(m, p.left.right.left, p.left.right.node)
    ensures Linked(m, p.left.left, p.left.node) && Linked(m, t, p.node) && Hung(m, p.up, p.node)
    ensures p.left.right.node in m.row && m.row[p.left.right.node].right == RootOf(p.left.right.right)
    ensures p.left.node in m.row && m.row[p.left.node].left == RootOf(p.left.left)
    ensures p.node in m.row && m.row[p.node] == LastRow(p, RootOf(t))
  {
    AtGraft(m, p, t);
    AtGraft(m, Across(p, t), p.left);
    PiecesRightLeaning(Across(p, t), p.left.color, p.left.left, p.left.node, p.left.right.left,
                       p.left.right.color, p.left.right.node, p.left.right.right);
    assert Linked(m, p.left.right, p.left.node);
  }

  /** After Case 3, memory is ready for Case 4. */
  lemma {:induction false} NephewTurnedLeftReady(m: Memory, m': Memory, p: Path<RbNode>, t: Tree<RbNode>)
    requires At(m, p, t) && p.InLeft? && p.right.Node? && p.right.left.Node? && IsBlack(p.right.left.right)
    requires NephewTurnedLeft(m, m', p.node, p.right.left.node, RootOf(p.right.left.right), p.right.node)
    ensures LastReadyLeft(m', p.up, t, p.color, p.node, p.right.left.left, p.right.left.node,
                          Node(Black, p.right.left.right, p.right.node, p.right.right))
  {
    var q, y, x, a, b, c := Across(p, t), p.right.node, p.right.left.node, p.right.left.left, p.right.left.right,
      p.right.right;
    OpenNephewLeft(m, p, t);
    var d := {x, y, RootOf(b), p.node};
    NephewRows(q, a, x, b, y, c, d);
    NephewLinks(m, Reattached(m', x, y), q, a, x, b, x, y, c, y, d);
    NephewPiecesLeft(p, t);
  }

  lemma {:induction false} NephewTurnedRightReady(m: Memory, m': Memory, p: Path<RbNode>, t: Tree<RbNode>)
    requires At(m, p, t) && p.InRight? && p.left.Node? && p.left.right.Node? && IsBlack(p.left.right.left)
    requires NephewTurnedRight(m, m', p.node, p.left.node, RootOf(p.left.right.left), p.left.right.node)
    ensures LastReadyRight(m', p.up, Node(Black, p.left.left, p.left.node, p.left.right.left), p.left.right.node,
                           p.left.right.right, p.color, p.node, t)
  {
    var q, x, y, a, b, c := Across(p, t), p.left.node, p.left.right.node, p.left.left, p.left.right.left,
      p.left.right.right;
    OpenNephewRight(m, p, t);
    var d := {x, y, RootOf(b), p.node};
    NephewRows(q, a, x, b, y, c, d);
    NephewLinks(m, Reattached(m', y, x), q, a, x, b, y, x, c, y, d);
    NephewPiecesRight(p, t);
  }

  method WriteNephewLeft(parent: RbNode, sibling: RbNode, tmp2: RbNode, ghost root: RbRoot, ghost s: set<RbNode>)
    requires {parent, sibling, tmp2} <= s && parent != sibling && tmp2 !in {parent, sibling}
    requires tmp2.right != null ==> tmp2.right in s && tmp2.right !in {parent, sibling, tmp2}
    modifies s
    ensures NephewTurnedLeft(old(Snapshot(root, s)), Snapshot(root, s), parent, tmp2, old(tmp2.right), sibling)
  {
    var tmp1 := tmp2.right;
    sibling.left := tmp1;
    tmp2.right := sibling;
    parent.right := tmp2;
    if tmp1 != null {
      tmp1.pc := PC(sibling, Black);
    }
  }

  method WriteNephewRight(parent: RbNode, sibling: RbNode, tmp2: RbNode, ghost root: RbRoot, ghost s: set<RbNode>)
    requires {parent, sibling, tmp2} <= s && parent != sibling && tmp2 !in {parent, sibling}
    requires tmp2.left != null ==> tmp2.left in s && tmp2.left !in {parent, sibling, tmp2}
    modifies s
    ensures NephewTurnedRight(old(Snapshot(root, s)), Snapshot(root, s), parent, sibling, old(tmp2.left), tmp2)
  {
    var tmp1 := tmp2.left;
    sibling.right := tmp1;
    tmp2.left := sibling;
    parent.left := tmp2;
    if tmp1 != null {
      tmp1.pc := PC(sibling, Black);
    }
  }

  /** The subtree at the parent's place after Cases 3 and 4. */
  function Restored(p: Path<RbNode>, t: Tree<RbNode>): Tree<RbNode>
    requires !p.Top? && Sibling(p).Node? && !(IsBlack(Sibling(p).left) && IsBlack(Sibling(p).right))
  {
    var sib := Sibling(p);
    if p.InLeft? then
      if IsBlack(sib.right) then
        Node(p.color, Node(Black, t, p.node, sib.left.left), sib.left.node,
             Node(Black, sib.left.right, sib.node, sib.right))
      else Node(p.color, Node(Black, t, p.node, sib.left), sib.node, sib.right.(color := Black))
    else
      if IsBlack(sib.left) then
        Node(p.color, Node(Black, sib.left, sib.node, sib.right.left), sib.right.node,
             Node(Black, sib.right.right, p.node, t))
      else Node(p.color, sib.left.(color := Black), sib.node, Node(Black, sib.right, p.node, t))
  }

  lemma {:induction false} RestoredFits(p: Path<RbNode>, t: Tree<RbNode>, h: nat)
    requires !p.Top? && IsBlack(t) && Balanced(t, h) && Fits(p, h + 1) && Sibling(p).Node? && Sibling(p).color.Black?
    requires !(IsBlack(Sibling(p).left) && IsBlack(Sibling(p).right))
    ensures RedBlack(Plug(p.up, Restored(p, t)))
  {
    var sib := Sibling(p);
    assert Balanced(sib.left, h) && Balanced(sib.right, h);
    var h' := if p.color.Black? then h + 2 else h + 1;
    var t' := Restored(p, t);
    assert Balanced(t'.left, h + 1) && Balanced(t'.right, h + 1);
    PlugRedBlack(p.up, t', h');
  }

  lemma {:induction false} RestoredInorder(p: Path<RbNode>, t: Tree<RbNode>)
    requires !p.Top? && Sibling(p).Node? && !(IsBlack(Sibling(p).left) && IsBlack(Sibling(p).right))
    ensures Inorder(Plug(p.up, Restored(p, t))) == Inorder(Plug(p, t))
  {
    var sib, c := Sibling(p), p.color;
    if p.InLeft? {
      RotationInorder(c, Black, c, Black, t, p.node, sib.left, sib.node, sib.right);
      if IsBlack(sib.right) {
        RotationInorder(Black, Black, Black, Red, sib.left.left, sib.left.node, sib.left.right, sib.node, sib.right);
        RotationInorder(c, Black, c, Black, t, p.node, sib.left.left, sib.left.node,
                        Node(Black, sib.left.right, sib.node, sib.right));
      }
    } else {
      RotationInorder(c, Black, c, Black, sib.left, sib.node, sib.right, p.node, t);
      if IsBlack(sib.left) {
        RotationInorder(Black, Red, Black, Black, sib.left, sib.node, sib.right.left, sib.right.node, sib.right.right);
        RotationInorder(c, Black, c, Black, Node(Black, sib.left, sib.node, sib.right.left), sib.right.node,
                        sib.right.right, p.node, t);
      }
    }
    PlugSameInorder(p.up, Graft(p, t), Restored(p, t));
  }

  /** Case 4: left rotation at the parent, which turns black; the far nephew turns black too. */
  method LastLeft(parent: RbNode, sibling: RbNode, tmp1: RbNode, root: RbRoot, ghost s: set<RbNode>,
                  ghost up: Path<RbNode>,
                  ghost a: Tree<RbNode>, ghost cx: Color, ghost b: Tree<RbNode>, ghost c: Tree<RbNode>)
    requires LastReadyLeft(Snapshot(root, s), up, a, cx, parent, b, sibling, c) && c.node == tmp1
    modifies root, s
    ensures At(Snapshot(root, s), up, Node(cx, Node(Black, a, parent, b), sibling, c))
  {
    ghost var m1 := Reattached(Snapshot(root, s), sibling, tmp1);
    LastApartLeft(m1, up, a, cx, parent, b, sibling, c);
    WriteLastLeft(parent, sibling, tmp1, root, s);
    RotatedLeftAt(m1, Snapshot(root, s), up, a, cx, parent, b, sibling, c, Black);
  }

  lemma {:induction false} LastApartLeft(m: Memory, up: Path<RbNode>, a: Tree<RbNode>, cx: Color, x: RbNode,
                                         b: Tree<RbNode>, y: RbNode, c: Tree<RbNode>)
    requires LeftReady(m, up, a, cx, x, b, y, c) && c.Node?
    ensures c.node !in {x, y, RootOf(b)} && RootOf(b) !in {x, y}
    ensures ParentOf(up) != null ==> ParentOf(up) in m.row && ParentOf(up) !in {x, y, RootOf(b), c.node}
    ensures b.Node? ==> b.node in m.row
  {
    RotationRows(up, a, x, b, y, c, {x, y, RootOf(b), ParentOf(up)});
    assert c.node in Nodes(c);
  }

  lemma {:induction false} LastApartRight(m: Memory, up: Path<RbNode>, a: Tree<RbNode>, x: RbNode, b: Tree<RbNode>,
                                          cy: Color, y: RbNode, c: Tree<RbNode>)
    requires RightReady(m, up, a, x, b, cy, y, c) && a.Node?
    ensures a.node !in {x, y, RootOf(b)} && RootOf(b) !in {x, y}
    ensures ParentOf(up) != null ==> ParentOf(up) in m.row && ParentOf(up) !in {x, y, RootOf(b), a.node}
    ensures b.Node? ==> b.node in m.row
  {
    RotationRows(up, a, x, b, y, c, {x, y, RootOf(b), ParentOf(up)});
    assert a.node in Nodes(a);
  }

  method LastRight(parent: RbNode, sibling: RbNode, tmp1: RbNode, root: RbRoot, ghost s: set<RbNode>,
                   ghost up: Path<RbNode>,
                   ghost a: Tree<RbNode>, ghost b: Tree<RbNode>, ghost cy: Color, ghost c: Tree<RbNode>)
    requires LastReadyRight(Snapshot(root, s), up, a, sibling, b, cy, parent, c) && a.node == tmp1
    modifies root, s
    ensures At(Snapshot(root, s), up, Node(cy, a, sibling, Node(Black, b, parent, c)))
  {
    ghost var m1 := Reattached(Snapshot(root, s), sibling, tmp1);
    LastApartRight(m1, up, a, sibling, b, cy, parent, c);
    WriteLastRight(parent, sibling, tmp1, root, s);
    RotatedRightAt(m1, Snapshot(root, s), up, a, sibling, b, cy, parent, c, Black);
  }

  /** The nodes Case 3 writes are four different ones. */
  lemma {:induction false} NephewApartLeft(m: Memory, p: Path<RbNode>, t: Tree<RbNode>)
    requires At(m, p, t) && p.InLeft? && p.right.Node? && p.right.left.Node?
    ensures {p.node, p.right.node, p.right.left.node} <= m.row.Keys
    ensures p.node != p.right.node && p.right.left.node !in {p.node, p.right.node}
    ensures var b := p.right.left.right;
      b.Node? ==> b.node in m.row && b.node !in {p.node, p.right.node, p.right.left.node}
    ensures m.row[p.right.left.node].right == RootOf(p.right.left.right)
  {
    var q, sib := Across(p, t), p.right;
    OpenNephewLeft(m, p, t);
    NephewRows(q, sib.left.left, sib.left.node, sib.left.right, sib.node, sib.right,
               {sib.left.node, sib.node, RootOf(sib.left.right), p.node});
    assert Linked(m, sib, p.node) && Linked(m, sib.left, sib.node);
  }

  lemma {:induction false} NephewApartRight(m: Memory, p: Path<RbNode>, t: Tree<RbNode>)
    requires At(m, p, t) && p.InRight? && p.left.Node? && p.left.right.Node?
    ensures {p.node, p.left.node, p.left.right.node} <= m.row.Keys
    ensures p.node != p.left.node && p.left.right.node !in {p.node, p.left.node}
    ensures var b := p.left.right.left;
      b.Node? ==> b.node in m.row && b.node !in {p.node, p.left.node, p.left.right.node}
    ensures m.row[p.left.right.node].left == RootOf(p.left.right.left)
  {
    var q, sib := Across(p, t), p.left;
    OpenNephewRight(m, p, t);
    NephewRows(q, sib.left, sib.node, sib.right.left, sib.right.node, sib.right.right,
               {sib.node, sib.right.node, RootOf(sib.right.left), p.node});
    assert Linked(m, sib, p.node) && Linked(m, sib.right, sib.node);
  }

  /** Cases 3 and 4 with `t` on the left: some nephew is red. */
  method RestoreLeft(parent: RbNode, sibling0: RbNode, root: RbRoot, ghost s: set<RbNode>,
                     ghost p: Path<RbNode>, ghost t: Tree<RbNode>, ghost h: nat)
    requires OneShort(Snapshot(root, s), p, t, h) && p.InLeft? && p.node == parent
    requires p.right.Node? && p.right.node == sibling0 && p.right.color.Black?
    requires !(IsBlack(p.right.left) && IsBlack(p.right.right))
    modifies root, s
    ensures At(Snapshot(root, s), p.up, Restored(p, t))
  {
    ghost var m, sib := Snapshot(root, s), p.right;
    BlackSibling(m, p, t, h);
    var sibling := sibling0;
    var tmp1 := sibling.right;
    if tmp1 == null || tmp1.pc.color.Black? {
      var tmp2 := sibling.left;
      NephewApartLeft(m, p, t);
      WriteNephewLeft(parent, sibling, tmp2, root, s);
      NephewTurnedLeftReady(m, Snapshot(root, s), p, t);
      tmp1 := sibling;
      sibling := tmp2;
      LastLeft(parent, sibling, tmp1, root, s, p.up, t, p.color, sib.left.left,
               Node(Black, sib.left.right, sib.node, sib.right));
    } else {
      OpenLastLeft(m, p, t);
      LastLeft(parent, sibling, tmp1, root, s, p.up, t, p.color, sib.left, sib.right.(color := Black));
    }
  }

  /** Cases 3 and 4 with `t` on the right. */
  method RestoreRight(parent: RbNode, sibling0: RbNode, root: RbRoot, ghost s: set<RbNode>,
                      ghost p: Path<RbNode>, ghost t: Tree<RbNode>, ghost h: nat)
    requires OneShort(Snapshot(root, s), p, t, h) && p.InRight? && p.node == parent
    requires p.left.Node? && p.left.node == sibling0 && p.left.color.Black?
    requires !(IsBlack(p.left.left) && IsBlack(p.left.right))
    modifies root, s
    ensures At(Snapshot(root, s), p.up, Restored(p, t))
  {
    ghost var m, sib := Snapshot(root, s), p.left;
    BlackSibling(m, p, t, h);
    var sibling := sibling0;
    var tmp1 := sibling.left;
    if tmp1 == null || tmp1.pc.color.Black? {
      var tmp2 := sibling.right;
      NephewApartRight(m, p, t);
      WriteNephewRight(parent, sibling, tmp2, root, s);
      NephewTurnedRightReady(m, Snapshot(root, s), p, t);
      tmp1 := sibling;
      sibling := tmp2;
      LastRight(parent, sibling, tmp1, root, s, p.up, Node(Black, sib.left, sib.node, sib.right.left), sib.right.right,
                p.color, t);
    } else {
      OpenLastRight(m, p, t);
      LastRight(parent, sibling, tmp1, root, s, p.up, sib.left.(color := Black), sib.right, p.color, t);
    }
  }

  // ---------------------------------------------------------------- the loop

  /** Cases 2, 3 and 4 under a black sibling on the right. Only a black parent whose subtree is
      now one short as a whole asks for another round, one level up. */
  method RepairLeft(parent: RbNode, sibling: RbNode, root: RbRoot, ghost s: set<RbNode>,
                    ghost p: Path<RbNode>, ghost t: Tree<RbNode>, ghost h: nat)
    returns (above: RbNode?, ghost q: Path<RbNode>, ghost u: Tree<RbNode>)
    requires OneShort(Snapshot(root, s), p, t, h) && p.InLeft? && p.node == parent
    requires RootOf(p.right) == sibling && IsBlack(p.right)
    modifies root, s
    ensures Inorder(Plug(q, u)) == Inorder(Plug(p, t))
    ensures above == null ==> Settled(Snapshot(root, s), q, u)
    ensures above != null ==>
      p.color.Black? && q == p.up && RootOf(u) == parent && above == ParentOf(q)
      && OneShort(Snapshot(root, s), q, u, h + 1)
  {
    BlackSibling(Snapshot(root, s), p, t, h);
    above := null;
    var tmp1 := sibling.right;
    if tmp1 == null || tmp1.pc.color.Black? {
      var tmp2 := sibling.left;
      if tmp2 == null || tmp2.pc.color.Black? {
        above := FlipSibling(parent, sibling, root, s, p, t, h);
        if p.color.Red? {
          q, u := Paint(p, Black, Red), t;
        } else {
          q, u := p.up, Graft(Paint(p, Black, Red), t);
        }
        return;
      }
    }
    RestoreLeft(parent, sibling, root, s, p, t, h);
    RestoredFits(p, t, h);
    RestoredInorder(p, t);
    q, u := p.up, Restored(p, t);
  }

  method RepairRight(parent: RbNode, sibling: RbNode, root: RbRoot, ghost s: set<RbNode>,
                     ghost p: Path<RbNode>, ghost t: Tree<RbNode>, ghost h: nat)
    returns (above: RbNode?, ghost q: Path<RbNode>, ghost u: Tree<RbNode>)
    requires OneShort(Snapshot(root, s), p, t, h) && p.InRight? && p.node == parent
    requires RootOf(p.left) == sibling && IsBlack(p.left)
    modifies root, s
    ensures Inorder(Plug(q, u)) == Inorder(Plug(p, t))
    ensures above == null ==> Settled(Snapshot(root, s), q, u)
    ensures above != null ==>
      p.color.Black? && q == p.up && RootOf(u) == parent && above == ParentOf(q)
      && OneShort(Snapshot(root, s), q, u, h + 1)
  {
    BlackSibling(Snapshot(root, s), p, t, h);
    above := null;
    var tmp1 := sibling.left;
    if tmp1 == null || tmp1.pc.color.Black? {
      var tmp2 := sibling.right;
      if tmp2 == null || tmp2.pc.color.Black? {
        above := FlipSibling(parent, sibling, root, s, p, t, h);
        if p.color.Red? {
          q, u := Paint(p, Black, Red), t;
        } else {
          q, u := p.up, Graft(Paint(p, Black, Red), t);
        }
        return;
      }
    }
    RestoreRight(parent, sibling, root, s, p, t, h);
    RestoredFits(p, t, h);
    RestoredInorder(p, t);
    q, u := p.up, Restored(p, t);
  }

  /** Rebalances the tree from `parent0`, below which an empty subtree is one black node short. */
  method EraseColor(parent0: RbNode, root: RbRoot, ghost s: set<RbNode>, ghost p0: Path<RbNode>)
    returns (ghost whole: Tree<RbNode>)
    requires OneShort(Snapshot(root, s), p0, Leaf, 0) && parent0 == p0.node
    modifies root, s
    ensures At(Snapshot(root, s), Top, whole) && RedBlack(whole)
    ensures Inorder(whole) == Inorder(Plug(p0, Leaf))
  {
    var node: RbNode?, parent := null, parent0;
    ghost var p, t, h := p0, Tree<RbNode>.Leaf, 0;
    while true
      invariant OneShort(Snapshot(root, s), p, t, h) && parent == p.node && node == RootOf(t)
      invariant Inorder(Plug(p, t)) == Inorder(Plug(p0, Leaf))
      decreases p
    {
      SiblingExists(Snapshot(root, s), p, t, h);
      var above: RbNode?;
      ghost var p', t';
      var sibling := parent.right;
      if node != sibling {
        p' := p;
        if sibling.pc.color.Red? {
          sibling := LowerLeft(parent, sibling, root, s, p, t, h);
          p' := Lowered(p);
        }
        above, p', t' := RepairLeft(parent, sibling, root, s, p', t, h);
      } else {
        sibling := parent.left;
        p' := p;
        if sibling.pc.color.Red? {
          sibling := LowerRight(parent, sibling, root, s, p, t, h);
          p' := Lowered(p);
        }
        above, p', t' := RepairRight(parent, sibling, root, s, p', t, h);
      }
      if above == null {
        AtPlug(Snapshot(root, s), p', t');
        return Plug(p', t');
      }
      p, t, h := p', t', h + 1;
      node, parent := parent, above;
    }
  }
}

/** Red-black nodes in memory, snapshots of that memory, and what it means for a snapshot to
    carry a tree. */
module RbMemory {
  import opened RbShape

  /** The parent pointer and the colour, packed into one word. */
  datatype ParentColor = PC(parent: RbNode?, color: Color)

  class RbNode {
    var pc: ParentColor
    var left: RbNode?
    var right: RbNode?

    constructor ()
    {
      pc, left, right := PC(null, Red), null, null;
    }
  }

  class RbRoot {
    var node: RbNode?

    constructor ()
      ensures node == null
    {
      node := null;
    }
  }

  datatype Row = Row(pc: ParentColor, left: RbNode?, right: RbNode?)

  datatype Memory = Memory(top: RbNode?, row: map<RbNode, Row>)

  ghost function Snapshot(root: RbRoot, s: set<RbNode>): Memory
    reads root, s
  {
    Memory(root.node, map n | n in s :: Row(n.pc, n.left, n.right))
  }

  function RootOf(t: Tree<RbNode>): RbNode? {
    if t.Leaf? then null else t.node
  }

  function ParentOf(p: Path<RbNode>): RbNode? {
    if p.Top? then null else p.node
  }

  /** The nodes of `t` are linked to each other as `t` says, below `parent`. */
  ghost predicate Linked(m: Memory, t: Tree<RbNode>, parent: RbNode?) {
    match t
    case Leaf => true
    case Node(c, l, n, r) =>
      n in m.row && m.row[n] == Row(PC(parent, c), RootOf(l), RootOf(r)) && Linked(m, l, n) && Linked(m, r, n)
  }

  /** The row of the last node of `p` when `x` hangs at the end. */
  function LastRow(p: Path<RbNode>, x: RbNode?): Row
    requires !p.Top?
  {
    if p.InLeft? then Row(PC(ParentOf(p.up), p.color), x, RootOf(p.right))
    else Row(PC(ParentOf(p.up), p.color), RootOf(p.left), x)
  }

  /** The nodes of `p` are linked as `p` says, with `x` hanging at its end. */
  ghost predicate Hung(m: Memory, p: Path<RbNode>, x: RbNode?) {
    if p.Top? then m.top == x else
      p.node in m.row && m.row[p.node] == LastRow(p, x)
      && Linked(m, Sibling(p), p.node) && Hung(m, p.up, p.node)
  }

  /** The memory carries the tree Plug(p, t), every node once. */
  ghost predicate At(m: Memory, p: Path<RbNode>, t: Tree<RbNode>) {
    Distinct(t) && Apart(p, Nodes(t)) && Hung(m, p, RootOf(t)) && Linked(m, t, ParentOf(p))
  }

  /** Every rule holds, in memory, of the whole tree. */
  ghost predicate Settled(m: Memory, p: Path<RbNode>, t: Tree<RbNode>) {
    At(m, p, t) && RedBlack(Plug(p, t))
  }

  /** Moving the cut up one frame does not change what memory carries. */
  lemma AtGraft(m: Memory, p: Path<RbNode>, t: Tree<RbNode>)
    requires !p.Top?
    ensures At(m, p, t) <==> At(m, p.up, Graft(p, t))
  {
    ApartGraft(p, t);
  }

  /** Which child a subtree is can be read off its parent's links. */
  lemma Sides(m: Memory, p: Path<RbNode>, t: Tree<RbNode>)
    requires At(m, p, t) && !p.Top? && t.Node?
    ensures p.node in m.row && t.node in m.row
    ensures p.InLeft? <==> m.row[p.node].left == t.node
    ensures p.InRight? <==> m.row[p.node].right == t.node
  {
    assert t.node in Nodes(t);
    assert Sibling(p).Node? ==> Sibling(p).node in Nodes(Sibling(p));
  }

  /** Nor does moving it anywhere else. */
  lemma {:induction false} AtPlug(m: Memory, p: Path<RbNode>, t: Tree<RbNode>)
    ensures At(m, p, t) <==> At(m, Top, Plug(p, t))
    decreases p
  {
    if !p.Top? {
      AtGraft(m, p, t);
      AtPlug(m, p.up, Graft(p, t));
    }
  }

  // ---------------------------------------------------------------- framing

  /** `m'` differs from `m` at most in the rows of `d`. */
  ghost predicate SameBut(m: Memory, m': Memory, d: set<RbNode?>) {
    forall n <- m.row :: n !in d ==> n in m'.row && m'.row[n] == m.row[n]
  }

  lemma LinkedFrame(m: Memory, m': Memory, t: Tree<RbNode>, parent: RbNode?, d: set<RbNode?>)
    requires Linked(m, t, parent) && SameBut(m, m', d) && forall n <- d :: n !in Nodes(t)
    ensures Linked(m', t, parent)
  {
    if t.Node? {
      LinkedFrame(m, m', t.left, t.node, d);
      LinkedFrame(m, m', t.right, t.node, d);
    }
  }

  lemma HungFrame(m: Memory, m': Memory, p: Path<RbNode>, x: RbNode?, d: set<RbNode?>)
    requires Hung(m, p, x) && SameBut(m, m', d) && m'.top == m.top && forall n <- d :: n !in PathNodes(p)
    ensures Hung(m', p, x)
  {
    if !p.Top? {
      LinkedFrame(m, m', Sibling(p), p.node, d);
      HungFrame(m, m', p.up, p.node, d);
    }
  }

  /** `t` stays linked when its root's parent and colour are overwritten. */
  lemma LinkedMoved(m: Memory, m': Memory, t: Tree<RbNode>, parent: RbNode?, parent': RbNode?, c: Color,
                    d: set<RbNode?>)
    requires Linked(m, t, parent) && Distinct(t)
    requires SameBut(m, m', d) && forall n <- d :: n !in Nodes(t) || n == RootOf(t)
    requires t.Node? ==> t.node in m'.row && m'.row[t.node] == m.row[t.node].(pc := PC(parent', c))
    ensures Linked(m', if t.Leaf? then t else t.(color := c), parent')
  {
    if t.Node? {
      LinkedFrame(m, m', t.left, t.node, d);
      LinkedFrame(m, m', t.right, t.node, d);
    }
  }

  /** `parent`, or the root when there is none, points to `x'` instead of `x`. */
  ghost predicate ChildChanged(m: Memory, m': Memory, parent: RbNode?, x: RbNode, x': RbNode?) {
    if parent == null then m'.top == x'
    else
      m'.top == m.top && parent in m.row && parent in m'.row
      && m'.row[parent] == if m.row[parent].left == x then m.row[parent].(left := x') else m.row[parent].(right := x')
  }

  lemma HungChanged(m: Memory, m': Memory, p: Path<RbNode>, x: RbNode, x': RbNode?, s: set<RbNode>, d: set<RbNode?>)
    requires Hung(m, p, x) && Apart(p, s) && x in s
    requires ChildChanged(m, m', ParentOf(p), x, x')
    requires SameBut(m, m', d) && forall n <- d :: n !in PathNodes(p) || n == ParentOf(p)
    ensures Hung(m', p, x')
  {
    if !p.Top? {
      ApartFrame(p, s);
      LinkedFrame(m, m', Sibling(p), p.node, d);
      HungFrame(m, m', p.up, p.node, d);
    }
  }

  /** `m'` is `m` with one row replaced. */
  ghost predicate Wrote(m: Memory, m': Memory, n: RbNode, r: Row) {
    m'.top == m.top && SameBut(m, m', {n}) && n in m'.row && m'.row[n] == r
  }

  /** Colouring the root of a subtree where it stands. */
  lemma AtRecolored(m: Memory, m': Memory, p: Path<RbNode>, t: Tree<RbNode>, c: Color)
    requires At(m, p, t) && t.Node? && Wrote(m, m', t.node, m.row[t.node].(pc := PC(ParentOf(p), c)))
    ensures At(m', p, t.(color := c))
  {
    ApartDisjoint(p, Nodes(t));
    LinkedMoved(m, m', t, ParentOf(p), ParentOf(p), c, {t.node});
    HungFrame(m, m', p, t.node, {t.node});
  }

  // ---------------------------------------------------------------- writes

  /** Writes the packed word. */
  method SetParentColor(rb: RbNode, parent: RbNode?, color: Color)
    modifies rb`pc
    ensures rb.pc == PC(parent, color)
  {
    rb.pc := PC(parent, color);
  }

  /** Writing the packed word of a node that keeps its parent repaints the tree there, and nothing else. */
  method Repaint(rb: RbNode, parent: RbNode?, color: Color, ghost root: RbRoot, ghost s: set<RbNode>,
                 ghost p: Path<RbNode>, ghost t: Tree<RbNode>)
    requires rb in s && t.Node? && rb == t.node && parent == ParentOf(p) && At(Snapshot(root, s), p, t)
    modifies rb
    ensures At(Snapshot(root, s), p, t.(color := color))
    ensures rb.pc.parent == old(rb.pc.parent)
  {
    ghost var m := Snapshot(root, s);
    SetParentColor(rb, parent, color);
    AtRecolored(m, Snapshot(root, s), p, t, color);
  }

  /** Adds the black bit to the packed word, which is right only for a red node. */
  method SetBlack(rb: RbNode, ghost root: RbRoot, ghost s: set<RbNode>, ghost p: Path<RbNode>, ghost t: Tree<RbNode>)
    requires rb in s && t.Node? && rb == t.node && t.color.Red? && At(Snapshot(root, s), p, t)
    modifies rb
    ensures At(Snapshot(root, s), p, t.(color := Black))
  {
    ghost var m := Snapshot(root, s);
    rb.pc := rb.pc.(color := Black);
    AtRecolored(m, Snapshot(root, s), p, t, Black);
  }

  /** Makes `parent`, or the root when there is none, point to `new_` instead of `old_`. */
  method ChangeChild(old_: RbNode, new_: RbNode?, parent: RbNode?, root: RbRoot)
    modifies if parent == null then {root} else {parent}
    ensures parent == null ==> root.node == new_
    ensures parent != null ==>
      && parent.pc == old(parent.pc)
      && parent.left == (if old(parent.left) == old_ then new_ else old(parent.left))
      && parent.right == (if old(parent.left) == old_ then old(parent.right) else new_)
  {
    if parent != null {
      if parent.left == old_ {
        parent.left := new_;
      } else {
        parent.right := new_;
      }
    } else {
      root.node := new_;
    }
  }

  /** `old_` gives its place and colour to `new_` and becomes its child, coloured `color`. */
  method RotateSetParents(old_: RbNode, new_: RbNode, root: RbRoot, color: Color)
    requires old_ != new_ && old_.pc.parent !in {old_, new_}
    modifies old_`pc, new_`pc, if old_.pc.parent == null then {root} else {old_.pc.parent}
    ensures new_.pc == old(old_.pc) && old_.pc == PC(new_, color)
    ensures new_.pc.parent == null ==> root.node == new_
    ensures var parent := new_.pc.parent;
      parent != null ==>
      && parent.pc == old(parent.pc)
      && parent.left == (if old(parent.left) == old_ then new_ else old(parent.left))
      && parent.right == (if old(parent.left) == old_ then old(parent.right) else new_)
  {
    var parent := old_.pc.parent;
    new_.pc := old_.pc;
    old_.pc := PC(new_, color);
    ChangeChild(old_, new_, parent, root);
  }

  // ---------------------------------------------------------------- rotations

  /** What a right rotation at `y` writes: its left child `x` takes its place and colour, `y`
      goes down to the right with colour `c`, and `b` changes sides. */
  ghost predicate RotatedRight(m: Memory, m': Memory, x: RbNode, b: RbNode?, y: RbNode, c: Color) {
    {x, y} <= m.row.Keys && {x, y} <= m'.row.Keys && (b != null ==> b in m.row && b in m'.row) &&
    var parent := m.row[y].pc.parent;
    && ChildChanged(m, m', parent, y, x)
    && m'.row[x] == Row(m.row[y].pc, m.row[x].left, y)
    && m'.row[y] == Row(PC(x, c), b, m.row[y].right)
    && (b != null ==> m'.row[b] == m.row[b].(pc := PC(y, m.row[b].pc.color)))
    && SameBut(m, m', {x, y, b, parent})
  }

  /** Its mirror image: `y`, the right child of `x`, takes the place of `x`. */
  ghost predicate RotatedLeft(m: Memory, m': Memory, x: RbNode, b: RbNode?, y: RbNode, c: Color) {
    {x, y} <= m.row.Keys && {x, y} <= m'.row.Keys && (b != null ==> b in m.row && b in m'.row) &&
    var parent := m.row[x].pc.parent;
    && ChildChanged(m, m', parent, x, y)
    && m'.row[y] == Row(m.row[x].pc, x, m.row[y].right)
    && m'.row[x] == Row(PC(y, c), m.row[x].left, b)
    && (b != null ==> m'.row[b] == m.row[b].(pc := PC(x, m.row[b].pc.color)))
    && SameBut(m, m', {x, y, b, parent})
  }

  /** All that a right rotation at `y` relies on. The colour and parent of `x` are not part of it. */
  ghost predicate RightReady(m: Memory, up: Path<RbNode>, a: Tree<RbNode>, x: RbNode, b: Tree<RbNode>,
                             cy: Color, y: RbNode, c: Tree<RbNode>) {
    Pieces(up, a, x, b, y, c) && x in m.row && y in m.row
    && Hung(m, up, y) && m.row[y].pc == PC(ParentOf(up), cy) && m.row[y].right == RootOf(c)
    && m.row[x].left == RootOf(a) && Linked(m, a, x) && Linked(m, b, x) && Linked(m, c, y)
  }

  ghost predicate LeftReady(m: Memory, up: Path<RbNode>, a: Tree<RbNode>, cx: Color, x: RbNode, b: Tree<RbNode>,
                            y: RbNode, c: Tree<RbNode>) {
    Pieces(up, a, x, b, y, c) && x in m.row && y in m.row
    && Hung(m, up, x) && m.row[x].pc == PC(ParentOf(up), cx) && m.row[x].left == RootOf(a)
    && m.row[y].right == RootOf(c) && Linked(m, a, x) && Linked(m, b, y) && Linked(m, c, y)
  }

  /** The rows a rotation writes lie outside the subtrees and the path, but for their ends. */
  lemma {:induction false} RotationRows(up: Path<RbNode>, a: Tree<RbNode>, x: RbNode, b: Tree<RbNode>, y: RbNode,
                                        c: Tree<RbNode>, d: set<RbNode?>)
    requires Pieces(up, a, x, b, y, c) && d == {x, y, RootOf(b), ParentOf(up)}
    ensures forall n <- d :: n !in Nodes(a)
    ensures forall n <- d :: n !in Nodes(c)
    ensures forall n <- d :: n !in Nodes(b) || n == RootOf(b)
    ensures forall n <- d :: n !in PathNodes(up) || n == ParentOf(up)
    ensures ParentOf(up) != null ==> ParentOf(up) !in {x, y, RootOf(b)}
    ensures RootOf(b) !in {x, y}
  {
    PiecesOffPath(up, a, x, b, y, c);
    assert b.Node? ==> RootOf(b) in Nodes(b);
    assert !up.Top? ==> ParentOf(up) in PathNodes(up);
  }

  /** A right rotation in memory is a right rotation of the tree it carries. */
  lemma {:induction false} RotatedRightAt(m: Memory, m': Memory, up: Path<RbNode>, a: Tree<RbNode>, x: RbNode,
                       b: Tree<RbNode>, cy: Color, y: RbNode, c: Tree<RbNode>, color: Color)
    requires RightReady(m, up, a, x, b, cy, y, c) && RotatedRight(m, m', x, RootOf(b), y, color)
    ensures At(m', up, Node(cy, a, x, Node(color, b, y, c)))
  {
    var d := {x, y, RootOf(b), ParentOf(up)};
    RotationRows(up, a, x, b, y, c, d);
    LinkedMoved(m, m', b, x, y, if b.Leaf? then Black else b.color, d);
    LinkedFrame(m, m', a, x, d);
    LinkedFrame(m, m', c, y, d);
    HungChanged(m, m', up, y, x, Nodes(a) + {x} + Nodes(b) + {y} + Nodes(c), d);
    PiecesRightLeaning(up, cy, a, x, b, color, y, c);
  }

  lemma {:induction false} RotatedLeftAt(m: Memory, m': Memory, up: Path<RbNode>, a: Tree<RbNode>, cx: Color, x: RbNode,
                      b: Tree<RbNode>, y: RbNode, c: Tree<RbNode>, color: Color)
    requires LeftReady(m, up, a, cx, x, b, y, c) && RotatedLeft(m, m', x, RootOf(b), y, color)
    ensures At(m', up, Node(cx, Node(color, a, x, b), y, c))
  {
    var d := {x, y, RootOf(b), ParentOf(up)};
    RotationRows(up, a, x, b, y, c, d);
    LinkedMoved(m, m', b, y, x, if b.Leaf? then Black else b.color, d);
    LinkedFrame(m, m', a, x, d);
    LinkedFrame(m, m', c, y, d);
    HungChanged(m, m', up, x, y, Nodes(a) + {x} + Nodes(b) + {y} + Nodes(c), d);
    PiecesLeftLeaning(up, color, a, x, b, cx, y, c);
  }

  method WriteRightRotation(y: RbNode, x: RbNode, b: RbNode?, root: RbRoot, color: Color, ghost s: set<RbNode>)
    requires x in s && y in s && x != y && x != b && y != b && (b != null ==> b in s)
    requires y.pc.parent != null ==> y.pc.parent in s && y.pc.parent !in {x, y, b}
    requires b != null ==> b.pc.color.Black?
    modifies root, s
    ensures RotatedRight(old(Snapshot(root, s)), Snapshot(root, s), x, b, y, color)
  {
    y.left := b;
    x.right := y;
    if b != null {
      b.pc := PC(y, Black);
    }
    RotateSetParents(y, x, root, color);
  }

  method WriteLeftRotation(x: RbNode, y: RbNode, b: RbNode?, root: RbRoot, color: Color, ghost s: set<RbNode>)
    requires x in s && y in s && x != y && x != b && y != b && (b != null ==> b in s)
    requires x.pc.parent != null ==> x.pc.parent in s && x.pc.parent !in {x, y, b}
    requires b != null ==> b.pc.color.Black?
    modifies root, s
    ensures RotatedLeft(old(Snapshot(root, s)), Snapshot(root, s), x, b, y, color)
  {
    x.right := b;
    y.left := x;
    if b != null {
      b.pc := PC(x, Black);
    }
    RotateSetParents(x, y, root, color);
  }

  /** Rotates right at `y` and gives it colour `color`; a black `b`, if there is one, changes sides. */
  method RotateRight(y: RbNode, x: RbNode, b: RbNode?, root: RbRoot, color: Color, ghost s: set<RbNode>,
                     ghost up: Path<RbNode>, ghost ta: Tree<RbNode>, ghost tb: Tree<RbNode>, ghost cy: Color,
                     ghost tc: Tree<RbNode>)
    requires RightReady(Snapshot(root, s), up, ta, x, tb, cy, y, tc) && IsBlack(tb) && b == RootOf(tb)
    modifies root, s
    ensures At(Snapshot(root, s), up, Node(cy, ta, x, Node(color, tb, y, tc)))
  {
    ghost var m := Snapshot(root, s);
    RotationRows(up, ta, x, tb, y, tc, {x, y, RootOf(tb), ParentOf(up)});
    WriteRightRotation(y, x, b, root, color, s);
    RotatedRightAt(m, Snapshot(root, s), up, ta, x, tb, cy, y, tc, color);
  }

  method RotateLeft(x: RbNode, y: RbNode, b: RbNode?, root: RbRoot, color: Color, ghost s: set<RbNode>,
                    ghost up: Path<RbNode>, ghost ta: Tree<RbNode>, ghost cx: Color, ghost tb: Tree<RbNode>,
                    ghost tc: Tree<RbNode>)
    requires LeftReady(Snapshot(root, s), up, ta, cx, x, tb, y, tc) && IsBlack(tb) && b == RootOf(tb)
    modifies root, s
    ensures At(Snapshot(root, s), up, Node(cx, Node(color, ta, x, tb), y, tc))
  {
    ghost var m := Snapshot(root, s);
    RotationRows(up, ta, x, tb, y, tc, {x, y, RootOf(tb), ParentOf(up)});
    WriteLeftRotation(x, y, b, root, color, s);
    RotatedLeftAt(m, Snapshot(root, s), up, ta, cx, x, tb, y, tc, color);
  }
}

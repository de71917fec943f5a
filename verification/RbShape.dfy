/** The shapes of red-black trees as values: trees, the paths that lead into them, the
    red-black rules, and how a rule on the whole tree splits into a rule on the path and
    a rule on the subtree at its end. Nothing here reads memory. */
module RbShape {
  datatype Color = Red | Black

  datatype Tree<N> = Leaf | Node(color: Color, left: Tree<N>, node: N, right: Tree<N>)

  /** Where a subtree hangs: the frame at the end of the path is the subtree's parent. */
  datatype Path<N> =
    | Top
    | InLeft(up: Path<N>, color: Color, node: N, right: Tree<N>)
    | InRight(up: Path<N>, color: Color, left: Tree<N>, node: N)

  /** The subtree on the other side of the last frame. */
  function Sibling<N>(p: Path<N>): Tree<N>
    requires !p.Top?
  {
    if p.InLeft? then p.right else p.left
  }

  /** The last frame of `p` with `t` hung into it. */
  function Graft<N>(p: Path<N>, t: Tree<N>): Tree<N>
    requires !p.Top?
  {
    if p.InLeft? then Node(p.color, t, p.node, p.right) else Node(p.color, p.left, p.node, t)
  }

  /** The cut at the other child of the last frame. */
  function Across<N>(p: Path<N>, t: Tree<N>): Path<N>
    requires !p.Top?
  {
    if p.InLeft? then InRight(p.up, p.color, t, p.node) else InLeft(p.up, p.color, p.node, t)
  }

  /** The whole tree that has `t` at the end of `p`. */
  ghost function Plug<N>(p: Path<N>, t: Tree<N>): Tree<N>
    decreases p
  {
    if p.Top? then t else Plug(p.up, Graft(p, t))
  }

  ghost function Inorder<N>(t: Tree<N>): seq<N> {
    match t
    case Leaf => []
    case Node(_, l, n, r) => Inorder(l) + [n] + Inorder(r)
  }

  /** The nodes that come before the subtree at the end of `p` in sort order. */
  ghost function Before<N>(p: Path<N>): seq<N> {
    match p
    case Top => []
    case InLeft(up, _, _, _) => Before(up)
    case InRight(up, _, l, n) => Before(up) + Inorder(l) + [n]
  }

  /** The nodes that come after it. */
  ghost function After<N>(p: Path<N>): seq<N> {
    match p
    case Top => []
    case InLeft(up, _, n, r) => [n] + Inorder(r) + After(up)
    case InRight(up, _, _, _) => After(up)
  }

  ghost function Nodes<N>(t: Tree<N>): set<N> {
    match t
    case Leaf => {}
    case Node(_, l, n, r) => Nodes(l) + {n} + Nodes(r)
  }

  ghost function PathNodes<N>(p: Path<N>): set<N> {
    if p.Top? then {} else PathNodes(p.up) + {p.node} + Nodes(Sibling(p))
  }

  /** No node occurs twice in `t`. */
  ghost predicate Distinct<N>(t: Tree<N>) {
    match t
    case Leaf => true
    case Node(_, l, n, r) =>
      n !in Nodes(l) && n !in Nodes(r) && Nodes(l) !! Nodes(r) && Distinct(l) && Distinct(r)
  }

  /** No node occurs twice on `p`, nor both on `p` and in `s`. */
  ghost predicate Apart<N>(p: Path<N>, s: set<N>) {
    p.Top? ||
    (p.node !in s && p.node !in Nodes(Sibling(p)) && Nodes(Sibling(p)) !! s && Distinct(Sibling(p))
     && Apart(p.up, s + {p.node} + Nodes(Sibling(p))))
  }

  // ---------------------------------------------------------------- red-black rules

  predicate IsBlack<N>(t: Tree<N>) {
    t.Leaf? || t.color.Black?
  }

  /** No red node has a red child and every path down to a leaf meets `h` black nodes. */
  ghost predicate Balanced<N>(t: Tree<N>, h: nat) {
    match t
    case Leaf => h == 0
    case Node(Red, l, _, r) => IsBlack(l) && IsBlack(r) && Balanced(l, h) && Balanced(r, h)
    case Node(Black, l, _, r) => h > 0 && Balanced(l, h - 1) && Balanced(r, h - 1)
  }

  /** Black nodes along the leftmost path: in a balanced tree, along every path. */
  ghost function BlackHeight<N>(t: Tree<N>): nat {
    match t
    case Leaf => 0
    case Node(c, l, _, _) => BlackHeight(l) + if c.Black? then 1 else 0
  }

  ghost predicate RedBlack<N>(t: Tree<N>) {
    IsBlack(t) && Balanced(t, BlackHeight(t))
  }

  /** A red subtree may hang at the end of `p`: its parent exists and is black. */
  predicate AcceptsRed<N>(p: Path<N>) {
    !p.Top? && p.color.Black?
  }

  /** A subtree of black height `h` hung at the end of `p` breaks no rule on the path. */
  ghost predicate Fits<N>(p: Path<N>, h: nat) {
    p.Top? ||
    (Balanced(Sibling(p), h) &&
     if p.color.Red? then IsBlack(Sibling(p)) && AcceptsRed(p.up) && Fits(p.up, h)
     else Fits(p.up, h + 1))
  }

  lemma BalancedHeight<N>(t: Tree<N>, h: nat)
    requires Balanced(t, h)
    ensures BlackHeight(t) == h
  {
    if t.Node? {
      BalancedHeight(t.left, if t.color.Black? then h - 1 else h);
    }
  }

  /** A rule-abiding subtree on a fitting path makes a red-black tree. */
  lemma {:induction false} PlugRedBlack<N>(p: Path<N>, t: Tree<N>, h: nat)
    requires Balanced(t, h) && Fits(p, h) && (IsBlack(t) || AcceptsRed(p))
    ensures RedBlack(Plug(p, t))
    decreases p
  {
    if p.Top? {
      BalancedHeight(t, h);
    } else {
      PlugRedBlack(p.up, Graft(p, t), if p.color.Black? then h + 1 else h);
    }
  }

  /** And only so: any cut through a red-black tree leaves a fitting path and a balanced subtree. */
  lemma {:induction false} RedBlackCut<N>(p: Path<N>, t: Tree<N>) returns (h: nat)
    requires RedBlack(Plug(p, t))
    ensures Balanced(t, h) && Fits(p, h) && (IsBlack(t) || AcceptsRed(p))
    decreases p
  {
    if p.Top? {
      h := BlackHeight(t);
    } else {
      h := RedBlackCut(p.up, Graft(p, t));
      if p.color.Black? {
        h := h - 1;
      }
    }
  }

  // ---------------------------------------------------------------- cutting and plugging

  lemma {:induction false} PlugInorder<N>(p: Path<N>, t: Tree<N>)
    ensures Inorder(Plug(p, t)) == Before(p) + Inorder(t) + After(p)
    decreases p
  {
    if !p.Top? {
      PlugInorder(p.up, Graft(p, t));
    }
  }

  /** A rotation keeps the order. */
  lemma RotationInorder<N>(c0: Color, c1: Color, c2: Color, c3: Color, a: Tree<N>, x: N, b: Tree<N>, y: N, c: Tree<N>)
    ensures Inorder(Node(c0, a, x, Node(c1, b, y, c))) == Inorder(Node(c2, Node(c3, a, x, b), y, c))
  {
    assert Inorder(Node(c1, b, y, c)) == Inorder(b) + [y] + Inorder(c);
    assert Inorder(Node(c3, a, x, b)) == Inorder(a) + [x] + Inorder(b);
  }

  /** Replacing a subtree by one with the same nodes in the same order changes no order above. */
  lemma PlugSameInorder<N>(p: Path<N>, t: Tree<N>, t': Tree<N>)
    requires Inorder(t) == Inorder(t')
    ensures Inorder(Plug(p, t)) == Inorder(Plug(p, t'))
  {
    PlugInorder(p, t);
    PlugInorder(p, t');
  }

  lemma {:induction false} PlugNodes<N>(p: Path<N>, t: Tree<N>)
    ensures Nodes(Plug(p, t)) == PathNodes(p) + Nodes(t)
    decreases p
  {
    if !p.Top? {
      PlugNodes(p.up, Graft(p, t));
    }
  }

  lemma ApartGraft<N>(p: Path<N>, t: Tree<N>)
    requires !p.Top?
    ensures Distinct(t) && Apart(p, Nodes(t)) <==> Distinct(Graft(p, t)) && Apart(p.up, Nodes(Graft(p, t)))
  {
    assert Nodes(t) + {p.node} + Nodes(Sibling(p)) == Nodes(Graft(p, t));
  }

  lemma ApartDisjoint<N>(p: Path<N>, s: set<N>)
    requires Apart(p, s)
    ensures PathNodes(p) !! s
  {
    if !p.Top? {
      ApartDisjoint(p.up, s + {p.node} + Nodes(Sibling(p)));
    }
  }

  lemma ApartSubset<N>(p: Path<N>, s: set<N>, s': set<N>)
    requires Apart(p, s) && s' <= s
    ensures Apart(p, s')
  {
    if !p.Top? {
      ApartSubset(p.up, s + {p.node} + Nodes(Sibling(p)), s' + {p.node} + Nodes(Sibling(p)));
    }
  }

  lemma ApartSwapped<N>(p: Path<N>, s: set<N>, s': set<N>, x: N)
    requires Apart(p, s) && s' <= s + {x} && x !in PathNodes(p)
    ensures Apart(p, s')
  {
    if !p.Top? {
      ApartSwapped(p.up, s + {p.node} + Nodes(Sibling(p)), s' + {p.node} + Nodes(Sibling(p)), x);
    }
  }

  /** The last frame of a path shares no node with the rest of the path. */
  lemma ApartFrame<N>(p: Path<N>, s: set<N>)
    requires Apart(p, s) && !p.Top?
    ensures p.node !in PathNodes(p.up) && Nodes(Sibling(p)) !! PathNodes(p.up) && s !! PathNodes(p)
  {
    ApartDisjoint(p, s);
    ApartDisjoint(p.up, s + {p.node} + Nodes(Sibling(p)));
  }

  lemma LastNodeApart<N>(p: Path<N>, s: set<N>)
    requires Apart(p, s) && !p.Top?
    ensures p.node !in PathNodes(p.up) && p.node !in Nodes(Sibling(p)) && p.node !in s
    ensures PathNodes(p) == PathNodes(p.up) + {p.node} + Nodes(Sibling(p))
  {
    ApartDisjoint(p.up, s + {p.node} + Nodes(Sibling(p)));
  }

  // ---------------------------------------------------------------- longer paths

  /** The path that leads down `base` and on along `q`. */
  ghost function Append<N>(q: Path<N>, base: Path<N>): Path<N> {
    match q
    case Top => base
    case InLeft(up, c, n, r) => InLeft(Append(up, base), c, n, r)
    case InRight(up, c, l, n) => InRight(Append(up, base), c, l, n)
  }

  ghost predicate AllLeft<N>(q: Path<N>) {
    q.Top? || (q.InLeft? && AllLeft(q.up))
  }

  lemma {:induction false} PlugAppend<N>(q: Path<N>, base: Path<N>, t: Tree<N>)
    ensures Plug(Append(q, base), t) == Plug(base, Plug(q, t))
    decreases q
  {
    if !q.Top? {
      PlugAppend(q.up, base, Graft(q, t));
    }
  }

  lemma AppendAllLeft<N>(q: Path<N>, base: Path<N>)
    requires AllLeft(q)
    ensures Before(Append(q, base)) == Before(base) && After(Append(q, base)) == After(q) + After(base)
  {
  }

  /** Colours decide whether a path fits, not which nodes are on it. */
  lemma FitsRenamed<N>(q: Path<N>, p: Path<N>, c: Color, l: Tree<N>, n: N, n': N, h: nat)
    requires Fits(Append(q, InRight(p, c, l, n)), h)
    ensures Fits(Append(q, InRight(p, c, l, n')), h)
    ensures AcceptsRed(Append(q, InRight(p, c, l, n))) <==> AcceptsRed(Append(q, InRight(p, c, l, n')))
  {
    if !q.Top? {
      FitsRenamed(q.up, p, c, l, n, n', if q.color.Black? then h + 1 else h);
    }
  }

  // ---------------------------------------------------------------- rotations

  /** Subtrees a, b, c and nodes x, y, in that order and sharing nothing, below the path `up`:
      what a rotation takes apart and puts together again. */
  ghost predicate Pieces<N>(up: Path<N>, a: Tree<N>, x: N, b: Tree<N>, y: N, c: Tree<N>) {
    x != y && Distinct(a) && Distinct(b) && Distinct(c)
    && x !in Nodes(a) && x !in Nodes(b) && x !in Nodes(c)
    && y !in Nodes(a) && y !in Nodes(b) && y !in Nodes(c)
    && Nodes(a) !! Nodes(b) && Nodes(a) !! Nodes(c) && Nodes(b) !! Nodes(c)
    && Apart(up, Nodes(a) + {x} + Nodes(b) + {y} + Nodes(c))
  }

  lemma PiecesRightLeaning<N>(up: Path<N>, cx: Color, a: Tree<N>, x: N, b: Tree<N>, cy: Color, y: N, c: Tree<N>)
    ensures var t := Node(cx, a, x, Node(cy, b, y, c));
            Pieces(up, a, x, b, y, c) <==> Distinct(t) && Apart(up, Nodes(t))
  {
    var r := Node(cy, b, y, c);
    assert Nodes(Node(cx, a, x, r)) == Nodes(a) + {x} + Nodes(b) + {y} + Nodes(c);
    assert Distinct(r) <==> y !in Nodes(b) && y !in Nodes(c) && Nodes(b) !! Nodes(c) && Distinct(b) && Distinct(c);
  }

  lemma PiecesLeftLeaning<N>(up: Path<N>, cx: Color, a: Tree<N>, x: N, b: Tree<N>, cy: Color, y: N, c: Tree<N>)
    ensures var t := Node(cy, Node(cx, a, x, b), y, c);
            Pieces(up, a, x, b, y, c) <==> Distinct(t) && Apart(up, Nodes(t))
  {
    var l := Node(cx, a, x, b);
    assert Nodes(Node(cy, l, y, c)) == Nodes(a) + {x} + Nodes(b) + {y} + Nodes(c);
    assert Distinct(l) <==> x !in Nodes(a) && x !in Nodes(b) && Nodes(a) !! Nodes(b) && Distinct(a) && Distinct(b);
  }

  lemma PiecesOffPath<N>(up: Path<N>, a: Tree<N>, x: N, b: Tree<N>, y: N, c: Tree<N>)
    requires Pieces(up, a, x, b, y, c)
    ensures x !in PathNodes(up) && y !in PathNodes(up)
    ensures Nodes(a) !! PathNodes(up) && Nodes(b) !! PathNodes(up) && Nodes(c) !! PathNodes(up)
  {
    ApartDisjoint(up, Nodes(a) + {x} + Nodes(b) + {y} + Nodes(c));
  }
}

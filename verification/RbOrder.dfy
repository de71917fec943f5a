/** Orders on the nodes of a tree: sort order, postorder, and what insertion and removal mean
    for a sorted sequence. */
module RbOrder {
  import opened Common
  import opened Bits
  import opened RbShape

  lemma {:induction false} NodesOfInorder<N>(t: Tree<N>)
    ensures forall x <- Nodes(t) :: x in Inorder(t)
    ensures forall x <- Inorder(t) :: x in Nodes(t)
  {
    if t.Node? {
      NodesOfInorder(t.left);
      NodesOfInorder(t.right);
    }
  }

  lemma {:induction false} NoDuplicatesJoin<N>(l: seq<N>, x: N, r: seq<N>)
    requires NoDuplicates(l) && NoDuplicates(r) && x !in l && x !in r && forall y <- l :: y !in r
    ensures NoDuplicates(l + [x] + r)
  {
    var s := l + [x] + r;
    forall i, j | 0 <= i < j < |s| ensures s[i] != s[j] {
      if i < |l| {
        assert s[i] in l;
      }
      if j > |l| {
        assert s[j] == r[j - |l| - 1] && s[j] in r;
      }
    }
  }

  lemma {:induction false} NoDuplicatesSplit<N>(l: seq<N>, x: N, r: seq<N>)
    requires NoDuplicates(l + [x] + r)
    ensures NoDuplicates(l) && NoDuplicates(r) && x !in l && x !in r && forall y <- l :: y !in r
  {
    var s := l + [x] + r;
    assert forall i | 0 <= i < |l| :: s[i] == l[i];
    assert forall i | 0 <= i < |r| :: s[|l| + 1 + i] == r[i];
    assert s[|l|] == x;
  }

  /** A tree holds no node twice exactly when its sort order does not. */
  lemma {:induction false} DistinctInorder<N>(t: Tree<N>)
    ensures Distinct(t) <==> NoDuplicates(Inorder(t))
  {
    if t.Node? {
      DistinctInorder(t.left);
      DistinctInorder(t.right);
      NodesOfInorder(t.left);
      NodesOfInorder(t.right);
      var l, r := Inorder(t.left), Inorder(t.right);
      if Distinct(t) {
        forall y <- l ensures y !in r {
          assert y in Nodes(t.left);
        }
        NoDuplicatesJoin(l, t.node, r);
      }
      if NoDuplicates(Inorder(t)) {
        NoDuplicatesSplit(l, t.node, r);
        forall y <- Nodes(t.left) ensures y !in Nodes(t.right) {
          assert y in l;
        }
      }
    }
  }

  /** Every node has a cut above it. */
  lemma {:induction false} FindCut<N>(base: Path<N>, t: Tree<N>, n: N) returns (p: Path<N>, u: Tree<N>)
    requires n in Nodes(t)
    ensures Plug(p, u) == Plug(base, t) && u.Node? && u.node == n
    decreases t
  {
    if t.node == n {
      p, u := base, t;
    } else if n in Nodes(t.left) {
      p, u := FindCut(InLeft(base, t.color, t.node, t.right), t.left, n);
    } else {
      p, u := FindCut(InRight(base, t.color, t.left, t.node), t.right, n);
    }
  }

  // ---------------------------------------------------------------- height

  ghost function Height<N>(t: Tree<N>): nat {
    if t.Leaf? then 0
    else 1 + if Height(t.left) < Height(t.right) then Height(t.right) else Height(t.left)
  }

  ghost function Size<N>(t: Tree<N>): nat {
    if t.Leaf? then 0 else Size(t.left) + 1 + Size(t.right)
  }

  lemma {:induction false} BalancedBounds<N>(t: Tree<N>, h: nat)
    requires Balanced(t, h)
    ensures Height(t) <= 2 * h + if IsBlack(t) then 0 else 1
    ensures Pow2(h) <= Size(t) + 1
  {
    if t.Node? {
      var h' := if t.color.Black? then h - 1 else h;
      BalancedBounds(t.left, h');
      BalancedBounds(t.right, h');
    }
  }

  /** Height at most 2 * log2(size + 1): its power of two is at most the square of size + 1. */
  lemma {:induction false} RedBlackHeight<N>(t: Tree<N>)
    requires RedBlack(t)
    ensures Pow2(Height(t)) <= (Size(t) + 1) * (Size(t) + 1)
  {
    var h := BlackHeight(t);
    BalancedBounds(t, h);
    Pow2Order(Height(t), h + h);
    Pow2Add(h, h);
    Square(Pow2(h), Size(t) + 1);
  }

  lemma Square(a: nat, b: nat)
    requires a <= b
    ensures a * a <= b * b
  {
    assert a * a <= a * b <= b * b;
  }

  // ---------------------------------------------------------------- what the rules say

  /** The numbers of black nodes on the paths from the root to the leaves. */
  ghost function LeafDepths<N>(t: Tree<N>): set<nat> {
    match t
    case Leaf => {0}
    case Node(c, l, _, r) =>
      var below := LeafDepths(l) + LeafDepths(r);
      if c.Red? then below else set d <- below :: d + 1
  }

  ghost predicate NoRedPair<N>(t: Tree<N>) {
    t.Leaf? || ((t.color.Red? ==> IsBlack(t.left) && IsBlack(t.right)) && NoRedPair(t.left) && NoRedPair(t.right))
  }

  /** `Balanced` says what the two rules of red-black trees say. */
  lemma {:induction false} BalancedMeans<N>(t: Tree<N>, h: nat)
    ensures Balanced(t, h) <==> NoRedPair(t) && LeafDepths(t) == {h}
    decreases t
  {
    if t.Node? {
      var below := LeafDepths(t.left) + LeafDepths(t.right);
      LeafDepthsExist(t.left);
      LeafDepthsExist(t.right);
      if t.color.Red? {
        BalancedMeans(t.left, h);
        BalancedMeans(t.right, h);
        assert below == {h} <==> LeafDepths(t.left) == {h} && LeafDepths(t.right) == {h};
      } else {
        if h > 0 {
          BalancedMeans(t.left, h - 1);
          BalancedMeans(t.right, h - 1);
          assert below == {h - 1} <==> LeafDepths(t.left) == {h - 1} && LeafDepths(t.right) == {h - 1};
        }
        if LeafDepths(t) == {h} {
          assert h in LeafDepths(t);
          forall d <- below ensures d == h - 1 {
            assert d + 1 in LeafDepths(t);
          }
        }
      }
    }
  }

  lemma {:induction false} LeafDepthsExist<N>(t: Tree<N>)
    ensures exists d :: d in LeafDepths(t)
  {
    if t.Leaf? {
      assert 0 in LeafDepths(t);
    } else {
      LeafDepthsExist(t.left);
      var d :| d in LeafDepths(t.left);
      assert d in LeafDepths(t.left) + LeafDepths(t.right);
      assert (if t.color.Red? then d else d + 1) in LeafDepths(t);
    }
  }

  // ---------------------------------------------------------------- sorted sequences

  /** `less` is a strict weak order on `s`. */
  ghost predicate StrictWeak<N>(less: (N, N) -> bool, s: set<N>) {
    && (forall x <- s, y <- s :: less(x, y) ==> !less(y, x))
    && (forall x <- s, y <- s, z <- s :: less(x, z) ==> less(x, y) || less(y, z))
  }

  ghost predicate Sorted<N>(less: (N, N) -> bool, s: seq<N>) {
    forall i, j :: 0 <= i < j < |s| ==> !less(s[j], s[i])
  }

  /** `s` with `x` put in before the first node it is less than. */
  ghost function Insert<N>(less: (N, N) -> bool, s: seq<N>, x: N): seq<N> {
    if s == [] || less(x, s[0]) then [x] + s else [s[0]] + Insert(less, s[1..], x)
  }

  ghost predicate InsertedAt<N>(less: (N, N) -> bool, s: seq<N>, x: N, k: int) {
    0 <= k <= |s| && (forall i | 0 <= i < k :: !less(x, s[i])) && (k < |s| ==> less(x, s[k]))
  }

  /** Every node before `k` is at most `x`, every node from `k` on is greater. */
  ghost predicate SplitsAt<N>(less: (N, N) -> bool, s: seq<N>, x: N, k: int) {
    0 <= k <= |s| && (forall i | 0 <= i < k :: !less(x, s[i])) && (forall i | k <= i < |s| :: less(x, s[i]))
  }

  lemma {:induction false} InsertAt<N>(less: (N, N) -> bool, s: seq<N>, x: N, k: int)
    requires InsertedAt(less, s, x, k)
    ensures Insert(less, s, x) == s[..k] + [x] + s[k..]
  {
    if k > 0 {
      assert !less(x, s[0]);
      assert forall i | 0 <= i < k - 1 :: s[1..][i] == s[i + 1];
      InsertAt(less, s[1..], x, k - 1);
      assert s[1..][..k - 1] == s[1..k] && s[1..][k - 1..] == s[k..];
    }
  }

  lemma {:induction false} InsertPosition<N>(less: (N, N) -> bool, s: seq<N>, x: N) returns (k: int)
    ensures InsertedAt(less, s, x, k)
  {
    if s == [] || less(x, s[0]) {
      k := 0;
    } else {
      var k' := InsertPosition(less, s[1..], x);
      k := k' + 1;
      forall i | 0 <= i < k ensures !less(x, s[i]) {
        if i > 0 {
          assert !less(x, s[1..][i - 1]);
        }
      }
    }
  }

  /** Insertion keeps a sequence sorted, and puts the new node after all nodes equal to it. */
  lemma {:induction false} InsertSorted<N>(less: (N, N) -> bool, s: seq<N>, x: N, all: set<N>)
    requires Sorted(less, s) && StrictWeak(less, all) && x in all && forall y <- s :: y in all
    ensures Sorted(less, Insert(less, s, x))
    ensures exists k :: SplitsAt(less, s, x, k) && Insert(less, s, x) == s[..k] + [x] + s[k..]
  {
    var k := InsertPosition(less, s, x);
    InsertAt(less, s, x, k);
    forall i | k <= i < |s| ensures less(x, s[i]) && !less(s[i], x) {
      assert s[i] in all && s[k] in all;
      assert i == k || !less(s[i], s[k]);
    }
    var r := Insert(less, s, x);
    forall i, j | 0 <= i < j < |r| ensures !less(r[j], r[i]) {
      var i', j' := if i > k then i - 1 else i, if j > k then j - 1 else j;
      if i != k && j != k {
        assert r[i] == s[i'] && r[j] == s[j'];
      } else if i == k {
        assert r[j] == s[j'];
      } else {
        assert r[i] == s[i];
      }
    }
  }

  /** Removing a node keeps a sequence sorted. */
  lemma RemoveSorted<N>(less: (N, N) -> bool, s: seq<N>, k: nat)
    requires Sorted(less, s) && k < |s|
    ensures Sorted(less, s[..k] + s[k + 1..])
  {
  }
}

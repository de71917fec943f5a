/** Searching a tree for the nodes that match a key. */
module RbFind {
  import opened RbShape
  import opened RbMemory
  import opened RbOrder
  import opened RbWalk

  /** `cmp(n)` compares the key with `n`: the order of the tree agrees with it. */
  ghost predicate Ordered(cmp: RbNode -> int, s: seq<RbNode>) {
    forall i, j :: 0 <= i < j < |s| ==> (cmp(s[j]) > 0 ==> cmp(s[i]) > 0) && (cmp(s[i]) < 0 ==> cmp(s[j]) < 0)
  }

  /** The nodes that match, in order. */
  ghost function Matching(cmp: RbNode -> int, s: seq<RbNode>): seq<RbNode> {
    if s == [] then []
    else (if cmp(s[0]) == 0 then [s[0]] else []) + Matching(cmp, s[1..])
  }

  lemma {:induction false} MatchingJoin(cmp: RbNode -> int, a: seq<RbNode>, b: seq<RbNode>)
    ensures Matching(cmp, a + b) == Matching(cmp, a) + Matching(cmp, b)
  {
    if a == [] {
      assert a + b == b;
    } else {
      MatchingJoin(cmp, a[1..], b);
      assert (a + b)[1..] == a[1..] + b && (a + b)[0] == a[0];
      var first := if cmp(a[0]) == 0 then [a[0]] else [];
      assert first + (Matching(cmp, a[1..]) + Matching(cmp, b)) == first + Matching(cmp, a[1..]) + Matching(cmp, b);
    }
  }

  lemma NoMatch(cmp: RbNode -> int, s: seq<RbNode>)
    requires forall y <- s :: cmp(y) != 0
    ensures Matching(cmp, s) == []
  {
  }

  lemma {:induction false} OrderedPivot(cmp: RbNode -> int, a: seq<RbNode>, n: RbNode, b: seq<RbNode>)
    requires Ordered(cmp, a + [n] + b)
    ensures cmp(n) > 0 ==> forall y <- a :: cmp(y) > 0
    ensures cmp(n) < 0 ==> forall y <- b :: cmp(y) < 0
    ensures Ordered(cmp, b)
  {
    var s := a + [n] + b;
    assert s[|a|] == n;
    forall y <- a ensures cmp(n) > 0 ==> cmp(y) > 0 {
      var i :| 0 <= i < |a| && a[i] == y;
      assert s[i] == y;
    }
    forall i | 0 <= i < |b| ensures s[|a| + 1 + i] == b[i] && (cmp(n) < 0 ==> cmp(b[i]) < 0) {
      assert s[|a| + 1 + i] == b[i];
    }
  }

  /** What the search knows at the cut (p, t): all before it is too small, and the node recorded
      as a match is the first after it. */
  ghost predicate Closing(cmp: RbNode -> int, p: Path<RbNode>, found: RbNode?) {
    (forall y <- Before(p) :: cmp(y) > 0)
    && if found == null then forall y <- After(p) :: cmp(y) < 0
       else After(p) != [] && After(p)[0] == found && cmp(found) == 0
  }

  /** One step down: to the left when the key is at most the node, else to the right. */
  lemma {:induction false} ClosingStep(cmp: RbNode -> int, p: Path<RbNode>, t: Tree<RbNode>, found: RbNode?)
    requires Ordered(cmp, Inorder(Plug(p, t))) && t.Node? && Closing(cmp, p, found)
    ensures cmp(t.node) <= 0 ==>
      Closing(cmp, InLeft(p, t.color, t.node, t.right), if cmp(t.node) == 0 then t.node else found)
    ensures cmp(t.node) > 0 ==> Closing(cmp, InRight(p, t.color, t.left, t.node), found)
  {
    PlugInorder(p, t);
    Regroup(Before(p), Inorder(t.left), t.node, Inorder(t.right), After(p));
    OrderedPivot(cmp, Before(p) + Inorder(t.left), t.node, Inorder(t.right) + After(p));
  }

  /** The first matching node, or null if none matches. */
  method FindFirst(cmp: RbNode -> int, root: RbRoot, ghost s: set<RbNode>, ghost whole: Tree<RbNode>)
    returns (found: RbNode?)
    requires Carries(Snapshot(root, s), whole) && Ordered(cmp, Inorder(whole))
    ensures found == FirstOf(Matching(cmp, Inorder(whole))) && IsFirstMatch(cmp, Inorder(whole), found)
  {
    var node := root.node;
    found := null;
    ghost var m, p, t := Snapshot(root, s), Path<RbNode>.Top, whole;
    while node != null
      invariant At(m, p, t) && Plug(p, t) == whole && node == RootOf(t) && Closing(cmp, p, found)
      decreases t
    {
      var c := cmp(node);
      ClosingStep(cmp, p, t, found);
      if c <= 0 {
        if c == 0 {
          found := node;
        }
        node := node.left;
        p, t := InLeft(p, t.color, t.node, t.right), t.left;
      } else {
        node := node.right;
        p, t := InRight(p, t.color, t.left, t.node), t.right;
      }
      AtGraft(m, p, t);
    }
    Closed(cmp, p, found);
  }

  /** `found` matches and nobody before it does; or it is null, and nobody matches. */
  ghost predicate IsFirstMatch(cmp: RbNode -> int, s: seq<RbNode>, found: RbNode?) {
    if found == null then forall y <- s :: cmp(y) != 0
    else cmp(found) == 0 && exists k :: 0 <= k < |s| && s[k] == found && forall i | 0 <= i < k :: cmp(s[i]) != 0
  }

  /** The matching nodes are all those that match, each in its place. */
  lemma {:induction false} MatchingIs(cmp: RbNode -> int, a: seq<RbNode>, x: RbNode, b: seq<RbNode>)
    ensures Matching(cmp, a + [x] + b)
      == Matching(cmp, a) + (if cmp(x) == 0 then [x] else []) + Matching(cmp, b)
    ensures forall y :: y in Matching(cmp, a) <==> y in a && cmp(y) == 0
  {
    MatchingJoin(cmp, a + [x], b);
    MatchingJoin(cmp, a, [x]);
    assert [x][1..] == [];
    MatchingMembers(cmp, a);
  }

  lemma {:induction false} MatchingMembers(cmp: RbNode -> int, s: seq<RbNode>)
    ensures forall y :: y in Matching(cmp, s) <==> y in s && cmp(y) == 0
  {
    if s != [] {
      MatchingMembers(cmp, s[1..]);
      assert s == [s[0]] + s[1..];
    }
  }

  lemma {:induction false} Closed(cmp: RbNode -> int, p: Path<RbNode>, found: RbNode?)
    requires Closing(cmp, p, found)
    ensures found == FirstOf(Matching(cmp, Inorder(Plug(p, Leaf)))) && IsFirstMatch(cmp, Inorder(Plug(p, Leaf)), found)
  {
    PlugInorder(p, Leaf);
    assert Inorder(Plug(p, Leaf)) == Before(p) + After(p);
    MatchingJoin(cmp, Before(p), After(p));
    NoMatch(cmp, Before(p));
    if found == null {
      NoMatch(cmp, After(p));
    } else {
      assert (Before(p) + After(p))[|Before(p)|] == found;
    }
  }

  /** The first node of `rest` if it matches. */
  function MatchAhead(cmp: RbNode -> int, rest: seq<RbNode>): RbNode? {
    if rest != [] && cmp(rest[0]) == 0 then rest[0] else null
  }

  /** The node after `node` if it matches as well, else null. */
  method NextMatch(cmp: RbNode -> int, node: RbNode, root: RbRoot, ghost s: set<RbNode>, ghost whole: Tree<RbNode>)
    returns (n: RbNode?)
    requires Carries(Snapshot(root, s), whole) && node in s
    ensures forall i | 0 <= i < |Inorder(whole)| && Inorder(whole)[i] == node ::
      n == MatchAhead(cmp, Inorder(whole)[i + 1..])
  {
    n := Next(node, root, s, whole);
    if n != null && cmp(n) != 0 {
      n := null;
    }
  }

  /** In an ordered sequence the matches are one unbroken run. */
  lemma {:induction false} MatchesAreARun(cmp: RbNode -> int, s: seq<RbNode>)
    requires Ordered(cmp, s) && s != [] && cmp(s[0]) == 0 && |s| > 1 && cmp(s[1]) != 0
    ensures Matching(cmp, s[1..]) == []
  {
    forall y <- s[1..] ensures cmp(y) != 0 {
      var i :| 0 <= i < |s[1..]| && s[1..][i] == y;
      assert s[i + 1] == y;
    }
    NoMatch(cmp, s[1..]);
  }

  /** Starting at the first match and stepping on while there is a match visits all matches in order. */
  method VisitMatches(cmp: RbNode -> int, root: RbRoot, ghost s: set<RbNode>, ghost whole: Tree<RbNode>)
    returns (visited: seq<RbNode>)
    requires Carries(Snapshot(root, s), whole) && Ordered(cmp, Inorder(whole))
    ensures visited == Matching(cmp, Inorder(whole))
  {
    ghost var order := Inorder(whole);
    visited := [];
    var node := FindFirst(cmp, root, s, whole);
    ghost var i: nat := if node == null then |order| else FirstMatch(cmp, order);
    while node != null
      invariant Visiting(cmp, order, visited, node, i)
      decreases |order| - i, node != null
    {
      InorderInNodes(whole, i);
      var next := NextMatch(cmp, node, root, s, whole);
      VisitingStep(cmp, order, visited, node, i);
      visited, node, i := visited + [node], next, i + 1;
    }
  }

  /** The matches before index `i` are visited, and `node` stands at `i` unless all are. */
  ghost predicate Visiting(cmp: RbNode -> int, order: seq<RbNode>, visited: seq<RbNode>, node: RbNode?, i: nat) {
    if node == null then visited == Matching(cmp, order)
    else
      i < |order| && order[i] == node && cmp(node) == 0
      && Matching(cmp, order) == visited + Matching(cmp, order[i..])
  }

  lemma {:induction false} VisitingStep(cmp: RbNode -> int, order: seq<RbNode>, visited: seq<RbNode>, node: RbNode,
                                        i: nat)
    requires Ordered(cmp, order) && Visiting(cmp, order, visited, node, i)
    ensures Visiting(cmp, order, visited + [node], MatchAhead(cmp, order[i + 1..]), i + 1)
  {
    MatchStep(cmp, order, i);
    var rest := if MatchAhead(cmp, order[i + 1..]) != null then Matching(cmp, order[i + 1..]) else [];
    assert visited + ([node] + rest) == (visited + [node]) + rest;
  }

  lemma {:induction false} InorderInNodes(whole: Tree<RbNode>, i: int)
    requires 0 <= i < |Inorder(whole)|
    ensures Inorder(whole)[i] in Nodes(whole)
  {
    NodesOfInorder(whole);
  }

  /** Where the first match stands. */
  ghost function FirstMatch(cmp: RbNode -> int, s: seq<RbNode>): (i: nat)
    requires Matching(cmp, s) != []
    ensures i < |s| && s[i] == Matching(cmp, s)[0] && cmp(s[i]) == 0 && Matching(cmp, s[i..]) == Matching(cmp, s)
  {
    if cmp(s[0]) == 0 then assert s[0..] == s; 0
    else
      var k := FirstMatch(cmp, s[1..]);
      assert s[1..][k..] == s[k + 1..];
      k + 1
  }

  lemma {:induction false} MatchStep(cmp: RbNode -> int, s: seq<RbNode>, i: nat)
    requires Ordered(cmp, s) && i < |s| && cmp(s[i]) == 0
    ensures MatchAhead(cmp, s[i + 1..]) != null ==> Matching(cmp, s[i..]) == [s[i]] + Matching(cmp, s[i + 1..])
    ensures MatchAhead(cmp, s[i + 1..]) == null ==> Matching(cmp, s[i..]) == [s[i]]
  {
    assert s[i..][1..] == s[i + 1..];
    if i + 1 < |s| && cmp(s[i + 1]) != 0 {
      MatchesAreARun(cmp, s[i..]);
    }
  }
}

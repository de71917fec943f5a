/** Doubly linked lists of superblocks: moving to the front, adding at the front, taking out. */
module KmList {
  import opened Common
  import opened Bits
  import opened KmSlots
  import opened KmState

  /** `hdr'` is `hdr` but for the links of the superblocks in `s`. */
  ghost predicate Relinked(hdr: map<nat, Header>, hdr': map<nat, Header>, s: seq<nat>) {
    hdr'.Keys == hdr.Keys && forall q <- hdr ::
      if q in s then hdr[q].Super? && hdr'[q].Super? && hdr'[q] == hdr[q].(next := hdr'[q].next, prev := hdr'[q].prev)
      else hdr'[q] == hdr[q]
  }

  lemma {:induction false} RelinkedRow(hdr: map<nat, Header>, hdr': map<nat, Header>, s: seq<nat>, p: nat)
    requires Relinked(hdr, hdr', s) && p in hdr && hdr[p].Super?
    ensures hdr'.Keys == hdr.Keys && hdr'[p].Super? && hdr'[p] == hdr[p].(next := hdr'[p].next, prev := hdr'[p].prev)
  {
  }

  function MovedToFront(s: seq<nat>, k: nat): seq<nat>
    requires k < |s|
  {
    [s[k]] + s[..k] + s[k + 1..]
  }

  function Without(s: seq<nat>, k: nat): seq<nat>
    requires k < |s|
  {
    s[..k] + s[k + 1..]
  }

  /** Rows of the neighbours after `s[k]` has been bypassed. */
  ghost predicate BypassedRows(hdr: map<nat, Header>, hdr': map<nat, Header>, s: seq<nat>, k: nat)
    requires k < |s| && forall p <- s :: p in hdr && hdr[p].Super?
  {
    hdr'.Keys == hdr.Keys
    && (k > 0 ==> hdr'[s[k - 1]] == hdr[s[k - 1]].(next := At(s, k + 1)))
    && (k + 1 < |s| ==> hdr'[s[k + 1]] == hdr[s[k + 1]].(prev := At(s, k - 1)))
    && forall q <- hdr :: (k > 0 ==> q != s[k - 1]) && (k + 1 < |s| ==> q != s[k + 1]) ==> hdr'[q] == hdr[q]
  }

  lemma {:induction false} BypassedChain(hdr: map<nat, Header>, hdr': map<nat, Header>, key: Key, s: seq<nat>, k: nat)
    requires Chained(hdr, key, s) && k < |s| && BypassedRows(hdr, hdr', s, k)
    ensures Chained(hdr', key, Without(s, k))
  {
    var t := Without(s, k);
    WithoutElements(s, k);
    forall i | 0 <= i < |t| ensures ChainRow(hdr', key, t, i) {
      var j := if i < k then i else i + 1;
      assert t[i] == s[j] && ChainRow(hdr, key, s, j);
    }
  }

  /** Rows after `p` has been put in front of the list `s`. */
  ghost predicate FrontedRows(hdr: map<nat, Header>, hdr': map<nat, Header>, s: seq<nat>, p: nat)
    requires p in hdr && hdr[p].Super? && forall q <- s :: q in hdr && hdr[q].Super?
  {
    hdr'.Keys == hdr.Keys
    && hdr'[p] == hdr[p].(next := At(s, 0), prev := 0)
    && (s != [] ==> hdr'[s[0]] == hdr[s[0]].(prev := p))
    && forall q <- hdr :: (s != [] ==> q != s[0]) && q != p ==> hdr'[q] == hdr[q]
  }

  lemma {:induction false} FrontedChain(hdr: map<nat, Header>, hdr': map<nat, Header>, key: Key, s: seq<nat>, p: nat)
    requires Chained(hdr, key, s) && p !in s && p in hdr && hdr[p].Super? && hdr[p].cpu == key.cpu
    requires hdr[p].power == key.power
    requires FrontedRows(hdr, hdr', s, p)
    ensures Chained(hdr', key, [p] + s)
  {
    var t := [p] + s;
    forall i | 0 <= i < |t| ensures ChainRow(hdr', key, t, i) {
      if i > 0 {
        assert t[i] == s[i - 1] && ChainRow(hdr, key, s, i - 1);
      }
    }
  }

  // ---------------------------------------------------------------- the writes

  /** Lets the neighbours of `p` point past it. */
  method Unlink(hdr: map<nat, Header>, p: nat, ghost key: Key, ghost s: seq<nat>, ghost k: nat)
    returns (hdr': map<nat, Header>)
    requires Chained(hdr, key, s) && 0 !in s && k < |s| && s[k] == p
    ensures BypassedRows(hdr, hdr', s, k)
  {
    assert ChainRow(hdr, key, s, k);
    hdr' := hdr;
    if hdr'[p].prev != 0 {
      hdr' := hdr'[hdr'[p].prev := hdr'[hdr'[p].prev].(next := hdr'[p].next)];
    }
    if hdr'[p].next != 0 {
      hdr' := hdr'[hdr'[p].next := hdr'[hdr'[p].next].(prev := hdr'[p].prev)];
    }
  }

  /** Puts `p` before the list that starts at `head`. */
  method AddToFront(hdr: map<nat, Header>, p: nat, head: nat, ghost s: seq<nat>) returns (hdr': map<nat, Header>)
    requires p in hdr && hdr[p].Super? && p !in s && 0 !in s && head == At(s, 0)
    requires forall q <- s :: q in hdr && hdr[q].Super?
    ensures FrontedRows(hdr, hdr', s, p)
  {
    hdr' := hdr[p := hdr[p].(next := head)];
    if hdr'[p].next != 0 {
      hdr' := hdr'[hdr'[p].next := hdr'[hdr'[p].next].(prev := p)];
    }
    hdr' := hdr'[p := hdr'[p].(prev := 0)];
  }

  /** Moves `p`, which is not the head, to the front of its list. */
  method MoveToFront(hdr: map<nat, Header>, p: nat, head: nat, ghost key: Key, ghost s: seq<nat>, ghost k: nat)
    returns (hdr': map<nat, Header>)
    requires Chained(hdr, key, s) && 0 !in s && 0 < k < |s| && s[k] == p && head == s[0]
    ensures Chained(hdr', key, MovedToFront(s, k)) && Relinked(hdr, hdr', s)
  {
    WithoutElements(s, k);
    hdr' := Unlink(hdr, p, key, s, k);
    BypassedChain(hdr, hdr', key, s, k);
    var hdr1 := hdr';
    BypassedRelinks(hdr, hdr1, key, s, k);
    hdr' := AddToFront(hdr1, p, head, Without(s, k));
    FrontedChain(hdr1, hdr', key, Without(s, k), p);
    FrontedRelinks(hdr1, hdr', Without(s, k), p, s);
    assert MovedToFront(s, k) == [p] + Without(s, k);
  }

  /** Takes `p` out of a list of several, by the head or by the neighbours. */
  method TakeOut(hdr: map<nat, Header>, p: nat, head: nat, ghost key: Key, ghost s: seq<nat>, ghost k: nat)
    returns (hdr': map<nat, Header>, head': nat)
    requires Chained(hdr, key, s) && 0 !in s && 1 < |s| && k < |s| && s[k] == p && head == s[0]
    ensures BypassedRows(hdr, hdr', s, k) && head' == At(Without(s, k), 0)
  {
    assert ChainRow(hdr, key, s, 0) && s[0] in s && s[1] in s;
    assert p == head <==> k == 0;
    if p == head {
      head' := hdr[p].next;
      hdr' := hdr[head' := hdr[head'].(prev := 0)];
    } else {
      head' := head;
      hdr' := Unlink(hdr, p, key, s, k);
    }
  }

  lemma {:induction false} BypassedRelinks(hdr: map<nat, Header>, hdr': map<nat, Header>, key: Key, s: seq<nat>, k: nat)
    requires Chained(hdr, key, s) && k < |s| && BypassedRows(hdr, hdr', s, k)
    ensures Relinked(hdr, hdr', s)
    ensures s[k] in hdr && hdr'[s[k]] == hdr[s[k]]
  {
    assert s[k] in s && (k > 0 ==> s[k - 1] in s && s[k - 1] != s[k]);
    assert k + 1 < |s| ==> s[k + 1] in s && s[k] != s[k + 1];
  }

  lemma {:induction false} FrontedRelinks(hdr: map<nat, Header>, hdr': map<nat, Header>, t: seq<nat>, p: nat,
                                          s: seq<nat>)
    requires p in hdr && hdr[p].Super? && (forall q <- t :: q in hdr && hdr[q].Super?) && FrontedRows(hdr, hdr', t, p)
    requires p in s && (forall q <- t :: q in s) && forall q <- s :: q in hdr && hdr[q].Super?
    ensures Relinked(hdr, hdr', s)
  {
    assert t != [] ==> t[0] in t;
  }

  /** Free counts decide the sum, links do not. */
  lemma {:induction false} FreeSumFrame(hdr: map<nat, Header>, hdr': map<nat, Header>, s: seq<nat>)
    requires forall p <- s ::
      p in hdr && hdr[p].Super? && p in hdr' && hdr'[p].Super? && hdr'[p].freeCount == hdr[p].freeCount
    ensures FreeSum(hdr', s) == FreeSum(hdr, s)
  {
    if s != [] {
      FreeSumFrame(hdr, hdr', s[1..]);
    }
  }

  lemma {:induction false} FreeSumJoin(hdr: map<nat, Header>, a: seq<nat>, b: seq<nat>)
    requires forall p <- a + b :: p in hdr && hdr[p].Super?
    ensures (forall p <- a :: p in a + b) && (forall p <- b :: p in a + b)
    ensures FreeSum(hdr, a + b) == FreeSum(hdr, a) + FreeSum(hdr, b)
  {
    assert forall p <- a :: p in a + b;
    assert forall p <- b :: p in a + b;
    if a == [] {
      assert a + b == b;
    } else {
      assert (a + b)[1..] == a[1..] + b;
      FreeSumJoin(hdr, a[1..], b);
    }
  }

  /** The sum without one superblock. */
  lemma {:induction false} FreeSumWithout(hdr: map<nat, Header>, s: seq<nat>, k: nat)
    requires k < |s| && forall p <- s :: p in hdr && hdr[p].Super?
    ensures forall p <- Without(s, k) :: p in s
    ensures FreeSum(hdr, s) == FreeSum(hdr, Without(s, k)) + hdr[s[k]].freeCount
  {
    assert s == s[..k] + ([s[k]] + s[k + 1..]);
    FreeSumJoin(hdr, s[..k], [s[k]] + s[k + 1..]);
    FreeSumJoin(hdr, [s[k]], s[k + 1..]);
    FreeSumJoin(hdr, s[..k], s[k + 1..]);
    assert FreeSum(hdr, [s[k]]) == hdr[s[k]].freeCount + FreeSum(hdr, []);
  }

  lemma {:induction false} WithoutElements(s: seq<nat>, k: nat)
    requires k < |s| && NoDuplicates(s)
    ensures NoDuplicates(Without(s, k)) && s[k] !in Without(s, k)
    ensures forall p <- Without(s, k) :: p in s
    ensures forall p <- s :: p in Without(s, k) || p == s[k]
  {
    var t := Without(s, k);
    assert forall i | 0 <= i < |t| :: t[i] == s[if i < k then i else i + 1];
    forall p <- s ensures p in t || p == s[k] {
      var i :| 0 <= i < |s| && s[i] == p;
      if i < k {
        assert t[i] == p;
      } else if i > k {
        assert t[i - 1] == p;
      }
    }
  }

  // ---------------------------------------------------------------- what a bucket keeps

  /** One superblock's free count changes, and the bucket's with it. */
  lemma {:induction false} CountChanged(hdr: map<nat, Header>, bucket: map<Key, Bucket>, list: map<Key, seq<nat>>,
                                        p: nat,
                                        h: Header, b: Bucket)
    requires BucketsOk(hdr, bucket, list) && p in hdr && hdr[p].Super? && h.Super?
    requires h == hdr[p].(free := h.free, freeCount := h.freeCount)
    requires var key := Key(hdr[p].cpu, hdr[p].power);
      b == bucket[key].(freeCount := b.freeCount)
      && b.freeCount - bucket[key].freeCount == h.freeCount - hdr[p].freeCount
    ensures BucketsOk(hdr[p := h], bucket[Key(hdr[p].cpu, hdr[p].power) := b], list)
  {
    var key0, hdr' := Key(hdr[p].cpu, hdr[p].power), hdr[p := h];
    var bucket' := bucket[key0 := b];
    forall key <- list ensures IsPower(key.power) && BucketOk(hdr', key, bucket'[key], list[key]) {
      var s := list[key];
      assert BucketOk(hdr, key, bucket[key], s);
      forall i | 0 <= i < |s| ensures ChainRow(hdr', key, s, i) {
        assert ChainRow(hdr, key, s, i);
      }
      if p in s {
        var k :| 0 <= k < |s| && s[k] == p;
        WithoutElements(s, k);
        FreeSumWithout(hdr, s, k);
        FreeSumWithout(hdr', s, k);
        FreeSumFrame(hdr, hdr', Without(s, k));
      } else {
        FreeSumFrame(hdr, hdr', s);
      }
    }
  }

  /** A bucket whose superblocks are untouched stays as it is. */
  lemma {:induction false} OtherBucket(hdr: map<nat, Header>, hdr': map<nat, Header>, key: Key, b: Bucket, s: seq<nat>)
    requires BucketOk(hdr, key, b, s) && forall q <- s :: q in hdr' && hdr'[q] == hdr[q]
    ensures BucketOk(hdr', key, b, s)
  {
    FreeSumFrame(hdr, hdr', s);
    forall i | 0 <= i < |s| ensures ChainRow(hdr', key, s, i) {
      assert ChainRow(hdr, key, s, i);
    }
  }

  /** No superblock is in two lists. */
  lemma {:induction false} ListsApart(hdr: map<nat, Header>, bucket: map<Key, Bucket>, list: map<Key, seq<nat>>,
                                      key: Key, key': Key)
    requires BucketsOk(hdr, bucket, list) && key in list && key' in list && key != key'
    ensures forall q <- list[key] :: q !in list[key']
  {
    assert BucketOk(hdr, key, bucket[key], list[key]) && BucketOk(hdr, key', bucket[key'], list[key']);
  }

  /** One list is reordered. */
  lemma {:induction false} ListReordered(hdr: map<nat, Header>, hdr': map<nat, Header>, bucket: map<Key, Bucket>,
                                         list: map<Key, seq<nat>>,
                                         key0: Key, k: nat)
    requires BucketsOk(hdr, bucket, list) && key0 in list && k < |list[key0]|
    requires Relinked(hdr, hdr', list[key0]) && Chained(hdr', key0, MovedToFront(list[key0], k))
    ensures BucketsOk(hdr', bucket[key0 := bucket[key0].(head := list[key0][k])],
                      list[key0 := MovedToFront(list[key0], k)])
  {
    var s, t := list[key0], MovedToFront(list[key0], k);
    var bucket', list' := bucket[key0 := bucket[key0].(head := s[k])], list[key0 := t];
    assert BucketOk(hdr, key0, bucket[key0], s);
    ReorderedSum(hdr, hdr', s, k);
    forall key <- list ensures IsPower(key.power) && BucketOk(hdr', key, bucket'[key], list'[key]) {
      if key != key0 {
        ListsApart(hdr, bucket, list, key, key0);
        OtherBucket(hdr, hdr', key, bucket[key], list[key]);
      }
    }
  }

  lemma {:induction false} ReorderedSum(hdr: map<nat, Header>, hdr': map<nat, Header>, s: seq<nat>, k: nat)
    requires k < |s| && NoDuplicates(s) && Relinked(hdr, hdr', s) && forall q <- s :: q in hdr && hdr[q].Super?
    ensures |MovedToFront(s, k)| == |s| && MovedToFront(s, k)[0] == s[k]
    ensures (forall p <- MovedToFront(s, k) :: p in s) && (forall p <- s :: p in MovedToFront(s, k))
    ensures FreeSum(hdr', MovedToFront(s, k)) == FreeSum(hdr, s)
  {
    WithoutElements(s, k);
    assert MovedToFront(s, k) == [s[k]] + Without(s, k);
    FreeSumFrame(hdr, hdr', s);
    FreeSumWithout(hdr', s, k);
    FreeSumJoin(hdr', [s[k]], Without(s, k));
    assert FreeSum(hdr', [s[k]]) == hdr'[s[k]].freeCount + FreeSum(hdr', []);
  }

  /** A superblock is put in front of one list. */
  lemma {:induction false} ListGrown(hdr: map<nat, Header>, hdr': map<nat, Header>, bucket: map<Key, Bucket>,
                                     list: map<Key, seq<nat>>,
                                     key0: Key, p: nat, b: Bucket)
    requires BucketsOk(hdr, bucket, list) && key0 in list && p !in hdr && p in hdr'
    requires hdr'[p].Super? && Key(hdr'[p].cpu, hdr'[p].power) == key0
    requires hdr'.Keys == hdr.Keys + {p} && Relinked(hdr, hdr' - {p}, list[key0])
    requires Chained(hdr', key0, [p] + list[key0])
    requires b == Bucket(p, Pow2(key0.power), bucket[key0].freeCount + hdr'[p].freeCount, bucket[key0].numSb + 1)
    ensures BucketsOk(hdr', bucket[key0 := b], list[key0 := [p] + list[key0]])
  {
    var s := list[key0];
    var bucket', list' := bucket[key0 := b], list[key0 := [p] + s];
    assert BucketOk(hdr, key0, bucket[key0], s);
    FreeSumFrame(hdr, hdr', s);
    assert ([p] + s)[1..] == s;
    forall key <- list ensures IsPower(key.power) && BucketOk(hdr', key, bucket'[key], list'[key]) {
      if key != key0 {
        assert BucketOk(hdr, key, bucket[key], list[key]);
        ListsApart(hdr, bucket, list, key, key0);
        OtherBucket(hdr, hdr', key, bucket[key], list[key]);
      }
    }
    forall q <- hdr' ensures hdr'[q].Super? ==>
      Key(hdr'[q].cpu, hdr'[q].power) in list' && q in list'[Key(hdr'[q].cpu, hdr'[q].power)]
    {
      if q != p && hdr'[q].Super? {
        assert q in list[Key(hdr[q].cpu, hdr[q].power)];
      }
    }
  }

  /** A superblock is taken out of its list and given back. */
  lemma {:induction false} ListShrunk(hdr: map<nat, Header>, hdr': map<nat, Header>, bucket: map<Key, Bucket>,
                                      list: map<Key, seq<nat>>,
                                      key0: Key, k: nat)
    requires BucketsOk(hdr, bucket, list) && key0 in list && k < |list[key0]|
    requires Relinked(hdr, hdr', list[key0]) && Chained(hdr', key0, Without(list[key0], k))
    ensures var p, s, b := list[key0][k], list[key0], bucket[key0];
      p in hdr && hdr[p].Super? && b.freeCount >= hdr[p].freeCount && b.numSb > 0 &&
      BucketsOk(hdr' - {p}, bucket[key0 := b.(head := At(Without(s, k), 0),
                                              freeCount := b.freeCount - hdr[p].freeCount, numSb := b.numSb - 1)],
                list[key0 := Without(s, k)])
  {
    var s, t, p, b := list[key0], Without(list[key0], k), list[key0][k], bucket[key0];
    assert BucketOk(hdr, key0, b, s);
    WithoutElements(s, k);
    FreeSumWithout(hdr, s, k);
    var hdr2, list' := hdr' - {p}, list[key0 := t];
    var bucket' := bucket[key0 := b.(head := At(t, 0), freeCount := b.freeCount - hdr[p].freeCount,
                                     numSb := b.numSb - 1)];
    forall i | 0 <= i < |t| ensures ChainRow(hdr2, key0, t, i) {
      assert ChainRow(hdr', key0, t, i);
    }
    FreeSumFrame(hdr, hdr2, t);
    forall key <- list ensures IsPower(key.power) && BucketOk(hdr2, key, bucket'[key], list'[key]) {
      if key != key0 {
        assert BucketOk(hdr, key, bucket[key], list[key]);
        ListsApart(hdr, bucket, list, key, key0);
        OtherBucket(hdr, hdr2, key, bucket[key], list[key]);
      }
    }
  }
}

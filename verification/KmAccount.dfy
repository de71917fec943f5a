/** What a good state says about slots, links, buckets and waiting frees. */
module KmAccount {
  import opened Common
  import opened Bits
  import opened KmSlots
  import opened KmState
  import opened KmSteps
  import opened KmGood

  /** Every slot of a superblock is in exactly one of four uses: free, held by a caller, waiting to be
      freed, or a record of a waiting free. */
  lemma {:induction false} SlotUse(m: Mem, abs: Abs, p: nat, a: nat)
    requires Good(m, abs) && p in m.hdr && m.hdr[p].Super? && IsSlot(p, m.hdr[p].power, a)
    ensures p in abs.free
    ensures (if a in abs.free[p] then 1 else 0) + (if a in abs.held then 1 else 0)
      + (if a in abs.pending.Values then 1 else 0) + (if a in abs.pending.Keys then 1 else 0) == 1
  {
    hide PagesOk, BlocksOk, ExtentsOk, BucketsOk, ChainsOk, RemoteOk;
    SuperFacts(m, abs, p);
  }

  /** The live slots of a superblock and its free count make up all its slots. */
  lemma {:induction false} SlotsCounted(m: Mem, abs: Abs, p: nat)
    requires Good(m, abs) && p in m.hdr && m.hdr[p].Super?
    ensures |set a <- Live(abs) | IsSlot(p, m.hdr[p].power, a)| + m.hdr[p].freeCount == SlotCount(Pow2(m.hdr[p].power))
  {
    hide PagesOk, BlocksOk, ExtentsOk, BucketsOk, ChainsOk, RemoteOk, UsesOk, Live;
    SuperFacts(m, abs, p);
    var k, fl := m.hdr[p].power, abs.free[p];
    var all := AllSlots(p, k);
    var live := set a <- Live(abs) | IsSlot(p, k, a);
    forall i, j | 0 <= i < j < |all| ensures all[i] != all[j] {
      AllSlotsDistinct(p, k, i, j);
    }
    SetOfSize(all);
    SetOfSize(fl);
    forall a ensures a in SetOf(all) <==> IsSlot(p, k, a) {
      AllSlotsExact(p, k, a);
    }
    assert SetOf(all) == live + SetOf(fl);
    assert live !! SetOf(fl);
  }

  lemma {:induction false} AllSlotsExact(p: nat, k: nat, a: nat)
    ensures a in AllSlots(p, k) <==> IsSlot(p, k, a)
  {
    if IsSlot(p, k, a) {
      var i :| 0 <= i < SlotCount(Pow2(k)) && a == SlotAt(p, k, i);
      assert AllSlots(p, k)[i] == a;
    }
    if a in AllSlots(p, k) {
      var i :| 0 <= i < |AllSlots(p, k)| && AllSlots(p, k)[i] == a;
    }
  }

  /** Where `i` links from `a` lead. */
  ghost function Follow(word: map<nat, nat>, a: nat, i: nat): nat {
    if i == 0 then a else
      var b := Follow(word, a, i - 1);
      if b in word then word[b] else 0
  }

  /** The first `freeCount` links of a superblock lead to different aligned slots nobody uses. */
  lemma {:induction false} FreeWalk(m: Mem, abs: Abs, p: nat, i: nat)
    requires Good(m, abs) && p in m.hdr && m.hdr[p].Super? && i < m.hdr[p].freeCount
    ensures var a := Follow(m.word, m.hdr[p].free, i);
      IsSlot(p, m.hdr[p].power, a) && a % Pow2(m.hdr[p].power) == 0 && a !in Live(abs)
    ensures forall j: nat | j < i :: Follow(m.word, m.hdr[p].free, j) != Follow(m.word, m.hdr[p].free, i)
  {
    hide PagesOk, BlocksOk, ExtentsOk, BucketsOk, ChainsOk, RemoteOk, UsesOk, Live, Follow;
    SuperFacts(m, abs, p);
    FollowFree(p, m.hdr[p], abs.free[p], m.word, i);
    SlotPage(p, m.hdr[p].power, abs.free[p][i]);
    forall j: nat | j < i ensures Follow(m.word, m.hdr[p].free, j) != Follow(m.word, m.hdr[p].free, i) {
      FollowFree(p, m.hdr[p], abs.free[p], m.word, j);
    }
  }

  lemma {:induction false} FollowFree(p: nat, h: Header, fl: seq<nat>, word: map<nat, nat>, i: nat)
    requires FreeListOk(p, h, fl, word) && i < |fl|
    ensures Follow(word, h.free, i) == fl[i]
    decreases i
  {
    if i > 0 {
      FollowFree(p, h, fl, word, i - 1);
      assert fl[i - 1] in word && word[fl[i - 1]] == fl[i - 1 + 1];
    }
  }

  /** Where `i` next pointers from `p` lead. */
  ghost function NextSb(hdr: map<nat, Header>, p: nat, i: nat): nat {
    if i == 0 then p else
      var q := NextSb(hdr, p, i - 1);
      if q in hdr && hdr[q].Super? then hdr[q].next else 0
  }

  /** From a bucket's head the next pointers lead through its `numSb` superblocks and then to null;
      every superblock of that size and CPU is among them, and their free counts add up to the
      bucket's. */
  lemma {:induction false} BucketWalk(m: Mem, abs: Abs, key: Key)
    requires Good(m, abs) && key in m.bucket
    ensures var n, s := m.bucket[key].numSb, abs.list[key];
      |s| == n && NoDuplicates(s) && NextSb(m.hdr, m.bucket[key].head, n) == 0
      && (forall i: nat | i < n :: NextSb(m.hdr, m.bucket[key].head, i) == s[i])
      && (forall p <- m.hdr :: m.hdr[p].Super? && KeyOf(m.hdr[p]) == key ==> p in s)
    ensures (forall p <- abs.list[key] :: p in m.hdr && m.hdr[p].Super?)
    ensures m.bucket[key].freeCount == FreeSum(m.hdr, abs.list[key])
  {
    hide PagesOk, BlocksOk, ExtentsOk, BucketsOk, ChainsOk, RemoteOk, UsesOk, NextSb;
    ListFacts(m, abs, key);
    var s := abs.list[key];
    forall i: nat | i <= |s| ensures NextSb(m.hdr, m.bucket[key].head, i) == At(s, i) {
      NextSbAt(m.hdr, key, s, i);
    }
    forall p <- m.hdr ensures m.hdr[p].Super? && KeyOf(m.hdr[p]) == key ==> p in s {
      if m.hdr[p].Super? {
        SuperFacts(m, abs, p);
      }
    }
  }

  lemma {:induction false} NextSbAt(hdr: map<nat, Header>, key: Key, s: seq<nat>, i: nat)
    requires Chained(hdr, key, s) && i <= |s|
    ensures NextSb(hdr, At(s, 0), i) == At(s, i)
    decreases i
  {
    if i > 0 {
      NextSbAt(hdr, key, s, i - 1);
      assert ChainRow(hdr, key, s, i - 1);
    }
  }

  /** A waiting free is recorded on a list of the CPU that owns the block. Unless lists are being
      worked through, it is that CPU's remote free list, and following it from its head finds the
      record. */
  lemma {:induction false} Waiting(m: Mem, abs: Abs, r: nat)
    requires Good(m, abs) && r in abs.pending && abs.depth == 0
    ensures r in m.word && r + 8 in m.word && m.word[r + 8] == abs.pending[r]
    ensures PageOf(abs.pending[r]) in m.hdr && m.hdr[PageOf(abs.pending[r])].Super?
    ensures var cpu := m.hdr[PageOf(abs.pending[r])].cpu;
      cpu in m.remote && exists i: nat :: Follow(m.word, m.remote[cpu], i) == r
  {
    hide PagesOk, BlocksOk, ExtentsOk, BucketsOk, ChainsOk, UsesOk, Follow;
    RecordFacts(m, abs, r);
    var id :| id in abs.chains && r in abs.chains[id].recs
      && RecordOk(m.hdr, m.word, r, abs.pending[r], abs.chains[id].cpu);
    var recs := abs.chains[id].recs;
    var i :| 0 <= i < |recs| && recs[i] == r;
    ChainThreaded(m, abs, id);
    FollowRecs(m.word, recs, i);
  }

  lemma {:induction false} ChainThreaded(m: Mem, abs: Abs, id: int)
    requires Good(m, abs) && id in abs.chains
    ensures Threaded(m.word, abs.chains[id].recs)
  {
    assert ChainOk(m.hdr, m.word, abs.pending, abs.chains[id]);
  }

  lemma {:induction false} FollowRecs(word: map<nat, nat>, recs: seq<nat>, i: nat)
    requires Threaded(word, recs) && i < |recs|
    ensures Follow(word, At(recs, 0), i) == recs[i]
    decreases i
  {
    if i > 0 {
      FollowRecs(word, recs, i - 1);
      assert ThreadRow(word, recs, i - 1);
    }
  }
}

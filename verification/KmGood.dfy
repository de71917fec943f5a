/** Every step of the allocator keeps its state good. */
module KmGood {
  import opened Bits
  import opened KmSlots
  import opened KmState
  import opened KmList
  import opened KmSteps

  function KeyOf(h: Header): Key
    requires h.Super?
  {
    Key(h.cpu, h.power)
  }

  /** What is known of a bucket's list. */
  lemma {:induction false} ListFacts(m: Mem, abs: Abs, key: Key)
    requires Good(m, abs) && key in m.bucket
    ensures key in abs.list && IsPower(key.power) && BucketOk(m.hdr, key, m.bucket[key], abs.list[key])
    ensures 0 !in abs.list[key]
  {
    assert BucketOk(m.hdr, key, m.bucket[key], abs.list[key]);
    assert forall p <- abs.list[key] :: PageOk(p, m.hdr[p], abs.free, Live(abs), m.word);
  }

  /** What is known of a superblock. */
  lemma {:induction false} SuperFacts(m: Mem, abs: Abs, p: nat)
    requires Good(m, abs) && p in m.hdr && m.hdr[p].Super?
    ensures p > 0 && p in abs.free && FreeListOk(p, m.hdr[p], abs.free[p], m.word)
    ensures forall a | IsSlot(p, m.hdr[p].power, a) :: a in Live(abs) <==> a !in abs.free[p]
    ensures KeyOf(m.hdr[p]) in m.bucket && KeyOf(m.hdr[p]) in abs.list && p in abs.list[KeyOf(m.hdr[p])]
  {
    assert PageOk(p, m.hdr[p], abs.free, Live(abs), m.word);
  }

  /** What is known of a pending record. */
  lemma {:induction false} RecordFacts(m: Mem, abs: Abs, r: nat)
    requires Good(m, abs) && r in abs.pending
    ensures exists id <- abs.chains ::
      r in abs.chains[id].recs && RecordOk(m.hdr, m.word, r, abs.pending[r], abs.chains[id].cpu)
    ensures r > 0 && r in m.word && r + 8 in m.word && IsBlock(m.hdr, r) && IsBlock(m.hdr, abs.pending[r])
    ensures m.hdr[PageOf(r)].Super? && m.hdr[PageOf(r)].power == RECORD_POWER && m.hdr[PageOf(abs.pending[r])].Super?
  {
    assert OnChain(abs.chains, r);
    var id :| id in abs.chains && r in abs.chains[id].recs;
    var recs := abs.chains[id].recs;
    assert ChainOk(m.hdr, m.word, abs.pending, abs.chains[id]);
    assert RecordOk(m.hdr, m.word, r, abs.pending[r], abs.chains[id].cpu);
    var i :| 0 <= i < |recs| && recs[i] == r;
    assert ThreadRow(m.word, recs, i);
    assert IsBlock(m.hdr, r) && IsBlock(m.hdr, abs.pending[r]);
  }

  lemma {:induction false} LiveBlock(m: Mem, abs: Abs, a: nat)
    requires Good(m, abs) && a in Live(abs)
    ensures IsBlock(m.hdr, a)
  {
  }

  /** Reordering a list keeps the state good. */
  lemma {:induction false} GoodReordered(m: Mem, abs: Abs, hdr': map<nat, Header>, key: Key, k: nat)
    requires Good(m, abs) && key in m.bucket && k < |abs.list[key]|
    requires Relinked(m.hdr, hdr', abs.list[key]) && Chained(hdr', key, MovedToFront(abs.list[key], k))
    ensures Good(m.(hdr := hdr', bucket := m.bucket[key := m.bucket[key].(head := abs.list[key][k])]),
                 abs.(list := abs.list[key := MovedToFront(abs.list[key], k)]))
  {
    ListReordered(m.hdr, hdr', m.bucket, abs.list, key, k);
    RelinkedRest(m.hdr, hdr', abs.list[key], abs.free, Live(abs), m.word, abs.pending, abs.chains);
  }

  lemma {:induction false} HeldMore(abs: Abs, free: map<nat, seq<nat>>, a: nat)
    requires UsesOk(abs) && a !in Live(abs)
    ensures var abs' := abs.(free := free, held := abs.held + {a}); Live(abs') == Live(abs) + {a} && UsesOk(abs')
  {
  }

  lemma {:induction false} HeldLess(abs: Abs, free: map<nat, seq<nat>>, a: nat)
    requires UsesOk(abs) && a in abs.held
    ensures var abs' := abs.(free := free, held := abs.held - {a}); Live(abs') == Live(abs) - {a} && UsesOk(abs')
    ensures a in Live(abs) && a !in abs.pending
  {
  }

  /** The first free block of `p` is handed out. */
  ghost function TakenMem(m: Mem, p: nat, next: nat): Mem
    requires p in m.hdr && m.hdr[p].Super? && m.hdr[p].freeCount > 0
    requires KeyOf(m.hdr[p]) in m.bucket && m.bucket[KeyOf(m.hdr[p])].freeCount > 0
  {
    var h, b := m.hdr[p], m.bucket[KeyOf(m.hdr[p])];
    m.(hdr := m.hdr[p := h.(free := next, freeCount := h.freeCount - 1)],
       bucket := m.bucket[KeyOf(h) := b.(freeCount := b.freeCount - 1)])
  }

  lemma {:induction false} GoodTaken(m: Mem, abs: Abs, p: nat, next: nat)
    requires Good(m, abs) && p in m.hdr && m.hdr[p].Super? && m.hdr[p].freeCount > 0
    requires KeyOf(m.hdr[p]) in m.bucket && m.bucket[KeyOf(m.hdr[p])].freeCount > 0
    requires m.hdr[p].free in m.word ==> next == m.word[m.hdr[p].free]
    ensures p in abs.free && abs.free[p] != [] && m.hdr[p].free !in Live(abs)
    ensures PageOf(m.hdr[p].free) == p && IsSlot(p, m.hdr[p].power, m.hdr[p].free)
    ensures Good(TakenMem(m, p, next),
                 abs.(free := abs.free[p := abs.free[p][1..]], held := abs.held + {m.hdr[p].free}))
  {
    hide PagesOk, BlocksOk, BucketsOk, ChainsOk, ExtentsOk, UsesOk, RemoteOk, Live;
    SuperFacts(m, abs, p);
    var m', a := TakenMem(m, p, next), m.hdr[p].free;
    TakenPages(m.hdr, abs.free, Live(abs), m.word, p, next);
    HeldMore(abs, abs.free[p := abs.free[p][1..]], a);
    CountChanged(m.hdr, m.bucket, abs.list, p, m'.hdr[p], m'.bucket[KeyOf(m.hdr[p])]);
    ChainsFrame(m.hdr, m.word, m'.hdr, m.word, abs.pending, abs.chains);
    ExtentsSame(m.hdr, m'.hdr);
  }

  lemma {:induction false} ExtentsSame(hdr: map<nat, Header>, hdr': map<nat, Header>)
    requires ExtentsOk(hdr) && hdr'.Keys == hdr.Keys && forall p <- hdr :: Pages(hdr'[p]) == Pages(hdr[p])
    ensures ExtentsOk(hdr')
  {
    forall p <- hdr', q <- hdr' ensures p < q ==> p + Pages(hdr'[p]) <= q {
      assert p < q ==> p + Pages(hdr[p]) <= q;
    }
  }

  /** The held block `a` goes back on its free list. */
  ghost function PutMem(m: Mem, a: nat): Mem
    requires PageOf(a) in m.hdr && m.hdr[PageOf(a)].Super? && KeyOf(m.hdr[PageOf(a)]) in m.bucket
  {
    var p := PageOf(a);
    var h := m.hdr[p];
    var b := m.bucket[KeyOf(h)];
    m.(hdr := m.hdr[p := h.(free := a, freeCount := h.freeCount + 1)], word := m.word[a := h.free],
       bucket := m.bucket[KeyOf(h) := b.(freeCount := b.freeCount + 1)])
  }

  lemma {:induction false} GoodPut(m: Mem, abs: Abs, a: nat)
    requires Good(m, abs) && a in abs.held && PageOf(a) in m.hdr && m.hdr[PageOf(a)].Super?
    requires KeyOf(m.hdr[PageOf(a)]) in m.bucket
    ensures PageOf(a) in abs.free
    ensures Good(PutMem(m, a), abs.(free := abs.free[PageOf(a) := [a] + abs.free[PageOf(a)]], held := abs.held - {a}))
  {
    hide PagesOk, BlocksOk, BucketsOk, ChainsOk, ExtentsOk, UsesOk, RemoteOk;
    var p := PageOf(a);
    SuperFacts(m, abs, p);
    var m' := PutMem(m, a);
    LiveBlock(m, abs, a);
    HeldLess(abs, abs.free[p := [a] + abs.free[p]], a);
    PutPages(m.hdr, abs.free, Live(abs), m.word, a);
    CountChanged(m.hdr, m.bucket, abs.list, p, m'.hdr[p], m'.bucket[KeyOf(m.hdr[p])]);
    forall r <- abs.pending ensures SameWord(m.word, m'.word, r) && SameWord(m.word, m'.word, r + 8) {
      RecordFacts(m, abs, r);
      RecordWords(m.hdr, abs.free, Live(abs), m.word, r, a);
    }
    ChainsFrame(m.hdr, m.word, m'.hdr, m'.word, abs.pending, abs.chains);
    ExtentsSame(m.hdr, m'.hdr);
  }

  // ---------------------------------------------------------------- superblocks

  /** A fresh superblock heads its bucket's list. */
  lemma {:induction false} GoodGrown(m: Mem, abs: Abs, h: Header, p: nat, word': map<nat, nat>, hdr': map<nat, Header>,
                                     b: Bucket)
    requires Good(m, abs) && FreshPages(m.hdr, p, 1) && p !in m.hdr && h.Super? && KeyOf(h) in m.bucket
    requires FreeListOk(p, h, AllSlots(p, h.power), word')
    requires forall a <- m.word :: a in word' && (PageOf(a) != p ==> word'[a] == m.word[a])
    requires KeyOf(h) in abs.list && FrontedRowsOf(m.hdr[p := h], hdr', abs.list[KeyOf(h)], p)
    requires b == Bucket(p, Pow2(h.power), m.bucket[KeyOf(h)].freeCount + h.freeCount, m.bucket[KeyOf(h)].numSb + 1)
    ensures Good(Mem(hdr', word', m.bucket[KeyOf(h) := b], m.remote),
                 abs.(free := abs.free[p := AllSlots(p, h.power)],
                      list := abs.list[KeyOf(h) := [p] + abs.list[KeyOf(h)]]))
  {
    hide PagesOk, BlocksOk, BucketsOk, ChainsOk, ExtentsOk, UsesOk, RemoteOk;
    var key, s, hdr1, free' := KeyOf(h), abs.list[KeyOf(h)], m.hdr[p := h], abs.free[p := AllSlots(p, h.power)];
    ListFacts(m, abs, key);
    forall a | IsSlot(p, h.power, a) ensures a in AllSlots(p, h.power) {
      var i :| 0 <= i < SlotCount(Pow2(h.power)) && a == SlotAt(p, h.power, i);
      assert AllSlots(p, h.power)[i] == a;
    }
    SuperAdded(m.hdr, abs.free, Live(abs), m.word, word', p, h, AllSlots(p, h.power));
    RecordsBesides(m, abs, p, h, word');
    ChainsFrame(m.hdr, m.word, hdr1, word', abs.pending, abs.chains);
    GrownChain(m.hdr, hdr1, hdr', key, s, p);
    RelinkedRest(hdr1, hdr', [p] + s, free', Live(abs), word', abs.pending, abs.chains);
    ListGrown(m.hdr, hdr', m.bucket, abs.list, key, p, b);
    UsesSame(abs, abs.(free := free', list := abs.list[key := [p] + s]));
  }

  lemma UsesSame(abs: Abs, abs': Abs)
    requires UsesOk(abs) && abs'.held == abs.held && abs'.pending == abs.pending
    ensures UsesOk(abs') && Live(abs') == Live(abs)
  {
  }

  ghost predicate FrontedRowsOf(hdr: map<nat, Header>, hdr': map<nat, Header>, s: seq<nat>, p: nat) {
    p in hdr && hdr[p].Super? && (forall q <- s :: q in hdr && hdr[q].Super?) && FrontedRows(hdr, hdr', s, p)
  }

  lemma {:induction false} GrownChain(hdr: map<nat, Header>, hdr1: map<nat, Header>, hdr': map<nat, Header>, key: Key,
                                      s: seq<nat>, p: nat)
    requires Chained(hdr, key, s) && p !in hdr && p in hdr1 && hdr1 == hdr[p := hdr1[p]]
    requires FrontedRowsOf(hdr1, hdr', s, p) && KeyOf(hdr1[p]) == key
    ensures Chained(hdr', key, [p] + s) && Relinked(hdr1, hdr', [p] + s)
    ensures Relinked(hdr, hdr' - {p}, s) && hdr'.Keys == hdr.Keys + {p} && hdr'[p].freeCount == hdr1[p].freeCount
    ensures KeyOf(hdr'[p]) == key
    ensures p in hdr' && hdr'[p].Super?
  {
    forall i | 0 <= i < |s| ensures ChainRow(hdr1, key, s, i) {
      assert ChainRow(hdr, key, s, i);
    }
    FrontedChain(hdr1, hdr', key, s, p);
    FrontedRelinks(hdr1, hdr', s, p, [p] + s);
  }

  /** A fresh page holds no record. */
  lemma {:induction false} RecordsBesides(m: Mem, abs: Abs, p: nat, h: Header, word': map<nat, nat>)
    requires Good(m, abs) && p !in m.hdr
    requires forall a <- m.word :: a in word' && (PageOf(a) != p ==> word'[a] == m.word[a])
    ensures forall r <- abs.pending ::
      SameKind(m.hdr, m.hdr[p := h], r) && SameKind(m.hdr, m.hdr[p := h], abs.pending[r])
    ensures forall r <- abs.pending :: SameWord(m.word, word', r) && SameWord(m.word, word', r + 8)
  {
    hide PagesOk, BlocksOk, BucketsOk, ChainsOk, ExtentsOk, UsesOk, RemoteOk;
    forall r <- abs.pending ensures SameWord(m.word, word', r) && SameWord(m.word, word', r + 8) {
      RecordFacts(m, abs, r);
      RecordInPage(m, abs, r);
    }
  }

  lemma {:induction false} RecordInPage(m: Mem, abs: Abs, r: nat)
    requires Good(m, abs) && r in abs.pending
    ensures PageOf(r) in m.hdr && PageOf(r + 8) == PageOf(r)
  {
    hide PagesOk, BlocksOk, BucketsOk, ChainsOk, ExtentsOk, UsesOk, RemoteOk;
    RecordFacts(m, abs, r);
    SlotPage(PageOf(r), RECORD_POWER, r);
    Sizes(RECORD_POWER);
  }

  /** A superblock all of whose slots are free is given back. */
  ghost function ReleasedMem(m: Mem, hdr': map<nat, Header>, key: Key, s: seq<nat>, k: nat): Mem
    requires key in m.bucket && k < |s| && s[k] in m.hdr && m.hdr[s[k]].Super?
    requires m.bucket[key].freeCount >= m.hdr[s[k]].freeCount && m.bucket[key].numSb > 0
  {
    var b := m.bucket[key];
    m.(hdr := hdr' - {s[k]},
       bucket := m.bucket[key := b.(head := At(Without(s, k), 0), freeCount := b.freeCount - m.hdr[s[k]].freeCount,
                                    numSb := b.numSb - 1)])
  }

  lemma {:induction false} GoodReleased(m: Mem, abs: Abs, hdr': map<nat, Header>, key: Key, k: nat)
    requires Good(m, abs) && key in m.bucket && k < |abs.list[key]|
    requires abs.list[key][k] in m.hdr && m.hdr[abs.list[key][k]].Super?
    requires m.hdr[abs.list[key][k]].freeCount == SlotCount(Pow2(m.hdr[abs.list[key][k]].power))
    requires Relinked(m.hdr, hdr', abs.list[key]) && Chained(hdr', key, Without(abs.list[key], k))
    ensures var p, b := abs.list[key][k], m.bucket[key]; b.freeCount >= m.hdr[p].freeCount && b.numSb > 0
    ensures Good(ReleasedMem(m, hdr', key, abs.list[key], k), abs.(list := abs.list[key := Without(abs.list[key], k)]))
    ensures forall a <- Live(abs) :: PageOf(a) != abs.list[key][k]
  {
    hide PagesOk, BlocksOk, BucketsOk, ChainsOk, ExtentsOk, UsesOk, RemoteOk;
    ListFacts(m, abs, key);
    var s := abs.list[key];
    var p := s[k];
    RelinkedRest(m.hdr, hdr', s, abs.free, Live(abs), m.word, abs.pending, abs.chains);
    NothingLive(m, abs, p);
    PageDropped(hdr', abs.free, Live(abs), Live(abs), m.word, p);
    ListShrunk(m.hdr, hdr', m.bucket, abs.list, key, k);
    forall r <- abs.pending ensures SameKind(hdr', hdr' - {p}, r) && SameKind(hdr', hdr' - {p}, abs.pending[r]) {
      assert r in Live(abs) && abs.pending[r] in Live(abs);
    }
    ChainsFrame(hdr', m.word, hdr' - {p}, m.word, abs.pending, abs.chains);
    UsesSame(abs, abs.(list := abs.list[key := Without(s, k)]));
  }

  lemma {:induction false} NothingLive(m: Mem, abs: Abs, p: nat)
    requires Good(m, abs) && p in m.hdr && m.hdr[p].Super? && m.hdr[p].freeCount == SlotCount(Pow2(m.hdr[p].power))
    ensures forall a <- Live(abs) :: PageOf(a) != p
  {
    hide PagesOk, BlocksOk, BucketsOk, ChainsOk, ExtentsOk, UsesOk, RemoteOk;
    SuperFacts(m, abs, p);
    SlotsPigeonhole(p, m.hdr[p].power, abs.free[p]);
    forall a <- Live(abs) ensures PageOf(a) != p {
      LiveBlock(m, abs, a);
    }
  }

  // ---------------------------------------------------------------- large allocations

  lemma {:induction false} SupersSame(hdr: map<nat, Header>, hdr': map<nat, Header>, bucket: map<Key, Bucket>,
                                      list: map<Key, seq<nat>>)
    requires BucketsOk(hdr, bucket, list)
    requires forall p <- hdr :: hdr[p].Super? ==> p in hdr' && hdr'[p] == hdr[p]
    requires forall p <- hdr' :: hdr'[p].Super? ==> p in hdr && hdr[p] == hdr'[p]
    ensures BucketsOk(hdr', bucket, list)
  {
    forall key <- list ensures IsPower(key.power) && BucketOk(hdr', key, bucket[key], list[key]) {
      assert BucketOk(hdr, key, bucket[key], list[key]);
      OtherBucket(hdr, hdr', key, bucket[key], list[key]);
    }
  }

  lemma {:induction false} GoodLargeAdded(m: Mem, abs: Abs, p: nat, n: nat)
    requires Good(m, abs) && FreshPages(m.hdr, p, n) && p !in m.hdr && n > 0
    ensures LargeBlock(p) !in Live(abs)
    ensures Good(m.(hdr := m.hdr[p := Large(n)]), abs.(held := abs.held + {LargeBlock(p)}))
  {
    hide PagesOk, BlocksOk, BucketsOk, ChainsOk, ExtentsOk, UsesOk, RemoteOk;
    LargeAdded(m.hdr, abs.free, Live(abs), m.word, p, n);
    HeldMore(abs, abs.free, LargeBlock(p));
    SupersSame(m.hdr, m.hdr[p := Large(n)], m.bucket, abs.list);
    ChainsFrame(m.hdr, m.word, m.hdr[p := Large(n)], m.word, abs.pending, abs.chains);
  }

  lemma {:induction false} GoodLargeDropped(m: Mem, abs: Abs, a: nat)
    requires Good(m, abs) && a in abs.held && PageOf(a) in m.hdr && m.hdr[PageOf(a)].Large?
    ensures Good(m.(hdr := m.hdr - {PageOf(a)}), abs.(held := abs.held - {a}))
    ensures forall b <- Live(abs) :: b != a ==> PageOf(b) != PageOf(a)
  {
    hide PagesOk, BlocksOk, BucketsOk, ChainsOk, ExtentsOk, UsesOk, RemoteOk;
    var p, hdr' := PageOf(a), m.hdr - {PageOf(a)};
    HeldLess(abs, abs.free, a);
    LiveBlock(m, abs, a);
    forall b <- Live(abs) ensures b != a ==> PageOf(b) != p {
      LiveBlock(m, abs, b);
    }
    PageDropped(m.hdr, abs.free, Live(abs), Live(abs) - {a}, m.word, p);
    SupersSame(m.hdr, hdr', m.bucket, abs.list);
    forall r <- abs.pending ensures SameKind(m.hdr, hdr', r) && SameKind(m.hdr, hdr', abs.pending[r]) {
      RecordFacts(m, abs, r);
    }
    ChainsFrame(m.hdr, m.word, hdr', m.word, abs.pending, abs.chains);
  }

  // ---------------------------------------------------------------- remote frees

  /** Words that are no free slot can be written. */
  lemma {:induction false} WordsWritten(hdr: map<nat, Header>, free: map<nat, seq<nat>>, live: set<nat>,
                                        word: map<nat, nat>, word': map<nat, nat>)
    requires PagesOk(hdr, free, live, word)
    requires forall a <- word :: a in word' && (IsBlock(hdr, a) && a !in live ==> word'[a] == word[a])
    ensures PagesOk(hdr, free, live, word')
  {
    forall p <- hdr ensures PageOk(p, hdr[p], free, live, word') {
      assert PageOk(p, hdr[p], free, live, word);
      if hdr[p].Super? {
        var fl := free[p];
        forall i | 0 <= i < |fl| - 1 ensures fl[i] in word' && word'[fl[i]] == fl[i + 1] {
          assert fl[i] in fl;
          SlotPage(p, hdr[p].power, fl[i]);
        }
        assert FreeListOk(p, hdr[p], fl, word');
      }
    }
  }

  ghost function PushedMem(m: Mem, cpu: nat, r: nat, b: nat): Mem
    requires cpu in m.remote
  {
    m.(word := m.word[r + 8 := b][r := m.remote[cpu]], remote := m.remote[cpu := r])
  }

  ghost function PushedAbs(abs: Abs, cpu: nat, r: nat, b: nat): Abs
    requires cpu in abs.chains
  {
    abs.(held := abs.held - {r, b}, pending := abs.pending[r := b],
         chains := abs.chains[cpu := Chain(cpu, [r] + abs.chains[cpu].recs)])
  }

  /** The record `r` for block `b` goes to the front of its owner's list. */
  lemma {:induction false} GoodPushed(m: Mem, abs: Abs, cpu: nat, r: nat, b: nat)
    requires Good(m, abs) && cpu in m.remote && r in abs.held && b in abs.held && r != b
    requires PageOf(r) in m.hdr && m.hdr[PageOf(r)].Super? && m.hdr[PageOf(r)].power == RECORD_POWER
    requires m.hdr[PageOf(r)].cpu != cpu
    requires PageOf(b) in m.hdr && m.hdr[PageOf(b)].Super? && m.hdr[PageOf(b)].cpu == cpu
    ensures cpu in abs.chains && Good(PushedMem(m, cpu, r, b), PushedAbs(abs, cpu, r, b))
  {
    hide PagesOk, BlocksOk, BucketsOk, ChainsOk, ExtentsOk, UsesOk;
    var word' := PushedMem(m, cpu, r, b).word;
    PushedUses(abs, cpu, r, b);
    LiveBlock(m, abs, r);
    SuperFacts(m, abs, PageOf(r));
    SlotPage(PageOf(r), RECORD_POWER, r);
    forall a <- m.word ensures IsBlock(m.hdr, a) && a !in Live(abs) ==> word'[a] == m.word[a] {
      if IsBlock(m.hdr, a) && a !in Live(abs) {
        RecordWords(m.hdr, abs.free, Live(abs), m.word, r, a);
      }
    }
    WordsWritten(m.hdr, abs.free, Live(abs), m.word, word');
    forall q <- abs.pending ensures SameWord(m.word, word', q) && SameWord(m.word, word', q + 8) {
      RecordFacts(m, abs, q);
      RecordWords(m.hdr, abs.free, Live(abs), m.word, r, q);
      RecordWords(m.hdr, abs.free, Live(abs), m.word, q, r);
    }
    ChainsFrame(m.hdr, m.word, m.hdr, word', abs.pending, abs.chains);
    PushedChains(m.hdr, word', abs.pending, abs.chains, cpu, r, b);
  }

  lemma {:induction false} PushedUses(abs: Abs, cpu: nat, r: nat, b: nat)
    requires UsesOk(abs) && r in abs.held && b in abs.held && r != b && cpu in abs.chains
    ensures UsesOk(PushedAbs(abs, cpu, r, b)) && Live(PushedAbs(abs, cpu, r, b)) == Live(abs) && r in Live(abs)
    ensures b in Live(abs)
    ensures r !in abs.pending && b !in abs.pending && forall q <- abs.pending :: q != r && q != b && q in Live(abs)
  {
    var abs' := PushedAbs(abs, cpu, r, b);
    forall x <- abs.pending.Values ensures x in abs'.pending.Values {
      var q :| q in abs.pending && abs.pending[q] == x;
      assert abs'.pending[q] == x;
    }
    assert abs'.pending[r] == b;
    forall x <- abs'.pending.Values ensures x in abs.pending.Values + {b} {
      var q :| q in abs'.pending && abs'.pending[q] == x;
      assert q != r ==> abs.pending[q] == x;
    }
  }

  lemma {:induction false} PushedChains(hdr: map<nat, Header>, word: map<nat, nat>, pending: map<nat, nat>,
                                        chains: map<int, Chain>,
                                        cpu: nat, r: nat, b: nat)
    requires ChainsOk(hdr, word, pending, chains) && cpu in chains && chains[cpu].cpu == cpu && r !in pending && r > 0
    requires r in word && word[r] == At(chains[cpu].recs, 0) && RecordOk(hdr, word, r, b, cpu)
    ensures ChainsOk(hdr, word, pending[r := b], chains[cpu := Chain(cpu, [r] + chains[cpu].recs)])
  {
    var recs, recs' := chains[cpu].recs, [r] + chains[cpu].recs;
    var pending', chains' := pending[r := b], chains[cpu := Chain(cpu, recs')];
    assert ChainOk(hdr, word, pending, chains[cpu]);
    forall i | 0 <= i < |recs'| ensures ThreadRow(word, recs', i) {
      if i > 0 {
        assert ThreadRow(word, recs, i - 1);
      }
    }
    forall id <- chains' ensures ChainOk(hdr, word, pending', chains'[id]) {
      assert ChainOk(hdr, word, pending, chains[id]);
    }
    forall id <- chains', id' <- chains', q <- chains'[id].recs ensures id != id' ==> q !in chains'[id'].recs {
      assert ChainOk(hdr, word, pending, chains[id]) && ChainOk(hdr, word, pending, chains[id']);
      if q != r {
        assert q in chains[id].recs;
        assert id != id' ==> q !in chains[id'].recs;
      }
    }
    forall q <- pending' ensures OnChain(chains', q) {
      if q == r {
        assert r in chains'[cpu].recs;
      } else {
        assert OnChain(chains, q);
        var id :| id in chains && q in chains[id].recs;
        assert q in chains'[id].recs;
      }
    }
  }
}

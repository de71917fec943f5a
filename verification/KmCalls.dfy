/** What the allocator's calls promise, and why each of their steps keeps the promise. */
module KmCalls {
  import opened Common
  import opened Bits
  import opened KmSlots
  import opened KmState
  import opened KmList
  import opened KmSteps
  import opened KmGood
  import opened KmIntact
  import opened KmRemote
  import opened KmPow2

  const RETAIN_FREE_SUPERBLOCK_COUNT := 10
  const MIN_ALLOC := 8
  const MAX_PAGES := 65535

  /** `a` has been handed out. Nothing else changes hands and no live block is touched. */
  ghost predicate HandedOut(m: Mem, abs: Abs, m': Mem, abs': Abs, a: nat) {
    a !in Live(abs) && abs'.held == abs.held + {a} && abs'.pending == abs.pending
    && abs'.chains == abs.chains && abs'.depth == abs.depth && m'.remote == m.remote && Intact(m, m', Live(abs))
  }

  /** `a` is the start of an aligned block of a bucket of `cpu`, of the least size that holds `size` bytes. */
  ghost predicate SmallBlock(hdr: map<nat, Header>, a: nat, cpu: nat, size: nat) {
    PageOf(a) in hdr && hdr[PageOf(a)].Super? && hdr[PageOf(a)].cpu == cpu && IsPower(hdr[PageOf(a)].power)
    && RoundsUp(if size < MIN_ALLOC then MIN_ALLOC else size, Pow2(hdr[PageOf(a)].power))
    && IsSlot(PageOf(a), hdr[PageOf(a)].power, a)
  }

  /** The block `a` was first on its page's free list. A page is added only when the bucket counts no
      free block, and the page of `a` heads the bucket's list unless it is full now. */
  ghost predicate Drawn(m: Mem, m': Mem, a: nat) {
    var p := PageOf(a);
    p in m'.hdr && m'.hdr[p].Super? && KeyOf(m'.hdr[p]) in m.bucket && KeyOf(m'.hdr[p]) in m'.bucket &&
    var key := KeyOf(m'.hdr[p]);
    && m'.hdr.Keys == m.hdr.Keys + {p} && (p in m.hdr <==> m.bucket[key].freeCount > 0)
    && (p in m.hdr ==> m.hdr[p].Super? && m.hdr[p].free == a && m'.hdr[p].freeCount == m.hdr[p].freeCount - 1)
    && (m'.hdr[p].freeCount > 0 ==> m'.bucket[key].head == p)
  }

  /** The block `a` is first on its page's free list, and the page heads its bucket's list; unless
      the page is now empty in a bucket of more than enough: then it is given back. */
  ghost predicate Returned(m: Mem, m': Mem, a: nat) {
    var p := PageOf(a);
    p in m.hdr && m.hdr[p].Super? && KeyOf(m.hdr[p]) in m.bucket && KeyOf(m.hdr[p]) in m'.bucket &&
    var h, key := m.hdr[p], KeyOf(m.hdr[p]);
    && (p in m'.hdr <==>
        h.freeCount + 1 != SlotCount(Pow2(h.power)) || m.bucket[key].numSb <= RETAIN_FREE_SUPERBLOCK_COUNT)
    && (p in m'.hdr ==> m'.hdr[p].Super? && m'.hdr[p].free == a && m'.hdr[p].freeCount == h.freeCount + 1)
    && (p in m'.hdr ==> m'.bucket[key].head == p)
  }

  /** `a` is the start of a large allocation with room for `size` bytes. */
  ghost predicate LargeRoom(hdr: map<nat, Header>, a: nat, size: nat) {
    PageOf(a) in hdr && hdr[PageOf(a)].Large? && a == LargeBlock(PageOf(a)) && hdr[PageOf(a)].pages > 0
    && size <= hdr[PageOf(a)].pages * PAGE - HEADER
  }

  /** A power of two between the sizes has an exponent between theirs. */
  lemma {:induction false} PowerOfSize(n: nat, r: nat)
    requires 1 <= n <= 2048 && RoundsUp(n, r)
    ensures r <= 2048 && exists k: nat :: r == Pow2(k) && k <= 11
  {
    var k: nat :| r == Pow2(k) && n <= r && (k > 0 ==> Pow2(k - 1) < n);
    Sizes(11);
    if k > 11 {
      Pow2Order(11, k - 1);
    }
  }

  lemma {:induction false} PowerFits(n: nat, k: nat)
    requires 8 <= n <= 2048 && RoundsUp(n, Pow2(k)) && k <= 11
    ensures IsPower(k)
  {
    assert Pow2(2) == 4;
    if k < 3 {
      Pow2Order(k, 2);
    }
  }

  /** The size class of a small request. */
  method SizeClass(size: nat) returns (rounded: nat, power: nat)
    requires size <= PAGE / 2
    ensures IsPower(power) && rounded == Pow2(power) && RoundsUp(if size < MIN_ALLOC then MIN_ALLOC else size, rounded)
  {
    hide Pow2, NoGap, RoundsUp, Leads;
    rounded := MIN_ALLOC;
    EightRounds();
    if size >= MIN_ALLOC {
      rounded := NextPow2(size);
      SmallRounds(size);
    }
    ghost var n: nat := if size < MIN_ALLOC then MIN_ALLOC else size;
    PowerOfSize(n, rounded);
    power := Log2(rounded);
    PowerFound(n, rounded, power);
  }

  lemma {:induction false} EightRounds()
    ensures RoundsUp(MIN_ALLOC, MIN_ALLOC)
  {
    Sizes(3);
    assert Pow2(2) == 4 && 8 == Pow2(3);
  }

  lemma {:induction false} SmallRounds(size: nat)
    requires 0 < size <= PAGE / 2
    ensures NoGap(size - 1)
  {
    hide Pow2;
    Pow2Order(11, 37);
    Sizes(11);
    SmallNoGap(size - 1);
  }

  lemma {:induction false} PowerFound(n: nat, r: nat, power: nat)
    requires 8 <= n <= 2048 && RoundsUp(n, r) && Leads(r, power)
    ensures IsPower(power) && r == Pow2(power)
  {
    PowerOfSize(n, r);
    var k: nat :| r == Pow2(k) && k <= 11;
    LeadsPow2(r, k);
    LeadsUnique(r, k, power);
    PowerFits(n, k);
  }

  lemma {:induction false} Beyond(hdr: map<nat, Header>) returns (top: nat)
    ensures forall q <- hdr :: q + Pages(hdr[q]) <= top
    decreases |hdr|
  {
    if hdr == map[] {
      top := 0;
    } else {
      var q: nat :| q in hdr;
      var t := Beyond(hdr - {q});
      top := if t > q + Pages(hdr[q]) then t else q + Pages(hdr[q]);
      forall q' <- hdr ensures q' + Pages(hdr[q']) <= top {
        assert q' != q ==> q' in hdr - {q};
      }
    }
  }

  /** If the free blocks of a list's tail do not add up to 0 but its first superblock has none, the
      tail goes on. */
  lemma {:induction false} Above(s: set<nat>) returns (top: nat)
    ensures forall q <- s :: q < top
    decreases |s|
  {
    if s == {} {
      top := 0;
    } else {
      var q :| q in s;
      var t := Above(s - {q});
      top := if t > q then t else q + 1;
      forall q' <- s ensures q' < top {
        assert q' != q ==> q' in s - {q};
      }
    }
  }

  lemma {:induction false} TailFree(hdr: map<nat, Header>, s: seq<nat>, k: nat)
    requires k < |s| && (forall p <- s :: p in hdr && hdr[p].Super?) && FreeSum(hdr, s[k..]) > 0
    ensures hdr[s[k]].freeCount == 0 ==> k + 1 < |s| && FreeSum(hdr, s[k + 1..]) > 0
  {
    assert s[k..][1..] == s[k + 1..];
  }

  lemma {:induction false} ListShape(m: Mem, abs: Abs, key: Key)
    requires Good(m, abs) && key in m.bucket
    ensures key in abs.list && 0 !in abs.list[key] && m.bucket[key].head == At(abs.list[key], 0)
    ensures m.bucket[key].numSb == |abs.list[key]| && Chained(m.hdr, key, abs.list[key])
    ensures forall q <- abs.list[key] :: q in m.hdr && m.hdr[q].Super?
  {
    ListFacts(m, abs, key);
  }

  /** Every CPU has a bucket for every size, and a remote free list. */
  ghost predicate Configured(bucket: map<Key, Bucket>, remote: map<nat, nat>) {
    (forall cpu <- remote, power | IsPower(power) :: Key(cpu, power) in bucket)
    && forall key <- bucket :: key.cpu in remote
  }

  lemma {:induction false} ConfiguredKept(bucket: map<Key, Bucket>, bucket': map<Key, Bucket>, remote: map<nat, nat>,
                                          remote': map<nat, nat>)
    requires Configured(bucket, remote) && bucket'.Keys == bucket.Keys && remote'.Keys == remote.Keys
    ensures Configured(bucket', remote')
  {
  }

  lemma {:induction false} HasBucket(bucket: map<Key, Bucket>, remote: map<nat, nat>, cpu: nat, power: nat)
    requires Configured(bucket, remote) && cpu in remote && IsPower(power)
    ensures Key(cpu, power) in bucket
  {
  }

  lemma {:induction false} Empty(m: Mem, abs: Abs, cpus: set<nat>)
    requires m.hdr == map[] && abs.held == {} && abs.pending == map[] && abs.depth == 0
    requires m.bucket.Keys == abs.list.Keys
    requires forall cpu: nat, power: nat :: Key(cpu, power) in abs.list <==> cpu in cpus && IsPower(power)
    requires forall key <- abs.list :: abs.list[key] == [] && m.bucket[key] == Bucket(0, 0, 0, 0)
    requires m.remote == map cpu | cpu in cpus :: 0
    requires abs.chains == map cpu: nat | cpu in cpus :: cpu as int := Chain(cpu, [])
    ensures Good(m, abs) && Configured(m.bucket, m.remote)
  {
    forall key <- abs.list ensures IsPower(key.power) && BucketOk(m.hdr, key, m.bucket[key], abs.list[key]) {
      assert key == Key(key.cpu, key.power);
    }
    forall key <- m.bucket ensures key.cpu in m.remote {
      assert key == Key(key.cpu, key.power);
    }
    assert Live(abs) == {};
  }

  /** The words at the first `n` bytes from `src` stand at `dst`. */
  ghost predicate Copied(word: map<nat, nat>, src: nat, word': map<nat, nat>, dst: nat, n: nat) {
    forall i: nat | i < n && i % MIN_ALLOC == 0 :: CopiedAt(word, src + i, word', dst + i)
  }

  ghost predicate CopiedAt(word: map<nat, nat>, w: nat, word': map<nat, nat>, w': nat) {
    w in word ==> w' in word' && word'[w'] == word[w]
  }

  /** The caller holds `a` instead of `addr`, with the first `room` bytes of what stood there; no other held
      block is touched. It is a new block, with room for `size` bytes, exactly if `size` is more than `room`. */
  ghost predicate Resized(m: Mem, abs: Abs, m': Mem, abs': Abs, addr: nat, a: nat, size: nat, room: nat) {
    abs'.held == abs.held - {addr} + {a} && a > 0 && Intact(m, m', abs.held - {addr}) && Sized(m.hdr, addr)
    && (a == addr <==> size <= room) && (a == addr ==> m' == m)
    && (a != addr ==> a !in Live(abs) && RoomFor(m'.hdr, a, size) && Copied(m.word, addr, m'.word, a, room))
  }

  /** Where the header records all pages, that is what resizing should do: there is room for `size` bytes,
      and all contents are there. */
  lemma {:induction false} ResizedRight(m: Mem, abs: Abs, m': Mem, abs': Abs, addr: nat, a: nat, size: nat)
    requires PageOf(addr) in m.hdr && Sized(m.hdr, addr)
    requires (m.hdr[PageOf(addr)].Large? ==> m.hdr[PageOf(addr)].pages <= MAX_PAGES)
    requires Resized(m, abs, m', abs', addr, a, size, RoomSeen(m.hdr[PageOf(addr)]))
    ensures RoomFor(m'.hdr, a, size) && Copied(m.word, addr, m'.word, a, BlockSize(m.hdr[PageOf(addr)]))
    ensures a != addr ==> !RoomFor(m.hdr, addr, size)
  {
    RoomSeenRight(m.hdr[PageOf(addr)]);
  }

  lemma {:induction false} NotResized(m: Mem, abs: Abs, addr: nat, size: nat, room: nat)
    requires Good(m, abs) && addr in abs.held && addr > 0 && size <= room && Sized(m.hdr, addr)
    ensures Resized(m, abs, m, abs, addr, addr, size, room)
  {
    hide Good, Intact;
    HeldLive(abs);
    IntactHeaders(m, abs, m, abs.held - {addr});
  }

  /** A block that is too small is seen no larger than it is. */
  lemma {:induction false} SeenWithin(h: Header, size: nat)
    requires (h.Large? ==> h.pages > 0) && RoomSeen(h) < size && Reservable(size)
    ensures RoomSeen(h) <= BlockSize(h)
  {
  }

  lemma {:induction false} NewBlock(m0: Mem, abs0: Abs, m1: Mem, abs1: Abs, addr: nat, a: nat, size: nat, room: nat)
    requires Good(m1, abs1) && HandedOut(m0, abs0, m1, abs1, a) && addr in abs0.held && Sized(m0.hdr, addr)
    requires RoomFor(m1.hdr, a, size) && size > room && room <= BlockSize(m0.hdr[PageOf(addr)])
    ensures (a + room <= addr || addr + room <= a) && room <= BlockSize(m1.hdr[PageOf(a)])
    ensures addr in abs1.held && a in abs1.held && addr != a
  {
    hide Good;
    HeldLive(abs0);
    HeldLive(abs1);
    LiveBlock(m1, abs1, addr);
    LiveBlock(m1, abs1, a);
    BlocksApart(m1, abs1, addr, a);
  }

  lemma {:induction false} CopiedInto(m1: Mem, abs1: Abs, m2: Mem, addr: nat, a: nat, room: nat)
    requires Good(m1, abs1) && a in abs1.held && Sized(m1.hdr, a) && room <= BlockSize(m1.hdr[PageOf(a)])
    requires m2 == m1.(word := m2.word)
    requires forall w <- m1.word :: w in m2.word && (m2.word[w] == m1.word[w] || a <= w < a + room)
    ensures Good(m2, abs1) && Intact(m1, m2, Live(abs1) - {a})
  {
    hide Good, Live, Intact;
    GoodWritten(m1, abs1, a, m2.word);
  }

  lemma {:induction false} Moved(m0: Mem, abs0: Abs, m1: Mem, abs1: Abs, m2: Mem, m3: Mem, abs3: Abs, addr: nat, a: nat,
                                 size: nat, room: nat, cpu: nat)
    requires HandedOut(m0, abs0, m1, abs1, a) && a > 0 && RoomFor(m1.hdr, a, size) && addr in abs0.held && addr != a
    requires Sized(m0.hdr, addr) && room <= BlockSize(m0.hdr[PageOf(addr)]) && room < size && m2.hdr == m1.hdr
    requires Copied(m1.word, addr, m2.word, a, room)
    requires Intact(m1, m2, Live(abs1) - {a}) && Freed(m2, abs1, m3, abs3, addr, cpu)
    ensures Resized(m0, abs0, m3, abs3, addr, a, size, room)
  {
    hide Intact;
    HeldLive(abs0);
    HeldLive(abs1);
    assert abs3.held == abs0.held - {addr} + {a};
    var keep := abs0.held - {addr};
    IntactLess(m0, m1, Live(abs0), keep);
    IntactLess(m1, m2, Live(abs1) - {a}, keep);
    IntactLess(m2, m3, abs3.held, keep);
    IntactTransitive(m0, m1, m2, keep, keep);
    IntactTransitive(m0, m2, m3, keep, keep);
    IntactLess(m0, m1, Live(abs0), {addr});
    IntactLess(m2, m3, abs3.held, {a});
    CopiedThrough(m0, m1, m2, m3, addr, a, room);
  }

  lemma {:induction false} CopiedThrough(m0: Mem, m1: Mem, m2: Mem, m3: Mem, addr: nat, a: nat, n: nat)
    requires Intact(m0, m1, {addr}) && Sized(m0.hdr, addr) && n <= BlockSize(m0.hdr[PageOf(addr)])
    requires Copied(m1.word, addr, m2.word, a, n) && Intact(m2, m3, {a}) && Sized(m2.hdr, a)
    requires n <= BlockSize(m2.hdr[PageOf(a)])
    ensures Copied(m0.word, addr, m3.word, a, n) && Sized(m3.hdr, a)
    ensures BlockSize(m3.hdr[PageOf(a)]) == BlockSize(m2.hdr[PageOf(a)])
  {
    assert a in {a} && addr in {addr};
    assert WordsKept(m0.hdr, m0.word, m1.word, addr) && WordsKept(m2.hdr, m2.word, m3.word, a);
    forall i: nat | i < n && i % MIN_ALLOC == 0 ensures CopiedAt(m0.word, addr + i, m3.word, a + i) {
      assert CopiedAt(m1.word, addr + i, m2.word, a + i);
      assert Within(m0.hdr, addr, addr + i) && Within(m2.hdr, a, a + i);
    }
  }

  ghost predicate IsLocal(m: Mem, a: nat, cpu: nat) {
    PageOf(a) in m.hdr && m.hdr[PageOf(a)].Super? && m.hdr[PageOf(a)].cpu == cpu
  }

  ghost predicate IsRemote(m: Mem, a: nat, cpu: nat) {
    PageOf(a) in m.hdr && m.hdr[PageOf(a)].Super? && m.hdr[PageOf(a)].cpu != cpu
  }

  ghost predicate InFlightKept(abs: Abs, abs': Abs) {
    forall id <- abs.chains :: id < 0 ==> id in abs'.chains && abs'.chains[id] == abs.chains[id]
  }

  /** Records other than those on `done` wait as before. */
  ghost predicate KeptPending(abs: Abs, abs': Abs, done: seq<nat>) {
    forall r <- abs.pending :: r !in done ==> r in abs'.pending && abs'.pending[r] == abs.pending[r]
  }

  /** The remote free list of `cpu` has been worked through: no held block is touched, and for each
      record served the CPU that made it is asked to free it, so that as many frees wait as before. */
  ghost predicate Drained(m: Mem, abs: Abs, m': Mem, abs': Abs, cpu: nat) {
    abs'.held == abs.held && abs'.depth == abs.depth && Intact(m, m', abs'.held) && m'.remote.Keys == m.remote.Keys
    && InFlightKept(abs, abs') && cpu in abs.chains && cpu in abs'.chains && abs'.chains[cpu].recs == []
    && |abs'.pending| == |abs.pending| && KeptPending(abs, abs', abs.chains[cpu].recs)
  }

  /** `a` is free or, when another CPU owns it, waits to be; no other held block is touched. The number of
      frees that wait for another CPU never goes down. */
  ghost predicate Freed(m: Mem, abs: Abs, m': Mem, abs': Abs, a: nat, cpu: nat) {
    abs'.held == abs.held - {a} && abs'.depth == abs.depth && Intact(m, m', abs'.held)
    && m'.remote.Keys == m.remote.Keys
    && InFlightKept(abs, abs') && cpu in abs.chains && cpu in abs'.chains
    && |abs'.pending| == |abs.pending| + (if IsRemote(m, a, cpu) then 1 else 0)
    && (if IsLocal(m, a, cpu) then abs'.chains[cpu].recs == [] && KeptPending(abs, abs', abs.chains[cpu].recs)
        else abs'.chains[cpu] == abs.chains[cpu] && KeptPending(abs, abs', []))
    && (if IsRemote(m, a, cpu) then a in abs'.pending.Values else a !in Live(abs'))
  }

  /** The state while the list `top` is being worked through. */
  ghost predicate Draining(m: Mem, abs: Abs, m': Mem, abs': Abs, cpu: nat, top: int) {
    abs'.held == abs.held && abs'.depth == abs.depth + 1 && Intact(m, m', abs'.held) && m'.remote.Keys == m.remote.Keys
    && InFlightKept(abs, abs') && cpu in abs.chains && cpu in abs'.chains && abs'.chains[cpu].recs == []
    && |abs'.pending| == |abs.pending| && KeptPending(abs, abs', abs.chains[cpu].recs)
    && top == 0 - abs.depth - 1 && top !in abs.chains && top in abs'.chains && abs'.chains[top].cpu == cpu
    && (forall r <- abs'.chains[top].recs :: r in abs.chains[cpu].recs)
  }

  /** `a` is free again; nothing else changes hands and no other live block is touched. */
  ghost predicate GivenBack(m: Mem, abs: Abs, m': Mem, abs': Abs, a: nat) {
    abs'.held == abs.held - {a} && abs'.pending == abs.pending && abs'.chains == abs.chains && abs'.depth == abs.depth
    && m'.remote == m.remote && Intact(m, m', Live(abs')) && Live(abs') == Live(abs) - {a}
  }

  /** `a` waits to be freed by its owner, in the fresh record `r`. */
  ghost predicate Asked(m: Mem, abs: Abs, m': Mem, abs': Abs, a: nat, r: nat) {
    r !in Live(abs) && abs'.held == abs.held - {a} && abs'.pending == abs.pending[r := a] && abs'.depth == abs.depth
    && m'.remote.Keys == m.remote.Keys && Intact(m, m', abs'.held) && a in Live(abs) && IsBlock(m.hdr, a)
    && m.hdr[PageOf(a)].Super?
    && var owner := m.hdr[PageOf(a)].cpu;
       owner in abs.chains && abs'.chains == abs.chains[owner := Chain(owner, [r] + abs.chains[owner].recs)]
  }

  /** The page count of a request fits an int. */
  predicate Reservable(size: nat) {
    size < 0x7FFF_FFFF * PAGE - HEADER
  }

  /** It is the count asked for exactly up to that size. */
  lemma {:induction false} CountReserved(size: nat)
    requires size + HEADER < WORD
    ensures AsInt((size + HEADER) / PAGE + 1) == (size + HEADER) / PAGE + 1 <==> Reservable(size)
  {
  }

  /** The count that the header records: 16 bits. */
  function Recorded(pages: nat): nat {
    pages % 0x1_0000
  }

  /** The count a header records is the count that was reserved exactly up to that size. */
  lemma {:induction false} CountRecorded(size: nat)
    ensures var pages := (size + HEADER) / PAGE + 1; Recorded(pages) == pages <==> size < MAX_PAGES * PAGE - HEADER
  {
  }

  /** The pages that stay reserved for good when `a` is freed: those its header does not record. */
  function CutOff(hdr: map<nat, Header>, a: nat): set<nat> {
    var p := PageOf(a);
    if p in hdr && hdr[p].Large? then PageRange(p + Recorded(hdr[p].pages), p + hdr[p].pages) else {}
  }

  predicate FromTo(q: nat, lo: nat, hi: nat) {
    lo <= q < hi
  }

  function PageRange(lo: nat, hi: nat): set<nat> {
    set q: nat | lo <= q < hi && FromTo(q, lo, hi)
  }

  lemma {:induction false} NothingCutOff(hdr: map<nat, Header>, a: nat)
    requires PageOf(a) in hdr
    ensures CutOff(hdr, a) == {} <==> hdr[PageOf(a)].Super? || hdr[PageOf(a)].pages <= MAX_PAGES
  {
    if hdr[PageOf(a)].Large? && hdr[PageOf(a)].pages > MAX_PAGES {
      var p, n := PageOf(a), hdr[PageOf(a)].pages;
      assert Recorded(n) < n && FromTo(p + n - 1, p + Recorded(n), p + n);
      assert p + n - 1 in CutOff(hdr, a);
    }
  }

  lemma {:induction false} SmallCutOff(m: Mem, a: nat, cpu: nat)
    requires IsLocal(m, a, cpu) || IsRemote(m, a, cpu)
    ensures CutOff(m.hdr, a) == {}
  {
  }

  lemma {:induction false} CutOffSame(m: Mem, abs: Abs, m': Mem, a: nat)
    requires Intact(m, m', Live(abs)) && a in abs.held
    ensures CutOff(m'.hdr, a) == CutOff(m.hdr, a)
  {
    assert BlockKept(m.hdr, m'.hdr, a);
  }

  /** The room `krealloc` sees in a block, in 64-bit arithmetic. */
  function RoomSeen(h: Header): nat {
    if h.Super? then Pow2(h.power) else (Recorded(h.pages) * PAGE + WORD - HEADER) % WORD
  }

  /** It is the room there is exactly if the header records all pages. */
  lemma {:induction false} RoomSeenRight(h: Header)
    requires h.Large? ==> 0 < h.pages < 0x8000_0000
    ensures RoomSeen(h) == BlockSize(h) <==> h.Super? || h.pages <= MAX_PAGES
  {
  }

  /** Otherwise it is less, or, for a multiple of 65536 pages, more than any request. */
  lemma {:induction false} RoomSeenWrong(h: Header)
    requires h.Large? && MAX_PAGES < h.pages
    ensures if Recorded(h.pages) == 0 then RoomSeen(h) == WORD - HEADER else RoomSeen(h) < BlockSize(h)
  {
  }

  ghost predicate RoomFor(hdr: map<nat, Header>, a: nat, size: nat) {
    Sized(hdr, a) && size <= BlockSize(hdr[PageOf(a)])
  }

  lemma {:induction false} Placed(m: Mem, abs: Abs, a: nat, size: nat, cpu: nat)
    requires Good(m, abs) && if size <= PAGE / 2 then SmallBlock(m.hdr, a, cpu, size) else LargeRoom(m.hdr, a, size)
    ensures a > 0 && a % MIN_ALLOC == 0 && RoomFor(m.hdr, a, size)
  {
    hide Good;
    BlockExtent(m, abs, a);
    if size <= PAGE / 2 {
      var k := m.hdr[PageOf(a)].power;
      Sizes(k);
      SlotPage(PageOf(a), k, a);
      var i :| 0 <= i < SlotCount(Pow2(k)) && a == SlotAt(PageOf(a), k, i);
      EightDivides(k, a);
    }
  }

  lemma {:induction false} EightDivides(k: nat, a: nat)
    requires IsPower(k) && a % Pow2(k) == 0
    ensures a % 8 == 0
  {
    Sizes(k);
  }

  lemma {:induction false} UnusedRun(m: Mem, abs: Abs, p: nat, n: nat)
    requires Good(m, abs) && FreshPages(m.hdr, p, n) && n > 0
    ensures p !in m.hdr
  {
    hide BlocksOk, ExtentsOk, BucketsOk, ChainsOk, RemoteOk, UsesOk;
    assert p in m.hdr ==> PageOk(p, m.hdr[p], abs.free, Live(abs), m.word);
  }

  lemma {:induction false} CountFacts(m: Mem, abs: Abs, p: nat)
    requires Good(m, abs) && p in m.hdr && m.hdr[p].Super?
    ensures KeyOf(m.hdr[p]) in m.bucket && m.bucket[KeyOf(m.hdr[p])].freeCount >= m.hdr[p].freeCount
  {
    hide PagesOk, BlocksOk, ExtentsOk, BucketsOk, ChainsOk, RemoteOk, UsesOk;
    SuperFacts(m, abs, p);
    ListFacts(m, abs, KeyOf(m.hdr[p]));
    var s := abs.list[KeyOf(m.hdr[p])];
    var k :| 0 <= k < |s| && s[k] == p;
    FreeSumWithout(m.hdr, s, k);
  }

  /** Headers may change in whatever does not matter to blocks. */
  lemma {:induction false} IntactHeaders(m: Mem, abs: Abs, m': Mem, keep: set<nat>)
    requires Good(m, abs) && m'.word == m.word && keep <= Live(abs)
    requires forall p <- m.hdr :: p in m'.hdr && BlockKind(m.hdr[p], m'.hdr[p])
    ensures Intact(m, m', keep)
  {
    hide PagesOk, BlocksOk, ExtentsOk, BucketsOk, ChainsOk, RemoteOk, UsesOk, Live;
    forall a <- keep ensures IsBlock(m.hdr, a) && BlockKept(m.hdr, m'.hdr, a) {
      LiveBlock(m, abs, a);
    }
    IntactWrites(m, abs, m', keep);
  }

  lemma {:induction false} IntactRelinked(m: Mem, abs: Abs, m': Mem, s: seq<nat>)
    requires Good(m, abs) && m'.word == m.word && Relinked(m.hdr, m'.hdr, s)
    ensures Intact(m, m', Live(abs))
  {
    hide Good, Live, Intact;
    IntactHeaders(m, abs, m', Live(abs));
  }

  lemma {:induction false} IntactSame(m: Mem, abs: Abs, m': Mem)
    requires Good(m, abs) && m' == m
    ensures Intact(m, m', Live(abs))
  {
    hide Good, Live, Intact;
    IntactHeaders(m, abs, m', Live(abs));
  }

  lemma SameLive(abs: Abs, abs': Abs)
    requires abs'.held == abs.held && abs'.pending == abs.pending
    ensures Live(abs') == Live(abs)
  {
  }

  /** Handing out after steps that change nothing for anyone. */
  lemma {:induction false} HandedOutAfter(m: Mem, abs: Abs, m1: Mem, abs1: Abs, m': Mem, abs': Abs, a: nat)
    requires Intact(m, m1, Live(abs)) && abs1.held == abs.held && abs1.pending == abs.pending && Live(abs1) == Live(abs)
    requires abs1.chains == abs.chains && abs1.depth == abs.depth && m1.remote == m.remote
    requires HandedOut(m1, abs1, m', abs', a)
    ensures HandedOut(m, abs, m', abs', a)
  {
    hide Intact, Live;
    IntactTransitive(m, m1, m', Live(abs), Live(abs1));
  }

  /** A page clear of all headers is none of them. */
  lemma {:induction false} Unused(m: Mem, abs: Abs, p: nat)
    requires Good(m, abs) && FreshPages(m.hdr, p, 1)
    ensures p > 0 && p !in m.hdr
  {
    hide BlocksOk, ExtentsOk, BucketsOk, ChainsOk, RemoteOk, UsesOk;
    assert p in m.hdr ==> PageOk(p, m.hdr[p], abs.free, Live(abs), m.word);
  }

  /** The state with a fresh superblock in it. */
  lemma {:induction false} Grown(m: Mem, abs: Abs, m': Mem, p: nat, h: Header, s: seq<nat>)
    requires Good(m, abs) && FreshPages(m.hdr, p, 1) && p !in m.hdr && h.Super? && KeyOf(h) in m.bucket
    requires m'.remote == m.remote
    requires h.freeCount == SlotCount(Pow2(h.power)) && IsPower(h.power)
    requires FreeListOk(p, h, AllSlots(p, h.power), m'.word)
    requires forall a <- m.word :: a in m'.word && (PageOf(a) != p ==> m'.word[a] == m.word[a])
    requires KeyOf(h) in abs.list && s == abs.list[KeyOf(h)] && FrontedRowsOf(m.hdr[p := h], m'.hdr, s, p)
    requires m'.bucket == m.bucket[KeyOf(h) :=
      Bucket(p, Pow2(h.power), m.bucket[KeyOf(h)].freeCount + h.freeCount, m.bucket[KeyOf(h)].numSb + 1)]
    ensures Good(m', abs.(free := abs.free[p := AllSlots(p, h.power)], list := abs.list[KeyOf(h) := [p] + s]))
    ensures Intact(m, m', Live(abs))
    ensures p in m'.hdr && BlockKind(h, m'.hdr[p]) && m'.hdr[p].freeCount > 0
  {
    hide Good, FreeListOk, FreshPages, Live, Intact, FrontedRows, AllSlots;
    GoodGrown(m, abs, h, p, m'.word, m'.hdr, m'.bucket[KeyOf(h)]);
    IntactGrown(m, abs, m', p, h, s);
    Sizes(h.power);
  }

  lemma {:induction false} IntactGrown(m: Mem, abs: Abs, m': Mem, p: nat, h: Header, s: seq<nat>)
    requires Good(m, abs) && FreshPages(m.hdr, p, 1) && p !in m.hdr && FrontedRowsOf(m.hdr[p := h], m'.hdr, s, p)
    requires forall a <- m.word :: a in m'.word && (PageOf(a) != p ==> m'.word[a] == m.word[a])
    ensures Intact(m, m', Live(abs))
    ensures p in m'.hdr && BlockKind(h, m'.hdr[p]) && h.Super? && m'.hdr[p].freeCount == h.freeCount
  {
    hide PagesOk, BlocksOk, ExtentsOk, BucketsOk, ChainsOk, RemoteOk, UsesOk, Live;
    forall a <- Live(abs) ensures IsBlock(m.hdr, a) && BlockKept(m.hdr, m'.hdr, a) {
      LiveBlock(m, abs, a);
    }
    forall w <- m.word ensures (w in m'.word && m'.word[w] == m.word[w]) || Outside(m.hdr, Live(abs), w) {
      if PageOf(w) == p {
        OutsideFresh(m, abs, Live(abs), p, 1, w);
      }
    }
    IntactWrites(m, abs, m', Live(abs));
  }

  lemma {:induction false} NextSlot(p: nat, k: nat, i: nat)
    ensures SlotAt(p, k, i) + Pow2(k) == SlotAt(p, k, i + 1)
    ensures forall j: nat | j < i :: SlotAt(p, k, j) < SlotAt(p, k, i)
  {
    forall j: nat | j < i ensures SlotAt(p, k, j) < SlotAt(p, k, i) {
      SlotsApart(p, k, j, i);
    }
  }

  /** The first `n` links of a superblock lead from slot to slot. */
  ghost predicate Threads(word: map<nat, nat>, p: nat, k: nat, n: nat) {
    forall j | 0 <= j < n :: SlotAt(p, k, j) in word && word[SlotAt(p, k, j)] == SlotAt(p, k, j + 1)
  }

  lemma {:induction false} NoThreads(word: map<nat, nat>, p: nat, k: nat)
    ensures Threads(word, p, k, 0)
  {
  }

  lemma {:induction false} ThreadsOn(word: map<nat, nat>, p: nat, k: nat, n: nat)
    requires Threads(word, p, k, n)
    ensures Threads(word[SlotAt(p, k, n) := SlotAt(p, k, n + 1)], p, k, n + 1)
  {
    NextSlot(p, k, n);
  }

  lemma {:induction false} AllSlotsFree(p: nat, h: Header, word: map<nat, nat>)
    requires h.Super? && IsPower(h.power) && h.freeCount == SlotCount(Pow2(h.power)) && h.free == SlotAt(p, h.power, 0)
    requires h.freeCount > 0 && Threads(word, p, h.power, h.freeCount - 1)
    ensures FreeListOk(p, h, AllSlots(p, h.power), word)
  {
    var fl := AllSlots(p, h.power);
    forall i, j | 0 <= i < j < |fl| ensures fl[i] != fl[j] {
      AllSlotsDistinct(p, h.power, i, j);
    }
  }

  lemma {:induction false} IntactReleased(m: Mem, abs: Abs, m': Mem, hdr1: map<nat, Header>, s: seq<nat>, p: nat)
    requires Good(m, abs) && Relinked(m.hdr, hdr1, s) && m'.hdr == hdr1 - {p} && m'.word == m.word
    requires forall a <- Live(abs) :: PageOf(a) != p
    ensures Intact(m, m', Live(abs))
  {
    hide PagesOk, BlocksOk, ExtentsOk, BucketsOk, ChainsOk, RemoteOk, UsesOk, Live;
    forall a <- Live(abs) ensures IsBlock(m.hdr, a) && BlockKept(m.hdr, m'.hdr, a) {
      LiveBlock(m, abs, a);
    }
    IntactWrites(m, abs, m', Live(abs));
  }

  lemma {:induction false} LiveWithout(m: Mem, abs: Abs, a: nat)
    requires Good(m, abs) && a in abs.held
    ensures forall free :: Live(abs.(free := free, held := abs.held - {a})) == Live(abs) - {a}
    ensures a in Live(abs) && IsBlock(m.hdr, a)
  {
    HeldLess(abs, abs.free, a);
  }

  lemma {:induction false} IntactPut(m: Mem, abs: Abs, m': Mem, a: nat)
    requires Good(m, abs) && a in Live(abs) && IsBlock(m.hdr, a)
    requires forall w <- m.word :: w in m'.word && (w != a ==> m'.word[w] == m.word[w])
    requires forall p <- m.hdr :: p in m'.hdr && BlockKind(m.hdr[p], m'.hdr[p])
    ensures Intact(m, m', Live(abs) - {a})
  {
    hide PagesOk, BlocksOk, ExtentsOk, BucketsOk, ChainsOk, RemoteOk, UsesOk, Live, Within, IsBlock;
    var keep := Live(abs) - {a};
    forall b <- keep ensures IsBlock(m.hdr, b) && BlockKept(m.hdr, m'.hdr, b) {
      LiveBlock(m, abs, b);
      BlockExtent(m, abs, b);
    }
    forall w <- m.word ensures (w in m'.word && m'.word[w] == m.word[w]) || Outside(m.hdr, keep, w) {
      if w == a {
        BlockExtent(m, abs, a);
        StartWithin(m.hdr, a);
        OutsideOthers(m, abs, keep, a, a);
      }
    }
    IntactWrites(m, abs, m', keep);
  }

  lemma {:induction false} StartWithin(hdr: map<nat, Header>, a: nat)
    requires Sized(hdr, a) && BlockSize(hdr[PageOf(a)]) > 0
    ensures Within(hdr, a, a)
  {
  }

  lemma {:induction false} IntactBuckets(m: Mem, m1: Mem, m': Mem, keep: set<nat>)
    requires Intact(m, m1, keep) && m'.hdr == m1.hdr && m'.word == m1.word
    ensures Intact(m, m', keep)
  {
  }

  lemma {:induction false} SlotCounts(size: nat)
    requires size > 0
    ensures SlotCount(size) == (PAGE - HEADER) / size
  {
  }

  lemma {:induction false} IntactDropped(m: Mem, abs: Abs, m': Mem, a: nat)
    requires Good(m, abs) && a in Live(abs) && m'.word == m.word && m'.hdr == m.hdr - {PageOf(a)}
    requires forall b <- Live(abs) :: b != a ==> PageOf(b) != PageOf(a)
    ensures Intact(m, m', Live(abs) - {a})
  {
    hide PagesOk, BlocksOk, ExtentsOk, BucketsOk, ChainsOk, RemoteOk, UsesOk, Live;
    var keep := Live(abs) - {a};
    forall b <- keep ensures IsBlock(m.hdr, b) && BlockKept(m.hdr, m'.hdr, b) {
      LiveBlock(m, abs, b);
    }
    IntactWrites(m, abs, m', keep);
  }

  /** A block for a record has the size of one. */
  lemma {:induction false} RecordBlock(hdr: map<nat, Header>, r: nat, cpu: nat)
    requires SmallBlock(hdr, r, cpu, 16)
    ensures PageOf(r) in hdr && hdr[PageOf(r)].Super? && hdr[PageOf(r)].power == RECORD_POWER
    ensures hdr[PageOf(r)].cpu == cpu
    ensures IsSlot(PageOf(r), RECORD_POWER, r)
  {
    var k := hdr[PageOf(r)].power;
    Sizes(k);
    var j: nat :| Pow2(k) == Pow2(j) && (j > 0 ==> Pow2(j - 1) < 16);
    Sizes(4);
    if j > 4 {
      Pow2Order(4, j - 1);
    }
    Pow2Order(j, 4);
  }

  lemma {:induction false} KeptHeader(m: Mem, m': Mem, keep: set<nat>, a: nat, abs: Abs)
    requires Intact(m, m', keep) && a in abs.held && keep == Live(abs)
    ensures a in keep && BlockKept(m.hdr, m'.hdr, a)
  {
  }

  lemma {:induction false} HasRemote(m: Mem, abs: Abs, a: nat)
    requires Good(m, abs) && Configured(m.bucket, m.remote) && PageOf(a) in m.hdr && m.hdr[PageOf(a)].Super?
    ensures m.hdr[PageOf(a)].cpu in m.remote && m.hdr[PageOf(a)].cpu in abs.chains
  {
    hide PagesOk, BlocksOk, ExtentsOk, BucketsOk, ChainsOk, UsesOk;
    SuperFacts(m, abs, PageOf(a));
  }

  lemma {:induction false} IntactPushed(m: Mem, abs: Abs, m': Mem, r: nat, a: nat)
    requires Good(m, abs) && r in abs.held && m'.hdr == m.hdr
    requires PageOf(r) in m.hdr && m.hdr[PageOf(r)].Super? && m.hdr[PageOf(r)].power == RECORD_POWER
    requires forall w <- m.word :: w in m'.word && (w != r && w != r + 8 ==> m'.word[w] == m.word[w])
    ensures Intact(m, m', abs.held - {r, a})
  {
    hide PagesOk, BlocksOk, ExtentsOk, BucketsOk, ChainsOk, RemoteOk, UsesOk, Within, IsBlock;
    var keep := abs.held - {r, a};
    LiveBlock(m, abs, r);
    forall b <- keep ensures IsBlock(m.hdr, b) && BlockKept(m.hdr, m'.hdr, b) {
      LiveBlock(m, abs, b);
      BlockExtent(m, abs, b);
    }
    BlockExtent(m, abs, r);
    RecordWithin(m.hdr, r);
    OutsideOthers(m, abs, keep, r, r);
    OutsideOthers(m, abs, keep, r, r + 8);
    IntactWrites(m, abs, m', keep);
  }

  lemma {:induction false} RecordWithin(hdr: map<nat, Header>, r: nat)
    requires PageOf(r) in hdr && hdr[PageOf(r)].Super? && hdr[PageOf(r)].power == RECORD_POWER
    ensures Sized(hdr, r) && Within(hdr, r, r) && Within(hdr, r, r + 8)
  {
    Sizes(RECORD_POWER);
  }

  lemma HeldLive(abs: Abs)
    ensures abs.held <= Live(abs)
  {
  }

  // ---------------------------------------------------------------- steps of a drain

  lemma {:induction false} DetachedFacts(m: Mem, abs: Abs, m': Mem, abs': Abs, cpu: nat)
    requires Good(m, abs) && cpu in abs.chains && abs.chains[cpu].cpu == cpu && abs' == DetachedAbs(abs, cpu)
    requires m' == m.(remote := m'.remote) && m'.remote.Keys == m.remote.Keys && Top(abs') !in abs.chains
    ensures Draining(m, abs, m', abs', cpu, Top(abs')) && abs'.chains[Top(abs')].recs == abs.chains[cpu].recs
  {
    hide Good, Intact;
    HeldLive(abs);
    IntactHeaders(m, abs, m', abs.held);
  }

  lemma {:induction false} NotNull(m: Mem, abs: Abs, top: int, rf: nat)
    requires Good(m, abs) && top in abs.chains && rf == At(abs.chains[top].recs, 0) && rf != 0
    ensures abs.chains[top].recs != []
  {
  }

  lemma {:induction false} AllServed(m: Mem, abs: Abs, top: int)
    requires Good(m, abs) && top in abs.chains && At(abs.chains[top].recs, 0) == 0
    ensures |abs.chains[top].recs| == 0
  {
    hide PagesOk, BlocksOk, ExtentsOk, BucketsOk, RemoteOk, UsesOk;
    var recs := abs.chains[top].recs;
    assert ChainOk(m.hdr, m.word, abs.pending, abs.chains[top]);
    assert 0 !in recs;
  }

  lemma {:induction false} RecordWord(m: Mem, r: nat, b: nat, cpu: nat)
    requires RecordOk(m.hdr, m.word, r, b, cpu)
    ensures r + 8 in m.word && m.word[r + 8] == b && IsLocal(m, b, cpu) && IsRemote(m, r, cpu)
  {
  }

  lemma {:induction false} TakenKept(abs0: Abs, abs1: Abs, abs2: Abs, r: nat, top: int)
    requires top == Top(abs1) && top in abs1.chains && abs1.chains[top].recs != [] && r == abs1.chains[top].recs[0]
    requires r in abs1.pending
    requires abs2 == RecordTakenAbs(abs1, top, r)
    ensures |abs2.pending| == |abs1.pending| - 1 && abs2.chains[top].recs == abs1.chains[top].recs[1..]
    ensures forall id <- abs1.chains :: id != top ==> id in abs2.chains && abs2.chains[id] == abs1.chains[id]
    ensures forall q <- abs1.pending :: q != r ==> q in abs2.pending && abs2.pending[q] == abs1.pending[q]
  {
    assert abs1.pending.Keys == abs2.pending.Keys + {r};
    assert |abs1.pending.Keys| == |abs1.pending| && |abs2.pending.Keys| == |abs2.pending|;
  }

  lemma {:induction false} StillRemote(m: Mem, abs: Abs, m': Mem, abs': Abs, r: nat, b: nat, cpu: nat)
    requires Freed(m, abs, m', abs', b, cpu) && r in abs.held && r != b && IsRemote(m, r, cpu)
    ensures r in abs'.held && IsRemote(m', r, cpu)
  {
  }

  /** The first record `r` asks to free `b`, and both are taken in hand. */
  ghost predicate RecordRead(m: Mem, abs: Abs, r: nat, b: nat, abs': Abs) {
    FirstRecord(m, abs, Top(abs), r) && b == abs.pending[r] && abs' == RecordTakenAbs(abs, Top(abs), r)
    && |abs'.pending| == |abs.pending| - 1
  }

  ghost predicate OneServed(abs: Abs, abs': Abs, top: int) {
    top in abs.chains && top in abs'.chains && abs.chains[top].recs != []
    && abs'.chains[top].recs == abs.chains[top].recs[1..]
  }

  lemma {:induction false} DrainStep(m0: Mem, abs0: Abs, m1: Mem, abs1: Abs, abs2: Abs, m3: Mem, abs3: Abs, m4: Mem,
                                     abs4: Abs,
                                     r: nat, b: nat, cpu: nat, top: int)
    requires Draining(m0, abs0, m1, abs1, cpu, top) && RecordRead(m1, abs1, r, b, abs2)
    requires Freed(m1, abs2, m3, abs3, b, cpu) && IsLocal(m1, b, cpu) && Freed(m3, abs3, m4, abs4, r, cpu)
    requires IsRemote(m3, r, cpu)
    ensures Draining(m0, abs0, m4, abs4, cpu, top) && OneServed(abs1, abs4, top)
  {
    hide Intact, Live, BlockSize;
    assert r in abs1.chains[top].recs;
    forall q <- abs4.chains[top].recs ensures q in abs0.chains[cpu].recs {
      assert q in abs1.chains[top].recs;
    }
    assert abs4.held == abs1.held;
    assert abs4.held <= abs3.held <= abs2.held;
    IntactTransitive(m1, m3, m4, abs3.held, abs4.held);
    IntactTransitive(m0, m1, m4, abs1.held, abs4.held);
    forall q <- abs0.pending ensures q !in abs0.chains[cpu].recs ==>
      q in abs4.pending && abs4.pending[q] == abs0.pending[q] {
      if q !in abs0.chains[cpu].recs {
        assert q in abs1.pending && q != r;
        assert q in abs2.pending && q in abs3.pending;
      }
    }
    forall id <- abs0.chains ensures id < 0 ==> id in abs4.chains && abs4.chains[id] == abs0.chains[id] {
      if id < 0 {
        assert id in abs1.chains && id != top && id in abs2.chains && id in abs3.chains;
      }
    }
  }

  lemma {:induction false} DrainEnd(m0: Mem, abs0: Abs, m: Mem, abs: Abs, cpu: nat, top: int)
    requires Draining(m0, abs0, m, abs, cpu, top)
    ensures Drained(m0, abs0, m, FlightEndedAbs(abs), cpu)
  {
    hide Intact;
  }

  lemma {:induction false} HeldBlock(m: Mem, abs: Abs, a: nat, cpu: nat)
    requires Good(m, abs) && cpu in m.remote && a in abs.held
    ensures PageOf(a) in m.hdr && cpu in abs.chains && IsBlock(m.hdr, a)
  {
    hide PagesOk, BlocksOk, ExtentsOk, BucketsOk, ChainsOk, UsesOk;
    LiveBlock(m, abs, a);
  }

  lemma {:induction false} StillHeld(m: Mem, abs: Abs, m': Mem, abs': Abs, a: nat, cpu: nat)
    requires Drained(m, abs, m', abs', cpu) && a in abs.held && IsLocal(m, a, cpu)
    ensures a in abs'.held && IsLocal(m', a, cpu)
  {
  }

  lemma {:induction false} FreedLarge(m: Mem, abs: Abs, m': Mem, abs': Abs, a: nat, cpu: nat)
    requires GivenBack(m, abs, m', abs', a) && PageOf(a) in m.hdr && m.hdr[PageOf(a)].Large? && cpu in abs.chains
    ensures Freed(m, abs, m', abs', a, cpu)
  {
    HeldLive(abs');
  }

  lemma {:induction false} FreedRemote(m: Mem, abs: Abs, m': Mem, abs': Abs, a: nat, r: nat, cpu: nat)
    requires Asked(m, abs, m', abs', a, r) && IsRemote(m, a, cpu) && cpu in abs.chains
    ensures Freed(m, abs, m', abs', a, cpu)
  {
    hide Intact, IsBlock, Live;
    PendingMore(abs, abs', r, a);
  }

  lemma {:induction false} PendingMore(abs: Abs, abs': Abs, r: nat, a: nat)
    requires r !in Live(abs) && abs'.pending == abs.pending[r := a]
    ensures |abs'.pending| == |abs.pending| + 1 && a in abs'.pending.Values && KeptPending(abs, abs', [])
  {
    assert abs'.pending.Keys == abs.pending.Keys + {r};
    assert |abs.pending.Keys| == |abs.pending| && |abs'.pending.Keys| == |abs'.pending|;
    assert abs'.pending[r] == a;
  }

  lemma {:induction false} FreedLocal(m: Mem, abs: Abs, m1: Mem, abs1: Abs, m': Mem, abs': Abs, a: nat, cpu: nat)
    requires Drained(m, abs, m1, abs1, cpu) && GivenBack(m1, abs1, m', abs', a) && IsLocal(m, a, cpu)
    ensures Freed(m, abs, m', abs', a, cpu)
  {
    hide Intact, Live, KeptPending, InFlightKept;
    assert InFlightKept(abs, abs') && KeptPending(abs, abs', abs.chains[cpu].recs) by {
      KeptSame(abs, abs1, abs', abs.chains[cpu].recs);
    }
    HeldLive(abs');
    IntactLess(m1, m', Live(abs'), abs'.held);
    IntactTransitive(m, m1, m', abs1.held, abs'.held);
  }

  lemma {:induction false} KeptSame(abs: Abs, abs1: Abs, abs': Abs, done: seq<nat>)
    requires InFlightKept(abs, abs1) && KeptPending(abs, abs1, done) && abs'.chains == abs1.chains
    requires abs'.pending == abs1.pending
    ensures InFlightKept(abs, abs') && KeptPending(abs, abs', done)
  {
  }

  lemma IntactLess(m: Mem, m': Mem, keep: set<nat>, keep': set<nat>)
    requires Intact(m, m', keep) && keep' <= keep
    ensures Intact(m, m', keep')
  {
  }
}

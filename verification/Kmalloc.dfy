/** The kernel allocator: per-CPU buckets of one-page superblocks with embedded free lists, large
    allocations, and frees handed to the CPU that owns a block. */
module Kmalloc {
  import opened Common
  import opened Bits
  import opened KmSlots
  import opened KmState
  import opened List = KmList
  import opened KmSteps
  import opened KmGood
  import opened KmIntact
  import opened KmRemote
  import opened KmCalls

  class Kmem {
    var hdr: map<nat, Header>
    var word: map<nat, nat>
    var bucket: map<Key, Bucket>
    var remote: map<nat, nat>
    /** Pages that no header stands for and that nobody will ever get. */
    var kept: set<nat>
    ghost var abs: Abs

    ghost function M(): Mem
      reads this
    {
      Mem(hdr, word, bucket, remote)
    }

    ghost predicate Valid()
      reads this
    {
      Good(M(), abs) && Configured(bucket, remote)
    }

    // -------------------------------------------------------------- pages

    /** Any run of pages that no header stands for and that are not kept. */
    method GetFreePages(n: nat) returns (p: nat)
      ensures FreshPages(hdr, p, n) && forall q | p <= q < p + n :: q !in kept
    {
      var hint: int := *;
      p := if hint > 0 then hint else 1;
      ghost var top := Beyond(hdr);
      ghost var above := Above(kept);
      while !FreshPages(hdr, p, n) || exists q <- kept :: p <= q < p + n
        invariant p > 0
        decreases (if top > above then top else above) - p
      {
        p := p + 1;
      }
    }

    // -------------------------------------------------------------- superblock lists

    /** Moves `p`, which is not the head, to the front of its list. */
    method MoveToFront(p: nat, key: Key, ghost k: nat)
      requires Valid() && key in bucket && key in abs.list && 0 < k < |abs.list[key]| && abs.list[key][k] == p
      modifies this`hdr, this`bucket, this`abs
      ensures Valid() && abs == old(abs).(list := old(abs).list[key := MovedToFront(old(abs).list[key], k)])
      ensures Relinked(old(hdr), hdr, old(abs).list[key])
      ensures bucket == old(bucket)[key := old(bucket)[key].(head := p)]
    {
      hide Good, Configured;
      ListFacts(M(), abs, key);
      ghost var s, m := abs.list[key], M();
      hdr := List.MoveToFront(hdr, p, bucket[key].head, key, s, k);
      bucket := bucket[key := bucket[key].(head := p)];
      GoodReordered(m, abs, hdr, key, k);
      ConfiguredKept(m.bucket, bucket, m.remote, remote);
      abs := abs.(list := abs.list[key := MovedToFront(s, k)]);
    }

    /** Writes the header of a fresh superblock, counts it in its bucket and threads its free list.
        The link of the last block is left as it was. */
    method InitSuper(p: nat, size: nat, power: nat, cpu: nat)
      requires p > 0 && IsPower(power) && size == Pow2(power) && Key(cpu, power) in bucket
      modifies this`hdr, this`word, this`bucket
      ensures hdr == old(hdr)[p := Super(0, 0, SlotAt(p, power, 0), power, SlotCount(size), cpu)]
      ensures var key, b := Key(cpu, power), old(bucket)[Key(cpu, power)];
        bucket == old(bucket)[key := b.(freeCount := b.freeCount + SlotCount(size), numSb := b.numSb + 1,
                                        allocSize := size)]
      ensures FreeListOk(p, hdr[p], AllSlots(p, power), word)
      ensures forall a <- old(word) :: a in word && (PageOf(a) != p ==> word[a] == old(word)[a])
    {
      hide FreeListOk, NoDuplicates, IsSlot, AllSlots, Threads;
      Sizes(power);
      var free := if size > HEADER then p * PAGE + size else p * PAGE + HEADER;
      var count := (PAGE - HEADER) / size;
      hdr := hdr[p := Super(0, 0, free, power, count, cpu)];
      var key := Key(cpu, power);
      bucket := bucket[key := bucket[key].(freeCount := bucket[key].freeCount + count, numSb := bucket[key].numSb + 1,
                                           allocSize := size)];
      var current := free;
      NoThreads(word, p, power);
      for i := 1 to count
        modifies this`word
        invariant current == SlotAt(p, power, i - 1)
        invariant Threads(word, p, power, i - 1)
        invariant forall a <- old(word) :: a in word && (PageOf(a) != p ==> word[a] == old(word)[a])
      {
        var next := current + size;
        SlotInPage(p, power, i - 1);
        NextSlot(p, power, i - 1);
        ThreadsOn(word, p, power, i - 1);
        word := word[current := next];
        current := next;
      }
      AllSlotsFree(p, hdr[p], word);
    }

    /** A fresh superblock at the front of its bucket's list. */
    method AddSuper(size: nat, power: nat, cpu: nat) returns (p: nat)
      requires Valid() && cpu in remote && IsPower(power) && size == Pow2(power)
      modifies this`hdr, this`word, this`bucket, this`abs
      ensures Valid() && bucket.Keys == old(bucket).Keys
      ensures p !in old(hdr) && hdr.Keys == old(hdr).Keys + {p}
      ensures hdr[p].Super? && hdr[p].cpu == cpu && hdr[p].power == power && hdr[p].freeCount > 0
      ensures Key(cpu, power) in bucket && bucket[Key(cpu, power)].head == p
      ensures abs.held == old(abs).held && abs.pending == old(abs).pending
      ensures abs.chains == old(abs).chains && abs.depth == old(abs).depth
      ensures Intact(old(M()), M(), Live(old(abs)))
    {
      hide Good, BucketOk, Chained, FreeListOk, FreshPages, FreeSum, Live, Intact, Configured, FrontedRows, AllSlots,
        SlotAt, At;
      HasBucket(bucket, remote, cpu, power);
      ghost var m, key := M(), Key(cpu, power);
      ListShape(m, abs, key);
      ghost var s := abs.list[key];
      p := GetFreePages(1);
      Unused(m, abs, p);
      InitSuper(p, size, power, cpu);
      ghost var h := hdr[p];
      hdr := List.AddToFront(hdr, p, bucket[Key(cpu, power)].head, s);
      bucket := bucket[Key(cpu, power) := bucket[Key(cpu, power)].(head := p)];
      Grown(m, abs, M(), p, h, s);
      ConfiguredKept(m.bucket, bucket, m.remote, remote);
      abs := abs.(free := abs.free[p := AllSlots(p, power)], list := abs.list[key := [p] + s]);
    }

    // -------------------------------------------------------------- allocation

    /** The first superblock of a bucket with a free block. While the bucket counts one there is one:
        the search never runs off the list. */
    method FindSuper(key: Key) returns (p: nat, ghost k: nat)
      requires Valid() && key in bucket && bucket[key].freeCount > 0
      ensures key in abs.list && k < |abs.list[key]| && abs.list[key][k] == p
      ensures p in hdr && hdr[p].Super? && hdr[p].cpu == key.cpu && hdr[p].power == key.power && hdr[p].freeCount > 0
      ensures forall i | 0 <= i < k ::
        abs.list[key][i] in hdr && hdr[abs.list[key][i]].Super? && hdr[abs.list[key][i]].freeCount == 0
    {
      hide Good;
      ListFacts(M(), abs, key);
      ghost var s := abs.list[key];
      assert s[0..] == s;
      p, k := bucket[key].head, 0;
      while hdr[p].freeCount == 0
        invariant k < |s| && p == s[k] && FreeSum(hdr, s[k..]) > 0
        invariant forall i | 0 <= i < k :: s[i] in hdr && hdr[s[i]].Super? && hdr[s[i]].freeCount == 0
        decreases |s| - k
      {
        TailFree(hdr, s, k);
        assert ChainRow(hdr, key, s, k) && s[k + 1] in s;
        if hdr[p].next == 0 {
          assert false;
        } else {
          p, k := hdr[p].next, k + 1;
        }
      }
    }

    /** Takes the first block off the free list of `p`. */
    method Take(p: nat) returns (a: nat)
      requires Valid() && p in hdr && hdr[p].Super? && hdr[p].freeCount > 0
      modifies this`hdr, this`bucket, this`abs
      ensures Valid() && bucket.Keys == old(bucket).Keys && HandedOut(old(M()), old(abs), M(), abs, a)
      ensures PageOf(a) == p && p in hdr && BlockKind(old(hdr)[p], hdr[p]) && IsSlot(p, hdr[p].power, a)
      ensures hdr.Keys == old(hdr).Keys && a == old(hdr)[p].free && hdr[p].freeCount == old(hdr)[p].freeCount - 1
      ensures forall key <- bucket :: bucket[key].head == old(bucket)[key].head
    {
      hide Good, FreeListOk, IsSlot, Configured;
      ghost var m := M();
      SuperFacts(m, abs, p);
      CountFacts(m, abs, p);
      a := hdr[p].free;
      var next: int := *;
      if a in word {
        next := word[a];
      } else if next < 0 {
        next := 0;
      }
      var key := Key(hdr[p].cpu, hdr[p].power);
      hdr := hdr[p := hdr[p].(free := next, freeCount := hdr[p].freeCount - 1)];
      bucket := bucket[key := bucket[key].(freeCount := bucket[key].freeCount - 1)];
      GoodTaken(m, abs, p, next);
      ConfiguredKept(m.bucket, bucket, m.remote, remote);
      IntactHeaders(m, abs, M(), Live(abs));
      abs := abs.(free := abs.free[p := abs.free[p][1..]], held := abs.held + {a});
    }

    /** A block of the least size class that holds `size` bytes. */
    method MallocSmall(size: nat, cpu: nat) returns (a: nat)
      requires Valid() && cpu in remote && size <= PAGE / 2
      modifies this`hdr, this`word, this`bucket, this`abs
      ensures Valid() && bucket.Keys == old(bucket).Keys
      ensures HandedOut(old(M()), old(abs), M(), abs, a) && SmallBlock(hdr, a, cpu, size) && Drawn(old(M()), M(), a)
    {
      hide Good, Live, Intact, Chained, MovedToFront, IsSlot, RoundsUp, Configured;
      var rounded, power := SizeClass(size);
      HasBucket(bucket, remote, cpu, power);
      var key := Key(cpu, power);
      var p;
      ghost var m, abs0 := M(), abs;
      if bucket[key].freeCount == 0 {
        p := AddSuper(rounded, power, cpu);
      } else {
        ghost var k;
        p, k := FindSuper(key);
        IntactSame(m, abs, M());
        if hdr[p].freeCount > 1 && p != bucket[key].head {
          ListShape(M(), abs, key);
          MoveToFront(p, key, k);
          RelinkedRow(m.hdr, hdr, abs0.list[key], p);
          IntactRelinked(m, abs0, M(), abs0.list[key]);
        }
        SameLive(abs0, abs);
      }
      SameLive(abs0, abs);
      ghost var m1, abs1 := M(), abs;
      a := Take(p);
      HandedOutAfter(m, abs0, m1, abs1, M(), abs, a);
    }

    /** Whole pages with room for a header and `size` bytes. */
    method MallocLarge(size: nat) returns (a: nat)
      requires Valid() && Reservable(size)
      modifies this`hdr, this`abs
      ensures Valid() && HandedOut(old(M()), old(abs), M(), abs, a) && LargeRoom(hdr, a, size)
      ensures hdr == old(hdr)[PageOf(a) := Large((size + HEADER) / PAGE + 1)]
      ensures forall q | PageOf(a) <= q < PageOf(a) + hdr[PageOf(a)].pages :: q !in kept
    {
      hide Good, Live, Intact, Configured;
      ghost var m := M();
      var pages: nat := AsInt((size + HEADER) / PAGE + 1);
      var p := GetFreePages(pages);
      UnusedRun(m, abs, p, pages);
      hdr := hdr[p := Large(pages)];
      LargePage(p);
      a := p * PAGE + HEADER;
      GoodLargeAdded(m, abs, p, pages);
      IntactHeaders(m, abs, M(), Live(abs));
      abs := abs.(held := abs.held + {a});
    }

    /** Null for nothing; otherwise an aligned block nobody holds, with room for `size` bytes. */
    method Kmalloc(size: nat, cpu: nat) returns (a: nat)
      requires Valid() && cpu in remote && Reservable(size)
      modifies this`hdr, this`word, this`bucket, this`abs
      ensures Valid() && bucket.Keys == old(bucket).Keys
      ensures size == 0 ==> a == 0 && M() == old(M()) && abs == old(abs)
      ensures size > 0 ==>
        HandedOut(old(M()), old(abs), M(), abs, a) && a > 0 && a % MIN_ALLOC == 0 && RoomFor(hdr, a, size)
      ensures size > 0 ==> if size <= PAGE / 2 then SmallBlock(hdr, a, cpu, size) else LargeRoom(hdr, a, size)
    {
      hide Good, Live, Intact, Configured;
      if size == 0 {
        return 0;
      }
      if size > PAGE / 2 {
        a := MallocLarge(size);
      } else {
        a := MallocSmall(size, cpu);
      }
      Placed(M(), abs, a, size, cpu);
    }

    // -------------------------------------------------------------- freeing

    /** Gives back the empty superblock `p` if its bucket has more than enough. */
    method ManageEmpty(p: nat, key: Key, ghost k: nat) returns (released: bool)
      requires Valid() && key in bucket && key in abs.list && k < |abs.list[key]| && abs.list[key][k] == p
      requires p in hdr && hdr[p].Super? && hdr[p].freeCount == SlotCount(Pow2(hdr[p].power))
      modifies this`hdr, this`bucket, this`abs
      ensures Valid() && bucket.Keys == old(bucket).Keys
      ensures released == (old(bucket)[key].numSb > RETAIN_FREE_SUPERBLOCK_COUNT)
      ensures !released ==> M() == old(M()) && abs == old(abs)
      ensures released ==> hdr.Keys == old(hdr).Keys - {p}
      ensures released ==> abs == old(abs).(list := old(abs).list[key := Without(old(abs).list[key], k)])
      ensures Intact(old(M()), M(), Live(old(abs)))
    {
      hide Good, Live, Intact, SlotCount, FreeSum, Configured, BucketOk, Chained, BypassedRows, Without, Relinked;
      ghost var s, m := abs.list[key], M();
      ListShape(m, abs, key);
      released := bucket[key].numSb > RETAIN_FREE_SUPERBLOCK_COUNT;
      if !released {
        IntactSame(m, abs, M());
        return;
      }
      var hdr1, head := List.TakeOut(hdr, p, bucket[key].head, key, s, k);
      BypassedChain(m.hdr, hdr1, key, s, k);
      BypassedRelinks(m.hdr, hdr1, key, s, k);
      GoodReleased(m, abs, hdr1, key, k);
      IntactReleased(m, abs, m.(hdr := hdr1 - {p}), hdr1, s, p);
      hdr := hdr1;
      bucket := bucket[key := bucket[key].(head := head, numSb := bucket[key].numSb - 1,
                                           freeCount := bucket[key].freeCount - hdr[p].freeCount)];
      hdr := hdr - {p};
      ConfiguredKept(m.bucket, bucket, m.remote, remote);
      IntactBuckets(m, m.(hdr := hdr1 - {p}), M(), Live(abs));
      abs := abs.(list := abs.list[key := Without(s, k)]);
    }

    /** Puts the held block `a` back on its free list. */
    method Put(a: nat)
      requires Valid() && a in abs.held && PageOf(a) in hdr && hdr[PageOf(a)].Super?
      modifies this`hdr, this`word, this`bucket, this`abs
      ensures Valid() && bucket.Keys == old(bucket).Keys && hdr.Keys == old(hdr).Keys
      ensures hdr[PageOf(a)] == old(hdr)[PageOf(a)].(free := a, freeCount := old(hdr)[PageOf(a)].freeCount + 1)
      ensures abs == old(abs).(free := abs.free, held := old(abs).held - {a})
      ensures forall key <- bucket ::
        bucket[key].numSb == old(bucket)[key].numSb && bucket[key].head == old(bucket)[key].head
      ensures Intact(old(M()), M(), Live(abs)) && Live(abs) == Live(old(abs)) - {a}
    {
      hide Good, Intact, Live, Configured;
      ghost var m, p := M(), PageOf(a);
      SuperFacts(m, abs, p);
      GoodPut(m, abs, a);
      LiveWithout(m, abs, a);
      var page := a / PAGE;
      var key := Key(hdr[page].cpu, hdr[page].power);
      word := word[a := hdr[page].free];
      hdr := hdr[page := hdr[page].(free := a, freeCount := hdr[page].freeCount + 1)];
      bucket := bucket[key := bucket[key].(freeCount := bucket[key].freeCount + 1)];
      ConfiguredKept(m.bucket, bucket, m.remote, remote);
      IntactPut(m, abs, M(), a);
      abs := abs.(free := abs.free[p := [a] + abs.free[p]], held := abs.held - {a});
    }

    /** Returns `a` to its superblock, which is given back if empty and otherwise heads its list. */
    method FreeLocal(a: nat)
      requires Valid() && a in abs.held && PageOf(a) in hdr && hdr[PageOf(a)].Super?
      modifies this`hdr, this`word, this`bucket, this`abs
      ensures Valid() && bucket.Keys == old(bucket).Keys && GivenBack(old(M()), old(abs), M(), abs, a)
      ensures Returned(old(M()), M(), a)
    {
      hide Good, Live, Intact, Chained, MovedToFront, Without, Relinked, Configured, SlotCount, FreeListOk;
      ghost var m, abs0 := M(), abs;
      Put(a);
      ghost var m1, abs1 := M(), abs;
      var page := a / PAGE;
      var size, key := Pow2(hdr[page].power), Key(hdr[page].cpu, hdr[page].power);
      SuperFacts(M(), abs, page);
      ListShape(M(), abs, key);
      ghost var k :| 0 <= k < |abs.list[key]| && abs.list[key][k] == page;
      var released := false;
      SlotCounts(size);
      if hdr[page].freeCount == (PAGE - HEADER) / size {
        released := ManageEmpty(page, key, k);
      } else {
        IntactSame(m1, abs1, M());
      }
      if !released && page != bucket[key].head {
        MoveToFront(page, key, k);
        RelinkedRow(m1.hdr, hdr, abs1.list[key], page);
        IntactRelinked(m1, abs1, M(), abs1.list[key]);
      }
      SameLive(abs1, abs);
      IntactTransitive(m, m1, M(), Live(abs1), Live(abs1));
    }

    /** Drops the pages of a large allocation that its header records; the others stay reserved for good. */
    method FreeLarge(a: nat)
      requires Valid() && a in abs.held && PageOf(a) in hdr && hdr[PageOf(a)].Large?
      modifies this`hdr, this`abs, this`kept
      ensures Valid() && GivenBack(old(M()), old(abs), M(), abs, a) && hdr == old(hdr) - {PageOf(a)}
      ensures kept == old(kept) + CutOff(old(hdr), a)
    {
      hide Good, Live, Intact, Configured;
      ghost var m, abs0 := M(), abs;
      GoodLargeDropped(m, abs, a);
      LiveWithout(m, abs, a);
      var page := a / PAGE;
      kept := kept + PageRange(page + Recorded(hdr[page].pages), page + hdr[page].pages);
      hdr := hdr - {page};
      IntactDropped(m, abs0, M(), a);
      abs := abs.(held := abs.held - {a});
      assert abs == abs0.(free := abs0.free, held := abs0.held - {a});
    }

    /** Asks the owner of `a` to free it, by a fresh record at the front of its remote free list. */
    method FreeRemote(a: nat, cpu: nat) returns (r: nat)
      requires Valid() && cpu in remote && a in abs.held
      requires PageOf(a) in hdr && hdr[PageOf(a)].Super? && hdr[PageOf(a)].cpu != cpu
      modifies this
      ensures Valid() && bucket.Keys == old(bucket).Keys
      ensures Asked(old(M()), old(abs), M(), abs, a, r) && kept == old(kept)
    {
      hide Good, Live, Intact, Configured, SmallBlock;
      ghost var m, abs0 := M(), abs;
      r := Kmalloc(2 * MIN_ALLOC, cpu);
      ghost var m1, abs1 := M(), abs;
      RecordBlock(hdr, r, cpu);
      KeptHeader(m, m1, Live(abs0), a, abs0);
      var owner := hdr[a / PAGE].cpu;
      HasRemote(m1, abs1, a);
      GoodPushed(m1, abs1, owner, r, a);
      word := word[r + 8 := a];
      word := word[r := remote[owner]];
      remote := remote[owner := r];
      ConfiguredKept(m1.bucket, bucket, m1.remote, remote);
      IntactPushed(m1, abs1, M(), r, a);
      abs := PushedAbs(abs, owner, r, a);
      HeldLive(abs0);
      LiveWithout(m, abs0, a);
      assert abs.held == abs0.held - {a};
      IntactTransitive(m, m1, M(), Live(abs0), abs.held);
    }

    /** The remote free list of `cpu` is taken off; the caller works through it. */
    method Detach(cpu: nat) returns (first: nat)
      requires Valid() && cpu in remote
      modifies this`remote, this`abs
      ensures Valid() && cpu in old(abs).chains && abs == DetachedAbs(old(abs), cpu) && remote.Keys == old(remote).Keys
      ensures first == At(old(abs).chains[cpu].recs, 0) && old(abs).chains[cpu].cpu == cpu
      ensures Top(abs) !in old(abs).chains
    {
      hide PagesOk, BlocksOk, ExtentsOk, BucketsOk, ChainsOk, UsesOk, Configured, DetachedAbs;
      GoodDetached(M(), abs, cpu);
      ConfiguredKept(bucket, bucket, remote, remote[cpu := 0]);
      first := remote[cpu];
      remote := remote[cpu := 0];
      abs := DetachedAbs(abs, cpu);
    }

    /** Frees all blocks other CPUs have asked `cpu` to free, and the records they asked with. */
    method Drain(cpu: nat)
      requires Valid() && cpu in remote && cpu in abs.chains
      modifies this
      ensures Valid() && Drained(old(M()), old(abs), M(), abs, cpu) && kept == old(kept)
      decreases |abs.chains[cpu].recs|, 0
    {
      hide Good, Live, Intact, Configured, KeptPending, InFlightKept, RecordOk, DetachedAbs;
      ghost var m0, abs0 := M(), abs;
      var rf := Detach(cpu);
      ghost var top := Top(abs);
      DetachedFacts(m0, abs0, M(), abs, cpu);
      while rf != 0
        invariant Valid() && cpu in remote && Draining(m0, abs0, M(), abs, cpu, top)
        invariant rf == At(abs.chains[top].recs, 0)
        invariant kept == old(kept)
        decreases |abs.chains[top].recs|
      {
        ghost var abs1 := abs;
        NotNull(M(), abs, top, rf);
        rf := ServeRecord(rf, cpu, top, m0, abs0);
        assert OneServed(abs1, abs, top);
      }
      AllServed(M(), abs, top);
      GoodFlightEnded(M(), abs);
      DrainEnd(m0, abs0, M(), abs, cpu, top);
      abs := FlightEndedAbs(abs);
    }

    /** Frees the block that the first record of the list asks for, and the record. */
    method ServeRecord(rf: nat, cpu: nat, ghost top: int, ghost m0: Mem, ghost abs0: Abs) returns (next: nat)
      requires Valid() && cpu in remote && Draining(m0, abs0, M(), abs, cpu, top)
      requires abs.chains[top].recs != [] && rf == abs.chains[top].recs[0]
      modifies this
      ensures Valid() && cpu in remote && Draining(m0, abs0, M(), abs, cpu, top) && OneServed(old(abs), abs, top)
      ensures next == At(abs.chains[top].recs, 0) && kept == old(kept)
      decreases 0, 2
    {
      hide Good, Live, Intact, Configured, KeptPending, InFlightKept, RecordOk, CutOff;
      ghost var m1, abs1 := M(), abs;
      GoodRecordTaken(m1, abs1, top, rf);
      RecordWord(m1, rf, abs1.pending[rf], cpu);
      next := word[rf];
      var b := word[rf + 8];
      abs := RecordTakenAbs(abs, top, rf);
      TakenKept(abs0, abs1, abs, rf, top);
      HeldBlock(m1, abs, b, cpu);
      BlockExtent(m1, abs, b);
      ghost var abs2 := abs;
      SmallCutOff(m1, b, cpu);
      Kfree(b, cpu);
      ghost var m3, abs3 := M(), abs;
      StillRemote(m1, abs2, m3, abs3, rf, b, cpu);
      SmallCutOff(m3, rf, cpu);
      Kfree(rf, cpu);
      DrainStep(m0, abs0, m1, abs1, abs2, m3, abs3, M(), abs, rf, b, cpu, top);
    }

    /** Frees a held block: at once if it is large; by its owner, later, if that is another CPU; and
        otherwise here, after all frees others have asked for. */
    method Kfree(ptr: nat, cpu: nat)
      requires Valid() && cpu in remote && (ptr == 0 || ptr in abs.held)
      modifies this
      ensures Valid() && cpu in remote
      ensures ptr == 0 ==> M() == old(M()) && abs == old(abs)
      ensures ptr != 0 ==> Freed(old(M()), old(abs), M(), abs, ptr, cpu)
      ensures kept == old(kept) + if ptr == 0 then {} else CutOff(old(hdr), ptr)
      decreases if IsLocal(M(), ptr, cpu) && cpu in abs.chains then |abs.chains[cpu].recs| else 0, 1
    {
      hide Good, Live, Intact, Configured, KeptPending, InFlightKept, RecordOk, GivenBack, Asked, Drained;
      if ptr == 0 {
        return;
      }
      ghost var m0, abs0 := M(), abs;
      HeldBlock(m0, abs0, ptr, cpu);
      var page := ptr / PAGE;
      if hdr[page].Large? {
        FreeLarge(ptr);
        FreedLarge(m0, abs0, M(), abs, ptr, cpu);
      } else if hdr[page].cpu != cpu {
        ghost var r := FreeRemote(ptr, cpu);
        FreedRemote(m0, abs0, M(), abs, ptr, r, cpu);
      } else {
        Drain(cpu);
        ghost var m1, abs1 := M(), abs;
        StillHeld(m0, abs0, m1, abs1, ptr, cpu);
        FreeLocal(ptr);
        FreedLocal(m0, abs0, m1, abs1, M(), abs, ptr, cpu);
      }
    }

    // -------------------------------------------------------------- resizing

    /** Copies the words at the first `n` bytes of `src`. */
    method Memcpy(dst: nat, src: nat, n: nat)
      requires dst + n <= src || src + n <= dst
      modifies this`word
      ensures forall w <- old(word) :: w in word && (word[w] == old(word)[w] || dst <= w < dst + n)
      ensures Copied(old(word), src, word, dst, n)
    {
      var i := 0;
      while i < n
        invariant i % MIN_ALLOC == 0
        invariant forall w <- old(word) :: w in word && (word[w] == old(word)[w] || dst <= w < dst + n)
        invariant Copied(old(word), src, word, dst, if i < n then i else n)
        decreases n - i
      {
        if src + i in word {
          assert src + i in old(word) ==> word[src + i] == old(word)[src + i];
          word := word[dst + i := word[src + i]];
        }
        i := i + MIN_ALLOC;
      }
    }

    /** Moves the contents of `addr` to a block with room for `size` bytes, unless `addr` is seen to have the
        room. */
    method Krealloc(addr: nat, size: nat, cpu: nat) returns (a: nat)
      requires Valid() && cpu in remote && Reservable(size) && (addr == 0 || addr in abs.held)
      modifies this
      ensures Valid()
      ensures addr == 0 && size == 0 ==> a == 0 && M() == old(M()) && abs == old(abs)
      ensures addr == 0 && size > 0 ==> HandedOut(old(M()), old(abs), M(), abs, a) && a > 0 && RoomFor(hdr, a, size)
      ensures addr != 0 && size == 0 ==> a == 0 && Freed(old(M()), old(abs), M(), abs, addr, cpu)
      ensures addr != 0 && size > 0 ==>
        PageOf(addr) in old(hdr)
        && Resized(old(M()), old(abs), M(), abs, addr, a, size, RoomSeen(old(hdr)[PageOf(addr)]))
      ensures kept == old(kept) + if addr != 0 && a != addr then CutOff(old(hdr), addr) else {}
    {
      hide Good, Live, Intact, Configured, Freed, Resized, SmallBlock, LargeRoom, Copied, RoomSeen, CutOff;
      if addr == 0 {
        a := Kmalloc(size, cpu);
        return;
      }
      if size == 0 {
        Kfree(addr, cpu);
        return 0;
      }
      ghost var m0, abs0 := M(), abs;
      HeldBlock(m0, abs0, addr, cpu);
      BlockExtent(m0, abs0, addr);
      var page := addr / PAGE;
      var room := RoomSeen(hdr[page]);
      if size <= room {
        NotResized(m0, abs0, addr, size, room);
        return addr;
      }
      SeenWithin(hdr[page], size);
      a := Kmalloc(size, cpu);
      ghost var m1, abs1 := M(), abs;
      NewBlock(m0, abs0, m1, abs1, addr, a, size, room);
      Memcpy(a, addr, room);
      ghost var m2 := M();
      CopiedInto(m1, abs1, m2, addr, a, room);
      CutOffSame(m0, abs0, m1, addr);
      Kfree(addr, cpu);
      Moved(m0, abs0, m1, abs1, m2, M(), abs, addr, a, size, room, cpu);
    }

    /** A caller writes a word of a block it holds. */
    method Store(a: nat, w: nat, v: nat)
      requires Valid() && a in abs.held && Sized(hdr, a) && Within(hdr, a, w)
      modifies this`word
      ensures Valid() && word == old(word)[w := v] && Intact(old(M()), M(), Live(abs) - {a})
    {
      hide Good, Live, Intact, Configured;
      GoodWritten(M(), abs, a, word[w := v]);
      word := word[w := v];
    }

    /** Before the first request: no pages, empty buckets and lists. */
    constructor (cpus: set<nat>)
      ensures Valid() && abs.held == {} && abs.pending == map[] && abs.depth == 0 && remote.Keys == cpus && kept == {}
    {
      hdr, word, kept := map[], map[], {};
      bucket := map cpu: nat, power: nat | cpu in cpus && MIN_POWER <= power <= MAX_POWER ::
        Key(cpu, power) := Bucket(0, 0, 0, 0);
      remote := map cpu | cpu in cpus :: 0;
      ghost var lists := map cpu: nat, power: nat | cpu in cpus && MIN_POWER <= power <= MAX_POWER ::
        Key(cpu, power) := [];
      abs := Abs(map[], lists, {}, map[], map cpu: nat | cpu in cpus :: cpu as int := Chain(cpu, []), 0);
      new;
      hide Good, Configured;
      Empty(M(), abs, cpus);
    }
  }
}

/** Mapping, unmapping and translating pages. */
module PageTables {
  import opened Common
  import opened Bits
  import opened PtState
  import opened PtFlags

  // ---------------------------------------------------------------- the way to a page

  /** No huge page stands in the way of `v` from place `p` on. */
  ghost predicate Clear(mem: map<Slot, nat>, at: map<Place, nat>, p: Place, v: nat)
    requires p in at && Depth(p) <= 3
    decreases 3 - Depth(p)
  {
    var i := Index(v, Depth(p));
    Depth(p) < 3 ==> if Child(p, i) in at then Clear(mem, at, Child(p, i), v) else !Present(Read(mem, at[p], i))
  }

  lemma {:induction false} ClearWritten(mem: map<Slot, nat>, at: map<Place, nat>, p: Place, i: nat, e: nat, q: Place,
                                        v: nat)
    requires TreeOk(mem, at) && p in at && Depth(p) == 3 && q in at && Depth(q) <= 3 && Clear(mem, at, q, v)
    ensures Clear(mem[Slot(at[p], i) := e], at, q, v)
    decreases 3 - Depth(q)
  {
    if Depth(q) < 3 {
      assert at[q] != at[p];
      var j := Index(v, Depth(q));
      if Child(q, j) in at {
        ClearWritten(mem, at, p, i, e, Child(q, j), v);
      }
    }
  }

  lemma {:induction false} ClearAdded(mem: map<Slot, nat>, at: map<Place, nat>, p: Place, i: nat, f: nat, e: nat,
                                      q: Place, v: nat)
    requires TreeOk(mem, at) && p in at && Depth(p) < 3 && Child(p, i) !in at && FreshFrame(mem, at, f)
    requires q in at && Depth(q) <= 3 && Clear(mem, at, q, v)
    ensures Clear(mem[Slot(at[p], i) := e], at[Child(p, i) := f], q, v)
    decreases 3 - Depth(q)
  {
    if Depth(q) < 3 {
      var j := Index(v, Depth(q));
      if Child(q, j) in at {
        ClearAdded(mem, at, p, i, f, e, Child(q, j), v);
      } else {
        NoGrandchild(mem, at, Child(q, j), Index(v, Depth(q) + 1));
      }
    }
  }

  // ---------------------------------------------------------------- ranges of pages

  /** How many pages `v` lies after `virt`, around the end of the address space if need be. */
  function Rank(v: nat, virt: nat): (r: nat)
    ensures r < PAGES
  {
    (Vpn(v) + PAGES - Vpn(virt)) % PAGES
  }

  lemma {:induction false} RankOf(v: nat, virt: nat, k: nat)
    requires k < PAGES
    ensures Vpn(v) == Vpn(virt + k * PAGE) <==> Rank(v, virt) == k
  {
    assert (virt + k * PAGE) / PAGE == virt / PAGE + k;
    var a, b := virt / PAGE, v / PAGE;
    var qa := a / PAGES;
    assert a == PAGES * qa + Vpn(virt);
    if Vpn(virt) + k < PAGES {
      Remainder(a + k, qa, Vpn(virt) + k);
    } else {
      Remainder(a + k, qa + 1, Vpn(virt) + k - PAGES);
    }
  }

  /** Translation once the first `k` pages of the range are mapped. */
  ghost function MappedLookup(mem: map<Slot, nat>, at: map<Place, nat>, virt: nat, phys: nat, k: nat,
                              v: nat): Option<nat>
    requires TreeOk(mem, at)
  {
    if Rank(v, virt) < k then Some(phys + Rank(v, virt) * PAGE + v % PAGE) else Lookup(mem, at, v)
  }

  /** Translation once the first `k` pages of the range are unmapped. */
  ghost function UnmappedLookup(mem: map<Slot, nat>, at: map<Place, nat>, virt: nat, k: nat, v: nat): Option<nat>
    requires TreeOk(mem, at)
  {
    if Rank(v, virt) < k then None else Lookup(mem, at, v)
  }

  ghost predicate Mapped(mem: map<Slot, nat>, at: map<Place, nat>, mem': map<Slot, nat>, at': map<Place, nat>,
                         virt: nat, phys: nat, k: nat) {
    TreeOk(mem, at) && TreeOk(mem', at')
    && forall v: nat :: Lookup(mem', at', v) == MappedLookup(mem, at, virt, phys, k, v)
  }

  ghost predicate Unmapped(mem: map<Slot, nat>, at: map<Place, nat>, mem': map<Slot, nat>, at': map<Place, nat>,
                           virt: nat, k: nat) {
    TreeOk(mem, at) && TreeOk(mem', at') && forall v: nat :: Lookup(mem', at', v) == UnmappedLookup(mem, at, virt, k, v)
  }

  lemma {:induction false} MappedOn(mem: map<Slot, nat>, at: map<Place, nat>, mem1: map<Slot, nat>,
                                    at1: map<Place, nat>, virt: nat, phys: nat, k: nat,
                                    e: nat)
    requires Mapped(mem, at, mem1, at1, virt, phys, k) && k < PAGES && Path(virt + k * PAGE) in at1
    requires Present(e) && Frame(e, 3) == phys + k * PAGE
    ensures var w := virt + k * PAGE;
      Mapped(mem, at, mem1[Slot(at1[Path(w)], Index(w, 3)) := e], at1, virt, phys, k + 1)
  {
    hide TreeOk, Lookup, Rank, Path, Index;
    var w := virt + k * PAGE;
    var mem2 := mem1[Slot(at1[Path(w)], Index(w, 3)) := e];
    PathDepth(w);
    EntryWritten(mem1, at1, Path(w), Index(w, 3), e);
    forall v: nat ensures Lookup(mem2, at1, v) == MappedLookup(mem, at, virt, phys, k + 1, v) {
      assert Lookup(mem1, at1, v) == MappedLookup(mem, at, virt, phys, k, v);
      assert Lookup(mem2, at1, v) == WrittenLookup(mem1, at1, Path(w), Index(w, 3), e, v);
      PathIsPage(v, w);
      RankOf(v, virt, k);
    }
  }

  lemma {:induction false} UnmappedOn(mem: map<Slot, nat>, at: map<Place, nat>, mem1: map<Slot, nat>,
                                      at1: map<Place, nat>, virt: nat, k: nat)
    requires Unmapped(mem, at, mem1, at1, virt, k) && k < PAGES && Path(virt + k * PAGE) in at1
    ensures var w := virt + k * PAGE; Unmapped(mem, at, mem1[Slot(at1[Path(w)], Index(w, 3)) := 0], at1, virt, k + 1)
  {
    hide TreeOk, Lookup, Rank, Path, Index;
    var w := virt + k * PAGE;
    var mem2 := mem1[Slot(at1[Path(w)], Index(w, 3)) := 0];
    PathDepth(w);
    EntryWritten(mem1, at1, Path(w), Index(w, 3), 0);
    forall v: nat ensures Lookup(mem2, at1, v) == UnmappedLookup(mem, at, virt, k + 1, v) {
      assert Lookup(mem1, at1, v) == UnmappedLookup(mem, at, virt, k, v);
      assert Lookup(mem2, at1, v) == WrittenLookup(mem1, at1, Path(w), Index(w, 3), 0, v);
      PathIsPage(v, w);
      RankOf(v, virt, k);
    }
  }

  lemma {:induction false} PathDepth(v: nat)
    ensures Depth(Path(v)) == 3 && Depth(Path(v).up) == 2 && Depth(Path(v).up.up) == 1 && Path(v).up.up.up == Root
  {
  }

  // ---------------------------------------------------------------- growing the tree

  ghost predicate PoolOk(mem: map<Slot, nat>, at: map<Place, nat>, pool: seq<nat>) {
    (forall i | 0 <= i < |pool| :: FreshFrame(mem, at, pool[i]))
    && forall i, j :: 0 <= i < j < |pool| ==> pool[i] != pool[j]
  }

  /** More tables, the same translation; page tables stay as they are, and ways that were clear still are. */
  ghost predicate Grown(mem: map<Slot, nat>, at: map<Place, nat>, mem': map<Slot, nat>, at': map<Place, nat>) {
    TreeOk(mem, at) && TreeOk(mem', at') && (forall p <- at :: p in at' && at'[p] == at[p])
    && (forall p <- at, i: nat | Depth(p) == 3 :: Read(mem', at[p], i) == Read(mem, at[p], i))
    && (forall v: nat :: Lookup(mem', at', v) == Lookup(mem, at, v))
    && (forall v: nat :: Clear(mem, at, Root, v) ==> Clear(mem', at', Root, v))
  }

  lemma {:induction false} GrownTrans(mem: map<Slot, nat>, at: map<Place, nat>, mem1: map<Slot, nat>,
                                      at1: map<Place, nat>,
                                      mem2: map<Slot, nat>, at2: map<Place, nat>)
    requires Grown(mem, at, mem1, at1) && Grown(mem1, at1, mem2, at2)
    ensures Grown(mem, at, mem2, at2)
  {
    hide TableOk, Lookup, Clear;
    forall v: nat
      ensures Lookup(mem2, at2, v) == Lookup(mem, at, v)
      ensures Clear(mem, at, Root, v) ==> Clear(mem2, at2, Root, v)
    {
      assert Lookup(mem1, at1, v) == Lookup(mem, at, v);
    }
  }

  lemma {:induction false} GrownSame(mem: map<Slot, nat>, at: map<Place, nat>)
    requires TreeOk(mem, at)
    ensures Grown(mem, at, mem, at)
  {
  }

  lemma {:induction false} GrownAdded(mem: map<Slot, nat>, at: map<Place, nat>, p: Place, i: nat, f: nat, e: nat,
                                      pool: seq<nat>)
    requires TreeOk(mem, at) && p in at && Depth(p) < 3 && i < ENTRIES_PER_TABLE && !Present(Read(mem, at[p], i))
    requires PoolOk(mem, at, [f] + pool) && Frame(e, 3) == f && Present(e) && !Huge(e)
    ensures Child(p, i) !in at && Grown(mem, at, mem[Slot(at[p], i) := e], at[Child(p, i) := f])
    ensures PoolOk(mem[Slot(at[p], i) := e], at[Child(p, i) := f], pool)
    ensures TreeOk(mem[Slot(at[p], i) := e], at[Child(p, i) := f])
  {
    hide Lookup;
    var all := [f] + pool;
    assert FreshFrame(mem, at, all[0]);
    TableAdded(mem, at, p, i, f, e);
    var mem', at' := mem[Slot(at[p], i) := e], at[Child(p, i) := f];
    forall q <- at, j: nat | Depth(q) == 3 ensures Read(mem', at[q], j) == Read(mem, at[q], j) {
      assert at[q] != at[p];
    }
    forall v: nat ensures Clear(mem, at, Root, v) ==> Clear(mem', at', Root, v) {
      if Clear(mem, at, Root, v) {
        ClearAdded(mem, at, p, i, f, e, Root, v);
      }
    }
    forall j | 0 <= j < |pool| ensures FreshFrame(mem', at', pool[j]) && forall k | 0 <= k < j :: pool[k] != pool[j] {
      assert FreshFrame(mem, at, all[j + 1]) && all[j + 1] != all[0];
      forall k | 0 <= k < j ensures pool[k] != pool[j] {
        assert all[k + 1] != all[j + 1];
      }
    }
  }

  /** What is found at each level on a clear way. */
  lemma {:induction false} ClearLevel(mem: map<Slot, nat>, at: map<Place, nat>, v: nat)
    requires TreeOk(mem, at) && Clear(mem, at, Root, v)
    ensures var p0 := Path(v).up.up.up;
      p0 in at && (LeadsOn(Read(mem, at[p0], Index(v, 0)), 0) || !Present(Read(mem, at[p0], Index(v, 0))))
    ensures var p1 := Path(v).up.up;
      p1 in at ==> LeadsOn(Read(mem, at[p1], Index(v, 1)), 1) || !Present(Read(mem, at[p1], Index(v, 1)))
    ensures var p2 := Path(v).up;
      p2 in at ==> LeadsOn(Read(mem, at[p2], Index(v, 2)), 2) || !Present(Read(mem, at[p2], Index(v, 2)))
  {
    PathDepth(v);
    var p1, p2 := Path(v).up.up, Path(v).up;
    assert ChildOk(mem, at, Root, Index(v, 0)) by {
      assert TableOk(mem, at, Root);
    }
    if p1 in at {
      assert Clear(mem, at, p1, v);
      assert TableOk(mem, at, p1) && ChildOk(mem, at, p1, Index(v, 1));
      if p2 in at {
        assert Clear(mem, at, p2, v);
        assert TableOk(mem, at, p2) && ChildOk(mem, at, p2, Index(v, 2));
      }
    } else {
      assert p2 in at ==> TableOk(mem, at, p2);
    }
  }

  /** On a clear way a page is translated by the entry of its page table. */
  lemma {:induction false} ClearLookup(mem: map<Slot, nat>, at: map<Place, nat>, v: nat)
    requires TreeOk(mem, at) && Clear(mem, at, Root, v)
    ensures Lookup(mem, at, v) == if Path(v) in at then Target(Read(mem, at[Path(v)], Index(v, 3)), v, 3) else None
  {
    ClearFrom(mem, at, Root, v);
  }

  lemma {:induction false} ClearFrom(mem: map<Slot, nat>, at: map<Place, nat>, p: Place, v: nat)
    requires TreeOk(mem, at) && p in at && Depth(p) <= 3 && OnWay(p, v) && Clear(mem, at, p, v)
    ensures LookupFrom(mem, at, p, v)
      == if Path(v) in at then Target(Read(mem, at[Path(v)], Index(v, 3)), v, 3) else None
    decreases 3 - Depth(p)
  {
    if Depth(p) == 3 {
      WayEnds(p, v);
    } else {
      var c := Child(p, Index(v, Depth(p)));
      if c in at {
        ClearFrom(mem, at, c, v);
      } else if Path(v) in at {
        WayThere(mem, at, c, v);
      }
    }
  }

  /** What stays when an entry of a page table is written. */
  lemma {:induction false} WrittenKeeps(mem: map<Slot, nat>, at: map<Place, nat>, p: Place, i: nat, e: nat,
                                        pool: seq<nat>)
    requires TreeOk(mem, at) && p in at && Depth(p) == 3 && i < ENTRIES_PER_TABLE && PoolOk(mem, at, pool)
    ensures PoolOk(mem[Slot(at[p], i) := e], at, pool) && TreeOk(mem[Slot(at[p], i) := e], at)
    ensures forall v: nat | Clear(mem, at, Root, v) :: Clear(mem[Slot(at[p], i) := e], at, Root, v)
  {
    EntryWritten(mem, at, p, i, e);
    forall v: nat | Clear(mem, at, Root, v) ensures Clear(mem[Slot(at[p], i) := e], at, Root, v) {
      ClearWritten(mem, at, p, i, e, Root, v);
    }
    forall j | 0 <= j < |pool| ensures FreshFrame(mem[Slot(at[p], i) := e], at, pool[j]) {
      assert FreshFrame(mem, at, pool[j]);
    }
  }

  /** No huge page stands in the way of any page of the range. */
  ghost predicate AllClear(mem: map<Slot, nat>, at: map<Place, nat>, virt: nat, n: nat) {
    TreeOk(mem, at) && forall i: nat | i < n :: Clear(mem, at, Root, virt + i * PAGE)
  }

  lemma {:induction false} ClearAt(mem: map<Slot, nat>, at: map<Place, nat>, virt: nat, n: nat, k: nat)
    requires AllClear(mem, at, virt, n) && k < n
    ensures Root in at && Clear(mem, at, Root, virt + k * PAGE)
  {
  }

  lemma {:induction false} AllClearKept(mem: map<Slot, nat>, at: map<Place, nat>, mem': map<Slot, nat>,
                                        at': map<Place, nat>, virt: nat, n: nat)
    requires AllClear(mem, at, virt, n) && TreeOk(mem', at')
    requires forall v: nat | Clear(mem, at, Root, v) :: Clear(mem', at', Root, v)
    ensures AllClear(mem', at', virt, n)
  {
    hide TableOk, Clear;
    forall i: nat | i < n ensures Clear(mem', at', Root, virt + i * PAGE) {
      assert Clear(mem, at, Root, virt + i * PAGE);
    }
  }

  lemma {:induction false} GrownKeeps(mem: map<Slot, nat>, at: map<Place, nat>, mem1: map<Slot, nat>,
                                      at1: map<Place, nat>,
                                      mem2: map<Slot, nat>, at2: map<Place, nat>, virt: nat, phys: nat, k: nat, n: nat)
    requires Grown(mem1, at1, mem2, at2) && AllClear(mem1, at1, virt, n) && Mapped(mem, at, mem1, at1, virt, phys, k)
    ensures AllClear(mem2, at2, virt, n) && Mapped(mem, at, mem2, at2, virt, phys, k)
  {
    hide TableOk, Lookup, Clear, MappedLookup;
    AllClearKept(mem1, at1, mem2, at2, virt, n);
    forall v: nat ensures Lookup(mem2, at2, v) == MappedLookup(mem, at, virt, phys, k, v) {
      assert Lookup(mem2, at2, v) == Lookup(mem1, at1, v);
    }
  }

  lemma {:induction false} MappedNone(mem: map<Slot, nat>, at: map<Place, nat>, virt: nat, phys: nat)
    requires TreeOk(mem, at)
    ensures Mapped(mem, at, mem, at, virt, phys, 0) && Unmapped(mem, at, mem, at, virt, 0)
  {
    hide TableOk, Lookup;
  }

  /** The next page of the range is still translated as it was. */
  lemma {:induction false} NextAsBefore(mem: map<Slot, nat>, at: map<Place, nat>, mem1: map<Slot, nat>,
                                        at1: map<Place, nat>, virt: nat, phys: nat, k: nat)
    requires (Mapped(mem, at, mem1, at1, virt, phys, k) || Unmapped(mem, at, mem1, at1, virt, k)) && k < PAGES
    ensures TreeOk(mem, at) && TreeOk(mem1, at1)
    ensures Lookup(mem1, at1, virt + k * PAGE) == Lookup(mem, at, virt + k * PAGE)
  {
    hide TreeOk, Lookup, Rank;
    RankOf(virt + k * PAGE, virt, k);
    if Mapped(mem, at, mem1, at1, virt, phys, k) {
      assert Lookup(mem1, at1, virt + k * PAGE) == MappedLookup(mem, at, virt, phys, k, virt + k * PAGE);
    } else {
      assert Lookup(mem1, at1, virt + k * PAGE) == UnmappedLookup(mem, at, virt, k, virt + k * PAGE);
    }
  }

  /** The page table entry for `v` is `e`. */
  ghost predicate EntryIs(mem: map<Slot, nat>, at: map<Place, nat>, v: nat, e: nat) {
    Path(v) in at && Read(mem, at[Path(v)], Index(v, 3)) == e
  }

  /** The entries of the first `k` pages of the range name their frames and have exactly the flags `f`. */
  ghost predicate Entries(mem: map<Slot, nat>, at: map<Place, nat>, virt: nat, phys: nat, f: nat, k: nat) {
    forall j: nat | j < k :: EntryIs(mem, at, virt + j * PAGE, phys + j * PAGE + f)
  }

  lemma {:induction false} NoEntries(mem: map<Slot, nat>, at: map<Place, nat>, virt: nat, phys: nat, f: nat)
    ensures Entries(mem, at, virt, phys, f, 0)
  {
  }

  lemma {:induction false} EntriesGrown(mem: map<Slot, nat>, at: map<Place, nat>, mem': map<Slot, nat>,
                                        at': map<Place, nat>,
                                        virt: nat, phys: nat, f: nat, k: nat)
    requires Grown(mem, at, mem', at') && Entries(mem, at, virt, phys, f, k)
    ensures Entries(mem', at', virt, phys, f, k)
  {
    hide TreeOk, Lookup, Clear, Path, Index;
    forall j: nat | j < k ensures EntryIs(mem', at', virt + j * PAGE, phys + j * PAGE + f) {
      assert EntryIs(mem, at, virt + j * PAGE, phys + j * PAGE + f);
      PathDepth(virt + j * PAGE);
    }
  }

  lemma {:induction false} EntriesOn(mem: map<Slot, nat>, at: map<Place, nat>, virt: nat, phys: nat, f: nat, k: nat)
    requires TreeOk(mem, at) && Entries(mem, at, virt, phys, f, k) && k < PAGES && Path(virt + k * PAGE) in at
    ensures var w := virt + k * PAGE;
      Entries(mem[Slot(at[Path(w)], Index(w, 3)) := phys + k * PAGE + f], at, virt, phys, f, k + 1)
  {
    hide TableOk, Rank, Path, Index;
    var w := virt + k * PAGE;
    var mem' := mem[Slot(at[Path(w)], Index(w, 3)) := phys + k * PAGE + f];
    forall j: nat | j < k + 1 ensures EntryIs(mem', at, virt + j * PAGE, phys + j * PAGE + f) {
      if j < k {
        var u := virt + j * PAGE;
        assert EntryIs(mem, at, u, phys + j * PAGE + f);
        RankOf(u, virt, j);
        RankOf(u, virt, k);
        PathIsPage(u, w);
      }
    }
  }

  // ---------------------------------------------------------------- the operations

  class AddressSpace {
    var mem: map<Slot, nat>
    var cr3: nat
    var pool: seq<nat>
    ghost var at: map<Place, nat>

    ghost predicate Valid()
      reads this
    {
      TreeOk(mem, at) && at[Root] == EntryAddr(cr3) && PoolOk(mem, at, pool)
    }

    /** The table below entry `index` of `table`, made if it is not there. */
    method GetOrAllocTable(table: nat, index: nat, flags: nat, write: bool, ghost p: Place) returns (next: nat)
      requires Valid() && p in at && Depth(p) < 3 && at[p] == table && index < ENTRIES_PER_TABLE && pool != []
      requires EntryFlags(flags) && EntryFlags(Or(flags, PG_WRITE))
      requires LeadsOn(Read(mem, table, index), Depth(p)) || !Present(Read(mem, table, index))
      modifies this`mem, this`pool, this`at
      ensures Valid() && Grown(old(mem), old(at), mem, at) && |pool| >= |old(pool)| - 1
      ensures Child(p, index) in at && at[Child(p, index)] == next
    {
      hide TreeOk, PoolOk, Grown, Or, EntryAddr, Frame, LeadsOn, Huge, Present, EntryFlags;
      if !Present(Read(mem, table, index)) {
        var page := pool[0];
        assert [page] + pool[1..] == pool;
        pool := pool[1..];
        ZeroedPage(mem, at, page, pool);
        var e := Or(page, flags);
        if write {
          e := Or(e, PG_WRITE);
        }
        TableEntry(page, flags, write, e);
        GrownAdded(mem, at, p, index, page, e, pool);
        RootKept(mem, at, Child(p, index));
        mem := mem[Slot(table, index) := e];
        at := at[Child(p, index) := page];
      } else {
        GrownSame(mem, at);
        ChildThere(mem, at, p, index);
      }
      next := EntryAddr(Read(mem, table, index));
    }

    method GetOrAllocPdpt(pml4: nat, virt: nat, flags: nat) returns (pdpt: nat)
      requires Valid() && at[Root] == pml4 && pool != [] && Clear(mem, at, Root, virt)
      requires EntryFlags(flags) && EntryFlags(Or(flags, PG_WRITE))
      modifies this`mem, this`pool, this`at
      ensures Valid() && Grown(old(mem), old(at), mem, at) && |pool| >= |old(pool)| - 1
      ensures Path(virt).up.up in at && at[Path(virt).up.up] == pdpt
    {
      hide TreeOk, PoolOk, Grown, Or, Index, Clear;
      PathDepth(virt);
      ClearLevel(mem, at, virt);
      pdpt := GetOrAllocTable(pml4, Index(virt, 0), flags, true, Root);
    }

    method GetOrAllocPd(pdpt: nat, virt: nat, flags: nat) returns (pd: nat)
      requires Valid() && Path(virt).up.up in at && at[Path(virt).up.up] == pdpt && pool != []
      requires Clear(mem, at, Root, virt)
      requires EntryFlags(flags) && EntryFlags(Or(flags, PG_WRITE))
      modifies this`mem, this`pool, this`at
      ensures Valid() && Grown(old(mem), old(at), mem, at) && |pool| >= |old(pool)| - 1
      ensures Path(virt).up in at && at[Path(virt).up] == pd
    {
      hide TreeOk, PoolOk, Grown, Or, Index, Clear;
      PathDepth(virt);
      ClearLevel(mem, at, virt);
      pd := GetOrAllocTable(pdpt, Index(virt, 1), flags, true, Path(virt).up.up);
    }

    method GetOrAllocPt(pd: nat, virt: nat, flags: nat) returns (pt: nat)
      requires Valid() && Path(virt).up in at && at[Path(virt).up] == pd && pool != [] && Clear(mem, at, Root, virt)
      requires EntryFlags(flags) && EntryFlags(Or(flags, PG_WRITE))
      modifies this`mem, this`pool, this`at
      ensures Valid() && Grown(old(mem), old(at), mem, at) && |pool| >= |old(pool)| - 1
      ensures Path(virt) in at && at[Path(virt)] == pt
    {
      hide TreeOk, PoolOk, Grown, Or, Index, Clear;
      PathDepth(virt);
      ClearLevel(mem, at, virt);
      pt := GetOrAllocTable(pd, Index(virt, 2), flags, false, Path(virt).up);
    }

    /** The page table for `virt`, with the tables that lead to it. */
    method PageTableFor(virt: nat, flags: nat) returns (pt: nat)
      requires Valid() && |pool| >= 3 && Clear(mem, at, Root, virt)
      requires EntryFlags(flags) && EntryFlags(Or(flags, PG_WRITE))
      modifies this`mem, this`pool, this`at
      ensures Valid() && Grown(old(mem), old(at), mem, at) && |pool| >= |old(pool)| - 3
      ensures Path(virt) in at && at[Path(virt)] == pt
    {
      hide TreeOk, PoolOk, Or, Clear, Lookup, Path;
      ghost var mem0, at0 := mem, at;
      var pdpt := GetOrAllocPdpt(EntryAddr(cr3), virt, flags);
      ghost var mem1, at1 := mem, at;
      var pd := GetOrAllocPd(pdpt, virt, flags);
      GrownTrans(mem0, at0, mem1, at1, mem, at);
      ghost var mem2, at2 := mem, at;
      pt := GetOrAllocPt(pd, virt, flags);
      GrownTrans(mem0, at0, mem2, at2, mem, at);
    }

    /** Maps the pages from `virt` on to the frames from `phys` on; fails at the first page that is mapped
        already. */
    method MapPages(phys: nat, virt: nat, flags: nat, numPages: nat) returns (ok: bool)
      requires Valid() && phys % PAGE == 0 && phys + numPages * PAGE <= MAX_PHYS && flags < MEM_PF_LIMIT
      requires numPages <= PAGES && |pool| >= 3 * numPages && AllClear(mem, at, virt, numPages)
      modifies this`mem, this`pool, this`at
      ensures Valid() && TreeOk(old(mem), old(at))
      ensures ok <==> forall i: nat | i < numPages :: Lookup(old(mem), old(at), virt + i * PAGE) == None
      ensures ok ==> Mapped(old(mem), old(at), mem, at, virt, phys, numPages)
      ensures ok ==> Entries(mem, at, virt, phys, Merged(flags), numPages)
      ensures !ok ==> exists k: nat :: k < numPages && MapStopped(old(mem), old(at), mem, at, virt, phys, k)
    {
      hide TreeOk, PoolOk, Grown, AllClear, Or, Index, Clear, Lookup, Path, Mapped, Entries, Rank, PageFlags, PageBase,
        Present;
      var f := X86ToPageFlags(flags);
      f := Or(Or(flags, f), PG_PRESENT);
      MergedFlags(flags);
      MappedNone(mem, at, virt, phys);
      NoEntries(mem, at, virt, phys, f);
      var frame, page := phys, virt;
      for i := 0 to numPages
        invariant Valid() && |pool| >= 3 * (numPages - i) && frame == phys + i * PAGE && page == virt + i * PAGE
        invariant Mapped(old(mem), old(at), mem, at, virt, phys, i) && AllClear(mem, at, virt, numPages)
        invariant Entries(mem, at, virt, phys, Merged(flags), i)
        invariant forall j: nat | j < i :: Lookup(old(mem), old(at), virt + j * PAGE) == None
      {
        ghost var mem1, at1 := mem, at;
        ClearAt(mem, at, virt, numPages, i);
        var pt := PageTableFor(page, f);
        GrownKeeps(old(mem), old(at), mem1, at1, mem, at, virt, phys, i, numPages);
        EntriesGrown(mem1, at1, mem, at, virt, phys, f, i);
        ClearAt(mem, at, virt, numPages, i);
        NextAsBefore(old(mem), old(at), mem, at, virt, phys, i);
        ClearLookup(mem, at, page);
        var index := Index(page, 3);
        if Present(Read(mem, pt, index)) {
          assert MapStopped(old(mem), old(at), mem, at, virt, phys, i);
          return false;
        }
        ghost var mem2 := mem;
        EntryMade(frame, f);
        PathDepth(page);
        WrittenKeeps(mem, at, Path(page), index, Or(frame, f), pool);
        MappedOn(old(mem), old(at), mem, at, virt, phys, i, Or(frame, f));
        EntriesOn(mem, at, virt, phys, f, i);
        mem := mem[Slot(pt, index) := Or(frame, f)];
        AllClearKept(mem2, at, mem, at, virt, numPages);
        frame, page := frame + PAGE, page + PAGE;
      }
      ok := true;
    }

    /** Unmaps the pages from `virt` on; fails at the first page that is not mapped. */
    method UnmapPages(virt: nat, numPages: nat) returns (ok: bool)
      requires Valid() && numPages <= PAGES && AllClear(mem, at, virt, numPages)
      modifies this`mem
      ensures Valid() && TreeOk(old(mem), at)
      ensures ok <==> forall i: nat | i < numPages :: Lookup(old(mem), at, virt + i * PAGE) != None
      ensures ok ==> Unmapped(old(mem), at, mem, at, virt, numPages)
      ensures !ok ==> exists k: nat :: k < numPages && UnmapStopped(old(mem), mem, at, virt, k)
    {
      hide TreeOk, PoolOk, AllClear, Index, Clear, Lookup, Unmapped, Rank, PageBase, Present;
      MappedNone(mem, at, virt, 0);
      var page := virt;
      for i := 0 to numPages
        invariant Valid() && page == virt + i * PAGE
        invariant Unmapped(old(mem), at, mem, at, virt, i) && AllClear(mem, at, virt, numPages)
        invariant forall j: nat | j < i :: Lookup(old(mem), at, virt + j * PAGE) != None
      {
        ClearAt(mem, at, virt, numPages, i);
        NextAsBefore(old(mem), at, mem, at, virt, 0, i);
        ClearLookup(mem, at, page);
        var found, pt := FindTable(page);
        var index := Index(page, 3);
        if !found || !Present(Read(mem, pt, index)) {
          assert UnmapStopped(old(mem), mem, at, virt, i);
          return false;
        }
        ghost var mem1 := mem;
        PathDepth(page);
        WrittenKeeps(mem, at, Path(page), index, 0, pool);
        UnmappedOn(old(mem), at, mem, at, virt, i);
        mem := mem[Slot(pt, index) := 0];
        AllClearKept(mem1, at, mem, at, virt, numPages);
        page := page + PAGE;
      }
      ok := true;
    }

    /** The page table for `virt`, if all levels above it are present. */
    method FindTable(virt: nat) returns (found: bool, pt: nat)
      requires Valid() && Clear(mem, at, Root, virt)
      ensures found <==> Path(virt) in at
      ensures found ==> at[Path(virt)] == pt
    {
      hide PoolOk;
      ClearLevel(mem, at, virt);
      PathDepth(virt);
      found, pt := false, 0;
      LevelsAbove(mem, at, virt);
      var e := Read(mem, EntryAddr(cr3), Index(virt, 0));
      if !Present(e) {
        return;
      }
      ChildThere(mem, at, Root, Index(virt, 0));
      var pdpt := EntryAddr(e);
      e := Read(mem, pdpt, Index(virt, 1));
      if !Present(e) {
        return;
      }
      ChildThere(mem, at, Path(virt).up.up, Index(virt, 1));
      var pd := EntryAddr(e);
      e := Read(mem, pd, Index(virt, 2));
      if !Present(e) {
        return;
      }
      ChildThere(mem, at, Path(virt).up, Index(virt, 2));
      found, pt := true, EntryAddr(e);
    }

    /** Walks the tables for one address. The result is right exactly if nothing is mapped or the entry's
        bits between its low 12 and the bits of its frame are those of the address: always for small pages,
        and for aligned large ones in their first 4 KiB. */
    method GetPhysAddr(virt: nat) returns (r: Option<nat>)
      requires Valid()
      ensures TreeOk(mem, at) && r == Taken(WalkEnd(mem, at[Root], virt).entry, virt)
      ensures r == Lookup(mem, at, virt) <==> ReadRight(WalkEnd(mem, at[Root], virt), virt)
    {
      hide PoolOk, PageBase, Frame, Target, ReadRight;
      Levels(mem, at, virt);
      TablesFound(mem, at, virt);
      TakenRight(WalkEnd(mem, at[Root], virt), virt);
      var e := Read(mem, EntryAddr(cr3), Index(virt, 0));
      if !Present(e) {
        return None;
      }
      e := Read(mem, EntryAddr(e), Index(virt, 1));
      if !Present(e) {
        return None;
      }
      if Huge(e) {
        return Some(PageBase(e) + virt % PAGE);
      }
      e := Read(mem, EntryAddr(e), Index(virt, 2));
      if !Present(e) {
        return None;
      }
      if Huge(e) {
        return Some(PageBase(e) + virt % PAGE);
      }
      e := Read(mem, EntryAddr(e), Index(virt, 3));
      if !Present(e) {
        return None;
      }
      r := Some(PageBase(e) + virt % PAGE);
    }
  }

  /** Mapping stopped at page `k`, which was mapped, with the pages before it mapped and the rest as it was. */
  ghost predicate MapStopped(mem: map<Slot, nat>, at: map<Place, nat>, mem': map<Slot, nat>, at': map<Place, nat>,
                             virt: nat, phys: nat, k: nat) {
    TreeOk(mem, at) && Lookup(mem, at, virt + k * PAGE) != None && Mapped(mem, at, mem', at', virt, phys, k)
  }

  /** Unmapping stopped at page `k`, which was not mapped, with the pages before it gone. */
  ghost predicate UnmapStopped(mem: map<Slot, nat>, mem': map<Slot, nat>, at: map<Place, nat>, virt: nat, k: nat) {
    TreeOk(mem, at) && Lookup(mem, at, virt + k * PAGE) == None && Unmapped(mem, at, mem', at, virt, k)
  }

  /** A page table's ancestors are there. */
  lemma {:induction false} LevelsAbove(mem: map<Slot, nat>, at: map<Place, nat>, v: nat)
    requires TreeOk(mem, at)
    ensures Path(v) in at ==> Path(v).up in at
    ensures Path(v).up in at ==> Path(v).up.up in at
    ensures forall p <- at | Depth(p) < 3 ::
      forall i: nat | i < ENTRIES_PER_TABLE :: Child(p, i) in at ==> Present(Read(mem, at[p], i))
  {
    assert Path(v) in at ==> TableOk(mem, at, Path(v));
    assert Path(v).up in at ==> TableOk(mem, at, Path(v).up);
    forall p <- at | Depth(p) < 3
      ensures forall i: nat | i < ENTRIES_PER_TABLE :: Child(p, i) in at ==> Present(Read(mem, at[p], i))
    {
      assert TableOk(mem, at, p);
      forall i: nat | i < ENTRIES_PER_TABLE ensures Child(p, i) in at ==> Present(Read(mem, at[p], i)) {
        assert ChildOk(mem, at, p, i);
      }
    }
  }

  /** The entry that ends the processor's walk, and its depth. */
  datatype End = End(entry: nat, depth: nat)

  /** The processor's walk by the entries alone. */
  function WalkEnd(mem: map<Slot, nat>, pml4: nat, v: nat): End {
    var e0 := Read(mem, pml4, Index(v, 0));
    var e1 := Read(mem, Frame(e0, 3), Index(v, 1));
    var e2 := Read(mem, Frame(e1, 3), Index(v, 2));
    if !Present(e0) then End(e0, 0)
    else if !LeadsOn(e1, 1) then End(e1, 1)
    else if !LeadsOn(e2, 2) then End(e2, 2)
    else End(Read(mem, Frame(e2, 3), Index(v, 3)), 3)
  }

  /** It gives what the flat map gives, for every address. */
  lemma {:induction false} Levels(mem: map<Slot, nat>, at: map<Place, nat>, v: nat)
    requires TreeOk(mem, at)
    ensures var end := WalkEnd(mem, at[Root], v); Lookup(mem, at, v) == Target(end.entry, v, end.depth)
  {
    hide Frame;
    PathDepth(v);
    var p1, p2, p3 := Path(v).up.up, Path(v).up, Path(v);
    assert TableOk(mem, at, Root) && ChildOk(mem, at, Root, Index(v, 0));
    if p1 in at {
      assert TableOk(mem, at, p1) && ChildOk(mem, at, p1, Index(v, 1));
      assert Lookup(mem, at, v) == LookupFrom(mem, at, p1, v);
      if p2 in at {
        assert TableOk(mem, at, p2) && ChildOk(mem, at, p2, Index(v, 2));
        assert LookupFrom(mem, at, p1, v) == LookupFrom(mem, at, p2, v);
      }
    }
  }

  /** The code finds the tables on the way where they are. */
  lemma {:induction false} TablesFound(mem: map<Slot, nat>, at: map<Place, nat>, v: nat)
    requires TreeOk(mem, at)
    ensures var e0 := Read(mem, at[Root], Index(v, 0));
      var e1 := Read(mem, Frame(e0, 3), Index(v, 1));
      var e2 := Read(mem, Frame(e1, 3), Index(v, 2));
      (Present(e0) ==> EntryAddr(e0) == Frame(e0, 3))
      && (Present(e0) && LeadsOn(e1, 1) ==> EntryAddr(e1) == Frame(e1, 3))
      && (Present(e0) && LeadsOn(e1, 1) && LeadsOn(e2, 2) ==> EntryAddr(e2) == Frame(e2, 3))
  {
    hide Frame, EntryAddr;
    PathDepth(v);
    if LeadsOn(Read(mem, at[Root], Index(v, 0)), 0) {
      ChildThere(mem, at, Root, Index(v, 0));
      var p1 := Path(v).up.up;
      if LeadsOn(Read(mem, at[p1], Index(v, 1)), 1) {
        ChildThere(mem, at, p1, Index(v, 1));
        var p2 := Path(v).up;
        if LeadsOn(Read(mem, at[p2], Index(v, 2)), 2) {
          ChildThere(mem, at, p2, Index(v, 2));
        }
      }
    }
  }

  /** The code's reading of the entry that ends the walk is the processor's. */
  predicate ReadRight(end: End, v: nat) {
    !Present(end.entry)
    || (end.entry < PHYS_LIMIT && PageBase(end.entry) % Span(end.depth) == v % Span(end.depth) / PAGE * PAGE)
  }

  lemma {:induction false} TakenRight(end: End, v: nat)
    ensures Taken(end.entry, v) == Target(end.entry, v, end.depth) <==> ReadRight(end, v)
  {
    hide Frame, PageBase;
    if Present(end.entry) {
      TakenExactly(end.entry, v, end.depth);
    }
  }

  /** The entry made for a table leads to it. */
  lemma {:induction false} TableEntry(page: nat, flags: nat, write: bool, e: nat)
    requires page % PAGE == 0 && page < MAX_PHYS && EntryFlags(flags) && EntryFlags(Or(flags, PG_WRITE))
    requires e == if write then Or(Or(page, flags), PG_WRITE) else Or(page, flags)
    ensures Frame(e, 3) == page == EntryAddr(e) && Present(e) && !Huge(e)
  {
    hide Or, Frame, EntryAddr;
    if write {
      FlagAdded(page, flags, PG_WRITE);
      EntryMade(page, Or(flags, PG_WRITE));
    } else {
      EntryMade(page, flags);
    }
    TableFound(e);
  }

  lemma {:induction false} ZeroedPage(mem: map<Slot, nat>, at: map<Place, nat>, page: nat, pool: seq<nat>)
    requires PoolOk(mem, at, [page] + pool)
    ensures page % PAGE == 0 && page < MAX_PHYS
  {
    assert FreshFrame(mem, at, ([page] + pool)[0]);
  }

  lemma {:induction false} RootKept(mem: map<Slot, nat>, at: map<Place, nat>, c: Place)
    requires TreeOk(mem, at) && c !in at
    ensures c != Root
  {
  }

  lemma {:induction false} ChildThere(mem: map<Slot, nat>, at: map<Place, nat>, p: Place, i: nat)
    requires TreeOk(mem, at) && p in at && Depth(p) < 3 && i < ENTRIES_PER_TABLE
    requires LeadsOn(Read(mem, at[p], i), Depth(p))
    ensures Child(p, i) in at && at[Child(p, i)] == Frame(Read(mem, at[p], i), 3) == EntryAddr(Read(mem, at[p], i))
  {
    assert TableOk(mem, at, p) && ChildOk(mem, at, p, i) && TableOk(mem, at, Child(p, i));
    TableFound(Read(mem, at[p], i));
  }
}

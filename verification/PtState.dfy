/** Four-level page tables in physical memory, and the flat map from virtual pages to frames they stand
    for (4-level paging, section 4.5 of the Intel SDM, volume 3A). */
module PtState {
  import opened Common
  import opened Bits

  const ENTRIES_PER_TABLE := 512
  const MAX_PHYS := 0x1_0000_0000_0000
  const PAGES := 0x10_0000_0000
  /** Physical addresses have at most 52 bits. */
  const PHYS_LIMIT := 0x10_0000_0000_0000

  // ---------------------------------------------------------------- addresses and entries

  /** The index of `v` in a table at depth 0 (PML4) to 3 (page table). */
  function Index(v: nat, depth: nat): (i: nat)
    ensures i < ENTRIES_PER_TABLE
  {
    if depth == 0 then v / 0x80_0000_0000 % 512
    else if depth == 1 then v / 0x4000_0000 % 512
    else if depth == 2 then v / 0x20_0000 % 512
    else v / 0x1000 % 512
  }

  /** The virtual page of an address: its 36 translated bits. */
  function Vpn(v: nat): nat {
    v / PAGE % PAGES
  }

  predicate Present(e: nat) {
    e % 2 == 1
  }

  predicate Huge(e: nat) {
    e / 128 % 2 == 1
  }

  /** What the code takes for the address in an entry: all but the low 12 bits. */
  function PageBase(e: nat): nat {
    e / PAGE * PAGE
  }

  /** Where the code looks for the table an entry points to. */
  function EntryAddr(e: nat): nat {
    PageBase(e) % MAX_PHYS
  }

  /** How much memory one entry at depth `d` covers: 1 GiB, 2 MiB or 4 KiB. */
  function Span(d: nat): (n: nat)
    ensures n > 0
  {
    if d == 1 then 0x4000_0000 else if d == 2 then 0x20_0000 else PAGE
  }

  /** The address bits of an entry at depth `d` that maps memory. */
  function Frame(e: nat, d: nat): nat {
    e % PHYS_LIMIT / Span(d) * Span(d)
  }

  /** Entry `index` of the table in frame `table`; words nobody has written are zero. */
  datatype Slot = Slot(table: nat, index: nat)

  function Read(mem: map<Slot, nat>, table: nat, index: nat): nat {
    if Slot(table, index) in mem then mem[Slot(table, index)] else 0
  }

  // ---------------------------------------------------------------- the tree of tables

  /** A table's place: the indices that lead to it. */
  datatype Place = Root | Child(up: Place, i: nat)

  function Depth(p: Place): nat {
    match p
    case Root => 0
    case Child(q, _) => Depth(q) + 1
  }

  /** An entry of a table at depth `d` that leads to another table: a huge page does not. */
  predicate LeadsOn(e: nat, d: nat) {
    Present(e) && !(d > 0 && Huge(e))
  }

  ghost predicate ChildOk(mem: map<Slot, nat>, at: map<Place, nat>, p: Place, i: nat)
    requires p in at
  {
    var e := Read(mem, at[p], i);
    (Child(p, i) in at <==> LeadsOn(e, Depth(p))) && (Child(p, i) in at ==> Frame(e, 3) == at[Child(p, i)])
  }

  ghost predicate TableOk(mem: map<Slot, nat>, at: map<Place, nat>, p: Place)
    requires p in at
  {
    Depth(p) <= 3 && (p.Child? ==> p.up in at) && at[p] % PAGE == 0 && at[p] < MAX_PHYS
    && (Depth(p) < 3 ==> forall i | 0 <= i < ENTRIES_PER_TABLE :: ChildOk(mem, at, p, i))
  }

  /** `at` tells the frame of every table. No frame is two tables. */
  ghost predicate TreeOk(mem: map<Slot, nat>, at: map<Place, nat>) {
    Root in at && (forall p <- at :: TableOk(mem, at, p)) && forall p <- at, q <- at :: at[p] == at[q] ==> p == q
  }

  // ---------------------------------------------------------------- translation

  /** What the processor makes of `v` with an entry at depth `d` that ends the walk. */
  function Target(e: nat, v: nat, d: nat): Option<nat> {
    if Present(e) then Some(Frame(e, d) + v % Span(d)) else None
  }

  /** What the tables from place `p` on translate `v` to. */
  ghost function LookupFrom(mem: map<Slot, nat>, at: map<Place, nat>, p: Place, v: nat): Option<nat>
    requires p in at && Depth(p) <= 3
    decreases 3 - Depth(p)
  {
    var i := Index(v, Depth(p));
    var e := Read(mem, at[p], i);
    if Depth(p) < 3 && Child(p, i) in at then LookupFrom(mem, at, Child(p, i), v)
    else Target(e, v, Depth(p))
  }

  ghost function Lookup(mem: map<Slot, nat>, at: map<Place, nat>, v: nat): Option<nat>
    requires TreeOk(mem, at)
  {
    LookupFrom(mem, at, Root, v)
  }

  /** The place of the page table for `v`. */
  function Path(v: nat): Place {
    Child(Child(Child(Root, Index(v, 0)), Index(v, 1)), Index(v, 2))
  }

  /** Addresses with the same indices lie in the same page. */
  lemma {:induction false} PathIsPage(v: nat, w: nat)
    ensures Path(v) == Path(w) && Index(v, 3) == Index(w, 3) <==> Vpn(v) == Vpn(w)
  {
    hide Vpn, Index;
    Digits(v);
    Digits(w);
    SameDigits(Index(v, 0), Index(v, 1), Index(v, 2), Index(v, 3), Index(w, 0), Index(w, 1), Index(w, 2), Index(w, 3));
  }

  lemma {:induction false} SameDigits(a0: nat, a1: nat, a2: nat, a3: nat, b0: nat, b1: nat, b2: nat, b3: nat)
    requires a0 < 512 && a1 < 512 && a2 < 512 && a3 < 512 && b0 < 512 && b1 < 512 && b2 < 512 && b3 < 512
    ensures a0 * 0x800_0000 + a1 * 0x4_0000 + a2 * 0x200 + a3 == b0 * 0x800_0000 + b1 * 0x4_0000 + b2 * 0x200 + b3
      <==> a0 == b0 && a1 == b1 && a2 == b2 && a3 == b3
  {
    if a0 * 0x800_0000 + a1 * 0x4_0000 + a2 * 0x200 + a3 == b0 * 0x800_0000 + b1 * 0x4_0000 + b2 * 0x200 + b3 {
      assert a0 == b0;
      assert a1 == b1;
      assert a2 == b2;
    }
  }

  lemma {:induction false} Digits(v: nat)
    ensures Vpn(v) == Index(v, 0) * 0x800_0000 + Index(v, 1) * 0x4_0000 + Index(v, 2) * 0x200 + Index(v, 3)
  {
    var x := v / PAGE;
    var y := x / 512;
    var z := y / 512;
    var w := z / 512;
    Quotients(v, x, y, z, w);
    var u := w / 512;
    Remainder(x, u, Index(v, 0) * 0x800_0000 + Index(v, 1) * 0x4_0000 + Index(v, 2) * 0x200 + Index(v, 3));
  }

  lemma {:induction false} Quotients(v: nat, x: nat, y: nat, z: nat, w: nat)
    requires x == v / PAGE && y == x / 512 && z == y / 512 && w == z / 512
    ensures v / 0x20_0000 == y && v / 0x4000_0000 == z && v / 0x80_0000_0000 == w
  {
    assert v == 0x20_0000 * y + (PAGE * (x % 512) + v % PAGE);
    assert v == 0x4000_0000 * z + (0x20_0000 * (y % 512) + PAGE * (x % 512) + v % PAGE);
    assert v == 0x80_0000_0000 * w + (0x4000_0000 * (z % 512) + 0x20_0000 * (y % 512) + PAGE * (x % 512) + v % PAGE);
  }

  lemma {:induction false} Remainder(x: nat, u: nat, r: nat)
    requires x == PAGES * u + r && r < PAGES
    ensures x % PAGES == r
  {
  }

  // ---------------------------------------------------------------- the code's reading of entries

  /** Tables lie below 2^48, so the code finds them where the processor does. */
  lemma {:induction false} TableFound(e: nat)
    requires Frame(e, 3) < MAX_PHYS
    ensures EntryAddr(e) == Frame(e, 3)
  {
    var h, a := e / PHYS_LIMIT, e % PHYS_LIMIT;
    assert e / PAGE == h * 0x100_0000_0000 + a / PAGE;
  }

  /** The code adds the low 12 bits of the address to the entry without its low 12 bits. */
  function Taken(e: nat, v: nat): Option<nat> {
    if Present(e) then Some(PageBase(e) + v % PAGE) else None
  }

  /** That is what the processor does exactly if no bit above the address is set and the bits of the entry
      between its low 12 and the bits of its frame are those of the address. */
  lemma {:induction false} TakenExactly(e: nat, v: nat, d: nat)
    requires Present(e)
    ensures Taken(e, v) == Target(e, v, d) <==> e < PHYS_LIMIT && PageBase(e) % Span(d) == v % Span(d) / PAGE * PAGE
  {
    hide Frame, PageBase, Span;
    InPages(e, d);
    AddressInPages(v, d);
    var m := Span(d) / PAGE;
    SameBits(e / PAGE, v / PAGE, m);
  }

  /** An entry's parts, counted in pages. */
  lemma {:induction false} InPages(e: nat, d: nat)
    ensures var q, m := e / PAGE, Span(d) / PAGE;
      (m == 1 || m == 0x200 || m == 0x4_0000) && PageBase(e) == q * PAGE && PageBase(e) % Span(d) == q % m * PAGE
      && Frame(e, d) == q % 0x100_0000_0000 / m * m * PAGE && (e < PHYS_LIMIT <==> q < 0x100_0000_0000)
  {
    var q, m := e / PAGE, if d == 1 then 0x4_0000 else if d == 2 then 0x200 else 1;
    FrameInPages(e, m);
    PagesOf(q * PAGE, m);
  }

  lemma {:induction false} FrameInPages(e: nat, m: nat)
    requires m == 1 || m == 0x200 || m == 0x4_0000
    ensures var q, s := e / PAGE, m * PAGE;
      e % PHYS_LIMIT / s * s == q % 0x100_0000_0000 / m * m * PAGE && (e < PHYS_LIMIT <==> q < 0x100_0000_0000)
  {
    PagesOf(e, 0x100_0000_0000);
    var x, r := e / PAGE % 0x100_0000_0000, e % PAGE;
    assert e % PHYS_LIMIT == x * PAGE + r;
    QuotientIs(x * PAGE + r, m * PAGE, x / m, x % m * PAGE + r);
  }

  lemma {:induction false} AddressInPages(v: nat, d: nat)
    ensures var m := Span(d) / PAGE; m > 0 && v % Span(d) == v / PAGE % m * PAGE + v % PAGE
    ensures var m := Span(d) / PAGE; v % Span(d) / PAGE * PAGE == v / PAGE % m * PAGE
  {
    PagesOf(v, if d == 1 then 0x4_0000 else if d == 2 then 0x200 else 1);
  }

  /** Remainders, counted in pages. */
  lemma {:induction false} PagesOf(v: nat, m: nat)
    requires m == 1 || m == 0x200 || m == 0x4_0000 || m == 0x100_0000_0000
    ensures v % (m * PAGE) == v / PAGE % m * PAGE + v % PAGE && v % (m * PAGE) / PAGE == v / PAGE % m
  {
    var q, r := v / PAGE, v % PAGE;
    assert v == q * PAGE + r;
    QuotientIs(v, m * PAGE, q / m, q % m * PAGE + r);
    QuotientIs(q % m * PAGE + r, PAGE, q % m, r);
  }

  lemma {:induction false} SameBits(q: nat, w: nat, m: nat)
    requires m == 1 || m == 0x200 || m == 0x4_0000
    ensures q == q % 0x100_0000_0000 / m * m + w % m <==> q < 0x100_0000_0000 && q % m == w % m
  {
  }

  /** In particular, for a large page that is aligned, exactly for its first 4 KiB. */
  lemma {:induction false} FirstPageOnly(e: nat, v: nat, d: nat)
    requires Present(e) && e < PHYS_LIMIT && PageBase(e) % Span(d) == 0
    ensures Taken(e, v) == Target(e, v, d) <==> v % Span(d) < PAGE
  {
    TakenExactly(e, v, d);
  }

  // ---------------------------------------------------------------- writes

  /** Places along the way to `v`. */
  ghost predicate OnWay(p: Place, v: nat) {
    match p
    case Root => true
    case Child(q, i) => Depth(q) < 3 && i == Index(v, Depth(q)) && OnWay(q, v)
  }

  lemma {:induction false} WayEnds(p: Place, v: nat)
    requires OnWay(p, v) && Depth(p) == 3
    ensures p == Path(v)
  {
    assert Depth(p.up) == 2 && Depth(p.up.up) == 1 && Depth(p.up.up.up) == 0;
    assert OnWay(p.up, v) && OnWay(p.up.up, v);
  }

  /** The tables along the way to a page table are there. */
  lemma {:induction false} WayThere(mem: map<Slot, nat>, at: map<Place, nat>, p: Place, v: nat)
    requires TreeOk(mem, at) && OnWay(p, v) && Depth(p) <= 3 && Path(v) in at
    ensures p in at
  {
    var t := Path(v);
    assert TableOk(mem, at, t) && TableOk(mem, at, t.up) && TableOk(mem, at, t.up.up);
    if Depth(p) == 3 {
      WayEnds(p, v);
    } else if Depth(p) == 2 {
      assert Depth(p.up) == 1 && Depth(p.up.up) == 0 && OnWay(p.up, v);
    } else if Depth(p) == 1 {
      assert Depth(p.up) == 0;
    }
  }

  ghost function WrittenLookup(mem: map<Slot, nat>, at: map<Place, nat>, p: Place, i: nat, e: nat, v: nat): Option<nat>
    requires TreeOk(mem, at)
  {
    if Path(v) == p && Index(v, 3) == i then Target(e, v, 3) else Lookup(mem, at, v)
  }

  /** Writing an entry of a page table changes what its one page is translated to. */
  lemma {:induction false} EntryWritten(mem: map<Slot, nat>, at: map<Place, nat>, p: Place, i: nat, e: nat)
    requires TreeOk(mem, at) && p in at && Depth(p) == 3 && i < ENTRIES_PER_TABLE
    ensures TreeOk(mem[Slot(at[p], i) := e], at)
    ensures forall v: nat :: Lookup(mem[Slot(at[p], i) := e], at, v) == WrittenLookup(mem, at, p, i, e, v)
  {
    var mem' := mem[Slot(at[p], i) := e];
    forall q <- at ensures TableOk(mem', at, q) {
      assert TableOk(mem, at, q);
      forall j | 0 <= j < ENTRIES_PER_TABLE && Depth(q) < 3 ensures ChildOk(mem', at, q, j) {
        assert ChildOk(mem, at, q, j);
      }
    }
    forall v: nat ensures Lookup(mem', at, v) == WrittenLookup(mem, at, p, i, e, v) {
      WrittenFrom(mem, at, p, i, e, Root, v);
    }
  }

  lemma {:induction false} WrittenFrom(mem: map<Slot, nat>, at: map<Place, nat>, p: Place, i: nat, e: nat, q: Place,
                                       v: nat)
    requires TreeOk(mem, at) && p in at && Depth(p) == 3 && q in at && OnWay(q, v) && Depth(q) <= 3
    ensures LookupFrom(mem[Slot(at[p], i) := e], at, q, v) ==
      if Path(v) == p && Index(v, 3) == i then Target(e, v, 3) else LookupFrom(mem, at, q, v)
    decreases 3 - Depth(q)
  {
    if Depth(q) == 3 {
      WayEnds(q, v);
    } else {
      var j := Index(v, Depth(q));
      assert TableOk(mem, at, q) && ChildOk(mem, at, q, j);
      if Child(q, j) in at {
        WrittenFrom(mem, at, p, i, e, Child(q, j), v);
      } else {
        assert at[q] != at[p];
        if Path(v) == p {
          WayThere(mem, at, Child(q, j), v);
        }
      }
    }
  }

  // ---------------------------------------------------------------- new tables

  /** Frame `f` is no table, and all its words are zero. */
  ghost predicate FreshFrame(mem: map<Slot, nat>, at: map<Place, nat>, f: nat) {
    f % PAGE == 0 && f < MAX_PHYS && (forall p <- at :: at[p] != f) && forall s <- mem :: s.table != f
  }

  /** Hanging a fresh zeroed table where nothing was changes no translation. */
  lemma {:induction false} TableAdded(mem: map<Slot, nat>, at: map<Place, nat>, p: Place, i: nat, f: nat, e: nat)
    requires TreeOk(mem, at) && p in at && Depth(p) < 3 && i < ENTRIES_PER_TABLE && !Present(Read(mem, at[p], i))
    requires FreshFrame(mem, at, f) && Frame(e, 3) == f && Present(e) && !Huge(e)
    ensures Child(p, i) !in at && TreeOk(mem[Slot(at[p], i) := e], at[Child(p, i) := f])
    ensures forall v: nat :: Lookup(mem[Slot(at[p], i) := e], at[Child(p, i) := f], v) == Lookup(mem, at, v)
  {
    var mem', at', c := mem[Slot(at[p], i) := e], at[Child(p, i) := f], Child(p, i);
    assert TableOk(mem, at, p) && ChildOk(mem, at, p, i);
    forall q <- at' ensures TableOk(mem', at', q) {
      if q in at {
        assert TableOk(mem, at, q);
        forall j | 0 <= j < ENTRIES_PER_TABLE && Depth(q) < 3 ensures ChildOk(mem', at', q, j) {
          assert ChildOk(mem, at, q, j);
        }
      } else {
        forall j | 0 <= j < ENTRIES_PER_TABLE && Depth(q) < 3 ensures ChildOk(mem', at', q, j) {
          NoGrandchild(mem, at, c, j);
        }
      }
    }
    forall v: nat ensures Lookup(mem', at', v) == Lookup(mem, at, v) {
      AddedFrom(mem, at, p, i, f, e, Root, v);
    }
  }

  lemma {:induction false} NoGrandchild(mem: map<Slot, nat>, at: map<Place, nat>, c: Place, j: nat)
    requires TreeOk(mem, at) && c !in at
    ensures Child(c, j) !in at
  {
    assert Child(c, j) in at ==> TableOk(mem, at, Child(c, j));
  }

  lemma {:induction false} AddedFrom(mem: map<Slot, nat>, at: map<Place, nat>, p: Place, i: nat, f: nat, e: nat,
                                     q: Place, v: nat)
    requires TreeOk(mem, at) && p in at && Depth(p) < 3 && Child(p, i) !in at && !Present(Read(mem, at[p], i))
    requires FreshFrame(mem, at, f)
    requires q in at && Depth(q) <= 3
    ensures LookupFrom(mem[Slot(at[p], i) := e], at[Child(p, i) := f], q, v) == LookupFrom(mem, at, q, v)
    decreases 3 - Depth(q)
  {
    if Depth(q) < 3 {
      var j := Index(v, Depth(q));
      if Child(q, j) in at {
        AddedFrom(mem, at, p, i, f, e, Child(q, j), v);
      } else if q == p && j == i {
        NoGrandchild(mem, at, Child(p, i), Index(v, Depth(p) + 1));
      }
    }
  }
}

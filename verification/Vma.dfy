/** A process's list of memory areas: linked both ways, sorted, walked and changed in place. */
module Vma {
  import opened Common
  import opened VmaSpec

  /** `attrs` stands for the flags, the file and the segment of an area. */
  class VmDesc {
    var start: nat
    var end: nat
    var attrs: nat
    var next: VmDesc?
    var prev: VmDesc?

    constructor (start: nat, end: nat, attrs: nat)
      ensures this.start == start && this.end == end && this.attrs == attrs
    {
      this.start, this.end, this.attrs := start, end, attrs;
      next, prev := null, null;
    }
  }

  function At(s: seq<VmDesc>, i: int): VmDesc? {
    if 0 <= i < |s| then s[i] else null
  }

  function AreaOf(v: VmDesc): Area<nat>
    reads v
  {
    Area(v.start, v.end, v.attrs)
  }

  function Areas(s: seq<VmDesc>): (r: seq<Area<nat>>)
    reads s
    ensures |r| == |s|
  {
    if s == [] then [] else [AreaOf(s[0])] + Areas(s[1..])
  }

  lemma {:induction false} AreasAt(s: seq<VmDesc>)
    ensures forall i | 0 <= i < |s| :: Areas(s)[i] == AreaOf(s[i])
  {
    if s != [] {
      AreasAt(s[1..]);
      assert forall i | 1 <= i < |s| :: s[i] == s[1..][i - 1];
    }
  }

  lemma {:induction false} AreasAre(s: seq<VmDesc>, areas: seq<Area<nat>>)
    requires |areas| == |s| && forall i | 0 <= i < |s| :: areas[i] == AreaOf(s[i])
    ensures Areas(s) == areas
  {
    AreasAt(s);
  }

  function Replaced(areas: seq<Area<nat>>, k: nat, c: seq<Area<nat>>): seq<Area<nat>>
    requires k < |areas|
  {
    areas[..k] + c + areas[k + 1..]
  }

  ghost predicate Row(s: seq<VmDesc>, i: int)
    requires 0 <= i < |s|
    reads s
  {
    s[i].next == At(s, i + 1) && s[i].prev == At(s, i - 1)
  }

  /** `s` is the list that starts at `head`. */
  ghost predicate Linked(s: seq<VmDesc>, head: VmDesc?)
    reads s
  {
    NoDuplicates(s) && head == At(s, 0) && forall i | 0 <= i < |s| :: Row(s, i)
  }

  class Mm {
    var mmap: VmDesc?
    var totalVm: int
    ghost var list: seq<VmDesc>

    ghost predicate Valid()
      reads this, list
    {
      Linked(list, mmap) && Ordered(Areas(list))
    }

    /** The attributes of the area `addr` lies in. */
    method FindVma(addr: nat) returns (v: VmDesc?)
      requires Valid()
      ensures v == null <==> Find(Areas(list), addr) == None
      ensures v != null ==> v in list && v.start <= addr < v.end && Find(Areas(list), addr) == Some(v.attrs)
    {
      v := mmap;
      ghost var k := 0;
      assert list[0..] == list;
      while v != null
        invariant 0 <= k <= |list| && v == At(list, k) && Find(Areas(list), addr) == Find(Areas(list[k..]), addr)
        decreases |list| - k
      {
        assert Row(list, k) && list[k..][1..] == list[k + 1..];
        if v.start <= addr < v.end {
          return;
        }
        v, k := v.next, k + 1;
      }
    }

    // -------------------------------------------------------------- links

    /** Links `v` in front. */
    method LinkFront(v: VmDesc)
      requires Linked(list, mmap) && v !in list
      modifies this`mmap, this`list, list, v
      ensures list == [v] + old(list) && Linked(list, mmap)
      ensures forall x <- list :: AreaOf(x) == old(AreaOf(x))
    {
      ghost var s := list;
      assert s != [] ==> Row(s, 0) && s[0] in s;
      v.next := mmap;
      v.prev := null;
      if mmap != null {
        mmap.prev := v;
      }
      mmap := v;
      list := [v] + s;
      forall i | 0 <= i < |list| ensures Row(list, i) {
        assert i > 0 ==> list[i] == s[i - 1] && old(Row(s, i - 1));
      }
    }

    /** Links `v` after `p`, the element before place `k`. */
    method LinkAfter(p: VmDesc, v: VmDesc, ghost k: nat)
      requires Linked(list, mmap) && v !in list && 0 < k <= |list| && list[k - 1] == p
      modifies this`list, list, v
      ensures list == old(list)[..k] + [v] + old(list)[k..] && Linked(list, mmap)
      ensures forall x <- list :: AreaOf(x) == old(AreaOf(x))
    {
      ghost var s := list;
      assert Row(s, k - 1) && (k < |s| ==> Row(s, k));
      v.next := p.next;
      v.prev := p;
      if p.next != null {
        p.next.prev := v;
      }
      p.next := v;
      list := s[..k] + [v] + s[k..];
      forall i | 0 <= i < |list| ensures Row(list, i) {
        assert i < k ==> list[i] == s[i] && old(Row(s, i));
        assert i > k ==> list[i] == s[i - 1] && old(Row(s, i - 1));
      }
    }

    /** Takes `v`, at place `k`, out. */
    method Unlink(v: VmDesc, ghost k: nat)
      requires Linked(list, mmap) && k < |list| && list[k] == v
      modifies this`mmap, this`list, list
      ensures list == old(list)[..k] + old(list)[k + 1..] && Linked(list, mmap) && v !in list
      ensures forall x <- old(list) :: AreaOf(x) == old(AreaOf(x))
    {
      ghost var s := list;
      assert Row(s, k) && (k > 0 ==> Row(s, k - 1)) && (k + 1 < |s| ==> Row(s, k + 1));
      if v.prev != null {
        v.prev.next := v.next;
      } else {
        mmap := v.next;
      }
      if v.next != null {
        v.next.prev := v.prev;
      }
      v.next := null;
      v.prev := null;
      list := s[..k] + s[k + 1..];
      forall i | 0 <= i < |list| ensures Row(list, i) {
        assert i < k ==> list[i] == s[i] && old(Row(s, i));
        assert i >= k ==> list[i] == s[i + 1] && old(Row(s, i + 1));
      }
    }

    // -------------------------------------------------------------- insertion and removal

    /** What an area that starts at `start` goes after; null if it goes to the front. */
    method LastBefore(start: nat) returns (p: VmDesc?)
      requires Valid()
      ensures p == At(list, Slot(Areas(list), start) - 1)
    {
      hide Place, NoDuplicates;
      AreasAt(list);
      PlaceFacts(Areas(list), start);
      ghost var k := Slot(Areas(list), start);
      if mmap == null || start < mmap.start {
        return null;
      }
      p := mmap;
      ghost var j := 0;
      while p.next != null && p.next.start < start
        invariant 0 <= j < |list| && p == list[j] && j < k
        decreases |list| - j
      {
        assert Row(list, j);
        p, j := p.next, j + 1;
      }
      assert Row(list, j);
    }

    /** Links `v` at place `k`: in front, or after `p`. */
    method Link(v: VmDesc, p: VmDesc?, ghost k: nat)
      requires Linked(list, mmap) && v !in list && k <= |list| && p == At(list, k - 1)
      modifies this`mmap, this`list, list, v
      ensures Linked(list, mmap) && Areas(list) == old(Areas(list))[..k] + [old(AreaOf(v))] + old(Areas(list))[k..]
    {
      hide Linked, NoDuplicates;
      ghost var s, areas := list, Areas(list);
      AreasAt(s);
      if p == null {
        LinkFront(v);
        assert list == s[..k] + [v] + s[k..];
        AreasInserted(s, k, v, areas);
      } else {
        LinkAfter(p, v, k);
        AreasInserted(s, k, v, areas);
      }
    }

    /** Puts `v` into its place by start address. */
    method VmaListInsert(v: VmDesc)
      requires Valid() && v !in list
      modifies this, list, v
      ensures Linked(list, mmap) && Areas(list) == Insert(old(Areas(list)), old(AreaOf(v)))
      ensures Valid() <==> old(v.start < v.end && Outside(Areas(list), v.start, v.end))
      ensures totalVm == old(totalVm) + old(v.end) - old(v.start)
    {
      hide Ordered, Linked, Place, Outside, At, Slot;
      totalVm := totalVm + v.end - v.start;
      ghost var areas := Areas(list);
      InsertOrdered(areas, AreaOf(v));
      AreasAt(list);
      var p := LastBefore(v.start);
      Link(v, p, Slot(areas, v.start));
    }

    /** Takes `v` out of the list and out of the account. */
    method VmaListRemove(v: VmDesc, ghost k: nat)
      requires Linked(list, mmap) && k < |list| && list[k] == v
      modifies this, list
      ensures Linked(list, mmap) && list == old(list)[..k] + old(list)[k + 1..] && v !in list
      ensures Areas(list) == Replaced(old(Areas(list)), k, []) && At(list, k) == At(old(list), k + 1)
      ensures totalVm == old(totalVm) - old(v.end - v.start)
    {
      ghost var s, areas := list, Areas(list);
      AreasAt(s);
      totalVm := totalVm - (v.end - v.start);
      Unlink(v, k);
      AreasLeft(s, k, areas);
    }

    // -------------------------------------------------------------- carving out a range

    /** Moves the bounds of `v`, and the account with them. */
    method SetBounds(v: VmDesc, start: nat, end: nat, ghost k: nat)
      requires Linked(list, mmap) && k < |list| && list[k] == v
      modifies v, this`totalVm
      ensures Linked(list, mmap) && Areas(list) == Replaced(old(Areas(list)), k, [Area(start, end, v.attrs)])
      ensures totalVm == old(totalVm) + (end - start) - old(v.end - v.start) && v.attrs == old(v.attrs)
    {
      ghost var s, areas := list, Areas(list);
      AreasAt(s);
      totalVm := totalVm + (end - start) - (v.end - v.start);
      v.start, v.end := start, end;
      forall i | 0 <= i < |s| ensures Row(s, i) {
        assert old(Row(s, i));
      }
      AreasChanged(s, k, areas, AreaOf(v));
    }

    /** Splits `v`, which spans the range, into what lies before it and, in a fresh tail, what lies after. */
    method SplitAround(v: VmDesc, lo: nat, hi: nat, ghost k: nat) returns (tail: VmDesc)
      requires Linked(list, mmap) && k < |list| && list[k] == v && v.start < lo <= hi < v.end
      modifies this`list, this`totalVm, list
      ensures Linked(list, mmap) && fresh(tail) && list == old(list)[..k + 1] + [tail] + old(list)[k + 1..]
      ensures Areas(list) == Replaced(old(Areas(list)), k, [old(AreaOf(v)).(end := lo), old(AreaOf(v)).(start := hi)])
      ensures At(list, k + 2) == At(old(list), k + 1)
      ensures totalVm == old(totalVm) - (hi - lo)
    {
      hide Linked, Cut, Bytes, Replaced, Areas;
      ghost var s, areas, a := list, Areas(list), AreaOf(v);
      tail := new VmDesc(hi, v.end, v.attrs);
      SetBounds(v, v.start, lo, k);
      ghost var areas1 := Areas(list);
      AreasAt(s);
      totalVm := totalVm + (tail.end - tail.start);
      LinkAfter(v, tail, k + 1);
      AreasInserted(s, k + 1, tail, areas1);
      Spliced(areas, k, a.(end := lo), a.(start := hi), areas1);
    }

    /** Leaves of `v` what lies outside the range. */
    method CarveOne(v: VmDesc, lo: nat, hi: nat, ghost k: nat) returns (split: bool)
      requires Linked(list, mmap) && k < |list| && list[k] == v && lo <= hi && v.start < v.end && v.start < hi
      requires lo < v.end
      modifies this, list
      ensures Linked(list, mmap) && forall x <- list :: x in old(list) || fresh(x)
      ensures Areas(list) == Replaced(old(Areas(list)), k, Cut(old(AreaOf(v)), lo, hi))
      ensures At(list, k + |Cut(old(AreaOf(v)), lo, hi)|) == At(old(list), k + 1)
      ensures totalVm == old(totalVm) + Bytes(Cut(old(AreaOf(v)), lo, hi)) - Bytes([old(AreaOf(v))])
      ensures split ==> hi < old(v.end)
    {
      hide Linked, Cut, Bytes, Replaced;
      ghost var a := AreaOf(v);
      split := false;
      CutBytes(a, lo, hi);
      if v.start >= lo && v.end <= hi {
        VmaListRemove(v, k);
      } else if v.start < lo && v.end > hi {
        var tail := SplitAround(v, lo, hi, k);
        split := true;
      } else if v.start < lo {
        SetBounds(v, v.start, lo, k);
      } else {
        SetBounds(v, hi, v.end, k);
      }
    }

    /** The walk stands at `v`, with the areas before the `j`-th carved. */
    ghost predicate Walking(areas: seq<Area<nat>>, lo: nat, hi: nat, j: nat, v: VmDesc?)
      reads this, list
    {
      j <= |areas| && Linked(list, mmap) && Carving(areas, lo, hi, j, Areas(list))
      && v == At(list, |Carve(areas[..j], lo, hi)|)
      && (j < |areas| ==> lo < areas[j].end)
    }

    /** One step of the walk. */
    method CarveNext(v: VmDesc, lo: nat, hi: nat, ghost areas: seq<Area<nat>>, ghost j: nat)
      returns (next: VmDesc?, split: bool)
      requires Walking(areas, lo, hi, j, v) && Ordered(areas) && lo <= hi && v.start < hi
      modifies this, list
      ensures j < |areas| && Walking(areas, lo, hi, j + 1, next)
      ensures (forall x <- list :: x in old(list) || fresh(x)) && (split ==> hi < areas[j].end)
      ensures totalVm == old(totalVm) + Bytes(Areas(list)) - Bytes(old(Areas(list)))
    {
      hide Linked, Ordered, Cut, Bytes, Replaced, Carving;
      ghost var k, now := |Carve(areas[..j], lo, hi)|, Areas(list);
      AreasAt(list);
      NextCarved(areas, lo, hi, j, now);
      NextLink(list, mmap, k);
      next := v.next;
      split := CarveOne(v, lo, hi, k);
    }

    /** Removes, shortens or splits the areas that overlap the range. */
    method UnmapRange(lo: nat, hi: nat)
      requires Valid() && lo <= hi
      modifies this, list
      ensures Valid() && (forall x <- list :: x in old(list) || fresh(x))
      ensures Areas(list) == Carve(old(Areas(list)), lo, hi)
      ensures totalVm == old(totalVm) + Bytes(Areas(list)) - Bytes(old(Areas(list)))
    {
      hide Linked, Ordered, Cut, Bytes, Carving, Rest, Areas, Carve;
      ghost var areas := Areas(list);
      CarveOrdered(areas, lo, hi, 0);
      var v := FirstAfter(lo);
      ghost var j := SkippedCarved(areas, lo, hi, list, v);
      ghost var cut := false;
      while v != null && v.start < hi
        invariant 0 <= j <= |areas| && Walking(areas, lo, hi, j, v) && (forall x <- list :: x in old(list) || fresh(x))
        invariant totalVm == old(totalVm) + Bytes(Areas(list)) - Bytes(areas) && !cut
        decreases |areas| - j
      {
        var split;
        assert forall i | 0 <= i < |list| :: list[i] in list;
        v, split := CarveNext(v, lo, hi, areas, j);
        j := j + 1;
        if split {
          cut := true;
          break;
        }
      }
      AreasAt(list);
      RestAfter(areas, lo, hi, j, Areas(list));
      AllCarved(areas, lo, hi, j, Areas(list));
    }

    /** The first area that ends after `lo`. */
    method FirstAfter(lo: nat) returns (v: VmDesc?)
      requires Valid()
      ensures exists j :: 0 <= j <= |list| && Skipping(Areas(list), lo, j) && v == At(list, j)
    {
      hide Ordered, NoDuplicates;
      AreasAt(list);
      v := mmap;
      ghost var j := 0;
      while v != null && v.end <= lo
        invariant 0 <= j <= |list| && v == At(list, j) && forall i | 0 <= i < j :: Areas(list)[i].end <= lo
        decreases |list| - j
      {
        assert Row(list, j);
        v, j := v.next, j + 1;
      }
      assert Skipping(Areas(list), lo, j);
    }

    /** Maps a fixed range, overriding what was there; `accepted` tells whether a file, if there is one,
        can be mapped. A length of zero leaves an empty area in the list. */
    method MmapFixed(addr: nat, length: nat, attrs: nat, accepted: bool) returns (r: int)
      requires Valid() && addr < WORD && length < WORD
      modifies this, list
      ensures Linked(list, mmap) && var hi := MapEnd(addr, length);
        if !FixedOk(addr, length) then r == -EINVAL && list == old(list) && totalVm == old(totalVm)
        else if !accepted then r < 0 && Areas(list) == Carve(old(Areas(list)), addr, hi)
        else r == addr && Areas(list) == Override(old(Areas(list)), Area(addr, hi, attrs))
      ensures Valid() <==> !(FixedOk(addr, length) && accepted && NumPages(length) == 0)
      ensures !FixedOk(addr, length) ==> Areas(list) == old(Areas(list))
      ensures totalVm == old(totalVm) + Bytes(Areas(list)) - Bytes(old(Areas(list)))
    {
      hide Linked, Ordered, Bytes, Carve, Outside;
      if addr == 0 || addr % PAGE != 0 {
        return -EINVAL;
      }
      var hi := MapEnd(addr, length);
      if hi < addr || hi >= USER_MAX {
        return -EINVAL;
      }
      ghost var areas := Areas(list);
      EndMoves(addr, length);
      UnmapRange(addr, hi);
      CarveOrdered(areas, addr, hi, 0);
      if !accepted {
        return -EBADF;
      }
      var v := new VmDesc(addr, hi, attrs);
      InsertOrdered(Areas(list), AreaOf(v));
      assert forall i | 0 <= i < |list| :: list[i] in list;
      VmaListInsert(v);
      r := addr;
    }
  }

  const USER_MAX := 0x7FFF_FFFF_FFFF
  const EINVAL := 22
  const EBADF := 9

  /** The page count as the C `int` it is kept in. */
  function NumPages(length: nat): int {
    AsInt((length + PAGE - 1) % WORD / PAGE)
  }

  function MapEnd(addr: nat, length: nat): nat {
    (addr + NumPages(length) * PAGE) % WORD
  }

  predicate FixedOk(addr: nat, length: nat) {
    addr != 0 && addr % PAGE == 0 && addr <= MapEnd(addr, length) < USER_MAX
  }

  /** A fixed mapping is accepted exactly at a page that is not 0, if it ends below the limit: with the length
      rounded up to pages, of which there must be fewer than 2^31 after 2^32 and more have been forgotten. */
  lemma {:induction false} FixedWhen(addr: nat, length: nat)
    requires addr < WORD && length < WORD
    ensures var pages := (length + 4095) % WORD / 4096 % 0x1_0000_0000;
      (FixedOk(addr, length)
       <==> addr != 0 && addr % 4096 == 0 && pages < 0x8000_0000 && addr + pages * 4096 < USER_MAX)
      && (FixedOk(addr, length) ==> MapEnd(addr, length) == addr + pages * 4096)
  {
    var pages := (length + 4095) % WORD / 4096 % 0x1_0000_0000;
    var n := NumPages(length);
    assert n == if pages < 0x8000_0000 then pages else pages - 0x1_0000_0000;
    if n < 0 {
      assert -0x800_0000_0000 <= n * PAGE < 0;
    }
  }

  lemma {:induction false} EndMoves(addr: nat, length: nat)
    requires FixedOk(addr, length) && addr < WORD
    ensures addr < MapEnd(addr, length) <==> NumPages(length) != 0
  {
    var n := NumPages(length) * PAGE;
    assert -0x800_0000_0000 <= n <= 0x800_0000_0000;
    assert n >= 0 ==> MapEnd(addr, length) == addr + n;
  }

  /** The range ends where the caller asked, rounded up, exactly up to lengths below 8 TiB or so. */
  lemma {:induction false} EndAsAsked(addr: nat, length: nat)
    requires addr % PAGE == 0 && length < WORD && addr + length < USER_MAX
    ensures MapEnd(addr, length) == addr + (length + PAGE - 1) / PAGE * PAGE <==> length <= 0x7FF_FFFF_F000
  {
    var k := (length + PAGE - 1) / PAGE;
    assert length <= 0x7FF_FFFF_F000 <==> k <= 0x7FFF_FFFF;
    EndIs(addr, length, k);
  }

  /** No page at all is mapped exactly for lengths that round up to a multiple of 2^44, as 0 does. */
  lemma {:induction false} NothingMapped(length: nat)
    requires length < WORD
    ensures NumPages(length) == 0 <==> (length + PAGE - 1) % 0x1000_0000_0000 < PAGE
  {
    PagesModulo((length + PAGE - 1) % WORD);
  }

  lemma {:induction false} PagesModulo(x: nat)
    ensures x / PAGE % 0x1_0000_0000 == x % 0x1000_0000_0000 / PAGE
  {
    var q, r := x / 0x1000_0000_0000, x % 0x1000_0000_0000;
    assert x / PAGE == q * 0x1_0000_0000 + r / PAGE;
  }

  lemma {:induction false} EndIs(addr: nat, length: nat, k: nat)
    requires length < USER_MAX && addr < USER_MAX && k == (length + PAGE - 1) / PAGE
    ensures MapEnd(addr, length) == addr + k * PAGE <==> k <= 0x7FFF_FFFF
  {
    assert k <= 0x8_0000_0000;
    var m := k / 0x1_0000_0000;
    var n := NumPages(length);
    assert n == k - m * 0x1_0000_0000 || n == k - m * 0x1_0000_0000 - 0x1_0000_0000;
    if n >= 0 {
      assert addr + n * PAGE < WORD;
    } else {
      assert -0x800_0000_0000 <= n * PAGE;
    }
  }

  /** Areas before `j` end before the range, and the next one does not. */
  ghost predicate Skipping(areas: seq<Area<nat>>, lo: nat, j: nat) {
    j <= |areas| && (forall i | 0 <= i < j :: areas[i].end <= lo) && (j < |areas| ==> lo < areas[j].end)
  }

  /** The areas before `j` have been carved, the rest is as it was. */
  ghost predicate Carving(areas: seq<Area<nat>>, lo: nat, hi: nat, j: nat, now: seq<Area<nat>>) {
    j <= |areas| && now == Carve(areas[..j], lo, hi) + areas[j..]
  }

  /** The areas from `j` on lie after the range. */
  ghost predicate Rest(areas: seq<Area<nat>>, hi: nat, j: nat) {
    j <= |areas| && From(areas[j..], hi)
  }

  lemma {:induction false} SkippedCarved(areas: seq<Area<nat>>, lo: nat, hi: nat, list: seq<VmDesc>, v: VmDesc?)
    returns (j: nat)
    requires Ordered(areas) && lo <= hi && |list| == |areas|
    requires exists j :: 0 <= j <= |list| && Skipping(areas, lo, j) && v == At(list, j)
    ensures Carving(areas, lo, hi, j, areas) && v == At(list, |Carve(areas[..j], lo, hi)|) && j <= |areas|
    ensures j < |areas| ==> lo < areas[j].end
  {
    j :| 0 <= j <= |list| && Skipping(areas, lo, j) && v == At(list, j);
    SkippedKept(areas, lo, hi, j);
  }

  lemma {:induction false} SkippedKept(areas: seq<Area<nat>>, lo: nat, hi: nat, j: nat)
    requires Ordered(areas) && lo <= hi && j <= |areas| && forall i | 0 <= i < j :: areas[i].end <= lo
    ensures Carve(areas[..j], lo, hi) == areas[..j] && Carving(areas, lo, hi, j, areas)
  {
    hide Carve, Cut;
    var front := areas[..j];
    assert areas == front + areas[j..];
    assert Ordered(front) && Outside(front, lo, hi);
    CarveOutside(front, lo, hi);
  }

  lemma {:induction false} NextLink(list: seq<VmDesc>, head: VmDesc?, k: nat)
    requires Linked(list, head) && k < |list|
    ensures list[k].next == At(list, k + 1)
  {
    assert Row(list, k);
  }

  /** What carving the next area makes of the whole. */
  lemma {:induction false} NextCarved(areas: seq<Area<nat>>, lo: nat, hi: nat, j: nat, now: seq<Area<nat>>)
    requires Carving(areas, lo, hi, j, now) && |Carve(areas[..j], lo, hi)| < |now| && Ordered(areas)
    ensures var k := |Carve(areas[..j], lo, hi)|; j < |areas| && now[k] == areas[j] && areas[j].start < areas[j].end
    ensures var k, c := |Carve(areas[..j], lo, hi)|, Cut(areas[j], lo, hi);
      Carving(areas, lo, hi, j + 1, Replaced(now, k, c)) && |Carve(areas[..j + 1], lo, hi)| == k + |c|
      && Bytes(Replaced(now, k, c)) == Bytes(now) + Bytes(c) - Bytes([areas[j]])
    ensures j + 1 < |areas| ==> areas[j].end < areas[j + 1].end
  {
    var d, c := Carve(areas[..j], lo, hi), Cut(areas[j], lo, hi);
    var k, rest := |d|, areas[j + 1..];
    assert areas[j..] == [areas[j]] + rest && areas[..j + 1] == areas[..j] + [areas[j]];
    CarveJoin(areas[..j], [areas[j]], lo, hi);
    assert Carve([areas[j]], lo, hi) == c by {
      assert [areas[j]][1..] == [];
    }
    assert now == d + ([areas[j]] + rest);
    assert Replaced(now, k, c) == d + c + rest;
    BytesJoin(d, [areas[j]] + rest);
    BytesJoin([areas[j]], rest);
    BytesJoin(d + c, rest);
    BytesJoin(d, c);
  }

  lemma {:induction false} RestAfter(areas: seq<Area<nat>>, lo: nat, hi: nat, j: nat, now: seq<Area<nat>>)
    requires Carving(areas, lo, hi, j, now) && Ordered(areas)
    requires var k := |Carve(areas[..j], lo, hi)|;
      |now| <= k || (k < |now| && hi <= now[k].start) || (0 < j && hi < areas[j - 1].end)
    ensures Rest(areas, hi, j)
  {
    var rest := areas[j..];
    forall i | 0 <= i < |rest| ensures hi <= rest[i].start {
      assert rest[i] == areas[j + i];
      if 0 < j && hi < areas[j - 1].end {
        assert areas[j - 1].end <= areas[j + i].start;
      } else {
        assert i > 0 ==> areas[j].end <= areas[j + i].start;
      }
    }
  }

  lemma {:induction false} AllCarved(areas: seq<Area<nat>>, lo: nat, hi: nat, j: nat, now: seq<Area<nat>>)
    requires Carving(areas, lo, hi, j, now) && Rest(areas, hi, j) && Ordered(areas) && lo <= hi
    ensures now == Carve(areas, lo, hi)
  {
    assert areas == areas[..j] + areas[j..];
    OrderedParts(areas[..j], areas[j..]);
    CarveOutside(areas[j..], lo, hi);
    CarveJoin(areas[..j], areas[j..], lo, hi);
  }

  lemma {:induction false} AreasLeft(s: seq<VmDesc>, k: nat, areas: seq<Area<nat>>)
    requires k < |s| == |areas| && forall i | 0 <= i < |s| :: AreaOf(s[i]) == areas[i]
    ensures Areas(s[..k] + s[k + 1..]) == Replaced(areas, k, [])
  {
    AreasAre(s[..k] + s[k + 1..], Replaced(areas, k, []));
  }

  lemma {:induction false} AreasChanged(s: seq<VmDesc>, k: nat, areas: seq<Area<nat>>, a: Area<nat>)
    requires k < |s| == |areas| && (forall i | 0 <= i < |s| && i != k :: AreaOf(s[i]) == areas[i]) && AreaOf(s[k]) == a
    ensures Areas(s) == Replaced(areas, k, [a])
  {
    AreasAre(s, Replaced(areas, k, [a]));
  }

  lemma {:induction false} Spliced(areas: seq<Area<nat>>, k: nat, a: Area<nat>, b: Area<nat>, areas1: seq<Area<nat>>)
    requires k < |areas| && areas1 == Replaced(areas, k, [a])
    ensures areas1[..k + 1] + [b] + areas1[k + 1..] == Replaced(areas, k, [a, b])
  {
  }

  lemma {:induction false} CutBytes(a: Area<nat>, lo: nat, hi: nat)
    requires a.start < a.end && lo <= hi && a.start < hi && lo < a.end
    ensures var c := Cut(a, lo, hi);
      if a.start >= lo && a.end <= hi then c == []
      else if a.start < lo && a.end > hi then c == [a.(end := lo), a.(start := hi)]
      else if a.start < lo then c == [a.(end := lo)]
      else c == [a.(start := hi)]
    ensures Bytes(Cut(a, lo, hi)) - Bytes([a]) ==
      if a.start >= lo && a.end <= hi then a.start - a.end
      else if a.start < lo && a.end > hi then lo - hi
      else if a.start < lo then lo - a.end
      else a.start - hi
  {
    var c := Cut(a, lo, hi);
    assert [a][1..] == [];
    if |c| > 0 {
      assert |c| == 1 ==> c[1..] == [];
      assert |c| == 2 ==> c[1..] == [c[1]] && c[1..][1..] == [];
    }
  }

  lemma {:induction false} AreasInserted(s: seq<VmDesc>, k: nat, v: VmDesc, areas: seq<Area<nat>>)
    requires k <= |s| == |areas| && forall i | 0 <= i < |s| :: AreaOf(s[i]) == areas[i]
    ensures Areas(s[..k] + [v] + s[k..]) == areas[..k] + [AreaOf(v)] + areas[k..]
  {
    AreasAre(s[..k] + [v] + s[k..], areas[..k] + [AreaOf(v)] + areas[k..]);
  }
}

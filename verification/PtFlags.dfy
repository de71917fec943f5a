/** Flag bits of page table entries. */
module PtFlags {
  import opened Common
  import opened Bits
  import opened PtState

  const PG_PRESENT := 1
  const PG_WRITE := 2
  const PG_USER := 4
  const PG_WRITE_THROUGH := 8
  const PG_CACHE_DISABLE := 16
  const PG_GLOBAL := 256

  /** The `MEM_PF_*` flags are the low seven bits. */
  const MEM_PF_LIMIT := 128

  method X86ToPageFlags(flags: nat) returns (r: nat)
    ensures r == PageFlags(flags)
  {
    r := 0;
    if Bit(flags, 0) {
      r := Or(r, PG_WRITE);
    }
    if Bit(flags, 1) {
      r := Or(r, PG_USER);
    }
    if Bit(flags, 5) {
      r := Or(r, PG_CACHE_DISABLE);
    }
    if Bit(flags, 4) {
      r := Or(r, PG_WRITE_THROUGH);
    }
    if Bit(flags, 3) {
      r := Or(r, PG_GLOBAL);
    }
    if Bit(flags, 6) {
      r := Or(r, Or(PG_CACHE_DISABLE, PG_WRITE_THROUGH));
    }
  }

  function PageFlags(flags: nat): nat {
    var r := OrIf(OrIf(0, Bit(flags, 0), PG_WRITE), Bit(flags, 1), PG_USER);
    var r' := OrIf(OrIf(r, Bit(flags, 5), PG_CACHE_DISABLE), Bit(flags, 4), PG_WRITE_THROUGH);
    OrIf(OrIf(r', Bit(flags, 3), PG_GLOBAL), Bit(flags, 6), Or(PG_CACHE_DISABLE, PG_WRITE_THROUGH))
  }

  function OrIf(r: nat, c: bool, x: nat): nat {
    if c then Or(r, x) else r
  }

  /** The caller's flags, those they stand for, and the present bit: what `map_pages` puts into entries. */
  function Merged(flags: nat): nat {
    Or(Or(flags, PageFlags(flags)), PG_PRESENT)
  }

  /** Flags that fit under the address bits of an entry, with the present bit and without the huge page bit. */
  predicate EntryFlags(f: nat) {
    f < PAGE && Present(f) && !Huge(f)
  }

  /** The entry bits that flags ask for: writable, user, and the two cache bits, which the uncached flag
      asks for together, and global. */
  predicate AskedFor(flags: nat, b: nat) {
    if b == 1 then Bit(flags, 0)
    else if b == 2 then Bit(flags, 1)
    else if b == 3 then Bit(flags, 4) || Bit(flags, 6)
    else if b == 4 then Bit(flags, 5) || Bit(flags, 6)
    else b == 8 && Bit(flags, 3)
  }

  lemma {:induction false} OrIfBit(r: nat, c: bool, n: nat, b: nat)
    ensures Bit(OrIf(r, c, Pow2(n)), b) <==> Bit(r, b) || (c && b == n)
  {
    BitOr(r, Pow2(n), b);
    PowerBit(n, b);
  }

  /** The translated flags are exactly the bits asked for. */
  lemma {:induction false} PageFlagBits(flags: nat, b: nat)
    ensures Bit(PageFlags(flags), b) <==> AskedFor(flags, b)
  {
    assert Pow2(1) == PG_WRITE && Pow2(2) == PG_USER && Pow2(3) == PG_WRITE_THROUGH && Pow2(4) == PG_CACHE_DISABLE;
    assert Pow2(8) == PG_GLOBAL by {
      assert Pow2(6) == 4 * Pow2(4) && Pow2(8) == 4 * Pow2(6);
    }
    hide Or, Bit, Pow2;
    ZeroBit(b);
    var r0 := OrIf(0, Bit(flags, 0), PG_WRITE);
    OrIfBit(0, Bit(flags, 0), 1, b);
    var r1 := OrIf(r0, Bit(flags, 1), PG_USER);
    OrIfBit(r0, Bit(flags, 1), 2, b);
    var r2 := OrIf(r1, Bit(flags, 5), PG_CACHE_DISABLE);
    OrIfBit(r1, Bit(flags, 5), 4, b);
    var r3 := OrIf(r2, Bit(flags, 4), PG_WRITE_THROUGH);
    OrIfBit(r2, Bit(flags, 4), 3, b);
    var r4 := OrIf(r3, Bit(flags, 3), PG_GLOBAL);
    OrIfBit(r3, Bit(flags, 3), 8, b);
    BitOr(r4, Or(PG_CACHE_DISABLE, PG_WRITE_THROUGH), b);
    BitOr(PG_CACHE_DISABLE, PG_WRITE_THROUGH, b);
    PowerBit(4, b);
    PowerBit(3, b);
  }

  /** Entries get the bits asked for, the present bit, and the caller's flags as they are. */
  lemma {:induction false} MergedBits(flags: nat, b: nat)
    ensures Bit(Merged(flags), b) <==> Bit(flags, b) || AskedFor(flags, b) || b == 0
  {
    hide Or, Bit, Pow2;
    assert Pow2(0) == PG_PRESENT by { PowZero(); }
    BitOr(Or(flags, PageFlags(flags)), PG_PRESENT, b);
    BitOr(flags, PageFlags(flags), b);
    PowerBit(0, b);
    PageFlagBits(flags, b);
  }

  // ---------------------------------------------------------------- entries

  lemma {:induction false} HugeIsBit(e: nat)
    ensures Huge(e) <==> Bit(e, 7)
  {
    Halves(e);
    Halves(e / 8);
    assert Shr(e / 64, 1) == Shr(e / 128, 0);
  }

  lemma {:induction false} Halves(e: nat)
    ensures forall n: nat | n >= 3 :: Shr(e, n) == Shr(e / 8, n - 3)
  {
    forall n: nat | n >= 3 ensures Shr(e, n) == Shr(e / 8, n - 3) {
      assert Shr(e, n) == Shr(e / 2, n - 1) == Shr(e / 4, n - 2);
    }
  }

  lemma {:induction false} OrIfLow(r: nat, c: bool, x: nat)
    requires r < 512 && x < 512 && !Bit(r, 7) && !Bit(x, 7)
    ensures OrIf(r, c, x) < 512 && !Bit(OrIf(r, c, x), 7)
  {
    SmallPowers();
    OrLow(0, 9, r, x);
    BitOr(r, x, 7);
  }

  lemma {:induction false} NamedBits()
    ensures !Bit(0, 7) && !Bit(1, 7) && !Bit(2, 7) && !Bit(4, 7) && !Bit(8, 7) && !Bit(16, 7) && !Bit(24, 7)
    ensures !Bit(256, 7)
    ensures Or(16, 8) == 24
  {
    HugeIsBit(0);
    HugeIsBit(1);
    HugeIsBit(2);
    HugeIsBit(4);
    HugeIsBit(8);
    HugeIsBit(16);
    HugeIsBit(24);
    HugeIsBit(256);
    OrStep(16, 8);
    OrStep(8, 4);
    OrStep(4, 2);
    OrStep(2, 1);
    OrStep(1, 0);
    OrStep(0, 0);
  }

  /** No combination of the named flags reads as a huge page. */
  lemma {:induction false} MergedFlags(flags: nat)
    requires flags < MEM_PF_LIMIT
    ensures EntryFlags(Merged(flags)) && EntryFlags(Or(Merged(flags), PG_WRITE))
  {
    hide Or, Bit;
    NamedBits();
    var r0 := OrIf(0, Bit(flags, 0), PG_WRITE);
    OrIfLow(0, Bit(flags, 0), PG_WRITE);
    var r1 := OrIf(r0, Bit(flags, 1), PG_USER);
    OrIfLow(r0, Bit(flags, 1), PG_USER);
    var r2 := OrIf(r1, Bit(flags, 5), PG_CACHE_DISABLE);
    OrIfLow(r1, Bit(flags, 5), PG_CACHE_DISABLE);
    var r3 := OrIf(r2, Bit(flags, 4), PG_WRITE_THROUGH);
    OrIfLow(r2, Bit(flags, 4), PG_WRITE_THROUGH);
    var r4 := OrIf(r3, Bit(flags, 3), PG_GLOBAL);
    OrIfLow(r3, Bit(flags, 3), PG_GLOBAL);
    OrIfLow(r4, Bit(flags, 6), Or(PG_CACHE_DISABLE, PG_WRITE_THROUGH));
    var r := PageFlags(flags);
    assert !Huge(flags);
    HugeIsBit(flags);
    OrIfLow(flags, true, r);
    OrIfLow(Or(flags, r), true, PG_PRESENT);
    OrIfLow(Merged(flags), true, PG_WRITE);
    HugeIsBit(Merged(flags));
    HugeIsBit(Or(Merged(flags), PG_WRITE));
    OrStep(Or(flags, r), PG_PRESENT);
    OrStep(Merged(flags), PG_WRITE);
  }

  /** An entry made of a frame and flags points to the frame and has the flags. */
  lemma {:induction false} EntryMade(frame: nat, f: nat)
    requires frame % PAGE == 0 && f < PAGE
    ensures Or(frame, f) == frame + f && PageBase(Or(frame, f)) == frame
    ensures Present(Or(frame, f)) == Present(f) && Huge(Or(frame, f)) == Huge(f)
    ensures frame < PHYS_LIMIT ==> Or(frame, f) < PHYS_LIMIT && Frame(Or(frame, f), 3) == frame
  {
    hide Or, Pow2, Frame;
    SmallPowers();
    var q := frame / PAGE;
    assert frame == q * PAGE;
    OrLow(q, 12, 0, f);
    OrZero(f);
    LowBits(q, f);
    if frame < PHYS_LIMIT {
      FrameMade(q, f);
    }
  }

  lemma {:induction false} FrameMade(q: nat, f: nat)
    requires f < PAGE && q * PAGE < PHYS_LIMIT
    ensures q * PAGE + f < PHYS_LIMIT && Frame(q * PAGE + f, 3) == q * PAGE
  {
    assert PHYS_LIMIT == 0x100_0000_0000 * PAGE;
    QuotientIs(q * PAGE + f, PHYS_LIMIT, 0, q * PAGE + f);
    QuotientIs(q * PAGE + f, PAGE, q, f);
  }

  lemma {:induction false} LowBits(a: nat, f: nat)
    requires f < PAGE
    ensures (a * PAGE + f) % 2 == f % 2 && (a * PAGE + f) / 128 % 2 == f / 128 % 2
    ensures (a * PAGE + f) / PAGE * PAGE == a * PAGE
  {
    QuotientIs(a * PAGE + f, PAGE, a, f);
    QuotientIs(a * PAGE + f, 2, 2048 * a + f / 2, f % 2);
    QuotientIs(a * PAGE + f, 128, 32 * a + f / 128, f % 128);
    QuotientIs(32 * a + f / 128, 2, 16 * a + f / 128 / 2, f / 128 % 2);
  }

  /** Another flag can be merged into an entry. */
  lemma {:induction false} FlagAdded(frame: nat, f: nat, g: nat)
    requires frame % PAGE == 0 && f < PAGE && g < PAGE
    ensures Or(Or(frame, f), g) == Or(frame, Or(f, g)) && Or(f, g) < PAGE
  {
    SmallPowers();
    EntryMade(frame, f);
    OrLow(frame / PAGE, 12, f, g);
    EntryMade(frame, Or(f, g));
  }
}

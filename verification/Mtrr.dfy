/** Memory type range registers: setting, reading back, and making room for a framebuffer. */
module Mtrr {
  import opened Common
  import opened Bits
  import opened MtrrSpec

  const MTRR_TYPE_WC := 1
  const VALID := 2048
  const WORD_BITS := 64

  // ---------------------------------------------------------------- one register pair

  /** The physical base word: address bits and type. */
  function BaseWord(bits: nat, base: nat, kind: nat): nat {
    Or(base % Pow2(bits) / PAGE * PAGE, kind)
  }

  /** The mask word: the complement of the size less one, within the address bits, and the valid bit. */
  function MaskWord(bits: nat, size: nat): nat
    requires 0 < size <= Pow2(WORD_BITS)
  {
    Or((Pow2(WORD_BITS) - size) % Pow2(bits), VALID)
  }

  /** What a register pair says. */
  function Decode(bits: nat, b: nat, m: nat): Region {
    if !Bit(m, 11) then Off
    else
      var v := m % Pow2(bits) / PAGE * PAGE;
      var size := if v < Pow2(WORD_BITS) then (Pow2(WORD_BITS) - 1 - v) % Pow2(bits) + 1 else 0;
      On(b % Pow2(bits) / PAGE * PAGE, size, b % 256)
  }

  /** The processor's test whether `a` is in the region of a valid pair. */
  predicate Matches(bits: nat, b: nat, m: nat, a: nat) {
    var mask := m % Pow2(bits) / PAGE * PAGE;
    And(a, mask) == And(b % Pow2(bits), mask)
  }

  predicate Fits(bits: nat, base: nat, k: nat) {
    12 <= k <= bits <= 52 && base % Pow2(k) == 0 && base + Pow2(k) <= Pow2(bits)
  }

  lemma {:induction false} PowersBelow(bits: nat, k: nat)
    requires 12 <= k <= bits <= 52
    ensures PAGE <= Pow2(k) <= Pow2(bits) <= Pow2(WORD_BITS) && Pow2(k) % PAGE == 0 && Pow2(bits) % PAGE == 0
    ensures (Pow2(WORD_BITS) - Pow2(k)) % Pow2(bits) == Pow2(bits) - Pow2(k)
  {
    hide Pow2;
    WholePages(k);
    WholePages(bits);
    Pow2Order(k, bits);
    Pow2Order(bits, WORD_BITS);
    Pow2Add(WORD_BITS - bits, bits);
    var n := Pow2(WORD_BITS - bits);
    assert Pow2(WORD_BITS) - Pow2(k) == (n - 1) * Pow2(bits) + (Pow2(bits) - Pow2(k));
    QuotientIs(Pow2(WORD_BITS) - Pow2(k), Pow2(bits), n - 1, Pow2(bits) - Pow2(k));
  }

  /** The mask word is the page-aligned mask with the valid bit. */
  lemma {:induction false} MaskFacts(bits: nat, k: nat)
    requires 12 <= k <= bits <= 52
    ensures Pow2(k) <= Pow2(bits) <= Pow2(WORD_BITS)
    ensures var m := MaskWord(bits, Pow2(k)); Bit(m, 11) && m % Pow2(bits) / PAGE * PAGE == Pow2(bits) - Pow2(k)
  {
    hide Pow2, Or, Bit;
    PowersBelow(bits, k);
    var v := Pow2(bits) - Pow2(k);
    Pages(Pow2(bits), Pow2(k));
    SmallPowers();
    OrLow(v / PAGE, 12, 0, VALID);
    OrZero(VALID);
    assert v / PAGE * PAGE == v;
    BitOr(v, VALID, 11);
    PowerBit(11, 11);
    MaskTail(v, Pow2(bits));
  }

  lemma {:induction false} MaskTail(v: nat, p: nat)
    requires v % PAGE == 0 && v < p && p % PAGE == 0
    ensures (v + VALID) % p / PAGE * PAGE == v
  {
    var q, n := v / PAGE, p / PAGE;
    assert v == q * PAGE && p == n * PAGE;
    assert q < n;
    QuotientIs(v + VALID, p, 0, v + VALID);
    QuotientIs(v + VALID, PAGE, q, VALID);
  }

  /** A register pair that has been set reads back as the base, size and type set. */
  lemma {:induction false} ReadsBack(bits: nat, base: nat, k: nat, kind: nat)
    requires Fits(bits, base, k) && kind < 256
    ensures Pow2(k) <= Pow2(WORD_BITS)
    ensures Decode(bits, BaseWord(bits, base, kind), MaskWord(bits, Pow2(k))) == On(base, Pow2(k), kind)
  {
    hide Pow2, Or, Bit;
    MaskFacts(bits, k);
    PowersBelow(bits, k);
    BaseFacts(bits, base, k, kind);
    PowersBelow(bits, bits);
    var w, p := Pow2(WORD_BITS), Pow2(bits);
    SizeBack(bits, k);
  }

  lemma {:induction false} SizeBack(bits: nat, k: nat)
    requires 12 <= k <= bits <= 52
    ensures Pow2(k) <= Pow2(bits) <= Pow2(WORD_BITS)
    ensures (Pow2(WORD_BITS) - 1 - (Pow2(bits) - Pow2(k))) % Pow2(bits) + 1 == Pow2(k)
  {
    hide Pow2;
    PowersBelow(bits, k);
    Pow2Add(WORD_BITS - bits, bits);
    var n, p := Pow2(WORD_BITS - bits), Pow2(bits);
    assert Pow2(WORD_BITS) - 1 - (p - Pow2(k)) == (n - 1) * p + (Pow2(k) - 1);
    QuotientIs(Pow2(WORD_BITS) - 1 - (p - Pow2(k)), p, n - 1, Pow2(k) - 1);
  }

  lemma {:induction false} BaseFacts(bits: nat, base: nat, k: nat, kind: nat)
    requires Fits(bits, base, k) && kind < 256
    ensures var b := BaseWord(bits, base, kind);
      b % Pow2(bits) / PAGE * PAGE == base && b % 256 == kind && b % Pow2(bits) == base + kind
    ensures base % PAGE == 0
  {
    hide Pow2, Or;
    PowersBelow(bits, bits);
    WholePages(k);
    Divides(base, k);
    QuotientIs(base, Pow2(bits), 0, base);
    KindBelow(base, kind);
    BaseTail(base, kind, Pow2(bits));
  }

  lemma {:induction false} KindBelow(base: nat, kind: nat)
    requires base % PAGE == 0 && kind < 256
    ensures base / PAGE * PAGE == base && Or(base, kind) == base + kind
  {
    hide Or, Pow2;
    SmallPowers();
    var q := base / PAGE;
    assert q * PAGE == base;
    OrLow(q, 12, 0, kind);
    OrZero(kind);
  }

  /** What a larger power of two divides, a page divides. */
  lemma {:induction false} Divides(base: nat, k: nat)
    requires k >= 12 && base % Pow2(k) == 0
    ensures base % PAGE == 0
    decreases k
  {
    hide Pow2;
    SmallPowers();
    if k > 12 {
      Double(k);
      var q, p := base / Pow2(k), Pow2(k - 1);
      assert base == q * (2 * p) + 0;
      TwiceProduct(q, p);
      assert base == 2 * q * p + 0;
      QuotientIs(base, p, 2 * q, 0);
      Divides(base, k - 1);
    }
  }

  lemma {:induction false} BaseTail(base: nat, kind: nat, p: nat)
    requires base % PAGE == 0 && kind < 256 && base < p && p % PAGE == 0
    ensures (base + kind) % p / PAGE * PAGE == base && (base + kind) % 256 == kind && (base + kind) % p == base + kind
  {
    var q, n := base / PAGE, p / PAGE;
    assert base == q * PAGE && p == n * PAGE;
    assert q < n;
    QuotientIs(base + kind, p, 0, base + kind);
    QuotientIs(base + kind, PAGE, q, kind);
    QuotientIs(base + kind, 256, 16 * q, kind);
  }

  /** The pair matches exactly the addresses of its region. */
  lemma {:induction false} MatchesRegion(bits: nat, base: nat, k: nat, kind: nat, a: nat)
    requires Fits(bits, base, k) && kind < 256 && a < Pow2(bits)
    ensures Pow2(k) <= Pow2(WORD_BITS)
    ensures Matches(bits, BaseWord(bits, base, kind), MaskWord(bits, Pow2(k)), a) <==> base <= a < base + Pow2(k)
  {
    hide Pow2, Or, And, Bit;
    MaskFacts(bits, k);
    PowersBelow(bits, k);
    BaseFacts(bits, base, k, kind);
    AndMask(a, k, bits);
    AndMask(base + kind, k, bits);
    Same(a, base, kind, Pow2(k));
  }

  /** `a` lies in the aligned region of `base` if it rounds down to the same. */
  lemma {:induction false} Same(a: nat, base: nat, kind: nat, p: nat)
    requires kind < p && base % p == 0
    ensures a / p * p == (base + kind) / p * p <==> base <= a < base + p
  {
    var q, d := base / p, a / p;
    assert base == q * p + 0;
    QuotientIs(base + kind, p, q, kind);
    assert a == d * p + a % p;
    Between(d - q, p);
    assert (d - q) * p == d * p - q * p;
  }

  // ---------------------------------------------------------------- buffer sizes

  lemma {:induction false} AndSelf(y: nat)
    ensures And(y, y) == y
    decreases y
  {
    if y > 0 {
      AndSelf(y / 2);
    }
  }

  /** A number shares no bit with its predecessor exactly if it is a power of two. */
  lemma {:induction false} PowerTest(x: nat)
    requires x > 0
    ensures And(x, x - 1) == 0 <==> x == Pow2(TopBit(x))
    decreases x
  {
    if x > 1 {
      AndStep(x, x - 1);
      if x % 2 == 0 {
        PowerTest(x / 2);
      } else {
        AndSelf(x / 2);
        Double(TopBit(x));
      }
    }
  }

  /** The least power of two that is at least `n`. */
  method RoundUp(n: nat) returns (size: nat, ghost k: nat)
    requires n > 0
    ensures size == Pow2(k) && RoundsUp(n, size)
  {
    PowerTest(n);
    TopBitLeads(n);
    if And(n, n - 1) == 0 {
      size, k := n, TopBit(n);
      if k > 0 {
        Double(k);
      }
    } else {
      k := TopBit(n - 1) + 1;
      TopBitLeads(n - 1);
      size := Pow2(TopBit(n - 1) + 1);
    }
    assert n <= Pow2(k) && (k > 0 ==> Pow2(k - 1) < n);
  }

  // ---------------------------------------------------------------- the registers

  function Decoded(bits: nat, bases: seq<nat>, masks: seq<nat>): (r: seq<Region>)
    requires |bases| == |masks|
    ensures |r| == |bases|
  {
    seq(|bases|, i requires 0 <= i < |bases| => Decode(bits, bases[i], masks[i]))
  }

  /** Regions are whole pages within the address space. */
  ghost predicate Sound(bits: nat, regs: seq<Region>) {
    forall i | 0 <= i < |regs| && regs[i].On? :: WholePaged(regs[i]) && regs[i].base + regs[i].size <= Pow2(bits)
  }

  ghost predicate AllPaged(regs: seq<Region>) {
    forall i | 0 <= i < |regs| && regs[i].On? :: WholePaged(regs[i])
  }

  class Mtrrs {
    const bits: nat
    const bases: array<nat>
    const masks: array<nat>

    ghost predicate Valid()
      reads bases, masks
    {
      12 < bits <= 52 && bases != masks && bases.Length == masks.Length
    }

    ghost function Regions(): seq<Region>
      requires Valid()
      reads bases, masks
    {
      Decoded(bits, bases[..], masks[..])
    }

    constructor (bits: nat, bases: array<nat>, masks: array<nat>)
      requires 12 < bits <= 52 && bases != masks && bases.Length == masks.Length
      ensures Valid() && this.bits == bits && this.bases == bases && this.masks == masks
    {
      this.bits, this.bases, this.masks := bits, bases, masks;
    }

    method FindFree() returns (i: int)
      requires Valid()
      ensures i == if FirstOff(Regions()) < |Regions()| then FirstOff(Regions()) else -1
      ensures -1 <= i < |Regions()| && (i >= 0 ==> Regions()[i].Off?)
      ensures forall j | 0 <= j < if i < 0 then |Regions()| else i :: Regions()[j].On?
    {
      hide Pow2, Bit;
      FirstOffFacts(Regions());
      for j := 0 to masks.Length
        invariant forall l | 0 <= l < j :: Regions()[l].On?
      {
        if !Bit(masks[j], 11) {
          assert Regions()[j].Off?;
          return j;
        }
      }
      i := -1;
    }

    /** Base, size and type of a register; size 0 if it is not valid. */
    method GetRegion(i: nat) returns (base: nat, size: nat, kind: nat)
      requires Valid() && i < bases.Length
      ensures kind < 256 && (Regions()[i] == Off ==> size == 0)
      ensures Regions()[i].On? ==> Regions()[i] == On(base, size, kind)
    {
      hide Pow2, Bit;
      kind := bases[i] % 256;
      base := bases[i] % Pow2(bits) / PAGE * PAGE;
      if !Bit(masks[i], 11) {
        return base, 0, kind;
      }
      var v := masks[i] % Pow2(bits) / PAGE * PAGE;
      size := if v < Pow2(WORD_BITS) then (Pow2(WORD_BITS) - 1 - v) % Pow2(bits) + 1 else 0;
    }

    method Clear(i: nat)
      requires Valid() && i < bases.Length
      modifies masks
      ensures Regions() == old(Regions())[i := Off]
    {
      masks[i] := 0;
      ZeroBit(11);
    }

    /** Sets a register to a naturally aligned power of two. */
    method SetRegion(i: nat, base: nat, size: nat, kind: nat, ghost k: nat)
      requires Valid() && i < bases.Length && size == Pow2(k) && Fits(bits, base, k) && kind < 256
      modifies bases, masks
      ensures Regions() == old(Regions())[i := On(base, size, kind)]
    {
      hide Pow2, Or, Bit, Decode;
      masks[i] := 0;
      PowersBelow(bits, k);
      ReadsBack(bits, base, k, kind);
      bases[i] := Or(base % Pow2(bits) / PAGE * PAGE, kind);
      masks[i] := Or((Pow2(WORD_BITS) - size) % Pow2(bits), VALID);
    }

    /** The largest power of two, at most `size`, that divides the base. */
    method LargestPow2Region(base: nat, size: nat) returns (pow2: nat)
      requires size > 0
      ensures pow2 == Pow2(Chunk(base, size))
    {
      hide Pow2;
      PowZero();
      pow2 := Pow2(TopBit(size));
      ghost var k := TopBit(size);
      while pow2 > 0 && base % pow2 != 0
        invariant pow2 == Pow2(k) && Fit(base, k) == Chunk(base, size)
        decreases pow2
      {
        if k > 0 {
          Double(k);
          k := k - 1;
        }
        pow2 := pow2 / 2;
      }
    }

    /** Covers a range with as many registers as it takes, or as there are. */
    method SetRegionMulti(base: nat, size: nat, kind: nat)
      requires Valid() && base % PAGE == 0 && size % PAGE == 0 && base + size <= Pow2(bits) && kind < 256
      modifies bases, masks
      ensures Regions() == Fill(old(Regions()), Tiles(base, size), kind)
      ensures Sound(bits, old(Regions())) ==> Sound(bits, Regions())
    {
      hide Pow2, Decoded, FirstOff, Sound;
      if Sound(bits, Regions()) {
        FillSound(bits, Regions(), base, size, kind);
      }
      var b: nat, left: nat := base, size;
      while left > 0
        invariant b % PAGE == 0 && left % PAGE == 0 && b + left == base + size
        invariant Fill(Regions(), Tiles(b, left), kind) == Fill(old(Regions()), Tiles(base, size), kind)
        decreases left
      {
        ChunkFacts(b, left);
        var chunk := LargestPow2Region(b, left);
        if chunk == 0 {
          break;
        }
        var i := FindFree();
        if i < 0 {
          break;
        }
        ChunkFits(bits, b, left);
        SetRegion(i, b, chunk, kind, Chunk(b, left));
        Pages(b, chunk);
        Pages(left, chunk);
        b, left := b + chunk, left - chunk;
      }
    }

    /** The first register whose region overlaps the range. */
    method FindOverlapping(lo: nat, size: nat) returns (i: int)
      requires Valid()
      ensures var o := FirstOverlap(Regions(), lo, lo + size); i == if o < |Regions()| then o else -1
      ensures size > 0 ==>
        if i < 0 then NoneMeets(Regions(), lo, lo + size) else FirstMeets(Regions(), lo, lo + size, i)
    {
      hide Pow2, Decode, NoneMeets, FirstMeets;
      if size > 0 {
        FirstFound(Regions(), lo, lo + size);
      }
      for j := 0 to bases.Length
        invariant FirstOverlap(Regions(), lo, lo + size) == j + FirstOverlap(Regions()[j..], lo, lo + size)
      {
        var base, length, kind := GetRegion(j);
        assert Regions()[j..][0] == Regions()[j] && Regions()[j..][1..] == Regions()[j + 1..];
        if length != 0 && lo < base + length && lo + size > base {
          return j;
        }
      }
      i := -1;
    }

    /** Splits the region the range lies in: leaves of it what lies before and after. */
    method MakeRoom(lo: nat, size: nat)
      requires Valid() && Sound(bits, Regions()) && size > 0 && lo % PAGE == 0 && size % PAGE == 0
      modifies bases, masks
      ensures RoomMade(old(Regions()), Regions(), lo, lo + size) && Sound(bits, Regions())
      ensures Enough(old(Regions()), lo, lo + size, 0) ==> Typed(old(Regions()), Regions(), lo, lo + size, {})
    {
      hide Pow2, Decoded, Fill, Tiles, FirstOff, Typed, Enough;
      if Enough(Regions(), lo, lo + size, 0) {
        RoomTyped(Regions(), lo, lo + size);
      }
      ghost var regs := Regions();
      OverlapFacts(regs, lo, lo + size);
      Pages(lo, size);
      var o := FindOverlapping(lo, size);
      if o >= 0 {
        var base, length, kind := GetRegion(o);
        SoundAt(bits, regs, o);
        Clear(o);
        Pages(lo, base);
        Pages(base, length);
        Pages(base + length, lo + size);
        if lo > base {
          SetRegionMulti(base, lo - base, kind);
        } else {
          FillNothing(regs[o := Off], kind);
        }
        if base + length > lo + size {
          SetRegionMulti(lo + size, base + length - (lo + size), kind);
        } else {
          FillNothing(Regions(), kind);
        }
      }
    }

    /** Makes the range of a framebuffer write-combining: splits the region it lies in, and takes a register
        for itself. */
    method MapBufferWc(paddr: nat, n: nat) returns (lo: nat, size: nat)
      requires Valid() && Sound(bits, Regions()) && PAGE / 2 < n && paddr + n <= Pow2(bits)
      modifies bases, masks
      ensures Placed(paddr, n, lo, size) && BufferMade(old(Regions()), Regions(), lo, lo + size)
      ensures Sound(bits, Regions())
      ensures Enough(old(Regions()), lo, lo + size, 1)
        ==> Typed(old(Regions()), Regions(), lo, lo + size, {MTRR_TYPE_WC})
    {
      hide Pow2, Decoded, Fill, Tiles, Cleared, RoundsUp, Down, Fits, Typed, Enough;
      ghost var k;
      size, k := RoundUp(n);
      lo := Down(paddr, size);
      BufferFits(bits, paddr, n, size, k);
      if Enough(Regions(), lo, lo + size, 1) {
        BufferTyped(Regions(), lo, lo + size);
      }
      MakeRoom(lo, size);
      var i := FindFree();
      if i >= 0 {
        FitsSound(bits, lo, k, MTRR_TYPE_WC);
        SetRegion(i, lo, size, MTRR_TYPE_WC, k);
      }
    }
  }

  ghost predicate RoomMade(regs: seq<Region>, regs': seq<Region>, lo: nat, hi: nat) {
    lo < hi && lo % PAGE == 0 && hi % PAGE == 0 && AllPaged(regs) && regs' == Cleared(regs, lo, hi)
  }

  ghost predicate BufferMade(regs: seq<Region>, regs': seq<Region>, lo: nat, hi: nat) {
    lo < hi && lo % PAGE == 0 && hi % PAGE == 0 && AllPaged(regs) && regs' == WithBuffer(regs, lo, hi)
  }

  function FirstOverlap(regs: seq<Region>, lo: nat, hi: nat): (i: nat)
    ensures i <= |regs|
  {
    if regs == [] || (regs[0].On? && regs[0].size != 0 && lo < regs[0].base + regs[0].size && hi > regs[0].base) then 0
    else 1 + FirstOverlap(regs[1..], lo, hi)
  }

  /** The region and the range share an address. */
  ghost predicate Meets(r: Region, lo: nat, hi: nat) {
    exists a: nat :: Covers(r, a) && lo <= a < hi
  }

  ghost predicate NoneMeets(regs: seq<Region>, lo: nat, hi: nat) {
    forall i | 0 <= i < |regs| :: !Meets(regs[i], lo, hi)
  }

  /** Register `o` is the first that shares an address with the range. */
  ghost predicate FirstMeets(regs: seq<Region>, lo: nat, hi: nat, o: nat) {
    o < |regs| && Meets(regs[o], lo, hi) && forall i | 0 <= i < o :: !Meets(regs[i], lo, hi)
  }

  lemma {:induction false} MeetsIff(r: Region, lo: nat, hi: nat)
    requires lo < hi
    ensures Meets(r, lo, hi) <==> r.On? && r.size != 0 && lo < r.base + r.size && hi > r.base
  {
    if r.On? && r.size != 0 && lo < r.base + r.size && hi > r.base {
      assert Covers(r, if lo < r.base then r.base else lo);
    }
  }

  /** The search finds the first register that shares an address with the range, if there is one. */
  lemma {:induction false} FirstFound(regs: seq<Region>, lo: nat, hi: nat)
    requires lo < hi
    ensures var i := FirstOverlap(regs, lo, hi);
      if i < |regs| then FirstMeets(regs, lo, hi, i) else NoneMeets(regs, lo, hi)
  {
    hide Meets;
    if regs != [] {
      var t, i := regs[1..], FirstOverlap(regs, lo, hi);
      MeetsIff(regs[0], lo, hi);
      if i > 0 {
        FirstFound(t, lo, hi);
        assert forall k | 0 < k < |regs| :: regs[k] == t[k - 1];
      }
    }
  }

  lemma {:induction false} OverlapFacts(regs: seq<Region>, lo: nat, hi: nat)
    ensures var i := FirstOverlap(regs, lo, hi);
      i < |regs| ==> regs[i].On? && lo < regs[i].base + regs[i].size && hi > regs[i].base
  {
    if FirstOverlap(regs, lo, hi) > 0 && regs != [] {
      OverlapFacts(regs[1..], lo, hi);
    }
  }

  lemma {:induction false} ChunkFits(bits: nat, base: nat, size: nat)
    requires 12 < bits <= 52 && base % PAGE == 0 && size % PAGE == 0 && size > 0 && base + size <= Pow2(bits)
    ensures Fits(bits, base, Chunk(base, size))
  {
    hide Pow2, Chunk;
    ChunkFacts(base, size);
    var k := Chunk(base, size);
    if k > bits {
      Pow2Order(bits + 1, k);
      Double(bits + 1);
    }
  }

  /** `a` rounded down to a multiple of `p`. */
  function Down(a: nat, p: nat): nat
    requires p > 0
  {
    a - a % p
  }

  lemma {:induction false} DownFacts(a: nat, p: nat)
    requires p > 0
    ensures Down(a, p) == a / p * p && Down(a, p) % p == 0 && Down(a, p) <= a < Down(a, p) + p
    ensures a - Down(a, p) == a % p
  {
    assert a == a / p * p + a % p;
    QuotientIs(a / p * p, p, a / p, 0);
  }

  lemma {:induction false} BufferFits(bits: nat, paddr: nat, n: nat, size: nat, k: nat)
    requires 12 < bits <= 52 && PAGE / 2 < n && paddr + n <= Pow2(bits) && size == Pow2(k) && RoundsUp(n, size)
    ensures Fits(bits, Down(paddr, size), k) && Down(paddr, size) % PAGE == 0 && size % PAGE == 0
  {
    hide Pow2, RoundsUp, Down;
    SizeFits(bits, n, k);
    WholePages(k);
    DownFacts(paddr, size);
    Divides(Down(paddr, size), k);
    Pow2Add(bits - k, k);
    NextMultiple(paddr / size, Pow2(bits - k), size, paddr);
  }

  lemma {:induction false} SizeFits(bits: nat, n: nat, k: nat)
    requires PAGE / 2 < n <= Pow2(bits) && RoundsUp(n, Pow2(k))
    ensures 12 <= k <= bits
  {
    hide Pow2;
    var j: nat :| Pow2(k) == Pow2(j) && n <= Pow2(k) && (j > 0 ==> Pow2(j - 1) < n);
    SmallPowers();
    PowBelow(11, k);
    if j > 0 {
      PowBelow(j - 1, bits);
    }
    if k > bits {
      Pow2Order(bits + 1, k);
      Double(bits + 1);
      Pow2Order(j, bits);
    }
  }

  /** An aligned block that starts below an aligned end ends there or before. */
  lemma {:induction false} NextMultiple(q: nat, m: nat, p: nat, a: nat)
    requires q * p <= a < m * p
    ensures q * p + p <= m * p
  {
    if q >= m {
      MulMono(p, m, q);
    } else {
      MulMono(p, q + 1, m);
    }
  }

  lemma {:induction false} SoundAt(bits: nat, regs: seq<Region>, o: nat)
    requires Sound(bits, regs) && o < |regs| && regs[o].On?
    ensures WholePaged(regs[o]) && regs[o].base + regs[o].size <= Pow2(bits)
  {
  }

  /** Chunks of whole pages within the address space keep regions so. */
  lemma {:induction false} FillSound(bits: nat, regs: seq<Region>, base: nat, size: nat, kind: nat)
    requires Sound(bits, regs) && base % PAGE == 0 && size % PAGE == 0 && base + size <= Pow2(bits)
    ensures Sound(bits, Fill(regs, Tiles(base, size), kind))
    decreases size
  {
    hide Pow2, Chunk;
    if size > 0 {
      ChunkFacts(base, size);
      var c := Pow2(Chunk(base, size));
      Pages(base, c);
      Pages(size, c);
      var i := FirstOff(regs);
      assert Tiles(base, size)[0] == Tile(base, c) && Tiles(base, size)[1..] == Tiles(base + c, size - c);
      if i < |regs| {
        FillSound(bits, regs[i := On(base, c, kind)], base + c, size - c, kind);
      }
    }
  }

  lemma {:induction false} FitsSound(bits: nat, base: nat, k: nat, kind: nat)
    requires Fits(bits, base, k)
    ensures base % PAGE == 0 && WholePaged(On(base, Pow2(k), kind)) && base + Pow2(k) <= Pow2(bits)
  {
    hide Pow2;
    WholePages(k);
    Divides(base, k);
  }

  lemma {:induction false} FillNothing(regs: seq<Region>, kind: nat)
    ensures Fill(regs, [], kind) == regs
  {
  }

  // ---------------------------------------------------------------- the framebuffer

  /** The registers after making room for `[lo, hi)`. */
  function WithBuffer(regs: seq<Region>, lo: nat, hi: nat): seq<Region>
    requires lo < hi && lo % PAGE == 0 && hi % PAGE == 0 && AllPaged(regs)
  {
    var regs1 := Cleared(regs, lo, hi);
    var n := FirstOff(regs1);
    if n < |regs1| then regs1[n := On(lo, hi - lo, MTRR_TYPE_WC)] else regs1
  }

  function Cleared(regs: seq<Region>, lo: nat, hi: nat): (r: seq<Region>)
    requires lo < hi && lo % PAGE == 0 && hi % PAGE == 0 && AllPaged(regs)
    ensures |r| == |regs|
  {
    var o := FirstOverlap(regs, lo, hi);
    OverlapFacts(regs, lo, hi);
    if o < |regs| then Split(regs, o, lo, hi) else regs
  }

  /** There are free registers for what is left of the first region that meets the range, besides the one
      that this gives back, and for `more`. */
  ghost predicate Enough(regs: seq<Region>, lo: nat, hi: nat, more: nat) {
    AllPaged(regs) && lo < hi && lo % PAGE == 0 && hi % PAGE == 0
    && (NoneMeets(regs, lo, hi) ==> FreeCount(regs) >= more)
    && forall o: nat | FirstMeets(regs, lo, hi, o) :: FreeCount(regs) + 1 >= Pieces(regs[o], lo, hi) + more
  }

  /** A register behind the first that meets the range gives `a` the type `x`. */
  ghost predicate HasLater(regs: seq<Region>, lo: nat, hi: nat, a: nat, x: nat) {
    exists o: nat, i: nat ::
      FirstMeets(regs, lo, hi, o) && o < i < |regs| && Covers(regs[i], a) && regs[i].kind == x
  }

  /** Outside the range every address keeps exactly the types it had; in it, addresses have those in `kinds`
      and the ones later registers give them. */
  ghost predicate Typed(regs: seq<Region>, regs': seq<Region>, lo: nat, hi: nat, kinds: set<nat>) {
    forall a: nat, x: nat :: Has(regs', a, x)
      <==> if lo <= a < hi then x in kinds || HasLater(regs, lo, hi, a, x) else Has(regs, a, x)
  }

  lemma {:induction false} LaterOnly(regs: seq<Region>, lo: nat, hi: nat, o: nat, a: nat, x: nat)
    requires lo <= a < hi && (if o < |regs| then FirstMeets(regs, lo, hi, o) else NoneMeets(regs, lo, hi))
    ensures HasLater(regs, lo, hi, a, x) <==> Has(if o < |regs| then regs[o := Off] else regs, a, x)
  {
    forall i | 0 <= i < |regs| && Covers(regs[i], a) ensures Meets(regs[i], lo, hi) {
    }
    if o < |regs| {
      hide Meets, Covers, NoneMeets;
      var regs1 := regs[o := Off];
      if HasLater(regs, lo, hi, a, x) {
        var i: nat :| o < i < |regs| && Covers(regs[i], a) && regs[i].kind == x;
        assert regs1[i] == regs[i];
      }
      if Has(regs1, a, x) {
        var i :| 0 <= i < |regs1| && Covers(regs1[i], a) && regs1[i].kind == x;
        assert regs1[i] == if i == o then Off else regs[i];
      }
    }
  }

  /** Making room takes the range off the first register that meets it, and changes nothing else. */
  lemma {:induction false} RoomTyped(regs: seq<Region>, lo: nat, hi: nat)
    requires Enough(regs, lo, hi, 0)
    ensures Typed(regs, Cleared(regs, lo, hi), lo, hi, {})
  {
    hide Has, HasLater, FirstMeets, NoneMeets, Meets, Split, Pieces, FirstOverlap;
    var o := FirstOverlap(regs, lo, hi);
    FirstFound(regs, lo, hi);
    OverlapFacts(regs, lo, hi);
    forall a: nat, x: nat
      ensures Has(Cleared(regs, lo, hi), a, x)
        <==> if lo <= a < hi then HasLater(regs, lo, hi, a, x) else Has(regs, a, x)
    {
      if o < |regs| {
        SplitKeeps(regs, o, lo, hi, a, x);
      }
      if lo <= a < hi {
        LaterOnly(regs, lo, hi, o, a, x);
      }
    }
  }

  /** With enough free registers the framebuffer is write-combining, every address outside it keeps exactly
      the types it had, and inside it only the types that later registers give are left beside. */
  lemma {:induction false} BufferTyped(regs: seq<Region>, lo: nat, hi: nat)
    requires Enough(regs, lo, hi, 1)
    ensures Typed(regs, WithBuffer(regs, lo, hi), lo, hi, {MTRR_TYPE_WC})
  {
    hide Has, HasLater, FirstMeets, NoneMeets, Meets, Split, Pieces, FirstOverlap;
    RoomTyped(regs, lo, hi);
    var regs1 := Cleared(regs, lo, hi);
    FirstFound(regs, lo, hi);
    OverlapFacts(regs, lo, hi);
    var o := FirstOverlap(regs, lo, hi);
    if o < |regs| {
      SplitKeeps(regs, o, lo, hi, 0, 0);
    }
    SomeOff(regs1);
    FirstOffFacts(regs1);
    forall a: nat, x: nat
      ensures Has(WithBuffer(regs, lo, hi), a, x)
        <==> Has(regs1, a, x) || (lo <= a < hi && x == MTRR_TYPE_WC)
    {
      HasSet(regs1, FirstOff(regs1), On(lo, hi - lo, MTRR_TYPE_WC), a, x);
    }
  }

  /** If no more than one register meets the range, the framebuffer has no other type. */
  lemma {:induction false} BufferAlone(regs: seq<Region>, lo: nat, hi: nat, a: nat, x: nat)
    requires Enough(regs, lo, hi, 1) && lo <= a < hi
    requires forall i, j | 0 <= i < j < |regs| :: !(Meets(regs[i], lo, hi) && Meets(regs[j], lo, hi))
    ensures Has(WithBuffer(regs, lo, hi), a, x) <==> x == MTRR_TYPE_WC
  {
    hide WithBuffer, Has, Pieces;
    BufferTyped(regs, lo, hi);
    assert forall i | 0 <= i < |regs| && Covers(regs[i], a) :: Meets(regs[i], lo, hi);
  }

  /** The range that is made write-combining: a power of two, the least that is at least `n`, around the
      buffer's start. */
  ghost predicate Placed(paddr: nat, n: nat, lo: nat, size: nat) {
    size > 0 && RoundsUp(n, size) && lo == Down(paddr, size)
  }

  ghost predicate AllWc(regs: seq<Region>, lo: nat, hi: nat) {
    forall a: nat | lo <= a < hi :: Has(regs, a, MTRR_TYPE_WC)
  }

  /** The whole buffer becomes write-combining exactly if what lies beyond the range its start was rounded
      down into was so before. */
  lemma {:induction false} BufferCovered(regs: seq<Region>, paddr: nat, n: nat, lo: nat, hi: nat)
    requires lo <= paddr < hi && Enough(regs, lo, hi, 1)
    ensures AllWc(WithBuffer(regs, lo, hi), paddr, paddr + n) <==> AllWc(regs, hi, paddr + n)
  {
    hide Has, WithBuffer, Enough;
    BufferTyped(regs, lo, hi);
  }

  /** Nothing of the buffer lies beyond exactly if its offset in the range and its size fit the range. */
  lemma {:induction false} NothingBeyond(paddr: nat, n: nat, lo: nat, size: nat)
    requires Placed(paddr, n, lo, size)
    ensures lo <= paddr < lo + size
    ensures paddr + n <= lo + size <==> paddr % size + n <= size
  {
    hide Down, RoundsUp;
    DownFacts(paddr, size);
  }
}

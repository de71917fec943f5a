/** Regions of memory types, and covering a range with naturally aligned powers of two (MTRRs, section
    11.11 of the Intel SDM, volume 3A). */
module MtrrSpec {
  import opened Common
  import opened Bits


  datatype Region = Off | On(base: nat, size: nat, kind: nat)

  predicate Covers(r: Region, a: nat) {
    r.On? && r.base <= a < r.base + r.size
  }

  /** A power of two no smaller than a page, aligned to itself. */
  ghost predicate Natural(base: nat, size: nat) {
    exists k: nat :: k >= 12 && size == Pow2(k) && base % size == 0
  }

  // ---------------------------------------------------------------- chunks

  /** Halves 2^k until it divides the base. */
  function Fit(base: nat, k: nat): (j: nat)
    ensures j <= k
  {
    if k == 0 || base % Pow2(k) == 0 then k else Fit(base, k - 1)
  }

  /** The largest power of two, as an exponent, that is at most `size` and divides `base`. */
  function Chunk(base: nat, size: nat): nat {
    Fit(base, TopBit(size))
  }

  lemma {:induction false} FitDivides(base: nat, k: nat)
    ensures base % Pow2(Fit(base, k)) == 0
    ensures forall i: nat | Fit(base, k) < i <= k :: base % Pow2(i) != 0
    decreases k
  {
    if k == 0 {
      PowZero();
    } else if base % Pow2(k) != 0 {
      FitDivides(base, k - 1);
    }
  }

  lemma {:induction false} FitAtLeast(base: nat, k: nat, m: nat)
    requires base % Pow2(m) == 0 && m <= k
    ensures Fit(base, k) >= m
    decreases k
  {
    hide Pow2;
    if k > m && base % Pow2(k) != 0 {
      FitAtLeast(base, k - 1, m);
    }
  }

  /** Powers of two from a page on are whole pages. */
  lemma {:induction false} WholePages(k: nat)
    requires k >= 12
    ensures Pow2(k) % PAGE == 0 && Pow2(k) >= PAGE
    decreases k
  {
    SmallPowers();
    if k > 12 {
      WholePages(k - 1);
      assert Pow2(k) == 2 * Pow2(k - 1);
    }
  }

  lemma {:induction false} PowBelow(m: nat, n: nat)
    requires Pow2(m) < Pow2(n)
    ensures m < n
  {
    if n <= m {
      Pow2Order(n, m);
    }
  }

  lemma {:induction false} Pages(a: nat, b: nat)
    requires a % PAGE == 0 && b % PAGE == 0
    ensures (a + b) % PAGE == 0 && (b <= a ==> (a - b) % PAGE == 0)
  {
  }

  /** The chunk is the largest power of two that is at most `size` and divides `base`. */
  lemma {:induction false} ChunkFacts(base: nat, size: nat)
    requires base % PAGE == 0 && size % PAGE == 0 && size > 0
    ensures var k := Chunk(base, size);
      k >= 12 && Pow2(k) <= size && base % Pow2(k) == 0 && Pow2(k) % PAGE == 0
    ensures forall i: nat | i > Chunk(base, size) :: Pow2(i) > size || base % Pow2(i) != 0
  {
    hide Pow2, Fit;
    TopBitLeads(size);
    var t := TopBit(size);
    ChunkAtLeast(base, size);
    FitDivides(base, t);
    Pow2Order(Chunk(base, size), t);
    WholePages(Chunk(base, size));
    forall i: nat | i > Chunk(base, size) ensures Pow2(i) > size || base % Pow2(i) != 0 {
      if i > t {
        Pow2Order(t + 1, i);
      }
    }
  }

  lemma {:induction false} ChunkAtLeast(base: nat, size: nat)
    requires base % PAGE == 0 && size >= PAGE
    ensures 12 <= Chunk(base, size) <= TopBit(size)
  {
    hide Pow2;
    SmallPowers();
    TopBitLeads(size);
    PowBelow(12, TopBit(size) + 1);
    FitAtLeast(base, TopBit(size), 12);
  }

  // ---------------------------------------------------------------- tiles

  datatype Tile = Tile(base: nat, size: nat)

  function Tiles(base: nat, size: nat): seq<Tile>
    requires base % PAGE == 0 && size % PAGE == 0
    decreases size
  {
    if size == 0 then []
    else
      ChunkFacts(base, size);
      var c := Pow2(Chunk(base, size));
      Pages(base, c);
      Pages(size, c);
      [Tile(base, c)] + Tiles(base + c, size - c)
  }

  /** How many of the tiles `a` lies in. */
  function Count(tiles: seq<Tile>, a: nat): nat {
    if tiles == [] then 0
    else (if tiles[0].base <= a < tiles[0].base + tiles[0].size then 1 else 0) + Count(tiles[1..], a)
  }

  /** The tiles are naturally aligned, and cover each address of the range once and no other. */
  lemma {:induction false} TilesCover(base: nat, size: nat, a: nat)
    requires base % PAGE == 0 && size % PAGE == 0
    ensures Count(Tiles(base, size), a) == if base <= a < base + size then 1 else 0
    decreases size
  {
    if size > 0 {
      ChunkFacts(base, size);
      var c := Pow2(Chunk(base, size));
      Pages(base, c);
      Pages(size, c);
      TilesCover(base + c, size - c, a);
      assert Tiles(base, size)[1..] == Tiles(base + c, size - c);
    }
  }

  lemma {:induction false} TilesNatural(base: nat, size: nat, i: nat)
    requires base % PAGE == 0 && size % PAGE == 0 && i < |Tiles(base, size)|
    ensures var t := Tiles(base, size)[i]; Natural(t.base, t.size) && base <= t.base && t.base + t.size <= base + size
    decreases size
  {
    hide Pow2, Chunk;
    ChunkFacts(base, size);
    var c := Pow2(Chunk(base, size));
    Pages(base, c);
    Pages(size, c);
    if i > 0 {
      TilesNatural(base + c, size - c, i - 1);
      assert Tiles(base, size)[i] == Tiles(base + c, size - c)[i - 1];
    }
  }

  // ---------------------------------------------------------------- registers as regions

  function FirstOff(regs: seq<Region>): (i: nat)
    ensures i <= |regs|
  {
    if regs == [] || regs[0].Off? then 0 else 1 + FirstOff(regs[1..])
  }

  lemma {:induction false} FirstOffFacts(regs: seq<Region>)
    ensures var i := FirstOff(regs); (i < |regs| ==> regs[i].Off?) && forall j | 0 <= j < i :: regs[j].On?
  {
    if regs != [] && regs[0].On? {
      FirstOffFacts(regs[1..]);
      var i := FirstOff(regs);
      forall j | 0 <= j < i ensures regs[j].On? {
        assert j > 0 ==> regs[j] == regs[1..][j - 1];
      }
    }
  }

  /** Puts the tiles into the free registers, lowest first, as far as there are any. */
  function Fill(regs: seq<Region>, tiles: seq<Tile>, kind: nat): (r: seq<Region>)
    ensures |r| == |regs|
    decreases |tiles|
  {
    if tiles == [] || FirstOff(regs) == |regs| then regs
    else Fill(regs[FirstOff(regs) := On(tiles[0].base, tiles[0].size, kind)], tiles[1..], kind)
  }

  function FreeCount(regs: seq<Region>): nat {
    if regs == [] then 0 else (if regs[0].Off? then 1 else 0) + FreeCount(regs[1..])
  }

  /** Some register gives address `a` the type `kind`. */
  ghost predicate Has(regs: seq<Region>, a: nat, kind: nat) {
    exists i :: 0 <= i < |regs| && Covers(regs[i], a) && regs[i].kind == kind
  }

  lemma {:induction false} FreeUsed(regs: seq<Region>, i: nat, r: Region)
    requires i < |regs| && regs[i].Off? && r.On?
    ensures FreeCount(regs[i := r]) == FreeCount(regs) - 1
  {
    if i > 0 {
      FreeUsed(regs[1..], i - 1, r);
      assert regs[i := r][1..] == regs[1..][i - 1 := r];
    } else {
      assert regs[i := r][1..] == regs[1..];
    }
  }

  lemma {:induction false} FreeMade(regs: seq<Region>, i: nat)
    requires i < |regs| && regs[i].On?
    ensures FreeCount(regs[i := Off]) == FreeCount(regs) + 1
  {
    FreeUsed(regs[i := Off], i, regs[i]);
    assert regs[i := Off][i := regs[i]] == regs;
  }

  lemma {:induction false} SomeOff(regs: seq<Region>)
    ensures FreeCount(regs) > 0 <==> FirstOff(regs) < |regs|
  {
    if regs != [] && regs[0].On? {
      SomeOff(regs[1..]);
    }
  }

  lemma {:induction false} HasSet(regs: seq<Region>, i: nat, r: Region, a: nat, kind: nat)
    requires i < |regs| && regs[i].Off?
    ensures Has(regs[i := r], a, kind) <==> Has(regs, a, kind) || (Covers(r, a) && r.kind == kind)
  {
    var regs' := regs[i := r];
    if Has(regs, a, kind) {
      var j :| 0 <= j < |regs| && Covers(regs[j], a) && regs[j].kind == kind;
      assert regs'[j] == regs[j];
    }
    if Covers(r, a) && r.kind == kind {
      assert regs'[i] == r;
    }
    if Has(regs', a, kind) {
      var j :| 0 <= j < |regs| && Covers(regs'[j], a) && regs'[j].kind == kind;
      assert j != i ==> regs[j] == regs'[j];
    }
  }

  /** Filling adds the type to exactly the addresses of the first tiles, as many as registers are free. */
  lemma {:induction false} FillAdds(regs: seq<Region>, tiles: seq<Tile>, kind: nat, a: nat, x: nat)
    ensures var n := if FreeCount(regs) < |tiles| then FreeCount(regs) else |tiles|;
      (Has(Fill(regs, tiles, kind), a, x) <==> Has(regs, a, x) || (x == kind && Count(tiles[..n], a) > 0))
      && FreeCount(Fill(regs, tiles, kind)) == FreeCount(regs) - n
    decreases |tiles|
  {
    hide Has;
    SomeOff(regs);
    if tiles != [] && FreeCount(regs) > 0 {
      var i := FirstOff(regs);
      FirstOffFacts(regs);
      var r := On(tiles[0].base, tiles[0].size, kind);
      FreeUsed(regs, i, r);
      HasSet(regs, i, r, a, x);
      FillAdds(regs[i := r], tiles[1..], kind, a, x);
      var n := if FreeCount(regs) < |tiles| then FreeCount(regs) else |tiles|;
      assert tiles[..n][1..] == tiles[1..][..n - 1];
    }
  }

  /** With enough free registers it adds the type to exactly the addresses of the tiles. */
  lemma {:induction false} FillAddsAll(regs: seq<Region>, tiles: seq<Tile>, kind: nat, a: nat, x: nat)
    requires FreeCount(regs) >= |tiles|
    ensures Has(Fill(regs, tiles, kind), a, x) <==> Has(regs, a, x) || (x == kind && Count(tiles, a) > 0)
    ensures FreeCount(Fill(regs, tiles, kind)) == FreeCount(regs) - |tiles|
  {
    FillAdds(regs, tiles, kind, a, x);
    assert tiles[..|tiles|] == tiles;
  }

  // ---------------------------------------------------------------- making room for a framebuffer

  ghost predicate WholePaged(r: Region) {
    r.On? && r.base % PAGE == 0 && r.size % PAGE == 0
  }

  /** What is left of a region before `lo`, and after `hi`. */
  function Before(r: Region, lo: nat): seq<Tile>
    requires WholePaged(r) && lo % PAGE == 0
  {
    Pages(lo, r.base);
    if r.base < lo then Tiles(r.base, lo - r.base) else []
  }

  function After(r: Region, hi: nat): seq<Tile>
    requires WholePaged(r) && hi % PAGE == 0
  {
    Pages(r.base, r.size);
    Pages(r.base + r.size, hi);
    if hi < r.base + r.size then Tiles(hi, r.base + r.size - hi) else []
  }

  /** Without register `o`, and with what is left of its region on either side of `[lo, hi)`. */
  function Split(regs: seq<Region>, o: nat, lo: nat, hi: nat): seq<Region>
    requires o < |regs| && WholePaged(regs[o]) && lo % PAGE == 0 && hi % PAGE == 0
  {
    Fill(Fill(regs[o := Off], Before(regs[o], lo), regs[o].kind), After(regs[o], hi), regs[o].kind)
  }

  /** How many registers the pieces take. */
  function Pieces(r: Region, lo: nat, hi: nat): nat
    requires WholePaged(r) && lo % PAGE == 0 && hi % PAGE == 0
  {
    |Before(r, lo)| + |After(r, hi)|
  }

  lemma {:induction false} PiecesCover(r: Region, lo: nat, hi: nat, a: nat)
    requires WholePaged(r) && lo % PAGE == 0 && hi % PAGE == 0 && lo < hi && lo < r.base + r.size && r.base < hi
    ensures Count(Before(r, lo), a) > 0 || Count(After(r, hi), a) > 0 <==> Covers(r, a) && !(lo <= a < hi)
  {
    hide Tiles;
    Pages(lo, r.base);
    Pages(r.base, r.size);
    Pages(r.base + r.size, hi);
    if r.base < lo {
      TilesCover(r.base, lo - r.base, a);
    }
    if hi < r.base + r.size {
      TilesCover(hi, r.base + r.size - hi, a);
    }
  }

  /** With enough free registers, every address outside the range keeps exactly the types it had, and in the
      range only the split region's own type is lost. */
  lemma {:induction false} SplitKeeps(regs: seq<Region>, o: nat, lo: nat, hi: nat, a: nat, x: nat)
    requires o < |regs| && WholePaged(regs[o]) && lo % PAGE == 0 && hi % PAGE == 0
    requires lo < hi && lo < regs[o].base + regs[o].size && regs[o].base < hi
    requires FreeCount(regs) + 1 >= Pieces(regs[o], lo, hi)
    ensures !(lo <= a < hi) ==> (Has(Split(regs, o, lo, hi), a, x) <==> Has(regs, a, x))
    ensures lo <= a < hi ==> (Has(Split(regs, o, lo, hi), a, x) <==> Has(regs[o := Off], a, x))
    ensures FreeCount(Split(regs, o, lo, hi)) == FreeCount(regs) + 1 - Pieces(regs[o], lo, hi)
  {
    hide Has, Before, After, Count, Fill;
    var r, regs1 := regs[o], regs[o := Off];
    FreeMade(regs, o);
    PiecesCover(r, lo, hi, a);
    FillAddsAll(regs1, Before(r, lo), r.kind, a, x);
    FillAddsAll(Fill(regs1, Before(r, lo), r.kind), After(r, hi), r.kind, a, x);
    HasSet(regs1, o, r, a, x);
    assert regs1[o := r] == regs;
  }
}

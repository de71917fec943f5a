/** Rounding up to a power of two by smearing bits to the right. The shifts are 1, 2, 3, ..., 8,
    so a bit reaches 36 places down: the result is right exactly when the number has no gap of
    37 zeros below its leading bit. */
module KmPow2 {
  import opened Common
  import opened Bits

  /** Some bit of `v` stands at most `w` places above `b`. */
  ghost predicate Reaches(v: nat, b: nat, w: nat) {
    exists c :: b <= c <= b + w && Bit(v, c)
  }

  ghost predicate Smeared(v0: nat, v: nat, w: nat) {
    forall b: nat :: Bit(v, b) <==> Reaches(v0, b, w)
  }

  /** One smearing step reaches as far again as its shift, if it leaves no hole. */
  lemma {:induction false} SmearStep(v0: nat, v: nat, w: nat, i: nat)
    requires Smeared(v0, v, w) && 0 < i <= w + 1
    ensures Smeared(v0, Or(v, Shr(v, i)), w + i)
  {
    forall b: nat ensures Bit(Or(v, Shr(v, i)), b) <==> Reaches(v0, b, w + i) {
      BitOr(v, Shr(v, i), b);
      ShrShr(v, i, b);
      assert Bit(v, b) <==> Reaches(v0, b, w);
      assert Bit(v, b + i) <==> Reaches(v0, b + i, w);
    }
  }

  /** The bits of `v` below its leading one leave no gap of 37 zeros. */
  ghost predicate NoGap(v: nat) {
    forall t: nat, b: nat | Leads(v, t) && b <= t :: Reaches(v, b, 36)
  }

  /** The smeared number plus one is the power of two above exactly when there is no gap. */
  lemma {:induction false} SmearedRounds(m: nat, v: nat)
    requires Smeared(m, v, 36)
    ensures RoundsUp(m + 1, v + 1) <==> NoGap(m)
  {
    if m == 0 {
      NothingToRound(v);
      return;
    }
    var t := LeadingBit(m);
    LeadsPow2(m, t);
    forall b: nat ensures b > t ==> !Bit(v, b) {
      if b > t && Reaches(m, b, 36) {
        var c :| b <= c <= b + 36 && Bit(m, c);
        BitsOf(m, t, c);
      }
    }
    NoHighBits(v, t + 1);
    if NoGap(m) {
      forall b: nat | b < t + 1 ensures Bit(v, b) {
        assert Reaches(m, b, 36);
      }
      AllOnes(v, t + 1);
      assert v + 1 == Pow2(t + 1);
    }
    if RoundsUp(m + 1, v + 1) {
      var k: nat :| v + 1 == Pow2(k) && m + 1 <= v + 1;
      if k <= t {
        Pow2Order(k, t);
      } else if k > t + 1 {
        Pow2Order(t + 2, k);
      }
      forall u: nat, b: nat | Leads(m, u) && b <= u ensures Reaches(m, b, 36) {
        LeadsUnique(m, t, u);
        OnesBits(k, b);
      }
    }
  }

  lemma {:induction false} NothingToRound(v: nat)
    requires Smeared(0, v, 36)
    ensures v == 0 && RoundsUp(1, 1) && NoGap(0)
  {
    forall b: nat ensures !Bit(v, b) {
      if Reaches(0, b, 36) {
        var c :| b <= c <= b + 36 && Bit(0, c);
        ZeroBit(c);
      }
    }
    NoHighBits(v, 0);
    assert 1 == Pow2(0);
    SmallNoGap(0);
  }

  /** Up to 2^37 there is never a gap. */
  lemma {:induction false} SmallNoGap(v: nat)
    requires v < Pow2(37)
    ensures NoGap(v)
  {
    forall t: nat, b: nat | Leads(v, t) && b <= t ensures Reaches(v, b, 36) {
      LeadsPow2(v, t);
      if t > 36 {
        Pow2Order(37, t);
      }
      BitsOf(v, t, t);
    }
  }

  /** 2^37 has one: nothing below its single bit is reached by all the shifts together. */
  lemma {:induction false} FirstGap()
    ensures !NoGap(Pow2(37))
  {
    var v := Pow2(37);
    LeadsPow2(v, 37);
    forall c: nat | c <= 36 ensures !Bit(v, c) {
      HighBitOnly(37, c);
    }
    assert !Reaches(v, 0, 36);
  }

  const HALF_WORD := 0x8000_0000_0000_0000

  /** In 64-bit arithmetic, which wraps around below 0 and above 2^64. */
  method NextPow2(n: nat) returns (r: nat)
    requires n < WORD
    ensures r < WORD && (RoundsUp(n, r) <==> 0 < n <= HALF_WORD && NoGap(n - 1))
  {
    hide Pow2, NoGap, RoundsUp;
    var v: nat := (n + WORD - 1) % WORD;
    ghost var m: nat, w: nat := v, 1;
    SmearedSelf(v);
    SmearStep(m, m, 0, 1);
    v := Or(v, Shr(v, 1));
    for i := 2 to 9
      invariant Smeared(m, v, w) && 2 * w == i * (i - 1)
    {
      SmearStep(m, v, w, i);
      v := Or(v, Shr(v, i));
      w := w + i;
    }
    assert w == 36;
    Rounds(n, m, v);
    r := (v + 1) % WORD;
  }

  lemma {:induction false} Rounds(n: nat, m: nat, v: nat)
    requires n < WORD && m == (n + WORD - 1) % WORD && Smeared(m, v, 36)
    ensures RoundsUp(n, (v + 1) % WORD) <==> 0 < n <= HALF_WORD && NoGap(m)
  {
    hide Pow2, NoGap, Smeared, RoundsUp;
    Halves();
    if n == 0 {
      StaysFull(v);
      NoZero();
    } else if n <= HALF_WORD {
      assert m == n - 1;
      SmearedFits(m, v, 63);
      SmearedRounds(m, v);
    } else {
      NoPower(n, (v + 1) % WORD);
    }
  }

  /** All ones stay all ones. */
  lemma {:induction false} StaysFull(v: nat)
    requires Smeared(WORD - 1, v, 36)
    ensures v == WORD - 1
  {
    hide Pow2;
    Halves();
    SmearedFits(WORD - 1, v, 64);
    forall b: nat | b < 64 ensures Bit(v, b) {
      OnesBits(64, b);
      assert Reaches(WORD - 1, b, 36);
    }
    AllOnes(v, 64);
  }

  lemma {:induction false} NoZero()
    ensures !RoundsUp(0, 0)
  {
  }

  lemma {:induction false} Halves()
    ensures Pow2(63) == HALF_WORD && Pow2(64) == WORD
  {
    hide Pow2;
    Words();
    Pow2Add(32, 32);
    Double(64);
  }

  /** Smearing reaches no higher. */
  lemma {:induction false} SmearedFits(m: nat, v: nat, n: nat)
    requires Smeared(m, v, 36) && m < Pow2(n)
    ensures v < Pow2(n)
  {
    forall b: nat | b >= n ensures !Bit(v, b) {
      if Bit(v, b) {
        var c :| b <= c <= b + 36 && Bit(m, c);
        HighZero(m, n, c);
      }
    }
    NoHighBits(v, n);
  }

  /** No 64-bit power of two is more than 2^63. */
  lemma {:induction false} NoPower(n: nat, r: nat)
    requires r < WORD && n > HALF_WORD
    ensures !RoundsUp(n, r)
  {
    hide Pow2;
    Halves();
    if RoundsUp(n, r) {
      var k: nat :| r == Pow2(k) && n <= r && (k > 0 ==> Pow2(k - 1) < n);
      if k >= 64 {
        Pow2Order(64, k);
      } else {
        Pow2Order(k, 63);
      }
    }
  }

  lemma {:induction false} SmearedSelf(v: nat)
    ensures Smeared(v, v, 0)
  {
    forall b: nat ensures Bit(v, b) <==> Reaches(v, b, 0) {
    }
  }

  // ---------------------------------------------------------------- log2

  const TAB32: seq<nat> := [
    0, 9, 1, 10, 13, 21, 2, 29, 11, 14, 16, 18, 22, 25, 3, 30,
    8, 12, 20, 28, 15, 17, 24, 7, 19, 27, 23, 6, 26, 5, 4, 31]

  /** The top five bits of the product, taken modulo 2^32. */
  function Hash(v: nat): (r: nat)
    ensures r < 32
  {
    v * 0x07C4ACDD % 0x1_0000_0000 / 0x800_0000
  }

  /** The position of the leading one bit; 0 for 0. */
  method Log2(value: nat) returns (r: nat)
    requires value < 0x1_0000_0000
    ensures if value == 0 then r == 0 else Leads(value, r)
  {
    var v: nat := value;
    SmearedSelf(v);
    SmearStep(value, v, 0, 1);
    v := Or(v, Shr(v, 1));
    SmearStep(value, v, 1, 2);
    v := Or(v, Shr(v, 2));
    SmearStep(value, v, 3, 4);
    v := Or(v, Shr(v, 4));
    SmearStep(value, v, 7, 8);
    v := Or(v, Shr(v, 8));
    SmearStep(value, v, 15, 16);
    v := Or(v, Shr(v, 16));
    r := TAB32[Hash(v)];
    Looked(value, v);
  }

  lemma {:induction false} Looked(m: nat, v: nat)
    requires Smeared(m, v, 31) && m < 0x1_0000_0000
    ensures if m == 0 then TAB32[Hash(v)] == 0 else Leads(m, TAB32[Hash(v)])
  {
    hide Smeared, Hash, Leads;
    if m == 0 {
      SmearedZero(v);
      ZeroHash();
    } else {
      var t := LeadingBit(m);
      Words();
      LeadsPow2(m, t);
      if t >= 32 {
        Pow2Order(32, t);
      }
      SmearedOnes(m, v, t);
      Table(t);
    }
  }

  lemma {:induction false} ZeroHash()
    ensures TAB32[Hash(0)] == 0
  {
    assert Hash(0) == 0;
  }

  lemma {:induction false} SmearedZero(v: nat)
    requires Smeared(0, v, 31)
    ensures v == 0
  {
    forall b: nat ensures !Bit(v, b) {
      if Reaches(0, b, 31) {
        var c :| b <= c <= b + 31 && Bit(0, c);
        ZeroBit(c);
      }
    }
    NoHighBits(v, 0);
  }

  lemma {:induction false} SmearedOnes(m: nat, v: nat, t: nat)
    requires Smeared(m, v, 31) && Leads(m, t) && t < 32
    ensures v == Pow2(t + 1) - 1
  {
    forall b: nat ensures Bit(v, b) <==> b <= t {
      BitsOf(m, t, t);
      assert Bit(v, b) <==> Reaches(m, b, 31);
      if b <= t {
        assert b <= t <= b + 31;
      } else if Reaches(m, b, 31) {
        var c :| b <= c <= b + 31 && Bit(m, c);
        BitsOf(m, t, c);
      }
    }
    NoHighBits(v, t + 1);
    AllOnes(v, t + 1);
  }

  lemma {:induction false} Words()
    ensures Pow2(8) == 0x100 && Pow2(16) == 0x1_0000 && Pow2(24) == 0x100_0000 && Pow2(32) == 0x1_0000_0000
  {
    Pow2Step(0);
    Pow2Step(8);
    Pow2Step(16);
    Pow2Step(24);
  }

  lemma {:induction false} Pow2Step(n: nat)
    ensures Pow2(n + 1) == 2 * Pow2(n) && Pow2(n + 2) == 4 * Pow2(n) && Pow2(n + 3) == 8 * Pow2(n)
    ensures Pow2(n + 4) == 16 * Pow2(n)
    ensures Pow2(n + 5) == 32 * Pow2(n) && Pow2(n + 6) == 64 * Pow2(n) && Pow2(n + 7) == 128 * Pow2(n)
    ensures Pow2(n + 8) == 256 * Pow2(n)
  {
    assert Pow2(n + 1) == 2 * Pow2(n);
    assert Pow2(n + 2) == 2 * Pow2(n + 1);
    assert Pow2(n + 3) == 2 * Pow2(n + 2);
    assert Pow2(n + 4) == 2 * Pow2(n + 3);
    assert Pow2(n + 5) == 2 * Pow2(n + 4);
    assert Pow2(n + 6) == 2 * Pow2(n + 5);
    assert Pow2(n + 7) == 2 * Pow2(n + 6);
    assert Pow2(n + 8) == 2 * Pow2(n + 7);
  }

  predicate Row(t: nat, p: nat) {
    p > 0 && TAB32[Hash(p - 1)] == t
  }

  /** The product split into what is dropped above, the slot, and what is shifted out below. */
  lemma {:induction false} RowAt(t: nat, p: nat, above: nat, slot: nat, below: nat)
    requires p > 0 && slot < 32 && TAB32[slot] == t && below < 0x800_0000
    requires (p - 1) * 0x07C4ACDD == above * 0x1_0000_0000 + slot * 0x800_0000 + below
    ensures Row(t, p)
  {
    ModIs((p - 1) * 0x07C4ACDD, above, slot * 0x800_0000 + below);
    DivIs(slot * 0x800_0000 + below, slot, below);
  }

  lemma {:induction false} ModIs(x: nat, q: nat, r: nat)
    requires x == q * 0x1_0000_0000 + r && r < 0x1_0000_0000
    ensures x % 0x1_0000_0000 == r
  {
  }

  lemma {:induction false} DivIs(x: nat, q: nat, r: nat)
    requires x == q * 0x800_0000 + r && r < 0x800_0000
    ensures x / 0x800_0000 == q
  {
  }

  lemma {:induction false} TableRows0()
    ensures Row(0, 0x2) && Row(1, 0x4) && Row(2, 0x8) && Row(3, 0x10)
    ensures Row(4, 0x20) && Row(5, 0x40) && Row(6, 0x80) && Row(7, 0x100)
  {
    hide Row;
    RowAt(0, 0x2, 0, 0, 130329821);
    RowAt(1, 0x4, 0, 2, 122554007);
    RowAt(2, 0x8, 0, 6, 107002379);
    RowAt(3, 0x10, 0, 14, 75899123);
    RowAt(4, 0x20, 0, 30, 13692611);
    RowAt(5, 0x40, 1, 29, 23497315);
    RowAt(6, 0x80, 3, 27, 43106723);
    RowAt(7, 0x100, 7, 23, 82325539);
  }

  lemma {:induction false} TableRows1()
    ensures Row(8, 0x200) && Row(9, 0x400) && Row(10, 0x800) && Row(11, 0x1000)
    ensures Row(12, 0x2000) && Row(13, 0x4000) && Row(14, 0x8000) && Row(15, 0x10000)
  {
    hide Row;
    RowAt(8, 0x200, 15, 16, 26545443);
    RowAt(9, 0x400, 31, 1, 49202979);
    RowAt(10, 0x800, 62, 3, 94518051);
    RowAt(11, 0x1000, 124, 8, 50930467);
    RowAt(12, 0x2000, 248, 17, 97973027);
    RowAt(13, 0x4000, 497, 4, 57840419);
    RowAt(14, 0x8000, 994, 9, 111792931);
    RowAt(15, 0x10000, 1988, 20, 85480227);
  }

  lemma {:induction false} TableRows2()
    ensures Row(16, 0x20000) && Row(17, 0x40000) && Row(18, 0x80000) && Row(19, 0x100000)
    ensures Row(20, 0x200000) && Row(21, 0x400000) && Row(22, 0x800000) && Row(23, 0x1000000)
  {
    hide Row;
    RowAt(16, 0x20000, 3977, 10, 32854819);
    RowAt(17, 0x40000, 7954, 21, 61821731);
    RowAt(18, 0x80000, 15909, 11, 119755555);
    RowAt(19, 0x100000, 31818, 24, 101405475);
    RowAt(20, 0x200000, 63637, 18, 64705315);
    RowAt(21, 0x400000, 127275, 5, 125522723);
    RowAt(22, 0x800000, 254550, 12, 112939811);
    RowAt(23, 0x1000000, 509100, 26, 87773987);
  }

  lemma {:induction false} TableRows3()
    ensures Row(24, 0x2000000) && Row(25, 0x4000000) && Row(26, 0x8000000) && Row(27, 0x10000000)
    ensures Row(28, 0x20000000) && Row(29, 0x40000000) && Row(30, 0x80000000) && Row(31, 0x100000000)
  {
    hide Row;
    RowAt(24, 0x2000000, 1018201, 22, 37442339);
    RowAt(25, 0x4000000, 2036403, 13, 70996771);
    RowAt(26, 0x8000000, 4072806, 28, 3887907);
    RowAt(27, 0x10000000, 8145613, 25, 3887907);
    RowAt(28, 0x20000000, 16291227, 19, 3887907);
    RowAt(29, 0x40000000, 32582455, 7, 3887907);
    RowAt(30, 0x80000000, 65164910, 15, 3887907);
    RowAt(31, 0x100000000, 130329820, 31, 3887907);
  }

  /** Each run of ones finds its length in the table. */
  lemma {:induction false} Table(t: nat)
    requires t < 32
    ensures Row(t, Pow2(t + 1))
  {
    hide Row;
    Words();
    if t < 8 {
      Pow2Step(0);
      TableRows0();
    } else if t < 16 {
      Pow2Step(8);
      TableRows1();
    } else if t < 24 {
      Pow2Step(16);
      TableRows2();
    } else {
      Pow2Step(24);
      TableRows3();
    }
  }
}

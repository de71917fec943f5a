/** Clock ticks to nanoseconds by a fixed-point factor. */
module Clock {
  import opened Common
  import opened Bits

  const U32: nat := 0x1_0000_0000
  const NS_PER_SEC: nat := 1000000000

  /** 10^9 * 2^shift / freq, rounded to the nearest. */
  function Scaled(freq: nat, shift: nat): nat
    requires freq > 0
  {
    (NS_PER_SEC * Pow2(shift) + freq / 2) / freq
  }

  /** The sum stays below 2^64. */
  lemma {:induction false} NoWrap(freq: nat, shift: nat)
    requires freq < WORD && shift <= 31
    ensures NS_PER_SEC * Pow2(shift) + freq / 2 < WORD
  {
    Pow2Order(shift, 31);
    TwoTo32();
    MulMono(NS_PER_SEC, Pow2(shift), Pow2(31));
  }

  lemma {:induction false} TwoTo32()
    ensures Pow2(32) == U32 && Pow2(31) == 0x8000_0000
  {
    assert Pow2(4) == 16;
    Pow2Add(4, 4);
    Pow2Add(8, 8);
    Pow2Add(16, 8);
    Pow2Add(24, 4);
    Pow2Add(28, 3);
    assert Pow2(3) == 8;
  }

  /** A shift of 1 always fits. */
  lemma {:induction false} OneFits(freq: nat)
    requires freq >= 1
    ensures Scaled(freq, 1) < U32
  {
    assert Pow2(1) == 2;
    var x := 2 * NS_PER_SEC + freq / 2;
    if x / freq >= U32 {
      assert x / freq * freq <= x;
      MulMono(freq, U32, x / freq);
    }
  }

  /** Twice the error of the factor, times the frequency, is at most the frequency. */
  ghost predicate HalfOff(m: nat, f: nat, k: nat) {
    -1 * f <= 2 * (m * f) - 2 * k <= f
  }

  /** The factor is off by at most one half. */
  lemma {:induction false} Rounded(freq: nat, shift: nat)
    requires freq > 0
    ensures HalfOff(Scaled(freq, shift), freq, NS_PER_SEC * Pow2(shift))
  {
    hide Pow2;
    RoundedOff(NS_PER_SEC * Pow2(shift), freq);
  }

  lemma {:induction false} RoundedOff(k: nat, f: nat)
    requires f > 0
    ensures HalfOff((k + f / 2) / f, f, k)
  {
    var n := k + f / 2;
    FloorClose(n, f);
    var mf := n / f * f;
    assert n == mf + n % f;
  }

  lemma {:induction false} FloorClose(x: nat, p: nat)
    requires p > 0
    ensures x == x / p * p + x % p && 0 <= x % p < p
  {
  }

  class ClockSource {
    const freqHz: nat
    var mult: nat
    var shift: nat

    constructor (freqHz: nat)
      ensures this.freqHz == freqHz && mult == 0 && shift == 0
    {
      this.freqHz, mult, shift := freqHz, 0, 0;
    }

    /** The largest shift, from 31 down to 1, whose factor fits 32 bits; there always is one. */
    method SetClockScale()
      requires 1 <= freqHz < WORD
      modifies this
      ensures 1 <= shift <= 31 && mult == Scaled(freqHz, shift) < U32
      ensures forall s | shift < s <= 31 :: Scaled(freqHz, s) >= U32
    {
      var s: nat := 31;
      while s > 0
        invariant 1 <= s <= 31 && forall r | s < r <= 31 :: Scaled(freqHz, r) >= U32
        decreases s
      {
        NoWrap(freqHz, s);
        var m := (NS_PER_SEC * Pow2(s) + freqHz / 2) / freqHz;
        if m < U32 {
          mult, shift := m, s;
          return;
        }
        OneFits(freqHz);
        s := s - 1;
      }
      assert false;
    }

    /** `t` ticks in nanoseconds. */
    function TicksToNs(t: nat): nat
      reads this
    {
      t * mult / Pow2(shift) % WORD
    }
  }

  /** `ns` is less than t / 2p + 1 away from t * 10^9 / f: both sides times 2 * p * f. */
  ghost predicate Near(ns: nat, t: nat, f: nat, p: nat) {
    -1 * (t * f) - 2 * (f * p) <= 2 * (f * (ns * p)) - 2 * (t * (NS_PER_SEC * p)) <= t * f
  }

  /** As long as it fits 64 bits, the result for `t` ticks is less than t / 2^(shift+1) + 1 away from the
      exact t * 10^9 / freq. */
  lemma {:induction false} TicksClose(c: ClockSource, t: nat)
    requires c.freqHz > 0 && c.mult == Scaled(c.freqHz, c.shift) && t * c.mult / Pow2(c.shift) < WORD
    ensures Near(c.TicksToNs(t), t, c.freqHz, Pow2(c.shift))
  {
    hide Near, HalfOff, Scaled, Pow2;
    Rounded(c.freqHz, c.shift);
    Quotient(t, c.mult, c.freqHz, Pow2(c.shift));
  }

  lemma {:induction false} Quotient(t: nat, m: nat, f: nat, p: nat)
    requires p > 0 && HalfOff(m, f, NS_PER_SEC * p) && t * m / p < WORD
    ensures Near(t * m / p % WORD, t, f, p)
  {
    hide Near, HalfOff;
    FloorClose(t * m, p);
    Scale(t, m, f, p, t * m / p, t * m % p);
  }

  lemma {:induction false} Scale(t: nat, m: nat, f: nat, p: nat, ns: nat, r: nat)
    requires t * m == ns * p + r && 0 <= r < p && HalfOff(m, f, NS_PER_SEC * p)
    ensures Near(ns, t, f, p)
  {
    var e := 2 * (m * f) - 2 * (NS_PER_SEC * p);
    assert f * (ns * p) == f * (t * m) - f * r;
    assert f * (t * m) == t * (m * f);
    assert t * e == 2 * (t * (m * f)) - 2 * (t * (NS_PER_SEC * p));
    Bounds(t, e, f);
    Bounds(f, r, p);
  }

  lemma {:induction false} Bounds(a: nat, e: int, f: nat)
    requires -1 * f <= e <= f
    ensures -1 * (a * f) <= a * e <= a * f
    ensures e >= 0 ==> 0 <= a * e
  {
  }

  // ---------------------------------------------------------------- the product in halves

  /** (a * mul) >> shift from two 32-bit halves of `a`, in 64-bit arithmetic. */
  method MulU64U32Shr(a: nat, mul: nat, shift: nat) returns (ret: nat)
    requires a < WORD && mul < U32 && shift <= 32
    ensures ret == a * mul / Pow2(shift) % WORD
  {
    hide Pow2;
    var al, ah := a % U32, a / U32;
    LowFits(al, mul);
    ret := al * mul / Pow2(shift);
    if ah != 0 {
      ret := (ret + ah * mul * Pow2(32 - shift) % WORD) % WORD;
    }
    Halves(a, al, ah, mul, shift);
    LowSmall(al * mul, Pow2(shift));
  }

  /** The low product needs no more than 64 bits. */
  lemma {:induction false} LowFits(al: nat, mul: nat)
    requires al < U32 && mul < U32
    ensures al * mul < WORD
  {
    MulMono(al, mul, U32);
  }

  lemma {:induction false} LowSmall(x: nat, p: nat)
    requires x < WORD && p > 0
    ensures x / p <= x && x / p % WORD == x / p
  {
    FloorClose(x, p);
    MulMono(x / p, 1, p);
  }

  lemma {:induction false} Halves(a: nat, al: nat, ah: nat, mul: nat, shift: nat)
    requires a == ah * U32 + al && shift <= 32
    ensures a * mul / Pow2(shift) == al * mul / Pow2(shift) + ah * mul * Pow2(32 - shift)
    ensures a * mul / Pow2(shift) % WORD == (al * mul / Pow2(shift) + ah * mul * Pow2(32 - shift) % WORD) % WORD
  {
    hide Pow2;
    var p, q := Pow2(shift), Pow2(32 - shift);
    TwoTo32();
    Pow2Add(shift, 32 - shift);
    Spread(a, al, ah, mul, p, q);
    DivShift(al * mul, p, ah * mul * q);
    ModSum(al * mul / p, ah * mul * q);
  }

  lemma {:induction false} Spread(a: nat, al: nat, ah: nat, mul: nat, p: nat, q: nat)
    requires a == ah * U32 + al && p * q == U32
    ensures a * mul == p * (ah * mul * q) + al * mul
  {
    assert a * mul == ah * mul * U32 + al * mul;
    assert ah * mul * (p * q) == p * (ah * mul * q);
  }

  lemma {:induction false} DivShift(x: nat, p: nat, y: nat)
    requires p > 0
    ensures (p * y + x) / p == y + x / p
  {
    FloorClose(x, p);
    assert p * y + x == (y + x / p) * p + x % p;
    QuotientIs(p * y + x, p, y + x / p, x % p);
  }

  lemma {:induction false} ModSum(x: nat, y: nat)
    ensures (x + y) % WORD == (x + y % WORD) % WORD
  {
  }
}

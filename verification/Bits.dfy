/** Numbers as binary words. */
module Bits {
  function Pow2(n: nat): (r: nat)
    ensures r > 0
  {
    if n == 0 then 1 else 2 * Pow2(n - 1)
  }

  /** `v` shifted right by `i` places. */
  function Shr(v: nat, i: nat): nat {
    if i == 0 then v else Shr(v / 2, i - 1)
  }

  predicate Bit(v: nat, b: nat) {
    Shr(v, b) % 2 == 1
  }

  function Or(a: nat, b: nat): nat {
    if a == 0 && b == 0 then 0
    else 2 * Or(a / 2, b / 2) + if a % 2 == 1 || b % 2 == 1 then 1 else 0
  }

  lemma {:induction false} BitOr(a: nat, b: nat, k: nat)
    ensures Bit(Or(a, b), k) <==> Bit(a, k) || Bit(b, k)
    decreases k
  {
    if k > 0 {
      if a != 0 || b != 0 {
        BitOr(a / 2, b / 2, k - 1);
      } else {
        ZeroBit(k - 1);
      }
    }
  }

  lemma ZeroBit(k: nat)
    ensures !Bit(0, k)
  {
    if k > 0 {
      ZeroBit(k - 1);
    }
  }

  lemma {:induction false} ShrShr(v: nat, i: nat, k: nat)
    ensures Shr(Shr(v, i), k) == Shr(v, i + k)
    decreases i
  {
    if i > 0 {
      ShrShr(v / 2, i - 1, k);
    }
  }

  /** `t` is the leading bit of `v`. */
  ghost predicate Leads(v: nat, t: nat) {
    Shr(v, t) == 1
  }

  lemma {:induction false} LeadsPow2(v: nat, t: nat)
    ensures Leads(v, t) <==> Pow2(t) <= v < Pow2(t + 1)
    decreases t
  {
    if t > 0 {
      LeadsPow2(v / 2, t - 1);
    }
  }

  lemma {:induction false} BitsOf(v: nat, t: nat, b: nat)
    requires Leads(v, t)
    ensures b == t ==> Bit(v, b)
    ensures b > t ==> !Bit(v, b)
  {
    if b > t {
      ShrShr(v, t, b - t);
      ZeroBit(b - t - 1);
    }
  }

  lemma {:induction false} SmallPowers()
    ensures Pow2(7) == 128 && Pow2(9) == 512 && Pow2(11) == 2048 && Pow2(12) == 4096
  {
    assert Pow2(3) == 8 && Pow2(6) == 8 * Pow2(3) && Pow2(7) == 2 * Pow2(6);
    assert Pow2(9) == 8 * Pow2(6) && Pow2(11) == 4 * Pow2(9) && Pow2(12) == 2 * Pow2(11);
  }

  /** `r` is the least power of two that is at least `n`. */
  ghost predicate RoundsUp(n: nat, r: nat) {
    exists k: nat :: r == Pow2(k) && n <= r && (k > 0 ==> Pow2(k - 1) < n)
  }

  lemma Pow2Order(a: nat, b: nat)
    requires a <= b
    ensures Pow2(a) <= Pow2(b)
  {
  }

  lemma Pow2Add(a: nat, b: nat)
    ensures Pow2(a + b) == Pow2(a) * Pow2(b)
  {
    if a > 0 {
      Pow2Add(a - 1, b);
      assert Pow2(a + b) == 2 * Pow2(a - 1 + b) == 2 * (Pow2(a - 1) * Pow2(b)) == Pow2(a) * Pow2(b);
    }
  }

  /** A number with exactly the bits below `n` is 2^n - 1. */
  lemma {:induction false} AllOnes(v: nat, n: nat)
    requires v < Pow2(n) && forall b: nat :: b < n ==> Bit(v, b)
    ensures v == Pow2(n) - 1
  {
    if n > 0 {
      assert Bit(v, 0);
      forall b: nat | b < n - 1 ensures Bit(v / 2, b) {
        assert Bit(v, b + 1) == Bit(v / 2, b);
      }
      AllOnes(v / 2, n - 1);
    }
  }

  /** A number whose bits all lie below `n` is less than 2^n. */
  lemma {:induction false} NoHighBits(v: nat, n: nat)
    requires forall b: nat :: b >= n ==> !Bit(v, b)
    ensures v < Pow2(n)
    decreases v
  {
    if v > 0 {
      if n == 0 {
        var t := LeadingBit(v);
        BitsOf(v, t, t);
      } else {
        forall b: nat | b >= n - 1 ensures !Bit(v / 2, b) {
          assert Bit(v, b + 1) == Bit(v / 2, b);
        }
        NoHighBits(v / 2, n - 1);
      }
    }
  }

  lemma {:induction false} LeadingBit(v: nat) returns (t: nat)
    requires v > 0
    ensures Leads(v, t)
    decreases v
  {
    if v == 1 {
      t := 0;
    } else {
      var t' := LeadingBit(v / 2);
      t := t' + 1;
    }
  }

  lemma {:induction false} LeadsUnique(v: nat, t: nat, u: nat)
    requires Leads(v, t) && Leads(v, u)
    ensures t == u
  {
    LeadsPow2(v, t);
    LeadsPow2(v, u);
    if t < u {
      Pow2Order(t + 1, u);
    } else if u < t {
      Pow2Order(u + 1, t);
    }
  }

  lemma {:induction false} OnesBits(n: nat, b: nat)
    requires b < n
    ensures Bit(Pow2(n) - 1, b)
    decreases n
  {
    if b > 0 {
      assert (Pow2(n) - 1) / 2 == Pow2(n - 1) - 1;
      OnesBits(n - 1, b - 1);
    }
  }

  lemma {:induction false} HighBitOnly(n: nat, b: nat)
    requires b < n
    ensures !Bit(Pow2(n), b)
    decreases n
  {
    if b > 0 {
      HighBitOnly(n - 1, b - 1);
    }
  }

  lemma {:induction false} OrZero(b: nat)
    ensures Or(0, b) == b
    decreases b
  {
    if b > 0 {
      OrZero(b / 2);
    }
  }

  /** Bits below 2^k do not touch those above. */
  lemma {:induction false} OrLow(a: nat, k: nat, c: nat, b: nat)
    requires c < Pow2(k) && b < Pow2(k)
    ensures Or(a * Pow2(k) + c, b) == a * Pow2(k) + Or(c, b) && Or(c, b) < Pow2(k)
    decreases k
  {
    hide Or, Pow2;
    if k == 0 {
      PowZero();
      OrCommutes(a, 0);
      OrZero(a);
      OrZero(0);
    } else {
      Double(k);
      var h := a * Pow2(k - 1);
      TwiceProduct(a, Pow2(k - 1));
      assert (2 * h + c) / 2 == h + c / 2 && (2 * h + c) % 2 == c % 2;
      OrLow(a, k - 1, c / 2, b / 2);
      OrStep(2 * h + c, b);
      OrStep(c, b);
    }
  }

  lemma {:induction false} TwiceProduct(a: nat, p: nat)
    ensures a * (2 * p) == 2 * (a * p)
  {
  }

  lemma {:induction false} OrStep(a: nat, b: nat)
    ensures Or(a, b) == 2 * Or(a / 2, b / 2) + if a % 2 == 1 || b % 2 == 1 then 1 else 0
  {
  }

  lemma {:induction false} OrCommutes(a: nat, b: nat)
    ensures Or(a, b) == Or(b, a)
    decreases a + b
  {
    if a != 0 || b != 0 {
      OrCommutes(a / 2, b / 2);
    }
  }

  lemma {:induction false} PowerBit(n: nat, b: nat)
    ensures Bit(Pow2(n), b) <==> b == n
  {
    LeadsPow2(Pow2(n), n);
    if b < n {
      HighBitOnly(n, b);
    } else {
      BitsOf(Pow2(n), n, b);
    }
  }

  /** `w` with bit `n` off. */
  function Off(w: nat, n: nat): nat {
    if n == 0 then w / 2 * 2 else 2 * Off(w / 2, n - 1) + w % 2
  }

  lemma {:induction false} BitOff(w: nat, n: nat, b: nat)
    ensures Bit(Off(w, n), b) <==> Bit(w, b) && b != n
    ensures Off(w, n) <= w
    decreases n
  {
    if n > 0 {
      BitOff(w / 2, n - 1, if b > 0 then b - 1 else 0);
      assert Off(w, n) / 2 == Off(w / 2, n - 1) && Off(w, n) % 2 == w % 2;
    } else {
      assert Off(w, n) / 2 == w / 2 && Off(w, n) % 2 == 0;
    }
  }

  /** Bits decide a word. */
  lemma {:induction false} SameBits(v: nat, w: nat)
    requires forall b: nat :: Bit(v, b) <==> Bit(w, b)
    ensures v == w
    decreases v + w
  {
    if v != 0 || w != 0 {
      assert Bit(v, 0) <==> Bit(w, 0);
      forall b: nat ensures Bit(v / 2, b) <==> Bit(w / 2, b) {
        assert Bit(v, b + 1) <==> Bit(w, b + 1);
      }
      SameBits(v / 2, w / 2);
    }
  }

  /** The position of the leading one bit: 63 minus the number of leading zeros of a 64-bit word. */
  function TopBit(v: nat): nat {
    if v <= 1 then 0 else 1 + TopBit(v / 2)
  }

  lemma {:induction false} TopBitLeads(v: nat)
    requires v > 0
    ensures Leads(v, TopBit(v)) && Pow2(TopBit(v)) <= v < Pow2(TopBit(v) + 1)
    decreases v
  {
    if v > 1 {
      TopBitLeads(v / 2);
    }
    LeadsPow2(v, TopBit(v));
  }

  function And(a: nat, b: nat): nat {
    if a == 0 || b == 0 then 0
    else 2 * And(a / 2, b / 2) + if a % 2 == 1 && b % 2 == 1 then 1 else 0
  }

  /** A mask of ones from bit `k` up to bit `n` keeps those bits. */
  lemma {:induction false} AndMask(x: nat, k: nat, n: nat)
    requires k <= n && x < Pow2(n)
    ensures Pow2(k) <= Pow2(n) && And(x, Pow2(n) - Pow2(k)) == x / Pow2(k) * Pow2(k)
    decreases n
  {
    hide And, Pow2;
    Pow2Order(k, n);
    if k > 0 {
      Double(k);
      Double(n);
      AndMask(x / 2, k - 1, n - 1);
      AndStep(x, Pow2(n) - Pow2(k));
      MaskHalf(x, Pow2(k - 1));
    } else {
      PowZero();
      AndOnes(x, n);
    }
  }

  /** A mask below 2^n sees only what is below 2^n. */
  lemma {:induction false} AndLow(x: nat, m: nat, n: nat)
    requires m < Pow2(n)
    ensures And(x, m) == And(x % Pow2(n), m)
    decreases n
  {
    hide And, Pow2;
    if n == 0 {
      PowZero();
      AndZero(x);
      AndZero(x % 1);
    } else {
      Double(n);
      LowHalf(x, Pow2(n - 1));
      AndLow(x / 2, m / 2, n - 1);
      AndStep(x, m);
      AndStep(x % Pow2(n), m);
    }
  }

  lemma {:induction false} AndZero(x: nat)
    ensures And(x, 0) == 0
  {
  }

  lemma {:induction false} LowHalf(x: nat, p: nat)
    requires p > 0
    ensures x % (2 * p) / 2 == x / 2 % p && x % (2 * p) % 2 == x % 2
  {
    var q, r := x / 2 / p, x / 2 % p;
    assert x / 2 == q * p + r;
    assert x == q * (2 * p) + (2 * r + x % 2);
    QuotientIs(x, 2 * p, q, 2 * r + x % 2);
  }

  /** A number below 2^n has no bit from `n` on. */
  lemma {:induction false} HighZero(v: nat, n: nat, b: nat)
    requires v < Pow2(n) && b >= n
    ensures !Bit(v, b)
  {
    if v == 0 {
      ZeroBit(b);
    } else {
      var t := LeadingBit(v);
      LeadsPow2(v, t);
      if t >= n {
        Pow2Order(n, t);
      }
      BitsOf(v, t, b);
    }
  }

  lemma {:induction false} Double(k: nat)
    requires k > 0
    ensures Pow2(k) == 2 * Pow2(k - 1)
  {
  }

  lemma {:induction false} PowZero()
    ensures Pow2(0) == 1
  {
  }

  lemma {:induction false} MaskHalf(x: nat, p: nat)
    requires p > 0
    ensures x / (2 * p) * (2 * p) == 2 * (x / 2 / p * p)
  {
    HalfDivides(x, p);
    var q := x / 2 / p;
    assert q * (2 * p) == 2 * (q * p);
  }

  lemma {:induction false} AndOnes(x: nat, n: nat)
    requires x < Pow2(n)
    ensures And(x, Pow2(n) - 1) == x
    decreases n
  {
    if n > 0 {
      AndOnes(x / 2, n - 1);
      assert (Pow2(n) - 1) / 2 == Pow2(n - 1) - 1 && (Pow2(n) - 1) % 2 == 1;
      AndStep(x, Pow2(n) - 1);
    }
  }

  lemma {:induction false} AndStep(a: nat, b: nat)
    ensures And(a, b) == 2 * And(a / 2, b / 2) + if a % 2 == 1 && b % 2 == 1 then 1 else 0
  {
  }

  lemma {:induction false} HalfDivides(x: nat, p: nat)
    requires p > 0
    ensures x / (2 * p) == x / 2 / p
  {
    var q, r := x / 2 / p, x / 2 % p;
    assert x / 2 == q * p + r;
    assert x == q * (2 * p) + (2 * r + x % 2);
    QuotientIs(x, 2 * p, q, 2 * r + x % 2);
  }

  lemma {:induction false} QuotientIs(x: nat, p: nat, q: nat, r: nat)
    requires p > 0 && x == q * p + r && r < p
    ensures x / p == q && x % p == r
  {
    var d := x / p - q;
    assert x == x / p * p + x % p;
    assert d * p == r - x % p;
    Between(d, p);
  }

  lemma {:induction false} Between(d: int, p: nat)
    ensures d >= 1 ==> d * p >= p
    ensures d <= -1 ==> d * p <= -1 * p
  {
  }
}

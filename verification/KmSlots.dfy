/** The slots of a one-page superblock. */
module KmSlots {
  import opened Common
  import opened Bits

  const HEADER := 32
  const MIN_POWER := 3
  const MAX_POWER := 11

  /** The exponents of the block sizes: 8 to 2048 bytes. */
  predicate IsPower(k: nat) {
    MIN_POWER <= k <= MAX_POWER
  }

  lemma {:induction false} Sizes(k: nat)
    requires IsPower(k)
    ensures Pow2(k) == [8, 16, 32, 64, 128, 256, 512, 1024, 2048][k - 3]
  {
    assert Pow2(3) == 8;
    assert Pow2(4) == 16;
    assert Pow2(5) == 32;
    assert Pow2(6) == 64;
    assert Pow2(7) == 128;
    assert Pow2(8) == 256;
    assert Pow2(9) == 512;
    assert Pow2(10) == 1024;
    assert Pow2(11) == 2048;
  }

  /** How many blocks of `size` bytes a superblock holds, and where the first one starts. */
  function SlotCount(size: nat): nat
    requires size > 0
  {
    (PAGE - HEADER) / size
  }

  function FirstSlot(size: nat): nat {
    if size > HEADER then size else HEADER
  }

  function SlotAt(page: nat, k: nat, i: nat): nat {
    page * PAGE + FirstSlot(Pow2(k)) + i * Pow2(k)
  }

  predicate IsSlot(page: nat, k: nat, a: nat) {
    exists i :: 0 <= i < SlotCount(Pow2(k)) && a == SlotAt(page, k, i)
  }

  function PageOf(a: nat): nat {
    a / PAGE
  }

  /** A slot lies behind the header, within the page, and is aligned to its size. */
  lemma {:induction false} SlotInPage(page: nat, k: nat, i: nat)
    requires IsPower(k) && i < SlotCount(Pow2(k))
    ensures var a := SlotAt(page, k, i);
      page * PAGE + HEADER <= a && a + Pow2(k) <= page * PAGE + PAGE && PageOf(a) == page && a % Pow2(k) == 0
  {
    Sizes(k);
    var n := Pow2(k);
    assert i * n <= (SlotCount(n) - 1) * n;
    var a := SlotAt(page, k, i);
    assert a + n <= page * PAGE + PAGE;
    assert PageOf(a) == page;
    Aligned(page, k, i);
  }

  lemma {:induction false} Aligned(page: nat, k: nat, i: nat)
    requires IsPower(k)
    ensures SlotAt(page, k, i) % Pow2(k) == 0
  {
    Sizes(k);
    var n := Pow2(k);
    var f := FirstSlot(n) / n;
    assert FirstSlot(n) == f * n;
    var q := PAGE / n;
    assert PAGE == q * n;
    assert SlotAt(page, k, i) == (page * q + f + i) * n;
    MulMod(page * q + f + i, n);
  }

  lemma {:induction false} MulMod(x: nat, n: nat)
    requires n > 0
    ensures (x * n) % n == 0
  {
    var q, r := (x * n) / n, (x * n) % n;
    assert (x - q) * n == r;
    MulAtLeast(x - q, n);
  }

  lemma {:induction false} MulAtLeast(d: int, n: nat)
    ensures d >= 1 ==> d * n >= n
    ensures d <= -1 ==> d * n <= 0 - n
  {
  }

  /** The slots lie one behind the other and fill the page to its end. */
  lemma {:induction false} SlotsFill(page: nat, k: nat)
    requires IsPower(k)
    ensures SlotAt(page, k, 0) - page * PAGE == (if Pow2(k) < HEADER then HEADER else Pow2(k))
    ensures SlotAt(page, k, SlotCount(Pow2(k))) == page * PAGE + PAGE
    ensures forall i: nat :: SlotAt(page, k, i + 1) == SlotAt(page, k, i) + Pow2(k)
  {
    Sizes(k);
    forall i: nat ensures SlotAt(page, k, i + 1) == SlotAt(page, k, i) + Pow2(k) {
      assert (i + 1) * Pow2(k) == i * Pow2(k) + Pow2(k);
    }
  }

  /** Different slots do not overlap. */
  lemma {:induction false} SlotsApart(page: nat, k: nat, i: nat, j: nat)
    requires i < j
    ensures SlotAt(page, k, i) + Pow2(k) <= SlotAt(page, k, j)
  {
    assert (i + 1) * Pow2(k) <= j * Pow2(k);
  }

  /** All slots of a superblock, in order. */
  function AllSlots(page: nat, k: nat): seq<nat> {
    seq(SlotCount(Pow2(k)), i requires 0 <= i < SlotCount(Pow2(k)) => SlotAt(page, k, i))
  }

  lemma {:induction false} AllSlotsDistinct(page: nat, k: nat, i: nat, j: nat)
    requires i < j < |AllSlots(page, k)|
    ensures AllSlots(page, k)[i] != AllSlots(page, k)[j]
  {
    SlotsApart(page, k, i, j);
  }

  lemma {:induction false} SubsetSize(a: set<nat>, b: set<nat>)
    requires a <= b
    ensures |a| <= |b| && (|a| == |b| ==> a == b)
  {
    assert |b - a| == |b| - |a|;
    assert |a| == |b| ==> b - a == {};
  }

  /** A list of different slots is no longer than the superblock, and when it is that long it
      holds every slot. */
  lemma {:induction false} SlotsPigeonhole(page: nat, k: nat, fl: seq<nat>)
    requires forall i, j :: 0 <= i < j < |fl| ==> fl[i] != fl[j]
    requires forall a <- fl :: IsSlot(page, k, a)
    ensures |fl| <= SlotCount(Pow2(k))
    ensures |fl| == SlotCount(Pow2(k)) ==> forall a | IsSlot(page, k, a) :: a in fl
  {
    var all := AllSlots(page, k);
    forall i, j | 0 <= i < j < |all| ensures all[i] != all[j] {
      AllSlotsDistinct(page, k, i, j);
    }
    SetOfSize(all);
    SetOfSize(fl);
    forall a | IsSlot(page, k, a) ensures a in all {
      var i :| 0 <= i < SlotCount(Pow2(k)) && a == SlotAt(page, k, i);
      assert all[i] == a;
    }
    assert SetOf(fl) <= SetOf(all);
    SubsetSize(SetOf(fl), SetOf(all));
    if |fl| == SlotCount(Pow2(k)) {
      forall a | IsSlot(page, k, a) ensures a in fl {
        assert a in SetOf(all);
      }
    }
  }
}

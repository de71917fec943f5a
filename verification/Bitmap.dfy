/** First-fit allocation from a bitmap of machine words, for frames and for the pages of the kernel heap. */
module Bitmap {
  import opened Common
  import opened Bits

  const BITS_PER_LONG := 64
  const FULL := Pow2(BITS_PER_LONG) - 1

  /** Is page `k` in use? */
  predicate Used(w: seq<nat>, k: nat)
    requires k < |w| * BITS_PER_LONG
  {
    Bit(w[k / BITS_PER_LONG], k % BITS_PER_LONG)
  }

  /** The `n` pages from `s` on are there and free. */
  ghost predicate FreeRun(w: seq<nat>, s: nat, n: nat) {
    s + n <= |w| * BITS_PER_LONG && forall k | s <= k < s + n :: !Used(w, k)
  }

  ghost predicate Words(w: seq<nat>) {
    forall i | 0 <= i < |w| :: w[i] < Pow2(BITS_PER_LONG)
  }

  /** `w'` is `w` with the pages from `s` up to `e` set or cleared. */
  ghost predicate Changed(w: seq<nat>, w': seq<nat>, s: nat, e: nat, used: bool) {
    |w'| == |w| && Words(w') && forall k: nat | k < |w| * BITS_PER_LONG ::
      Used(w', k) <==> if s <= k < e then used else Used(w, k)
  }

  lemma {:induction false} FullWord(v: nat)
    requires v < Pow2(BITS_PER_LONG)
    ensures v == FULL <==> forall b: nat | b < BITS_PER_LONG :: Bit(v, b)
  {
    if v == FULL {
      forall b: nat | b < BITS_PER_LONG ensures Bit(v, b) {
        OnesBits(BITS_PER_LONG, b);
      }
    } else if forall b: nat | b < BITS_PER_LONG :: Bit(v, b) {
      AllOnes(v, BITS_PER_LONG);
    }
  }

  lemma {:induction false} SetOne(w: seq<nat>, s: nat, k: nat, w0: seq<nat>)
    requires Words(w) && k < |w| * BITS_PER_LONG && Changed(w0, w, s, k, true) && s <= k
    ensures Or(w[k / BITS_PER_LONG], Pow2(k % BITS_PER_LONG)) < Pow2(BITS_PER_LONG)
    ensures Changed(w0, w[k / BITS_PER_LONG := Or(w[k / BITS_PER_LONG], Pow2(k % BITS_PER_LONG))], s, k + 1, true)
  {
    hide Bit, Or, Pow2;
    var i, b := k / BITS_PER_LONG, k % BITS_PER_LONG;
    var v := Or(w[i], Pow2(b));
    PowBound(b);
    OrLow(0, BITS_PER_LONG, w[i], Pow2(b));
    var w' := w[i := v];
    forall j: nat | j < |w| * BITS_PER_LONG ensures Used(w', j) <==> Used(w, j) || j == k {
      BitOr(w[i], Pow2(b), j % BITS_PER_LONG);
      PowerBit(b, j % BITS_PER_LONG);
    }
  }

  lemma {:induction false} PowBound(b: nat)
    requires b < BITS_PER_LONG
    ensures Pow2(b) < Pow2(BITS_PER_LONG)
  {
    Pow2Order(b + 1, BITS_PER_LONG);
  }

  lemma {:induction false} ClearOne(w: seq<nat>, s: nat, k: nat, w0: seq<nat>)
    requires Words(w) && k < |w| * BITS_PER_LONG && Changed(w0, w, s, k, false) && s <= k
    ensures Changed(w0, w[k / BITS_PER_LONG := Off(w[k / BITS_PER_LONG], k % BITS_PER_LONG)], s, k + 1, false)
  {
    hide Bit, Off, Pow2;
    var i, b := k / BITS_PER_LONG, k % BITS_PER_LONG;
    var w' := w[i := Off(w[i], b)];
    BitOff(w[i], b, 0);
    forall j: nat | j < |w| * BITS_PER_LONG ensures Used(w', j) <==> Used(w, j) && j != k {
      BitOff(w[i], b, j % BITS_PER_LONG);
    }
  }

  lemma {:induction false} NoChange(w: seq<nat>, s: nat)
    requires Words(w)
    ensures Changed(w, w, s, s, true)
  {
  }

  lemma {:induction false} NothingCleared(w: seq<nat>, s: nat)
    requires Words(w)
    ensures Changed(w, w, s, s, false)
  {
  }

  lemma {:induction false} ChangedWords(w: seq<nat>, w': seq<nat>, s: nat, e: nat, used: bool)
    requires Changed(w, w', s, e, used)
    ensures Words(w')
  {
  }

  /** A word written full. */
  lemma {:induction false} FillOne(w: seq<nat>, s: nat, i: nat, w0: seq<nat>)
    requires i < |w| && Changed(w0, w, s, i * BITS_PER_LONG, true) && s <= i * BITS_PER_LONG
    ensures Changed(w0, w[i := FULL], s, (i + 1) * BITS_PER_LONG, true)
  {
    hide Bit, Pow2;
    FullWord(FULL);
    var w' := w[i := FULL];
    forall j: nat | j < |w| * BITS_PER_LONG ensures Used(w', j) <==> Used(w, j) || j / BITS_PER_LONG == i {
    }
  }

  // ---------------------------------------------------------------- the search

  /** After looking at the pages before `k`: `count` free ones end there, no more, and no run of `n` has
      been passed. */
  ghost predicate Searched(w: seq<nat>, n: nat, k: nat, count: nat, start: nat) {
    count < n && count <= k <= |w| * BITS_PER_LONG && (count > 0 ==> start == k - count) && FreeRun(w, k - count, count)
    && (count < k ==> Used(w, k - count - 1)) && forall s: nat | s + n <= k :: !FreeRun(w, s, n)
  }

  lemma {:induction false} SeesFree(w: seq<nat>, n: nat, k: nat, count: nat, start: nat)
    requires Searched(w, n, k, count, start) && k < |w| * BITS_PER_LONG && !Used(w, k)
    ensures var start' := if count == 0 then k else start;
      if count + 1 == n then FreeRun(w, start', n) && forall s: nat | s < start' :: !FreeRun(w, s, n)
      else Searched(w, n, k + 1, count + 1, start')
  {
    forall s: nat | s + n <= k + 1 && s < k - count ensures !FreeRun(w, s, n) {
      if s + n == k + 1 {
        assert Used(w, k - count - 1);
      }
    }
  }

  lemma {:induction false} SeesUsed(w: seq<nat>, n: nat, k: nat, count: nat, start: nat)
    requires Searched(w, n, k, count, start) && k < |w| * BITS_PER_LONG && Used(w, k)
    ensures Searched(w, n, k + 1, 0, start)
  {
  }

  lemma {:induction false} SkipsFull(w: seq<nat>, n: nat, i: nat, count: nat, start: nat)
    requires Searched(w, n, i * BITS_PER_LONG, count, start) && i < |w| && w[i] == FULL && Words(w)
    ensures Searched(w, n, (i + 1) * BITS_PER_LONG, 0, start)
  {
    hide Bit, Pow2;
    FullWord(w[i]);
    forall k: nat | i * BITS_PER_LONG <= k < (i + 1) * BITS_PER_LONG ensures k < |w| * BITS_PER_LONG && Used(w, k) {
    }
    forall s: nat | s + n <= (i + 1) * BITS_PER_LONG ensures !FreeRun(w, s, n) {
      if s + n > i * BITS_PER_LONG {
        assert Used(w, s + n - 1);
      }
    }
  }

  /** After looking at the pages before `k`: `count` free ones end there, or `count` is past `n` and stands
      for nothing. */
  ghost predicate Counting(w: seq<nat>, n: nat, k: nat, count: nat, start: nat) {
    k <= |w| * BITS_PER_LONG
    && (count < n ==> count <= k && (count > 0 ==> start == k - count) && FreeRun(w, k - count, count))
  }

  lemma {:induction false} SearchedCounts(w: seq<nat>, n: nat, k: nat, count: nat, start: nat)
    requires Searched(w, n, k, count, start)
    ensures Counting(w, n, k, count, start) && count < n
  {
  }

  lemma {:induction false} CountsOn(w: seq<nat>, n: nat, k: nat, count: nat, start: nat)
    requires Counting(w, n, k, count, start) && k < |w| * BITS_PER_LONG && n > 0
    ensures Used(w, k) ==> Counting(w, n, k + 1, 0, start)
    ensures !Used(w, k) ==> var start' := if count == 0 then k else start;
      Counting(w, n, k + 1, count + 1, start') && (count + 1 == n ==> FreeRun(w, start', n))
  {
  }

  lemma {:induction false} CountsNothing(w: seq<nat>, n: nat, k: nat, count: nat, start: nat)
    requires k <= |w| * BITS_PER_LONG && (count == 0 || count >= n)
    ensures Counting(w, n, k, count, start)
  {
  }

  // ---------------------------------------------------------------- addresses

  /** The address the code gives page `s`: it multiplies two ints. */
  function PageAddr(base: nat, s: nat): nat
    requires base < WORD
  {
    (base + AsInt(s * PAGE)) % WORD
  }

  /** That is the page's address exactly below page 2^19, the first 2 GiB. */
  lemma {:induction false} AddrRight(base: nat, s: nat)
    requires base + s * PAGE < WORD && s < 0x8000_0000
    ensures PageAddr(base, s) == base + s * PAGE <==> s < 0x8_0000
  {
    var x := s * PAGE;
    assert x < 0x8_0000 * PAGE <==> s < 0x8_0000;
    assert x % 0x1_0000_0000 <= x;
    if s >= 0x8_0000 {
      assert AsInt(x) < x && AsInt(x) > x - WORD;
    }
  }

  /** Where frames start at 0, the address is null exactly for page 0 and every 4 GiB above it. */
  lemma {:induction false} AddrNull(s: nat)
    ensures PageAddr(0, s) == 0 <==> s % 0x10_0000 == 0
  {
    var q, r := s / 0x10_0000, s % 0x10_0000;
    assert s * PAGE == q * 0x1_0000_0000 + r * PAGE;
    assert s * PAGE % 0x1_0000_0000 == r * PAGE;
  }

  /** The page an address is taken for when it is freed: the one it was made for, below page 2^19. */
  lemma {:induction false} AddrBack(base: nat, s: nat)
    requires base + s * PAGE < WORD && s < 0x8000_0000 && PageAddr(base, s) >= base
    ensures (PageAddr(base, s) - base) / PAGE == s <==> s < 0x8_0000
  {
    AddrRight(base, s);
    var x := s * PAGE;
    if s >= 0x8_0000 {
      AddrPage(base, s);
    }
  }

  lemma {:induction false} AddrPage(base: nat, s: nat)
    requires base < WORD && 0x8_0000 <= s < 0x8000_0000 && PageAddr(base, s) >= base && base + s * PAGE < WORD
    ensures (PageAddr(base, s) - base) / PAGE != s
  {
    var x := s * PAGE;
    var d := AsInt(x);
    assert PageAddr(base, s) - base == d || PageAddr(base, s) - base == d + WORD;
    assert d < x && d % PAGE == 0 && x % PAGE == 0;
  }

  // ---------------------------------------------------------------- the allocator

  class Allocator {
    const words: array<nat>
    const base: nat

    /** Page numbers fit an int. */
    ghost predicate Valid()
      reads this, words
    {
      Words(words[..]) && words.Length * BITS_PER_LONG <= 0x8000_0000 && base < WORD
    }

    constructor (words: array<nat>, base: nat)
      requires Words(words[..]) && words.Length * BITS_PER_LONG <= 0x8000_0000 && base < WORD
      ensures Valid() && this.words == words && this.base == base
    {
      this.words, this.base := words, base;
    }

    /** Sets the bits of the pages found. */
    method DoAlloc(start: nat, n: nat) returns (ptr: nat)
      requires Valid() && start + n <= words.Length * BITS_PER_LONG
      modifies words
      ensures Changed(old(words[..]), words[..], start, start + n, true) && ptr == PageAddr(base, start)
    {
      for k := start to start + n
        invariant Changed(old(words[..]), words[..], start, k, true)
      {
        SetOne(words[..], start, k, old(words[..]));
        words[k / BITS_PER_LONG] := Or(words[k / BITS_PER_LONG], Pow2(k % BITS_PER_LONG));
      }
      ptr := PageAddr(base, start);
    }

    /** Looks through one word; the run being counted may have begun in an earlier one. A run that is long
        enough is taken, and the first one if none has been taken before. */
    method CheckBitmap(i: nat, n: nat, count: nat, start: nat, ghost none: bool)
      returns (ptr: nat, count': nat, start': nat, ghost taken: bool)
      requires Valid() && i < words.Length && n > 0 && Counting(words[..], n, i * BITS_PER_LONG, count, start)
      requires none ==> Searched(words[..], n, i * BITS_PER_LONG, count, start)
      modifies words
      ensures Valid() && (!taken ==> ptr == 0 && words[..] == old(words[..]))
      ensures Counting(words[..], n, (i + 1) * BITS_PER_LONG, count', start')
      ensures none && !taken ==> Searched(words[..], n, (i + 1) * BITS_PER_LONG, count', start')
      ensures taken ==> ptr == PageAddr(base, start') && Took(old(words[..]), words[..], start', n)
      ensures none && taken ==> Lowest(old(words[..]), start', n)
    {
      hide Words, Searched, Used, FreeRun, Counting, PageAddr;
      ptr, count', start', taken := 0, count, start, false;
      for j := 0 to BITS_PER_LONG
        invariant words[..] == old(words[..]) && Valid()
        invariant Counting(words[..], n, i * BITS_PER_LONG + j, count', start')
        invariant none ==> Searched(words[..], n, i * BITS_PER_LONG + j, count', start')
      {
        ghost var k := i * BITS_PER_LONG + j;
        WordOf(words[..], i, j);
        CountsOn(words[..], n, k, count', start');
        if !Bit(words[i], j) {
          if none {
            SeesFree(words[..], n, k, count', start');
          }
          if count' == 0 {
            start' := i * BITS_PER_LONG + j;
          }
          count' := count' + 1;
          if count' == n {
            RunFits(words[..], start', n);
            ptr := DoAlloc(start', n);
            taken := true;
            Takes(old(words[..]), words[..], start', n);
            CountsNothing(words[..], n, (i + 1) * BITS_PER_LONG, count', start');
            return;
          }
        } else {
          if none {
            SeesUsed(words[..], n, k, count', start');
          }
          count' := 0;
        }
      }
    }

    /** The first run of `n` free pages, now in use; 0 for none wanted. It fails if there is none. If the
        code's address for the run is null, the run is taken all the same, and the search goes on. */
    method AllocFrames(n: nat) returns (ok: bool, ptr: nat)
      requires Valid()
      modifies words
      ensures Valid()
      ensures n == 0 ==> ok && ptr == 0 && words[..] == old(words[..])
      ensures n > 0 ==> (ok <==> ptr != 0)
      ensures (forall s: nat :: !FreeRun(old(words[..]), s, n)) ==> !ok && ptr == 0 && words[..] == old(words[..])
      ensures forall s: nat | n > 0 && Lowest(old(words[..]), s, n) && PageAddr(base, s) != 0 ::
        ok && ptr == PageAddr(base, s) && FirstFit(old(words[..]), words[..], s, n)
      ensures forall s: nat | n > 0 && Lowest(old(words[..]), s, n) && PageAddr(base, s) == 0 ::
        Lost(old(words[..]), words[..], s, n) && (ok ==> TookAt(old(words[..]), words[..], base, ptr, n))
    {
      hide Words, Searched, Used, FreeRun, Counting, PageAddr, Lost;
      if n == 0 {
        NoPages(words[..]);
        return true, 0;
      }
      ptr := 0;
      var start, count := 0, 0;
      ghost var none, first := true, 0;
      SearchStarts(words[..], n);
      SearchedCounts(words[..], n, 0, 0, 0);
      for i := 0 to words.Length
        invariant Valid() && Counting(words[..], n, i * BITS_PER_LONG, count, start)
        invariant none ==> words[..] == old(words[..]) && Searched(words[..], n, i * BITS_PER_LONG, count, start)
        invariant !none ==>
          Lowest(old(words[..]), first, n) && PageAddr(base, first) == 0 && Lost(old(words[..]), words[..], first, n)
      {
        ghost var was := words[..];
        if words[i] != FULL {
          ghost var taken;
          ptr, count, start, taken := CheckBitmap(i, n, count, start, none);
          if taken {
            if none {
              first := start;
              LostNow(was, words[..], first, n);
            } else {
              LostStill(old(words[..]), was, words[..], first, start, n);
            }
            TookAlso(old(words[..]), was, words[..], base, start, n, first, none);
            LowestOnly(old(words[..]), first, n);
            none := false;
          }
          if ptr != 0 {
            return true, ptr;
          }
        } else {
          if none {
            SkipsFull(words[..], n, i, count, start);
          }
          count := 0;
          CountsNothing(words[..], n, (i + 1) * BITS_PER_LONG, 0, start);
        }
      }
      if none {
        SearchEnds(words[..], n, count, start);
      } else {
        LowestOnly(old(words[..]), first, n);
      }
      ok := false;
    }

    /** Clears the bits of `n` pages from the one at `addr` on. */
    method FreeFrames(addr: nat, n: nat)
      requires Valid() && addr >= base && (addr - base) / PAGE + n <= words.Length * BITS_PER_LONG
      modifies words
      ensures Valid() && Changed(old(words[..]), words[..], (addr - base) / PAGE, (addr - base) / PAGE + n, false)
    {
      hide Changed, Off;
      ghost var s := (addr - base) / PAGE;
      NothingCleared(words[..], s);
      for k := 0 to n
        invariant Words(words[..]) && Changed(old(words[..]), words[..], s, s + k, false)
      {
        var a := addr + k * PAGE - base;
        PlaceOf(addr - base, k);
        ClearOne(words[..], s, s + k, old(words[..]));
        words[a / (BITS_PER_LONG * PAGE)] := Off(words[a / (BITS_PER_LONG * PAGE)], a / PAGE % BITS_PER_LONG);
        ChangedWords(old(words[..]), words[..], s, s + k + 1, false);
      }
    }

    /** Reserves `n` pages from bit `offset` of word `index` on: bits, whole words, bits. */
    method MarkFrames(index: nat, offset: nat, n: nat)
      requires Words(words[..]) && offset < BITS_PER_LONG
      requires index * BITS_PER_LONG + offset + n <= words.Length * BITS_PER_LONG
      modifies words
      ensures var s := index * BITS_PER_LONG + offset; Changed(old(words[..]), words[..], s, s + n, true)
    {
      hide Changed, Words;
      ghost var s := index * BITS_PER_LONG + offset;
      ghost var e := s + n;
      NoChange(words[..], s);
      var i: nat, o: nat, left: nat := index, offset, n;
      while o < BITS_PER_LONG && left > 0
        invariant o <= BITS_PER_LONG && i * BITS_PER_LONG + o + left == e && s <= i * BITS_PER_LONG + o
        invariant Changed(old(words[..]), words[..], s, i * BITS_PER_LONG + o, true)
        decreases left
      {
        WordOf(words[..], i, o);
        ChangedWords(old(words[..]), words[..], s, i * BITS_PER_LONG + o, true);
        SetOne(words[..], s, i * BITS_PER_LONG + o, old(words[..]));
        words[i] := Or(words[i], Pow2(o));
        o, left := o + 1, left - 1;
      }
      if left == 0 {
        return;
      }
      assert i * BITS_PER_LONG + BITS_PER_LONG == (i + 1) * BITS_PER_LONG;
      i := i + 1;
      while left >= BITS_PER_LONG
        invariant i * BITS_PER_LONG + left == e && s <= i * BITS_PER_LONG
        invariant Changed(old(words[..]), words[..], s, i * BITS_PER_LONG, true)
        decreases left
      {
        FillOne(words[..], s, i, old(words[..]));
        words[i] := FULL;
        i, left := i + 1, left - BITS_PER_LONG;
      }
      o := 0;
      while left > 0
        invariant i * BITS_PER_LONG + o + left == e && o + left < BITS_PER_LONG && s <= i * BITS_PER_LONG + o
        invariant Changed(old(words[..]), words[..], s, i * BITS_PER_LONG + o, true)
        decreases left
      {
        WordOf(words[..], i, o);
        ChangedWords(old(words[..]), words[..], s, i * BITS_PER_LONG + o, true);
        SetOne(words[..], s, i * BITS_PER_LONG + o, old(words[..]));
        words[i] := Or(words[i], Pow2(o));
        o, left := o + 1, left - 1;
      }
    }

    /** How many pages are free. */
    method NumFreeFrames() returns (count: nat)
      ensures count == |FreePages(words[..], words.Length * BITS_PER_LONG)|
    {
      count := 0;
      for i := 0 to words.Length
        invariant count == |FreePages(words[..], i * BITS_PER_LONG)|
      {
        for j := 0 to BITS_PER_LONG
          invariant count == |FreePages(words[..], i * BITS_PER_LONG + j)|
        {
          WordOf(words[..], i, j);
          OneMore(words[..], i * BITS_PER_LONG + j);
          if !Bit(words[i], j) {
            count := count + 1;
          }
        }
      }
    }
  }

  /** The lowest run of `n` free pages starts at `s`. */
  ghost predicate Lowest(w: seq<nat>, s: nat, n: nat) {
    FreeRun(w, s, n) && forall r: nat | r < s :: !FreeRun(w, r, n)
  }

  /** The free run at `s` has been taken, and nothing else. */
  ghost predicate Took(w: seq<nat>, w': seq<nat>, s: nat, n: nat) {
    FreeRun(w, s, n) && Changed(w, w', s, s + n, true)
  }

  /** The lowest run of `n` free pages of `w` starts at `s`, and it has been taken, nothing else. */
  ghost predicate FirstFit(w: seq<nat>, w': seq<nat>, s: nat, n: nat) {
    Lowest(w, s, n) && Took(w, w', s, n)
  }

  /** The pages of the run at `s` are in use, and so are all that were before. */
  ghost predicate Lost(w: seq<nat>, w': seq<nat>, s: nat, n: nat) {
    |w'| == |w| && s + n <= |w| * BITS_PER_LONG
    && forall k: nat | k < |w| * BITS_PER_LONG && (Used(w, k) || s <= k < s + n) :: Used(w', k)
  }

  /** A run that was free before is in use, and `ptr` is its address. */
  ghost predicate TookAt(w: seq<nat>, w': seq<nat>, base: nat, ptr: nat, n: nat) {
    base < WORD && exists r: nat :: FreeRun(w, r, n) && Lost(w, w', r, n) && ptr == PageAddr(base, r)
  }

  lemma {:induction false} Takes(w: seq<nat>, w': seq<nat>, s: nat, n: nat)
    requires FreeRun(w, s, n) && Changed(w, w', s, s + n, true)
    ensures Took(w, w', s, n)
  {
  }

  lemma {:induction false} LostNow(w: seq<nat>, w': seq<nat>, s: nat, n: nat)
    requires Took(w, w', s, n)
    ensures Lost(w, w', s, n)
  {
  }

  lemma {:induction false} LostStill(w: seq<nat>, w1: seq<nat>, w': seq<nat>, s: nat, r: nat, n: nat)
    requires Lost(w, w1, s, n) && Took(w1, w', r, n)
    ensures Lost(w, w', s, n)
  {
  }

  lemma {:induction false} TookAlso(w: seq<nat>, w1: seq<nat>, w': seq<nat>, base: nat, r: nat, n: nat, s: nat,
                                    none: bool)
    requires Took(w1, w', r, n) && base < WORD && if none then w1 == w else Lost(w, w1, s, n)
    ensures TookAt(w, w', base, PageAddr(base, r), n)
  {
    assert FreeRun(w, r, n) && Lost(w, w', r, n);
  }

  lemma {:induction false} LowestOnly(w: seq<nat>, s: nat, n: nat)
    requires Lowest(w, s, n)
    ensures FreeRun(w, s, n) && forall r: nat | Lowest(w, r, n) :: r == s
  {
    hide FreeRun;
  }

  lemma {:induction false} NoPages(w: seq<nat>)
    ensures FreeRun(w, 0, 0)
  {
  }

  /** Dividing an address by the size of a word's pages finds the word, and the remainder the bit. */
  lemma {:induction false} PlaceOf(a: nat, k: nat)
    ensures var b := a + k * PAGE;
      b / PAGE == a / PAGE + k && b / (BITS_PER_LONG * PAGE) == (a / PAGE + k) / BITS_PER_LONG
  {
    var b := a + k * PAGE;
    assert b / PAGE == a / PAGE + k;
    assert b / (64 * 4096) == b / 4096 / 64;
  }

  lemma {:induction false} WordOf(w: seq<nat>, i: nat, j: nat)
    requires i < |w| && j < BITS_PER_LONG
    ensures var k := i * BITS_PER_LONG + j;
      k < |w| * BITS_PER_LONG && k / BITS_PER_LONG == i && k % BITS_PER_LONG == j && Used(w, k) == Bit(w[i], j)
  {
  }

  lemma {:induction false} RunFits(w: seq<nat>, s: nat, n: nat)
    requires FreeRun(w, s, n)
    ensures s + n <= |w| * BITS_PER_LONG
  {
  }

  lemma {:induction false} SearchStarts(w: seq<nat>, n: nat)
    requires n > 0
    ensures Searched(w, n, 0, 0, 0)
  {
  }

  lemma {:induction false} SearchEnds(w: seq<nat>, n: nat, count: nat, start: nat)
    requires Searched(w, n, |w| * BITS_PER_LONG, count, start)
    ensures forall s: nat :: !FreeRun(w, s, n)
  {
  }

  ghost function FreePages(w: seq<nat>, e: nat): set<nat>
    requires e <= |w| * BITS_PER_LONG
  {
    set k: nat | k < e && !Used(w, k)
  }

  lemma {:induction false} OneMore(w: seq<nat>, k: nat)
    requires k < |w| * BITS_PER_LONG
    ensures |FreePages(w, k + 1)| == |FreePages(w, k)| + if Used(w, k) then 0 else 1
  {
    assert FreePages(w, k + 1) == if Used(w, k) then FreePages(w, k) else FreePages(w, k) + {k};
  }

  /** Freeing what has been allocated restores the bitmap, word for word. */
  lemma {:induction false} FreeRestores(w: seq<nat>, w1: seq<nat>, w2: seq<nat>, s: nat, n: nat)
    requires Words(w) && FirstFit(w, w1, s, n) && Changed(w1, w2, s, s + n, false)
    ensures w2 == w
  {
    forall i | 0 <= i < |w| ensures w2[i] == w[i] {
      forall b: nat ensures Bit(w2[i], b) <==> Bit(w[i], b) {
        if b < BITS_PER_LONG {
          WordOf(w, i, b);
          WordOf(w2, i, b);
        } else {
          HighZero(w[i], BITS_PER_LONG, b);
          HighZero(w2[i], BITS_PER_LONG, b);
        }
      }
      SameBits(w2[i], w[i]);
    }
  }
}

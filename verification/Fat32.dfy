/** Finding, adding and following clusters, and reading files through them. */
module Fat32 {
  import opened Common
  import opened Bits
  import opened FatChains

  type Byte = x: int | 0 <= x < 256

  class FatDisk {
    const fat: array<nat>
    var freeCount: nat
    var nextFree: nat
    ghost var chains: map<nat, seq<nat>>

    ghost predicate Valid()
      reads this, fat
    {
      fat.Length > 2 && Chains(fat[..], chains) && Counted(fat[..], freeCount, nextFree)
      && Value(fat[..], 0) != 0 && Value(fat[..], 1) != 0
    }

    constructor (fat: array<nat>, freeCount: nat, nextFree: nat, ghost chains: map<nat, seq<nat>>)
      requires fat.Length > 2 && Chains(fat[..], chains) && Counted(fat[..], freeCount, nextFree)
      requires Value(fat[..], 0) != 0 && Value(fat[..], 1) != 0
      ensures Valid() && this.fat == fat && this.chains == chains
    {
      this.fat, this.freeCount, this.nextFree, this.chains := fat, freeCount, nextFree, chains;
    }

    method FatValue(c: nat) returns (v: nat)
      requires c < fat.Length
      ensures v == Value(fat[..], c)
    {
      v := fat[c] % MASK;
    }

    method FatSetValue(c: nat, v: nat)
      requires c < fat.Length
      modifies fat
      ensures fat[..] == old(fat[..])[c := v % MASK]
    {
      fat[c] := v % MASK;
    }

    /** The first free cluster from the hint on; -1 if the count says there is none. The scan can end
        outside the table, which `ok` tells. */
    method FindFreeClst() returns (ok: bool, c: int)
      ensures ok <==> freeCount == 0 || exists x: nat :: nextFree <= x < fat.Length && Value(fat[..], x) == 0
      ensures ok && freeCount == 0 ==> c == -1
      ensures ok && freeCount > 0 ==> nextFree <= c < fat.Length && Value(fat[..], c) == 0
      ensures ok && freeCount > 0 ==> forall x: nat | nextFree <= x < c :: x < fat.Length && Value(fat[..], x) != 0
    {
      var clst := nextFree;
      if freeCount == 0 {
        return true, -1;
      }
      while true
        invariant nextFree <= clst && forall x: nat | nextFree <= x < clst && x < fat.Length :: Value(fat[..], x) != 0
        decreases fat.Length - clst
      {
        if clst >= fat.Length {
          return false, 0;
        }
        var v := FatValue(clst);
        if v == 0 {
          return true, clst;
        }
        clst := clst + 1;
      }
    }

    /** Links the free cluster `c` after `prev`, the end of the chain of `h`, or after nothing; counts it,
        and moves the hint on. */
    method AddNewClst(prev: nat, c: nat, ghost h: nat)
      requires Valid() && c < fat.Length && Value(fat[..], c) == 0 && prev < fat.Length && EndOf(chains, h, prev)
      modifies this, fat
      ensures Valid() && fat[..] == Linked(old(fat[..]), prev, c) && chains == Extended(old(chains), h, prev, c)
      ensures freeCount == old(freeCount) - 1
      ensures if freeCount == 0 then nextFree == 0xFFFF_FFFF else nextFree < fat.Length && Value(fat[..], nextFree) == 0
    {
      hide Chains, Zeros, Counted, Linked, EndOf;
      assert c >= 2;
      ghost var was := fat[..];
      EndTaken(was, chains, h, prev);
      Taken(was, prev, c);
      Adds(was, chains, h, prev, c);
      if prev != 0 {
        FatSetValue(prev, c);
      }
      FatSetValue(c, LAST);
      LinkedIs(was, fat[..], prev, c);
      HintHolds(was, fat[..], c, nextFree, freeCount);
      freeCount := freeCount - 1;
      chains := Extended(chains, h, prev, c);
      KeptApart(was, fat[..], prev, c);
      var ok, next := FindFreeClst();
      HintMoved(fat[..], freeCount, nextFree, next);
      nextFree := if next == -1 then 0xFFFF_FFFF else next;
    }

    /** Takes the lowest free cluster; -1 if there is none. */
    method FindAllocClst(prev: nat, ghost h: nat) returns (c: int)
      requires Valid() && prev < fat.Length && EndOf(chains, h, prev)
      modifies this, fat
      ensures Valid()
      ensures c == -1 <==> old(freeCount) == 0
      ensures c == -1 ==> fat[..] == old(fat[..]) && chains == old(chains) && freeCount == old(freeCount)
      ensures c != -1 ==> 2 <= c < fat.Length && !OnChain(old(chains), c) && chains == Extended(old(chains), h, prev, c)
      ensures c != -1 ==> freeCount == old(freeCount) - 1
      ensures c != -1 ==> ChainGrows(old(chains), chains, h, prev, c) && EntryTaken(old(fat[..]), fat[..], prev, c)
    {
      hide Chains, Zeros;
      if freeCount > 0 {
        SomeFree(fat[..], freeCount, nextFree);
      }
      var ok;
      ok, c := FindFreeClst();
      if c == -1 {
        return;
      }
      FreeOnNone(fat[..], chains, c);
      NewHead(fat[..], chains, c);
      AddNewClst(prev, c, h);
    }

    /** The cluster `off` places down the chain from `first`; the end mark, or -1, beyond the end. The walk
        leaves the table, which `ok` tells, exactly if it goes on from a last cluster marked with the lowest
        end mark. */
    method GetClstNum(first: nat, off: nat, ghost s: seq<nat>) returns (ok: bool, c: int)
      requires IsChain(fat[..], s) && s[0] == first && fat.Length <= END
      ensures ok <==> off <= |s| || Value(fat[..], s[|s| - 1]) != END
      ensures ok ==> c == if off < |s| then s[off] else if off == |s| then Value(fat[..], s[|s| - 1]) else -1
    {
      ok, c := true, first;
      var left: nat := off;
      ghost var i := 0;
      assert Link(fat[..], s, |s| - 1);
      while left > 0
        invariant left + i == off && i <= |s| && c == if i < |s| then s[i] else Value(fat[..], s[|s| - 1])
        decreases left
      {
        if c > END {
          return true, -1;
        }
        if c >= fat.Length {
          return false, 0;
        }
        assert Link(fat[..], s, i);
        c := FatValue(c);
        left, i := left - 1, i + 1;
      }
    }

    /** Reads up to `n` clusters from `clst` on. */
    method DoRead(data: map<nat, seq<Byte>>, clst: nat, n: nat, ghost s: seq<nat>, ghost at: nat)
      returns (ok: bool, buffer: seq<Byte>)
      requires IsChain(fat[..], s) && at < |s| && s[at] == clst && fat.Length <= END && forall c <- s :: c in data
      ensures ok <==> n > 0
      ensures ok ==> buffer == Blocks(data, s[at..if at + n < |s| then at + n else |s|])
    {
      buffer := [];
      if n == 0 {
        return false, [];
      }
      var c := clst;
      var count := 0;
      ghost var i := at;
      while c < END && count < n
        invariant at <= i <= |s| && i == at + count && count <= n && (if i < |s| then c == s[i] else c >= END)
        invariant buffer == Blocks(data, s[at..i])
        decreases n - count
      {
        assert Link(fat[..], s, i) && c in s;
        BlocksMore(data, s[at..i], c);
        assert s[at..i] + [c] == s[at..i + 1];
        buffer := buffer + data[c];
        c := FatValue(c);
        count, i := count + 1, i + 1;
      }
      ok := true;
    }

    /** Reads at most `count` bytes from position `pos` of a file. Nothing at the start of a cluster cannot be
        read, nor what takes 2^32 bytes in whole clusters. */
    method Read(data: map<nat, seq<Byte>>, bytesPerClst: nat, file: File, pos: nat, count: nat, ghost s: seq<nat>)
      returns (r: int, out: seq<Byte>)
      requires FileOn(fat[..], data, bytesPerClst, file, s)
      ensures if file.clLow == 0 || pos >= file.size then r == 0 && out == []
        else var n := if count < file.size - pos then count else file.size - pos;
             var offset := pos % bytesPerClst;
             if (n == 0 && offset == 0) || offset + n > U32 - bytesPerClst then r == -1 && out == []
             else r == n && |out| == n && HoldsBytes(data, s, bytesPerClst, pos, out)
    {
      hide IsChain, Blocks, Pow2, HoldsBytes;
      r, out := -1, [];
      if file.clLow == 0 || pos >= file.size {
        return 0, [];
      }
      var n := if count < file.size - pos then count else file.size - pos;
      ghost var k: nat :| k <= 15 && bytesPerClst == Pow2(k);
      BelowU32(k);
      var a, offset, numClst := Split(pos, bytesPerClst, n, file.size, |s|, k);
      HeadInChain(fat[..], s, a);
      FirstClstHalves(file, s[0]);
      var ok, start := GetClstNum(FirstClst(file), a, s);
      if start == 0 {
        return;
      }
      var buffer;
      ok, buffer := DoRead(data, start, numClst, s, a);
      if !ok {
        return;
      }
      Window(data, s, bytesPerClst, a, offset, n, numClst);
      out := buffer[offset..offset + n];
      r := n;
      BytesHeld(data, s, bytesPerClst, pos, out);
    }
  }

  const U32 := 0x1_0000_0000

  /** The cluster and the place in it where a read of `n` bytes starts, and how many clusters it takes. */
  method Split(pos: nat, b: nat, n: nat, size: nat, ghost len: nat, ghost k: nat)
    returns (a: nat, offset: nat, num: nat)
    requires b == Pow2(k) && k <= 15 && b <= U32 && pos < size <= len * b && pos + n <= size < U32
    ensures Located(pos, b, n, len, a, offset) && Counted32(n, offset, b, num)
  {
    hide Pow2, Located, Counted32, ClstOf, OffsetIn, ClstCount;
    a, offset := ClstOf(pos, b), OffsetIn(pos, b);
    num := ClstCount(n + offset, b);
    SplitPlace(pos, b, n, size, len);
    SplitCount(n, offset, b, k);
  }

  function ClstOf(pos: nat, b: nat): nat
    requires b > 0
  {
    pos / b
  }

  function OffsetIn(pos: nat, b: nat): nat
    requires b > 0
  {
    pos % b
  }

  /** How many clusters `n` bytes take: rounded up with a 32-bit mask. */
  function ClstCount(n: nat, b: nat): nat
    requires 0 < b <= U32
  {
    hide And;
    And(n + b - 1, U32 - b) / b
  }

  /** The read starts `offset` into cluster `a`, and ends in the chain. */
  ghost predicate Located(pos: nat, b: nat, n: nat, len: nat, a: nat, offset: nat)
    requires b > 0
  {
    a < len && pos == a * b + offset && offset == pos % b && a * b + offset + n <= len * b
  }

  /** `num` clusters hold what is read, if that does not take 2^32 bytes in whole clusters. */
  ghost predicate Counted32(n: nat, offset: nat, b: nat, num: nat) {
    if offset + n > U32 - b then num == 0 else offset + n <= num * b && (num == 0 <==> n == 0 && offset == 0)
  }

  lemma {:induction false} SplitPlace(pos: nat, b: nat, n: nat, size: nat, len: nat)
    requires b > 0 && pos < size <= len * b && pos + n <= size
    ensures Located(pos, b, n, len, ClstOf(pos, b), OffsetIn(pos, b)) && OffsetIn(pos, b) < b
    ensures OffsetIn(pos, b) + n <= size
  {
    PlaceInChain(pos, b, size, len);
  }

  lemma {:induction false} SplitCount(n: nat, offset: nat, b: nat, k: nat)
    requires b == Pow2(k) && k <= 15 && offset < b && n + offset < U32 && b <= U32
    ensures Counted32(n, offset, b, ClstCount(n + offset, b))
  {
    hide Pow2, And;
    var num := ClstCount(n + offset, b);
    RoundedUp(n + offset + b - 1, b, k);
    if offset + n <= U32 - b {
      ClustersEnough(n, offset, b, num);
    } else {
      QuotientIs(n + offset + b - 1 - U32, b, 0, n + offset + b - 1 - U32);
    }
  }

  lemma {:induction false} BelowU32(k: nat)
    requires k <= 15
    ensures 0 < Pow2(k) <= 0x8000 && Pow2(32) == U32
  {
    hide Pow2;
    Pow2Order(k, 15);
    SmallPowers();
    assert Pow2(15) == 0x8000 by {
      Pow2Add(12, 3);
      Double(3);
      Double(2);
      Double(1);
      PowZero();
    }
    Pow2Add(12, 12);
    Pow2Add(24, 7);
    Double(32);
  }

  /** Adding and masking rounds up to whole clusters, but forgets what is beyond 32 bits. */
  lemma {:induction false} RoundedUp(x: nat, b: nat, k: nat)
    requires k <= 15 && b == Pow2(k) && x < U32 + b && b <= U32
    ensures And(x, U32 - b) / b == if x < U32 then x / b else (x - U32) / b
  {
    hide Pow2, And;
    BelowU32(k);
    AndLow(x, U32 - b, 32);
    var y := if x < U32 then x else x - U32;
    QuotientIs(x, U32, if x < U32 then 0 else 1, y);
    AndMask(y, k, 32);
    QuotientIs(y / b * b, b, y / b, 0);
  }

  /** What a directory entry says of a file. */
  datatype File = File(clLow: nat, clHigh: nat, size: nat)

  function FirstClst(file: File): nat {
    file.clLow + file.clHigh * 0x1_0000
  }

  /** The first cluster is the number of which the entry holds the low and the high half, so that two files
      start alike exactly if both halves agree. */
  lemma {:induction false} FirstClstHalves(file: File, c: nat)
    requires file.clLow < 0x1_0000
    ensures c == FirstClst(file) <==> c % 0x1_0000 == file.clLow && c / 0x1_0000 == file.clHigh
  {
    assert c == c / 0x1_0000 * 0x1_0000 + c % 0x1_0000;
    QuotientIs(FirstClst(file), 0x1_0000, file.clHigh, file.clLow);
  }

  /** The file's clusters are the chain `s`, and hold its size. Clusters are a power of two below 64 KiB. */
  ghost predicate FileOn(fat: seq<nat>, data: map<nat, seq<Byte>>, bytesPerClst: nat, file: File, s: seq<nat>) {
    |fat| <= END && IsChain(fat, s) && s[0] % 0x1_0000 == file.clLow && s[0] / 0x1_0000 == file.clHigh
    && file.size < U32 && file.size <= |s| * bytesPerClst
    && (exists k: nat :: k <= 15 && bytesPerClst == Pow2(k)) && forall c <- s :: c in data && |data[c]| == bytesPerClst
  }

  lemma {:induction false} HeadInChain(fat: seq<nat>, s: seq<nat>, i: nat)
    requires IsChain(fat, s) && i < |s|
    ensures s != [] && s[i] != 0
  {
  }

  lemma {:induction false} PlaceInChain(pos: nat, b: nat, size: nat, n: nat)
    requires b > 0 && pos < size <= n * b
    ensures pos / b < n
  {
    var q := pos / b;
    assert q * b <= pos;
    if q >= n {
      MulMono(b, n, q);
    }
  }

  lemma {:induction false} ClustersEnough(n: nat, offset: nat, b: nat, num: nat)
    requires b > 0 && offset < b && num == (n + offset + b - 1) / b
    ensures n + offset <= num * b && (num == 0 <==> n == 0 && offset == 0)
  {
    var x := n + offset + b - 1;
    assert x == num * b + x % b;
    if num == 0 {
      assert x < b;
    }
  }

  lemma {:induction false} BlocksJoin(data: map<nat, seq<Byte>>, a: seq<nat>, b: seq<nat>)
    requires forall c <- a + b :: c in data
    ensures (forall c <- a :: c in data) && (forall c <- b :: c in data)
    ensures Blocks(data, a + b) == Blocks(data, a) + Blocks(data, b)
  {
    assert (forall c <- a :: c in a + b) && forall c <- b :: c in a + b;
    if a == [] {
      assert a + b == b;
    } else {
      assert (a + b)[1..] == a[1..] + b;
      BlocksJoin(data, a[1..], b);
    }
  }

  lemma {:induction false} BlocksLength(data: map<nat, seq<Byte>>, s: seq<nat>, b: nat)
    requires forall c <- s :: c in data && |data[c]| == b
    ensures |Blocks(data, s)| == |s| * b
  {
    if s != [] {
      BlocksLength(data, s[1..], b);
      Distribute(|s| - 1, 1, b);
    }
  }

  lemma {:induction false} Distribute(m: nat, n: nat, b: nat)
    ensures (m + n) * b == m * b + n * b
  {
  }

  lemma {:induction false} Enough(a: nat, m: nat, b: nat, offset: nat, n: nat, num: nat, len: nat)
    requires a * b + offset + n <= len * b && offset + n <= num * b && (m == num || a + m == len)
    ensures offset + n <= m * b
  {
    Distribute(a, m, b);
  }

  /** The `n` bytes of `buffer` from `i` on are those of `whole` from `pos` on. */
  ghost predicate Shows(whole: seq<Byte>, buffer: seq<Byte>, pos: nat, i: nat, n: nat) {
    i + n <= |buffer| && pos + n <= |whole| && buffer[i..i + n] == whole[pos..pos + n]
  }

  /** The clusters read hold the bytes asked for, `offset` into the first. */
  lemma {:induction false} Window(data: map<nat, seq<Byte>>, s: seq<nat>, b: nat, a: nat, offset: nat, n: nat, num: nat)
    requires a < |s| && a * b + offset + n <= |s| * b && offset + n <= num * b
    requires forall c <- s :: c in data && |data[c]| == b
    ensures var e := if a + num < |s| then a + num else |s|;
      (forall c <- s[a..e] :: c in data) && Shows(Blocks(data, s), Blocks(data, s[a..e]), a * b + offset, offset, n)
  {
    var e := if a + num < |s| then a + num else |s|;
    var l, m, r := s[..a], s[a..e], s[e..];
    assert s == l + (m + r);
    BlocksJoin(data, l, m + r);
    BlocksJoin(data, m, r);
    BlocksLength(data, l, b);
    BlocksLength(data, m, b);
    Enough(a, |m|, b, offset, n, num, |s|);
    Slice(Blocks(data, l), Blocks(data, m), Blocks(data, r), offset, n);
  }

  lemma {:induction false} Slice(x: seq<Byte>, y: seq<Byte>, z: seq<Byte>, i: nat, n: nat)
    requires i + n <= |y|
    ensures Shows(x + (y + z), y, |x| + i, i, n)
  {
  }

  /** `x` is the byte at position `at` of the clusters, each of `b` bytes, taken in the order of the chain. */
  ghost predicate ByteAt(data: map<nat, seq<Byte>>, s: seq<nat>, b: nat, at: nat, x: Byte) {
    b > 0 && at / b < |s| && s[at / b] in data && at % b < |data[s[at / b]]| && x == data[s[at / b]][at % b]
  }

  ghost predicate HoldsBytes(data: map<nat, seq<Byte>>, s: seq<nat>, b: nat, pos: nat, out: seq<Byte>) {
    forall i | 0 <= i < |out| :: ByteAt(data, s, b, pos + i, out[i])
  }

  lemma {:induction false} BytesHeld(data: map<nat, seq<Byte>>, s: seq<nat>, b: nat, pos: nat, out: seq<Byte>)
    requires b > 0 && (forall c <- s :: c in data && |data[c]| == b) && Shows(Blocks(data, s), out, pos, 0, |out|)
    ensures HoldsBytes(data, s, b, pos, out)
  {
    hide Blocks, ByteAt;
    BlocksLength(data, s, b);
    forall i | 0 <= i < |out| ensures ByteAt(data, s, b, pos + i, out[i]) {
      assert out[0..0 + |out|][i] == Blocks(data, s)[pos..pos + |out|][i];
      ByteHeld(data, s, b, pos + i);
    }
  }

  lemma {:induction false} ByteHeld(data: map<nat, seq<Byte>>, s: seq<nat>, b: nat, at: nat)
    requires b > 0 && (forall c <- s :: c in data && |data[c]| == b) && at < |Blocks(data, s)| == |s| * b
    ensures ByteAt(data, s, b, at, Blocks(data, s)[at])
  {
    hide Blocks;
    PlaceInChain(at, b, at + 1, |s|);
    assert s[at / b] in s && at == at / b * b + at % b;
    BlocksAt(data, s, b, at / b, at % b);
  }

  lemma {:induction false} BlocksAt(data: map<nat, seq<Byte>>, s: seq<nat>, b: nat, q: nat, o: nat)
    requires (forall c <- s :: c in data && |data[c]| == b) && q < |s| && o < b
    ensures s[q] in data && q * b + o < |Blocks(data, s)| && Blocks(data, s)[q * b + o] == data[s[q]][o]
    decreases q
  {
    assert s[0] in s;
    if q > 0 {
      BlocksAt(data, s[1..], b, q - 1, o);
      Distribute(q - 1, 1, b);
      assert s[q] == s[1..][q - 1];
    }
  }

  /** The contents of clusters, one after the other. */
  function Blocks(data: map<nat, seq<Byte>>, s: seq<nat>): seq<Byte>
    requires forall c <- s :: c in data
  {
    if s == [] then [] else data[s[0]] + Blocks(data, s[1..])
  }

  lemma {:induction false} BlocksMore(data: map<nat, seq<Byte>>, s: seq<nat>, c: nat)
    requires c in data && forall x <- s :: x in data
    ensures (forall x <- s + [c] :: x in data) && Blocks(data, s + [c]) == Blocks(data, s) + data[c]
  {
    assert forall x <- s + [c] :: x in data;
    if s != [] {
      assert (s + [c])[1..] == s[1..] + [c];
      BlocksMore(data, s[1..], c);
    }
  }

  lemma {:induction false} EndTaken(fat: seq<nat>, chains: map<nat, seq<nat>>, h: nat, prev: nat)
    requires Chains(fat, chains) && EndOf(chains, h, prev) && prev < |fat| && |fat| > 0 && Value(fat, 0) != 0
    ensures Value(fat, prev) != 0 && |fat| <= END && (prev != 0 ==> h in chains)
  {
    if prev != 0 {
      assert Link(fat, chains[h], |chains[h]| - 1);
    }
  }

  lemma {:induction false} LinkedIs(was: seq<nat>, fat: seq<nat>, prev: nat, c: nat)
    requires prev < |was| && c < |was| && fat == (if prev != 0 then was[prev := c % MASK] else was)[c := LAST % MASK]
    ensures fat == Linked(was, prev, c)
  {
  }

  /** The count goes down with the free cluster that is taken. */
  lemma {:induction false} HintHolds(was: seq<nat>, fat: seq<nat>, c: nat, hint: nat, count: nat)
    requires |fat| == |was| && c in Zeros(was, |was|) && Zeros(fat, |was|) == Zeros(was, |was|) - {c}
    requires Counted(was, count, hint)
    ensures count > 0 && Counted(fat, count - 1, hint)
    ensures count > 1 ==> exists x: nat :: hint <= x < |fat| && Value(fat, x) == 0
  {
    assert Zeros(was, |was|) == Zeros(fat, |was|) + {c};
    assert forall x: nat | x < |fat| :: Value(fat, x) == 0 ==> x in Zeros(fat, |was|);
    if count > 1 {
      SomeFree(fat, count - 1, hint);
    }
  }

  /** The first two entries stay marked. */
  lemma {:induction false} KeptApart(was: seq<nat>, fat: seq<nat>, prev: nat, c: nat)
    requires prev < |was| && 2 <= c < |was| && fat == Linked(was, prev, c) && |was| > 2 && |was| <= END
    requires Value(was, 0) != 0 && Value(was, 1) != 0
    ensures |fat| == |was| && Value(fat, 0) != 0 && Value(fat, 1) != 0
  {
  }

  /** No cluster below the next free one is free, and none at all if there is no next one. */
  lemma {:induction false} HintMoved(fat: seq<nat>, count: nat, hint: nat, next: int)
    requires Counted(fat, count, hint) && (count == 0 ==> next == -1)
    requires count > 0 ==> hint <= next < |fat| && forall x: nat | hint <= x < next :: x < |fat| && Value(fat, x) != 0
    ensures Counted(fat, count, if next == -1 then 0xFFFF_FFFF else next)
  {
    if count == 0 {
      forall x: nat | x < |fat| ensures Value(fat, x) != 0 {
        assert x !in Zeros(fat, |fat|);
      }
    }
  }

}

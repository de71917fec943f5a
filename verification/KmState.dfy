/** The state of the kernel allocator: page headers, the words its free lists are threaded through,
    the buckets, and what each block is being used for. */
module KmState {
  import opened Common
  import opened Bits
  import opened KmSlots

  /** What stands at the start of a page that begins a superblock or a large allocation.
      Header pointers are page numbers and block pointers are addresses; 0 is null. */
  datatype Header =
    | Super(next: nat, prev: nat, free: nat, power: nat, freeCount: nat, cpu: nat)
    | Large(pages: nat)

  datatype Bucket = Bucket(head: nat, allocSize: nat, freeCount: nat, numSb: nat)

  datatype Key = Key(cpu: nat, power: nat)

  datatype Mem = Mem(hdr: map<nat, Header>, word: map<nat, nat>, bucket: map<Key, Bucket>, remote: map<nat, nat>)

  /** Records asking `cpu` to free blocks of its superblocks. */
  datatype Chain = Chain(cpu: nat, recs: seq<nat>)

  /** Free lists and superblock lists as sequences; the blocks callers hold; the pending remote
      frees, each a record block and the block it asks to free; and the chains these records are
      on: number `cpu` is that CPU's remote free list, numbers -1 to -`depth` are lists that have
      been taken off and are being worked through. */
  datatype Abs = Abs(free: map<nat, seq<nat>>, list: map<Key, seq<nat>>, held: set<nat>,
                     pending: map<nat, nat>, chains: map<int, Chain>, depth: nat)

  ghost function Live(abs: Abs): set<nat> {
    abs.held + abs.pending.Keys + abs.pending.Values
  }

  /** The i-th element, or null beyond either end. */
  function At(s: seq<nat>, i: int): nat {
    if 0 <= i < |s| then s[i] else 0
  }

  function LargeBlock(page: nat): nat {
    page * PAGE + HEADER
  }

  function Pages(h: Header): nat {
    if h.Super? then 1 else h.pages
  }

  // ---------------------------------------------------------------- slots

  /** The first `freeCount` links from `free` lead through `fl`, distinct slots of the page. What
      the last of them links to is never looked at. */
  ghost predicate FreeListOk(p: nat, h: Header, fl: seq<nat>, word: map<nat, nat>) {
    h.Super? && IsPower(h.power) && |fl| == h.freeCount && NoDuplicates(fl)
    && (forall a <- fl :: IsSlot(p, h.power, a))
    && (fl != [] ==> h.free == fl[0])
    && (forall i | 0 <= i < |fl| - 1 :: fl[i] in word && word[fl[i]] == fl[i + 1])
  }

  /** Every slot is either live or on its page's free list. */
  ghost predicate PageOk(p: nat, h: Header, free: map<nat, seq<nat>>, live: set<nat>, word: map<nat, nat>) {
    p > 0 &&
    if h.Super? then
      p in free && FreeListOk(p, h, free[p], word)
      && forall a | IsSlot(p, h.power, a) :: a in live <==> a !in free[p]
    else h.pages > 0 && LargeBlock(p) in live
  }

  ghost predicate PagesOk(hdr: map<nat, Header>, free: map<nat, seq<nat>>, live: set<nat>, word: map<nat, nat>) {
    forall p <- hdr :: PageOk(p, hdr[p], free, live, word)
  }

  /** `a` is where the block of a superblock slot or of a large allocation starts. */
  ghost predicate IsBlock(hdr: map<nat, Header>, a: nat) {
    PageOf(a) in hdr &&
    match hdr[PageOf(a)]
    case Super(_, _, _, power, _, _) => IsSlot(PageOf(a), power, a)
    case Large(_) => a == LargeBlock(PageOf(a))
  }

  ghost predicate BlocksOk(hdr: map<nat, Header>, live: set<nat>) {
    forall a <- live :: IsBlock(hdr, a)
  }

  ghost predicate ExtentsOk(hdr: map<nat, Header>) {
    forall p <- hdr, q <- hdr :: p < q ==> p + Pages(hdr[p]) <= q
  }

  // ---------------------------------------------------------------- buckets

  ghost function FreeSum(hdr: map<nat, Header>, s: seq<nat>): nat
    requires forall p <- s :: p in hdr && hdr[p].Super?
  {
    if s == [] then 0 else hdr[s[0]].freeCount + FreeSum(hdr, s[1..])
  }

  /** The i-th superblock of `s` is one of the bucket's, linked to its neighbours in `s`. */
  ghost predicate ChainRow(hdr: map<nat, Header>, key: Key, s: seq<nat>, i: int)
    requires 0 <= i < |s|
  {
    s[i] in hdr && hdr[s[i]].Super? && hdr[s[i]].cpu == key.cpu && hdr[s[i]].power == key.power
    && hdr[s[i]].next == At(s, i + 1) && hdr[s[i]].prev == At(s, i - 1)
  }

  ghost predicate Chained(hdr: map<nat, Header>, key: Key, s: seq<nat>) {
    NoDuplicates(s)
    && (forall p <- s :: p in hdr && hdr[p].Super? && hdr[p].cpu == key.cpu && hdr[p].power == key.power)
    && forall i | 0 <= i < |s| :: ChainRow(hdr, key, s, i)
  }

  ghost predicate BucketOk(hdr: map<nat, Header>, key: Key, b: Bucket, s: seq<nat>) {
    Chained(hdr, key, s) && b.head == At(s, 0) && b.numSb == |s|
    && b.freeCount == FreeSum(hdr, s) && (s != [] ==> b.allocSize == Pow2(key.power))
  }

  ghost predicate BucketsOk(hdr: map<nat, Header>, bucket: map<Key, Bucket>, list: map<Key, seq<nat>>) {
    bucket.Keys == list.Keys
    && (forall key <- list :: IsPower(key.power) && BucketOk(hdr, key, bucket[key], list[key]))
    && forall p <- hdr :: hdr[p].Super? ==>
         Key(hdr[p].cpu, hdr[p].power) in list && p in list[Key(hdr[p].cpu, hdr[p].power)]
  }

  // ---------------------------------------------------------------- remote frees

  const RECORD_POWER := 4

  /** The record `r`, made by another CPU, asks the owner `cpu` of block `b` to free it. */
  ghost predicate RecordOk(hdr: map<nat, Header>, word: map<nat, nat>, r: nat, b: nat, cpu: nat) {
    PageOf(r) in hdr && hdr[PageOf(r)].Super? && hdr[PageOf(r)].power == RECORD_POWER && hdr[PageOf(r)].cpu != cpu
    && PageOf(b) in hdr && hdr[PageOf(b)].Super? && hdr[PageOf(b)].cpu == cpu
    && r + 8 in word && word[r + 8] == b
  }

  /** A list of records threaded through their first words. */
  ghost predicate Threaded(word: map<nat, nat>, s: seq<nat>) {
    forall i | 0 <= i < |s| :: ThreadRow(word, s, i)
  }

  ghost predicate ThreadRow(word: map<nat, nat>, s: seq<nat>, i: int)
    requires 0 <= i < |s|
  {
    s[i] in word && word[s[i]] == At(s, i + 1)
  }

  ghost predicate ChainOk(hdr: map<nat, Header>, word: map<nat, nat>, pending: map<nat, nat>, c: Chain) {
    NoDuplicates(c.recs) && Threaded(word, c.recs)
    && forall r <- c.recs :: r > 0 && r in pending && RecordOk(hdr, word, r, pending[r], c.cpu)
  }

  ghost predicate OnChain(chains: map<int, Chain>, r: nat) {
    exists id <- chains :: r in chains[id].recs
  }

  /** Every pending record is on exactly one chain. */
  ghost predicate ChainsOk(hdr: map<nat, Header>, word: map<nat, nat>, pending: map<nat, nat>,
                           chains: map<int, Chain>) {
    (forall id <- chains :: ChainOk(hdr, word, pending, chains[id]))
    && (forall id <- chains, id' <- chains, r <- chains[id].recs :: id != id' ==> r !in chains[id'].recs)
    && (forall r <- pending :: OnChain(chains, r))
  }

  ghost predicate RemoteOk(remote: map<nat, nat>, chains: map<int, Chain>, depth: nat) {
    (forall cpu <- remote :: cpu in chains && chains[cpu].cpu == cpu && remote[cpu] == At(chains[cpu].recs, 0))
    && (forall id <- chains :: id in remote || 0 - depth <= id < 0)
  }

  /** Each live block is in exactly one use. */
  ghost predicate UsesOk(abs: Abs) {
    abs.held !! abs.pending.Keys && abs.held !! abs.pending.Values && abs.pending.Keys !! abs.pending.Values
    && forall r <- abs.pending, q <- abs.pending :: r != q ==> abs.pending[r] != abs.pending[q]
  }

  ghost predicate Good(m: Mem, abs: Abs) {
    PagesOk(m.hdr, abs.free, Live(abs), m.word) && BlocksOk(m.hdr, Live(abs)) && ExtentsOk(m.hdr)
    && BucketsOk(m.hdr, m.bucket, abs.list) && ChainsOk(m.hdr, m.word, abs.pending, abs.chains)
    && RemoteOk(m.remote, abs.chains, abs.depth) && UsesOk(abs)
  }
}

/** All CPUs at once: every interleaving of the allocator's steps. Headers, free lists and buckets are only
    touched by the CPU that owns them, and remote free lists only under their locks, so that each step is
    one access. Any CPU may push onto a remote free list while its owner works through the list it has
    taken off. */
module KmRuns {
  import opened Bits
  import opened KmSlots
  import opened KmState
  import opened KmList
  import opened KmSteps
  import opened KmGood
  import opened KmIntact
  import opened KmRemote

  datatype St = St(m: Mem, abs: Abs)

  /** A free slot is handed out; a held one goes back; a bucket's list is reordered; it gets a superblock, or
      gives back an empty one; a large allocation comes or goes; a holder writes into its block; a held block
      is pushed onto its owner's remote free list with a record; a CPU takes its remote free list off; it
      takes the first record of a list it works through, and drops the list when it is empty. */
  datatype Step =
    | HandOut(p: nat, next: nat)
    | PutBack(a: nat)
    | Reorder(key: Key, k: nat, hdr: map<nat, Header>)
    | Grow(p: nat, h: Header, word: map<nat, nat>, hdr: map<nat, Header>)
    | Release(key: Key, k: nat, hdr: map<nat, Header>)
    | TakePages(p: nat, n: nat)
    | DropPages(a: nat)
    | Write(a: nat, word: map<nat, nat>)
    | Push(cpu: nat, r: nat, b: nat)
    | TakeOff(cpu: nat)
    | TakeRecord(id: int)
    | DropList(id: int)

  ghost predicate InUse(m: Mem, p: nat) {
    p in m.hdr && m.hdr[p].Super? && KeyOf(m.hdr[p]) in m.bucket
  }

  ghost predicate Enabled(s: St, step: Step) {
    match step
    case HandOut(p, next) =>
      InUse(s.m, p) && s.m.hdr[p].freeCount > 0 && s.m.bucket[KeyOf(s.m.hdr[p])].freeCount > 0
      && (s.m.hdr[p].free in s.m.word ==> next == s.m.word[s.m.hdr[p].free]) && p in s.abs.free && s.abs.free[p] != []
    case PutBack(a) => a in s.abs.held && InUse(s.m, PageOf(a)) && PageOf(a) in s.abs.free
    case Reorder(key, k, hdr) =>
      key in s.m.bucket && key in s.abs.list && k < |s.abs.list[key]| && Relinked(s.m.hdr, hdr, s.abs.list[key])
      && Chained(hdr, key, MovedToFront(s.abs.list[key], k))
    case Grow(p, h, word, hdr) =>
      FreshPages(s.m.hdr, p, 1) && p !in s.m.hdr && h.Super? && KeyOf(h) in s.m.bucket && KeyOf(h) in s.abs.list
      && FreeListOk(p, h, AllSlots(p, h.power), word)
      && (forall a <- s.m.word :: a in word && (PageOf(a) != p ==> word[a] == s.m.word[a]))
      && FrontedRowsOf(s.m.hdr[p := h], hdr, s.abs.list[KeyOf(h)], p)
    case Release(key, k, hdr) => Releasable(s, key, k, hdr)
    case TakePages(p, n) => FreshPages(s.m.hdr, p, n) && p !in s.m.hdr && n > 0
    case DropPages(a) => a in s.abs.held && PageOf(a) in s.m.hdr && s.m.hdr[PageOf(a)].Large?
    case Write(a, word) =>
      a in s.abs.held && Sized(s.m.hdr, a)
      && forall w <- s.m.word :: w in word && (word[w] == s.m.word[w] || Within(s.m.hdr, a, w))
    case Push(cpu, r, b) => Pushable(s, cpu, r, b)
    case TakeOff(cpu) => cpu in s.m.remote && cpu in s.abs.chains
    case TakeRecord(id) =>
      id < 0 && id in s.abs.chains && s.abs.chains[id].recs != [] && s.abs.chains[id].recs[0] in s.abs.pending
    case DropList(id) => id < 0 && id in s.abs.chains && s.abs.chains[id].recs == []
  }

  ghost predicate Releasable(s: St, key: Key, k: nat, hdr: map<nat, Header>) {
    key in s.m.bucket && key in s.abs.list && k < |s.abs.list[key]|
    && s.abs.list[key][k] in s.m.hdr && s.m.hdr[s.abs.list[key][k]].Super?
    && s.m.hdr[s.abs.list[key][k]].freeCount == SlotCount(Pow2(s.m.hdr[s.abs.list[key][k]].power))
    && s.m.bucket[key].freeCount >= s.m.hdr[s.abs.list[key][k]].freeCount && s.m.bucket[key].numSb > 0
    && Relinked(s.m.hdr, hdr, s.abs.list[key]) && Chained(hdr, key, Without(s.abs.list[key], k))
  }

  /** The record is a block of 16 bytes of some other CPU than the owner of the block. */
  ghost predicate Pushable(s: St, cpu: nat, r: nat, b: nat) {
    cpu in s.m.remote && cpu in s.abs.chains && r in s.abs.held && b in s.abs.held && r != b
    && PageOf(r) in s.m.hdr && s.m.hdr[PageOf(r)].Super? && s.m.hdr[PageOf(r)].power == RECORD_POWER
    && s.m.hdr[PageOf(r)].cpu != cpu && PageOf(b) in s.m.hdr && s.m.hdr[PageOf(b)].Super?
    && s.m.hdr[PageOf(b)].cpu == cpu
  }

  ghost function Grown(s: St, p: nat, h: Header, word: map<nat, nat>, hdr: map<nat, Header>): St
    requires h.Super? && KeyOf(h) in s.m.bucket && KeyOf(h) in s.abs.list
  {
    var b := s.m.bucket[KeyOf(h)];
    St(Mem(hdr, word, s.m.bucket[KeyOf(h) := Bucket(p, Pow2(h.power), b.freeCount + h.freeCount, b.numSb + 1)],
           s.m.remote),
       s.abs.(free := s.abs.free[p := AllSlots(p, h.power)],
              list := s.abs.list[KeyOf(h) := [p] + s.abs.list[KeyOf(h)]]))
  }

  ghost function Next(s: St, step: Step): St
    requires Enabled(s, step)
  {
    var m, abs := s.m, s.abs;
    match step
    case HandOut(p, next) =>
      St(TakenMem(m, p, next), abs.(free := abs.free[p := abs.free[p][1..]], held := abs.held + {m.hdr[p].free}))
    case PutBack(a) =>
      St(PutMem(m, a), abs.(free := abs.free[PageOf(a) := [a] + abs.free[PageOf(a)]], held := abs.held - {a}))
    case Reorder(key, k, hdr) =>
      St(m.(hdr := hdr, bucket := m.bucket[key := m.bucket[key].(head := abs.list[key][k])]),
         abs.(list := abs.list[key := MovedToFront(abs.list[key], k)]))
    case Grow(p, h, word, hdr) => Grown(s, p, h, word, hdr)
    case Release(key, k, hdr) =>
      St(ReleasedMem(m, hdr, key, abs.list[key], k), abs.(list := abs.list[key := Without(abs.list[key], k)]))
    case TakePages(p, n) => St(m.(hdr := m.hdr[p := Large(n)]), abs.(held := abs.held + {LargeBlock(p)}))
    case DropPages(a) => St(m.(hdr := m.hdr - {PageOf(a)}), abs.(held := abs.held - {a}))
    case Write(a, word) => s.(m := m.(word := word))
    case Push(cpu, r, b) => St(PushedMem(m, cpu, r, b), PushedAbs(abs, cpu, r, b))
    case TakeOff(cpu) => St(m.(remote := m.remote[cpu := 0]), DetachedAbs(abs, cpu))
    case TakeRecord(id) => s.(abs := RecordTakenAbs(abs, id, abs.chains[id].recs[0]))
    case DropList(id) => s.(abs := ListDoneAbs(abs, id))
  }

  /** Every step keeps the state good. */
  lemma {:induction false} StepGood(s: St, step: Step)
    requires Good(s.m, s.abs) && Enabled(s, step)
    ensures Good(Next(s, step).m, Next(s, step).abs)
  {
    hide Good, FreeListOk, FreshPages, FrontedRowsOf, Relinked, Chained, Within, Sized;
    var m, abs := s.m, s.abs;
    match step
    case HandOut(p, next) => GoodTaken(m, abs, p, next);
    case PutBack(a) => GoodPut(m, abs, a);
    case Reorder(key, k, hdr) => GoodReordered(m, abs, hdr, key, k);
    case Grow(p, h, word, hdr) => GoodGrown(m, abs, h, p, word, hdr, Grown(s, p, h, word, hdr).m.bucket[KeyOf(h)]);
    case Release(key, k, hdr) => GoodReleased(m, abs, hdr, key, k);
    case TakePages(p, n) => GoodLargeAdded(m, abs, p, n);
    case DropPages(a) => GoodLargeDropped(m, abs, a);
    case Write(a, word) => GoodWritten(m, abs, a, word);
    case Push(cpu, r, b) => GoodPushed(m, abs, cpu, r, b);
    case TakeOff(cpu) => GoodDetached(m, abs, cpu);
    case TakeRecord(id) => GoodRecordTaken(m, abs, id, abs.chains[id].recs[0]);
    case DropList(id) => GoodListDone(m, abs, id);
  }

  // ---------------------------------------------------------------- conservation

  /** The blocks a step brings into use and those it takes out of use. */
  ghost function Born(s: St, step: Step): set<nat>
    requires Enabled(s, step)
  {
    if step.HandOut? then {s.m.hdr[step.p].free} else if step.TakePages? then {LargeBlock(step.p)} else {}
  }

  function Gone(step: Step): set<nat> {
    if step.PutBack? || step.DropPages? then {step.a} else {}
  }

  /** A step brings into use what was not, takes out of use only what was held, and every other block in use
      stays so: none gets lost, and none comes back, on its way from one CPU to another. */
  lemma {:induction false} StepConserves(s: St, step: Step)
    requires Good(s.m, s.abs) && Enabled(s, step)
    ensures Born(s, step) !! Live(s.abs) && Gone(step) <= s.abs.held
    ensures Live(Next(s, step).abs) == Live(s.abs) + Born(s, step) - Gone(step)
  {
    hide Good, FreeListOk, FreshPages, FrontedRowsOf, Relinked, Chained, Within, Sized;
    var m, abs := s.m, s.abs;
    GoodUses(m, abs);
    match step
    case HandOut(p, next) =>
      GoodTaken(m, abs, p, next);
      HeldMore(abs, abs.free[p := abs.free[p][1..]], m.hdr[p].free);
    case PutBack(a) => HeldLess(abs, abs.free[PageOf(a) := [a] + abs.free[PageOf(a)]], a);
    case TakePages(p, n) =>
      GoodLargeAdded(m, abs, p, n);
      HeldMore(abs, abs.free, LargeBlock(p));
    case DropPages(a) => HeldLess(abs, abs.free, a);
    case Push(cpu, r, b) => PushedUses(abs, cpu, r, b);
    case TakeRecord(id) => RecordTakenUses(abs, id, abs.chains[id].recs[0]);
    case _ =>
  }

  lemma {:induction false} GoodUses(m: Mem, abs: Abs)
    requires Good(m, abs)
    ensures UsesOk(abs) && ChainsOk(m.hdr, m.word, abs.pending, abs.chains)
    ensures forall id <- abs.chains :: id in m.remote || id < 0
    ensures 0 - abs.depth - 1 !in abs.chains
  {
  }

  /** The record `r` waits on a list of CPU `cpu`, and asks it to free `b`. */
  ghost predicate WaitsFor(abs: Abs, r: nat, b: nat, cpu: nat) {
    r in abs.pending && abs.pending[r] == b
    && exists id <- abs.chains :: abs.chains[id].cpu == cpu && r in abs.chains[id].recs
  }

  ghost predicate Serves(s: St, step: Step, r: nat) {
    step.TakeRecord? && step.id in s.abs.chains && s.abs.chains[step.id].recs != []
    && s.abs.chains[step.id].recs[0] == r
  }

  /** What holders hold after a step, and which pages are in use: a pushed block and its record go from their
      holder to the list of their owner, who holds both when it takes the record. */
  lemma {:induction false} StepHolds(s: St, step: Step)
    requires Good(s.m, s.abs) && Enabled(s, step)
    ensures var held, held' := s.abs.held, Next(s, step).abs.held;
      match step
      case Push(cpu, r, b) => held' == held - {r, b} && WaitsFor(Next(s, step).abs, r, b, cpu)
      case TakeRecord(id) =>
        var r := s.abs.chains[id].recs[0];
        held' == held + {r, s.abs.pending[r]} && r !in held && s.abs.pending[r] !in held
      case _ => held' == held + Born(s, step) - Gone(step)
    ensures var pages, pages' := s.m.hdr.Keys, Next(s, step).m.hdr.Keys;
      match step
      case Grow(p, _, _, _) => p !in pages && pages' == pages + {p}
      case TakePages(p, _) => p !in pages && pages' == pages + {p}
      case Release(key, k, _) => s.abs.list[key][k] in pages && pages' == pages - {s.abs.list[key][k]}
      case DropPages(a) => pages' == pages - {PageOf(a)}
      case _ => pages' == pages
  {
    hide Good, FreeListOk, FreshPages, Chained, Within, Sized;
    GoodUses(s.m, s.abs);
    StepConserves(s, step);
    match step
    case Push(cpu, r, b) =>
      assert Next(s, step).abs.chains[cpu].recs[0] == r;
    case TakeRecord(id) => RecordTakenUses(s.abs, id, s.abs.chains[id].recs[0]);
    case _ =>
  }

  /** A record waits until its owner takes it, whatever else happens, and whoever pushes behind it. */
  lemma {:induction false} StepWaits(s: St, step: Step, r: nat, b: nat, cpu: nat)
    requires Good(s.m, s.abs) && Enabled(s, step) && WaitsFor(s.abs, r, b, cpu)
    ensures WaitsFor(Next(s, step).abs, r, b, cpu) <==> !Serves(s, step, r)
  {
    hide Good, FreeListOk, FreshPages, FrontedRowsOf, Relinked, Chained, Within, Sized, ChainOk, PushedMem, TakenMem,
      PutMem, ReleasedMem, MovedToFront, Without;
    var m, abs, abs' := s.m, s.abs, Next(s, step).abs;
    GoodUses(m, abs);
    var id :| id in abs.chains && abs.chains[id].cpu == cpu && r in abs.chains[id].recs;
    match step
    case Push(c, q, d) =>
      PushedUses(abs, c, q, d);
      assert abs'.chains[id].cpu == cpu by {
        ListOwner(m, abs, c);
      }
      assert r in abs'.chains[id].recs;
    case TakeOff(c) =>
      ListOwner(m, abs, c);
      assert r in abs'.chains[if id == c then 0 - abs.depth - 1 else id].recs;
    case TakeRecord(j) => OthersWait(abs, j, r, b, cpu);
    case DropList(j) =>
      assert r in abs'.chains[id].recs;
    case _ =>
      assert abs'.chains == abs.chains && abs'.pending == abs.pending;
  }

  lemma {:induction false} OthersWait(abs: Abs, j: int, r: nat, b: nat, cpu: nat)
    requires WaitsFor(abs, r, b, cpu) && j in abs.chains && abs.chains[j].recs != []
    requires abs.chains[j].recs[0] in abs.pending
    ensures WaitsFor(RecordTakenAbs(abs, j, abs.chains[j].recs[0]), r, b, cpu) <==> abs.chains[j].recs[0] != r
  {
    var id :| id in abs.chains && abs.chains[id].cpu == cpu && r in abs.chains[id].recs;
    var abs' := RecordTakenAbs(abs, j, abs.chains[j].recs[0]);
    if abs.chains[j].recs[0] != r {
      assert j == id ==> r in abs.chains[j].recs[1..];
      assert r in abs'.chains[id].recs && abs'.chains[id].cpu == cpu;
    }
  }

  lemma {:induction false} ListOwner(m: Mem, abs: Abs, cpu: nat)
    requires Good(m, abs) && cpu in m.remote
    ensures cpu in abs.chains && abs.chains[cpu].cpu == cpu
  {
  }

  // ---------------------------------------------------------------- runs

  ghost predicate RunStep(s: St, step: Step, s': St) {
    Enabled(s, step) && s' == Next(s, step)
  }

  ghost predicate Run(steps: seq<Step>, states: seq<St>) {
    |states| == |steps| + 1 && forall i | 0 <= i < |steps| :: RunStep(states[i], steps[i], states[i + 1])
  }

  /** In every state of every run from a good one: live blocks never overlap, every free list and every bucket
      is right, and each block is in exactly one use. */
  lemma {:induction false} RunGood(steps: seq<Step>, states: seq<St>, i: nat)
    requires Run(steps, states) && Good(states[0].m, states[0].abs) && i <= |steps|
    ensures Good(states[i].m, states[i].abs)
    decreases i
  {
    hide Good, Enabled, Next;
    if i > 0 {
      RunGood(steps, states, i - 1);
      assert RunStep(states[i - 1], steps[i - 1], states[i - 1 + 1]);
      StepGood(states[i - 1], steps[i - 1]);
    }
  }

  ghost predicate Served(steps: seq<Step>, states: seq<St>, i: nat, j: nat, r: nat)
    requires j <= |steps| && |states| == |steps| + 1
  {
    exists k :: i <= k < j && Serves(states[k], steps[k], r)
  }

  /** Over every run a waiting free stays where its owner finds it until the owner takes it. */
  lemma {:induction false} RunWaits(steps: seq<Step>, states: seq<St>, i: nat, j: nat, r: nat, b: nat, cpu: nat)
    requires Run(steps, states) && Good(states[0].m, states[0].abs) && i <= j <= |steps|
    requires WaitsFor(states[i].abs, r, b, cpu)
    ensures Served(steps, states, i, j, r) || WaitsFor(states[j].abs, r, b, cpu)
    decreases j
  {
    hide Good, Enabled, Next, WaitsFor, Serves;
    if i < j {
      RunWaits(steps, states, i, j - 1, r, b, cpu);
      RunGood(steps, states, j - 1);
      assert RunStep(states[j - 1], steps[j - 1], states[j - 1 + 1]);
      if Served(steps, states, i, j - 1, r) {
        var k :| i <= k < j - 1 && Serves(states[k], steps[k], r);
        assert Served(steps, states, i, j, r);
      } else {
        StepWaits(states[j - 1], steps[j - 1], r, b, cpu);
      }
    }
  }
}

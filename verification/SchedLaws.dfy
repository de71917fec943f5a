/** What each step of the scheduler means for tasks, queues and CPUs, told without the steps' own definitions. */
module SchedLaws {
  import opened Common
  import opened SchedState
  import opened SchedSteps
  import opened SchedRuns
  import opened SchedOrder

  // ---------------------------------------------------------------- what changes and what stays

  /** `q'` is `q` without `p`, everybody else in the old order; `q` itself if `p` was not in it. */
  ghost predicate Lost(q: seq<nat>, q': seq<nat>, p: nat) {
    if p in q then exists k {:trigger q[..k]} :: 0 <= k < |q| && q[k] == p && q' == q[..k] + q[k + 1..]
    else q' == q
  }

  /** `q'` is `q` with `p` put in somewhere. */
  ghost predicate Gained(q: seq<nat>, q': seq<nat>, p: nat) {
    exists k {:trigger q[..k]} :: 0 <= k <= |q| && q' == q[..k] + [p] + q[k..]
  }

  /** On every CPU the same task runs as before. */
  ghost predicate SameSeats(s: Sys, s': Sys) {
    |s'.rqs| == |s.rqs|
    && forall c | 0 <= c < |s.rqs| :: s'.rqs[c].curr == s.rqs[c].curr && s'.rqs[c].idle == s.rqs[c].idle
  }

  ghost predicate OthersSame(s: Sys, s': Sys, p: nat) {
    s'.tasks.Keys == s.tasks.Keys + {p} && forall x <- s.tasks :: x != p ==> s'.tasks[x] == s.tasks[x]
  }

  ghost predicate Counted(s: Sys) {
    forall c | 0 <= c < |s.rqs| :: s.rqs[c].nrRunning == |s.rqs[c].queue|
  }

  /** `p` is in `state`, on no queue, where it was and with the key it had; nothing else has changed. */
  ghost predicate TakenDown(s: Sys, s': Sys, p: nat, state: TaskState) {
    p in s.tasks && OthersSame(s, s', p) && SameSeats(s, s') && Counted(s')
    && s'.tasks[p] == Task(state, false, s.tasks[p].cpu, s.tasks[p].vruntime)
    && forall c | 0 <= c < |s.rqs| :: Lost(s.rqs[c].queue, s'.rqs[c].queue, p) && p !in s'.rqs[c].queue
  }

  /** `p` runs, where it was and with the key it had: on its CPU's queue unless it is current there. A task
      that ran before is left alone, and so is everybody else. */
  ghost predicate Woken(s: Sys, s': Sys, p: nat) {
    p in s.tasks && s.tasks[p].cpu < |s.rqs| &&
    var cpu := s.tasks[p].cpu;
    var queues := s.tasks[p].state != Running && s.rqs[cpu].curr != p;
    && (s.tasks[p].state == Running ==> s' == s)
    && OthersSame(s, s', p) && SameSeats(s, s') && Counted(s')
    && s'.tasks[p] == Task(Running, s.tasks[p].onRq || queues, cpu, s.tasks[p].vruntime)
    && forall c | 0 <= c < |s.rqs| ::
         if queues && c == cpu then Gained(s.rqs[c].queue, s'.rqs[c].queue, p) else s'.rqs[c].queue == s.rqs[c].queue
  }

  /** `p` is new, runs, and waits on the queue of `on`, a little behind the task it was made by. */
  ghost predicate Arrived(s: Sys, s': Sys, p: nat, c: nat, on: nat) {
    p !in s.tasks && OthersSame(s, s', p) && SameSeats(s, s') && Counted(s') && c < |s.rqs| && s.rqs[c].curr in s.tasks
    && s'.tasks[p] == Task(Running, true, on, s.tasks[s.rqs[c].curr].vruntime + MIN_GRANULARITY)
    && forall d | 0 <= d < |s.rqs| ::
         if d == on then Gained(s.rqs[d].queue, s'.rqs[d].queue, p) else s'.rqs[d].queue == s.rqs[d].queue
  }

  /** The current task of `c`, queued or not, is charged if it runs; nothing else has changed. */
  ghost predicate Charged(s: Sys, s': Sys, c: nat, delta: nat) {
    c < |s.rqs| && s.rqs[c].curr in s.tasks && s'.rqs == s.rqs && OthersSame(s, s', s.rqs[c].curr) &&
    var t := s.tasks[s.rqs[c].curr];
    s'.tasks[s.rqs[c].curr]
    == Task(t.state, t.onRq, t.cpu, if t.state == Running then t.vruntime + delta else t.vruntime)
  }

  // ---------------------------------------------------------------- queues

  lemma {:induction false} RemoveLoses(q: seq<nat>, p: nat)
    requires NoDuplicates(q)
    ensures Lost(q, Remove(q, p), p) && p !in Remove(q, p)
  {
    if q != [] {
      var t := q[1..];
      if q[0] == p {
        assert q[..0] == [] && q[1..] == q[0 + 1..];
        assert q[..0] + q[0 + 1..] == Remove(q, p);
        assert p !in t;
      } else {
        hide Lost;
        RemoveLoses(t, p);
        LostLater(q, Remove(t, p), p);
      }
    }
  }

  lemma {:induction false} LostLater(q: seq<nat>, r: seq<nat>, p: nat)
    requires q != [] && q[0] != p && Lost(q[1..], r, p)
    ensures Lost(q, [q[0]] + r, p)
  {
    var t := q[1..];
    if p in t {
      var k :| 0 <= k < |t| && t[k] == p && r == t[..k] + t[k + 1..];
      assert q[k + 1] == p && [q[0]] + r == q[..k + 1] + q[k + 1 + 1..];
    } else {
      assert q == [q[0]] + t;
    }
  }

  lemma {:induction false} InsertGains(q: seq<nat>, at: nat, p: nat)
    ensures Gained(q, Insert(q, at, p), p)
  {
    var k := if at <= |q| then at else |q|;
    assert Insert(q, at, p) == q[..k] + [p] + q[k..];
  }

  lemma {:induction false} GoodCounted(s: Sys)
    requires Good(s)
    ensures Counted(s)
  {
    forall c | 0 <= c < |s.rqs| ensures s.rqs[c].nrRunning == |s.rqs[c].queue| {
      assert QueueOk(s, c);
    }
  }

  // ---------------------------------------------------------------- the steps

  lemma {:induction false} OffTakenDown(s: Sys, p: nat, state: TaskState)
    requires Good(s) && Admitted(s, p)
    ensures s.tasks[p].cpu < |s.rqs| && p in OffQueue(s, p).tasks
    ensures state != Running && state != Zombie ==> TakenDown(s, SetState(OffQueue(s, p), p, state), p, state)
  {
    hide Good, Remove, Lost, IsIdle;
    OffQueueKeeps(s, p);
    if state != Running && state != Zombie {
      var s' := SetState(OffQueue(s, p), p, state);
      StopsGood(s, p, state);
      GoodCounted(s');
      forall c | 0 <= c < |s.rqs| ensures Lost(s.rqs[c].queue, s'.rqs[c].queue, p) && p !in s'.rqs[c].queue {
        QueueOf(s, p, c);
        RemoveLoses(s.rqs[c].queue, p);
        NotIn(s.rqs[c].queue, p);
      }
    }
  }

  lemma {:induction false} NotIn(q: seq<nat>, p: nat)
    ensures p !in q ==> Lost(q, q, p)
  {
  }

  lemma {:induction false} QueueOf(s: Sys, p: nat, c: nat)
    requires Good(s) && Admitted(s, p) && c < |s.rqs|
    ensures NoDuplicates(s.rqs[c].queue) && s.tasks[p].cpu < |s.rqs|
    ensures p in s.rqs[c].queue <==> s.tasks[p].onRq && s.tasks[p].cpu == c
    ensures s.tasks[p].onRq ==> s.tasks[p].state == Running && s.rqs[s.tasks[p].cpu].nrRunning > 0
  {
    assert QueueOk(s, c) && TaskOk(s, p) && QueueOk(s, s.tasks[p].cpu);
  }

  /** Stopping a task stops it. */
  lemma {:induction false} StopDoes(s: Sys, p: nat)
    requires Good(s) && Admitted(s, p)
    ensures s.tasks[p].cpu < |s.rqs| && TakenDown(s, Stop(s, p), p, Stopped)
  {
    hide Good, OffQueue, TakenDown;
    OffTakenDown(s, p, Stopped);
  }

  /** Blocking puts a running task to sleep and leaves any other alone. */
  lemma {:induction false} BlockDoes(s: Sys, p: nat, state: TaskState)
    requires Good(s) && Admitted(s, p) && (state == Sleeping || state == Uninterruptible)
    ensures s.tasks[p].cpu < |s.rqs|
    ensures s.tasks[p].state == Running ==> TakenDown(s, Block(s, p, state), p, state)
    ensures s.tasks[p].state != Running ==> Block(s, p, state) == s
  {
    hide Good, OffQueue, TakenDown;
    OffTakenDown(s, p, state);
  }

  lemma {:induction false} WakeDoes(s: Sys, p: nat, at: nat)
    requires Good(s) && Admitted(s, p)
    ensures s.tasks[p].cpu < |s.rqs| && SetRunning(s, p, s.tasks[p].cpu, at).Done?
    ensures Woken(s, SetRunning(s, p, s.tasks[p].cpu, at).s, p)
  {
    hide Good, Insert, Gained;
    Ready(s);
    var cpu := s.tasks[p].cpu;
    WakeGood(s, p, cpu, at);
    GoodCounted(SetRunning(s, p, cpu, at).s);
    QueueOf(s, p, cpu);
    InsertGains(s.rqs[cpu].queue, at, p);
  }

  lemma {:induction false} AdmitDoes(s: Sys, p: nat, c: nat, on: nat, at: nat)
    requires Good(s) && p !in s.tasks && c < |s.rqs| && on < |s.rqs|
    ensures s.rqs[c].curr in s.tasks && Arrived(s, Admit(s, p, c, on, at), p, c, on)
  {
    hide Good, Insert, Gained;
    AdmitGood(s, p, c, on, at);
    GoodCounted(Admit(s, p, c, on, at));
    InsertGains(s.rqs[on].queue, at, p);
  }

  lemma {:induction false} TickDoes(s: Sys, c: nat, delta: nat)
    requires Good(s) && c < |s.rqs|
    ensures s.rqs[c].curr in s.tasks && Charged(s, Tick(s, c, delta), c, delta)
  {
    hide Good;
    Ready(s);
  }

  // ---------------------------------------------------------------- scheduling

  /** CPU `d` is the first whose lock `c` gets and that has more than one task waiting. */
  ghost predicate Gives(s: Sys, c: nat, busy: set<nat>, d: nat) {
    d < |s.rqs| && d != c && d !in busy && |s.rqs[d].queue| > 1
    && forall e | 0 <= e < d :: e == c || e in busy || |s.rqs[e].queue| <= 1
  }

  /** Whom CPU `c` runs next: the first on its own queue; else the first on the queue of the CPU that gives;
      else the current task if it still runs, or the idle task. */
  ghost predicate RunsNext(s: Sys, c: nat, busy: set<nat>, next: nat)
    requires c < |s.rqs| && s.rqs[c].curr in s.tasks
  {
    (s.rqs[c].queue != [] ==> next == s.rqs[c].queue[0])
    && (s.rqs[c].queue == [] ==> forall d: nat | Gives(s, c, busy, d) :: next == s.rqs[d].queue[0])
    && (s.rqs[c].queue == [] && (forall d: nat :: !Gives(s, c, busy, d)) ==>
        next == if s.tasks[s.rqs[c].curr].state == Running then s.rqs[c].curr else s.rqs[c].idle)
  }

  /** Who waits on CPU `c` afterwards: those who did, without the first, and with the current task if that
      runs, is not the idle task and does not wait already. */
  ghost predicate WaitsAfter(s: Sys, c: nat, q': seq<nat>)
    requires c < |s.rqs| && s.rqs[c].curr in s.tasks
  {
    var cur, rest := s.rqs[c].curr, if s.rqs[c].queue == [] then [] else s.rqs[c].queue[1..];
    if s.tasks[cur].state == Running && cur != s.rqs[c].idle && cur !in rest then Gained(rest, q', cur) else q' == rest
  }

  ghost predicate Scheduled(s: Sys, s': Sys, c: nat, busy: set<nat>) {
    c < |s.rqs| == |s'.rqs| && s.rqs[c].curr in s.tasks && s'.tasks.Keys == s.tasks.Keys && Counted(s') &&
    var next := s'.rqs[c].curr;
    RunsNext(s, c, busy, next) && WaitsAfter(s, c, s'.rqs[c].queue)
    && (forall d | 0 <= d < |s.rqs| :: s'.rqs[d].idle == s.rqs[d].idle && (d != c ==> s'.rqs[d].curr == s.rqs[d].curr))
    && (forall d: nat | d < |s.rqs| && d != c ::
          s'.rqs[d].queue
          == if s.rqs[c].queue == [] && Gives(s, c, busy, d) then s.rqs[d].queue[1..] else s.rqs[d].queue)
    && (forall x <- s.tasks :: s'.tasks[x].state == s.tasks[x].state && s'.tasks[x].vruntime == s.tasks[x].vruntime)
    && (forall x <- s.tasks :: x != next ==> s'.tasks[x].cpu == s.tasks[x].cpu)
    && (next in s.tasks && next != s.rqs[c].idle ==> s'.tasks[next].cpu == c)
  }

  /** The CPU that gives has its current task first on its queue. */
  ghost predicate GivesCurrent(s: Sys, c: nat, busy: set<nat>) {
    c < |s.rqs| && s.rqs[c].queue == []
    && exists d: nat :: Gives(s, c, busy, d) && s.rqs[d].queue[0] == s.rqs[d].curr
  }

  /** The first on the queue of `d` leaves it for CPU `c`; nothing else has changed. */
  ghost predicate HandedOver(s: Sys, s': Sys, c: nat, d: nat, p: nat) {
    d < |s.rqs| == |s'.rqs| && s.rqs[d].queue != [] && p == s.rqs[d].queue[0] && p in s.tasks
    && SameSeats(s, s') && OthersSame(s, s', p) && s'.rqs[d].queue == s.rqs[d].queue[1..] && Counted(s')
    && s'.tasks[p] == Task(s.tasks[p].state, false, c, s.tasks[p].vruntime)
    && forall e | 0 <= e < |s.rqs| && e != d :: s'.rqs[e] == s.rqs[e]
  }

  lemma {:induction false} SourceGives(s: Sys, c: nat, busy: set<nat>)
    requires Counted(s)
    ensures var d := Source(s, c, busy, 0);
      if d < |s.rqs| then forall e: nat :: Gives(s, c, busy, e) <==> e == d else forall e: nat :: !Gives(s, c, busy, e)
  {
    SourceFacts(s, c, busy, 0);
  }

  /** A task is taken over from the CPU that gives, if there is one; not if that is its current task. */
  lemma {:induction false} MigrateDoes(s: Sys, c: nat, busy: set<nat>)
    requires Good(s) && c < |s.rqs|
    ensures Queued(s, c) && (Migrate(s, c, busy).Nothing? <==> forall d: nat :: !Gives(s, c, busy, d))
    ensures Migrate(s, c, busy).Wrong? <==> exists d: nat :: Gives(s, c, busy, d) && s.rqs[d].queue[0] == s.rqs[d].curr
    ensures Migrate(s, c, busy).Chosen? ==> exists d: nat ::
      Gives(s, c, busy, d) && HandedOver(s, Migrate(s, c, busy).s, c, d, Migrate(s, c, busy).next)
  {
    hide Good, Gives, Source, Remove, IsIdle;
    Ready(s);
    GoodCounted(s);
    SourceGives(s, c, busy);
    SourceFacts(s, c, busy, 0);
    var d := Source(s, c, busy, 0);
    if d < |s.rqs| {
      OwnQueue(s, d);
      FrontOff(s.rqs[d].queue);
      assert Gives(s, c, busy, d);
    }
  }

  /** What scheduling does, and when it brings the machine down. */
  lemma {:induction false} ScheduleDoes(s: Sys, c: nat, busy: set<nat>, at: nat)
    requires Good(s) && c < |s.rqs|
    ensures Queued(s, c) && (Schedule(s, c, busy, at) == Panicked <==> GivesCurrent(s, c, busy))
    ensures Schedule(s, c, busy, at).Done? ==> Scheduled(s, Schedule(s, c, busy, at).s, c, busy)
  {
    hide Good, Gives, Source, Gained, Insert, Scheduled;
    GoodCounted(s);
    SourceGives(s, c, busy);
    ScheduleGood(s, c, busy, at);
    SourceFacts(s, c, busy, 0);
    if Schedule(s, c, busy, at).Done? {
      ScheduledAs(s, c, busy, at);
    }
  }

  lemma {:induction false} ScheduledAs(s: Sys, c: nat, busy: set<nat>, at: nat)
    requires Good(s) && c < |s.rqs| && Queued(s, c) && Schedule(s, c, busy, at).Done?
    ensures Scheduled(s, Schedule(s, c, busy, at).s, c, busy)
  {
    hide Good, Gives, Source, Schedule, Scheduled, Queued;
    var q, d := s.rqs[c].queue, Source(s, c, busy, 0);
    if q != [] {
      OwnScheduled(s, c, busy, at);
    } else if d < |s.rqs| {
      OtherScheduled(s, c, busy, at, d);
    } else {
      NoneScheduled(s, c, busy, at);
    }
  }

  lemma {:induction false} OwnScheduled(s: Sys, c: nat, busy: set<nat>, at: nat)
    requires Good(s) && c < |s.rqs| && Queued(s, c) && Schedule(s, c, busy, at).Done? && s.rqs[c].queue != []
    ensures Scheduled(s, Schedule(s, c, busy, at).s, c, busy)
  {
    hide Good, Gives, Source, Gained, Insert, Remove, IsIdle;
    ScheduleGood(s, c, busy, at);
    GoodCounted(Schedule(s, c, busy, at).s);
    OwnQueue(s, c);
    CurrentHere(s, c);
    InsertGains(s.rqs[c].queue[1..], at, s.rqs[c].curr);
    FrontOff(s.rqs[c].queue);
    QueueFront(s, c);
  }

  lemma {:induction false} OtherScheduled(s: Sys, c: nat, busy: set<nat>, at: nat, d: nat)
    requires Good(s) && c < |s.rqs| && Queued(s, c) && Schedule(s, c, busy, at).Done? && s.rqs[c].queue == []
    requires d == Source(s, c, busy, 0) < |s.rqs|
    ensures Scheduled(s, Schedule(s, c, busy, at).s, c, busy)
  {
    hide Good, Gives, Source, Gained, Insert, Remove, IsIdle;
    ScheduleGood(s, c, busy, at);
    GoodCounted(s);
    GoodCounted(Schedule(s, c, busy, at).s);
    SourceGives(s, c, busy);
    SourceFacts(s, c, busy, 0);
    OwnQueue(s, c);
    CurrentHere(s, c);
    InsertGains([], at, s.rqs[c].curr);
    FrontOff(s.rqs[d].queue);
    QueueFront(s, d);
    NotQueuedElsewhere(s, c, d);
    assert Gives(s, c, busy, d);
  }

  lemma {:induction false} NoneScheduled(s: Sys, c: nat, busy: set<nat>, at: nat)
    requires Good(s) && c < |s.rqs| && Queued(s, c) && Schedule(s, c, busy, at).Done? && s.rqs[c].queue == []
    requires Source(s, c, busy, 0) == |s.rqs|
    ensures Scheduled(s, Schedule(s, c, busy, at).s, c, busy)
  {
    hide Good, Gives, Source, Gained, Insert, Remove, IsIdle;
    ScheduleGood(s, c, busy, at);
    GoodCounted(s);
    GoodCounted(Schedule(s, c, busy, at).s);
    SourceGives(s, c, busy);
    OwnQueue(s, c);
    CurrentHere(s, c);
    InsertGains([], at, s.rqs[c].curr);
  }

  lemma {:induction false} FrontOff(q: seq<nat>)
    requires q != []
    ensures Remove(q, q[0]) == q[1..]
  {
  }

  lemma {:induction false} QueueFront(s: Sys, d: nat)
    requires Good(s) && d < |s.rqs| && s.rqs[d].queue != []
    ensures var p := s.rqs[d].queue[0];
      p in s.tasks && s.tasks[p].cpu == d && s.tasks[p].onRq && p !in s.rqs[d].queue[1..] && !IsIdle(s, p)
  {
    assert QueueOk(s, d) && s.rqs[d].queue[0] in s.rqs[d].queue;
  }

  lemma {:induction false} CurrentHere(s: Sys, c: nat)
    requires Good(s) && c < |s.rqs|
    ensures var cur := s.rqs[c].curr;
      cur in s.tasks && (cur != s.rqs[c].idle ==> s.tasks[cur].cpu == c)
      && s.rqs[c].idle in s.tasks && IsIdle(s, s.rqs[c].idle)
      && (s.tasks[cur].onRq <==> cur in s.rqs[c].queue)
  {
    assert CurrOk(s, c) && TaskOk(s, s.rqs[c].curr) && QueueOk(s, c) && IsIdle(s, s.rqs[c].idle);
  }
}

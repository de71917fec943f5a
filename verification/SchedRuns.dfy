/** All runs of the scheduler's locked regions, in any order, on any CPUs. */
module SchedRuns {
  import opened Common
  import opened SchedState
  import opened SchedSteps

  datatype Step =
    | Wake(p: nat, at: nat)
    | Sleep(p: nat, deep: bool)
    | Halt(p: nat)
    | New(p: nat, c: nat, on: nat, at: nat)
    | Resched(c: nat, busy: set<nat>, at: nat)
    | Clock(c: nat, delta: nat)

  ghost predicate Enabled(s: Sys, step: Step) {
    match step
    case Wake(p, _) => Admitted(s, p)
    case Sleep(p, _) => Admitted(s, p)
    case Halt(p) => Admitted(s, p)
    case New(p, c, on, _) => p !in s.tasks && c < |s.rqs| && on < |s.rqs|
    case Resched(c, _, _) => c < |s.rqs|
    case Clock(c, _) => c < |s.rqs|
  }

  /** What lets every enabled step be taken. */
  lemma {:induction false} Ready(s: Sys)
    requires Good(s)
    ensures forall p :: Admitted(s, p) ==> s.tasks[p].cpu < |s.rqs|
    ensures forall c: nat | c < |s.rqs| :: s.rqs[c].curr in s.tasks && Queued(s, c)
  {
    forall p | Admitted(s, p) ensures s.tasks[p].cpu < |s.rqs| {
      assert TaskOk(s, p);
    }
    forall c: nat | c < |s.rqs|
      ensures s.rqs[c].curr in s.tasks
      ensures s.rqs[c].queue != [] ==> s.rqs[c].queue[0] in s.tasks && s.rqs[c].nrRunning > 0
    {
      assert QueueOk(s, c) && CurrOk(s, c);
      assert s.rqs[c].queue != [] ==> s.rqs[c].queue[0] in s.rqs[c].queue;
    }
  }

  ghost function Apply(s: Sys, step: Step): Outcome
    requires Good(s) && Enabled(s, step)
  {
    Ready(s);
    match step
    case Wake(p, at) => SetRunning(s, p, s.tasks[p].cpu, at)
    case Sleep(p, deep) => Done(Block(s, p, if deep then Uninterruptible else Sleeping))
    case Halt(p) => Done(Stop(s, p))
    case New(p, c, on, at) => Done(Admit(s, p, c, on, at))
    case Resched(c, busy, at) => Schedule(s, c, busy, at)
    case Clock(c, delta) => Done(Tick(s, c, delta))
  }

  // ---------------------------------------------------------------- each step

  lemma {:induction false} WakeGood(s: Sys, p: nat, q: nat, at: nat)
    requires Good(s) && Admitted(s, p) && q == s.tasks[p].cpu
    ensures q < |s.rqs| && SetRunning(s, p, q, at).Done? && Good(SetRunning(s, p, q, at).s)
  {
    hide Good, Insert, Limbo, QueueOk, CurrOk;
    assert {} + {p} == {p} && {p} - {p} == {};
    Ready(s);
    NoLimbo(s);
    Member(s, {}, p);
    if s.tasks[p].state != Running {
      LetGo(s, {}, p);
      var s1 := SetState(s, p, Running);
      SetStateKeeps(s, {p}, p, Running);
      if p != s.rqs[q].curr {
        EnqueueKeeps(s1, {p}, q, p, at);
        NoLimbo(Enqueue(s1, q, p, at));
      } else {
        Settle(s1, {p}, p);
        NoLimbo(s1);
      }
    }
  }

  lemma {:induction false} OffQueueKeeps(s: Sys, p: nat)
    requires Good(s) && Admitted(s, p)
    ensures s.tasks[p].cpu < |s.rqs| && p in OffQueue(s, p).tasks && Limbo(OffQueue(s, p), {p})
    ensures OffQueue(s, p).tasks[p] == s.tasks[p].(onRq := false)
  {
    hide Good, Remove;
    assert {} + {p} == {p};
    Ready(s);
    NoLimbo(s);
    Member(s, {}, p);
    if s.tasks[p].onRq {
      DequeueKeeps(s, {}, s.tasks[p].cpu, p);
    } else {
      LetGo(s, {}, p);
    }
  }

  lemma {:induction false} BlockGood(s: Sys, p: nat, state: TaskState)
    requires Good(s) && Admitted(s, p) && (state == Sleeping || state == Uninterruptible)
    ensures s.tasks[p].cpu < |s.rqs| && Good(Block(s, p, state))
  {
    hide Good, Limbo;
    StopsGood(s, p, state);
  }

  /** Off the queue and no longer running. */
  lemma {:induction false} StopsGood(s: Sys, p: nat, state: TaskState)
    requires Good(s) && Admitted(s, p) && state != Running && state != Zombie
    ensures s.tasks[p].cpu < |s.rqs| && p in OffQueue(s, p).tasks && Good(SetState(OffQueue(s, p), p, state))
  {
    hide Good, OffQueue;
    assert {p} - {p} == {};
    OffQueueKeeps(s, p);
    SetStateKeeps(OffQueue(s, p), {p}, p, state);
    Settle(SetState(OffQueue(s, p), p, state), {p}, p);
    NoLimbo(SetState(OffQueue(s, p), p, state));
  }

  lemma {:induction false} AdmitGood(s: Sys, p: nat, c: nat, on: nat, at: nat)
    requires Good(s) && p !in s.tasks && c < |s.rqs| && on < |s.rqs|
    ensures s.rqs[c].curr in s.tasks && Good(Admit(s, p, c, on, at))
  {
    hide Good, Insert, Limbo;
    assert {p} - {p} == {};
    Ready(s);
    var t := Task(Running, false, on, s.tasks[s.rqs[c].curr].vruntime + MIN_GRANULARITY);
    var s1 := s.(tasks := s.tasks[p := t]);
    Arrives(s, p, t);
    EnqueueKeeps(s1, {p}, on, p, at);
    NoLimbo(Enqueue(s1, on, p, at));
  }

  /** A task nobody knows yet is nowhere. */
  lemma {:induction false} Arrives(s: Sys, p: nat, t: Task)
    requires Good(s) && p !in s.tasks && t.cpu < |s.rqs| && t.state != Zombie && !t.onRq
    ensures Limbo(s.(tasks := s.tasks[p := t]), {p})
  {
    var s1 := s.(tasks := s.tasks[p := t]);
    CastSame(s, s1);
    forall c | 0 <= c < |s.rqs| ensures QueueOk(s1, c) && CurrOk(s1, c) && s.rqs[c].idle != p && p !in s.rqs[c].queue {
      assert QueueOk(s, c) && CurrOk(s, c);
    }
    forall x <- s1.tasks ensures if x in {p} then Adrift(s1, x) else TaskOk(s1, x) {
      assert x != p ==> TaskOk(s, x);
    }
  }

  lemma {:induction false} TickGood(s: Sys, c: nat, delta: nat)
    requires Good(s) && c < |s.rqs|
    ensures s.rqs[c].curr in s.tasks && Good(Tick(s, c, delta))
  {
    Ready(s);
    var s' := Tick(s, c, delta);
    CastSame(s, s');
    forall d | 0 <= d < |s'.rqs| ensures QueueOk(s', d) && CurrOk(s', d) {
      assert QueueOk(s, d) && CurrOk(s, d);
    }
    forall x <- s'.tasks ensures TaskOk(s', x) {
      assert TaskOk(s, x);
    }
  }

  // ---------------------------------------------------------------- scheduling

  /** CPU `c` would steal a task that another CPU is just running: its own queue is empty, and the first
      CPU with more than one task queued has its current task at the front of the queue. */
  ghost predicate StealsCurrent(s: Sys, c: nat, busy: set<nat>)
    requires c < |s.rqs|
  {
    var d := Source(s, c, busy, 0);
    s.rqs[c].queue == [] && d < |s.rqs| && s.rqs[d].queue != [] && s.rqs[d].queue[0] == s.rqs[d].curr
  }

  lemma {:induction false} SourceFacts(s: Sys, c: nat, busy: set<nat>, k: nat)
    requires k <= |s.rqs|
    ensures var d := Source(s, c, busy, k);
      (d < |s.rqs| ==> d != c && d !in busy && s.rqs[d].nrRunning > 1 && s.rqs[d].queue != [])
      && forall e | k <= e < d :: e == c || e in busy || s.rqs[e].nrRunning <= 1 || s.rqs[e].queue == []
    decreases |s.rqs| - k
  {
    if k < |s.rqs| && !(k != c && k !in busy && s.rqs[k].nrRunning > 1 && s.rqs[k].queue != []) {
      SourceFacts(s, c, busy, k + 1);
    }
  }

  /** The task picked is the first of its queue, in no queue any more, and no other CPU's. */
  lemma {:induction false} PickKeeps(s: Sys, c: nat, busy: set<nat>)
    requires Good(s) && c < |s.rqs|
    ensures Queued(s, c) && (Pick(s, c, busy).Chosen? <==> !StealsCurrent(s, c, busy))
    ensures Pick(s, c, busy).Chosen? ==> Picked(s, c, Pick(s, c, busy).s, Pick(s, c, busy).next)
  {
    hide Good, Limbo, Remove, QueueOk, CurrOk, TaskOk;
    Ready(s);
    NoLimbo(s);
    QueueFacts(s, c);
    if s.rqs[c].queue != [] {
      OwnKeeps(s, c);
    } else {
      SourceFacts(s, c, busy, 0);
      var d := Source(s, c, busy, 0);
      if d < |s.rqs| {
        QueueFacts(s, d);
        if s.rqs[d].queue[0] != s.rqs[d].curr {
          MigrateKeeps(s, c, d);
        }
      }
    }
  }

  lemma {:induction false} OwnKeeps(s: Sys, c: nat)
    requires Good(s) && c < |s.rqs| && s.rqs[c].queue != [] && s.rqs[c].nrRunning > 0 && s.rqs[c].queue[0] in s.tasks
    ensures Picked(s, c, Dequeue(s, c, s.rqs[c].queue[0]), s.rqs[c].queue[0])
  {
    hide Good, Limbo, Remove, TaskOk;
    NoLimbo(s);
    QueueFacts(s, c);
    var p := s.rqs[c].queue[0];
    assert {} + {p} == {p};
    DequeueKeeps(s, {}, c, p);
    CastSame(s, Dequeue(s, c, p));
    assert Dequeue(s, c, p).rqs[c].nrRunning != s.rqs[c].nrRunning;
  }

  lemma {:induction false} MigrateKeeps(s: Sys, c: nat, d: nat)
    requires Good(s) && c < |s.rqs| && d < |s.rqs| && c != d && s.rqs[d].queue != [] && s.rqs[d].nrRunning > 0
    requires s.rqs[d].queue[0] in s.tasks && s.rqs[d].queue[0] != s.rqs[d].curr
    ensures Picked(s, c, SetCpu(Dequeue(s, d, s.rqs[d].queue[0]), s.rqs[d].queue[0], c), s.rqs[d].queue[0])
  {
    hide Good, Limbo, Remove, TaskOk;
    NoLimbo(s);
    QueueFacts(s, c);
    QueueFacts(s, d);
    var p := s.rqs[d].queue[0];
    assert {} + {p} == {p};
    DequeueKeeps(s, {}, d, p);
    NotCurrent(s, p, d, c);
    var s1 := Dequeue(s, d, p);
    SetCpuKeeps(s1, {p}, p, c);
    CastSame(s, SetCpu(s1, p, c));
    assert s1.rqs[d].nrRunning != s.rqs[d].nrRunning;
  }

  lemma {:induction false} QueueFacts(s: Sys, c: nat)
    requires Good(s) && c < |s.rqs|
    ensures s.rqs[c].nrRunning == |s.rqs[c].queue| && s.rqs[c].idle !in s.rqs[c].queue && s.rqs[c].curr in s.tasks
    ensures s.rqs[c].queue != [] ==> s.rqs[c].queue[0] in s.rqs[c].queue
  {
    assert QueueOk(s, c) && CurrOk(s, c);
    assert IsIdle(s, s.rqs[c].idle);
  }

  lemma {:induction false} NotCurrent(s: Sys, p: nat, d: nat, c: nat)
    requires Good(s) && Admitted(s, p) && s.tasks[p].cpu == d && c < |s.rqs| && c != d
    ensures s.rqs[c].curr != p
  {
    assert CurrOk(s, c);
    assert IsIdle(s, s.rqs[c].idle);
  }

  /** A current task that runs needs no queue to be picked again. */
  lemma {:induction false} CurrentRests(s: Sys, c: nat)
    requires Good(s) && c < |s.rqs|
    ensures var cur := s.rqs[c].curr; cur == s.rqs[c].idle || (Admitted(s, cur) && s.tasks[cur].cpu == c)
  {
    assert CurrOk(s, c);
  }

  /** `next` has been taken for CPU `c`: it is adrift, or it is the idle or the current task. */
  ghost predicate Picked(s: Sys, c: nat, s': Sys, next: nat) {
    c < |s.rqs| && |s'.rqs| == |s.rqs| && s'.rqs[c].curr == s.rqs[c].curr && s'.rqs[c].idle == s.rqs[c].idle
    && s.rqs[c].curr in s.tasks && s.rqs[c].curr in s'.tasks
    && s'.tasks[s.rqs[c].curr].state == s.tasks[s.rqs[c].curr].state
    && (s' == s ==> Limbo(s, {}))
    && (s' == s ==> next == s.rqs[c].curr || (next == s.rqs[c].idle && s.tasks[s.rqs[c].curr].state != Running))
    && (s' != s ==> Limbo(s', {next}) && next in s'.tasks && !IsIdle(s', next))
    && (s' != s ==> s'.tasks[next].cpu == c && s'.tasks[next].state == Running)
    && (s' != s && s.rqs[c].curr != next ==> s'.tasks[s.rqs[c].curr] == s.tasks[s.rqs[c].curr])
  }

  lemma {:induction false} PutBackGood(s: Sys, c: nat, s': Sys, next: nat, at: nat)
    requires Good(s) && Picked(s, c, s', next)
    ensures Good(SetCurr(PutBack(s', c, at), c, next))
  {
    hide Good, Insert, Limbo, QueueOk, CurrOk, TaskOk;
    assert {next} - {next} == {};
    CurrentRests(s, c);
    var cur, ps := s.rqs[c].curr, if s' == s then {} else {next};
    var s2 := PutBack(s', c, at);
    IdleRuns(s', c, ps);
    if s2 != s' {
      if cur != next || s' == s {
        LetGo(s', ps, cur);
        EnqueueKeeps(s', ps + {cur}, c, cur, at);
        assert ps + {cur} - {cur} == ps;
        SetCurrKeeps(s2, ps, c, next);
      } else {
        EnqueueKeeps(s', ps, c, cur, at);
        SetCurrKeeps(s2, {}, c, next);
      }
    } else {
      SetCurrKeeps(s2, ps, c, next);
    }
    var s3 := SetCurr(s2, c, next);
    if s' != s && !(s2 != s' && cur == next) {
      Settle(s3, {next}, next);
    }
    NoLimbo(s3);
  }

  lemma {:induction false} IdleRuns(s: Sys, c: nat, ps: set<nat>)
    requires Limbo(s, ps) && c < |s.rqs|
    ensures s.rqs[c].idle in s.tasks && s.rqs[c].idle !in ps && IsIdle(s, s.rqs[c].idle)
    ensures s.rqs[c].curr == s.rqs[c].idle || (Admitted(s, s.rqs[c].curr) && s.tasks[s.rqs[c].curr].cpu == c)
  {
    assert CurrOk(s, c);
    assert IsIdle(s, s.rqs[c].idle);
    Member(s, ps, s.rqs[c].idle);
  }

  lemma {:induction false} ScheduleGood(s: Sys, c: nat, busy: set<nat>, at: nat)
    requires Good(s) && c < |s.rqs|
    ensures Queued(s, c) && (Schedule(s, c, busy, at) == Panicked <==> StealsCurrent(s, c, busy))
    ensures Schedule(s, c, busy, at).Done? ==> Good(Schedule(s, c, busy, at).s)
  {
    hide Good, Limbo, PutBack, Pick, StealsCurrent;
    PickKeeps(s, c, busy);
    match Pick(s, c, busy)
    case Chosen(s', next) => PutBackGood(s, c, s', next, at);
    case _ =>
  }

  // ---------------------------------------------------------------- runs

  /** Every step keeps the state good, or brings the machine down in exactly one case: a CPU steals a
      task that another CPU is just running. Waking never meets a zombie. */
  lemma {:induction false} StepGood(s: Sys, step: Step)
    requires Good(s) && Enabled(s, step)
    ensures Apply(s, step) == Panicked <==> step.Resched? && StealsCurrent(s, step.c, step.busy)
    ensures Apply(s, step).Done? ==> Good(Apply(s, step).s)
  {
    hide Good, Insert, StealsCurrent;
    match step
    case Wake(p, at) => WakeGood(s, p, s.tasks[p].cpu, at);
    case Sleep(p, deep) => BlockGood(s, p, if deep then Uninterruptible else Sleeping);
    case Halt(p) => StopsGood(s, p, Stopped);
    case New(p, c, on, at) => AdmitGood(s, p, c, on, at);
    case Resched(c, busy, at) => ScheduleGood(s, c, busy, at);
    case Clock(c, delta) => TickGood(s, c, delta);
  }

  ghost predicate RunStep(s: Sys, step: Step, s': Sys) {
    Good(s) && Enabled(s, step) && Apply(s, step) == Done(s')
  }

  /** `states` lists the states a run of `steps` goes through. */
  ghost predicate Run(steps: seq<Step>, states: seq<Sys>) {
    |states| == |steps| + 1 && forall i | 0 <= i < |steps| :: RunStep(states[i], steps[i], states[i + 1])
  }

  function IdleTask(c: nat): Task {
    Task(Running, false, c, 0)
  }

  /** `n` CPUs, each running its idle task, number `c` on CPU `c`. */
  function Boot(n: nat): Sys {
    Sys(seq(n, c requires 0 <= c < n => Rq(c, c, 0, [])), map c: nat | c < n :: c := IdleTask(c))
  }

  lemma {:induction false} BootGood(n: nat)
    ensures Good(Boot(n))
  {
    var s := Boot(n);
    forall p <- s.tasks ensures TaskOk(s, p) {
      assert s.rqs[p].idle == p;
    }
  }

  /** In every state of every run from the start, in any interleaving: each admitted running task waits
      on its CPU's queue or is current there, none is in two places, and the counts are right. */
  lemma {:induction false} RunGood(steps: seq<Step>, states: seq<Sys>, n: nat, i: nat)
    requires Run(steps, states) && states[0] == Boot(n) && i <= |steps|
    ensures Good(states[i])
    decreases i
  {
    if i == 0 {
      BootGood(n);
    } else {
      RunGood(steps, states, n, i - 1);
      assert RunStep(states[i - 1], steps[i - 1], states[i - 1 + 1]);
      StepGood(states[i - 1], steps[i - 1]);
    }
  }

  /** Some run leads from `s` to `s'`. */
  ghost predicate Leads(s: Sys, s': Sys) {
    exists steps: seq<Step>, states: seq<Sys> :: Run(steps, states) && states[0] == s && states[|steps|] == s'
  }

  lemma {:induction false} Stays(s: Sys)
    ensures Leads(s, s)
  {
    assert Run([], [s]);
  }

  lemma {:induction false} LeadsOn(s: Sys, s1: Sys, step: Step, s2: Sys)
    requires Leads(s, s1) && Good(s1) && Enabled(s1, step) && Apply(s1, step) == Done(s2)
    ensures Leads(s, s2) && Good(s2)
  {
    hide Good;
    StepGood(s1, step);
    var steps: seq<Step>, states: seq<Sys> :| Run(steps, states) && states[0] == s && states[|steps|] == s1;
    var steps', states' := steps + [step], states + [s2];
    forall i | 0 <= i < |steps'| ensures RunStep(states'[i], steps'[i], states'[i + 1]) {
      assert i < |steps| ==> RunStep(states[i], steps[i], states[i + 1]);
    }
    assert Run(steps', states');
  }
}

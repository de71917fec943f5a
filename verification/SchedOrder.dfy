/** When run queues are in the order of their keys, and when a current task is off its queue: what each
    step does to that, and what it means for whole runs. */
module SchedOrder {
  import opened Common
  import opened SchedState
  import opened SchedSteps
  import opened SchedRuns
  import RbOrder

  function Key(s: Sys, p: nat): nat {
    if p in s.tasks then s.tasks[p].vruntime else 0
  }

  ghost predicate InOrder(s: Sys, q: seq<nat>) {
    forall i, j :: 0 <= i < j < |q| ==> Key(s, q[i]) <= Key(s, q[j])
  }

  ghost predicate AllInOrder(s: Sys) {
    forall c | 0 <= c < |s.rqs| :: InOrder(s, s.rqs[c].queue)
  }

  /** Every task before `at` has at most the key, every task from `at` on a greater one. */
  ghost predicate RightPlace(s: Sys, q: seq<nat>, at: nat, key: nat) {
    at <= |q| && (forall i | 0 <= i < at :: Key(s, q[i]) <= key) && (forall i | at <= i < |q| :: key < Key(s, q[i]))
  }

  // ---------------------------------------------------------------- sequences

  function ByKey(s: Sys): (nat, nat) -> bool {
    (a: nat, b: nat) => Key(s, a) < Key(s, b)
  }

  /** In a queue that is in order the tree search finds the right place. */
  lemma {:induction false} SearchFinds(s: Sys, q: seq<nat>, p: nat) returns (at: nat)
    requires InOrder(s, q)
    ensures RightPlace(s, q, at, Key(s, p)) && Insert(q, at, p) == RbOrder.Insert(ByKey(s), q, p)
  {
    var all := (set x | x in q) + {p};
    assert RbOrder.Sorted(ByKey(s), q);
    RbOrder.InsertSorted(ByKey(s), q, p, all);
    var k :| RbOrder.SplitsAt(ByKey(s), q, p, k) && RbOrder.Insert(ByKey(s), q, p) == q[..k] + [p] + q[k..];
    at := k;
  }

  lemma {:induction false} InsertInOrder(s: Sys, q: seq<nat>, at: nat, p: nat)
    requires InOrder(s, q) && RightPlace(s, q, at, Key(s, p))
    ensures InOrder(s, Insert(q, at, p))
  {
    var r := Insert(q, at, p);
    assert forall i | 0 <= i < |r| :: r[i] == if i < at then q[i] else if i == at then p else q[i - 1];
  }

  lemma {:induction false} RemoveInOrder(s: Sys, q: seq<nat>, p: nat)
    requires InOrder(s, q)
    ensures InOrder(s, Remove(q, p)) && forall x <- Remove(q, p) :: x in q
  {
    if q != [] {
      var t := q[1..];
      assert forall i | 0 <= i < |t| :: t[i] == q[i + 1];
      if q[0] != p {
        RemoveInOrder(s, t, p);
        var r := Remove(t, p);
        forall i | 0 <= i < |r| ensures Key(s, q[0]) <= Key(s, r[i]) {
          assert r[i] in t;
        }
      }
    }
  }

  lemma {:induction false} SameKeys(s: Sys, s': Sys, q: seq<nat>)
    requires InOrder(s, q) && forall p <- q :: Key(s', p) == Key(s, p)
    ensures InOrder(s', q)
  {
  }

  // ---------------------------------------------------------------- what breaks the order

  /** The clock charges the current task, which is on its own queue, past the task behind it. */
  ghost predicate Overtakes(s: Sys, c: nat, delta: nat)
    requires c < |s.rqs|
  {
    var q, cur := s.rqs[c].queue, s.rqs[c].curr;
    exists k :: 0 <= k < |q| - 1 && q[k] == cur && Key(s, cur) + delta > Key(s, q[k + 1])
  }

  /** Charging the current task keeps all queues in order exactly if it does not overtake. */
  lemma {:induction false} TickOrder(s: Sys, c: nat, delta: nat)
    requires Good(s) && AllInOrder(s) && c < |s.rqs|
    ensures s.rqs[c].curr in s.tasks
    ensures AllInOrder(Tick(s, c, delta)) <==> !Overtakes(s, c, delta)
  {
    hide Good, InOrder, Overtakes, Tick;
    Ready(s);
    var s' := Tick(s, c, delta);
    TickKeys(s, c, delta);
    forall d | 0 <= d < |s.rqs| && d != c ensures InOrder(s', s'.rqs[d].queue) {
      NotQueuedElsewhere(s, c, d);
      SameKeys(s, s', s.rqs[d].queue);
    }
    OwnOrder(s, s', c, delta);
  }

  lemma {:induction false} TickKeys(s: Sys, c: nat, delta: nat)
    requires Good(s) && c < |s.rqs| && s.rqs[c].curr in s.tasks
    ensures var s', cur := Tick(s, c, delta), s.rqs[c].curr;
      s'.rqs == s.rqs && (forall p :: p != cur ==> Key(s', p) == Key(s, p))
      && Key(s', cur) == Key(s, cur) + (if s.tasks[cur].state == Running then delta else 0)
      && (cur in s.rqs[c].queue ==> s.tasks[cur].state == Running)
  {
    var cur := s.rqs[c].curr;
    assert QueueOk(s, c) && TaskOk(s, cur);
  }

  lemma {:induction false} OwnOrder(s: Sys, s': Sys, c: nat, delta: nat)
    requires Good(s) && c < |s.rqs| && InOrder(s, s.rqs[c].queue)
    requires forall p :: p != s.rqs[c].curr ==> Key(s', p) == Key(s, p)
    requires var cur := s.rqs[c].curr; Key(s', cur) == Key(s, cur) || Key(s', cur) == Key(s, cur) + delta
    requires var cur := s.rqs[c].curr; cur in s.rqs[c].queue ==> Key(s', cur) == Key(s, cur) + delta
    ensures InOrder(s', s.rqs[c].queue) <==> !Overtakes(s, c, delta)
  {
    hide Key;
    var q, cur := s.rqs[c].queue, s.rqs[c].curr;
    assert QueueOk(s, c);
    if Overtakes(s, c, delta) {
      var k :| 0 <= k < |q| - 1 && q[k] == cur && Key(s, cur) + delta > Key(s, q[k + 1]);
      assert q[k] in q && q[k + 1] != q[k];
      assert Key(s', q[k]) > Key(s', q[k + 1]);
    } else {
      ChargedInOrder(s, s', q, cur, delta);
    }
  }

  lemma {:induction false} NotQueuedElsewhere(s: Sys, c: nat, d: nat)
    requires Good(s) && c < |s.rqs| && d < |s.rqs| && c != d
    ensures s.rqs[c].curr !in s.rqs[d].queue
  {
    assert CurrOk(s, c) && QueueOk(s, d);
    assert IsIdle(s, s.rqs[c].idle);
  }

  lemma {:induction false} ChargedInOrder(s: Sys, s': Sys, q: seq<nat>, cur: nat, delta: nat)
    requires InOrder(s, q) && NoDuplicates(q) && (Key(s', cur) == Key(s, cur) || Key(s', cur) == Key(s, cur) + delta)
    requires forall p :: p != cur ==> Key(s', p) == Key(s, p)
    requires forall k | 0 <= k < |q| - 1 && q[k] == cur :: Key(s, cur) + delta <= Key(s, q[k + 1])
    ensures InOrder(s', q)
  {
    forall i, j | 0 <= i < j < |q| ensures Key(s', q[i]) <= Key(s', q[j]) {
      if q[i] == cur {
        assert Key(s, q[i + 1]) <= Key(s, q[j]);
      }
    }
  }

  // ---------------------------------------------------------------- all steps

  /** `cur` goes back to its queue. */
  ghost predicate Returns(s: Sys, c: nat)
    requires c < |s.rqs|
  {
    var cur := s.rqs[c].curr;
    cur in s.tasks && s.tasks[cur].state == Running && cur != s.rqs[c].idle && !s.tasks[cur].onRq
  }

  /** At most the front of each queue is taken off. */
  ghost predicate TakenOff(s: Sys, s1: Sys, c: nat) {
    |s1.rqs| == |s.rqs| && c < |s.rqs| && (forall p :: Key(s1, p) == Key(s, p))
    && s1.rqs[c].curr == s.rqs[c].curr && s1.rqs[c].curr in s1.tasks
    && forall d | 0 <= d < |s.rqs| :: QueueTaken(s.rqs[d].queue, s1.rqs[d].queue)
  }

  ghost predicate QueueTaken(q: seq<nat>, q1: seq<nat>) {
    q1 == q || (q != [] && q1 == q[1..])
  }

  /** The current task of `c` may go back to its queue; the other queues stay. */
  ghost predicate PutBackTo(s1: Sys, s': Sys, c: nat, at: nat) {
    |s'.rqs| == |s1.rqs| && c < |s1.rqs| && (forall p :: Key(s', p) == Key(s1, p))
    && (forall d | 0 <= d < |s1.rqs| && d != c :: s'.rqs[d].queue == s1.rqs[d].queue)
    && s'.rqs[c].queue == if Returns(s1, c) then Insert(s1.rqs[c].queue, at, s1.rqs[c].curr) else s1.rqs[c].queue
  }

  /** What becomes of the queues when CPU `c` schedules: somebody is taken off the front of one of them, or
      nobody, and then the current task of `c` may go back to its own. */
  lemma {:induction false} QueuesAfter(s: Sys, c: nat, busy: set<nat>, at: nat)
    requires Good(s) && c < |s.rqs| && !StealsCurrent(s, c, busy)
    ensures Queued(s, c) && Pick(s, c, busy).Chosen? && Schedule(s, c, busy, at).Done?
    ensures TakenOff(s, Pick(s, c, busy).s, c)
    ensures PutBackTo(Pick(s, c, busy).s, Schedule(s, c, busy, at).s, c, at)
  {
    hide Good, Insert, StealsCurrent;
    PickKeeps(s, c, busy);
    ScheduleGood(s, c, busy, at);
    SourceFacts(s, c, busy, 0);
  }

  /** The place given to a task that goes to a queue is where the tree search puts it, as far as the queue
      is in order. */
  ghost predicate Searched(s: Sys, q: seq<nat>, at: nat, key: nat) {
    InOrder(s, q) ==> RightPlace(s, q, at, key)
  }

  ghost predicate StepSearched(s: Sys, step: Step)
    requires Good(s) && Enabled(s, step)
  {
    Ready(s);
    match step
    case Wake(p, at) =>
      s.tasks[p].state != Running && !s.tasks[p].onRq && p != s.rqs[s.tasks[p].cpu].curr
      ==> Searched(s, s.rqs[s.tasks[p].cpu].queue, at, Key(s, p))
    case New(p, c, on, at) => Searched(s, s.rqs[on].queue, at, Key(s, s.rqs[c].curr) + MIN_GRANULARITY)
    case Resched(c, busy, at) =>
      var choice := Pick(s, c, busy);
      choice.Chosen? && c < |choice.s.rqs| && Returns(choice.s, c)
      ==> Searched(s, choice.s.rqs[c].queue, at, Key(s, s.rqs[c].curr))
    case _ => true
  }

  ghost predicate BreaksOrder(s: Sys, step: Step)
    requires Good(s) && Enabled(s, step)
  {
    step.Clock? && Overtakes(s, step.c, step.delta)
  }

  lemma {:induction false} EnqueueOrder(s: Sys, s0: Sys, c: nat, p: nat, at: nat)
    requires AllInOrder(s) && c < |s.rqs| && p in s0.tasks && s0.rqs == s.rqs
    requires (forall x <- s.tasks :: Key(s0, x) == Key(s, x))
    requires (forall d | 0 <= d < |s.rqs| :: forall x <- s.rqs[d].queue :: x in s.tasks)
    requires Searched(s, s.rqs[c].queue, at, Key(s0, p))
    ensures AllInOrder(Enqueue(s0, c, p, at))
  {
    hide Insert;
    var s' := Enqueue(s0, c, p, at);
    forall d | 0 <= d < |s'.rqs| ensures InOrder(s', s'.rqs[d].queue) {
      assert InOrder(s, s.rqs[d].queue);
      SameKeys(s, s', s.rqs[d].queue);
      if d == c {
        PlaceSame(s, s', s.rqs[c].queue, at, Key(s0, p));
        InsertInOrder(s', s.rqs[c].queue, at, p);
      }
    }
  }

  lemma {:induction false} PlaceSame(s: Sys, s': Sys, q: seq<nat>, at: nat, key: nat)
    requires RightPlace(s, q, at, key) && forall p <- q :: Key(s', p) == Key(s, p)
    ensures RightPlace(s', q, at, key)
  {
    assert forall i | 0 <= i < |q| :: q[i] in q;
  }

  lemma {:induction false} StopOrder(s: Sys, p: nat, state: TaskState)
    requires AllInOrder(s) && p in s.tasks && s.tasks[p].cpu < |s.rqs|
    ensures p in OffQueue(s, p).tasks && AllInOrder(SetState(OffQueue(s, p), p, state))
  {
    hide Remove, InOrder;
    var s' := SetState(OffQueue(s, p), p, state);
    assert forall x :: Key(s', x) == Key(s, x);
    forall d | 0 <= d < |s'.rqs| ensures InOrder(s', s'.rqs[d].queue) {
      RemoveInOrder(s, s.rqs[d].queue, p);
      SameKeys(s, s', s'.rqs[d].queue);
    }
  }

  lemma {:induction false} TakenInOrder(s: Sys, q: seq<nat>, q1: seq<nat>)
    requires InOrder(s, q) && QueueTaken(q, q1)
    ensures InOrder(s, q1)
  {
    if q1 != q {
      assert forall i | 0 <= i < |q1| :: q1[i] == q[i + 1];
    }
  }

  lemma {:induction false} ScheduleOrder(s: Sys, c: nat, busy: set<nat>, at: nat)
    requires Good(s) && AllInOrder(s) && c < |s.rqs| && StepSearched(s, Resched(c, busy, at)) && Queued(s, c)
    requires Schedule(s, c, busy, at).Done?
    ensures AllInOrder(Schedule(s, c, busy, at).s)
  {
    hide Good, Insert, Pick, Schedule;
    ScheduleGood(s, c, busy, at);
    QueuesAfter(s, c, busy, at);
    var s1, s' := Pick(s, c, busy).s, Schedule(s, c, busy, at).s;
    forall d | 0 <= d < |s'.rqs| ensures InOrder(s', s'.rqs[d].queue) {
      var q, q1 := s.rqs[d].queue, s1.rqs[d].queue;
      assert InOrder(s, q);
      assert QueueTaken(q, q1);
      TakenInOrder(s, q, q1);
      if d == c && Returns(s1, c) {
        InsertInOrder(s, q1, at, s.rqs[c].curr);
      }
      SameKeys(s, s', s'.rqs[d].queue);
    }
  }

  lemma {:induction false} QueuesKnown(s: Sys)
    requires Good(s)
    ensures forall d | 0 <= d < |s.rqs| :: forall x <- s.rqs[d].queue :: x in s.tasks
  {
    forall d | 0 <= d < |s.rqs| ensures forall x <- s.rqs[d].queue :: x in s.tasks {
      assert QueueOk(s, d);
    }
  }

  /** A step keeps all queues in order exactly if it is not a clock tick in which a queued current task
      overtakes the one behind it. */
  lemma {:induction false} StepOrder(s: Sys, step: Step)
    requires Good(s) && Enabled(s, step) && AllInOrder(s) && StepSearched(s, step) && Apply(s, step).Done?
    ensures AllInOrder(Apply(s, step).s) <==> !BreaksOrder(s, step)
  {
    hide Good, AllInOrder, Insert, Schedule, OffQueue, Pick, SetRunning, Tick, Overtakes, Searched, Returns;
    Ready(s);
    match step
    case Wake(p, at) => WakeOrder(s, p, at);
    case Sleep(p, deep) => StopOrder(s, p, if deep then Uninterruptible else Sleeping);
    case Halt(p) => StopOrder(s, p, Stopped);
    case New(p, c, on, at) => AdmitOrder(s, p, c, on, at);
    case Resched(c, busy, at) => ScheduleOrder(s, c, busy, at);
    case Clock(c, delta) => TickOrder(s, c, delta);
  }

  lemma {:induction false} AdmitOrder(s: Sys, p: nat, c: nat, on: nat, at: nat)
    requires Good(s) && AllInOrder(s) && p !in s.tasks && c < |s.rqs| && on < |s.rqs| && s.rqs[c].curr in s.tasks
    requires Searched(s, s.rqs[on].queue, at, Key(s, s.rqs[c].curr) + MIN_GRANULARITY)
    ensures AllInOrder(Admit(s, p, c, on, at))
  {
    hide Good, AllInOrder, Insert, Searched;
    QueuesKnown(s);
    var t := Task(Running, false, on, s.tasks[s.rqs[c].curr].vruntime + MIN_GRANULARITY);
    EnqueueOrder(s, s.(tasks := s.tasks[p := t]), on, p, at);
  }

  lemma {:induction false} WakeOrder(s: Sys, p: nat, at: nat)
    requires Good(s) && Admitted(s, p) && AllInOrder(s) && StepSearched(s, Wake(p, at))
    ensures s.tasks[p].cpu < |s.rqs| && SetRunning(s, p, s.tasks[p].cpu, at).Done?
    ensures AllInOrder(SetRunning(s, p, s.tasks[p].cpu, at).s)
  {
    hide Good, Insert;
    Ready(s);
    QueuesKnown(s);
    WakeGood(s, p, s.tasks[p].cpu, at);
    var s1 := SetState(s, p, Running);
    if s.tasks[p].state != Running {
      if !s.tasks[p].onRq && p != s.rqs[s.tasks[p].cpu].curr {
        EnqueueOrder(s, s1, s.tasks[p].cpu, p, at);
      } else {
        forall d | 0 <= d < |s.rqs| ensures InOrder(s1, s.rqs[d].queue) {
          SameKeys(s, s1, s.rqs[d].queue);
        }
      }
    }
  }

  // ---------------------------------------------------------------- current tasks off their queues

  ghost predicate CurrsOff(s: Sys) {
    forall c | 0 <= c < |s.rqs| :: s.rqs[c].curr !in s.rqs[c].queue
  }

  /** CPU `c` goes on with its running task, and queues it: it is first in its queue, or it is alone and no
      other CPU has work to give. */
  ghost predicate RequeuesCurr(s: Sys, c: nat, busy: set<nat>)
    requires c < |s.rqs|
  {
    var cur, q := s.rqs[c].curr, s.rqs[c].queue;
    cur in s.tasks && cur != s.rqs[c].idle && s.tasks[cur].state == Running
    && if q != [] then q[0] == cur else Source(s, c, busy, 0) == |s.rqs|
  }

  /** After scheduling, the current task is on its own queue in exactly that case. */
  lemma {:induction false} CurrAfter(s: Sys, c: nat, busy: set<nat>, at: nat)
    requires Good(s) && c < |s.rqs| && Queued(s, c) && Schedule(s, c, busy, at).Done?
    ensures var s' := Schedule(s, c, busy, at).s; s'.rqs[c].curr in s'.rqs[c].queue <==> RequeuesCurr(s, c, busy)
  {
    hide Good, Insert, Remove, StealsCurrent;
    SourceFacts(s, c, busy, 0);
    var d, q, cur := Source(s, c, busy, 0), s.rqs[c].queue, s.rqs[c].curr;
    OwnQueue(s, c);
    if q != [] {
      RemoveFacts(q, q[0]);
      InsertFacts(Remove(q, q[0]), at, cur);
    } else {
      InsertFacts(q, at, cur);
      if d < |s.rqs| {
        OwnQueue(s, d);
        NotQueuedElsewhere(s, c, d);
      }
    }
  }

  lemma {:induction false} OwnQueue(s: Sys, c: nat)
    requires Good(s) && c < |s.rqs|
    ensures NoDuplicates(s.rqs[c].queue) && s.rqs[c].idle !in s.rqs[c].queue && s.rqs[c].curr in s.tasks
    ensures forall p <- s.rqs[c].queue :: p in s.tasks && s.tasks[p].state == Running
    ensures s.rqs[c].curr in s.rqs[c].queue <==> s.tasks[s.rqs[c].curr].onRq
    ensures s.rqs[c].queue != [] ==> s.rqs[c].queue[0] in s.rqs[c].queue
  {
    assert QueueOk(s, c) && CurrOk(s, c) && IsIdle(s, s.rqs[c].idle);
    assert TaskOk(s, s.rqs[c].curr);
    forall p <- s.rqs[c].queue ensures s.tasks[p].state == Running {
      assert TaskOk(s, p);
    }
  }

  ghost predicate Requeues(s: Sys, step: Step)
    requires Enabled(s, step)
  {
    step.Resched? && RequeuesCurr(s, step.c, step.busy)
  }

  /** A step keeps all current tasks off their queues exactly if it is not a CPU going on with its task. */
  lemma {:induction false} StepCurrs(s: Sys, step: Step)
    requires Good(s) && Enabled(s, step) && CurrsOff(s) && Apply(s, step).Done?
    ensures CurrsOff(Apply(s, step).s) <==> !Requeues(s, step)
  {
    hide Good, Insert, Remove;
    Ready(s);
    var s' := Apply(s, step).s;
    match step
    case Wake(p, at) =>
      var q := s.tasks[p].cpu;
      InsertFacts(s.rqs[q].queue, at, p);
    case Sleep(p, deep) => OffCurrs(s, p);
    case Halt(p) => OffCurrs(s, p);
    case New(p, c, on, at) =>
      InsertFacts(s.rqs[on].queue, at, p);
    case Resched(c, busy, at) => ScheduleCurrs(s, c, busy, at);
    case Clock(c, delta) =>
  }

  lemma {:induction false} OffCurrs(s: Sys, p: nat)
    requires Good(s) && Admitted(s, p) && CurrsOff(s)
    ensures s.tasks[p].cpu < |s.rqs| && CurrsOff(OffQueue(s, p))
  {
    hide Remove;
    assert TaskOk(s, p);
    if s.tasks[p].onRq {
      assert QueueOk(s, s.tasks[p].cpu);
      RemoveFacts(s.rqs[s.tasks[p].cpu].queue, p);
    }
  }

  lemma {:induction false} ScheduleCurrs(s: Sys, c: nat, busy: set<nat>, at: nat)
    requires Good(s) && CurrsOff(s) && c < |s.rqs| && Queued(s, c) && Schedule(s, c, busy, at).Done?
    ensures CurrsOff(Schedule(s, c, busy, at).s) <==> !RequeuesCurr(s, c, busy)
  {
    hide Good, RequeuesCurr, Insert, Schedule, Pick;
    CurrAfter(s, c, busy, at);
    ScheduleGood(s, c, busy, at);
    QueuesAfter(s, c, busy, at);
    OthersRun(s, c, busy, at);
    var s1, s' := Pick(s, c, busy).s, Schedule(s, c, busy, at).s;
    forall d | 0 <= d < |s.rqs| && d != c ensures s'.rqs[d].curr !in s'.rqs[d].queue {
      assert QueueTaken(s.rqs[d].queue, s1.rqs[d].queue);
      assert s.rqs[d].curr !in s.rqs[d].queue;
    }
  }

  lemma {:induction false} OthersRun(s: Sys, c: nat, busy: set<nat>, at: nat)
    requires Queued(s, c) && Schedule(s, c, busy, at).Done?
    ensures var s' := Schedule(s, c, busy, at).s;
      |s'.rqs| == |s.rqs| && forall d | 0 <= d < |s.rqs| && d != c :: s'.rqs[d].curr == s.rqs[d].curr
  {
    hide Insert, Remove;
  }

  // ---------------------------------------------------------------- runs

  ghost predicate SearchedStep(s: Sys, step: Step, s': Sys) {
    RunStep(s, step, s') && StepSearched(s, step)
  }

  /** A run in which the tree search does its work: what `Run` leaves open is decided. */
  ghost predicate SearchedRun(steps: seq<Step>, states: seq<Sys>) {
    |states| == |steps| + 1 && forall i | 0 <= i < |steps| :: SearchedStep(states[i], steps[i], states[i + 1])
  }

  ghost predicate OrderKept(s: Sys, step: Step, s': Sys) {
    RunStep(s, step, s') && !BreaksOrder(s, step)
  }

  /** Over a run from the start, all queues are always in order exactly if no step breaks the order. */
  lemma {:induction false} RunOrder(steps: seq<Step>, states: seq<Sys>, n: nat)
    requires SearchedRun(steps, states) && states[0] == Boot(n)
    ensures (forall i | 0 <= i <= |steps| :: AllInOrder(states[i]))
      <==> forall i | 0 <= i < |steps| :: OrderKept(states[i], steps[i], states[i + 1])
  {
    hide Good, AllInOrder, BreaksOrder, StepSearched, Apply, Boot;
    BootInOrder(n);
    forall i | 0 <= i < |steps| && AllInOrder(states[i])
      ensures AllInOrder(states[i + 1]) <==> OrderKept(states[i], steps[i], states[i + 1])
    {
      assert SearchedStep(states[i], steps[i], states[i + 1]);
      StepOrder(states[i], steps[i]);
    }
    if forall i | 0 <= i < |steps| :: OrderKept(states[i], steps[i], states[i + 1]) {
      for k := 0 to |steps|
        invariant forall i | 0 <= i <= k :: AllInOrder(states[i])
      {
        assert OrderKept(states[k], steps[k], states[k + 1]);
      }
    }
  }

  lemma {:induction false} BootInOrder(n: nat)
    ensures AllInOrder(Boot(n)) && CurrsOff(Boot(n))
  {
  }

  ghost predicate CurrsKept(s: Sys, step: Step, s': Sys) {
    RunStep(s, step, s') && !Requeues(s, step)
  }

  /** Over a run from the start, no current task is ever on its queue exactly if no CPU ever goes on with a
      task. */
  lemma {:induction false} RunCurrs(steps: seq<Step>, states: seq<Sys>, n: nat)
    requires Run(steps, states) && states[0] == Boot(n)
    ensures (forall i | 0 <= i <= |steps| :: CurrsOff(states[i]))
      <==> forall i | 0 <= i < |steps| :: CurrsKept(states[i], steps[i], states[i + 1])
  {
    hide Good, CurrsOff, Requeues, Apply, Boot;
    BootInOrder(n);
    forall i | 0 <= i < |steps| && CurrsOff(states[i])
      ensures CurrsOff(states[i + 1]) <==> CurrsKept(states[i], steps[i], states[i + 1])
    {
      assert RunStep(states[i], steps[i], states[i + 1]);
      StepCurrs(states[i], steps[i]);
    }
    if forall i | 0 <= i < |steps| :: CurrsKept(states[i], steps[i], states[i + 1]) {
      for k := 0 to |steps|
        invariant forall i | 0 <= i <= k :: CurrsOff(states[i])
      {
        assert CurrsKept(states[k], steps[k], states[k + 1]);
      }
    }
  }
}

/** What the scheduler's runs do and do not promise. */
module SchedFacts {
  import opened Common
  import opened SchedState
  import opened SchedSteps
  import opened SchedRuns
  import opened SchedOrder

  /** A CPU goes idle only if its own queue was empty and every other CPU whose lock it got had at most
      one task queued; and never away from a task that still runs. */
  lemma {:induction false} IdleOnlyWithoutWork(s: Sys, c: nat, busy: set<nat>, at: nat)
    requires Good(s) && c < |s.rqs| && Queued(s, c) && Schedule(s, c, busy, at).Done?
    requires Schedule(s, c, busy, at).s.rqs[c].curr == s.rqs[c].idle
    ensures s.rqs[c].queue == []
    ensures forall d: nat | d < |s.rqs| && d != c && d !in busy :: s.rqs[d].nrRunning <= 1
    ensures s.rqs[c].curr == s.rqs[c].idle || s.tasks[s.rqs[c].curr].state != Running
  {
    hide Good, Remove, Insert;
    PickKeeps(s, c, busy);
    QueueFacts(s, c);
    SourceFacts(s, c, busy, 0);
    var d := Source(s, c, busy, 0);
    if d < |s.rqs| {
      QueueFacts(s, d);
      if s.rqs[c].queue == [] {
        DequeuedNotIdle(s, c, d);
      }
    }
    forall e: nat | e < |s.rqs| && e != c && e !in busy ensures s.rqs[c].queue == [] ==> s.rqs[e].nrRunning <= 1 {
      QueueFacts(s, e);
    }
  }

  lemma {:induction false} DequeuedNotIdle(s: Sys, c: nat, d: nat)
    requires Good(s) && c < |s.rqs| && d < |s.rqs| && s.rqs[d].queue != []
    ensures s.rqs[d].queue[0] != s.rqs[c].idle
  {
    assert QueueOk(s, d) && s.rqs[d].queue[0] in s.rqs[d].queue;
    assert IsIdle(s, s.rqs[c].idle);
  }

  /** `p` has come from the front of another CPU's queue to run on `c`, which had nothing to do. */
  ghost predicate Migrated(s: Sys, s': Sys, c: nat, p: nat) {
    p in s.tasks && p in s'.tasks && c < |s.rqs| && c < |s'.rqs| && s.tasks[p].cpu < |s.rqs|
    && s'.tasks[p].cpu == c && s'.rqs[c].curr == p && s.rqs[c].queue == []
    && s.rqs[s.tasks[p].cpu].queue != [] && s.rqs[s.tasks[p].cpu].queue[0] == p
  }

  /** Scheduling neither stops nor wakes anyone: only who runs and who waits changes, and at most one
      task changes CPU, to the one that schedules. */
  lemma {:induction false} ScheduleMovesOnly(s: Sys, c: nat, busy: set<nat>, at: nat, p: nat)
    requires Good(s) && c < |s.rqs| && Queued(s, c) && Schedule(s, c, busy, at).Done? && p in s.tasks
    ensures var s' := Schedule(s, c, busy, at).s;
      p in s'.tasks && s'.tasks[p].state == s.tasks[p].state && s'.tasks[p].vruntime == s.tasks[p].vruntime
      && (s'.tasks[p].cpu == s.tasks[p].cpu || Migrated(s, s', c, p))
  {
    hide Good, Remove, Insert;
    SourceFacts(s, c, busy, 0);
    var d := Source(s, c, busy, 0);
    if s.rqs[c].queue == [] && d < |s.rqs| {
      QueueCpu(s, d);
    }
  }

  lemma {:induction false} QueueCpu(s: Sys, d: nat)
    requires Good(s) && d < |s.rqs| && s.rqs[d].queue != []
    ensures s.rqs[d].queue[0] in s.tasks && s.tasks[s.rqs[d].queue[0]].cpu == d
  {
    assert QueueOk(s, d) && s.rqs[d].queue[0] in s.rqs[d].queue;
  }

  // ---------------------------------------------------------------- a CPU read too early

  /** Waking through the run queue of a CPU read earlier is right exactly if the task is still on that
      CPU, or is running already. */
  lemma {:induction false} StaleWake(s: Sys, p: nat, q: nat, at: nat)
    requires Good(s) && Admitted(s, p) && q < |s.rqs|
    ensures SetRunning(s, p, q, at).Done?
    ensures Good(SetRunning(s, p, q, at).s) <==> q == s.tasks[p].cpu || s.tasks[p].state == Running
  {
    hide Insert;
    Ready(s);
    assert TaskOk(s, p);
    if q == s.tasks[p].cpu {
      WakeGood(s, p, q, at);
    } else if s.tasks[p].state != Running {
      assert CurrOk(s, q) && IsIdle(s, s.rqs[q].idle);
      InsertFacts(s.rqs[q].queue, at, p);
      var s' := SetRunning(s, p, q, at).s;
      assert p in s'.rqs[q].queue && s'.tasks[p].cpu != q;
      assert !QueueOk(s', q);
    }
  }

  /** `s'` is what erasing `p` through the run queue of CPU `q` leaves. On the task's own CPU it is off the
      queue. Otherwise that queue's count goes down, and whatever the erasure does to the trees may be so. */
  ghost predicate ErasedThrough(s: Sys, s': Sys, p: nat, q: nat)
    requires p in s.tasks && s.tasks[p].cpu < |s.rqs| && q < |s.rqs|
  {
    if q == s.tasks[p].cpu then s' == OffQueue(s, p)
    else
      s'.tasks == s.tasks[p := s.tasks[p].(onRq := false)] && |s'.rqs| == |s.rqs|
      && forall d | 0 <= d < |s.rqs| ::
        s'.rqs[d] == s.rqs[d].(queue := s'.rqs[d].queue, nrRunning := CountLeft(s, d, q))
  }

  /** The count is a 32-bit number. */
  function CountLeft(s: Sys, d: nat, q: nat): nat
    requires d < |s.rqs|
  {
    if d != q then s.rqs[d].nrRunning else if s.rqs[d].nrRunning > 0 then s.rqs[d].nrRunning - 1 else 0xFFFF_FFFF
  }

  ghost predicate TakenThrough(s: Sys, s': Sys, p: nat, q: nat)
    requires p in s.tasks && s.tasks[p].cpu < |s.rqs| && q < |s.rqs|
  {
    if s.tasks[p].onRq then ErasedThrough(s, s', p, q) else s' == s
  }

  /** Stopping a task through the run queue of a CPU read earlier is right exactly if the task is still on
      that CPU, or on no queue. */
  lemma {:induction false} StaleStop(s: Sys, s1: Sys, p: nat, q: nat)
    requires Good(s) && Admitted(s, p) && q < |s.rqs| && s.tasks[p].cpu < |s.rqs| && TakenThrough(s, s1, p, q)
    ensures p in s1.tasks && (Good(SetState(s1, p, Stopped)) <==> q == s.tasks[p].cpu || !s.tasks[p].onRq)
  {
    StaleOff(s, s1, p, q, Stopped);
  }

  /** So is putting it to sleep, which only happens to a running task. */
  lemma {:induction false} StaleBlock(s: Sys, s1: Sys, p: nat, q: nat, deep: bool)
    requires Good(s) && Admitted(s, p) && q < |s.rqs| && s.tasks[p].cpu < |s.rqs| && TakenThrough(s, s1, p, q)
    ensures p in s1.tasks
    ensures var state := if deep then Uninterruptible else Sleeping;
      var s' := if s.tasks[p].state == Running then SetState(s1, p, state) else s;
      Good(s') <==> q == s.tasks[p].cpu || !s.tasks[p].onRq
  {
    assert TaskOk(s, p);
    StaleOff(s, s1, p, q, if deep then Uninterruptible else Sleeping);
  }

  lemma {:induction false} StaleOff(s: Sys, s1: Sys, p: nat, q: nat, state: TaskState)
    requires Good(s) && Admitted(s, p) && q < |s.rqs| && s.tasks[p].cpu < |s.rqs| && TakenThrough(s, s1, p, q)
    requires state != Running && state != Zombie
    ensures p in s1.tasks && (Good(SetState(s1, p, state)) <==> q == s.tasks[p].cpu || !s.tasks[p].onRq)
  {
    hide Good, Remove;
    if !s.tasks[p].onRq || q == s.tasks[p].cpu {
      StopsGood(s, p, state);
    } else if Good(SetState(s1, p, state)) {
      OneTooMany(s, SetState(s1, p, state), p);
    }
  }

  /** A task that leaves its queue without being counted off makes the count wrong, whatever the queues. */
  lemma {:induction false} OneTooMany(s: Sys, s': Sys, p: nat)
    requires Good(s) && Admitted(s, p) && s.tasks[p].onRq && s.tasks[p].cpu < |s.rqs| == |s'.rqs|
    requires p in s'.tasks && s'.tasks == s.tasks[p := s'.tasks[p]] && !s'.tasks[p].onRq
    requires s'.tasks[p].cpu == s.tasks[p].cpu
    requires s'.rqs[s.tasks[p].cpu].nrRunning == s.rqs[s.tasks[p].cpu].nrRunning
    ensures !Good(s')
  {
    if Good(s') {
      var c := s.tasks[p].cpu;
      var q, q' := s.rqs[c].queue, s'.rqs[c].queue;
      QueuedTasks(s, c);
      QueuedTasks(s', c);
      forall x ensures x in SetOf(q) <==> x in SetOf(q') || x == p {
        assert x in s.tasks && x != p ==> (x in q <==> x in q') by {
          QueuedTask(s, s', x, c);
        }
      }
      assert SetOf(q) == SetOf(q') + {p} && p !in SetOf(q');
      SetOfSize(q);
      SetOfSize(q');
    }
  }

  lemma {:induction false} QueuedTasks(s: Sys, c: nat)
    requires Good(s) && c < |s.rqs|
    ensures NoDuplicates(s.rqs[c].queue) && s.rqs[c].nrRunning == |s.rqs[c].queue|
    ensures forall x <- s.rqs[c].queue :: x in s.tasks && s.tasks[x].onRq && s.tasks[x].cpu == c
    ensures forall x <- s.tasks :: s.tasks[x].onRq && s.tasks[x].cpu == c ==> x in s.rqs[c].queue
  {
    assert QueueOk(s, c);
    forall x <- s.tasks ensures s.tasks[x].onRq && s.tasks[x].cpu == c ==> x in s.rqs[c].queue {
      assert TaskOk(s, x);
    }
  }

  lemma {:induction false} QueuedTask(s: Sys, s': Sys, x: nat, c: nat)
    requires Good(s) && Good(s') && c < |s.rqs| && c < |s'.rqs|
    ensures x in s.tasks && x in s'.tasks && s'.tasks[x] == s.tasks[x] ==>
      (x in s.rqs[c].queue <==> x in s'.rqs[c].queue)
  {
    QueuedTasks(s, c);
    QueuedTasks(s', c);
  }

  // ---------------------------------------------------------------- runs that go wrong

  function Two(curr0: nat, queue0: seq<nat>, curr1: nat, queue1: seq<nat>, tasks: map<nat, Task>): Sys {
    Sys([Rq(curr0, 0, |queue0|, queue0), Rq(curr1, 1, |queue1|, queue1)], tasks)
  }

  function Known(a: Task, b: Task): map<nat, Task> {
    map[0 := IdleTask(0), 1 := IdleTask(1), 10 := a, 11 := b]
  }

  function Young(a: Task): map<nat, Task> {
    map[0 := IdleTask(0), 1 := IdleTask(1), 10 := a]
  }

  lemma {:induction false} FirstAdmitted()
    ensures Admit(Boot(2), 10, 0, 0, 0) == Two(0, [10], 1, [], Young(Task(Running, true, 0, 2)))
  {
    assert Insert([], 0, 10) == [10];
  }

  /** The CPUs' first steps: a task arrives on CPU 0. */
  lemma {:induction false} FirstTask() returns (s: Sys)
    ensures s == Two(0, [10], 1, [], Young(Task(Running, true, 0, 2))) && Leads(Boot(2), s) && Good(s)
  {
    hide Good, Leads, Insert, Admit;
    s := Two(0, [10], 1, [], Young(Task(Running, true, 0, 2)));
    BootGood(2);
    Stays(Boot(2));
    FirstAdmitted();
    LeadsOn(Boot(2), Boot(2), New(10, 0, 0, 0), s);
  }

  /** It runs there alone; scheduled again, it is queued while it is current. */
  lemma {:induction false} QueuedWhileCurrent() returns (s: Sys)
    ensures s == Two(10, [10], 1, [], Young(Task(Running, true, 0, 2))) && Leads(Boot(2), s) && Good(s)
  {
    hide Good, Leads;
    var s1 := FirstTask();
    var s2 := Two(10, [], 1, [], Young(Task(Running, false, 0, 2)));
    assert Remove([10], 10) == [] && Insert([], 0, 10) == [10];
    assert Queued(s1, 0) && Schedule(s1, 0, {}, 0) == Done(s2);
    LeadsOn(Boot(2), s1, Resched(0, {}, 0), s2);
    s := Two(10, [10], 1, [], Young(Task(Running, true, 0, 2)));
    SourceFacts(s2, 0, {}, 0);
    assert Queued(s2, 0) && Schedule(s2, 0, {}, 0) == Done(s);
    LeadsOn(Boot(2), s2, Resched(0, {}, 0), s);
  }

  /** A second task arrives behind it. */
  lemma {:induction false} SecondTask() returns (s: Sys)
    ensures s == Two(10, [10, 11], 1, [], Known(Task(Running, true, 0, 2), Task(Running, true, 0, 4)))
    ensures Leads(Boot(2), s) && Good(s)
  {
    hide Good, Leads;
    var s1 := QueuedWhileCurrent();
    s := Two(10, [10, 11], 1, [], Known(Task(Running, true, 0, 2), Task(Running, true, 0, 4)));
    assert Insert([10], 1, 11) == [10, 11];
    assert Admit(s1, 11, 0, 0, 1) == s;
    LeadsOn(Boot(2), s1, New(11, 0, 0, 1), s);
  }

  /** The check that a stolen task is not the current one of its CPU can fail: from the start a state can
      be reached in which an idle CPU that looks for work brings the machine down. */
  lemma {:induction false} PanicReachable()
    ensures exists s ::
      Leads(Boot(2), s) && Good(s) && |s.rqs| == 2 && Queued(s, 1) && Schedule(s, 1, {}, 0) == Panicked
  {
    hide Good, Leads, Schedule;
    var s := SecondTask();
    SourceFacts(s, 1, {}, 0);
    ScheduleGood(s, 1, {}, 0);
    assert Schedule(s, 1, {}, 0) == Panicked;
  }

  /** A run queue need not be in the order of its keys: the clock charges a task that is queued. */
  lemma {:induction false} QueueOutOfOrder()
    ensures exists s :: Leads(Boot(2), s) && Good(s) && !AllInOrder(s)
  {
    hide Good, Leads;
    var s1 := SecondTask();
    var s := Two(10, [10, 11], 1, [], Known(Task(Running, true, 0, 7), Task(Running, true, 0, 4)));
    assert Tick(s1, 0, 5) == s;
    LeadsOn(Boot(2), s1, Clock(0, 5), s);
    assert s.rqs[0].queue == [10, 11];
    assert Key(s, s.rqs[0].queue[0]) > Key(s, s.rqs[0].queue[1]);
  }

  /** A wake-up that read CPU 0 before task 10 migrated to CPU 1 and blocked there puts it back on CPU 0's
      queue; once CPU 0 schedules, both CPUs run it. */
  ghost predicate RunTwice(early: Sys, late: Sys) {
    Leads(Boot(2), early) && 10 in early.tasks && early.tasks[10].cpu == 0 && Leads(early, late) && Good(late)
    && |late.rqs| == 2
    && 10 in late.tasks && late.tasks[10].cpu == 1 && var woken := SetRunning(late, 10, early.tasks[10].cpu, 0);
       woken.Done? && Queued(woken.s, 0) && var run := Schedule(woken.s, 0, {}, 0);
       run.Done? && run.s.rqs[0].curr == 10 && run.s.rqs[1].curr == 10
  }

  lemma {:induction false} StaleWakeRunsTwice()
    ensures exists early, late :: RunTwice(early, late)
  {
    hide Good, Leads;
    var s1 := FirstTask();
    var early := Two(0, [10, 11], 1, [], Known(Task(Running, true, 0, 2), Task(Running, true, 0, 2)));
    assert Insert([10], 1, 11) == [10, 11];
    assert Admit(s1, 11, 0, 0, 1) == early;
    LeadsOn(Boot(2), s1, New(11, 0, 0, 1), early);
    var late := Stolen(early);
    var woken := Two(0, [10, 11], 10, [], Known(Task(Running, true, 1, 2), Task(Running, true, 0, 2)));
    assert Insert([11], 0, 10) == [10, 11];
    assert SetRunning(late, 10, 0, 0) == Done(woken);
    assert Remove([10, 11], 10) == [11];
    assert Queued(woken, 0);
    assert RunTwice(early, late);
  }

  lemma {:induction false} Stolen(early: Sys) returns (late: Sys)
    requires early == Two(0, [10, 11], 1, [], Known(Task(Running, true, 0, 2), Task(Running, true, 0, 2)))
    requires Good(early)
    ensures late == Two(0, [11], 10, [], Known(Task(Sleeping, false, 1, 2), Task(Running, true, 0, 2)))
    ensures Leads(early, late) && Good(late)
  {
    hide Good, Leads;
    Stays(early);
    var s := Two(0, [11], 10, [], Known(Task(Running, false, 1, 2), Task(Running, true, 0, 2)));
    SourceFacts(early, 1, {}, 0);
    assert Remove([10, 11], 10) == [11];
    assert Queued(early, 1) && Schedule(early, 1, {}, 0) == Done(s);
    LeadsOn(early, early, Resched(1, {}, 0), s);
    late := Two(0, [11], 10, [], Known(Task(Sleeping, false, 1, 2), Task(Running, true, 0, 2)));
    assert Block(s, 10, Sleeping) == late;
    LeadsOn(early, s, Sleep(10, false), late);
  }
}

/** Wake-ups, waiter records, and waiters nobody looks after. */
module MutexFacts {
  import opened Mutex

  // ---------------------------------------------------------------- no wake-up is lost

  /** Some task is about to wake `t`. */
  ghost predicate Coming(s: Mtx, t: nat) {
    exists u <- s.pc :: s.pc[u] == Passing(t) || s.pc[u] == Waking(t)
  }

  ghost predicate WakeOk(s: Mtx, t: nat)
    requires t in s.pc
  {
    s.owner == t && s.pc[t] == Parked ==> t in s.awake || Coming(s, t)
  }

  lemma {:induction false} DoWakes(s: Mtx, t: nat, x: nat)
    requires Good(s) && t in s.pc && Do(s, t).Moves? && x in s.pc && WakeOk(s, x)
    ensures WakeOk(Do(s, t).s, x)
  {
    hide Good;
    var s' := Do(s, t).s;
    TaskFacts(s, x);
    TaskFacts(s, t);
    if s'.owner == x && s'.pc[x] == Parked && x !in s'.awake {
      if s.owner == x && s.pc[x] == Parked {
        var u :| u in s.pc && (s.pc[u] == Passing(x) || s.pc[u] == Waking(x));
        assert u in s'.pc;
      } else {
        assert s'.pc[t] == Passing(x);
      }
    }
  }

  lemma {:induction false} TaskFacts(s: Mtx, t: nat)
    requires Good(s) && t in s.pc
    ensures TaskOk(s, t)
  {
  }

  /** In every run a task that has been handed the mutex while it slept is awake, or some task is about to
      wake it. */
  lemma {:induction false} NoLostWakeUp(steps: seq<Step>, states: seq<Mtx>, tasks: set<nat>, i: nat, x: nat)
    requires Run(steps, states) && states[0] == Fresh(tasks) && i <= |steps| && x in tasks
    ensures x in states[i].pc && WakeOk(states[i], x)
    decreases i
  {
    hide Good, Do;
    if i > 0 {
      NoLostWakeUp(steps, states, tasks, i - 1, x);
      RunGood(steps, states, tasks, i - 1);
      var s, s' := states[i - 1], states[i];
      assert Takes(s, steps[i - 1], states[i - 1 + 1]);
      match steps[i - 1]
      case Access(t) =>
        DoWakes(s, t, x);
        DoKnows(s, t);
      case WakeUp(t) =>
        assert s'.pc == s.pc;
    }
  }

  lemma {:induction false} DoKnows(s: Mtx, t: nat)
    requires t in s.pc && Do(s, t).Moves?
    ensures Do(s, t).s.pc.Keys == s.pc.Keys
  {
  }

  // ---------------------------------------------------------------- the waiter's record

  predicate Hands(pc: Pc) {
    pc.Passing? || pc.Waking?
  }

  /** Whoever is about to read the record of `w`, a variable of `w`'s own slow path, finds `w` still there. */
  ghost predicate RecordOk(s: Mtx, u: nat)
    requires u in s.pc
  {
    Hands(s.pc[u]) ==>
      s.owner == s.pc[u].w && s.pc[u].w in s.pc && s.pc[s.pc[u].w] == Parked && s.pc[u].w !in s.awake
  }

  ghost predicate AsleepOk(s: Mtx, t: nat)
    requires t in s.pc
  {
    s.pc[t] == Check || (s.pc[t] == Parked && t in s.waiters) ==> t !in s.awake
  }

  ghost predicate Undisturbed(s: Mtx) {
    (forall t <- s.pc :: RecordOk(s, t) && AsleepOk(s, t))
    && forall t <- s.pc, u <- s.pc :: Hands(s.pc[t]) && Hands(s.pc[u]) ==> t == u
  }

  lemma {:induction false} DoUndisturbed(s: Mtx, t: nat)
    requires Good(s) && Undisturbed(s) && t in s.pc && Do(s, t).Moves?
    ensures Undisturbed(Do(s, t).s)
  {
    hide Good;
    var s' := Do(s, t).s;
    TaskFacts(s, t);
    assert RecordOk(s, t) && AsleepOk(s, t);
    if s.pc[t] == Unlocking && s.waiters != [] {
      FirstWaiter(s, t);
    }
    forall u <- s'.pc ensures RecordOk(s', u) && AsleepOk(s', u) {
      TaskFacts(s, u);
      assert RecordOk(s, u) && AsleepOk(s, u);
    }
  }

  /** The first waiter sleeps, and nobody else is handing the mutex over. */
  lemma {:induction false} FirstWaiter(s: Mtx, t: nat)
    requires Good(s) && Undisturbed(s) && t in s.pc && s.pc[t] == Unlocking && s.waiters != []
    ensures var w := s.waiters[0]; w in s.pc && s.pc[w] == Parked && w !in s.awake && w != t && s.owner == t
    ensures forall u <- s.pc :: !Hands(s.pc[u])
  {
    var w := s.waiters[0];
    assert w in s.waiters;
    assert TaskOk(s, w) && AsleepOk(s, w) && TaskOk(s, t);
    forall u <- s.pc ensures !Hands(s.pc[u]) {
      assert RecordOk(s, u);
    }
  }

  /** Unless something else wakes a waiting task, the record an unlocker reads after it has released the
      wait lock is always still alive. */
  lemma {:induction false} RecordAlive(steps: seq<Step>, states: seq<Mtx>, tasks: set<nat>, i: nat)
    requires Run(steps, states) && states[0] == Fresh(tasks) && i <= |steps| && forall step <- steps :: step.Access?
    ensures Undisturbed(states[i])
    decreases i
  {
    hide Good, Do;
    if i > 0 {
      RecordAlive(steps, states, tasks, i - 1);
      RunGood(steps, states, tasks, i - 1);
      assert Takes(states[i - 1], steps[i - 1], states[i - 1 + 1]) && steps[i - 1] in steps;
      DoUndisturbed(states[i - 1], steps[i - 1].t);
    } else {
      NobodyWaits(tasks);
    }
  }

  lemma {:induction false} NobodyWaits(tasks: set<nat>)
    ensures Undisturbed(Fresh(tasks))
  {
  }

  /** The record of every task that is about to be woken is alive: the task is still in its slow path. */
  ghost predicate RecordsAlive(s: Mtx) {
    forall u <- s.pc :: Hands(s.pc[u]) ==> s.pc[u].w in s.pc && InSlowPath(s.pc[s.pc[u].w])
  }

  /** The new owner is about to return from its slow path while another task is still to wake it. */
  ghost predicate LeavesEarly(s: Mtx, t: nat)
    requires t in s.pc
  {
    s.pc[t] == Check && s.owner == t && exists u <- s.pc :: s.pc[u] == Waking(t)
  }

  /** A record is lost in exactly one way: the waiter leaves before it is woken. */
  lemma {:induction false} RecordLost(s: Mtx, t: nat)
    requires Good(s) && RecordsAlive(s) && t in s.pc && Do(s, t).Moves?
    ensures RecordsAlive(Do(s, t).s) <==> !LeavesEarly(s, t)
  {
    hide Good;
    var s' := Do(s, t).s;
    TaskFacts(s, t);
    if LeavesEarly(s, t) {
      var u :| u in s.pc && s.pc[u] == Waking(t);
      assert s'.pc[u] == Waking(t) && s'.pc[t] == Holding;
    } else {
      if s.pc[t] == Unlocking && s.waiters != [] {
        WaiterParked(s, t);
      }
      forall u <- s'.pc ensures Hands(s'.pc[u]) ==> s'.pc[u].w in s'.pc && InSlowPath(s'.pc[s'.pc[u].w]) {
        TaskFacts(s, u);
      }
    }
  }

  lemma {:induction false} WaiterParked(s: Mtx, t: nat)
    requires Good(s) && t in s.pc && s.pc[t] == Unlocking && s.waiters != []
    ensures s.waiters[0] in s.pc && s.pc[s.waiters[0]] == Parked && s.waiters[0] != t
  {
    var w := s.waiters[0];
    assert w in s.waiters;
    assert TaskOk(s, w) && TaskOk(s, t);
  }

  ghost predicate WaitedFor(s: Mtx, step: Step, s': Mtx) {
    Takes(s, step, s') && !(step.Access? && LeavesEarly(s, step.t))
  }

  /** Over every run, with wake-ups from elsewhere at any time, every record is alive whenever it may be read
      exactly if no waiter ever leaves before it is woken. */
  lemma {:induction false} RunAlive(steps: seq<Step>, states: seq<Mtx>, tasks: set<nat>)
    requires Run(steps, states) && states[0] == Fresh(tasks)
    ensures (forall i | 0 <= i <= |steps| :: RecordsAlive(states[i]))
      <==> forall i | 0 <= i < |steps| :: WaitedFor(states[i], steps[i], states[i + 1])
  {
    hide Good, Do, RecordsAlive, LeavesEarly;
    NoRecords(tasks);
    forall i | 0 <= i < |steps| && RecordsAlive(states[i])
      ensures RecordsAlive(states[i + 1]) <==> WaitedFor(states[i], steps[i], states[i + 1])
    {
      RunGood(steps, states, tasks, i);
      assert Takes(states[i], steps[i], states[i + 1]);
      match steps[i]
      case Access(t) => RecordLost(states[i], t);
      case WakeUp(t) => StillAlive(states[i], t);
    }
    if forall i | 0 <= i < |steps| :: WaitedFor(states[i], steps[i], states[i + 1]) {
      for k := 0 to |steps|
        invariant forall i | 0 <= i <= k :: RecordsAlive(states[i])
      {
        assert WaitedFor(states[k], steps[k], states[k + 1]);
      }
    }
  }

  lemma {:induction false} NoRecords(tasks: set<nat>)
    ensures RecordsAlive(Fresh(tasks))
  {
  }

  lemma {:induction false} StillAlive(s: Mtx, t: nat)
    requires RecordsAlive(s)
    ensures RecordsAlive(Disturb(s, t))
  {
  }

  // ---------------------------------------------------------------- stranded waiters

  /** Tasks queue for a mutex that nobody owns. */
  predicate Stranded(s: Mtx) {
    s.owner == -1 && s.waiters != []
  }

  /** That comes about in exactly one way: by joining the waiters after the owner has been cleared. */
  lemma {:induction false} StrandedHow(s: Mtx, t: nat)
    requires Good(s) && t in s.pc && Do(s, t).Moves? && !Stranded(s)
    ensures Stranded(Do(s, t).s) <==> s.pc[t] == WantWait && s.owner == -1
  {
    assert TaskOk(s, t);
  }

  /** Then, as long as no other task takes and releases the mutex, whatever wakes the waiter, it waits. */
  lemma {:induction false} StrandedStays(steps: seq<Step>, states: seq<Mtx>, t: nat, i: nat)
    requires Run(steps, states) && i <= |steps| && states[0].owner == -1 && t in states[0].pc
    requires InSlowPath(states[0].pc[t])
    requires forall step <- steps :: step.WakeUp? || step.t == t
    ensures states[i].owner == -1 && t in states[i].pc && InSlowPath(states[i].pc[t])
    decreases i
  {
    if i > 0 {
      StrandedStays(steps, states, t, i - 1);
      assert Takes(states[i - 1], steps[i - 1], states[i - 1 + 1]) && steps[i - 1] in steps;
    }
  }

  // ---------------------------------------------------------------- runs

  /** Some run leads from `s` to `s'`. */
  ghost predicate Leads(s: Mtx, s': Mtx) {
    exists steps: seq<Step>, states: seq<Mtx> :: Run(steps, states) && states[0] == s && states[|steps|] == s'
  }

  lemma {:induction false} Stays(s: Mtx)
    ensures Leads(s, s)
  {
    assert Run([], [s]);
  }

  lemma {:induction false} LeadsOn(s: Mtx, s1: Mtx, step: Step, s2: Mtx)
    requires Leads(s, s1) && Takes(s1, step, s2)
    ensures Leads(s, s2)
  {
    hide Do;
    var steps: seq<Step>, states: seq<Mtx> :| Run(steps, states) && states[0] == s && states[|steps|] == s1;
    var steps', states' := steps + [step], states + [s2];
    forall i | 0 <= i < |steps'| ensures Takes(states'[i], steps'[i], states'[i + 1]) {
      assert i < |steps| ==> Takes(states[i], steps[i], states[i + 1]);
    }
    assert Run(steps', states');
  }

  function Pair(owner: int, lock: int, waiters: seq<nat>, one: Pc, two: Pc, awake: set<nat>, arrivals: seq<nat>,
                handed: seq<nat>): Mtx {
    Mtx(owner, lock, waiters, map[1 := one, 2 := two], awake, arrivals, handed)
  }

  /** Task 1 has the mutex and task 2 has missed it. */
  lemma {:induction false} Contended() returns (s: Mtx)
    ensures s == Pair(1, -1, [], Holding, WantWait, {1, 2}, [], []) && Leads(Fresh({1, 2}), s)
  {
    hide Leads;
    var s0 := Fresh({1, 2});
    assert s0 == Pair(-1, -1, [], Out, Out, {1, 2}, [], []);
    Stays(s0);
    var s1 := Pair(1, -1, [], Holding, Out, {1, 2}, [], []);
    LeadsOn(s0, s0, Access(1), s1);
    s := Pair(1, -1, [], Holding, WantWait, {1, 2}, [], []);
    LeadsOn(s0, s1, Access(2), s);
  }

  /** Task 1 leaves before task 2 has queued. */
  lemma {:induction false} LeftAlone() returns (s: Mtx)
    ensures s == Pair(-1, -1, [], Out, WantWait, {1, 2}, [], []) && Leads(Fresh({1, 2}), s)
  {
    hide Leads;
    var s0 := Fresh({1, 2});
    var s1 := Contended();
    var s2 := Pair(1, -1, [], WantUnlock, WantWait, {1, 2}, [], []);
    LeadsOn(s0, s1, Access(1), s2);
    var s3 := Pair(1, 1, [], Unlocking, WantWait, {1, 2}, [], []);
    LeadsOn(s0, s2, Access(1), s3);
    var s4 := Pair(-1, 1, [], Cleared, WantWait, {1, 2}, [], []);
    LeadsOn(s0, s3, Access(1), s4);
    s := Pair(-1, -1, [], Out, WantWait, {1, 2}, [], []);
    LeadsOn(s0, s4, Access(1), s);
  }

  /** A task can be left asleep in the queue of a mutex that all others have left. */
  lemma {:induction false} StrandedReachable()
    ensures exists s :: Leads(Fresh({1, 2}), s) && Stranded(s) && s.pc == map[1 := Out, 2 := Parked] && 2 !in s.awake
  {
    hide Leads;
    var s0 := Fresh({1, 2});
    var s1 := LeftAlone();
    var s2 := Pair(-1, 2, [2], Out, Check, {1}, [2], []);
    LeadsOn(s0, s1, Access(2), s2);
    var s3 := Pair(-1, -1, [2], Out, Parked, {1}, [2], []);
    LeadsOn(s0, s2, Access(2), s3);
    assert s3.pc == map[1 := Out, 2 := Parked];
  }

  /** Task 2 queues and task 1 comes to unlock. */
  lemma {:induction false} ToHandOver() returns (s: Mtx)
    ensures s == Pair(1, 1, [2], Unlocking, Parked, {1}, [2], []) && Leads(Fresh({1, 2}), s)
  {
    hide Leads;
    var s0 := Fresh({1, 2});
    var s1 := Contended();
    var s2 := Pair(1, 2, [2], Holding, Check, {1}, [2], []);
    LeadsOn(s0, s1, Access(2), s2);
    var s3 := Pair(1, -1, [2], Holding, Parked, {1}, [2], []);
    LeadsOn(s0, s2, Access(2), s3);
    var s4 := Pair(1, -1, [2], WantUnlock, Parked, {1}, [2], []);
    LeadsOn(s0, s3, Access(1), s4);
    s := Pair(1, 1, [2], Unlocking, Parked, {1}, [2], []);
    LeadsOn(s0, s4, Access(1), s);
  }

  /** With a wake-up from elsewhere the waiter can have returned from `mutex_lock`, its record gone, when
      the unlocker is about to read that record. */
  lemma {:induction false} RecordGone()
    ensures exists s :: Leads(Fresh({1, 2}), s) && s.pc == map[1 := Waking(2), 2 := Holding]
  {
    hide Leads;
    var s0 := Fresh({1, 2});
    var s1 := ToHandOver();
    var s2 := Pair(2, 1, [2], Passing(2), Parked, {1}, [2], []);
    LeadsOn(s0, s1, Access(1), s2);
    var s3 := Pair(2, -1, [], Waking(2), Parked, {1}, [2], [2]);
    LeadsOn(s0, s2, Access(1), s3);
    var s4 := Pair(2, -1, [], Waking(2), Parked, {1, 2}, [2], [2]);
    LeadsOn(s0, s3, WakeUp(2), s4);
    var s5 := Pair(2, 2, [], Waking(2), Check, {1}, [2], [2]);
    LeadsOn(s0, s4, Access(2), s5);
    var s6 := Pair(2, -1, [], Waking(2), Holding, {1, 2}, [2], [2]);
    LeadsOn(s0, s5, Access(2), s6);
    assert s6.pc == map[1 := Waking(2), 2 := Holding];
  }
}

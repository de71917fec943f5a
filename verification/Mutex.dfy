/** The sleeping mutex: every task runs `mutex_lock` and `mutex_unlock` in a loop, one atomic access at a
    time, in any interleaving. Tasks are named by their pids. */
module Mutex {
  import opened Common

  /** Where a task is: outside; past a failed fast path; in the slow path with the wait lock, about to
      look at the owner; in the slow path without it, in `schedule`; past `mutex_lock`; past the call of
      `mutex_unlock`; there with the wait lock; there after the owner has been cleared or handed on; and
      about to wake the task the mutex was handed to. */
  datatype Pc =
    | Out | WantWait | Check | Parked | Holding | WantUnlock | Unlocking | Cleared
    | Passing(w: nat) | Waking(w: nat)

  /** `owner` and `lock`, the wait lock, are -1 or a task; `awake` are the tasks whose state is running.
      `arrivals` and `handed` remember who queued and who was handed the mutex, in order. */
  datatype Mtx = Mtx(owner: int, lock: int, waiters: seq<nat>, pc: map<nat, Pc>, awake: set<nat>,
                     arrivals: seq<nat>, handed: seq<nat>)

  datatype Next = Moves(s: Mtx) | Blocked

  function At(s: Mtx, t: nat, pc: Pc): Mtx {
    s.(pc := s.pc[t := pc])
  }

  /** The next atomic access of `t`. */
  function Do(s: Mtx, t: nat): Next
    requires t in s.pc
  {
    match s.pc[t]
    case Out => if s.owner == -1 then Moves(At(s, t, Holding).(owner := t)) else Moves(At(s, t, WantWait))
    case WantWait =>
      if s.lock != -1 then Blocked
      else Moves(At(s, t, Check).(lock := t, waiters := s.waiters + [t], awake := s.awake - {t},
                                  arrivals := s.arrivals + [t]))
    case Check =>
      if s.owner == t then Moves(At(s, t, Holding).(lock := -1, awake := s.awake + {t}))
      else Moves(At(s, t, Parked).(lock := -1))
    case Parked =>
      if t !in s.awake || s.lock != -1 then Blocked
      else Moves(At(s, t, Check).(lock := t, awake := s.awake - {t}))
    case Holding => Moves(At(s, t, WantUnlock))
    case WantUnlock => if s.lock != -1 then Blocked else Moves(At(s, t, Unlocking).(lock := t))
    case Unlocking =>
      if s.waiters == [] then Moves(At(s, t, Cleared).(owner := -1))
      else Moves(At(s, t, Passing(s.waiters[0])).(owner := s.waiters[0]))
    case Cleared => Moves(At(s, t, Out).(lock := -1))
    case Passing(w) =>
      Moves(At(s, t, Waking(w)).(lock := -1, waiters := Remove(s.waiters, w), handed := s.handed + [w]))
    case Waking(w) => Moves(At(s, t, Out).(awake := s.awake + {w}))
  }

  /** Something else wakes `t`. */
  function Disturb(s: Mtx, t: nat): Mtx {
    s.(awake := s.awake + {t})
  }

  // ---------------------------------------------------------------- what holds between any two accesses

  /** Between a returned `mutex_lock` and the point in `mutex_unlock` where the owner changes. */
  predicate Critical(pc: Pc) {
    pc == Holding || pc == WantUnlock || pc == Unlocking
  }

  predicate HasWaitLock(pc: Pc) {
    pc == Check || pc == Unlocking || pc == Cleared || pc.Passing?
  }

  predicate InSlowPath(pc: Pc) {
    pc == Check || pc == Parked
  }

  ghost predicate TaskOk(s: Mtx, t: nat)
    requires t in s.pc
  {
    var pc := s.pc[t];
    (HasWaitLock(pc) <==> s.lock == t)
    && (Critical(pc) ==> s.owner == t)
    && (s.owner == t ==> Critical(pc) || InSlowPath(pc))
    && (InSlowPath(pc) <==> t in s.waiters || (s.owner == t && !Critical(pc)))
    && (pc.Passing? ==> s.owner == pc.w && s.waiters != [] && s.waiters[0] == pc.w)
    && (t in s.waiters && s.owner == t ==> s.lock in s.pc && s.pc[s.lock] == Passing(t))
  }

  ghost predicate Good(s: Mtx) {
    (forall t <- s.pc :: TaskOk(s, t)) && NoDuplicates(s.waiters) && (forall t <- s.waiters :: t in s.pc)
    && (s.owner == -1 || s.owner in s.pc) && (s.lock == -1 || s.lock in s.pc)
    && s.arrivals == s.handed + s.waiters
  }

  /** The fast path, and joining the waiters. */
  lemma {:induction false} LockGood(s: Mtx, t: nat)
    requires Good(s) && t in s.pc && (s.pc[t] == Out || s.pc[t] == WantWait) && Do(s, t).Moves?
    ensures Good(Do(s, t).s)
  {
    var s' := Do(s, t).s;
    assert TaskOk(s, t);
    forall u <- s'.pc ensures TaskOk(s', u) {
      assert TaskOk(s, u);
    }
  }

  /** Looking at the owner, and coming back from `schedule`. */
  lemma {:induction false} WaitGood(s: Mtx, t: nat)
    requires Good(s) && t in s.pc && (s.pc[t] == Check || s.pc[t] == Parked) && Do(s, t).Moves?
    ensures Good(Do(s, t).s)
  {
    var s' := Do(s, t).s;
    assert TaskOk(s, t);
    forall u <- s'.pc ensures TaskOk(s', u) {
      assert TaskOk(s, u);
    }
  }

  /** Up to the store of the new owner. */
  lemma {:induction false} UnlockGood(s: Mtx, t: nat)
    requires Good(s) && t in s.pc && (s.pc[t] == Holding || s.pc[t] == WantUnlock || s.pc[t] == Unlocking)
    requires Do(s, t).Moves?
    ensures Good(Do(s, t).s)
  {
    var s' := Do(s, t).s;
    assert TaskOk(s, t);
    forall u <- s'.pc ensures TaskOk(s', u) {
      assert TaskOk(s, u);
    }
  }

  /** After it. */
  lemma {:induction false} HandGood(s: Mtx, t: nat)
    requires Good(s) && t in s.pc && (s.pc[t] == Cleared || s.pc[t].Waking?) && Do(s, t).Moves?
    ensures Good(Do(s, t).s)
  {
    var s' := Do(s, t).s;
    assert TaskOk(s, t);
    forall u <- s'.pc ensures TaskOk(s', u) {
      assert TaskOk(s, u);
    }
  }

  /** Taking the new owner off the waiters. */
  lemma {:induction false} PassGood(s: Mtx, t: nat)
    requires Good(s) && t in s.pc && s.pc[t].Passing?
    ensures Do(s, t).Moves? && Good(Do(s, t).s)
  {
    hide Remove;
    var s' := Do(s, t).s;
    assert TaskOk(s, t);
    FirstOut(s.waiters, s.pc[t].w);
    forall u <- s'.pc ensures TaskOk(s', u) {
      assert TaskOk(s, u);
    }
    assert s.handed + s.waiters == s.handed + [s.waiters[0]] + s.waiters[1..];
  }

  lemma {:induction false} FirstOut(q: seq<nat>, p: nat)
    requires q != [] && q[0] == p && NoDuplicates(q)
    ensures Remove(q, p) == q[1..] && NoDuplicates(q[1..]) && p !in q[1..] && forall x <- q :: x == p || x in q[1..]
  {
    assert q == [q[0]] + q[1..];
  }

  lemma {:induction false} DoGood(s: Mtx, t: nat)
    requires Good(s) && t in s.pc && Do(s, t).Moves?
    ensures Good(Do(s, t).s)
  {
    hide Good, Do;
    match s.pc[t]
    case Out | WantWait => LockGood(s, t);
    case Check | Parked => WaitGood(s, t);
    case Holding | WantUnlock | Unlocking => UnlockGood(s, t);
    case Passing(_) => PassGood(s, t);
    case _ => HandGood(s, t);
  }

  lemma {:induction false} DisturbGood(s: Mtx, t: nat)
    requires Good(s)
    ensures Good(Disturb(s, t))
  {
    forall u <- s.pc ensures TaskOk(Disturb(s, t), u) {
      assert TaskOk(s, u);
    }
  }

  // ---------------------------------------------------------------- runs

  /** A step of a run: a task's next access, or a wake-up from elsewhere. */
  datatype Step = Access(t: nat) | WakeUp(t: nat)

  ghost predicate Takes(s: Mtx, step: Step, s': Mtx) {
    match step
    case Access(t) => t in s.pc && Do(s, t) == Moves(s')
    case WakeUp(t) => s' == Disturb(s, t)
  }

  ghost predicate Run(steps: seq<Step>, states: seq<Mtx>) {
    |states| == |steps| + 1 && forall i | 0 <= i < |steps| :: Takes(states[i], steps[i], states[i + 1])
  }

  /** A fresh mutex and any number of tasks outside it. */
  function Fresh(tasks: set<nat>): Mtx {
    Mtx(-1, -1, [], map t | t in tasks :: Out, tasks, [], [])
  }

  /** In every state of every run the mutex is good. */
  lemma {:induction false} RunGood(steps: seq<Step>, states: seq<Mtx>, tasks: set<nat>, i: nat)
    requires Run(steps, states) && states[0] == Fresh(tasks) && i <= |steps|
    ensures Good(states[i])
    decreases i
  {
    if i > 0 {
      RunGood(steps, states, tasks, i - 1);
      var s, s' := states[i - 1], states[i];
      assert Takes(s, steps[i - 1], states[i - 1 + 1]);
      match steps[i - 1]
      case Access(t) => DoGood(s, t);
      case WakeUp(t) => DisturbGood(s, t);
    }
  }

  // ---------------------------------------------------------------- what that means

  /** At most one task is between a returned `mutex_lock` and the end of its ownership, and `owner` names
      it. */
  lemma {:induction false} MutualExclusion(s: Mtx, t: nat, u: nat)
    requires Good(s) && t in s.pc && u in s.pc && Critical(s.pc[t]) && Critical(s.pc[u])
    ensures t == u && s.owner == t
  {
    assert TaskOk(s, t) && TaskOk(s, u);
  }

  /** The owner has the mutex, or has been handed it and will find that out: it waits in the slow path,
      and whoever handed it over has taken it off the waiters, or is just doing so. */
  lemma {:induction false} OwnerNamesHolder(s: Mtx)
    requires Good(s) && s.owner != -1
    ensures s.owner in s.pc && (Critical(s.pc[s.owner]) || InSlowPath(s.pc[s.owner]))
    ensures s.owner in s.waiters ==> s.lock in s.pc && s.pc[s.lock] == Passing(s.owner) && s.waiters[0] == s.owner
  {
    assert TaskOk(s, s.owner);
    if s.owner in s.waiters {
      assert TaskOk(s, s.lock);
    }
  }

  /** Whoever is handed the mutex is the first of those that queued and have not been handed it. */
  lemma {:induction false} FirstComeFirstServed(steps: seq<Step>, states: seq<Mtx>, tasks: set<nat>)
    requires Run(steps, states) && states[0] == Fresh(tasks)
    ensures states[|steps|].handed <= states[|steps|].arrivals
    ensures states[|steps|].waiters == states[|steps|].arrivals[|states[|steps|].handed|..]
  {
    RunGood(steps, states, tasks, |steps|);
  }
}

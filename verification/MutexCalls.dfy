/** What a whole call of `mutex_lock` or `mutex_unlock` does if nothing comes in between, and when a task
    has to wait. */
module MutexCalls {
  import opened Common
  import opened Mutex

  /** The next `n` accesses of `t`, with none of other tasks between them. */
  function Alone(s: Mtx, t: nat, n: nat): Next
    requires t in s.pc
    decreases n
  {
    if n == 0 then Moves(s)
    else
      match Do(s, t)
      case Blocked => Blocked
      case Moves(s') => if t in s'.pc then Alone(s', t, n - 1) else Blocked
  }

  /** `t` is now at `pc`; where every other task is has not changed. */
  predicate NowAt(s: Mtx, s': Mtx, t: nat, pc: Pc) {
    t in s'.pc && s'.pc[t] == pc && s'.pc.Keys == s.pc.Keys && forall u <- s.pc :: u != t ==> s'.pc[u] == s.pc[u]
  }

  predicate SameQueue(s: Mtx, s': Mtx) {
    s'.waiters == s.waiters && s'.arrivals == s.arrivals && s'.handed == s.handed
  }

  /** A free mutex is taken at once, whoever waits and whoever holds the wait lock. */
  lemma {:induction false} LockFree(s: Mtx, t: nat)
    requires t in s.pc && s.pc[t] == Out && s.owner == -1
    ensures Alone(s, t, 1).Moves?
    ensures var s' := Alone(s, t, 1).s;
      NowAt(s, s', t, Holding) && s'.owner == t && s'.lock == s.lock && SameQueue(s, s') && s'.awake == s.awake
  {
    assert Alone(s, t, 1) == Do(s, t);
  }

  /** Otherwise the task joins the end of the queue and sleeps, holding nothing; it goes no further before it
      is woken. */
  lemma {:induction false} LockWaits(s: Mtx, t: nat)
    requires Good(s) && t in s.pc && s.pc[t] == Out && s.owner != -1 && s.lock == -1
    ensures Alone(s, t, 3).Moves? && Alone(s, t, 4) == Blocked
    ensures var s' := Alone(s, t, 3).s;
      NowAt(s, s', t, Parked) && s'.owner == s.owner && s'.lock == -1 && s'.awake == s.awake - {t}
      && s'.waiters == s.waiters + [t] && s'.arrivals == s.arrivals + [t] && s'.handed == s.handed
  {
    assert TaskOk(s, t);
    assert s.owner != t;
    var s1 := Do(s, t).s;
    var s2 := Do(s1, t).s;
    var s3 := Do(s2, t).s;
    Unrolled(s, t, s1, s2, s3);
    assert Alone(s, t, 0 + 3) == Alone(s3, t, 0) && Alone(s, t, 1 + 3) == Alone(s3, t, 1);
    assert s3.pc.Keys == s.pc.Keys;
  }

  lemma {:induction false} Unrolled(s: Mtx, t: nat, s1: Mtx, s2: Mtx, s3: Mtx)
    requires t in s.pc && t in s1.pc && t in s2.pc && t in s3.pc
    requires Do(s, t) == Moves(s1) && Do(s1, t) == Moves(s2) && Do(s2, t) == Moves(s3)
    ensures forall n: nat :: Alone(s, t, n + 3) == Alone(s3, t, n) && Alone(s, t, n + 2) == Alone(s2, t, n)
  {
    hide Do;
    forall n: nat ensures Alone(s, t, n + 3) == Alone(s3, t, n) && Alone(s, t, n + 2) == Alone(s2, t, n) {
      assert Alone(s, t, n + 2) == Alone(s1, t, n + 1);
      assert Alone(s, t, n + 3) == Alone(s1, t, n + 2) == Alone(s2, t, n + 1);
    }
  }

  /** A task that is woken takes the mutex if it has been handed it, and else sleeps on in its place. */
  lemma {:induction false} WokenLooks(s: Mtx, t: nat)
    requires t in s.pc && s.pc[t] == Parked && t in s.awake && s.lock == -1
    ensures Alone(s, t, 2).Moves?
    ensures var s' := Alone(s, t, 2).s;
      NowAt(s, s', t, if s.owner == t then Holding else Parked) && s'.owner == s.owner && s'.lock == -1
      && SameQueue(s, s') && s'.awake == if s.owner == t then s.awake else s.awake - {t}
  {
    var s1 := Do(s, t).s;
    var s2 := Do(s1, t).s;
    assert Alone(s, t, 2) == Alone(s1, t, 1) == Do(s1, t);
    assert s2.pc.Keys == s.pc.Keys;
  }

  /** Giving back a mutex nobody waits for frees it. */
  lemma {:induction false} UnlockFrees(s: Mtx, t: nat)
    requires t in s.pc && s.pc[t] == Holding && s.lock == -1 && s.waiters == []
    ensures Alone(s, t, 4).Moves?
    ensures var s' := Alone(s, t, 4).s;
      NowAt(s, s', t, Out) && s'.owner == -1 && s'.lock == -1 && SameQueue(s, s') && s'.awake == s.awake
  {
    var s1 := Do(s, t).s;
    var s2 := Do(s1, t).s;
    var s3 := Do(s2, t).s;
    var s4 := Do(s3, t).s;
    Unrolled(s, t, s1, s2, s3);
    assert Alone(s, t, 1 + 3) == Alone(s3, t, 1) == Do(s3, t);
    assert s4.pc.Keys == s.pc.Keys;
  }

  /** And else hands it to the first of the waiters, who leaves the queue and is woken: it is never free. */
  lemma {:induction false} UnlockHands(s: Mtx, t: nat)
    requires Good(s) && t in s.pc && s.pc[t] == Holding && s.lock == -1 && s.waiters != []
    ensures Alone(s, t, 5).Moves?
    ensures var s', w := Alone(s, t, 5).s, s.waiters[0];
      NowAt(s, s', t, Out) && s'.owner == w && s'.lock == -1 && s'.awake == s.awake + {w}
      && s'.waiters == s.waiters[1..] && s'.handed == s.handed + [w] && s'.arrivals == s.arrivals
  {
    hide Good, Remove;
    First(s);
    var s1 := Do(s, t).s;
    var s2 := Do(s1, t).s;
    var s3 := Do(s2, t).s;
    var s4 := Do(s3, t).s;
    var s5 := Do(s4, t).s;
    Unrolled(s, t, s1, s2, s3);
    assert Alone(s, t, 2 + 3) == Alone(s3, t, 2) == Alone(s4, t, 1) == Do(s4, t);
    assert s5.pc.Keys == s.pc.Keys;
  }

  lemma {:induction false} First(s: Mtx)
    requires Good(s) && s.waiters != []
    ensures Remove(s.waiters, s.waiters[0]) == s.waiters[1..]
  {
    FirstOut(s.waiters, s.waiters[0]);
  }

  /** A task has to wait only for the wait lock, or asleep in the queue. */
  lemma {:induction false} WaitsWhen(s: Mtx, t: nat)
    requires t in s.pc
    ensures Do(s, t) == Blocked
      <==> (s.lock != -1 && s.pc[t] in {WantWait, WantUnlock, Parked}) || (s.pc[t] == Parked && t !in s.awake)
  {
  }
}

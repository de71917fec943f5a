/** The scheduler's locked regions, each proved to take exactly its step. */
module Sched {
  import opened Common
  import opened SchedState
  import opened Steps = SchedSteps
  import opened SchedRuns
  import opened SchedLaws

  class Scheduler {
    var rqs: seq<Rq>
    var tasks: map<nat, Task>

    function S(): Sys
      reads this
    {
      Sys(rqs, tasks)
    }

    constructor (n: nat)
      ensures S() == Boot(n) && Good(S())
    {
      rqs := seq(n, c requires 0 <= c < n => Rq(c, c, 0, []));
      tasks := map c: nat | c < n :: c := IdleTask(c);
      new;
      BootGood(n);
    }

    /** Takes `p` off a queue. */
    method RqDel(c: nat, p: nat)
      requires c < |rqs| && p in tasks && tasks[p].onRq && rqs[c].nrRunning > 0
      modifies this
      ensures S() == Dequeue(old(S()), c, p)
    {
      rqs := rqs[c := rqs[c].(queue := Remove(rqs[c].queue, p))];
      rqs := rqs[c := rqs[c].(nrRunning := rqs[c].nrRunning - 1)];
      tasks := tasks[p := tasks[p].(onRq := false)];
    }

    /** Puts `p` on a queue, at the place its tree search finds. */
    method RqAdd(c: nat, p: nat, at: nat)
      requires c < |rqs| && p in tasks && !tasks[p].onRq
      modifies this
      ensures S() == Enqueue(old(S()), c, p, at)
    {
      rqs := rqs[c := rqs[c].(queue := Insert(rqs[c].queue, at, p))];
      rqs := rqs[c := rqs[c].(nrRunning := rqs[c].nrRunning + 1)];
      tasks := tasks[p := tasks[p].(onRq := true)];
    }

    /** Wakes `p` through the run queue `q`; fails only for a zombie. */
    method SetTaskRunning(p: nat, q: nat, at: nat) returns (ok: bool)
      requires p in tasks && q < |rqs|
      modifies this
      ensures (if ok then Done(S()) else Panicked) == SetRunning(old(S()), p, q, at)
      ensures Good(old(S())) && Admitted(old(S()), p) && q == old(tasks)[p].cpu
        ==> ok && Woken(old(S()), S(), p) && Good(S())
    {
      hide Good, Woken, Insert;
      if Good(S()) && Admitted(S(), p) && q == tasks[p].cpu {
        WakeGood(S(), p, q, at);
        WakeDoes(S(), p, at);
      }
      if tasks[p].state == Zombie {
        return false;
      }
      if tasks[p].state != Running {
        tasks := tasks[p := tasks[p].(state := Running)];
        if !tasks[p].onRq && p != rqs[q].curr {
          RqAdd(q, p, at);
        }
      }
      ok := true;
    }

    method SetTaskStopped(p: nat)
      requires Good(S()) && Admitted(S(), p)
      modifies this
      ensures old(tasks)[p].cpu < |old(rqs)| && S() == Stop(old(S()), p) && Good(S())
      ensures TakenDown(old(S()), S(), p, Stopped)
    {
      hide TakenDown;
      StopDoes(S(), p);
      OffQueueKeeps(S(), p);
      StopsGood(S(), p, Stopped);
      if tasks[p].onRq {
        QueuedOn(S(), p);
        RqDel(tasks[p].cpu, p);
      }
      tasks := tasks[p := tasks[p].(state := Stopped)];
    }

    /** Puts `p` to sleep if it runs; deep sleep is not interruptible. */
    method SetTaskBlocked(p: nat, deep: bool)
      requires Good(S()) && Admitted(S(), p)
      modifies this
      ensures old(tasks)[p].cpu < |old(rqs)| && S() == Block(old(S()), p, if deep then Uninterruptible else Sleeping)
      ensures Good(S())
      ensures if old(tasks)[p].state == Running
        then TakenDown(old(S()), S(), p, if deep then Uninterruptible else Sleeping) else S() == old(S())
    {
      hide TakenDown;
      BlockDoes(S(), p, if deep then Uninterruptible else Sleeping);
      BlockGood(S(), p, if deep then Uninterruptible else Sleeping);
      if tasks[p].state == Running {
        if tasks[p].onRq {
          QueuedOn(S(), p);
          RqDel(tasks[p].cpu, p);
        }
        tasks := tasks[p := tasks[p].(state := if deep then Uninterruptible else Sleeping)];
      }
    }

    /** Admits a new task, made on CPU `c`. */
    method ScheduleTask(p: nat, c: nat, on: nat, at: nat)
      requires Good(S()) && p !in tasks && c < |rqs| && on < |rqs|
      modifies this
      ensures old(rqs)[c].curr in old(tasks) && S() == Admit(old(S()), p, c, on, at) && Good(S())
      ensures Arrived(old(S()), S(), p, c, on)
    {
      hide Arrived;
      AdmitDoes(S(), p, c, on, at);
      AdmitGood(S(), p, c, on, at);
      tasks := tasks[p := Task(Running, false, on, tasks[rqs[c].curr].vruntime + MIN_GRANULARITY)];
      RqAdd(on, p, at);
    }

    /** Looks for a task to take over from another CPU, trying their locks in turn. */
    method CrossCpuTask(c: nat, busy: set<nat>) returns (ok: bool, found: bool, p: nat)
      requires Good(S()) && c < |rqs|
      modifies this
      ensures Queued(old(S()), c)
      ensures Migrate(old(S()), c, busy) == if !ok then Wrong else if found then Chosen(S(), p) else Nothing
      ensures !found ==> S() == old(S())
      ensures ok && !found <==> forall d: nat :: !Gives(old(S()), c, busy, d)
      ensures !ok <==> exists d: nat :: Gives(old(S()), c, busy, d) && old(rqs)[d].queue[0] == old(rqs)[d].curr
      ensures ok && found ==> exists d: nat :: Gives(old(S()), c, busy, d) && HandedOver(old(S()), S(), c, d, p)
    {
      hide Good, Remove, Gives, HandedOver, IsIdle, Admitted;
      Ready(S());
      MigrateDoes(S(), c, busy);
      ok, found, p := true, false, 0;
      for cpu := 0 to |rqs|
        invariant S() == old(S()) && Source(S(), c, busy, cpu) == Source(S(), c, busy, 0)
        invariant |rqs| == |old(rqs)|
      {
        if cpu == c || cpu in busy {
          continue;
        }
        if rqs[cpu].nrRunning > 1 {
          if rqs[cpu].queue == [] {
            continue;
          }
          p := rqs[cpu].queue[0];
          if p == rqs[cpu].curr || p == rqs[cpu].idle {
            ok := false;
            return;
          }
          FrontQueued(S(), cpu);
          RqDel(cpu, p);
          tasks := tasks[p := tasks[p].(cpu := c)];
          found := true;
          return;
        }
      }
    }

    /** Picks what CPU `c` runs next and switches to it; fails only if it would steal another CPU's
        current task. */
    method Schedule(c: nat, busy: set<nat>, at: nat) returns (ok: bool)
      requires Good(S()) && c < |rqs|
      modifies this
      ensures Queued(old(S()), c) && (if ok then Done(S()) else Panicked) == Steps.Schedule(old(S()), c, busy, at)
      ensures ok <==> !StealsCurrent(old(S()), c, busy)
      ensures if ok then Good(S()) && Scheduled(old(S()), S(), c, busy) else GivesCurrent(old(S()), c, busy)
    {
      hide Good, Remove, Insert, Source, Scheduled, GivesCurrent;
      ScheduleDoes(S(), c, busy, at);
      ScheduleGood(S(), c, busy, at);
      PickKeeps(S(), c, busy);
      var cur := rqs[c].curr;
      var next := cur;
      ok := true;
      if rqs[c].queue == [] {
        var found, p;
        ok, found, p := CrossCpuTask(c, busy);
        if !ok {
          return;
        }
        if found {
          next := p;
        } else if tasks[cur].state != Running {
          next := rqs[c].idle;
        }
      } else {
        next := rqs[c].queue[0];
        FrontQueued(S(), c);
        RqDel(c, next);
      }
      if tasks[cur].state == Running && cur != rqs[c].idle && !tasks[cur].onRq {
        RqAdd(c, cur, at);
      }
      if next != cur {
        rqs := rqs[c := rqs[c].(curr := next)];
      }
      SameCurr(S(), c);
    }

    /** Charges the current task and asks for rescheduling if the first waiting task is far behind it. */
    method SchedTick(c: nat, delta: nat) returns (resched: bool)
      requires Good(S()) && c < |rqs|
      modifies this
      ensures old(rqs)[c].curr in old(tasks) && S() == Tick(old(S()), c, delta) && Good(S())
      ensures Charged(old(S()), S(), c, delta)
      ensures resched <==> FarBehind(S(), c)
    {
      hide Good, Queued, IsIdle, Charged;
      TickDoes(S(), c, delta);
      TickGood(S(), c, delta);
      Ready(S());
      var cur := rqs[c].curr;
      if tasks[cur].state == Running {
        tasks := tasks[cur := tasks[cur].(vruntime := tasks[cur].vruntime + delta)];
      }
      assert S() == Tick(old(S()), c, delta);
      if rqs[c].queue != [] {
        FrontQueued(S(), c);
      }
      resched := rqs[c].queue != [] && rqs[c].queue[0] != cur
        && tasks[cur].vruntime - tasks[rqs[c].queue[0]].vruntime > MIN_GRANULARITY;
    }
  }

  /** The first waiting task of CPU `c` has had much less time than the current one. */
  ghost predicate FarBehind(s: Sys, c: nat)
    requires c < |s.rqs|
  {
    s.rqs[c].queue != [] && s.rqs[c].queue[0] != s.rqs[c].curr && s.rqs[c].curr in s.tasks
    && s.rqs[c].queue[0] in s.tasks
    && s.tasks[s.rqs[c].curr].vruntime > s.tasks[s.rqs[c].queue[0]].vruntime + MIN_GRANULARITY
  }

  lemma {:induction false} QueuedOn(s: Sys, p: nat)
    requires Good(s) && Admitted(s, p) && s.tasks[p].onRq
    ensures s.tasks[p].cpu < |s.rqs| && s.rqs[s.tasks[p].cpu].nrRunning > 0
  {
    assert TaskOk(s, p);
    assert QueueOk(s, s.tasks[p].cpu);
  }

  lemma {:induction false} FrontQueued(s: Sys, c: nat)
    requires Good(s) && c < |s.rqs| && s.rqs[c].queue != []
    ensures s.rqs[c].nrRunning > 0 && s.rqs[c].queue[0] in s.tasks && s.tasks[s.rqs[c].queue[0]].onRq
  {
    assert QueueOk(s, c) && s.rqs[c].queue[0] in s.rqs[c].queue;
  }

  lemma {:induction false} SameCurr(s: Sys, c: nat)
    requires c < |s.rqs|
    ensures s.(rqs := s.rqs[c := s.rqs[c].(curr := s.rqs[c].curr)]) == s
  {
  }
}

/** Run queues and tasks of the scheduler, and what holds of them between its locked regions. */
module SchedState {
  import opened Common

  datatype TaskState = Running | Sleeping | Uninterruptible | Stopped | Zombie

  datatype Task = Task(state: TaskState, onRq: bool, cpu: nat, vruntime: nat)

  /** The queue is the in-order sequence of the run queue's tree. */
  datatype Rq = Rq(curr: nat, idle: nat, nrRunning: nat, queue: seq<nat>)

  datatype Sys = Sys(rqs: seq<Rq>, tasks: map<nat, Task>)

  predicate IsIdle(s: Sys, p: nat) {
    exists c :: 0 <= c < |s.rqs| && s.rqs[c].idle == p
  }

  /** A task the scheduler looks after. */
  predicate Admitted(s: Sys, p: nat) {
    p in s.tasks && !IsIdle(s, p)
  }

  ghost predicate QueueOk(s: Sys, c: nat)
    requires c < |s.rqs|
  {
    NoDuplicates(s.rqs[c].queue) && s.rqs[c].nrRunning == |s.rqs[c].queue|
    && forall p <- s.rqs[c].queue :: Admitted(s, p) && s.tasks[p].cpu == c && s.tasks[p].onRq
  }

  ghost predicate CurrOk(s: Sys, c: nat)
    requires c < |s.rqs|
  {
    var cur := s.rqs[c].curr;
    s.rqs[c].idle in s.tasks && (cur == s.rqs[c].idle || (Admitted(s, cur) && s.tasks[cur].cpu == c))
  }

  ghost predicate TaskOk(s: Sys, p: nat)
    requires p in s.tasks
  {
    if IsIdle(s, p) then s.tasks[p].state == Running && !s.tasks[p].onRq
    else
      s.tasks[p].cpu < |s.rqs| && s.tasks[p].state != Zombie
      && (s.tasks[p].onRq <==> p in s.rqs[s.tasks[p].cpu].queue)
      && (s.tasks[p].onRq ==> s.tasks[p].state == Running)
      && (s.tasks[p].state == Running ==> s.tasks[p].onRq || s.rqs[s.tasks[p].cpu].curr == p)
  }

  ghost predicate Good(s: Sys) {
    (forall c | 0 <= c < |s.rqs| :: QueueOk(s, c) && CurrOk(s, c))
    && (forall p <- s.tasks :: TaskOk(s, p))
    && (forall c, d | 0 <= c < d < |s.rqs| :: s.rqs[c].idle != s.rqs[d].idle)
  }

  /** A queued task runs, and a running one is queued or current on its CPU. */
  lemma {:induction false} NoneLost(s: Sys, p: nat)
    requires Good(s) && Admitted(s, p)
    ensures s.tasks[p].cpu < |s.rqs|
    ensures forall c | 0 <= c < |s.rqs| && p in s.rqs[c].queue ::
      s.tasks[p].state == Running && s.tasks[p].onRq && c == s.tasks[p].cpu
    ensures s.tasks[p].state == Running ==> p in s.rqs[s.tasks[p].cpu].queue || s.rqs[s.tasks[p].cpu].curr == p
    ensures s.tasks[p].onRq ==> exists c :: 0 <= c < |s.rqs| && p in s.rqs[c].queue
  {
    assert TaskOk(s, p);
    forall c | 0 <= c < |s.rqs| && p in s.rqs[c].queue ensures s.tasks[p].onRq && s.tasks[p].cpu == c {
      assert QueueOk(s, c);
    }
  }

  /** No admitted task is current on two CPUs, in two queues, or queued on one CPU and current on another;
      and none is in a queue twice. */
  lemma {:induction false} OnePlace(s: Sys, p: nat, c: nat, d: nat)
    requires Good(s) && Admitted(s, p) && c < |s.rqs| && d < |s.rqs| && c != d
    ensures !(s.rqs[c].curr == p && s.rqs[d].curr == p)
    ensures !(p in s.rqs[c].queue && p in s.rqs[d].queue)
    ensures !(s.rqs[c].curr == p && p in s.rqs[d].queue)
    ensures NoDuplicates(s.rqs[c].queue)
  {
    assert QueueOk(s, c) && QueueOk(s, d) && CurrOk(s, c) && CurrOk(s, d);
    assert IsIdle(s, s.rqs[c].idle) && IsIdle(s, s.rqs[d].idle);
  }
}

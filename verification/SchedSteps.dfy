/** The scheduler's locked regions as steps, and what every run of them keeps. */
module SchedSteps {
  import opened Common
  import opened SchedState

  const MIN_GRANULARITY := 2

  /** A step ends in a new state or brings the machine down. */
  datatype Outcome = Done(s: Sys) | Panicked

  // ---------------------------------------------------------------- queues

  /** `at` stands for the place the tree search finds. */
  function Insert(q: seq<nat>, at: nat, p: nat): seq<nat> {
    var k := if at <= |q| then at else |q|;
    q[..k] + [p] + q[k..]
  }

  lemma {:induction false} InsertFacts(q: seq<nat>, at: nat, p: nat)
    ensures |Insert(q, at, p)| == |q| + 1
    ensures forall x :: x in Insert(q, at, p) <==> x in q || x == p
    ensures NoDuplicates(q) && p !in q ==> NoDuplicates(Insert(q, at, p))
  {
    var k := if at <= |q| then at else |q|;
    var r := Insert(q, at, p);
    assert q == q[..k] + q[k..];
    assert forall i | 0 <= i < |r| :: r[i] == if i < k then q[i] else if i == k then p else q[i - 1];
  }

  lemma {:induction false} RemoveFacts(q: seq<nat>, p: nat)
    requires NoDuplicates(q) && p in q
    ensures |Remove(q, p)| == |q| - 1 && NoDuplicates(Remove(q, p))
    ensures forall x :: x in Remove(q, p) <==> x in q && x != p
  {
    var t := q[1..];
    assert q == [q[0]] + t;
    if q[0] != p {
      RemoveFacts(t, p);
      var r := Remove(q, p);
      assert forall i | 0 < i < |r| :: r[i] == Remove(t, p)[i - 1];
      assert q[0] !in t;
    } else {
      assert p !in t;
    }
  }

  function Enqueue(s: Sys, c: nat, p: nat, at: nat): Sys
    requires c < |s.rqs| && p in s.tasks
  {
    var rq := s.rqs[c];
    Sys(s.rqs[c := rq.(queue := Insert(rq.queue, at, p), nrRunning := rq.nrRunning + 1)],
        s.tasks[p := s.tasks[p].(onRq := true)])
  }

  function Dequeue(s: Sys, c: nat, p: nat): Sys
    requires c < |s.rqs| && p in s.tasks && s.rqs[c].nrRunning > 0
  {
    var rq := s.rqs[c];
    Sys(s.rqs[c := rq.(queue := Remove(rq.queue, p), nrRunning := rq.nrRunning - 1)],
        s.tasks[p := s.tasks[p].(onRq := false)])
  }

  function SetState(s: Sys, p: nat, state: TaskState): Sys
    requires p in s.tasks
  {
    s.(tasks := s.tasks[p := s.tasks[p].(state := state)])
  }

  // ---------------------------------------------------------------- the steps

  /** Wakes `p`, through the run queue of the CPU `q` that was read before the locks were taken. */
  function SetRunning(s: Sys, p: nat, q: nat, at: nat): Outcome
    requires p in s.tasks && q < |s.rqs|
  {
    if s.tasks[p].state == Zombie then Panicked
    else if s.tasks[p].state == Running then Done(s)
    else if !s.tasks[p].onRq && p != s.rqs[q].curr then Done(Enqueue(SetState(s, p, Running), q, p, at))
    else Done(SetState(s, p, Running))
  }

  function OffQueue(s: Sys, p: nat): Sys
    requires p in s.tasks && s.tasks[p].cpu < |s.rqs|
  {
    if s.tasks[p].onRq && s.rqs[s.tasks[p].cpu].nrRunning > 0 then Dequeue(s, s.tasks[p].cpu, p) else s
  }

  /** Puts a running task to sleep, interruptibly or not. */
  function Block(s: Sys, p: nat, state: TaskState): Sys
    requires p in s.tasks && s.tasks[p].cpu < |s.rqs|
  {
    if s.tasks[p].state == Running then SetState(OffQueue(s, p), p, state) else s
  }

  function Stop(s: Sys, p: nat): Sys
    requires p in s.tasks && s.tasks[p].cpu < |s.rqs|
  {
    SetState(OffQueue(s, p), p, Stopped)
  }

  /** Admits the new task `p`, made on CPU `c`, to the queue of `cpu`. */
  function Admit(s: Sys, p: nat, c: nat, cpu: nat, at: nat): Sys
    requires c < |s.rqs| && cpu < |s.rqs| && s.rqs[c].curr in s.tasks
  {
    Enqueue(s.(tasks := s.tasks[p := Task(Running, false, cpu, s.tasks[s.rqs[c].curr].vruntime + MIN_GRANULARITY)]),
            cpu, p, at)
  }

  /** The first CPU from `k` on, other than `c` and those in `busy` whose locks others hold, with more
      than one task queued; `|s.rqs|` if there is none. */
  function Source(s: Sys, c: nat, busy: set<nat>, k: nat): (d: nat)
    requires k <= |s.rqs|
    ensures k <= d <= |s.rqs|
    decreases |s.rqs| - k
  {
    if k == |s.rqs| then k
    else if k != c && k !in busy && s.rqs[k].nrRunning > 1 && s.rqs[k].queue != [] then k
    else Source(s, c, busy, k + 1)
  }

  datatype Choice = Chosen(s: Sys, next: nat) | Nothing | Wrong

  /** Takes the first task off another CPU's queue. */
  function Migrate(s: Sys, c: nat, busy: set<nat>): Choice
    requires forall d | 0 <= d < |s.rqs| && s.rqs[d].queue != [] :: s.rqs[d].queue[0] in s.tasks
  {
    var d := Source(s, c, busy, 0);
    if d == |s.rqs| || s.rqs[d].queue == [] || s.rqs[d].nrRunning == 0 then Nothing
    else
      var p := s.rqs[d].queue[0];
      if p == s.rqs[d].curr || p == s.rqs[d].idle then Wrong
      else
        var s' := Dequeue(s, d, p);
        Chosen(s'.(tasks := s'.tasks[p := s'.tasks[p].(cpu := c)]), p)
  }

  /** What CPU `c` runs next. */
  function Pick(s: Sys, c: nat, busy: set<nat>): Choice
    requires c < |s.rqs| && s.rqs[c].curr in s.tasks
    requires forall d | 0 <= d < |s.rqs| && s.rqs[d].queue != [] ::
      s.rqs[d].queue[0] in s.tasks && s.rqs[d].nrRunning > 0
  {
    if s.rqs[c].queue != [] then Chosen(Dequeue(s, c, s.rqs[c].queue[0]), s.rqs[c].queue[0])
    else
      match Migrate(s, c, busy)
      case Wrong => Wrong
      case Chosen(s', p) => Chosen(s', p)
      case Nothing => Chosen(s, if s.tasks[s.rqs[c].curr].state != Running then s.rqs[c].idle else s.rqs[c].curr)
  }

  /** A running task that is not the idle task goes back to its queue. */
  function PutBack(s: Sys, c: nat, at: nat): Sys
    requires c < |s.rqs| && s.rqs[c].curr in s.tasks
  {
    var cur := s.rqs[c].curr;
    if s.tasks[cur].state == Running && cur != s.rqs[c].idle && !s.tasks[cur].onRq then Enqueue(s, c, cur, at) else s
  }

  ghost predicate Queued(s: Sys, c: nat) {
    c < |s.rqs| && s.rqs[c].curr in s.tasks
    && forall d | 0 <= d < |s.rqs| && s.rqs[d].queue != [] :: s.rqs[d].queue[0] in s.tasks && s.rqs[d].nrRunning > 0
  }

  function Schedule(s: Sys, c: nat, busy: set<nat>, at: nat): Outcome
    requires Queued(s, c)
  {
    match Pick(s, c, busy)
    case Chosen(s', next) =>
      var s'' := PutBack(s', c, at);
      Done(s''.(rqs := s''.rqs[c := s''.rqs[c].(curr := next)]))
    case _ => Panicked
  }

  /** The clock charges the current task of CPU `c`. */
  function Tick(s: Sys, c: nat, delta: nat): Sys
    requires c < |s.rqs| && s.rqs[c].curr in s.tasks
  {
    var cur := s.rqs[c].curr;
    var t := s.tasks[cur];
    if t.state == Running then s.(tasks := s.tasks[cur := t.(vruntime := t.vruntime + delta)]) else s
  }

  // ---------------------------------------------------------------- what steps keep

  /** `Good`, except that the tasks in `ps`, which are on no queue, need not be where they belong. */
  ghost predicate Limbo(s: Sys, ps: set<nat>) {
    (forall c | 0 <= c < |s.rqs| :: QueueOk(s, c) && CurrOk(s, c))
    && (forall p <- s.tasks :: if p in ps then Adrift(s, p) else TaskOk(s, p))
    && (forall c, d | 0 <= c < d < |s.rqs| :: s.rqs[c].idle != s.rqs[d].idle)
    && (forall p <- ps :: p in s.tasks)
  }

  ghost predicate Adrift(s: Sys, p: nat)
    requires p in s.tasks
  {
    !IsIdle(s, p) && s.tasks[p].cpu < |s.rqs| && s.tasks[p].state != Zombie && !s.tasks[p].onRq
  }

  lemma {:induction false} NoLimbo(s: Sys)
    ensures Limbo(s, {}) <==> Good(s)
  {
  }

  lemma {:induction false} Member(s: Sys, ps: set<nat>, p: nat)
    requires Limbo(s, ps) && p in s.tasks
    ensures if p in ps then Adrift(s, p) else TaskOk(s, p)
    ensures forall c | 0 <= c < |s.rqs| && p in s.rqs[c].queue :: s.tasks[p].onRq && s.tasks[p].cpu == c && p !in ps
  {
    forall c | 0 <= c < |s.rqs| && p in s.rqs[c].queue ensures s.tasks[p].onRq && s.tasks[p].cpu == c && p !in ps {
      assert QueueOk(s, c);
    }
  }

  /** A task that is on no queue is let go. */
  lemma {:induction false} LetGo(s: Sys, ps: set<nat>, p: nat)
    requires Limbo(s, ps) && Admitted(s, p) && !s.tasks[p].onRq
    ensures Limbo(s, ps + {p})
  {
    Member(s, ps, p);
  }

  /** A task that does not run, or is current, is where it belongs. */
  lemma {:induction false} Settle(s: Sys, ps: set<nat>, p: nat)
    requires Limbo(s, ps) && p in ps
    requires p in s.tasks && s.tasks[p].cpu < |s.rqs|
    requires (s.tasks[p].state != Running || s.rqs[s.tasks[p].cpu].curr == p)
    ensures Limbo(s, ps - {p})
  {
    Member(s, ps, p);
  }

  lemma {:induction false} SetStateKeeps(s: Sys, ps: set<nat>, p: nat, state: TaskState)
    requires Limbo(s, ps) && p in ps && state != Zombie
    ensures p in s.tasks && Limbo(SetState(s, p, state), ps)
  {
    var s' := SetState(s, p, state);
    CastSame(s, s');
    forall c | 0 <= c < |s'.rqs| ensures QueueOk(s', c) && CurrOk(s', c) {
      assert QueueOk(s, c) && CurrOk(s, c);
    }
    forall x <- s'.tasks ensures if x in ps then Adrift(s', x) else TaskOk(s', x) {
      Member(s, ps, x);
    }
  }

  /** Idle tasks stay who they are. */
  lemma {:induction false} CastSame(s: Sys, s': Sys)
    requires |s'.rqs| == |s.rqs| && forall c | 0 <= c < |s.rqs| :: s'.rqs[c].idle == s.rqs[c].idle
    ensures forall p :: IsIdle(s', p) <==> IsIdle(s, p)
  {
  }

  lemma {:induction false} EnqueueKeeps(s: Sys, ps: set<nat>, c: nat, p: nat, at: nat)
    requires Limbo(s, ps) && p in ps && c < |s.rqs| && p in s.tasks && s.tasks[p].cpu == c
    requires s.tasks[p].state == Running
    ensures Limbo(Enqueue(s, c, p, at), ps - {p})
  {
    hide Insert;
    var s' := Enqueue(s, c, p, at);
    CastSame(s, s');
    Member(s, ps, p);
    InsertFacts(s.rqs[c].queue, at, p);
    forall d | 0 <= d < |s'.rqs| ensures QueueOk(s', d) && CurrOk(s', d) {
      assert QueueOk(s, d) && CurrOk(s, d);
    }
    forall x <- s'.tasks ensures if x in ps - {p} then Adrift(s', x) else TaskOk(s', x) {
      Member(s, ps, x);
    }
  }

  lemma {:induction false} DequeueKeeps(s: Sys, ps: set<nat>, c: nat, p: nat)
    requires Limbo(s, ps) && c < |s.rqs| && p in s.rqs[c].queue
    ensures s.rqs[c].nrRunning > 0 && p in s.tasks && s.tasks[p].state == Running && s.tasks[p].cpu == c && p !in ps
    ensures Admitted(s, p)
    ensures Limbo(Dequeue(s, c, p), ps + {p})
  {
    hide Remove;
    assert QueueOk(s, c);
    Member(s, ps, p);
    RemoveFacts(s.rqs[c].queue, p);
    var s' := Dequeue(s, c, p);
    CastSame(s, s');
    forall d | 0 <= d < |s'.rqs| ensures QueueOk(s', d) && CurrOk(s', d) {
      assert QueueOk(s, d) && CurrOk(s, d);
    }
    forall x <- s'.tasks ensures if x in ps + {p} then Adrift(s', x) else TaskOk(s', x) {
      Member(s, ps, x);
    }
  }

  function SetCpu(s: Sys, p: nat, c: nat): Sys
    requires p in s.tasks
  {
    s.(tasks := s.tasks[p := s.tasks[p].(cpu := c)])
  }

  /** A task that is nowhere can be given to another CPU. */
  lemma {:induction false} SetCpuKeeps(s: Sys, ps: set<nat>, p: nat, c: nat)
    requires Limbo(s, ps) && p in ps && c < |s.rqs|
    requires p in s.tasks && s.tasks[p].cpu < |s.rqs| && s.rqs[s.tasks[p].cpu].curr != p
    ensures Limbo(SetCpu(s, p, c), ps)
  {
    var s' := SetCpu(s, p, c);
    CastSame(s, s');
    Member(s, ps, p);
    forall d | 0 <= d < |s'.rqs| ensures QueueOk(s', d) && CurrOk(s', d) {
      assert QueueOk(s, d) && CurrOk(s, d);
      assert IsIdle(s, s.rqs[d].idle);
    }
    forall x <- s'.tasks ensures if x in ps then Adrift(s', x) else TaskOk(s', x) {
      Member(s, ps, x);
    }
  }

  function SetCurr(s: Sys, c: nat, next: nat): Sys
    requires c < |s.rqs|
  {
    s.(rqs := s.rqs[c := s.rqs[c].(curr := next)])
  }

  /** Another task becomes current when the last one needs no CPU any more. */
  lemma {:induction false} SetCurrKeeps(s: Sys, ps: set<nat>, c: nat, next: nat)
    requires Limbo(s, ps) && c < |s.rqs| && (next == s.rqs[c].idle || (Admitted(s, next) && s.tasks[next].cpu == c))
    requires var cur := s.rqs[c].curr;
      cur == next || cur in ps || cur == s.rqs[c].idle
      || (cur in s.tasks && (s.tasks[cur].onRq || s.tasks[cur].state != Running))
    ensures Limbo(SetCurr(s, c, next), ps)
  {
    var s' := SetCurr(s, c, next);
    CastSame(s, s');
    forall d | 0 <= d < |s'.rqs| ensures QueueOk(s', d) && CurrOk(s', d) {
      assert QueueOk(s, d) && CurrOk(s, d);
    }
    forall x <- s'.tasks ensures if x in ps then Adrift(s', x) else TaskOk(s', x) {
      Member(s, ps, x);
      assert IsIdle(s, s.rqs[c].idle);
    }
  }
}

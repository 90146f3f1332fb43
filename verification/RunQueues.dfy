/** Per-CPU run queues: which tasks are queued where, under wakeup, schedule, steal, balance, stop
    and affinity changes, each of which holds `proc_lock`. */
module RunQueues {
  import opened Layout

  datatype State = Uninit | Sleeping | Runnable | Zombie | Stopped

  const IDLE: nat := 0

  // `mask` is the set of CPUs the task may run on.
  datatype Task = Task(state: State, rq: Option<nat>, onRq: bool, onCpu: bool, cpu: nat, mask: set<nat>)

  datatype Sched = Sched(queues: seq<set<nat>>, tasks: map<nat, Task>)

  predicate Allowed(t: Task, cpu: nat) { cpu < 32 && cpu in t.mask }

  predicate InQueue(s: Sched, c: nat, t: nat) { c < |s.queues| && t in s.queues[c] }

  // A queued task's own fields agree with the queue it is in.
  predicate QueuedOk(s: Sched, c: nat, t: nat) {
    t in s.tasks && t != IDLE && s.tasks[t].rq == Some(c) && Allowed(s.tasks[t], c)
  }

  predicate TaskOk(s: Sched, t: nat)
    requires t in s.tasks
  {
    (s.tasks[t].onRq <==> s.tasks[t].rq.Some?) && (s.tasks[t].rq.Some? ==> InQueue(s, s.tasks[t].rq.value, t))
  }

  ghost predicate Inv(s: Sched) {
    && (forall c: nat, t {:trigger InQueue(s, c, t)} | InQueue(s, c, t) :: QueuedOk(s, c, t))
    && (forall t {:trigger TaskOk(s, t)} | t in s.tasks :: TaskOk(s, t))
  }

  /** A task is in at most one run queue, on a CPU of its mask. */
  lemma OneQueue(s: Sched, c: nat, c': nat, t: nat)
    requires Inv(s) && InQueue(s, c, t) && InQueue(s, c', t)
    ensures c == c' && t in s.tasks && Allowed(s.tasks[t], c)
  {
    assert QueuedOk(s, c, t) && QueuedOk(s, c', t);
  }

  // Some of the first n CPUs may run the task.
  predicate HasCpu(k: Task, n: nat) { exists c: nat :: c < n && Allowed(k, c) }

  // All queued tasks.
  ghost predicate Queued(s: Sched, t: nat) { exists c: nat :: InQueue(s, c, t) }

  /** Nobody is lost: every task other than the idle one has a CPU it may run on, and one that is
      runnable is on a CPU or in a queue, except for a task `but` that a step has in its hands. */
  ghost predicate Ready(s: Sched, but: Option<nat>) {
    forall t {:trigger ReadyAt(s, t, but)} | t in s.tasks && t != IDLE :: ReadyAt(s, t, but)
  }

  predicate ReadyAt(s: Sched, t: nat, but: Option<nat>)
    requires t in s.tasks
  {
    && HasCpu(s.tasks[t], |s.queues|)
    && (Some(t) != but && s.tasks[t].state == Runnable ==> s.tasks[t].onCpu || s.tasks[t].rq.Some?)
  }

  // One task changes; the others are as ready as they were.
  lemma ReadyOthers(s: Sched, s': Sched, t: nat, but: Option<nat>)
    requires Ready(s, but) && (but == None || but == Some(t)) && |s'.queues| == |s.queues| && t in s'.tasks
    requires forall x | x in s'.tasks && x != t :: x in s.tasks && s'.tasks[x] == s.tasks[x]
    requires t == IDLE || HasCpu(s'.tasks[t], |s'.queues|)
    ensures Ready(s', Some(t))
    ensures t == IDLE || ReadyAt(s', t, None) ==> Ready(s', None)
  {
    forall x | x in s'.tasks && x != IDLE && x != t ensures ReadyAt(s', x, None) { assert ReadyAt(s, x, but); }
  }

  // A task keeps its CPUs when it keeps its mask.
  lemma KeepsCpu(s: Sched, t: nat, but: Option<nat>, k: Task, n: nat)
    requires Ready(s, but) && t in s.tasks && k.mask == s.tasks[t].mask && n == |s.queues|
    ensures t == IDLE || HasCpu(k, n)
  {
    if t != IDLE {
      assert ReadyAt(s, t, but);
      var c: nat :| c < n && Allowed(s.tasks[t], c);
      assert Allowed(k, c);
    }
  }

  // ---- the two elementary changes -----------------------------------------------------------------

  function Enqueued(s: Sched, c: nat, t: nat): Sched
    requires c < |s.queues| && t in s.tasks
  {
    Sched(s.queues[c := s.queues[c] + {t}], s.tasks[t := s.tasks[t].(rq := Some(c), onRq := true, cpu := c)])
  }

  function Dequeued(s: Sched, c: nat, t: nat): Sched
    requires c < |s.queues| && t in s.tasks
  {
    Sched(s.queues[c := s.queues[c] - {t}], s.tasks[t := s.tasks[t].(rq := None, onRq := false)])
  }

  lemma EnqueueKeeps(s: Sched, c: nat, t: nat)
    requires Inv(s) && c < |s.queues| && t in s.tasks && t != IDLE && s.tasks[t].rq == None && Allowed(s.tasks[t], c)
    ensures Inv(Enqueued(s, c, t))
    ensures forall x :: Queued(Enqueued(s, c, t), x) <==> Queued(s, x) || x == t
    ensures t !in s.queues[c]
  {
    var s' := Enqueued(s, c, t);
    assert InQueue(s, c, t) ==> QueuedOk(s, c, t);
    forall b: nat, x | InQueue(s', b, x) ensures QueuedOk(s', b, x) {
      if x != t { assert InQueue(s, b, x); } else { assert InQueue(s, b, t) ==> QueuedOk(s, b, t); }
    }
    forall x | x in s'.tasks ensures TaskOk(s', x) { assert TaskOk(s, x); }
    forall x ensures Queued(s', x) <==> Queued(s, x) || x == t {
      if Queued(s, x) { var b: nat :| InQueue(s, b, x); assert InQueue(s', b, x); }
      assert InQueue(s', c, t);
      if Queued(s', x) && x != t { var b: nat :| InQueue(s', b, x); assert InQueue(s, b, x); }
    }
  }

  lemma DequeueKeeps(s: Sched, c: nat, t: nat)
    requires Inv(s) && InQueue(s, c, t)
    ensures t in s.tasks && Inv(Dequeued(s, c, t))
    ensures forall x :: Queued(Dequeued(s, c, t), x) <==> Queued(s, x) && x != t
  {
    assert QueuedOk(s, c, t);
    var s' := Dequeued(s, c, t);
    forall b: nat, x | InQueue(s', b, x) ensures QueuedOk(s', b, x) && x != t {
      assert InQueue(s, b, x);
      if x == t { OneQueue(s, b, c, t); }
    }
    forall x | x in s'.tasks ensures TaskOk(s', x) {
      assert TaskOk(s, x);
      if x != t && s.tasks[x].rq.Some? { assert InQueue(s', s.tasks[x].rq.value, x); }
    }
    forall x ensures Queued(s', x) <==> Queued(s, x) && x != t {
      if Queued(s, x) && x != t { var b: nat :| InQueue(s, b, x); assert InQueue(s', b, x); }
      if Queued(s', x) { var b: nat :| InQueue(s', b, x); assert InQueue(s, b, x); }
    }
  }

  // Fields that the queues do not depend on.
  lemma FieldsKeep(s: Sched, t: nat, k: Task)
    requires Inv(s) && t in s.tasks && k.rq == s.tasks[t].rq && k.onRq == s.tasks[t].onRq
    requires k.rq.Some? ==> Allowed(k, k.rq.value)
    ensures Inv(s.(tasks := s.tasks[t := k]))
    ensures forall x :: Queued(s.(tasks := s.tasks[t := k]), x) <==> Queued(s, x)
  {
    var s' := s.(tasks := s.tasks[t := k]);
    forall b: nat, x | InQueue(s', b, x) ensures QueuedOk(s', b, x) { assert InQueue(s, b, x) && QueuedOk(s, b, x); }
    forall x | x in s'.tasks ensures TaskOk(s', x) { assert TaskOk(s, x); assert TaskOk(s, t); }
    forall x ensures Queued(s', x) <==> Queued(s, x) {
      if Queued(s, x) { var b: nat :| InQueue(s, b, x); assert InQueue(s', b, x); }
      if Queued(s', x) { var b: nat :| InQueue(s', b, x); assert InQueue(s, b, x); }
    }
  }

  class Scheduler {
    var queues: seq<set<nat>>
    var procNum: seq<nat>
    var tasks: map<nat, Task>

    ghost function S(): Sched
      reads this
    { Sched(queues, tasks) }

    ghost predicate Valid()
      reads this
    {
      && Inv(S()) && |queues| == |procNum| > 0 && IDLE in tasks && tasks[IDLE].rq == None
      && forall c | 0 <= c < |queues| :: procNum[c] == |queues[c]|
    }

    // sched_init, with tasks that are in no queue.
    constructor (cpus: nat, tasks: map<nat, Task>)
      requires cpus > 0 && IDLE in tasks && forall t | t in tasks :: tasks[t].rq == None && !tasks[t].onRq
      ensures Valid() && |queues| == cpus && this.tasks == tasks
    {
      queues, procNum, this.tasks := seq(cpus, _ => {}), seq(cpus, _ => 0), tasks;
    }

    // The class's enqueue with the bookkeeping around it.
    method Enqueue(c: nat, t: nat)
      requires Valid() && c < |queues| && t in tasks && t != IDLE && tasks[t].rq == None && Allowed(tasks[t], c)
      modifies this
      ensures Valid() && S() == Enqueued(old(S()), c, t) && |queues| == |old(queues)|
      ensures procNum == old(procNum)[c := old(procNum)[c] + 1]
      ensures forall x :: Queued(S(), x) <==> Queued(old(S()), x) || x == t
    {
      hide Inv;
      EnqueueKeeps(S(), c, t);
      tasks := tasks[t := tasks[t].(rq := Some(c), onRq := true, cpu := c)];
      queues := queues[c := queues[c] + {t}];
      procNum := procNum[c := procNum[c] + 1];
    }

    method Dequeue(c: nat, t: nat)
      requires Valid() && c < |queues| && t in queues[c]
      modifies this
      ensures Valid() && t in old(tasks) && S() == Dequeued(old(S()), c, t) && |queues| == |old(queues)|
      ensures procNum == old(procNum)[c := old(procNum)[c] - 1]
      ensures forall x :: Queued(S(), x) <==> Queued(old(S()), x) && x != t
    {
      hide Inv;
      assert InQueue(S(), c, t);
      DequeueKeeps(S(), c, t);
      tasks := tasks[t := tasks[t].(rq := None, onRq := false)];
      queues := queues[c := queues[c] - {t}];
      procNum := procNum[c := procNum[c] - 1];
    }

    // pick_next_for_cpu: some task of queue c allowed on the CPU, if there is one.
    method Pick(c: nat, cpu: nat) returns (r: Option<nat>)
      requires Valid() && c < |queues|
      ensures r.Some? ==> r.value in queues[c] && r.value in tasks && Allowed(tasks[r.value], cpu)
      ensures r.None? ==> forall t | t in queues[c] :: t in tasks && !Allowed(tasks[t], cpu)
    {
      assert forall t | t in queues[c] :: InQueue(S(), c, t) && QueuedOk(S(), c, t);
      if t :| t in queues[c] && t in tasks && Allowed(tasks[t], cpu) {
        r := Some(t);
      } else {
        r := None;
      }
    }

    /** sched_choose_cpu: the least loaded allowed CPU, the task's own one among equals. */
    method ChooseCpu(t: nat) returns (best: Option<nat>)
      requires Valid() && t in tasks
      ensures best.None? ==> forall c: nat | c < |queues| :: !Allowed(tasks[t], c)
      ensures best.Some? ==>
        && best.value < |queues| && Allowed(tasks[t], best.value)
        && (forall c: nat | c < |queues| && Allowed(tasks[t], c) :: procNum[best.value] <= procNum[c])
        && (var own := tasks[t].cpu; own < |queues| && Allowed(tasks[t], own) && procNum[own] == procNum[best.value] ==>
              best.value == tasks[t].cpu)
    {
      best := None;
      var i := 0;
      while i < |queues|
        invariant 0 <= i <= |queues|
        invariant best.None? ==> forall c: nat | c < i :: !Allowed(tasks[t], c)
        invariant best.Some? ==>
          && best.value < i && Allowed(tasks[t], best.value)
          && (forall c: nat | c < i && Allowed(tasks[t], c) :: procNum[best.value] <= procNum[c])
          && (tasks[t].cpu < i && Allowed(tasks[t], tasks[t].cpu) && procNum[tasks[t].cpu] == procNum[best.value] ==>
              best.value == tasks[t].cpu)
      {
        if Allowed(tasks[t], i) {
          if best.None? || procNum[i] < procNum[best.value]
            || (procNum[i] == procNum[best.value] && tasks[t].cpu == i) {
            best := Some(i);
          }
        }
        i := i + 1;
      }
    }

    /** sched_enqueue_proc_locked */
    method EnqueueProc(t: nat) returns (queued: bool)
      requires Valid() && t in tasks
      modifies this
      ensures Valid() && tasks.Keys == old(tasks.Keys) && |queues| == |old(queues)|
      ensures queued <==>
        && t != IDLE && !old(tasks)[t].onCpu && old(tasks)[t].rq == None && old(tasks)[t].state == Runnable
        && HasCpu(old(tasks)[t], |old(queues)|)
      ensures queued ==>
        && tasks[t].rq.Some? && tasks[t].rq.value < |queues| == |old(procNum)|
        && S() == Enqueued(old(S()), tasks[t].rq.value, t)
        && forall c: nat | c < |queues| && Allowed(tasks[t], c) :: old(procNum)[tasks[t].rq.value] <= old(procNum)[c]
      ensures !queued ==> unchanged(this)
      ensures queued ==> forall x :: Queued(S(), x) <==> Queued(old(S()), x) || x == t
    {
      if t == IDLE { return false; }
      var cpu := ChooseCpu(t);
      if cpu.None? { return false; }
      RqFlag(S(), t);
      queued := !tasks[t].onCpu && !tasks[t].onRq && tasks[t].rq == None && tasks[t].state == Runnable;
      if queued { Enqueue(cpu.value, t); }
    }

    /** wakeup_proc */
    method Wakeup(t: nat)
      requires Valid() && t in tasks
      modifies this
      ensures Valid() && tasks.Keys == old(tasks.Keys) && |queues| == |old(queues)|
      ensures forall x | x in tasks && x != t :: tasks[x] == old(tasks)[x]
      ensures tasks[t].onCpu == old(tasks)[t].onCpu && tasks[t].mask == old(tasks)[t].mask
      ensures forall x | x != t :: Queued(S(), x) <==> Queued(old(S()), x)
      ensures t == IDLE || old(tasks)[t].state in {Stopped, Zombie} ==> unchanged(this)
      ensures t != IDLE && old(tasks)[t].state !in {Stopped, Zombie} ==>
        && tasks[t].state == Runnable
        && (Queued(S(), t) <==> Queued(old(S()), t) || (!old(tasks)[t].onCpu && HasCpu(tasks[t], |queues|)))
    {
      if t == IDLE { return; }
      var k := tasks[t];
      if k.state == Stopped || k.state == Zombie { return; }
      RqFlag(S(), t);
      NotQueued(S(), t);
      if k.state != Runnable {
        FieldsKeep(S(), t, k.(state := Runnable));
        tasks := tasks[t := k.(state := Runnable)];
        var q := EnqueueProc(t);
      } else if !k.onCpu && !k.onRq && k.rq == None {
        var q := EnqueueProc(t);
      }
    }

    /** sched_stop_locked */
    method Stop(t: nat)
      requires Valid() && t in tasks && t != IDLE
      modifies this
      ensures tasks.Keys == old(tasks.Keys) && |queues| == |old(queues)| && forall x | x in tasks
          && x != t :: tasks[x] == old(tasks)[x]
      ensures tasks[t].mask == old(tasks)[t].mask
      ensures Valid() && t in tasks && tasks[t].state == Stopped && tasks[t].rq == None
      ensures forall x :: Queued(S(), x) <==> Queued(old(S()), x) && x != t
    {
      RqFlag(S(), t);
      ghost var s0 := S();
      NotQueued(s0, t);
      if tasks[t].onRq && tasks[t].rq.Some? { Dequeue(tasks[t].rq.value, t); }
      FieldsKeep(S(), t, tasks[t].(state := Stopped));
      tasks := tasks[t := tasks[t].(state := Stopped)];
    }

    /** sched_setaffinity_locked: a queued task whose CPU is no longer allowed moves to another queue. */
    method SetAffinity(t: nat, mask: set<nat>)
      requires Valid() && t in tasks && t != IDLE
      modifies this
      ensures tasks.Keys == old(tasks.Keys) && |queues| == |old(queues)| && forall x | x in tasks
          && x != t :: tasks[x] == old(tasks)[x]
      ensures tasks[t].onCpu == old(tasks)[t].onCpu && tasks[t].state == old(tasks)[t].state
      ensures Valid() && t in tasks && tasks[t].mask == mask
      ensures forall x | x != t :: Queued(S(), x) <==> Queued(old(S()), x)
      ensures tasks[t].rq.Some? ==> Allowed(tasks[t], tasks[t].rq.value)
      ensures var k := old(tasks)[t];
              tasks[t].rq.Some? <==>
              && k.rq.Some?
              && (Allowed(tasks[t], k.rq.value) || (k.state == Runnable && !k.onCpu && HasCpu(tasks[t], |queues|)))
    {
      var k := tasks[t];
      RqFlag(S(), t);
      if k.onRq && k.rq.Some? && !Allowed(k.(mask := mask), k.rq.value) {
        Dequeue(k.rq.value, t);
        FieldsKeep(S(), t, tasks[t].(mask := mask));
        tasks := tasks[t := tasks[t].(mask := mask)];
        if tasks[t].state == Runnable && !tasks[t].onCpu { var q := EnqueueProc(t); }
        RqFlag(S(), t);
      } else {
        FieldsKeep(S(), t, k.(mask := mask));
        tasks := tasks[t := k.(mask := mask)];
      }
    }

    /** sched_steal: a task of another queue that may run here. */
    method Steal(cpu: nat) returns (next: Option<nat>)
      requires Valid() && cpu < |queues|
      modifies this
      ensures Valid() && |queues| == |old(queues)| && tasks.Keys == old(tasks.Keys)
      ensures forall x | x in tasks && Some(x) != next :: tasks[x] == old(tasks)[x]
      ensures next.Some? ==> next.value in tasks && tasks[next.value].mask == old(tasks)[next.value].mask
      ensures next.Some? ==>
        && next.value in tasks && next.value != IDLE && tasks[next.value].rq == None && Allowed(tasks[next.value], cpu)
        && Queued(old(S()), next.value) && forall x :: Queued(S(), x) <==> Queued(old(S()), x) && x != next.value
      ensures next.None? ==>
        unchanged(this) && forall c: nat {:trigger NoneFor(S(), c, cpu)} | c < |queues|
          && c != cpu :: NoneFor(S(), c, cpu)
    {
      var n, i := |queues|, 1;
      while i < n
        invariant 1 <= i && unchanged(this) && Valid()
        invariant forall j: nat {:trigger Victim(cpu, j, n)} | 1 <= j < i && j < n ::
            NoneFor(S(), Victim(cpu, j, n), cpu)
      {
        var victim := Victim(cpu, i, n);
        VictimIs(cpu, i, n);
        if procNum[victim] != 0 {
          next := Pick(victim, cpu);
          if next.Some? {
            var t := next.value;
            assert InQueue(S(), victim, t) && QueuedOk(S(), victim, t);
            Dequeue(victim, t);
            FieldsKeep(S(), t, tasks[t].(cpu := cpu));
            tasks := tasks[t := tasks[t].(cpu := cpu)];
            return;
          }
        } else {
          assert queues[victim] == {};
        }
        i := i + 1;
      }
      forall c: nat | c < n && c != cpu ensures NoneFor(S(), c, cpu) { VictimOf(cpu, c, n); }
      next := None;
    }

    /** sched_balance: one task moves from the most to the least loaded queue; no task is lost. */
    method Balance() returns (moved: Option<nat>, busy: nat, target: nat)
      requires Valid()
      modifies this
      ensures tasks.Keys == old(tasks.Keys) && (Ready(old(S()), None) ==> Ready(S(), None))
      ensures Valid() && |queues| == |old(queues)| && forall x :: Queued(S(), x) <==> Queued(old(S()), x)
      ensures moved.None? ==> unchanged(this)
      ensures busy < |queues| && target < |queues| == |old(procNum)|
      ensures forall c: nat | c < |queues| :: old(procNum)[target] <= old(procNum)[c] <= old(procNum)[busy]
      ensures moved.Some? <==> old(procNum)[busy] > old(procNum)[target] + 1 && !NoneFor(old(S()), busy, target)
      ensures moved.Some? ==>
        && moved.value in old(queues)[busy] && moved.value in queues[target]
        && procNum == old(procNum)[busy := old(procNum)[busy] - 1][target := old(procNum)[target] + 1]
    {
      busy, target := Extremes();
      if |queues| < 2 || busy == target || procNum[busy] <= procNum[target] + 1 { return None, busy, target; }
      moved := Pick(busy, target);
      if moved.Some? {
        var t := moved.value;
        assert InQueue(S(), busy, t) && QueuedOk(S(), busy, t);
        ghost var s0 := S();
        Dequeue(busy, t);
        Enqueue(target, t);
        if Ready(s0, None) {
          KeepsCpu(s0, t, None, tasks[t], |queues|);
          ReadyOthers(s0, S(), t, None);
        }
      }
    }

    // The first most loaded and the first least loaded queue.
    method Extremes() returns (busy: nat, target: nat)
      requires Valid()
      ensures busy < |queues| && target < |queues|
      ensures forall c: nat | c < |queues| :: procNum[target] <= procNum[c] <= procNum[busy]
    {
      busy, target := 0, 0;
      var i := 1;
      while i < |queues|
        invariant 1 <= i <= |queues| && busy < i && target < i
        invariant forall c: nat | c < i :: procNum[target] <= procNum[c] <= procNum[busy]
      {
        if procNum[i] > procNum[busy] { busy := i; }
        if procNum[i] < procNum[target] { target := i; }
        i := i + 1;
      }
    }

    /** schedule on one CPU: the previous task is requeued if it can go on, the next one leaves its
        queue and is in none. */
    method Schedule(cpu: nat, prev: nat) returns (next: nat)
      requires Valid() && cpu < |queues| && prev in tasks
      modifies this
      ensures Valid() && next in tasks && tasks[next].rq == None && tasks[next].onCpu && tasks[next].cpu == cpu
      ensures next == IDLE || Allowed(tasks[next], cpu)
      ensures var kept := old(tasks[prev].state == Runnable && prev != IDLE && Allowed(tasks[prev], cpu)
          && tasks[prev].rq == None);
              forall x :: Queued(S(), x) <==> (Queued(old(S()), x) || (x == prev && kept)) && x != next
      ensures tasks.Keys == old(tasks.Keys) && (Ready(old(S()), None) ==> Ready(S(), None))
    {
      hide Inv, Ready;
      var chosen := Choose(cpu, prev);
      next := if chosen.Some? then chosen.value else IDLE;
      ghost var s2 := S();
      NotQueued(s2, next);
      FieldsKeep(s2, next, tasks[next].(cpu := cpu, onCpu := true));
      tasks := tasks[next := tasks[next].(cpu := cpu, onCpu := true)];
      if Ready(old(S()), None) {
        KeepsCpu(s2, next, chosen, tasks[next], |queues|);
        ReadyOthers(s2, S(), next, chosen);
      }
    }

    // The CPU's own queue first, then the others.
    method Choose(cpu: nat, prev: nat) returns (next: Option<nat>)
      requires Valid() && cpu < |queues| && prev in tasks
      modifies this
      ensures Valid() && |queues| == |old(queues)| && tasks.Keys == old(tasks.Keys)
      ensures next.Some? ==>
          next.value in tasks && next.value != IDLE && tasks[next.value].rq == None && Allowed(tasks[next.value], cpu)
      ensures var kept := old(tasks[prev].state == Runnable && prev != IDLE && Allowed(tasks[prev], cpu)
          && tasks[prev].rq == None);
              forall x :: Queued(S(), x) <==> (Queued(old(S()), x) || (x == prev && kept)) && Some(x) != next
      ensures Ready(old(S()), None) ==> Ready(S(), next)
    {
      hide Inv, Ready;
      next := Requeue(cpu, prev);
      if next.None? {
        ghost var s1 := S();
        next := Steal(cpu);
        if Ready(old(S()), None) && next.Some? {
          KeepsCpu(s1, next.value, None, tasks[next.value], |queues|);
          ReadyOthers(s1, S(), next.value, None);
        }
      }
    }

    // The part of schedule under the CPU's own queue lock.
    method Requeue(cpu: nat, prev: nat) returns (next: Option<nat>)
      requires Valid() && cpu < |queues| && prev in tasks
      modifies this
      ensures Valid() && |queues| == |old(queues)| && tasks.Keys == old(tasks.Keys)
      ensures next.Some? ==>
          next.value in tasks && next.value != IDLE && tasks[next.value].rq == None && Allowed(tasks[next.value], cpu)
      ensures var kept := old(tasks[prev].state == Runnable && prev != IDLE && Allowed(tasks[prev], cpu)
          && tasks[prev].rq == None);
              forall x :: Queued(S(), x) <==> (Queued(old(S()), x) || (x == prev && kept)) && Some(x) != next
      ensures Ready(old(S()), None) ==> Ready(S(), next)
    {
      RqFlag(S(), prev);
      if tasks[prev].state == Runnable && prev != IDLE && Allowed(tasks[prev], cpu) && tasks[prev].rq == None
        && !tasks[prev].onRq {
        Enqueue(cpu, prev);
        if Ready(old(S()), None) {
          KeepsCpu(old(S()), prev, None, tasks[prev], |queues|);
          ReadyOthers(old(S()), S(), prev, None);
        }
      }
      next := None;
      ghost var s1 := S();
      if procNum[cpu] != 0 {
        next := Pick(cpu, cpu);
        if next.Some? {
          assert InQueue(S(), cpu, next.value) && QueuedOk(S(), cpu, next.value);
          Dequeue(cpu, next.value);
          if Ready(old(S()), None) {
            KeepsCpu(s1, next.value, None, tasks[next.value], |queues|);
            ReadyOthers(s1, S(), next.value, None);
          }
        }
      }
    }

    /** proc_switch_complete: the task that was switched out is off its CPU; a wakeup that came while it
        was still on is made good, and the parent of a dead task is woken. */
    method SwitchDone(t: nat, waiting: Option<nat>)
      requires Valid() && t in tasks && t != IDLE && (waiting.Some? ==> waiting.value in tasks && waiting.value != t)
      modifies this
      ensures Valid() && tasks.Keys == old(tasks.Keys) && |queues| == |old(queues)| && !tasks[t].onCpu
      ensures tasks[t].state == old(tasks)[t].state
      ensures tasks[t].state == Runnable && HasCpu(tasks[t], |queues|) ==> tasks[t].rq.Some?
      ensures Ready(old(S()), None) ==> Ready(S(), None)
    {
      ghost var s0 := S();
      RqFlag(S(), t);
      FieldsKeep(S(), t, tasks[t].(onCpu := false));
      tasks := tasks[t := tasks[t].(onCpu := false)];
      ghost var s1 := S();
      if Ready(s0, None) {
        KeepsCpu(s0, t, None, tasks[t], |queues|);
        ReadyOthers(s0, s1, t, None);
      }
      RqFlag(S(), t);
      if tasks[t].state == Runnable && tasks[t].rq == None { Wakeup(t); }
      QueuedIs(S(), t);
      if Ready(s0, None) {
        KeepsCpu(s1, t, Some(t), tasks[t], |queues|);
        ReadyOthers(s1, S(), t, Some(t));
      }
      if tasks[t].state == Zombie && waiting.Some? { WakeReady(waiting.value); }
    }

    // A wakeup loses nobody.
    method WakeReady(t: nat)
      requires Valid() && t in tasks
      modifies this
      ensures Valid() && tasks.Keys == old(tasks.Keys) && |queues| == |old(queues)|
      ensures forall x | x in tasks && x != t :: tasks[x] == old(tasks)[x]
      ensures Ready(old(S()), None) ==> Ready(S(), None)
    {
      ghost var s0 := S();
      Wakeup(t);
      QueuedIs(S(), t);
      QueuedIs(s0, t);
      if Ready(s0, None) {
        KeepsCpu(s0, t, None, tasks[t], |queues|);
        ReadyOthers(s0, S(), t, None);
        if t != IDLE { assert ReadyAt(s0, t, None); }
      }
    }

    method StopReady(t: nat)
      requires Valid() && t in tasks && t != IDLE
      modifies this
      ensures Valid() && (Ready(old(S()), None) ==> Ready(S(), None))
    {
      ghost var s0 := S();
      Stop(t);
      if Ready(s0, None) {
        KeepsCpu(s0, t, None, tasks[t], |queues|);
        ReadyOthers(s0, S(), t, None);
      }
    }

    /** The running task goes to sleep or ends; the next `schedule` takes it off its CPU. */
    method Leave(t: nat, state: State)
      requires Valid() && t in tasks && t != IDLE && state in {Sleeping, Zombie}
      modifies this`tasks
      ensures Valid() && tasks == old(tasks)[t := old(tasks)[t].(state := state)]
      ensures Ready(old(S()), None) ==> Ready(S(), None)
    {
      ghost var s0 := S();
      RqFlag(S(), t);
      FieldsKeep(S(), t, tasks[t].(state := state));
      tasks := tasks[t := tasks[t].(state := state)];
      if Ready(s0, None) {
        KeepsCpu(s0, t, None, tasks[t], |queues|);
        ReadyOthers(s0, S(), t, None);
      }
    }

    /** do_setaffinity: refused for a mask without CPUs or with one that is not online, and for a dead
        task. */
    method SetMask(t: nat, mask: set<nat>) returns (ok: bool)
      requires Valid() && t in tasks && t != IDLE
      modifies this
      ensures Valid() && tasks.Keys == old(tasks.Keys)
      ensures ok <==>
        && mask != {} && (forall c | c in mask :: c < |old(queues)| && c < 32)
        && old(tasks)[t].state != Zombie
      ensures ok ==> tasks[t].mask == mask
      ensures Ready(old(S()), None) ==> Ready(S(), None)
    {
      ok := mask != {} && (forall c | c in mask :: c < |queues| && c < 32) && tasks[t].state != Zombie;
      if ok {
        ghost var s0 := S();
        SetAffinity(t, mask);
        var c :| c in mask;
        assert Allowed(tasks[t], c);
        if Ready(s0, None) {
          assert ReadyAt(s0, t, None);
          ReadyOthers(s0, S(), t, None);
        }
      }
    }

    /** A new process, not yet runnable, with its parent's mask. */
    method Spawn(t: nat, parent: nat)
      requires Valid() && t !in tasks && parent in tasks && parent != IDLE
      modifies this`tasks
      ensures Valid() && tasks == old(tasks)[t := Task(Uninit, None, false, false, 0, old(tasks)[parent].mask)]
      ensures Ready(old(S()), None) ==> Ready(S(), None)
    {
      ghost var s0 := S();
      var k := Task(Uninit, None, false, false, 0, tasks[parent].mask);
      SpawnKeeps(s0, t, k);
      tasks := tasks[t := k];
      if Ready(s0, None) {
        KeepsCpu(s0, parent, None, k, |queues|);
        ReadyOthers(s0, S(), t, None);
      }
    }
  }

  datatype Event =
    | Wake(t: nat)
    | Resched(cpu: nat, prev: nat)
    | Switched(t: nat, waiting: Option<nat>)
    | Sleep(t: nat)
    | Exit(t: nat)
    | Rebalance
    | Halt(t: nat)
    | Affine(t: nat, mask: set<nat>)
    | Create(t: nat, parent: nat)

  /** Every run of scheduler steps keeps the queues and the tasks' own fields in agreement, and loses
      nobody: in every state it reaches, a runnable task is on a CPU or in exactly one run queue, of a
      CPU in its mask. */
  method Drive(s: Scheduler, events: seq<Event>)
    requires s.Valid() && Ready(s.S(), None)
    modifies s
    ensures s.Valid() && Ready(s.S(), None)
    ensures forall c: nat, c': nat, t | InQueue(s.S(), c, t) && InQueue(s.S(), c', t) ::
      c == c' && t in s.tasks && Allowed(s.tasks[t], c)
    ensures forall t | t in s.tasks && t != IDLE && s.tasks[t].state == Runnable :: s.tasks[t].onCpu || Queued(s.S(), t)
  {
    var k := 0;
    while k < |events|
      invariant 0 <= k <= |events| && s.Valid() && Ready(s.S(), None)
    {
      Step(s, events[k]);
      k := k + 1;
    }
    forall c: nat, c': nat, t | InQueue(s.S(), c, t) && InQueue(s.S(), c', t)
      ensures c == c' && t in s.tasks && Allowed(s.tasks[t], c)
    { OneQueue(s.S(), c, c', t); }
    forall t | t in s.tasks && t != IDLE && s.tasks[t].state == Runnable ensures s.tasks[t].onCpu || Queued(s.S(), t) {
      assert ReadyAt(s.S(), t, None);
      QueuedIs(s.S(), t);
    }
  }

  method Step(s: Scheduler, e: Event)
    requires s.Valid() && Ready(s.S(), None)
    modifies s
    ensures s.Valid() && Ready(s.S(), None)
  {
    hide Inv, Ready;
    match e {
      case Wake(t) => if t in s.tasks { s.WakeReady(t); }
      case Resched(cpu, prev) => if cpu < |s.queues| && prev in s.tasks { var next := s.Schedule(cpu, prev); }
      case Switched(t, waiting) =>
        if t in s.tasks && t != IDLE && (waiting.Some? ==> waiting.value in s.tasks && waiting.value != t) {
          s.SwitchDone(t, waiting);
        }
      case Sleep(t) => if t in s.tasks && t != IDLE { s.Leave(t, Sleeping); }
      case Exit(t) => if t in s.tasks && t != IDLE { s.Leave(t, Zombie); }
      case Rebalance => var moved, busy, target := s.Balance();
      case Halt(t) => if t in s.tasks && t != IDLE { s.StopReady(t); }
      case Affine(t, mask) => if t in s.tasks && t != IDLE { var ok := s.SetMask(t, mask); }
      case Create(t, parent) => if t !in s.tasks && parent in s.tasks && parent != IDLE { s.Spawn(t, parent); }
    }
  }

  function Victim(cpu: nat, i: nat, n: nat): nat
    requires n > 0
  { (cpu + i) % n }

  ghost predicate NoneFor(s: Sched, c: nat, cpu: nat) {
    c < |s.queues| && forall t | t in s.queues[c] :: t in s.tasks && !Allowed(s.tasks[t], cpu)
  }

  lemma VictimIs(cpu: nat, i: nat, n: nat)
    requires cpu < n && 1 <= i < n
    ensures Victim(cpu, i, n) == if cpu + i < n then cpu + i else cpu + i - n
  {
    if cpu + i < n { WrapOnce(cpu + i, n); } else { WrapOnce(cpu + i - n, n); }
  }

  // Every other queue is a victim.
  lemma VictimOf(cpu: nat, c: nat, n: nat)
    requires cpu < n && c < n && c != cpu
    ensures var i := if c > cpu then c - cpu else c + n - cpu; 1 <= i < n && Victim(cpu, i, n) == c
  {
    VictimIs(cpu, if c > cpu then c - cpu else c + n - cpu, n);
  }

  lemma RqFlag(s: Sched, t: nat)
    requires Inv(s) && t in s.tasks
    ensures s.tasks[t].onRq <==> s.tasks[t].rq.Some?
    ensures s.tasks[t].rq.Some? ==> InQueue(s, s.tasks[t].rq.value, t) && Allowed(s.tasks[t], s.tasks[t].rq.value)
  {
    assert TaskOk(s, t);
    if s.tasks[t].rq.Some? { assert InQueue(s, s.tasks[t].rq.value, t) && QueuedOk(s, s.tasks[t].rq.value, t); }
  }

  lemma NotQueued(s: Sched, t: nat)
    requires Inv(s) && t in s.tasks
    ensures s.tasks[t].rq == None ==> !Queued(s, t)
  {
    if s.tasks[t].rq == None {
      forall c: nat ensures !InQueue(s, c, t) { assert InQueue(s, c, t) ==> QueuedOk(s, c, t); }
    }
  }

  // Being in a queue is having one.
  lemma QueuedIs(s: Sched, t: nat)
    requires Inv(s) && t in s.tasks
    ensures Queued(s, t) <==> s.tasks[t].rq.Some?
  {
    RqFlag(s, t);
    NotQueued(s, t);
  }

  lemma SpawnKeeps(s: Sched, t: nat, k: Task)
    requires Inv(s) && t !in s.tasks && k.rq == None && !k.onRq
    ensures Inv(s.(tasks := s.tasks[t := k]))
  {
    var s' := s.(tasks := s.tasks[t := k]);
    forall c: nat, x | InQueue(s', c, x) ensures QueuedOk(s', c, x) { assert InQueue(s, c, x) && QueuedOk(s, c, x); }
    forall x | x in s'.tasks ensures TaskOk(s', x) { if x != t { assert TaskOk(s, x); } }
  }
}

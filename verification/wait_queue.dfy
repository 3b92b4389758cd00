/**
 The intrusive FIFO wait queue of a completion: threads linked from `head` through `waitLink`.
 */
module WaitQueues {
  import opened Basics
  import opened QueueSteps
  import opened RunQueues
  import opened Scheduling
  import opened SchedulerRuns

  /** From `first` the wait links lead through exactly `q`, then to null. */
  ghost predicate Chained(first: Thread?, q: seq<Thread>)
    reads q
  {
    && first == At(q, 0) && Distinct(q)
    && forall i: nat {:trigger LinkOk(q, i)} | i < |q| :: LinkOk(q, i)
  }

  ghost predicate LinkOk(q: seq<Thread>, i: nat)
    requires i < |q|
    reads q
  {
    q[i].waitLink == At(q, i + 1)
  }

  lemma ChainedTail(q: seq<Thread>)
    requires q != [] && Chained(q[0], q)
    ensures Chained(q[0].waitLink, q[1..])
  {
    assert LinkOk(q, 0);
    forall i: nat | i < |q[1..]| ensures LinkOk(q[1..], i) { assert LinkOk(q, i + 1); }
  }

  class WaitQueue {
    var head: Thread?
    ghost var queue: seq<Thread>

    constructor ()
      ensures queue == [] && Linked()
    {
      head, queue := null, [];
    }

    ghost predicate Linked()
      reads this, queue
    {
      Chained(head, queue)
    }

    /** `wait_queue_enqueue_locked`: to the end, unless the thread already waits here. */
    method Enqueue(t: Thread)
      requires Linked()
      modifies this, queue`waitLink, t`waitLink
      ensures Linked() && queue == if t in old(queue) then old(queue) else old(queue) + [t]
    {
      if head == null {
        t.waitLink := null;
        head := t;
        queue := [t];
        return;
      }
      var present, tail := FindTail(t);
      if present { return; }
      t.waitLink := null;
      tail.waitLink := t;
      queue := queue + [t];
      forall i: nat | i < |queue| ensures LinkOk(queue, i) {
        if i + 1 < |queue| { assert old(LinkOk(queue, i)); }
      }
    }

    /** Walk the queue, looking for `t` and remembering the last thread. */
    method FindTail(t: Thread) returns (present: bool, tail: Thread)
      requires Linked() && head != null
      ensures present <==> t in queue
      ensures !present ==> tail == queue[|queue| - 1]
    {
      tail := head;
      var current: Thread? := head;
      ghost var n := 0;
      while current != null
        invariant n <= |queue| && current == At(queue, n) && (n > 0 ==> tail == queue[n - 1])
        invariant forall i: nat | i < n :: queue[i] != t
        decreases |queue| - n
      {
        assert LinkOk(queue, n);
        if current == t { return true, tail; }
        tail, current, n := current, current.waitLink, n + 1;
      }
      present := false;
    }

    /** `wait_queue_dequeue_locked` */
    method Dequeue() returns (t: Thread?)
      requires Linked()
      modifies this, queue`waitLink
      ensures Linked() && t == At(old(queue), 0) && queue == if t == null then [] else old(queue)[1..]
      ensures t != null ==> t.waitLink == null
    {
      t := head;
      if t == null { return; }
      ChainedTail(queue);
      head := t.waitLink;
      t.waitLink := null;
      queue := queue[1..];
      forall i: nat | i < |queue| ensures LinkOk(queue, i) { assert old(LinkOk(queue, i + 1)); }
    }

    /** `wait_queue_dequeue_all_locked`: the whole chain is taken at once. */
    method DequeueAll() returns (first: Thread?, ghost taken: seq<Thread>)
      requires Linked()
      modifies this
      ensures Linked() && queue == [] && taken == old(queue) && Chained(first, taken)
    {
      first, taken := head, queue;
      head, queue := null, [];
    }

    /** `wait_queue_count` */
    method Count() returns (n: nat)
      requires Linked()
      ensures n == |queue|
    {
      n := 0;
      var t := head;
      while t != null
        invariant n <= |queue| && t == At(queue, n)
        decreases |queue| - n
      {
        assert LinkOk(queue, n);
        t, n := t.waitLink, n + 1;
      }
    }

    /**
     `wait_queue_wake_all` on a CPU that runs `running`, with the CPU each waiter is to go to: every
     waiter is unlinked and woken once, first come first, and is then on a run queue unless it is
     running or dying.
     */
    method WakeAll(s: Scheduler, targets: seq<nat>, running: Thread?)
      returns (count: nat, ghost woken: seq<Thread>, ghost steps: seq<Step<Thread>>)
      requires Linked() && s.Valid() && |targets| == |queue|
      requires forall i: nat | i < |queue| :: queue[i] in s.threads && !s.IsIdle(queue[i]) && targets[i] < |s.cpus|
      modifies this, queue`waitLink, queue`state, queue`home
      modifies s.cpus`head, s.cpus`tail, s.cpus`length, s.cpus`enqueues, s.cpus`dequeues, s.cpus`queue, s.threads`next
      modifies s.threads`runQueue
      ensures Linked() && queue == [] && woken == old(queue) && count == |woken| && s.Valid()
      ensures IsRun(old(s.Lines()), steps) && s.Lines() == End(old(s.Lines()), steps)
      ensures forall i: nat | i < |woken| :: woken[i].waitLink == null &&
                woken[i].state == WakeState(old(woken[i].state), woken[i] == running)
      ensures forall i: nat | i < |woken| && woken[i].state == Ready :: Queued(s.Lines(), woken[i])
    {
      var thread;
      thread, woken := DequeueAll();
      count, steps := WakeChain(s, thread, targets, running, woken);
    }
  }

  /** The loop of `wait_queue_wake_all` over the chain it took. */
  method WakeChain(s: Scheduler, first: Thread?, targets: seq<nat>, running: Thread?, ghost woken: seq<Thread>)
    returns (count: nat, ghost steps: seq<Step<Thread>>)
    requires Chained(first, woken) && s.Valid() && |targets| == |woken|
    requires forall i: nat | i < |woken| :: woken[i] in s.threads && !s.IsIdle(woken[i]) && targets[i] < |s.cpus|
    modifies woken`waitLink, woken`state, woken`home
    modifies s.cpus`head, s.cpus`tail, s.cpus`length, s.cpus`enqueues, s.cpus`dequeues, s.cpus`queue, s.threads`next
    modifies s.threads`runQueue
    ensures count == |woken| && s.Valid() && IsRun(old(s.Lines()), steps) && s.Lines() == End(old(s.Lines()), steps)
    ensures forall i: nat | i < |woken| :: woken[i].waitLink == null &&
              woken[i].state == WakeState(old(woken[i].state), woken[i] == running)
    ensures forall i: nat | i < |woken| && woken[i].state == Ready :: Queued(s.Lines(), woken[i])
  {
    var thread := first;
    ghost var rest, q := woken, s.Lines();
    count, steps := 0, [];
    while thread != null
      invariant count <= |woken| && rest == woken[count..] && Chained(thread, rest)
      invariant s.Valid() && IsRun(q, steps) && s.Lines() == End(q, steps)
      invariant forall i: nat | i < count :: woken[i].waitLink == null &&
                  woken[i].state == WakeState(old(woken[i].state), woken[i] == running)
      invariant forall i: nat | i < count && woken[i].state == Ready :: Queued(s.Lines(), woken[i])
      invariant forall i: nat | count <= i < |woken| :: woken[i].state == old(woken[i].state)
      decreases |woken| - count
    {
      assert rest != [] && rest[0] == thread;
      ghost var lines := s.Lines();
      var next, step := WakeFirst(s, thread, targets[count], running, rest);
      forall i: nat | i < count && woken[i].state == Ready
        ensures Queued(s.Lines(), woken[i])
      {
        StillQueued(lines, step, woken[i]);
      }
      OneStep(lines, [step]);
      RunJoins(q, steps, [step]);
      steps, rest := steps + [step], rest[1..];
      thread, count := next, count + 1;
    }
  }

  /** `wake_blocked_thread` with its target resolved. */
  method Wake(s: Scheduler, t: Thread, c: nat, running: Thread?) returns (ghost step: Step<Thread>)
    requires s.Valid() && t in s.threads && !s.IsIdle(t) && c < |s.cpus|
    modifies s.cpus`head, s.cpus`tail, s.cpus`length, s.cpus`enqueues, s.cpus`dequeues, s.cpus`queue, s.threads`next
    modifies s.threads`runQueue, t`state, t`home, t`waitLink
    ensures s.Valid() && t.waitLink == null && Enabled(old(s.Lines()), step) && s.Lines() == Apply(old(s.Lines()), step)
    ensures (step.Stay? || step.Enter?)
    ensures t.state == WakeState(old(t.state), t == running) && (t.state == Ready ==> Queued(s.Lines(), t))
  {
    step := Stay;
    t.waitLink := null;
    if t == running { t.state := Running; }
    s.LinksRebuilt();
    if t != running { step := s.MarkReady(t, c); }
  }

  /** Wake the first of a chain; the others stay linked. */
  method WakeFirst(s: Scheduler, t: Thread, c: nat, running: Thread?, ghost rest: seq<Thread>)
    returns (next: Thread?, ghost step: Step<Thread>)
    requires s.Valid() && t in s.threads && !s.IsIdle(t) && c < |s.cpus| && rest != [] && rest[0] == t
    requires Chained(t, rest)
    modifies s.cpus`head, s.cpus`tail, s.cpus`length, s.cpus`enqueues, s.cpus`dequeues, s.cpus`queue, s.threads`next
    modifies s.threads`runQueue, t`state, t`home, t`waitLink
    ensures s.Valid() && t.waitLink == null && Enabled(old(s.Lines()), step) && s.Lines() == Apply(old(s.Lines()), step)
    ensures (step.Stay? || step.Enter?)
    ensures t.state == WakeState(old(t.state), t == running) && (t.state == Ready ==> Queued(s.Lines(), t))
    ensures Chained(next, rest[1..])
  {
    next := t.waitLink;
    assert LinkOk(rest, 0);
    step := Wake(s, t, c, running);
    ghost var tail := rest[1..];
    forall i: nat | i < |tail| ensures LinkOk(tail, i) { assert old(LinkOk(rest, i + 1)) && tail[i] != t; }
  }

  lemma StillQueued<T>(q: Queues<T>, step: Step<T>, t: T)
    requires Enabled(q, step) && (step.Stay? || step.Enter?) && Queued(q, t)
    ensures Queued(Apply(q, step), t)
  {
    var c: nat :| c < |q| && t in q[c];
    assert t in Apply(q, step)[c];
  }

  /** What waking does to a thread's state. */
  function WakeState(s: ThreadState, running: bool): ThreadState
  {
    if running then Running else if s == Dying || s == Free then s else Ready
  }
}

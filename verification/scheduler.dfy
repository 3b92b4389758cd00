/**
 The scheduler over all CPUs: readying, dispatching and clearing threads, and the balancer.  Every
 operation takes one step on the run queues, and every queued thread is on exactly the queue it names.
 */
module Scheduling {
  import opened Basics
  import opened Word64
  import opened QueueSteps
  import opened RunQueues

  class Scheduler {
    /** The CPU list; the first is the boot CPU. */
    const cpus: seq<Cpu>
    /** The thread registry. */
    var threads: set<Thread>
    var balancing: bool

    constructor (cpus: seq<Cpu>)
      requires |cpus| > 0 && Distinct(cpus) && forall i: nat | i < |cpus| ::
                 cpus[i].queue == [] && cpus[i].Linked() && cpus[i].idle == null
      ensures Valid() && this.cpus == cpus && threads == {} && balancing
    {
      this.cpus, threads, balancing := cpus, {}, true;
    }

    ghost function Lines(): Queues<Thread>
      reads this, cpus
    {
      seq(|cpus|, i requires 0 <= i < |cpus| reads this, cpus => cpus[i].queue)
    }

    ghost predicate CpuOk(c: Cpu)
      reads this, c, threads
    {
      && (forall i: nat | i < |c.queue| :: c.queue[i] in threads)
      && c.Linked()
      && (c.idle != null ==> c.idle in threads && c.idle.runQueue == null)
    }

    ghost predicate ThreadOk(t: Thread)
      reads this, t, cpus
    {
      t.runQueue != null ==> t.runQueue in cpus && t in t.runQueue.queue
    }

    ghost predicate Valid()
      reads this, cpus, threads
    {
      && |cpus| > 0 && Distinct(cpus)
      && (forall c {:trigger CpuOk(c)} | c in cpus :: CpuOk(c))
      && (forall t {:trigger ThreadOk(t)} | t in threads :: ThreadOk(t))
    }

    /** Only the queue of `c` changed: threads that left it are on no queue, threads that joined it were on none. */
    twostate predicate OnlyQueue(c: Cpu)
      reads this, cpus, threads
    {
      && threads == old(threads) && c in cpus && c.idle == old(c.idle)
      && (forall d | d in cpus && d != c :: unchanged(d))
      && (forall t | t in old(c.queue) :: t in threads)
      && (forall t | t in c.queue :: t in threads && (t in old(c.queue) || (old(t.runQueue) == null && !IsIdle(t))))
      && c.Linked()
      && (forall t | t in old(c.queue) && t !in c.queue :: t.runQueue == null)
      && (forall t | t in threads && t !in c.queue && t !in old(c.queue) ::
          t.next == old(t.next) && t.runQueue == old(t.runQueue))
    }

    ghost predicate IsIdle(t: Thread)
      reads this, cpus
    {
      exists c | c in cpus :: c.idle == t
    }

    twostate lemma QueueRebuilt(c: Cpu)
      requires old(Valid()) && OnlyQueue(c)
      ensures Valid()
    {
      assert old(CpuOk(c));
      forall t | t in old(c.queue) ensures old(t.runQueue) == c {
        var i :| 0 <= i < |old(c.queue)| && old(c.queue)[i] == t;
        assert old(c.NodeOk(i));
      }
      forall d | d in cpus ensures CpuOk(d) {
        assert old(CpuOk(d));
        if d != c {
          forall i: nat | i < |d.queue| ensures d.NodeOk(i) { assert old(d.NodeOk(i)); }
        }
        if d.idle != null { assert IsIdle(d.idle); }
      }
      forall t | t in threads ensures ThreadOk(t) {
        assert old(ThreadOk(t));
        if t in c.queue { Member(c, t); }
      }
    }

    lemma Member(c: Cpu, t: Thread)
      requires c.Linked() && t in c.queue
      ensures t.runQueue == c
    {
      var i :| 0 <= i < |c.queue| && c.queue[i] == t;
      assert c.NodeOk(i);
    }

    /** A thread that names no queue is on none. */
    lemma NotInLine(t: Thread)
      requires Valid() && t.runQueue == null
      ensures !Queued(Lines(), t)
    {
      forall c: nat | c < |cpus| ensures t !in Lines()[c] {
        assert CpuOk(cpus[c]);
        cpus[c].NotQueued(t);
      }
    }

    /** `enqueue_thread_on_cpu` for a thread on no queue that is no CPU's idle thread. */
    method Enqueue(c: nat, t: Thread) returns (ghost step: Step<Thread>)
      requires Valid() && c < |cpus| && t in threads && t.runQueue == null && !IsIdle(t)
      modifies cpus`head, cpus`tail, cpus`length, cpus`enqueues, cpus`dequeues, cpus`queue, threads`next
      modifies threads`runQueue
      ensures Valid() && Enabled(old(Lines()), step) && Lines() == Apply(old(Lines()), step)
      ensures step == Enter(c, t)
    {
      step := Enter(c, t);
      NotInLine(t);
      assert CpuOk(cpus[c]);
      cpus[c].Append(t);
      QueueRebuilt(cpus[c]);
    }

    /** Every queued thread stands at one place only. */
    lemma LinesApart()
      requires Valid()
      ensures Apart(Lines())
    {
      forall c: nat, i: nat, d: nat, j: nat | c < |cpus| && i < |cpus[c].queue| && d < |cpus| && j < |cpus[d].queue| &&
                                              cpus[c].queue[i] == cpus[d].queue[j]
        ensures c == d && i == j
      {
        assert CpuOk(cpus[c]) && CpuOk(cpus[d]);
        assert cpus[c].NodeOk(i) && cpus[d].NodeOk(j);
      }
    }

    /** The links of all threads and all CPUs are as before. */
    twostate predicate LinksKept()
      reads this, cpus, threads
    {
      && threads == old(threads)
      && (forall c | c in cpus ::
            && c.queue == old(c.queue) && c.head == old(c.head) && c.tail == old(c.tail) && c.length == old(c.length)
            && c.enqueues == old(c.enqueues) && c.dequeues == old(c.dequeues) && c.idle == old(c.idle))
      && (forall t | t in threads :: t.runQueue == old(t.runQueue) && (t.runQueue != null ==> t.next == old(t.next)))
    }

    twostate lemma LinksRebuilt()
      requires old(Valid()) && LinksKept()
      ensures Valid() && Lines() == old(Lines())
    {
      forall c | c in cpus ensures CpuOk(c) {
        assert old(CpuOk(c));
        forall i: nat | i < |c.queue| ensures c.NodeOk(i) { assert old(c.NodeOk(i)); }
      }
      forall t | t in threads ensures ThreadOk(t) { assert old(ThreadOk(t)); }
    }

    /** `mark_thread_ready` with its target resolved; an idle thread may only be readied on its own CPU. */
    method MarkReady(t: Thread, c: nat) returns (ghost step: Step<Thread>)
      requires Valid() && c < |cpus| && t in threads && forall d | d in cpus && d.idle == t :: d == cpus[c]
      modifies cpus`head, cpus`tail, cpus`length, cpus`enqueues, cpus`dequeues, cpus`queue, threads`next
      modifies threads`runQueue, t`state, t`home
      ensures Valid() && Enabled(old(Lines()), step) && Lines() == Apply(old(Lines()), step)
      ensures if old(t.state) == Dying || old(t.state) == Free
              then step == Stay && t.state == old(t.state) && t.home == old(t.home)
              else t.state == Ready && t.home == cpus[c] &&
                   step == if old(t.runQueue) != null || old(cpus[c].idle) == t then Stay else Enter(c, t)
      ensures t.state == Ready && old(cpus[c].idle) != t ==> Queued(Lines(), t)
    {
      step := Stay;
      if t.state == Dying || t.state == Free { return; }
      Place(t, c);
      if cpus[c].idle == t { return; }
      if t.runQueue != null {
        InLine(t);
        return;
      }
      step := Enqueue(c, t);
      assert t in Lines()[c];
    }

    lemma InLine(t: Thread)
      requires Valid() && t in threads && t.runQueue != null
      ensures Queued(Lines(), t)
    {
      assert ThreadOk(t);
      var c: nat :| c < |cpus| && cpus[c] == t.runQueue;
      assert t in Lines()[c];
    }

    /** State and home of a readied thread; an idle thread's stale link is cleared. */
    method Place(t: Thread, c: nat)
      requires Valid() && c < |cpus| && t in threads
      modifies t`state, t`home, t`runQueue, t`next
      ensures Valid() && Lines() == old(Lines()) && t.state == Ready && t.home == cpus[c]
      ensures t.runQueue == old(t.runQueue)
    {
      assert CpuOk(cpus[c]);
      t.state := Ready;
      t.home := cpus[c];
      if cpus[c].idle == t {
        t.runQueue := null;
        t.next := null;
      }
      LinksRebuilt();
    }

    /** `next_runnable_thread`: the head of the CPU's own queue. */
    method Take(c: nat) returns (t: Thread?, ghost step: Step<Thread>)
      requires Valid() && c < |cpus|
      modifies cpus`head, cpus`tail, cpus`length, cpus`enqueues, cpus`dequeues, cpus`queue, threads`next
      modifies threads`runQueue
      ensures Valid() && Enabled(old(Lines()), step) && Lines() == Apply(old(Lines()), step)
      ensures if old(Lines())[c] == [] then t == null && step == Stay else t == old(Lines())[c][0] && step == Serve(c)
      ensures t != null ==> t in threads && t.runQueue == null
    {
      assert CpuOk(cpus[c]);
      t := cpus[c].Dequeue();
      step := if t == null then Stay else Serve(c);
      QueueRebuilt(cpus[c]);
    }

    /** `dequeue_thread_if_queued` */
    method DequeueIfQueued(t: Thread) returns (ghost step: Step<Thread>)
      requires Valid() && t in threads
      modifies cpus`head, cpus`tail, cpus`length, cpus`enqueues, cpus`dequeues, cpus`queue, threads`next
      modifies threads`runQueue
      ensures Valid() && Enabled(old(Lines()), step) && Lines() == Apply(old(Lines()), step)
      ensures t.runQueue == null
      ensures if old(t.runQueue) == null then step == Stay
              else step.Leave? && old(Lines())[step.c][step.k] == t && cpus[step.c] == old(t.runQueue)
    {
      step := Stay;
      if t.runQueue == null { return; }
      var owner := t.runQueue;
      assert ThreadOk(t) && CpuOk(owner);
      owner.Remove(t);
      QueueRebuilt(owner);
      ghost var c: nat :| c < |cpus| && cpus[c] == owner;
      ghost var k: nat :| k < |old(owner.queue)| && old(owner.queue)[k] == t &&
          owner.queue == Without(old(owner.queue), k);
      step := Leave(c, k);
      assert Lines() == Apply(old(Lines()), step);
    }

    /**
     `set_current_thread` on CPU `c`: the thread leaves the queue it is on, wherever that is, and runs
     here.  No other thread changes, and no other CPU's current thread.
     */
    method SetCurrent(c: nat, t: Thread?) returns (ghost step: Step<Thread>)
      requires Valid() && c < |cpus| && (t != null ==> t in threads)
      modifies cpus`head, cpus`tail, cpus`length, cpus`enqueues, cpus`dequeues, cpus`queue, cpus`current
      modifies threads`next, threads`runQueue, if t == null then {} else {t}
      ensures Valid() && Enabled(old(Lines()), step) && Lines() == Apply(old(Lines()), step)
      ensures cpus[c].current == t && (t != null ==> t.state == Running && t.home == cpus[c] && t.runQueue == null)
      ensures if t == null || old(t.runQueue) == null then step == Stay
              else step.Leave? && old(Lines())[step.c][step.k] == t
      ensures forall d | d in cpus && d != cpus[c] :: d.current == old(d.current)
    {
      step := Stay;
      if t != null { step := DequeueIfQueued(t); }
      Publish(c, t);
    }

    method Publish(c: nat, t: Thread?)
      requires Valid() && c < |cpus| && (t != null ==> t in threads && t.runQueue == null)
      modifies cpus`current, if t == null then {} else {t}
      ensures Valid() && Lines() == old(Lines()) && cpus[c].current == t
      ensures t != null ==> t.state == Running && t.home == cpus[c] && t.runQueue == null
      ensures forall d | d in cpus && d != cpus[c] :: d.current == old(d.current)
    {
      cpus[c].current := t;
      if t != null {
        t.home := cpus[c];
        t.runQueue := null;
        t.state := Running;
      }
      LinksRebuilt();
    }

    /**
     `schedule_next` on CPU `c`: a running current thread that is to be kept, is not the idle thread
     and is on no queue goes to the end of the queue; then the head is taken, or the idle thread if
     there is none.  No thread besides these two changes, and no CPU's current or idle thread does.
     */
    method ScheduleNext(c: nat, keepCurrent: bool) returns (next: Thread?, ghost steps: seq<Step<Thread>>)
      requires Valid() && c < |cpus|
      requires cpus[c].current != null ==> cpus[c].current in threads && forall d | d in cpus &&
                 d.idle == cpus[c].current :: d == cpus[c]
      modifies cpus`head, cpus`tail, cpus`length, cpus`enqueues, cpus`dequeues, cpus`queue
      modifies threads`next, threads`runQueue, threads`state, threads`home
      ensures Valid() && IsRun(old(Lines()), steps) && Lines() == End(old(Lines()), steps) && |steps| == 2
      ensures if keepCurrent && old(cpus[c].current) != null && old(cpus[c].current) != old(cpus[c].idle) &&
                 old(cpus[c].current.state) == Running && old(cpus[c].current.runQueue) == null
              then steps[0].Enter? && steps[0].c == c && steps[0].t == old(cpus[c].current) else steps[0] == Stay
      ensures var q := Apply(old(Lines()), steps[0])[c];
              if q == [] then steps[1] == Stay && next == old(cpus[c].idle) else steps[1] == Serve(c) && next == q[0]
      ensures next != null ==> next in threads && next.runQueue == null && next.state == Running
      ensures forall t | t in threads && t != next ::
                && t.state == (if keepCurrent && t == old(cpus[c].current) && t != old(cpus[c].idle) &&
                                  old(t.state) == Running then Ready else old(t.state))
                && t.home == (if keepCurrent && t == old(cpus[c].current) && t != old(cpus[c].idle) &&
                                 old(t.state) == Running then cpus[c] else old(t.home))
    {
      ghost var q0, s0 := Lines(), Stay;
      var current := cpus[c].current;
      if keepCurrent && current != null && current != cpus[c].idle && current.state == Running {
        s0 := MarkReady(current, c);
      }
      ghost var q1 := Lines();
      ghost var s1;
      next, s1 := Take(c);
      steps := [s0, s1];
      TwoSteps(q0, s0, s1);
      assert CpuOk(cpus[c]);
      if next == null { next := cpus[c].idle; }
      if next != null { SetRunning(next); }
    }

    method SetRunning(t: Thread)
      requires Valid() && t in threads && t.runQueue == null
      modifies t`state
      ensures Valid() && Lines() == old(Lines()) && t.state == Running
    {
      t.state := Running;
      LinksRebuilt();
    }

    /** `link_thread` for a new thread. */
    method Register(t: Thread)
      requires Valid() && t !in threads && t.runQueue == null && !IsIdle(t)
      modifies this`threads
      ensures Valid() && threads == old(threads) + {t} && Lines() == old(Lines())
    {
      threads := threads + {t};
      forall c | c in cpus ensures CpuOk(c) { assert old(CpuOk(c)); }
      forall u | u in threads ensures ThreadOk(u) { if u != t { assert old(ThreadOk(u)); } }
    }

    /** `publish_idle_thread` for a thread on no queue. */
    method PublishIdle(c: nat, t: Thread)
      requires Valid() && c < |cpus| && t in threads && t.runQueue == null
      modifies cpus`idle
      ensures Valid() && Lines() == old(Lines()) && cpus[c].idle == t && forall d | d in cpus && d != cpus[c] ::
                d.idle == old(d.idle)
    {
      cpus[c].idle := t;
      forall d | d in cpus ensures CpuOk(d) {
        assert old(CpuOk(d));
        forall k: nat | k < |d.queue| ensures d.NodeOk(k) { assert old(d.NodeOk(k)); }
      }
      forall u | u in threads ensures ThreadOk(u) { assert old(ThreadOk(u)); }
    }

    /** `clear_thread` up to the release of the record: off its queue, no CPU's idle thread, out of the registry. */
    method ClearThread(t: Thread) returns (ghost step: Step<Thread>)
      requires Valid() && t in threads
      modifies this`threads, cpus`head, cpus`tail, cpus`length, cpus`enqueues, cpus`dequeues, cpus`queue, cpus`idle
      modifies threads`next, threads`runQueue
      ensures Valid() && Enabled(old(Lines()), step) && Lines() == Apply(old(Lines()), step)
      ensures threads == old(threads) - {t} && !IsIdle(t) && t.runQueue == null && !Queued(Lines(), t)
      ensures if old(t.runQueue) == null then step == Stay else step.Leave? && old(Lines())[step.c][step.k] == t
      ensures forall d | d in cpus && old(d.idle) != t :: d.idle == old(d.idle)
    {
      step := DequeueIfQueued(t);
      ForgetIdle(t);
      Unregister(t);
      NotInLine(t);
    }

    /** `unlink_thread` for a thread on no queue. */
    method Unregister(t: Thread)
      requires Valid() && t.runQueue == null && !IsIdle(t)
      modifies this`threads
      ensures Valid() && Lines() == old(Lines()) && threads == old(threads) - {t}
    {
      threads := threads - {t};
      Unregistered(t);
    }

    twostate lemma Unregistered(t: Thread)
      requires old(Valid()) && threads == old(threads) - {t} && old(t.runQueue) == null && !old(IsIdle(t))
      requires (forall c | c in cpus :: unchanged(c)) && (forall u | u in old(threads) :: unchanged(u))
      ensures Valid() && Lines() == old(Lines())
    {
      forall c | c in cpus ensures CpuOk(c) {
        assert old(CpuOk(c));
        forall i: nat | i < |c.queue| ensures c.queue[i] in threads { assert old(c.NodeOk(i)); }
      }
      forall u | u in threads ensures ThreadOk(u) { assert old(ThreadOk(u)); }
      forall i: nat | i < |cpus| ensures cpus[i].queue == old(cpus[i].queue) { assert cpus[i] in cpus; }
    }

    method ForgetIdle(t: Thread)
      requires Valid()
      modifies cpus`idle
      ensures Valid() && Lines() == old(Lines()) && !IsIdle(t)
      ensures forall d | d in cpus && old(d.idle) != t :: d.idle == old(d.idle)
    {
      var i := 0;
      while i < |cpus|
        invariant i <= |cpus| && Valid() && Lines() == old(Lines()) && forall j: nat | j < i :: cpus[j].idle != t
        invariant forall d | d in cpus && old(d.idle) != t :: d.idle == old(d.idle)
      {
        if t == cpus[i].idle { DropIdle(i); }
        i := i + 1;
      }
    }

    method DropIdle(i: nat)
      requires Valid() && i < |cpus|
      modifies cpus`idle
      ensures Valid() && Lines() == old(Lines()) && cpus[i].idle == null && forall c | c in cpus && c != cpus[i] ::
                c.idle == old(c.idle)
    {
      cpus[i].idle := null;
      forall c | c in cpus ensures CpuOk(c) {
        assert old(CpuOk(c));
        forall k: nat | k < |c.queue| ensures c.NodeOk(k) { assert old(c.NodeOk(k)); }
      }
      forall u | u in threads ensures ThreadOk(u) { assert old(ThreadOk(u)); }
    }

    // ----- the balancer

    predicate Schedulable(c: nat)
      requires c < |cpus|
      reads cpus
    {
      c == 0 || cpus[c].booted
    }

    /** How many of the first `n` CPUs are schedulable. */
    ghost function Up(n: nat): nat
      requires n <= |cpus|
      reads this, cpus
    {
      if n == 0 then 0 else Up(n - 1) + if Schedulable(n - 1) then 1 else 0
    }

    /** How many threads are queued on the schedulable ones of the first `n` CPUs. */
    ghost function Load(n: nat): nat
      requires n <= |cpus|
      reads this, cpus
    {
      if n == 0 then 0 else Load(n - 1) + if Schedulable(n - 1) then |cpus[n - 1].queue| else 0
    }

    /** The first of the longest schedulable queues besides the target's. */
    ghost predicate IsDonor(target: nat, d: nat)
      reads this, cpus
    {
      && d < |cpus| && d != target && Schedulable(d)
      && (forall c: nat | c < |cpus| && c != target && Schedulable(c) :: |cpus[c].queue| <= |cpus[d].queue|)
      && (forall c: nat | c < d && c != target && Schedulable(c) :: |cpus[c].queue| < |cpus[d].queue|)
    }

    /** The target's queue is at least two shorter and, unless forced, would stay below average with one thread more. */
    ghost predicate Gap(target: nat, d: nat, force: bool)
      requires target < |cpus| && d < |cpus|
      reads this, cpus
    {
      && |cpus[target].queue| + 1 < |cpus[d].queue|
      && (force || (|cpus[target].queue| + 1) * Up(|cpus|) < Load(|cpus|))
    }

    /** Some thread on the queue of `d` may move to `target`. */
    ghost predicate Movable(target: nat, d: nat, now: Word)
      requires Valid() && target < |cpus| && d < |cpus|
      reads this, cpus, threads
    {
      assert CpuOk(cpus[d]);
      exists i: nat :: i < |cpus[d].queue| && Migratable(cpus[d].queue[i], cpus[target].id, now)
    }

    ghost predicate CanBalance(target: nat, now: Word, force: bool)
      requires Valid() && target < |cpus|
      reads this, cpus, threads
    {
      exists d: nat :: IsDonor(target, d) && Gap(target, d, force) && Movable(target, d, now)
    }

    lemma DonorDecides(target: nat, d: nat, now: Word, force: bool)
      requires Valid() && target < |cpus| && IsDonor(target, d) && Gap(target, d, force)
      ensures CanBalance(target, now, force) <==> Movable(target, d, now)
    {
      forall e: nat | IsDonor(target, e) ensures e == d { OneDonor(target, d, e); }
    }

    lemma OneDonor(target: nat, d: nat, e: nat)
      requires IsDonor(target, d) && IsDonor(target, e)
      ensures d == e
    {}

    /**
     The first phase of `scheduler_balance_cpu`: queue lengths are read one CPU after the other, and
     the longest schedulable queue other than the target's, if it holds a thread, is the donor.
     */
    method Survey(target: nat) returns (count: nat, total: nat, donor: nat, donorDepth: nat)
      requires Valid() && target < |cpus|
      ensures count == Up(|cpus|) && total == Load(|cpus|)
      ensures donorDepth > 0 ==> IsDonor(target, donor) && donorDepth == |cpus[donor].queue|
      ensures donorDepth == 0 ==> forall c: nat | c < |cpus| && c != target && Schedulable(c) :: cpus[c].queue == []
      ensures Schedulable(target) && donorDepth > 0 ==> count >= 2
    {
      count, total, donor, donorDepth := 0, 0, 0, 0;
      var i := 0;
      while i < |cpus|
        invariant i <= |cpus| && count == Up(i) && total == Load(i)
        invariant donorDepth > 0 ==>
                    donor < i && donor != target && Schedulable(donor) && donorDepth == |cpus[donor].queue|
        invariant forall c: nat | c < i && c != target && Schedulable(c) :: |cpus[c].queue| <= donorDepth
        invariant donorDepth > 0 ==> forall c: nat | c < donor && c != target && Schedulable(c) ::
                    |cpus[c].queue| < donorDepth
        invariant count >= (if target < i && Schedulable(target) then 1 else 0) + if donorDepth > 0 then 1 else 0
      {
        assert CpuOk(cpus[i]);
        if Schedulable(i) {
          count := count + 1;
          var depth := cpus[i].length;
          total := total + depth;
          if i != target && depth > donorDepth { donor, donorDepth := i, depth; }
        }
        i := i + 1;
      }
    }

    /**
     The second phase, with both queues locked: whatever happened since the survey, a thread moves
     only to a queue at least two shorter, and it is the last one the target may run.
     */
    method BalanceLocked(target: nat, donor: nat, targetDepth: nat, now: Word, force: bool)
      returns (ok: bool, ghost step: Step<Thread>)
      requires Valid() && target < |cpus| && donor < |cpus| && target != donor
      modifies cpus`head, cpus`tail, cpus`length, cpus`enqueues, cpus`dequeues, cpus`queue
      modifies cpus`migrateIn, cpus`migrateOut, threads`next, threads`runQueue, threads`home, threads`lastMigration
      ensures Valid() && Enabled(old(Lines()), step) && Lines() == Apply(old(Lines()), step)
      ensures ok <==> |old(Lines())[target]| + 1 < |old(Lines())[donor]| &&
                      (force || |old(Lines())[target]| + 1 < targetDepth) && old(Movable(target, donor, now))
      ensures ok ==> step.Migrate? && step.c == donor && step.to == target
      ensures ok ==> var t := old(Lines())[donor][step.k];
                     old(Migratable(t, cpus[target].id, now)) && t.home == cpus[target] && t.lastMigration == now
      ensures ok ==> forall i: nat | step.k < i < |old(Lines())[donor]| ::
                !old(Migratable(Lines()[donor][i], cpus[target].id, now))
      ensures !ok ==> step == Stay
      ensures forall t | t in threads && !(ok && t == old(Lines())[donor][step.k]) ::
                t.home == old(t.home) && t.lastMigration == old(t.lastMigration)
    {
      step := Stay;
      assert CpuOk(cpus[target]) && CpuOk(cpus[donor]);
      var localDepth, donorDepth := cpus[target].length, cpus[donor].length;
      if donorDepth == 0 || donorDepth <= localDepth + 1 { return false, Stay; }
      if !force && localDepth + 1 >= targetDepth { return false, Stay; }
      var t;
      ghost var k;
      t, k := Migrate(target, donor, now);
      if t == null { return false, Stay; }
      ok, step := true, Step.Migrate(donor, k, target);
    }

    /** Detach the last thread of the donor that may move, and append it to the target's queue. */
    method Migrate(target: nat, donor: nat, now: Word) returns (t: Thread?, ghost k: nat)
      requires Valid() && target < |cpus| && donor < |cpus| && target != donor
      requires |Lines()[target]| + 1 < |Lines()[donor]|
      modifies cpus`head, cpus`tail, cpus`length, cpus`enqueues, cpus`dequeues, cpus`queue
      modifies cpus`migrateIn, cpus`migrateOut, threads`next, threads`runQueue, threads`home, threads`lastMigration
      ensures Valid()
      ensures t == null ==> Lines() == old(Lines())
      ensures t == null ==> forall i: nat | i < |Lines()[donor]| ::
                !old(Migratable(Lines()[donor][i], cpus[target].id, now))
      ensures t != null ==> Enabled(old(Lines()), Step.Migrate(donor, k, target)) && old(Lines())[donor][k] == t
      ensures t != null ==> Lines() == Apply(old(Lines()), Step.Migrate(donor, k, target))
      ensures t != null ==> old(Migratable(t, cpus[target].id, now)) && t.home == cpus[target] && t.lastMigration == now
      ensures t != null ==> forall i: nat | k < i < |old(Lines())[donor]| ::
                !old(Migratable(Lines()[donor][i], cpus[target].id, now))
      ensures forall u | u in threads && u != t :: u.home == old(u.home) && u.lastMigration == old(u.lastMigration)
    {
      ghost var q := Lines();
      t, k := Detach(donor, cpus[target].id, now);
      if t == null { return; }
      ghost var s := Enqueue(target, t);
      LeaveThenEnter(q, donor, k, target);
      Mark(t, donor, target, now);
    }

    method Detach(donor: nat, id: nat, now: Word) returns (t: Thread?, ghost k: nat)
      requires Valid() && donor < |cpus|
      modifies cpus`head, cpus`tail, cpus`length, cpus`enqueues, cpus`dequeues, cpus`queue, threads`next
      modifies threads`runQueue
      ensures Valid()
      ensures t == null ==> Lines() == old(Lines()) && forall i: nat | i < |Lines()[donor]| ::
                !old(Migratable(Lines()[donor][i], id, now))
      ensures t != null ==>
                k < |old(Lines())[donor]| && old(Lines())[donor][k] == t &&
                Lines() == Apply(old(Lines()), Leave(donor, k))
      ensures t != null ==> t in threads && t.runQueue == null && !IsIdle(t) && old(Migratable(t, id, now))
      ensures t != null ==> forall i: nat | k < i < |old(Lines())[donor]| ::
                !old(Migratable(Lines()[donor][i], id, now))
    {
      assert CpuOk(cpus[donor]);
      QueuedNotIdle(cpus[donor]);
      t, k := cpus[donor].DetachLastMigratable(id, now);
      QueueRebuilt(cpus[donor]);
    }

    /** A queued thread is no CPU's idle thread. */
    lemma QueuedNotIdle(c: Cpu)
      requires Valid() && c in cpus
      ensures forall t | t in c.queue :: t in threads && !IsIdle(t)
    {
      assert CpuOk(c);
      forall t | t in c.queue ensures t in threads && !IsIdle(t) {
        Member(c, t);
        forall d | d in cpus ensures d.idle != t { assert CpuOk(d); }
      }
    }

    method Mark(t: Thread, donor: nat, target: nat, now: Word)
      requires Valid() && t in threads && donor < |cpus| && target < |cpus|
      modifies t`home, t`lastMigration, cpus`migrateIn, cpus`migrateOut
      ensures Valid() && Lines() == old(Lines()) && t.home == cpus[target] && t.lastMigration == now
    {
      t.home := cpus[target];
      t.lastMigration := now;
      cpus[target].migrateIn := cpus[target].migrateIn + 1;
      cpus[donor].migrateOut := cpus[donor].migrateOut + 1;
      LinksRebuilt();
    }

    /**
     `scheduler_balance_cpu` without interference between its phases.  An attempt succeeds exactly
     when the first of the longest other queues is at least two longer than the target's and holds a
     thread that may move, and, unless forced, the target's queue with one thread more would still be
     below the average.  A forced attempt thus fails only if every other schedulable queue is at most
     one longer than the target's, or none of the threads on the longest one may move.
     */
    method Balance(target: nat, now: Word, force: bool) returns (ok: bool, ghost step: Step<Thread>)
      requires Valid() && target < |cpus|
      modifies cpus`head, cpus`tail, cpus`length, cpus`enqueues, cpus`dequeues, cpus`queue
      modifies cpus`migrateIn, cpus`migrateOut, threads`next, threads`runQueue, threads`home, threads`lastMigration
      ensures Valid() && Enabled(old(Lines()), step) && Lines() == Apply(old(Lines()), step)
      ensures ok <==> balancing && old(Schedulable(target)) &&
                      old(CanBalance(target, now, force))
      ensures ok ==>
                step.Migrate? && step.to == target && old(IsDonor(target, step.c)) &&
                old(Migratable(Lines()[step.c][step.k], cpus[target].id, now))
      ensures ok ==> forall i: nat | step.k < i < |old(Lines())[step.c]| ::
                !old(Migratable(Lines()[step.c][i], cpus[target].id, now))
      ensures !ok ==> step == Stay
      ensures !ok && force && balancing && old(Schedulable(target)) ==>
                (forall c: nat | c < |cpus| && c != target && old(Schedulable(c)) ::
                 |old(Lines())[c]| <= |old(Lines())[target]| + 1) ||
                (exists d: nat :: old(IsDonor(target, d)) && !old(Movable(target, d, now)))
    {
      ok, step := false, Stay;
      if !balancing || !Schedulable(target) { return; }
      ghost var can := CanBalance(target, now, force);
      var go, donor, targetDepth := Choose(target, force);
      assert can == CanBalance(target, now, force);
      if go {
        DonorDecides(target, donor, now, force);
        assert old(IsDonor(target, donor)) && old(Movable(target, donor, now)) == can;
        ok, step := BalanceLocked(target, donor, targetDepth, now, force);
      } else {
        assert !can;
      }
    }

    /** The survey and the checks on what it found. */
    method Choose(target: nat, force: bool) returns (go: bool, donor: nat, targetDepth: nat)
      requires Valid() && target < |cpus| && Schedulable(target)
      ensures go <==> exists d: nat :: IsDonor(target, d) && Gap(target, d, force)
      ensures go ==>
                IsDonor(target, donor) && Gap(target, donor, force) && (force || |cpus[target].queue| + 1 < targetDepth)
      ensures go ==> forall d: nat | IsDonor(target, d) :: d == donor
      ensures !go && force ==> forall c: nat | c < |cpus| && c != target && Schedulable(c) ::
                |cpus[c].queue| <= |cpus[target].queue| + 1
    {
      go, targetDepth := false, 0;
      var count, total, donorDepth;
      count, total, donor, donorDepth := Survey(target);
      assert CpuOk(cpus[target]);
      var localDepth := cpus[target].length;
      if donorDepth > 0 {
        forall d: nat | IsDonor(target, d) ensures d == donor { OneDonor(target, d, donor); }
      }
      if count < 2 { return; }
      if donorDepth == 0 || donorDepth <= localDepth + 1 { return; }
      targetDepth := (total + count - 1) / count;
      Average(total, count, localDepth + 1);
      if !force && localDepth + 1 >= targetDepth { return; }
      go := true;
    }
  }

  /** The rounded-up average lies above `n` exactly when the sum exceeds `n` for each. */
  lemma Average(total: nat, count: nat, n: nat)
    requires count > 0
    ensures n < (total + count - 1) / count <==> n * count < total
  {
    var q := (total + count - 1) / count;
    assert q * count <= total + count - 1 < q * count + count;
    if n < q { MulMono(n, q - 1, count); } else { MulMono(q, n, count); }
  }

  lemma OneStep<T>(q: Queues<T>, steps: seq<Step<T>>)
    requires |steps| == 1 && Enabled(q, steps[0])
    ensures IsRun(q, steps) && End(q, steps) == Apply(q, steps[0])
  {
    var rest := steps[1..];
    assert rest == [];
    assert IsRun(Apply(q, steps[0]), rest) && End(Apply(q, steps[0]), rest) == Apply(q, steps[0]);
  }

  lemma TwoSteps<T>(q: Queues<T>, s: Step<T>, s': Step<T>)
    requires Enabled(q, s) && Enabled(Apply(q, s), s')
    ensures IsRun(q, [s, s']) && End(q, [s, s']) == Apply(Apply(q, s), s')
  {
    var both, one := [s, s'], [s'];
    assert both[1..] == one;
    OneStep(Apply(q, s), one);
    assert End(q, both) == End(Apply(q, s), both[1..]);
  }
}

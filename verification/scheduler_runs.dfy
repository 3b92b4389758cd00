/**
 Whole runs of the scheduler: any sequence of its calls is a run of queue steps, so what holds of
 every such run holds of the run queues themselves.
 */
module SchedulerRuns {
  import opened Word64
  import opened QueueSteps
  import opened RunQueues
  import opened Scheduling

  /**
   A call into the scheduler.  `Survey` and lock are two steps of the balancer: `Rebalance` is the
   locked part, with whatever donor and depth an earlier survey came to.
   */
  datatype Call =
    | MakeReady(t: Thread, target: nat)
    | Switch(cpu: nat, to: Thread?)
    | Schedule(cpu: nat, keepCurrent: bool)
    | Create(t: Thread)
    | MakeIdle(cpu: nat, t: Thread)
    | Destroy(t: Thread)
    | Rebalance(target: nat, donor: nat, targetDepth: nat, now: Word, force: bool)
    | BalanceNow(target: nat, now: Word, force: bool)

  predicate IsBalance(call: Call)
  {
    call.Rebalance? || call.BalanceNow?
  }

  predicate IsShift<T>(s: Step<T>)
  {
    s.Migrate? || s.Stay?
  }

  lemma {:induction false} RunJoins<T>(q: Queues<T>, a: seq<Step<T>>, b: seq<Step<T>>)
    requires IsRun(q, a) && IsRun(End(q, a), b)
    ensures IsRun(q, a + b) && End(q, a + b) == End(End(q, a), b)
    decreases |a|
  {
    if a == [] {
      assert a + b == b;
    } else {
      assert (a + b)[1..] == a[1..] + b;
      RunJoins(Apply(q, a[0]), a[1..], b);
    }
  }

  /** The idle thread of a CPU is readied only there. */
  predicate IdleAtHome(s: Scheduler, t: Thread?, c: nat)
    requires c < |s.cpus|
    reads s, s.cpus
  {
    forall d | d in s.cpus && d.idle == t && t != null :: d == s.cpus[c]
  }

  /** One call; one whose premises do not hold now is not made. */
  method Perform(s: Scheduler, call: Call) returns (ghost steps: seq<Step<Thread>>)
    requires s.Valid()
    modifies s, s.cpus, s.threads, match call case Create(t) => {t} case _ => {}
    ensures s.Valid() && IsRun(old(s.Lines()), steps) && s.Lines() == End(old(s.Lines()), steps)
    ensures IsBalance(call) ==> forall k: nat | k < |steps| :: IsShift(steps[k])
    ensures s.threads <= old(s.threads) + match call case Create(t) => {t} case _ => {}
  {
    steps := [];
    match call {
      case MakeReady(t, c) => steps := DoReady(s, t, c);
      case Switch(c, t) => steps := DoSwitch(s, c, t);
      case Schedule(c, keepCurrent) => steps := DoSchedule(s, c, keepCurrent);
      case Create(t) => if t !in s.threads && t.runQueue == null && NotIdle(s, t) { s.Register(t); }
      case MakeIdle(c, t) => if c < |s.cpus| && t in s.threads && t.runQueue == null { s.PublishIdle(c, t); }
      case Destroy(t) => steps := DoDestroy(s, t);
      case Rebalance(target, donor, targetDepth, now, force) =>
        steps := DoRebalance(s, target, donor, targetDepth, now, force);
      case BalanceNow(target, now, force) => steps := DoBalance(s, target, now, force);
    }
  }

  method DoReady(s: Scheduler, t: Thread, c: nat) returns (ghost steps: seq<Step<Thread>>)
    requires s.Valid()
    modifies s.cpus, s.threads
    ensures s.Valid() && IsRun(old(s.Lines()), steps) && s.Lines() == End(old(s.Lines()), steps)
  {
    steps := [];
    ghost var q := s.Lines();
    if t in s.threads && c < |s.cpus| && IdleAtHome(s, t, c) {
      var step := s.MarkReady(t, c);
      steps := [step];
      OneStep(q, steps);
    }
  }

  method DoSwitch(s: Scheduler, c: nat, t: Thread?) returns (ghost steps: seq<Step<Thread>>)
    requires s.Valid()
    modifies s.cpus, s.threads
    ensures s.Valid() && IsRun(old(s.Lines()), steps) && s.Lines() == End(old(s.Lines()), steps)
  {
    steps := [];
    ghost var q := s.Lines();
    if c < |s.cpus| && (t == null || t in s.threads) {
      var step := s.SetCurrent(c, t);
      steps := [step];
      OneStep(q, steps);
    }
  }

  method DoSchedule(s: Scheduler, c: nat, keepCurrent: bool) returns (ghost steps: seq<Step<Thread>>)
    requires s.Valid()
    modifies s.cpus, s.threads
    ensures s.Valid() && IsRun(old(s.Lines()), steps) && s.Lines() == End(old(s.Lines()), steps)
  {
    steps := [];
    if c < |s.cpus| && (s.cpus[c].current == null ||
                        (s.cpus[c].current in s.threads && IdleAtHome(s, s.cpus[c].current, c))) {
      var next;
      next, steps := s.ScheduleNext(c, keepCurrent);
    }
  }

  method DoDestroy(s: Scheduler, t: Thread) returns (ghost steps: seq<Step<Thread>>)
    requires s.Valid()
    modifies s, s.cpus, s.threads
    ensures s.Valid() && IsRun(old(s.Lines()), steps) && s.Lines() == End(old(s.Lines()), steps)
    ensures s.threads <= old(s.threads)
  {
    steps := [];
    ghost var q := s.Lines();
    if t in s.threads {
      var step := s.ClearThread(t);
      steps := [step];
      OneStep(q, steps);
    }
  }

  method DoRebalance(s: Scheduler, target: nat, donor: nat, targetDepth: nat, now: Word, force: bool)
    returns (ghost steps: seq<Step<Thread>>)
    requires s.Valid()
    modifies s.cpus, s.threads
    ensures s.Valid() && IsRun(old(s.Lines()), steps) && s.Lines() == End(old(s.Lines()), steps)
    ensures forall k: nat | k < |steps| :: IsShift(steps[k])
  {
    steps := [];
    ghost var q := s.Lines();
    if target < |s.cpus| && donor < |s.cpus| && target != donor {
      var ok, step := s.BalanceLocked(target, donor, targetDepth, now, force);
      steps := [step];
      OneStep(q, steps);
    }
  }

  method DoBalance(s: Scheduler, target: nat, now: Word, force: bool) returns (ghost steps: seq<Step<Thread>>)
    requires s.Valid()
    modifies s.cpus, s.threads
    ensures s.Valid() && IsRun(old(s.Lines()), steps) && s.Lines() == End(old(s.Lines()), steps)
    ensures forall k: nat | k < |steps| :: IsShift(steps[k])
  {
    steps := [];
    ghost var q := s.Lines();
    if target < |s.cpus| {
      var ok, step := s.Balance(target, now, force);
      steps := [step];
      OneStep(q, steps);
    }
  }

  predicate NotIdle(s: Scheduler, t: Thread)
    reads s, s.cpus
    ensures NotIdle(s, t) ==> !s.IsIdle(t)
  {
    forall c | c in s.cpus :: c.idle != t
  }

  /** The threads a sequence of calls creates. */
  function Created(calls: seq<Call>): set<Thread>
  {
    if calls == [] then {} else (if calls[0].Create? then {calls[0].t} else {}) + Created(calls[1..])
  }

  lemma {:induction false} CreatedOne(calls: seq<Call>, i: nat)
    requires i < |calls| && calls[i].Create?
    ensures calls[i].t in Created(calls)
    decreases i
  {
    if i > 0 { CreatedOne(calls[1..], i - 1); }
  }

  /**
   Any sequence of calls.  No thread is ever on two queues; a thread that is not migrated moves up
   with every turn its queue gives out, so it waits for at most as many turns as threads stand before
   it; and calls of the balancer alone migrate at most half the sum of the squared queue lengths.
   */
  method Run(s: Scheduler, calls: seq<Call>) returns (ghost steps: seq<Step<Thread>>)
    requires s.Valid()
    modifies s, s.cpus, s.threads, Created(calls)
    ensures s.Valid() && IsRun(old(s.Lines()), steps) && s.Lines() == End(old(s.Lines()), steps) && Apart(s.Lines())
    ensures forall c: nat, i: nat | c < |old(s.Lines())| && i < |old(s.Lines())[c]| ::
              WaitsItsTurn(old(s.Lines()), steps, s.Lines(), c, i)
    ensures (forall k: nat | k < |calls| :: IsBalance(calls[k])) ==>
              2 * Migrations(steps) + Squares(s.Lines()) <= Squares(old(s.Lines()))
  {
    steps := RunCalls(s, calls);
    s.LinesApart();
    ghost var q := old(s.Lines());
    forall c: nat, i: nat | c < |q| && i < |q[c]| ensures WaitsItsTurn(q, steps, s.Lines(), c, i) {
      FateIs(q, steps, c, i);
      if StaysOn(q, steps, c, i) { WaitingIsBounded(q, steps, c, i); }
    }
    if forall k: nat | k < |calls| :: IsBalance(calls[k]) { BalancingEnds(q, steps); }
  }

  /**
   The thread at position `i` of queue `c` is still queued where its fate says, and has moved up
   with every turn if it stayed.
   */
  ghost predicate WaitsItsTurn<T>(q: Queues<T>, steps: seq<Step<T>>, now: Queues<T>, c: nat, i: nat)
    requires IsRun(q, steps) && c < |q| && i < |q[c]|
  {
    var f := FateOf(q, steps, c, i);
    f.Waiting? ==>
      && f.c < |now| && f.i < |now[f.c]| && now[f.c][f.i] == q[c][i]
      && (StaysOn(q, steps, c, i) ==> f.c == c && f.i + Turns(steps, c) <= i)
  }

  method RunCalls(s: Scheduler, calls: seq<Call>) returns (ghost steps: seq<Step<Thread>>)
    requires s.Valid()
    modifies s, s.cpus, s.threads, Created(calls)
    ensures s.Valid() && IsRun(old(s.Lines()), steps) && s.Lines() == End(old(s.Lines()), steps)
    ensures (forall k: nat | k < |calls| :: IsBalance(calls[k])) ==> forall k: nat | k < |steps| :: IsShift(steps[k])
  {
    steps := [];
    ghost var q := s.Lines();
    var i := 0;
    while i < |calls|
      invariant i <= |calls| && s.Valid() && IsRun(q, steps) && s.Lines() == End(q, steps)
      invariant s.threads <= old(s.threads) + Created(calls)
      invariant (forall k: nat | k < |calls| :: IsBalance(calls[k])) ==>
                  forall k: nat | k < |steps| :: IsShift(steps[k])
    {
      if calls[i].Create? { CreatedOne(calls, i); }
      var more := Perform(s, calls[i]);
      RunJoins(q, steps, more);
      steps := steps + more;
      i := i + 1;
    }
  }

  // ----- a migration that sets a thread back

  ghost predicate TwoCpus(s: Scheduler)
    reads s, s.cpus, s.threads
  {
    s.Valid() && s.balancing && |s.cpus| == 2 && s.cpus[1].id == 1 && s.Schedulable(0) && s.Schedulable(1)
  }

  method NewScheduler() returns (s: Scheduler)
    ensures fresh(s) && TwoCpus(s) && s.threads == {} && fresh(s.cpus[0]) && fresh(s.cpus[1])
    ensures s.Lines()[0] == [] && s.Lines()[1] == []
  {
    var boot := new Cpu(0);
    var second := new Cpu(1);
    second.booted := true;
    s := new Scheduler([boot, second]);
  }

  /** A new thread in the registry; `free` says that it may run on either CPU. */
  method AddThread(s: Scheduler, free: bool) returns (t: Thread)
    requires TwoCpus(s)
    modifies s`threads
    ensures TwoCpus(s) && fresh(t) && s.threads == old(s.threads) + {t} && s.Lines() == old(s.Lines())
    ensures t.runQueue == null
    ensures !s.IsIdle(t) && t.state == Blocked && t.lastMigration == 0 && (Allows(t.affinity, 1) <==> free)
  {
    t := new Thread(false, if free then 3 else 1);
    assert Bit(3, 1) && !Bit(1, 1);
    forall d | d in s.cpus ensures d.idle != t { assert s.CpuOk(d); }
    s.Register(t);
  }

  /** A new thread joins queue `c`. */
  method AddReady(s: Scheduler, free: bool, c: nat) returns (t: Thread)
    requires TwoCpus(s) && c < 2
    modifies s`threads, s.cpus`head, s.cpus`tail, s.cpus`length, s.cpus`enqueues, s.cpus`dequeues, s.cpus`queue
    modifies s.threads`next, s.threads`runQueue
    ensures TwoCpus(s) && fresh(t) && s.threads == old(s.threads) + {t}
    ensures s.Lines()[0] == if c == 0 then old(s.Lines()[0]) + [t] else old(s.Lines()[0])
    ensures s.Lines()[1] == if c == 0 then old(s.Lines()[1]) else old(s.Lines()[1]) + [t]
    ensures Migratable(t, 1, 0) <==> free
  {
    t := AddThread(s, free);
    ghost var q := s.Lines();
    var step := s.MarkReady(t, c);
    assert s.Lines() == Apply(q, Enter(c, t));
  }

  method TwoTogether(s: Scheduler) returns (t: Thread, u: Thread)
    requires TwoCpus(s)
    modifies s`threads, s.cpus`head, s.cpus`tail, s.cpus`length, s.cpus`enqueues, s.cpus`dequeues, s.cpus`queue
    modifies s.threads`next, s.threads`runQueue
    ensures TwoCpus(s) && fresh(t) && fresh(u) && s.threads == old(s.threads) + {t, u}
    ensures s.Lines()[0] == old(s.Lines()[0]) + [t] + [u] && s.Lines()[1] == old(s.Lines()[1])
    ensures Migratable(t, 1, 0) && !Migratable(u, 1, 0)
  {
    t := AddReady(s, true, 0);
    u := AddReady(s, false, 0);
  }

  method TwoApart(s: Scheduler) returns (v: Thread, w: Thread)
    requires TwoCpus(s)
    modifies s`threads, s.cpus`head, s.cpus`tail, s.cpus`length, s.cpus`enqueues, s.cpus`dequeues, s.cpus`queue
    modifies s.threads`next, s.threads`runQueue
    ensures TwoCpus(s) && fresh(v) && fresh(w) && s.threads == old(s.threads) + {v, w}
    ensures s.Lines()[0] == old(s.Lines()[0]) + [v] && s.Lines()[1] == old(s.Lines()[1]) + [w] && !Migratable(v, 1, 0)
  {
    w := AddReady(s, false, 1);
    v := AddReady(s, false, 0);
  }

  /** Three threads on the first CPU, of which only the first may move, and one on the second. */
  method ThreeAndOne() returns (s: Scheduler, t: Thread, u: Thread, v: Thread, w: Thread)
    ensures fresh(s) && TwoCpus(s) && fresh(s.cpus[0]) && fresh(s.cpus[1]) && fresh(s.threads)
    ensures s.Lines()[0] == [] + [t] + [u] + [v] && s.Lines()[1] == [] + [w]
    ensures Migratable(t, 1, 0) && !Migratable(u, 1, 0) && !Migratable(v, 1, 0)
  {
    s := NewScheduler();
    t, u := TwoTogether(s);
    v, w := TwoApart(s);
  }

  /**
   The balancer takes the last thread that may move, which can be the first in line: here it goes
   from the head of its queue to the second place of the other.
   */
  method MigrationSetsBack() returns (s: Scheduler, t: Thread, ghost before: Queues<Thread>)
    ensures s.Valid() && |before| == |s.Lines()| == 2 && |before[0]| == 3 && before[0][0] == t
    ensures |s.Lines()[1]| == 2 && s.Lines()[1][1] == t
  {
    var u, v, w;
    s, t, u, v, w := ThreeAndOne();
    before := s.Lines();
    assert before[0] == [t, u, v] && before[1] == [w];
    assert s.Schedulable(0) && Migratable(s.Lines()[0][0], s.cpus[1].id, 0);
    assert !Migratable(s.Lines()[0][1], s.cpus[1].id, 0) && !Migratable(s.Lines()[0][2], s.cpus[1].id, 0);
    assert s.IsDonor(1, 0) && s.Gap(1, 0, true) && s.Movable(1, 0, 0);
    s.DonorDecides(1, 0, 0, true);
    var ok, step := s.Balance(1, 0, true);
    assert ok && step == Step.Migrate(0, 0, 1);
  }
}

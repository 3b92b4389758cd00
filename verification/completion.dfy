/**
 The signal/block protocol of a completion.  A thread blocks in one step under the queue lock: it
 looks at the flag and joins the waiters only if the flag is clear.  A signaller sets the flag, later
 takes the whole waiter list under the lock, and then wakes its batch thread by thread; any number
 of signallers may be under way, and the flag may be reset at any time.
 */
module Completions {
  import opened QueueSteps

  type Tid = nat

  /**
   `pending` signallers have set the flag and not yet taken the waiters; `batches` are lists taken
   and being woken.
   */
  datatype State = State(done: bool, waiters: seq<Tid>, pending: nat, batches: seq<seq<Tid>>, blocked: set<Tid>)

  datatype Action = Block(t: Tid) | SetDone | Drain | Wake(j: nat) | Reset

  ghost predicate CanDo(s: State, a: Action)
  {
    match a
    case Block(t) => t !in s.blocked
    case SetDone => true
    case Drain => s.pending > 0
    case Wake(j) => j < |s.batches| && s.batches[j] != []
    case Reset => true
  }

  ghost function Do(s: State, a: Action): State
    requires CanDo(s, a)
  {
    match a
    case Block(t) => if s.done then s else s.(waiters := s.waiters + [t], blocked := s.blocked + {t})
    case SetDone => s.(done := true, pending := s.pending + 1)
    case Drain => s.(pending := s.pending - 1, waiters := [], batches := s.batches + [s.waiters])
    case Wake(j) => s.(batches := s.batches[j := s.batches[j][1..]], blocked := s.blocked - {s.batches[j][0]})
    case Reset => s.(done := false)
  }

  const START: State := State(false, [], 0, [], {})

  /** All lists that hold blocked threads. */
  ghost function Lists(s: State): Queues<Tid> { [s.waiters] + s.batches }

  /** Blocked threads stand on exactly one list, and a set flag with waiters has a signaller on the way. */
  ghost predicate Inv(s: State)
  {
    && Apart(Lists(s))
    && (forall t: Tid :: t in s.blocked <==> Queued(Lists(s), t))
    && (s.done && s.waiters != [] ==> s.pending > 0)
  }

  lemma StartInv()
    ensures Inv(START)
  {}

  /** Taking the waiters adds an emptied list in front: nobody moves otherwise. */
  lemma DrainKeeps(s: State)
    requires Inv(s) && s.pending > 0
    ensures Inv(Do(s, Drain))
  {
    var q, r := Lists(s), Lists(Do(s, Drain));
    forall c: nat, i: nat | c < |r| && i < |r[c]| ensures From(s, c) < |q| && i < |q[From(s, c)]| &&
        r[c][i] == q[From(s, c)][i] {}
    forall t | Queued(q, t) ensures Queued(r, t) {
      var c: nat :| c < |q| && t in q[c];
      assert r[if c == 0 then |q| else c] == q[c];
    }
    forall t | Queued(r, t) ensures Queued(q, t) {
      var c: nat :| c < |r| && t in r[c];
      assert r[c] == q[From(s, c)];
    }
  }

  ghost function From(s: State, c: nat): nat { if c == |s.batches| + 1 then 0 else c }

  /** Blocking and waking are steps on the lists. */
  lemma BlockIs(s: State, t: Tid)
    requires Inv(s) && t !in s.blocked && !s.done
    ensures Enabled(Lists(s), Enter(0, t)) && Lists(Do(s, Block(t))) == Apply(Lists(s), Enter(0, t))
  {}

  lemma WakeIs(s: State, j: nat)
    requires Inv(s) && j < |s.batches| && s.batches[j] != []
    ensures Enabled(Lists(s), Serve(j + 1)) && Lists(Do(s, Wake(j))) == Apply(Lists(s), Serve(j + 1))
  {}

  lemma {:induction false} OccursIff<T>(q: Queues<T>, t: T)
    ensures Queued(q, t) <==> Occurs(q, t) > 0
    decreases |q|
  {
    if q != [] {
      OccursIff(q[1..], t);
      TimesIff(q[0], t);
      if Queued(q, t) {
        var c: nat :| c < |q| && t in q[c];
        if c > 0 { assert t in q[1..][c - 1]; }
      }
      if Queued(q[1..], t) {
        var c: nat :| c < |q[1..]| && t in q[1..][c];
        assert t in q[c + 1];
      }
      if t in q[0] { assert Queued(q, t); }
    }
  }

  lemma {:induction false} TimesIff<T>(l: seq<T>, t: T)
    ensures t in l <==> Times(l, t) > 0
    decreases |l|
  {
    if l != [] { TimesIff(l[1..], t); }
  }

  /** On apart queues nobody occurs twice. */
  lemma {:induction false} OnceOnly<T>(q: Queues<T>, t: T)
    requires Apart(q)
    ensures Occurs(q, t) <= 1
    decreases |q|
  {
    if q != [] {
      assert Apart(q[1..]) by {
        forall c: nat, i: nat, d: nat, j: nat |
          c < |q[1..]| && i < |q[1..][c]| && d < |q[1..]| && j < |q[1..][d]| && q[1..][c][i] == q[1..][d][j]
          ensures c == d && i == j
        { assert q[c + 1][i] == q[d + 1][j]; }
      }
      OnceOnly(q[1..], t);
      OnceInOne(q, t);
      OccursIff(q[1..], t);
      TimesIff(q[0], t);
      if t in q[0] {
        var i :| 0 <= i < |q[0]| && q[0][i] == t;
        forall c: nat | c < |q[1..]| ensures t !in q[1..][c] {
          var l := q[c + 1];
          forall j: nat | j < |l| ensures l[j] != q[0][i] {}
        }
      }
    }
  }

  lemma OnceInOne<T>(q: Queues<T>, t: T)
    requires Apart(q) && q != []
    ensures Times(q[0], t) <= 1
  {
    forall i: nat, j: nat | i < j < |q[0]| ensures q[0][i] != q[0][j] {}
    DistinctTimes(q[0], t);
  }

  lemma {:induction false} DistinctTimes<T>(l: seq<T>, t: T)
    requires forall i: nat, j: nat | i < j < |l| :: l[i] != l[j]
    ensures Times(l, t) <= 1
    decreases |l|
  {
    if l != [] {
      DistinctTimes(l[1..], t);
      TimesIff(l[1..], t);
    }
  }

  lemma BlockKeeps(s: State, t: Tid)
    requires Inv(s) && t !in s.blocked
    ensures Inv(Do(s, Block(t)))
  {
    if !s.done {
      BlockIs(s, t);
      var q, r := Lists(s), Lists(Do(s, Block(t)));
      StepKeepsApart(q, Enter(0, t));
      forall u: Tid ensures Queued(r, u) <==> u == t || Queued(q, u) {
        StepThreads(q, Enter(0, t), u);
        OccursIff(q, u);
        OccursIff(r, u);
      }
    }
  }

  lemma WakeKeeps(s: State, j: nat)
    requires Inv(s) && j < |s.batches| && s.batches[j] != []
    ensures Inv(Do(s, Wake(j)))
  {
    WakeIs(s, j);
    var q, r, t := Lists(s), Lists(Do(s, Wake(j))), s.batches[j][0];
    StepKeepsApart(q, Serve(j + 1));
    forall u: Tid ensures Queued(r, u) <==> u != t && Queued(q, u) {
      StepThreads(q, Serve(j + 1), u);
      OccursIff(q, u);
      OccursIff(r, u);
      OnceOnly(q, u);
    }
  }

  /** Every action keeps the invariant. */
  lemma ActionKeepsInv(s: State, a: Action)
    requires Inv(s) && CanDo(s, a)
    ensures Inv(Do(s, a))
  {
    match a
    case Block(t) => BlockKeeps(s, t);
    case SetDone => assert Lists(Do(s, a)) == Lists(s);
    case Drain => DrainKeeps(s);
    case Wake(j) => WakeKeeps(s, j);
    case Reset => assert Lists(Do(s, a)) == Lists(s);
  }

  // ----- runs

  ghost predicate IsRunOf(s: State, acts: seq<Action>)
    decreases |acts|
  {
    acts == [] || (CanDo(s, acts[0]) && IsRunOf(Do(s, acts[0]), acts[1..]))
  }

  ghost function After(s: State, acts: seq<Action>): State
    requires IsRunOf(s, acts)
    decreases |acts|
  {
    if acts == [] then s else After(Do(s, acts[0]), acts[1..])
  }

  lemma {:induction false} RunKeepsInv(s: State, acts: seq<Action>)
    requires Inv(s) && IsRunOf(s, acts)
    ensures Inv(After(s, acts))
    decreases |acts|
  {
    if acts != [] {
      ActionKeepsInv(s, acts[0]);
      RunKeepsInv(Do(s, acts[0]), acts[1..]);
    }
  }

  /**
   No wake-up is lost: in every interleaving, once the flag is set and no signaller is on its way to
   the list, nobody waits; and once the batches are done too, nobody is blocked.
   */
  lemma NoLostWakeup(acts: seq<Action>)
    requires IsRunOf(START, acts) && After(START, acts).done && After(START, acts).pending == 0
    ensures After(START, acts).waiters == []
    ensures (forall j: nat | j < |After(START, acts).batches| :: After(START, acts).batches[j] == []) ==>
              After(START, acts).blocked == {}
  {
    StartInv();
    RunKeepsInv(START, acts);
    var s := After(START, acts);
    if forall j: nat | j < |s.batches| :: s.batches[j] == [] { NobodyBlocked(s); }
  }

  lemma NobodyBlocked(s: State)
    requires Inv(s) && s.waiters == [] && forall j: nat | j < |s.batches| :: s.batches[j] == []
    ensures s.blocked == {}
  {
    forall t: Tid ensures t !in s.blocked { assert t in s.blocked <==> Queued(Lists(s), t); }
  }

  /** Times thread `t` went to sleep, and times it was woken. */
  ghost function Sleeps(s: State, acts: seq<Action>, t: Tid): nat
    requires IsRunOf(s, acts)
    decreases |acts|
  {
    if acts == [] then 0
    else (if acts[0] == Block(t) && !s.done then 1 else 0) + Sleeps(Do(s, acts[0]), acts[1..], t)
  }

  ghost function Wakes(s: State, acts: seq<Action>, t: Tid): nat
    requires IsRunOf(s, acts)
    decreases |acts|
  {
    if acts == [] then 0
    else (if acts[0].Wake? && s.batches[acts[0].j][0] == t then 1 else 0) + Wakes(Do(s, acts[0]), acts[1..], t)
  }

  ghost function Asleep(s: State, t: Tid): nat { if t in s.blocked then 1 else 0 }

  /** Each sleep is ended by exactly one wake-up, unless it still goes on. */
  lemma {:induction false} SleepsAreWoken(s: State, acts: seq<Action>, t: Tid)
    requires Inv(s) && IsRunOf(s, acts)
    ensures Asleep(s, t) + Sleeps(s, acts, t) == Wakes(s, acts, t) + Asleep(After(s, acts), t)
    decreases |acts|
  {
    if acts != [] {
      var a := acts[0];
      ActionKeepsInv(s, a);
      SleepsAreWoken(Do(s, a), acts[1..], t);
      if a.Wake? {
        assert Queued(Lists(s), s.batches[a.j][0]) by { assert s.batches[a.j][0] in Lists(s)[a.j + 1]; }
      }
    }
  }

  // ----- progress

  ghost function Total(q: Queues<Tid>): nat
  {
    if q == [] then 0 else |q[0]| + Total(q[1..])
  }

  lemma {:induction false} TotalAt(q: Queues<Tid>, c: nat, l: seq<Tid>)
    requires c < |q|
    ensures Total(q[c := l]) + |q[c]| == Total(q) + |l|
    decreases |q|
  {
    if c == 0 {
      assert q[c := l][1..] == q[1..];
    } else {
      TotalAt(q[1..], c - 1, l);
      assert q[c := l][1..] == q[1..][c - 1 := l];
    }
  }

  lemma {:induction false} TotalAppend(q: Queues<Tid>, l: seq<Tid>)
    ensures Total(q + [l]) == Total(q) + |l|
    decreases |q|
  {
    if q == [] {
      assert q + [l] == [l] && [l][1..] == [];
    } else {
      TotalAppend(q[1..], l);
      assert (q + [l])[1..] == q[1..] + [l];
    }
  }

  /** What signallers still have to do: lists to take and threads to wake. */
  ghost function Work(s: State): nat { s.pending + |s.waiters| + Total(s.batches) }

  ghost predicate IsSignalling(a: Action) { a.Drain? || a.Wake? }

  lemma SignallingWorks(s: State, a: Action)
    requires CanDo(s, a) && IsSignalling(a)
    ensures Work(Do(s, a)) + 1 == Work(s)
  {
    match a
    case Drain => TotalAppend(s.batches, s.waiters);
    case Wake(j) => TotalAt(s.batches, j, s.batches[j][1..]);
  }

  /** Signallers left to themselves finish within their work, and if the flag is set everybody is then awake. */
  lemma {:induction false} SignallersFinish(s: State, acts: seq<Action>)
    requires Inv(s) && IsRunOf(s, acts) && forall i: nat | i < |acts| :: IsSignalling(acts[i])
    ensures |acts| <= Work(s) && After(s, acts).done == s.done
    ensures s.done && (forall a: Action | IsSignalling(a) :: !CanDo(After(s, acts), a)) ==> After(s, acts).blocked == {}
    decreases |acts|
  {
    if acts != [] {
      ActionKeepsInv(s, acts[0]);
      SignallingWorks(s, acts[0]);
      SignallersFinish(Do(s, acts[0]), acts[1..]);
    } else if s.done && forall a: Action | IsSignalling(a) :: !CanDo(s, a) {
      assert !CanDo(s, Drain);
      forall j: nat | j < |s.batches| ensures s.batches[j] == [] { assert !CanDo(s, Wake(j)); }
      NobodyBlocked(s);
    }
  }
}

/**
 The run queues of all CPUs as sequences, and the steps the scheduler takes on them.  Facts about
 whole runs: no thread is ever on two queues, and a thread waits for a bounded number of turns.
 */
module QueueSteps {
  type Queues<T> = seq<seq<T>>

  datatype Step<T> =
    | Stay
    /** A thread joins the end of queue `c`. */
    | Enter(c: nat, t: T)
    /** The head of queue `c` is taken to run. */
    | Serve(c: nat)
    /** The thread at position `k` of queue `c` is taken off. */
    | Leave(c: nat, k: nat)
    /** The thread at position `k` of queue `c` joins the end of queue `to`. */
    | Migrate(c: nat, k: nat, to: nat)

  function Without<T>(q: seq<T>, k: nat): (r: seq<T>)
    requires k < |q|
    ensures |r| == |q| - 1
  {
    q[..k] + q[k + 1..]
  }

  ghost predicate Queued<T>(q: Queues<T>, t: T)
  {
    exists c: nat | c < |q| :: t in q[c]
  }

  ghost predicate Enabled<T>(q: Queues<T>, s: Step<T>)
  {
    match s
    case Stay => true
    case Enter(c, t) => c < |q| && !Queued(q, t)
    case Serve(c) => c < |q| && q[c] != []
    case Leave(c, k) => c < |q| && k < |q[c]|
    case Migrate(c, k, to) => c < |q| && k < |q[c]| && to < |q| && to != c && |q[to]| + 1 < |q[c]|
  }

  ghost function Apply<T>(q: Queues<T>, s: Step<T>): (r: Queues<T>)
    requires Enabled(q, s)
    ensures |r| == |q|
  {
    match s
    case Stay => q
    case Enter(c, t) => q[c := q[c] + [t]]
    case Serve(c) => q[c := q[c][1..]]
    case Leave(c, k) => q[c := Without(q[c], k)]
    case Migrate(c, k, to) => q[c := Without(q[c], k)][to := q[to] + [q[c][k]]]
  }

  /** Taking a thread off one queue and adding it to another is a migration. */
  lemma LeaveThenEnter<T>(q: Queues<T>, c: nat, k: nat, to: nat)
    requires Enabled(q, Migrate(c, k, to)) && Enabled(Apply(q, Leave(c, k)), Enter(to, q[c][k]))
    ensures Apply(Apply(q, Leave(c, k)), Enter(to, q[c][k])) == Apply(q, Migrate(c, k, to))
  {}

  /** No thread twice, on one queue or on two. */
  ghost predicate Apart<T>(q: Queues<T>)
  {
    forall c: nat, i: nat, d: nat, j: nat | c < |q| && i < |q[c]| && d < |q| && j < |q[d]| && q[c][i] == q[d][j] ::
        c == d && i == j
  }

  /** Position `i` of queue `c` after the step came from here; positions of entering threads from nowhere. */
  lemma StepKeepsApart<T>(q: Queues<T>, s: Step<T>)
    requires Enabled(q, s) && Apart(q)
    ensures Apart(Apply(q, s))
  {
    var r := Apply(q, s);
    forall c: nat, i: nat, d: nat, j: nat | c < |r| && i < |r[c]| && d < |r| && j < |r[d]| && r[c][i] == r[d][j]
      ensures c == d && i == j
    {
      var a, b := Origin(q, s, c, i), Origin(q, s, d, j);
      OriginIs(q, s, c, i);
      OriginIs(q, s, d, j);
    }
  }

  /** Where the thread at position `i` of queue `c` stood before the step, if it was queued. */
  datatype Place = New | Old(c: nat, i: nat)

  ghost function Origin<T>(q: Queues<T>, s: Step<T>, c: nat, i: nat): Place
    requires Enabled(q, s) && c < |q| && i < |Apply(q, s)[c]|
  {
    match s
    case Stay => Old(c, i)
    case Enter(d, t) => if c == d && i == |q[d]| then New else Old(c, i)
    case Serve(d) => if c == d then Old(c, i + 1) else Old(c, i)
    case Leave(d, k) => if c == d && i >= k then Old(c, i + 1) else Old(c, i)
    case Migrate(d, k, to) =>
      if c == to && i == |q[to]| then Old(d, k) else if c == d && i >= k then Old(c, i + 1) else Old(c, i)
  }

  lemma OriginIs<T>(q: Queues<T>, s: Step<T>, c: nat, i: nat)
    requires Enabled(q, s) && c < |q| && i < |Apply(q, s)[c]|
    ensures var o := Origin(q, s, c, i);
            if o.New? then s.Enter? && s.t == Apply(q, s)[c][i]
            else o.c < |q| && o.i < |q[o.c]| && q[o.c][o.i] == Apply(q, s)[c][i]
    ensures forall d: nat, j: nat | d < |q| && j < |Apply(q, s)[d]| && Origin(q, s, d, j) == Origin(q, s, c, i) ::
              d == c && j == i
  {}

  // ----- where a waiting thread goes

  datatype Fate = Waiting(c: nat, i: nat) | Served | Taken

  /** What one step does to the thread at position `i` of queue `c`. */
  ghost function Follow<T>(q: Queues<T>, s: Step<T>, c: nat, i: nat): Fate
    requires Enabled(q, s) && c < |q| && i < |q[c]|
  {
    match s
    case Stay => Waiting(c, i)
    case Enter(d, t) => Waiting(c, i)
    case Serve(d) => if d != c then Waiting(c, i) else if i == 0 then Served else Waiting(c, i - 1)
    case Leave(d, k) => if d != c || i < k then Waiting(c, i) else if i == k then Taken else Waiting(c, i - 1)
    case Migrate(d, k, to) =>
      if d != c || i < k then Waiting(c, i) else if i == k then Waiting(to, |q[to]|) else Waiting(c, i - 1)
  }

  lemma FollowIs<T>(q: Queues<T>, s: Step<T>, c: nat, i: nat)
    requires Enabled(q, s) && c < |q| && i < |q[c]|
    ensures var f := Follow(q, s, c, i);
            f.Waiting? ==> f.c < |q| && f.i < |Apply(q, s)[f.c]| && Apply(q, s)[f.c][f.i] == q[c][i]
  {}

  /** Every step can be taken where the ones before it lead. */
  ghost predicate IsRun<T>(q: Queues<T>, steps: seq<Step<T>>)
    decreases |steps|
  {
    steps == [] || (Enabled(q, steps[0]) && IsRun(Apply(q, steps[0]), steps[1..]))
  }

  ghost function End<T>(q: Queues<T>, steps: seq<Step<T>>): Queues<T>
    requires IsRun(q, steps)
    decreases |steps|
  {
    if steps == [] then q else End(Apply(q, steps[0]), steps[1..])
  }

  ghost function FateOf<T>(q: Queues<T>, steps: seq<Step<T>>, c: nat, i: nat): Fate
    requires IsRun(q, steps) && c < |q| && i < |q[c]|
    decreases |steps|
  {
    if steps == [] then Waiting(c, i)
    else
      FollowIs(q, steps[0], c, i);
      match Follow(q, steps[0], c, i)
      case Waiting(d, j) => FateOf(Apply(q, steps[0]), steps[1..], d, j)
      case other => other
  }

  /** Turns queue `c` gives out. */
  ghost function Turns<T>(steps: seq<Step<T>>, c: nat): nat
    decreases |steps|
  {
    if steps == [] then 0 else (if steps[0] == Serve(c) then 1 else 0) + Turns(steps[1..], c)
  }

  /** The balancer never picks the thread at position `i` of queue `c` along the run. */
  ghost predicate StaysOn<T>(q: Queues<T>, steps: seq<Step<T>>, c: nat, i: nat)
    requires IsRun(q, steps) && c < |q| && i < |q[c]|
    decreases |steps|
  {
    steps == [] ||
    (FollowIs(q, steps[0], c, i);
     match Follow(q, steps[0], c, i)
     case Waiting(d, j) => d == c && StaysOn(Apply(q, steps[0]), steps[1..], d, j)
     case other => true)
  }

  /** Runs keep the queues apart. */
  lemma {:induction false} RunKeepsApart<T>(q: Queues<T>, steps: seq<Step<T>>)
    requires IsRun(q, steps) && Apart(q)
    ensures Apart(End(q, steps)) && |End(q, steps)| == |q|
    decreases |steps|
  {
    if steps != [] {
      StepKeepsApart(q, steps[0]);
      RunKeepsApart(Apply(q, steps[0]), steps[1..]);
    }
  }

  /** The thread is where its fate says. */
  lemma {:induction false} FateIs<T>(q: Queues<T>, steps: seq<Step<T>>, c: nat, i: nat)
    requires IsRun(q, steps) && c < |q| && i < |q[c]|
    ensures var f := FateOf(q, steps, c, i);
            f.Waiting? ==> f.c < |End(q, steps)| && f.i < |End(q, steps)[f.c]| && End(q, steps)[f.c][f.i] == q[c][i]
    decreases |steps|
  {
    if steps != [] {
      FollowIs(q, steps[0], c, i);
      match Follow(q, steps[0], c, i)
      case Waiting(d, j) => FateIs(Apply(q, steps[0]), steps[1..], d, j);
      case other =>
    }
  }

  /**
   A thread that is not migrated moves up at least one position with every turn its queue gives
   out; after `i + 1` turns it has been served or taken off.
   */
  lemma {:induction false} WaitingIsBounded<T>(q: Queues<T>, steps: seq<Step<T>>, c: nat, i: nat)
    requires IsRun(q, steps) && c < |q| && i < |q[c]| && StaysOn(q, steps, c, i)
    ensures var f := FateOf(q, steps, c, i); f.Waiting? ==> f.c == c && f.i + Turns(steps, c) <= i
    decreases |steps|
  {
    if steps != [] {
      FollowIs(q, steps[0], c, i);
      match Follow(q, steps[0], c, i)
      case Waiting(d, j) => WaitingIsBounded(Apply(q, steps[0]), steps[1..], d, j);
      case other =>
    }
  }

  /**
   A migrated thread goes to the end of a queue at least two shorter; it falls back exactly when
   that queue is longer than its position.
   */
  lemma MigratedPosition<T>(q: Queues<T>, c: nat, k: nat, to: nat)
    requires Enabled(q, Migrate(c, k, to))
    ensures var f := Follow(q, Migrate(c, k, to), c, k);
            f == Waiting(to, |q[to]|) && f.i + 1 < |q[c]| && (f.i > k <==> |q[to]| > k)
  {}

  // ----- balance

  ghost function Squares<T>(q: Queues<T>): nat
  {
    if q == [] then 0 else |q[0]| * |q[0]| + Squares(q[1..])
  }

  lemma {:induction false} SquaresAt<T>(q: Queues<T>, c: nat, l: seq<T>)
    requires c < |q|
    ensures Squares(q[c := l]) + |q[c]| * |q[c]| == Squares(q) + |l| * |l|
    decreases |q|
  {
    if c == 0 {
      assert q[c := l][1..] == q[1..];
    } else {
      SquaresAt(q[1..], c - 1, l);
      assert q[c := l][1..] == q[1..][c - 1 := l];
    }
  }

  /** A migration lowers the sum of squared lengths by twice the difference less one, at least by two. */
  lemma MigrateLowersSquares<T>(q: Queues<T>, c: nat, k: nat, to: nat)
    requires Enabled(q, Migrate(c, k, to))
    ensures Squares(Apply(q, Migrate(c, k, to))) + 2 * (|q[c]| - |q[to]| - 1) == Squares(q)
    ensures Squares(Apply(q, Migrate(c, k, to))) + 2 <= Squares(q)
  {
    var mid := q[c := Without(q[c], k)];
    SquaresAt(q, c, Without(q[c], k));
    SquaresAt(mid, to, q[to] + [q[c][k]]);
    SquareStep(|q[c]| - 1);
    SquareStep(|q[to]|);
  }

  lemma SquareStep(n: nat)
    ensures (n + 1) * (n + 1) == n * n + 2 * n + 1
  {}

  ghost function Migrations<T>(steps: seq<Step<T>>): nat
    decreases |steps|
  {
    if steps == [] then 0 else (if steps[0].Migrate? then 1 else 0) + Migrations(steps[1..])
  }

  /**
   Balancing alone comes to an end: a run without arrivals or departures migrates at most half the
   initial sum of squares.
   */
  lemma {:induction false} BalancingEnds<T>(q: Queues<T>, steps: seq<Step<T>>)
    requires IsRun(q, steps) && forall i: nat | i < |steps| :: steps[i].Migrate? || steps[i].Stay?
    ensures 2 * Migrations(steps) + Squares(End(q, steps)) <= Squares(q)
    decreases |steps|
  {
    if steps != [] {
      if steps[0].Migrate? { MigrateLowersSquares(q, steps[0].c, steps[0].k, steps[0].to); }
      BalancingEnds(Apply(q, steps[0]), steps[1..]);
    }
  }

  /** How often `t` stands on one queue. */
  ghost function Times<T>(l: seq<T>, t: T): nat
  {
    if l == [] then 0 else (if l[0] == t then 1 else 0) + Times(l[1..], t)
  }

  /** How often `t` stands on any queue. */
  ghost function Occurs<T>(q: Queues<T>, t: T): nat
  {
    if q == [] then 0 else Times(q[0], t) + Occurs(q[1..], t)
  }

  lemma {:induction false} OccursAt<T>(q: Queues<T>, c: nat, l: seq<T>, t: T)
    requires c < |q|
    ensures Occurs(q[c := l], t) + Times(q[c], t) == Occurs(q, t) + Times(l, t)
    decreases |q|
  {
    if c == 0 {
      assert q[c := l][1..] == q[1..];
    } else {
      OccursAt(q[1..], c - 1, l, t);
      assert q[c := l][1..] == q[1..][c - 1 := l];
    }
  }

  lemma {:induction false} TimesWithout<T>(l: seq<T>, k: nat, t: T)
    requires k < |l|
    ensures Times(l, t) == Times(Without(l, k), t) + if l[k] == t then 1 else 0
    decreases |l|
  {
    if k == 0 {
      assert Without(l, 0) == l[1..];
    } else {
      TimesWithout(l[1..], k - 1, t);
      assert Without(l, k)[1..] == Without(l[1..], k - 1);
    }
  }

  lemma {:induction false} TimesAppend<T>(l: seq<T>, x: T, t: T)
    ensures Times(l + [x], t) == Times(l, t) + if x == t then 1 else 0
    decreases |l|
  {
    if l != [] {
      TimesAppend(l[1..], x, t);
      assert (l + [x])[1..] == l[1..] + [x];
    }
  }

  /** The thread a step brings in or takes out. */
  ghost function Comes<T>(s: Step<T>, t: T): nat { if s.Enter? && s.t == t then 1 else 0 }

  ghost function Goes<T>(q: Queues<T>, s: Step<T>, t: T): nat
    requires Enabled(q, s)
  {
    if (s.Serve? && q[s.c][0] == t) || (s.Leave? && q[s.c][s.k] == t) then 1 else 0
  }

  /** Each step changes the queued threads by exactly the one that enters or leaves; a migration by none. */
  lemma StepThreads<T>(q: Queues<T>, s: Step<T>, t: T)
    requires Enabled(q, s)
    ensures Occurs(Apply(q, s), t) + Goes(q, s, t) == Occurs(q, t) + Comes(s, t)
  {
    match s
    case Stay =>
    case Enter(c, x) =>
      OccursAt(q, c, q[c] + [x], t);
      TimesAppend(q[c], x, t);
    case Serve(c) => OccursAt(q, c, q[c][1..], t);
    case Leave(c, k) =>
      OccursAt(q, c, Without(q[c], k), t);
      TimesWithout(q[c], k, t);
    case Migrate(c, k, to) =>
      OccursAt(q, c, Without(q[c], k), t);
      OccursAt(q[c := Without(q[c], k)], to, q[to] + [q[c][k]], t);
      TimesWithout(q[c], k, t);
      TimesAppend(q[to], q[c][k], t);
  }
}

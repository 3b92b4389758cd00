/**
 Choosing the CPU for a thread: a circular search over the CPU list for the shortest schedulable
 run queue.  CPUs are list positions; position 0 is the boot CPU, which is always schedulable.
 */
module Placement {
  /** Steps forward from `origin` to `c` on a ring of `n`. */
  function Distance(n: nat, origin: nat, c: nat): nat
    requires origin < n && c < n
  {
    if origin <= c then c - origin else c + n - origin
  }

  /** The CPU behind `after`; the list start behind its end or behind no CPU. */
  function Behind(n: nat, after: int): nat
    requires n > 0
  {
    if 0 <= after && after + 1 < n then after + 1 else 0
  }

  /** `next_schedulable_cpu_after`: the first schedulable CPU behind `after`, going round. */
  method NextSchedulable(ok: seq<bool>, after: int) returns (r: nat)
    requires |ok| > 0 && ok[0] && -1 <= after < |ok|
    ensures r < |ok| && ok[r]
    ensures forall c: nat | c < |ok| && ok[c] ::
              Distance(|ok|, Behind(|ok|, after), r) <= Distance(|ok|, Behind(|ok|, after), c)
  {
    var start := Behind(|ok|, after);
    r := start;
    ghost var n, k := |ok|, 0;
    while !ok[r]
      invariant r < n && k == Distance(n, start, r) && k < n
      invariant forall c: nat | c < n && Distance(n, start, c) < k :: !ok[c]
      decreases n - k
    {
      forall c: nat | c < n && Distance(n, start, c) < k + 1 ensures !ok[c] {}
      assert k + 1 <= Distance(n, start, 0) < n;
      r, k := if r + 1 < |ok| then r + 1 else 0, k + 1;
    }
  }

  /** `c` is the first of the shortest schedulable queues, counted from `origin`. */
  ghost predicate IsFirstShortest(ok: seq<bool>, lens: seq<nat>, origin: nat, c: nat)
    requires |lens| == |ok| && origin < |ok|
  {
    && c < |ok| && ok[c]
    && forall d: nat | d < |ok| && ok[d] ::
         lens[c] <= lens[d] && (lens[d] == lens[c] ==> Distance(|ok|, origin, c) <= Distance(|ok|, origin, d))
  }

  /** Among the schedulable CPUs less than `k` steps from `origin`, `c` is the first of the shortest. */
  ghost predicate BestBefore(ok: seq<bool>, lens: seq<nat>, origin: nat, k: nat, c: nat)
    requires |lens| == |ok| && origin < |ok|
  {
    && c < |ok| && ok[c] && Distance(|ok|, origin, c) < k
    && forall d: nat | d < |ok| && ok[d] && Distance(|ok|, origin, d) < k ::
         lens[c] <= lens[d] && (lens[d] == lens[c] ==> Distance(|ok|, origin, c) <= Distance(|ok|, origin, d))
  }

  /** From `c` the search goes to the next schedulable CPU on the ring, or back to the origin. */
  lemma NextOnRing(ok: seq<bool>, origin: nat, c: nat, r: nat)
    requires origin < |ok| && ok[origin] && c < |ok| && r < |ok| && ok[r]
    requires forall d: nat | d < |ok| && ok[d] ::
               Distance(|ok|, Behind(|ok|, c), r) <= Distance(|ok|, Behind(|ok|, c), d)
    ensures Distance(|ok|, origin, r) > Distance(|ok|, origin, c) || r == origin
    ensures Distance(|ok|, origin, r) > Distance(|ok|, origin, c) ==>
              forall d: nat | d < |ok| && ok[d] && Distance(|ok|, origin, d) > Distance(|ok|, origin, c) ::
                Distance(|ok|, origin, r) <= Distance(|ok|, origin, d)
    ensures Distance(|ok|, origin, r) <= Distance(|ok|, origin, c) ==>
              forall d: nat | d < |ok| && ok[d] :: Distance(|ok|, origin, d) <= Distance(|ok|, origin, c)
  {
    assert Distance(|ok|, Behind(|ok|, c), r) <= Distance(|ok|, Behind(|ok|, c), origin);
  }

  /**
   `select_least_loaded_cpu` with queue lengths fixed: although the loop runs until it meets `best`,
   which moves, it ends, with the first shortest queue in circular order behind `startAfter`.
   */
  method SelectLeastLoaded(ok: seq<bool>, lens: seq<nat>, startAfter: int) returns (best: nat)
    requires |ok| > 0 && ok[0] && |lens| == |ok| && -1 <= startAfter < |ok|
    ensures IsFirstShortest(ok, lens, Behind(|ok|, startAfter), best)
  {
    best := NextSchedulable(ok, startAfter);
    ghost var origin := best;
    best := Search(ok, lens, best);
    FromOrigin(ok, lens, Behind(|ok|, startAfter), origin, best);
  }

  lemma FromOrigin(ok: seq<bool>, lens: seq<nat>, start: nat, origin: nat, best: nat)
    requires start < |ok| && |lens| == |ok| && origin < |ok| && ok[origin] && IsFirstShortest(ok, lens, origin, best)
    requires forall c: nat | c < |ok| && ok[c] :: Distance(|ok|, start, origin) <= Distance(|ok|, start, c)
    ensures IsFirstShortest(ok, lens, start, best)
  {
    forall d: nat | d < |ok| && ok[d] && lens[d] == lens[best]
      ensures Distance(|ok|, start, best) <= Distance(|ok|, start, d)
    {
      assert Distance(|ok|, origin, best) <= Distance(|ok|, origin, d);
      assert Distance(|ok|, start, origin) <= Distance(|ok|, start, d) &&
          Distance(|ok|, start, origin) <= Distance(|ok|, start, best);
    }
  }

  /**
   The search has looked at everything less than `seen` steps round the ring: on the first lap the
   candidate is the next schedulable CPU beyond that, on the second it has not passed `best` again.
   */
  ghost predicate Looking(ok: seq<bool>, lens: seq<nat>, origin: nat, seen: nat, candidate: nat, best: nat)
    requires |lens| == |ok| && origin < |ok|
  {
    && candidate < |ok| && ok[candidate] && seen <= |ok| && BestBefore(ok, lens, origin, seen, best)
    && (seen == |ok| ==> Distance(|ok|, origin, candidate) <= Distance(|ok|, origin, best))
    && (seen < |ok| ==> Distance(|ok|, origin, candidate) >= seen)
    && (seen < |ok| ==> forall d: nat | d < |ok| && ok[d] && Distance(|ok|, origin, d) >= seen ::
          Distance(|ok|, origin, candidate) <= Distance(|ok|, origin, d))
  }

  /** How far the search has looked once the candidate is done and `next` comes up. */
  ghost function SeenAfter(ok: seq<bool>, origin: nat, seen: nat, candidate: nat, next: nat): nat
    requires origin < |ok| && candidate < |ok| && next < |ok|
  {
    if seen == |ok| || Distance(|ok|, origin, next) <= Distance(|ok|, origin, candidate) then |ok|
    else Distance(|ok|, origin, candidate) + 1
  }

  lemma LookOn(ok: seq<bool>, lens: seq<nat>, origin: nat, seen: nat, candidate: nat, best: nat, next: nat, seen': nat,
               best': nat)
    requires |lens| == |ok| && origin < |ok| && ok[origin] && Looking(ok, lens, origin, seen, candidate, best)
    requires candidate != best
    requires next < |ok| && ok[next] && forall d: nat | d < |ok| && ok[d] ::
               Distance(|ok|, Behind(|ok|, candidate), next) <= Distance(|ok|, Behind(|ok|, candidate), d)
    requires seen' == SeenAfter(ok, origin, seen, candidate, next)
    requires best' == if lens[candidate] < lens[best] then candidate else best
    ensures Looking(ok, lens, origin, seen', next, best') && seen' >= seen
    ensures seen' == seen ==> best' == best && Distance(|ok|, next, best') < Distance(|ok|, candidate, best)
  {
    NextOnRing(ok, origin, candidate, next);
  }

  method Search(ok: seq<bool>, lens: seq<nat>, origin: nat) returns (best: nat)
    requires |ok| > 0 && ok[0] && |lens| == |ok| && origin < |ok| && ok[origin]
    ensures IsFirstShortest(ok, lens, origin, best)
  {
    best := origin;
    var bestLength := lens[best];
    if bestLength == 0 { return; }
    var candidate: nat := NextSchedulable(ok, best);
    NextOnRing(ok, origin, origin, candidate);
    ghost var seen: nat := if candidate == origin then |ok| else 1;
    while candidate != best
      invariant best < |ok| && bestLength == lens[best] && Looking(ok, lens, origin, seen, candidate, best)
      decreases |ok| - seen, Distance(|ok|, candidate, best)
    {
      var length := lens[candidate];
      var next := NextSchedulable(ok, candidate);
      ghost var seen' := SeenAfter(ok, origin, seen, candidate, next);
      LookOn(ok, lens, origin, seen, candidate, best, next, seen', if length < bestLength then candidate else best);
      if length < bestLength {
        best, bestLength := candidate, length;
        if bestLength == 0 { break; }
      }
      seen, candidate := seen', next;
    }
  }

  // ----- spread

  /** Schedulable queues differ by at most one. */
  ghost predicate Level(ok: seq<bool>, lens: seq<nat>)
  {
    |lens| == |ok| && forall c: nat, d: nat | c < |ok| && d < |ok| && ok[c] && ok[d] :: lens[c] <= lens[d] + 1
  }

  /** Placing a thread on a shortest queue keeps the queues level. */
  lemma PlacementKeepsLevel(ok: seq<bool>, lens: seq<nat>, origin: nat, c: nat)
    requires Level(ok, lens) && origin < |ok| && IsFirstShortest(ok, lens, origin, c)
    ensures Level(ok, lens[c := lens[c] + 1])
  {
    var l := lens[c := lens[c] + 1];
    forall a: nat, b: nat | a < |ok| && b < |ok| && ok[a] && ok[b] ensures l[a] <= l[b] + 1 {
      assert lens[a] <= lens[b] + 1 && lens[c] <= lens[b];
    }
  }

  /** Repeated placement, each time behind the CPU chosen last, keeps level queues level. */
  method PlaceAll(ok: seq<bool>, lens: seq<nat>, startAfter: int, n: nat) returns (l: seq<nat>)
    requires |ok| > 0 && ok[0] && Level(ok, lens) && -1 <= startAfter < |ok|
    ensures Level(ok, l)
  {
    l := lens;
    var last, i := startAfter, 0;
    while i < n
      invariant i <= n && Level(ok, l) && -1 <= last < |ok|
    {
      var c := SelectLeastLoaded(ok, l, last);
      PlacementKeepsLevel(ok, l, Behind(|ok|, last), c);
      l, last, i := l[c := l[c] + 1], c, i + 1;
    }
  }
}

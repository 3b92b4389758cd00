/**
 What can happen to the block device between a request and its completion: the device takes and
 finishes requests in any order, its interrupt drains the used ring, other threads submit requests.
 One step at a time, this module follows a single request and a range of sectors through all of it.
 */
module BlockSteps {
  import opened Word64
  import opened VirtioBlk

  /** `Finish` names the slot the device answers, and what a failed read may leave in its buffer. */
  datatype Event =
    | TakeNext
    | Finish(slot: nat, ok: bool, junk: seq<Sector>)
    | Interrupt
    | Other(op: Operation, sector: Word, data: seq<Sector>)

  /**
   The step from `s` to `s'`; a request submitted in it gets the number `id`.  An event that cannot
   happen changes nothing; one that can, does.
   */
  ghost predicate Follows(s: State, s': State, e: Event, id: nat)
  {
    match e
    case TakeNext =>
      if s.taken < s.submitted then exists i: nat :: ShapeOk(s) && i < |s.slots| && s' == DeviceTook(s, i) else s' == s
    case Finish(i, ok, junk) =>
      if Inv(s) && i < |s.slots| && s.stages[i] == AtDevice && |junk| == s.slots[i].count
      then s' == DeviceDone(s, i, ok, junk) else s' == s
    case Interrupt => Drained(s, s') && s'.consumed == s'.returned
    case Other(op, sector, data) =>
      && s'.disk == s.disk && (forall x | x in s.requests :: x in s'.requests && s'.requests[x] == s.requests[x])
      && Admitted(s, s', id, op, sector, |data|)
  }

  /** The sectors `[lo, hi)` of a medium. */
  function Range(disk: seq<Sector>, lo: nat, hi: nat): seq<Sector>
    requires lo <= hi <= |disk|
  {
    disk[lo..hi]
  }

  /** The medium after `data` was written from `sector` on. */
  function Written(disk: seq<Sector>, sector: nat, data: seq<Sector>): (d: seq<Sector>)
    requires sector + |data| <= |disk|
    ensures |d| == |disk|
  {
    disk[..sector] + data + disk[sector + |data|..]
  }

  // ----- one request

  /**
   In one step a request stays as it is, is answered, or completes.  An answered read has the
   sectors of the medium at that moment; with an answered write the medium changes to hold its data.
   */
  ghost predicate Advances(r: Request, r': Request, disk: seq<Sector>, disk': seq<Sector>)
  {
    || r' == r
    || (!r.done && r.answer != None && r' == Completed(r))
    || (!r.done && r.answer == None && r' == r.(answer := r'.answer) && r'.answer != None &&
        (r'.answer.Transferred? ==>
           && r.sector + r.count <= |disk|
           && (r.op == Read ==> r'.answer.sectors == Range(disk, r.sector, r.sector + r.count))
           && (r.op == Write ==> |r.data| == r.count && disk' == Written(disk, r.sector, r.data))))
  }

  lemma StepAdvances(s: State, s': State, e: Event, id: nat, x: nat)
    requires Inv(s) && Follows(s, s', e, id) && x in s.requests
    ensures x in s'.requests && |s'.disk| == |s.disk| && Advances(s.requests[x], s'.requests[x], s.disk, s'.disk)
  {
    if e.Interrupt? { assert DrainedOne(s.requests[x], s'.requests[x]); }
    if e.Finish? && s' != s {
      var i := e.slot;
      assert StageOk(s, i) && OwnRequest(s, i);
    }
  }

  /** What the request has got so far, given the media `trace` it has seen since it was submitted as `r0`. */
  ghost predicate Tracked(r0: Request, r: Request, trace: seq<seq<Sector>>)
  {
    && r == (if r.done then Completed(r0.(answer := r.answer)) else r0.(answer := r.answer)) &&
        (r.done ==> r.answer != None)
    && (r.answer.Transferred? && r0.op == Read ==> ReadAt(trace, r0.sector, r0.count, r.answer.sectors))
    && (r.answer.Transferred? && r0.op == Write ==> WrittenAt(trace, r0.sector, r0.data))
  }

  /** At one moment the medium held these sectors. */
  ghost predicate ReadAt(trace: seq<seq<Sector>>, sector: nat, count: nat, got: seq<Sector>)
  {
    exists t: nat :: t < |trace| && sector + count <= |trace[t]| && got == Range(trace[t], sector, sector + count)
  }

  /** At one moment the medium took these sectors. */
  ghost predicate WrittenAt(trace: seq<seq<Sector>>, sector: nat, data: seq<Sector>)
  {
    exists t: nat :: t + 1 < |trace| && sector + |data| <= |trace[t]| && trace[t + 1] == Written(trace[t], sector, data)
  }

  predicate IsNew(r: Request)
  {
    !r.done && r.answer == None && (r.op == Read || r.op == Write) && |r.data| == r.count
  }

  lemma TrackedOn(r0: Request, r: Request, r': Request, trace: seq<seq<Sector>>, disk: seq<Sector>, disk': seq<Sector>)
    requires IsNew(r0) && Tracked(r0, r, trace) && |trace| > 0 && trace[|trace| - 1] == disk
    requires Advances(r, r', disk, disk')
    ensures Tracked(r0, r', trace + [disk'])
  {
    var n, trace' := |trace|, trace + [disk'];
    if r.answer.Transferred? {
      LaterStill(r0, r.answer.sectors, trace, disk');
    } else if r'.answer.Transferred? {
      assert trace'[n - 1] == disk && trace'[n] == disk';
      assert r0.op == Read ==> r'.answer.sectors == Range(trace'[n - 1], r0.sector, r0.sector + r0.count);
      assert r0.op == Write ==> trace'[n - 1 + 1] == Written(trace'[n - 1], r0.sector, r0.data);
    }
  }

  lemma LaterStill(r0: Request, got: seq<Sector>, trace: seq<seq<Sector>>, disk': seq<Sector>)
    ensures ReadAt(trace, r0.sector, r0.count, got) ==> ReadAt(trace + [disk'], r0.sector, r0.count, got)
    ensures WrittenAt(trace, r0.sector, r0.data) ==> WrittenAt(trace + [disk'], r0.sector, r0.data)
  {
    var trace' := trace + [disk'];
    if ReadAt(trace, r0.sector, r0.count, got) {
      var t: nat :| t < |trace| && r0.sector + r0.count <= |trace[t]| &&
          got == Range(trace[t], r0.sector, r0.sector + r0.count);
      assert trace'[t] == trace[t];
    }
    if WrittenAt(trace, r0.sector, r0.data) {
      var t: nat :| t + 1 < |trace| && r0.sector + |r0.data| <= |trace[t]| &&
          trace[t + 1] == Written(trace[t], r0.sector, r0.data);
      assert trace'[t] == trace[t] && trace'[t + 1] == trace[t + 1];
    }
  }

  // ----- who answered it

  /** Event `t` is the device's answer to slot `i`, and if it was not yet drained no interrupt came since. */
  ghost predicate AnswerAt(events: seq<Event>, t: nat, now: nat, i: nat, r: Request)
  {
    && t < now <= |events| && events[t].Finish? && events[t].slot == i && events[t].ok == r.answer.Transferred?
    && (r.done || forall u: nat | t < u < now :: !events[u].Interrupt?)
  }

  /** Request `x` waits in slot `i`, or one of the events from `at` on answered it there. */
  ghost predicate Attended(s: State, x: nat, i: nat, events: seq<Event>, at: nat, now: nat)
  {
    && x in s.requests
    && if s.requests[x].answer == None then HasSlot(s, x, i)
       else exists t: nat :: at <= t && AnswerAt(events, t, now, i, s.requests[x])
  }

  ghost predicate HasSlot(s: State, x: nat, i: nat)
  {
    i < |s.slots| && s.slots[i].active && s.slots[i].request == x
  }

  /** A request without an answer stays in its slot until the device answers that slot. */
  lemma StaysInSlot(s: State, s': State, e: Event, id: nat, x: nat, i: nat)
    requires Inv(s) && Inv(s') && Follows(s, s', e, id) && x in s.requests && x != id
    requires s.requests[x].answer == None && HasSlot(s, x, i)
    ensures x in s'.requests
    ensures if s'.requests[x].answer == None then HasSlot(s', x, i)
            else e.Finish? && e.slot == i && e.ok == s'.requests[x].answer.Transferred? && !s'.requests[x].done
  {
    StepAdvances(s, s', e, id, x);
    assert OwnRequest(s, i);
    if e.Interrupt? { assert DrainedOne(s.requests[x], s'.requests[x]); }
    if e.Finish? && s' != s { assert StageOk(s, e.slot) && OwnRequest(s, e.slot); }
    if s'.requests[x].answer == None {
      assert Settled(s', x);
      var j: nat :| j < |s'.slots| && s'.slots[j].active && s'.slots[j].request == x;
      assert s.slots[j].active && s.slots[j].request == x;
    }
  }

  /** With the used ring drained, no slot has an answer. */
  lemma NothingReturned(s: State, j: nat)
    requires Inv(s) && s.consumed == s.returned && j < |s.slots| && s.slots[j].active
    ensures s.slots[j].request in s.requests && s.requests[s.slots[j].request].answer == None
  {
    assert OwnRequest(s, j) && StageOk(s, j);
  }

  /** An answered request is done after the next interrupt. */
  lemma InterruptDrains(s: State, s': State, id: nat, x: nat)
    requires Inv(s) && Inv(s') && Follows(s, s', Interrupt, id) && x in s.requests && s.requests[x].answer != None
    ensures x in s'.requests && s'.requests[x].done
  {
    assert DrainedOne(s.requests[x], s'.requests[x]);
    if !s'.requests[x].done {
      assert Settled(s', x);
      var j: nat :| j < |s'.slots| && s'.slots[j].active && s'.slots[j].request == x;
      NothingReturned(s', j);
    }
  }

  lemma AttendedOn(s: State, s': State, id: nat, x: nat, i: nat, events: seq<Event>, at: nat, now: nat, next: nat)
    requires at <= now < |events| && next == now + 1 && Inv(s) && Inv(s') && Follows(s, s', events[now], id) && x != id
    requires Attended(s, x, i, events, at, now)
    ensures Attended(s', x, i, events, at, next)
  {
    StepAdvances(s, s', events[now], id, x);
    if s.requests[x].answer == None {
      StaysInSlot(s, s', events[now], id, x, i);
      if s'.requests[x].answer != None { assert AnswerAt(events, now, next, i, s'.requests[x]); }
    } else {
      var t: nat :| at <= t && AnswerAt(events, t, now, i, s.requests[x]);
      if events[now].Interrupt? { InterruptDrains(s, s', id, x); }
      assert AnswerAt(events, t, next, i, s'.requests[x]);
    }
  }

  // ----- one range of sectors

  /** The sectors `[sector, sector + count)` lie outside `[lo, hi)`. */
  predicate Clear(sector: nat, count: nat, lo: nat, hi: nat)
  {
    sector + count <= lo || hi <= sector
  }

  /** No request but `x` is under way that writes to `[lo, hi)`; -1 excepts none. */
  ghost predicate OthersApart(s: State, lo: nat, hi: nat, x: int)
  {
    forall i: nat | i < |s.slots| && s.slots[i].active && s.slots[i].op == Write && s.slots[i].request != x ::
      Clear(s.slots[i].sector, s.slots[i].count, lo, hi)
  }

  /** No request is under way that writes to `[lo, hi)`. */
  ghost predicate NoWriter(s: State, lo: nat, hi: nat)
  {
    OthersApart(s, lo, hi, -1)
  }

  /** No other thread submits a write to `[lo, hi)`. */
  predicate EventApart(e: Event, lo: nat, hi: nat)
  {
    e.Other? && e.op == Write ==> Clear(e.sector, |e.data|, lo, hi)
  }

  ghost predicate EventsApart(events: seq<Event>, lo: nat, hi: nat)
  {
    forall e | e in events :: EventApart(e, lo, hi)
  }

  lemma StepApart(s: State, s': State, e: Event, id: nat, lo: nat, hi: nat, x: int)
    requires Inv(s) && Follows(s, s', e, id) && OthersApart(s, lo, hi, x) && EventApart(e, lo, hi)
    ensures OthersApart(s', lo, hi, x)
  {
    forall i: nat | i < |s'.slots| && s'.slots[i].active && s'.slots[i].op == Write && s'.slots[i].request != x
      ensures Clear(s'.slots[i].sector, s'.slots[i].count, lo, hi)
    {
      assert i < |s.slots|;
      if e.Finish? && s' != s { assert StageOk(s, e.slot); }
      if e.Other? && s'.slots[i] != s.slots[i] {
        assert s'.slots[i].sector == e.sector && s'.slots[i].count == |e.data|;
      }
    }
  }

  /** With the other writers elsewhere, the range changes only when `x` itself is a write that is answered. */
  lemma StepKeepsRange(s: State, s': State, e: Event, id: nat, lo: nat, hi: nat, x: int)
    requires Inv(s) && Follows(s, s', e, id) && OthersApart(s, lo, hi, x) && lo <= hi <= |s.disk|
    requires 0 <= x && x in s.requests && s.requests[x].op == Write ==>
               x in s'.requests && s'.requests[x].answer == s.requests[x].answer
    ensures hi <= |s'.disk| && Range(s'.disk, lo, hi) == Range(s.disk, lo, hi)
  {
    if e.Finish? && s' != s {
      var i := e.slot;
      assert StageOk(s, i) && OwnRequest(s, i);
      var slot := s.slots[i];
      if e.ok && slot.op == Write {
        assert slot.request != x;
        WrittenElsewhere(s.disk, slot.sector, slot.data, lo, hi);
      }
    }
  }

  lemma WrittenElsewhere(disk: seq<Sector>, sector: nat, data: seq<Sector>, lo: nat, hi: nat)
    requires sector + |data| <= |disk| && lo <= hi <= |disk| && Clear(sector, |data|, lo, hi)
    ensures Range(Written(disk, sector, data), lo, hi) == Range(disk, lo, hi)
  {}

  /** Writing inside the range changes it there. */
  lemma WrittenInside(disk: seq<Sector>, sector: nat, data: seq<Sector>, lo: nat, hi: nat)
    requires lo <= sector && sector + |data| <= hi <= |disk|
    ensures Range(Written(disk, sector, data), lo, hi) == Written(Range(disk, lo, hi), sector - lo, data)
  {
    var a, b := Range(Written(disk, sector, data), lo, hi), Written(Range(disk, lo, hi), sector - lo, data);
    assert |a| == |b| == hi - lo;
    forall i: nat | i < hi - lo ensures a[i] == b[i] {
      assert a[i] == Written(disk, sector, data)[lo + i];
    }
  }

  /** The range was the same at all these moments. */
  ghost predicate Still(trace: seq<seq<Sector>>, lo: nat, hi: nat, base: seq<Sector>)
  {
    forall t: nat | t < |trace| :: lo <= hi <= |trace[t]| && Range(trace[t], lo, hi) == base
  }

  // ----- both together

  /** The media seen, from `disk0` to `disk`. */
  ghost predicate Course(trace: seq<seq<Sector>>, disk0: seq<Sector>, disk: seq<Sector>)
  {
    && |trace| > 0 && trace[0] == disk0 && trace[|trace| - 1] == disk
    && forall t: nat | t < |trace| :: |trace[t]| == |disk0|
  }

  /** The range as request `x`, submitted as `r0`, leaves it. */
  ghost function Expected(r0: Request, r: Request, base: seq<Sector>, lo: nat): seq<Sector>
    requires lo <= r0.sector && r0.sector + |r0.data| <= lo + |base|
  {
    if r0.op == Write && r.answer.Transferred? then Written(base, r0.sector - lo, r0.data) else base
  }

  /** Only request `x` can write to `[lo, hi)`, which held `base`. */
  ghost predicate Quiet(s: State, x: nat, r0: Request, base: seq<Sector>, lo: nat, hi: nat, trace: seq<seq<Sector>>)
  {
    && lo <= r0.sector && r0.sector + r0.count <= hi <= |s.disk| && |base| == hi - lo && |r0.data| == r0.count
    && x in s.requests && OthersApart(s, lo, hi, x) && Range(s.disk, lo, hi) == Expected(r0, s.requests[x], base, lo)
    && (r0.op == Read ==> Still(trace, lo, hi, base))
  }

  lemma Onward(s: State, s': State, e: Event, id: nat, x: nat, r0: Request, trace: seq<seq<Sector>>, disk0: seq<Sector>)
    requires Inv(s) && Follows(s, s', e, id) && x in s.requests && IsNew(r0)
    requires Tracked(r0, s.requests[x], trace) && Course(trace, disk0, s.disk)
    ensures x in s'.requests && Tracked(r0, s'.requests[x], trace + [s'.disk])
    ensures Course(trace + [s'.disk], disk0, s'.disk)
  {
    StepAdvances(s, s', e, id, x);
    TrackedOn(r0, s.requests[x], s'.requests[x], trace, s.disk, s'.disk);
  }

  lemma QuietOnward(s: State, s': State, e: Event, id: nat, x: nat, r0: Request, trace: seq<seq<Sector>>,
                    base: seq<Sector>, lo: nat, hi: nat)
    requires Inv(s) && Follows(s, s', e, id) && IsNew(r0) && Quiet(s, x, r0, base, lo, hi, trace)
    requires EventApart(e, lo, hi)
    requires Tracked(r0, s.requests[x], trace)
    ensures Quiet(s', x, r0, base, lo, hi, trace + [s'.disk])
  {
    StepAdvances(s, s', e, id, x);
    StepApart(s, s', e, id, lo, hi, x);
    var r, r' := s.requests[x], s'.requests[x];
    if r.op == Write && r'.answer != r.answer {
      if r'.answer.Transferred? {
        WrittenInside(s.disk, r0.sector, r0.data, lo, hi);
      } else {
        FailedKeeps(s, s', e, id, x);
      }
    } else {
      StepKeepsRange(s, s', e, id, lo, hi, x);
    }
  }

  /** A write that fails leaves the medium alone. */
  lemma FailedKeeps(s: State, s': State, e: Event, id: nat, x: nat)
    requires Inv(s) && Follows(s, s', e, id) && x in s.requests && x in s'.requests
    requires s.requests[x].answer != s'.requests[x].answer && !s'.requests[x].answer.Transferred?
    ensures s'.disk == s.disk
  {
    if e.Interrupt? { assert DrainedOne(s.requests[x], s'.requests[x]); }
    if e.Finish? && s' != s { assert StageOk(s, e.slot) && OwnRequest(s, e.slot); }
  }
}

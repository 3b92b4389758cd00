/**
 The synchronous block wrappers over the virtio driver: a transfer is cut into batches the device
 accepts, each batch is submitted until the driver has a slot for it, and the caller waits until its
 request completes.  Everything that happens meanwhile is a schedule of events, which is an input;
 a call that is still waiting when the schedule ends is reported as waiting.
 */
module BlockDevices {
  import opened Word64
  import opened VirtioBlk
  import opened BlockSteps

  datatype Outcome = Waiting | Done(ok: bool)

  /** `chunk_sector_count` */
  function BatchSize(maxPerRequest: nat, remaining: nat): (n: nat)
    ensures n <= remaining && (remaining > 0 ==> n > 0) && (n <= maxPerRequest || n <= 1)
    ensures n == remaining || n == maxPerRequest || (maxPerRequest == 0 && n == 1)
  {
    var cap := if maxPerRequest != 0 then maxPerRequest else 1;
    if remaining < cap then remaining else cap
  }

  /** Nobody else writes to `[lo, hi)`, neither a request under way nor one that the schedule brings. */
  ghost predicate Undisturbed(s: State, events: seq<Event>, lo: nat, hi: nat)
  {
    lo <= hi <= |s.disk| && NoWriter(s, lo, hi) && EventsApart(events, lo, hi)
  }

  /** Sector `x` of the medium held `v` at one of these moments. */
  ghost predicate Seen(trace: seq<seq<Sector>>, x: nat, v: Sector)
  {
    exists t: nat :: t < |trace| && x < |trace[t]| && trace[t][x] == v
  }

  /** The caller's request and the slot it was given. */
  datatype Ticket = Ticket(id: nat, slot: nat)

  /** The caller's own request has come back, and the device's answer to it, good if `ok`, is among the events. */
  ghost predicate Answered(s: State, t: Ticket, op: Operation, sector: nat, count: nat, ok: bool,
                           events: seq<Event>, at: nat, now: nat)
  {
    && t.id in s.requests && s.requests[t.id].op == op && s.requests[t.id].sector == sector &&
        s.requests[t.id].count == count
    && s.requests[t.id].done && s.requests[t.id].answer != None && s.requests[t.id].answer.Transferred? == ok
    && exists k: nat :: at <= k < now <= |events| && events[k].Finish? && events[k].slot == t.slot && events[k].ok == ok
  }

  /**
   Why a call ended as it did.  It succeeds exactly if the request is acceptable and the device
   answered it well, and fails exactly if it is not acceptable or the device answered it badly; it
   waits only when the schedule is over.
   */
  ghost predicate Explained(s: State, r: Outcome, t: Ticket, op: Operation, sector: nat, count: nat, capacity: nat,
                            events: seq<Event>, at: nat, now: nat)
  {
    match r
    case Waiting => now == |events| && Acceptable(op, sector, count, capacity)
    case Done(ok) =>
      if Acceptable(op, sector, count, capacity) then Answered(s, t, op, sector, count, ok, events, at, now) else !ok
  }

  lemma ExplainedEarlier(s: State, r: Outcome, t: Ticket, op: Operation, sector: nat, count: nat, capacity: nat,
                         events: seq<Event>, at: nat, later: nat, now: nat)
    requires at <= later && Explained(s, r, t, op, sector, count, capacity, events, later, now)
    ensures Explained(s, r, t, op, sector, count, capacity, events, at, now)
  {}

  /**
   Why a transfer of `count` sectors ended after `done` of them.  Success needs a range on the medium
   and batches the device takes; failure means that there was nothing to transfer, that the range
   leaves the medium, that a batch is too big, or that the device answered a request of this very
   transfer badly; it waits only when the schedule is over.
   */
  ghost predicate Ends(s: State, r: Outcome, mine: Ticket, op: Operation, sector: nat, done: nat, count: nat,
                       maxPerRequest: nat, capacity: nat, events: seq<Event>, now: nat)
    requires done <= count
  {
    match r
    case Waiting => now == |events|
    case Done(true) => sector + count <= capacity && BatchSize(maxPerRequest, count) <= MAX_SECTORS
    case Done(false) =>
      || count == 0 || sector + count > capacity || BatchSize(maxPerRequest, count) > MAX_SECTORS
      || Answered(s, mine, op, sector + done, BatchSize(maxPerRequest, count - done), false, events, 0, now)
  }

  /** The batches so far were good. */
  predicate Fits(sector: nat, done: nat, count: nat, maxPerRequest: nat, capacity: nat)
  {
    done > 0 ==> sector + done <= capacity && BatchSize(maxPerRequest, count) <= MAX_SECTORS
  }

  /** How the last batch ended the transfer. */
  lemma BatchEnds(s: State, r: Outcome, mine: Ticket, op: Operation, sector: nat, done: nat, cursor: nat, count: nat,
                  batch: nat, upto: nat, maxPerRequest: nat, capacity: nat, events: seq<Event>, at: nat, now: nat)
    requires done < count && cursor == sector + done && batch == BatchSize(maxPerRequest, count - done)
    requires upto == done + batch && (op == Read || op == Write) && Fits(sector, done, count, maxPerRequest, capacity)
    requires Explained(s, r, mine, op, cursor, batch, capacity, events, at, now)
    ensures r != Done(true) ==> Ends(s, r, mine, op, sector, done, count, maxPerRequest, capacity, events, now)
    ensures r == Done(true) ==> upto <= count && Fits(sector, upto, count, maxPerRequest, capacity)
  {
    if Acceptable(op, cursor, batch, capacity) {
      ExplainedEarlier(s, r, mine, op, cursor, batch, capacity, events, 0, at, now);
    }
  }

  lemma SeenIn(trace: seq<seq<Sector>>, part: seq<seq<Sector>>, sector: nat, got: seq<Sector>, i: nat)
    requires ReadAt(part, sector, |got|, got) && i < |got|
    ensures Seen(trace + part, sector + i, got[i])
  {
    var t: nat :| t < |part| && sector + |got| <= |part[t]| && got == Range(part[t], sector, sector + |got|);
    assert (trace + part)[|trace| + t] == part[t];
  }

  lemma SeenLater(trace: seq<seq<Sector>>, part: seq<seq<Sector>>, x: nat, v: Sector)
    requires Seen(trace, x, v)
    ensures Seen(trace + part, x, v)
  {
    var t: nat :| t < |trace| && x < |trace[t]| && trace[t][x] == v;
    assert (trace + part)[t] == trace[t];
  }

  lemma CourseJoins(a: seq<seq<Sector>>, b: seq<seq<Sector>>, disk0: seq<Sector>, disk1: seq<Sector>,
                    disk2: seq<Sector>)
    requires Course(a, disk0, disk1) && Course(b, disk1, disk2)
    ensures Course(a + b, disk0, disk2)
  {}

  class BlockDevice {
    const driver: Driver
    const maxPerRequest: nat
    /** The number the next request gets. */
    var next: nat

    ghost predicate Valid()
      reads this, driver
    {
      driver.Valid() && driver.capacity < WORD_LIMIT && forall x | x in driver.requests :: x < next
    }

    constructor (driver: Driver, maxPerRequest: nat)
      requires driver.Valid() && driver.requests == map[] && driver.capacity < WORD_LIMIT
      ensures Valid() && this.driver == driver && this.maxPerRequest == maxPerRequest
    {
      this.driver, this.maxPerRequest, next := driver, maxPerRequest, 0;
    }

    /** One event of the schedule; one that cannot happen now is passed over. */
    method Step(e: Event)
      requires Valid()
      modifies this, driver
      ensures Valid() && next >= old(next) && Follows(old(driver.Now()), driver.Now(), e, old(next))
    {
      match e {
        case TakeNext => TakeOne();
        case Finish(i, ok, junk) =>
          if i in driver.held && i < |driver.slots| && |junk| == driver.slots[i].count { Finished(i, ok, junk); }
        case Interrupt => driver.DrainUsed();
        case Other(op, sector, data) =>
          var ok := driver.Submit(next, op, sector, |data|, data);
          next := next + 1;
      }
    }

    method TakeOne()
      requires Valid()
      modifies driver
      ensures Valid() && Follows(old(driver.Now()), driver.Now(), TakeNext, next)
    {
      AvailableLeft(driver.Now());
      if driver.devIdx != driver.availIdx { var head, i := driver.DeviceTake(); }
    }

    method Finished(i: nat, ok: bool, junk: seq<Sector>)
      requires Valid() && i in driver.held && i < |driver.slots| && |junk| == driver.slots[i].count
      modifies driver
      ensures Valid() && Follows(old(driver.Now()), driver.Now(), Finish(i, ok, junk), next)
    {
      ghost var s := driver.Now();
      assert StageOk(s, i) && OwnRequest(s, i);
      driver.DeviceFinish(i, ok, junk);
      assert driver.requests.Keys == s.requests.Keys;
    }

    /** `block_request_wait`: events pass until the request is done. */
    method Wait(id: nat, events: seq<Event>, at: nat, ghost slot: nat, ghost r0: Request, ghost quiet: bool,
                ghost base: seq<Sector>, ghost lo: nat, ghost hi: nat)
      returns (done: bool, now: nat, ghost trace: seq<seq<Sector>>)
      requires Valid() && at <= |events| && id in driver.requests && driver.requests[id] == r0 && IsNew(r0)
      requires HasSlot(driver.Now(), id, slot)
      requires quiet ==> EventsApart(events, lo, hi) && Quiet(driver.Now(), id, r0, base, lo, hi, [driver.disk])
      modifies this, driver
      ensures Valid() && at <= now <= |events| && Course(trace, old(driver.disk), driver.disk)
      ensures id in driver.requests && done == driver.requests[id].done && Tracked(r0, driver.requests[id], trace)
      ensures Attended(driver.Now(), id, slot, events, at, now) && (!done ==> now == |events|)
      ensures quiet ==> Quiet(driver.Now(), id, r0, base, lo, hi, trace)
    {
      ghost var disk0 := driver.disk;
      now, trace := at, [driver.disk];
      while now < |events| && !driver.requests[id].done
        invariant Valid() && at <= now <= |events| && id < next && Attended(driver.Now(), id, slot, events, at, now)
        invariant Course(trace, disk0, driver.disk) && Tracked(r0, driver.requests[id], trace)
        invariant quiet ==> Quiet(driver.Now(), id, r0, base, lo, hi, trace)
        decreases |events| - now
      {
        ghost var s, number := driver.Now(), next;
        Step(events[now]);
        Onward(s, driver.Now(), events[now], number, id, r0, trace, disk0);
        AttendedOn(s, driver.Now(), number, id, slot, events, at, now, now + 1);
        if quiet { QuietOnward(s, driver.Now(), events[now], number, id, r0, trace, base, lo, hi); }
        now, trace := now + 1, trace + [driver.disk];
      }
      done := driver.requests[id].done;
    }

    /** One attempt: submit, and if accepted wait. */
    method Attempt(op: Operation, sector: Word, buffer: seq<Sector>, events: seq<Event>, at: nat,
                   ghost quiet: bool, ghost base: seq<Sector>, ghost lo: nat, ghost hi: nat)
      returns (busy: bool, r: Outcome, got: seq<Sector>, now: nat, ghost trace: seq<seq<Sector>>, ghost mine: Ticket)
      requires Valid() && at <= |events| && (op == Read || op == Write)
      requires quiet ==>
                 lo <= sector && sector + |buffer| <= hi && Undisturbed(driver.Now(), events, lo, hi) &&
                 base == Range(driver.disk, lo, hi)
      modifies this, driver
      ensures Valid() && at <= now <= |events| && Course(trace, old(driver.disk), driver.disk)
      ensures busy ==> now == at && driver.disk == old(driver.disk) && trace == [driver.disk]
      ensures busy ==> Acceptable(op, sector, |buffer|, driver.capacity)
      ensures mine.id == old(next) < next
      ensures !busy ==>
                Explained(driver.Now(), r, mine, op, sector, |buffer|, driver.capacity, events, at, now)
      ensures !busy && r == Done(true) ==> Succeeded(trace, op, sector, buffer, got, driver.capacity)
      ensures quiet && (busy || r != Waiting) ==>
                NoWriter(driver.Now(), lo, hi) && Range(driver.disk, lo, hi) ==
                    After(base, op, sector, buffer, lo, !busy && r == Done(true))
      ensures quiet && op == Read ==> NoWriter(driver.Now(), lo, hi) && Still(trace, lo, hi, base)
    {
      var id := next;
      ghost var s := driver.Now();
      next := next + 1;
      busy, got, now, trace, mine := false, buffer, at, [driver.disk], Ticket(id, 0);
      var ok := driver.Submit(id, op, sector, |buffer|, buffer);
      var r0 := driver.requests[id];
      if !ok {
        busy, r := r0.status == Busy, Done(false);
        if quiet { RefusedKeeps(s, driver.Now(), lo, hi); }
        return;
      }
      if quiet { AdmittedQuiet(s, driver.Now(), id, op, sector, buffer, base, lo, hi); }
      ghost var slot := SlotOf(driver.Now(), id);
      mine := Ticket(id, slot);
      var done;
      done, now, trace := Wait(id, events, at, slot, r0, quiet, base, lo, hi);
      var q := driver.requests[id];
      r := if done then Done(q.status == Success) else Waiting;
      got := q.data;
      Settles(driver.Now(), id, r0, trace);
      Settlement(driver.Now(), mine, r0, trace, driver.capacity, events, at, now);
      if quiet { SettlesQuiet(driver.Now(), id, r0, trace, base, lo, hi); }
    }

    /** `submit_sync_request`: a request turned away as busy is submitted again after the next event. */
    method SubmitSync(op: Operation, sector: Word, buffer: seq<Sector>, events: seq<Event>, at: nat,
                      ghost quiet: bool, ghost base: seq<Sector>, ghost lo: nat, ghost hi: nat)
      returns (r: Outcome, got: seq<Sector>, now: nat, ghost trace: seq<seq<Sector>>, ghost mine: Ticket)
      requires Valid() && at <= |events| && (op == Read || op == Write)
      requires quiet ==>
                 lo <= sector && sector + |buffer| <= hi && Undisturbed(driver.Now(), events, lo, hi) &&
                 base == Range(driver.disk, lo, hi)
      modifies this, driver
      ensures Valid() && at <= now <= |events| && Course(trace, old(driver.disk), driver.disk)
      ensures r == Done(true) ==> Succeeded(trace, op, sector, buffer, got, driver.capacity)
      ensures old(next) <= mine.id < next
      ensures Explained(driver.Now(), r, mine, op, sector, |buffer|, driver.capacity, events, at, now)
      ensures quiet && r != Waiting ==>
                NoWriter(driver.Now(), lo, hi) &&
                Range(driver.disk, lo, hi) == After(base, op, sector, buffer, lo, r == Done(true))
      ensures quiet && op == Read ==> NoWriter(driver.Now(), lo, hi) && Still(trace, lo, hi, base)
    {
      ghost var disk0 := driver.disk;
      now, trace, got := at, [driver.disk], buffer;
      while true
        invariant Valid() && at <= now <= |events| && Course(trace, disk0, driver.disk) && old(next) <= next
        invariant quiet ==>
                    NoWriter(driver.Now(), lo, hi) && Range(driver.disk, lo, hi) == base &&
                    Still(trace, lo, hi, base)
        decreases |events| - now
      {
        var busy;
        ghost var part, before, from := [], trace, now;
        busy, r, got, now, part, mine := Attempt(op, sector, buffer, events, now, quiet, base, lo, hi);
        trace := before + part;
        CourseJoins(before, part, disk0, part[0], driver.disk);
        if quiet && (busy || op == Read) { StillJoins(before, part, lo, hi, base); }
        if !busy {
          if r == Done(true) { Joined(before, part, op, sector, buffer, got, driver.capacity); }
          ExplainedEarlier(driver.Now(), r, mine, op, sector, |buffer|, driver.capacity, events, at, from, now);
          return;
        }
        if now == |events| { return Waiting, got, now, trace, mine; }
        ghost var s, number := driver.Now(), next;
        Step(events[now]);
        if quiet { IdleOnward(s, driver.Now(), events[now], number, base, lo, hi, trace); }
        CourseOn(s, driver.Now(), events[now], number, trace, disk0);
        trace := trace + [driver.disk];
        now := now + 1;
      }
    }

    /**
     `block_read_sync`.  Every sector read is one the medium held there at some moment of the call;
     if nobody else writes to these sectors meanwhile, success means the buffer holds exactly the
     sectors `sector` to `sector + count - 1`, in order, as they were and still are.  It fails only for
     one of the reasons `Ends` lists.
     */
    method ReadSync(sector: Word, buffer: array<Sector>, count: nat, events: seq<Event>)
      returns (r: Outcome, filled: nat, now: nat, ghost trace: seq<seq<Sector>>, ghost mine: Ticket)
      requires Valid() && count <= buffer.Length
      modifies this, driver, buffer
      ensures Valid() && now <= |events| && Course(trace, old(driver.disk), driver.disk)
      ensures filled <= count && buffer[filled..] == old(buffer[..])[filled..]
      ensures AllSeen(trace, sector, buffer[..filled])
      ensures r == Done(true) <==> count > 0 && filled == count
      ensures Ends(driver.Now(), r, mine, Read, sector, filled, count, maxPerRequest, driver.capacity, events, now)
      ensures r.Done? && count > 0 ==> mine.id >= old(next)
      ensures old(Undisturbed(driver.Now(), events, sector, sector + count)) ==>
                && buffer[..filled] == Range(old(driver.disk), sector, sector + filled)
                && Range(driver.disk, sector, sector + count) == Range(old(driver.disk), sector, sector + count)
    {
      ghost var lo, hi, disk0, was := sector, sector + count, driver.disk, buffer[..];
      ghost var quiet := Undisturbed(driver.Now(), events, lo, hi);
      ghost var base := if quiet then Range(disk0, lo, hi) else [];
      r, filled, now, trace, mine := Done(count > 0), 0, 0, [driver.disk], Ticket(next, 0);
      while filled < count && r == Done(true)
        invariant Valid() && now <= |events| && filled <= count && (count == 0 ==> r == Done(false))
        invariant ReadSoFar(trace, disk0, driver.disk, sector, was, buffer[..], filled)
        invariant quiet ==> QuietRead(driver.Now(), events, lo, hi, base, buffer[..], filled)
        invariant sector + filled < WORD_LIMIT && (r != Done(true) && count > 0 ==> filled < count)
        invariant old(next) <= next && mine.id >= old(next)
        invariant if r == Done(true) then Fits(sector, filled, count, maxPerRequest, driver.capacity)
                  else Ends(driver.Now(), r, mine, Read, sector, filled, count, maxPerRequest, driver.capacity, events,
                            now)
        decreases count - filled, r == Done(true)
      {
        var batch := BatchSize(maxPerRequest, count - filled);
        var upto := filled + batch;
        ghost var from, cursor := now, sector + filled;
        r, now, trace, mine := ReadBatch(sector, buffer, filled, batch, upto, events, now, cursor, quiet, base, lo, hi,
                                         was, disk0, trace);
        BatchEnds(driver.Now(), r, mine, Read, sector, filled, cursor, count, batch, upto, maxPerRequest,
                  driver.capacity, events, from, now);
        if r == Done(true) { filled := upto; }
      }
    }

    /** One batch of a read, copied to its place in the buffer. */
    method ReadBatch(sector: Word, buffer: array<Sector>, filled: nat, batch: nat, upto: nat, events: seq<Event>,
                     at: nat, ghost cursor: nat,
                     ghost quiet: bool, ghost base: seq<Sector>, ghost lo: nat, ghost hi: nat,
                     ghost was: seq<Sector>, ghost disk0: seq<Sector>, ghost before: seq<seq<Sector>>)
      returns (r: Outcome, now: nat, ghost trace: seq<seq<Sector>>, ghost mine: Ticket)
      requires Valid() && at <= |events| && upto == filled + batch <= buffer.Length && sector + filled < WORD_LIMIT
      requires cursor == sector + filled
      requires ReadSoFar(before, disk0, driver.disk, sector, was, buffer[..], filled)
      requires quiet ==>
                 lo == sector && sector + upto <= hi &&
                 QuietRead(driver.Now(), events, lo, hi, base, buffer[..], filled)
      modifies this, driver, buffer
      ensures Valid() && at <= now <= |events| && (r == Done(true) ==> sector + upto < WORD_LIMIT)
      ensures ReadSoFar(trace, disk0, driver.disk, sector, was, buffer[..], if r == Done(true) then upto else filled)
      ensures quiet ==> QuietRead(driver.Now(), events, lo, hi, base, buffer[..],
                                  if r == Done(true) then upto else filled)
      ensures old(next) <= mine.id < next
      ensures Explained(driver.Now(), r, mine, Read, cursor, batch, driver.capacity, events, at, now)
    {
      ghost var read := buffer[..filled];
      var start: Word := sector + filled;
      var got;
      r, got, now, trace, mine := Fetch(sector, read, start, buffer[filled..upto], events, at, quiet, base, lo, hi,
                                        disk0, before);
      if r == Done(true) {
        TailsAgree(was, buffer[..], filled, upto);
        Copy(buffer, filled, got);
        FilledOn(was, read, got, buffer[..], filled, batch, upto, base, quiet);
      }
    }

    /** The sectors from `cursor` on, behind those already read. */
    method Fetch(ghost sector: nat, ghost read: seq<Sector>, cursor: Word, space: seq<Sector>, events: seq<Event>,
                 at: nat, ghost quiet: bool, ghost base: seq<Sector>, ghost lo: nat, ghost hi: nat,
                 ghost disk0: seq<Sector>, ghost before: seq<seq<Sector>>)
      returns (r: Outcome, got: seq<Sector>, now: nat, ghost trace: seq<seq<Sector>>, ghost mine: Ticket)
      requires Valid() && at <= |events| && cursor == sector + |read|
      requires Course(before, disk0, driver.disk) && AllSeen(before, sector, read)
      requires quiet ==>
                 lo == sector && cursor + |space| <= hi && Undisturbed(driver.Now(), events, lo, hi) &&
                 base == Range(driver.disk, lo, hi)
      modifies this, driver
      ensures Valid() && at <= now <= |events| && old(next) <= mine.id < next
      ensures Explained(driver.Now(), r, mine, Read, cursor, |space|, driver.capacity, events, at, now)
      ensures Course(trace, disk0, driver.disk) && AllSeen(trace, sector, read)
      ensures r == Done(true) ==>
                |got| == |space| && AllSeen(trace, sector, read + got) && cursor + |space| <= driver.capacity
      ensures quiet ==> Undisturbed(driver.Now(), events, lo, hi) && Range(driver.disk, lo, hi) == base
      ensures quiet && r == Done(true) ==> got == base[|read|..|read| + |space|]
    {
      ghost var part;
      r, got, now, part, mine := SubmitSync(Read, cursor, space, events, at, quiet, base, lo, hi);
      trace := before + part;
      CourseJoins(before, part, disk0, part[0], driver.disk);
      AllSeenOn(before, part, sector, read, cursor, if r == Done(true) then got else []);
      if quiet { ReadQuiet(driver.Now(), r, part, lo, hi, base, |read|, cursor, got); }
    }

    /**
     `block_write_sync`.  Every sector written was on the medium at some moment of the call; if nobody
     else writes to these sectors meanwhile, the medium then holds exactly what was written, in order,
     and the rest of the range as before.  It fails only for one of the reasons `Ends` lists.
     */
    method WriteSync(sector: Word, data: seq<Sector>, events: seq<Event>)
      returns (r: Outcome, written: nat, now: nat, ghost trace: seq<seq<Sector>>, ghost mine: Ticket)
      requires Valid()
      modifies this, driver
      ensures Valid() && now <= |events| && Course(trace, old(driver.disk), driver.disk)
      ensures written <= |data| && AllSeen(trace, sector, data[..written])
      ensures r == Done(true) <==> |data| > 0 && written == |data|
      ensures Ends(driver.Now(), r, mine, Write, sector, written, |data|, maxPerRequest, driver.capacity, events, now)
      ensures r.Done? && |data| > 0 ==> mine.id >= old(next)
      ensures old(Undisturbed(driver.Now(), events, sector, sector + |data|)) && r != Waiting ==>
                && NoWriter(driver.Now(), sector, sector + |data|)
                && Range(driver.disk, sector, sector + |data|) ==
                     data[..written] + Range(old(driver.disk), sector + written, sector + |data|)
    {
      ghost var lo, hi, disk0 := sector, sector + |data|, driver.disk;
      ghost var quiet := Undisturbed(driver.Now(), events, lo, hi);
      ghost var base := if quiet then Range(disk0, lo, hi) else [];
      r, written, now, trace, mine := WriteAll(sector, data, events, quiet, base, lo, hi);
      if quiet { RangeTail(disk0, lo, hi, written, sector + written); }
    }

    method WriteAll(sector: Word, data: seq<Sector>, events: seq<Event>,
                    ghost quiet: bool, ghost base: seq<Sector>, ghost lo: nat, ghost hi: nat)
      returns (r: Outcome, written: nat, now: nat, ghost trace: seq<seq<Sector>>, ghost mine: Ticket)
      requires Valid()
      requires quiet ==>
                 lo == sector && sector + |data| == hi && QuietWrite(driver.Now(), events, lo, hi, base, data, 0)
      modifies this, driver
      ensures Valid() && now <= |events| && WrittenSoFar(trace, old(driver.disk), driver.disk, sector, data, written)
      ensures r == Done(true) <==> |data| > 0 && written == |data|
      ensures Ends(driver.Now(), r, mine, Write, sector, written, |data|, maxPerRequest, driver.capacity, events, now)
      ensures r.Done? && |data| > 0 ==> mine.id >= old(next)
      ensures quiet && r != Waiting ==> QuietWrite(driver.Now(), events, lo, hi, base, data, written)
    {
      ghost var disk0 := driver.disk;
      r, written, now, trace, mine := Done(|data| > 0), 0, 0, [driver.disk], Ticket(next, 0);
      while written < |data| && r == Done(true)
        invariant Valid() && now <= |events| && written <= |data| && (|data| == 0 ==> r == Done(false))
        invariant WrittenSoFar(trace, disk0, driver.disk, sector, data, written)
        invariant quiet && r != Waiting ==> QuietWrite(driver.Now(), events, lo, hi, base, data, written)
        invariant sector + written < WORD_LIMIT && (r != Done(true) && |data| > 0 ==> written < |data|)
        invariant old(next) <= next && mine.id >= old(next)
        invariant if r == Done(true) then Fits(sector, written, |data|, maxPerRequest, driver.capacity)
                  else Ends(driver.Now(), r, mine, Write, sector, written, |data|, maxPerRequest, driver.capacity,
                            events, now)
        decreases |data| - written, r == Done(true)
      {
        var batch := BatchSize(maxPerRequest, |data| - written);
        var upto := written + batch;
        ghost var from, cursor := now, sector + written;
        r, now, trace, mine := WriteBatch(sector, data, written, batch, upto, events, now, cursor, quiet, base, lo, hi,
                                          disk0, trace);
        BatchEnds(driver.Now(), r, mine, Write, sector, written, cursor, |data|, batch, upto, maxPerRequest,
                  driver.capacity, events, from, now);
        if r == Done(true) { written := upto; }
      }
    }

    /** One batch of a write. */
    method WriteBatch(sector: Word, data: seq<Sector>, written: nat, batch: nat, upto: nat, events: seq<Event>, at: nat,
                      ghost cursor: nat,
                      ghost quiet: bool, ghost base: seq<Sector>, ghost lo: nat, ghost hi: nat,
                      ghost disk0: seq<Sector>, ghost before: seq<seq<Sector>>)
      returns (r: Outcome, now: nat, ghost trace: seq<seq<Sector>>, ghost mine: Ticket)
      requires Valid() && at <= |events| && upto == written + batch <= |data| && sector + written < WORD_LIMIT
      requires cursor == sector + written
      requires WrittenSoFar(before, disk0, driver.disk, sector, data, written)
      requires quiet ==>
                 lo == sector && sector + |data| == hi &&
                 QuietWrite(driver.Now(), events, lo, hi, base, data, written)
      modifies this, driver
      ensures Valid() && at <= now <= |events| && (r == Done(true) ==> sector + upto < WORD_LIMIT)
      ensures WrittenSoFar(trace, disk0, driver.disk, sector, data, if r == Done(true) then upto else written)
      ensures quiet && r != Waiting ==> QuietWrite(driver.Now(), events, lo, hi, base, data,
                                                   if r == Done(true) then upto else written)
      ensures old(next) <= mine.id < next
      ensures Explained(driver.Now(), r, mine, Write, cursor, batch, driver.capacity, events, at, now)
    {
      ghost var part, held := [], if quiet then Range(driver.disk, lo, hi) else [];
      var start: Word := sector + written;
      var got;
      r, got, now, part, mine := SubmitSync(Write, start, data[written..upto], events, at, quiet, held, lo, hi);
      trace := before + part;
      CourseJoins(before, part, disk0, part[0], driver.disk);
      AllWrittenOn(before, part, sector, data[..written], cursor, if r == Done(true) then got else []);
      if r == Done(true) { WriteOn(data, base, written, batch, upto, cursor, lo, quiet, held); }
    }
  }

  /** What was written is what is then read, whatever else goes on elsewhere on the medium. */
  method WriteThenRead(b: BlockDevice, sector: Word, data: seq<Sector>, buffer: array<Sector>, during: seq<Event>,
                       after: seq<Event>)
    returns (ok: bool)
    requires b.Valid() && |data| <= buffer.Length && Undisturbed(b.driver.Now(), during, sector, sector + |data|)
    requires EventsApart(after, sector, sector + |data|)
    modifies b, b.driver, buffer
    ensures b.Valid() && (ok ==> buffer[..|data|] == data)
  {
    var r, written, now, trace, mine := b.WriteSync(sector, data, during);
    if r != Done(true) { return false; }
    var q, filled, later, media, own := b.ReadSync(sector, buffer, |data|, after);
    ok := q == Done(true);
  }

  /** The first `filled` sectors of the buffer were read, the rest is as it was. */
  ghost predicate ReadSoFar(trace: seq<seq<Sector>>, disk0: seq<Sector>, disk: seq<Sector>, sector: nat,
                            was: seq<Sector>, now: seq<Sector>,
                            filled: nat)
  {
    Course(trace, disk0, disk) && filled <= |now| == |was| && now[filled..] == was[filled..] &&
        AllSeen(trace, sector, now[..filled])
  }

  /** The range stays `base`, and the buffer has the first `filled` sectors of it. */
  ghost predicate QuietRead(s: State, events: seq<Event>, lo: nat, hi: nat, base: seq<Sector>, now: seq<Sector>,
                            filled: nat)
  {
    && Undisturbed(s, events, lo, hi) && Range(s.disk, lo, hi) == base && filled <= |base| && filled <= |now|
    && now[..filled] == base[..filled]
  }

  ghost predicate WrittenSoFar(trace: seq<seq<Sector>>, disk0: seq<Sector>, disk: seq<Sector>, sector: nat,
                               data: seq<Sector>, written: nat)
  {
    Course(trace, disk0, disk) && written <= |data| && AllSeen(trace, sector, data[..written])
  }

  /** The range has the first `written` sectors of the data, and is otherwise still `base`. */
  ghost predicate QuietWrite(s: State, events: seq<Event>, lo: nat, hi: nat, base: seq<Sector>, data: seq<Sector>,
                             written: nat)
  {
    && Undisturbed(s, events, lo, hi) && |base| == |data| && written <= |data|
    && Range(s.disk, lo, hi) == data[..written] + base[written..]
  }

  /** Each of these sectors was on the medium, from `sector` on, at some moment. */
  ghost predicate AllSeen(trace: seq<seq<Sector>>, sector: nat, got: seq<Sector>)
  {
    forall i: nat | i < |got| :: Seen(trace, sector + i, got[i])
  }

  lemma AllSeenOn(a: seq<seq<Sector>>, b: seq<seq<Sector>>, sector: nat, read: seq<Sector>, cursor: nat,
                  got: seq<Sector>)
    requires AllSeen(a, sector, read) && cursor == sector + |read| && (got == [] || ReadAt(b, cursor, |got|, got))
    ensures AllSeen(a + b, sector, read) && AllSeen(a + b, sector, read + got)
  {
    forall i: nat | i < |read| ensures Seen(a + b, sector + i, read[i]) { SeenLater(a, b, sector + i, read[i]); }
    forall i: nat | i < |read + got| ensures Seen(a + b, sector + i, (read + got)[i]) {
      if i >= |read| { SeenIn(a, b, cursor, got, i - |read|); }
    }
  }

  lemma AllWrittenOn(a: seq<seq<Sector>>, b: seq<seq<Sector>>, sector: nat, done: seq<Sector>, cursor: nat,
                     got: seq<Sector>)
    requires AllSeen(a, sector, done) && cursor == sector + |done| && (got == [] || WrittenAt(b, cursor, got))
    ensures AllSeen(a + b, sector, done) && AllSeen(a + b, sector, done + got)
  {
    if got != [] {
      var t: nat :| t + 1 < |b| && cursor + |got| <= |b[t]| && b[t + 1] == Written(b[t], cursor, got);
      assert got == Range(b[t + 1], cursor, cursor + |got|);
    }
    AllSeenOn(a, b, sector, done, cursor, got);
  }

  /** Read from a range that stayed the same. */
  lemma ReadQuiet(s: State, r: Outcome, part: seq<seq<Sector>>, lo: nat, hi: nat, base: seq<Sector>, filled: nat,
                  cursor: nat, got: seq<Sector>)
    requires NoWriter(s, lo, hi) && Still(part, lo, hi, base) && |part| > 0 && part[|part| - 1] == s.disk
    requires |base| == hi - lo && cursor == lo + filled
    requires r == Done(true) ==> ReadAt(part, cursor, |got|, got) && filled + |got| <= |base|
    ensures hi <= |s.disk| && Range(s.disk, lo, hi) == base && (r == Done(true) ==> got == base[filled..filled + |got|])
  {
    assert Range(part[|part| - 1], lo, hi) == base;
    if r == Done(true) {
      var t: nat :| t < |part| && cursor + |got| <= |part[t]| && got == Range(part[t], cursor, cursor + |got|);
      assert Range(part[t], lo, hi) == base;
      RangeOfRange(part[t], lo, hi, filled, |got|, cursor);
    }
  }

  lemma RangeTail(disk: seq<Sector>, lo: nat, hi: nat, k: nat, from: nat)
    requires lo + k <= hi <= |disk| && from == lo + k
    ensures Range(disk, lo, hi)[k..] == Range(disk, from, hi)
  {}

  lemma RangeOfRange(disk: seq<Sector>, lo: nat, hi: nat, filled: nat, n: nat, cursor: nat)
    requires lo + filled + n <= hi <= |disk| && cursor == lo + filled
    ensures Range(disk, lo, hi)[filled..filled + n] == Range(disk, cursor, cursor + n)
  {}

  lemma TailsAgree(was: seq<Sector>, now: seq<Sector>, filled: nat, upto: nat)
    requires filled <= upto <= |was| == |now| && now[filled..] == was[filled..]
    ensures now[upto..] == was[upto..]
  {
    assert now[filled..][upto - filled..] == now[upto..] && was[filled..][upto - filled..] == was[upto..];
  }

  lemma FilledOn(was: seq<Sector>, read: seq<Sector>, got: seq<Sector>, now: seq<Sector>, filled: nat, batch: nat,
                 upto: nat,
                 base: seq<Sector>, quiet: bool)
    requires |read| == filled && |got| == batch && upto == filled + batch <= |was| == |now|
    requires now == read + got + was[upto..]
    requires quiet ==> upto <= |base| && read == base[..filled] && got == base[filled..upto]
    ensures now[upto..] == was[upto..] && now[..upto] == read + got && (quiet ==> now[..upto] == base[..upto])
  {}

  /** The medium's range after one more batch. */
  lemma WriteOn(data: seq<Sector>, base: seq<Sector>, written: nat, batch: nat, upto: nat, cursor: nat, lo: nat,
                quiet: bool, held: seq<Sector>)
    requires upto == written + batch <= |data|
    requires quiet ==> cursor == lo + written && |base| == |data| && held == data[..written] + base[written..]
    ensures data[..upto] == data[..written] + data[written..upto]
    ensures quiet ==> Written(held, cursor - lo, data[written..upto]) == data[..upto] + base[upto..]
  {}

  method Copy(buffer: array<Sector>, at: nat, got: seq<Sector>)
    requires at + |got| <= buffer.Length
    modifies buffer
    ensures buffer[..] == old(buffer[..])[..at] + got + old(buffer[..])[at + |got|..]
  {
    ghost var now := buffer[..];
    var i := 0;
    while i < |got|
      invariant i <= |got| && buffer[..] == now[..at] + got[..i] + now[at + i..]
    {
      buffer[at + i] := got[i];
      i := i + 1;
    }
  }

  /** A request that succeeded: a read has what the medium held at one moment of the call, a write reached it at one. */
  ghost predicate Succeeded(trace: seq<seq<Sector>>, op: Operation, sector: nat, buffer: seq<Sector>,
                            got: seq<Sector>, capacity: nat)
  {
    && Acceptable(op, sector, |buffer|, capacity) && |got| == |buffer|
    && (op == Read ==> ReadAt(trace, sector, |buffer|, got))
    && (op == Write ==> WrittenAt(trace, sector, buffer) && got == buffer)
  }

  /** The range after a request. */
  ghost function After(base: seq<Sector>, op: Operation, sector: nat, buffer: seq<Sector>, lo: nat,
                       ok: bool): seq<Sector>
  {
    if ok && op == Write && lo <= sector &&
        sector + |buffer| <= lo + |base| then Written(base, sector - lo, buffer) else base
  }

  lemma RefusedKeeps(s: State, s': State, lo: nat, hi: nat)
    requires NoWriter(s, lo, hi) && s'.slots == s.slots
    ensures NoWriter(s', lo, hi)
  {}

  lemma AdmittedQuiet(s: State, s': State, id: nat, op: Operation, sector: nat, buffer: seq<Sector>,
                      base: seq<Sector>, lo: nat, hi: nat)
    requires NoWriter(s, lo, hi) && Admitted(s, s', id, op, sector, |buffer|) && s'.disk == s.disk && id in s'.requests
    requires s'.requests[id] == Request(op, sector, |buffer|, buffer, Pending, false, 0, None)
    requires lo <= sector && sector + |buffer| <= hi <= |s.disk| && base == Range(s.disk, lo, hi)
    ensures Quiet(s', id, s'.requests[id], base, lo, hi, [s'.disk])
  {}

  /** What the caller finds once its request is done. */
  lemma Settles(s: State, id: nat, r0: Request, trace: seq<seq<Sector>>)
    requires Inv(s) && id in s.requests && IsNew(r0) && Tracked(r0, s.requests[id], trace)
    ensures var r := s.requests[id]; r.done && r.status == Success ==>
              && (r0.op == Read ==> ReadAt(trace, r0.sector, r0.count, r.data) && |r.data| == r0.count)
              && (r0.op == Write ==> WrittenAt(trace, r0.sector, r0.data) && r.data == r0.data)
  {}

  lemma SlotOf(s: State, id: nat) returns (i: nat)
    requires InFlight(s, id)
    ensures HasSlot(s, id, i)
  {
    i :| i < |s.slots| && s.slots[i].active && s.slots[i].request == id;
  }

  /** Why the caller finds it so. */
  lemma Settlement(s: State, mine: Ticket, r0: Request, trace: seq<seq<Sector>>, capacity: nat, events: seq<Event>,
                 at: nat, now: nat)
    requires IsNew(r0) && Acceptable(r0.op, r0.sector, r0.count, capacity)
    requires Attended(s, mine.id, mine.slot, events, at, now) && Tracked(r0, s.requests[mine.id], trace)
    requires !s.requests[mine.id].done ==> now == |events|
    ensures var q := s.requests[mine.id];
            Explained(s, if q.done then Done(q.status == Success) else Waiting, mine, r0.op, r0.sector, r0.count,
                      capacity, events, at, now)
  {}

  lemma SettlesQuiet(s: State, id: nat, r0: Request, trace: seq<seq<Sector>>, base: seq<Sector>, lo: nat, hi: nat)
    requires Inv(s) && IsNew(r0) && Quiet(s, id, r0, base, lo, hi, trace) && Tracked(r0, s.requests[id], trace)
    ensures var r := s.requests[id];
            && (r.done || r0.op == Read ==> NoWriter(s, lo, hi))
            && (r.done ==> Range(s.disk, lo, hi) == After(base, r0.op, r0.sector, r0.data, lo, r.status == Success))
  {
    assert Settled(s, id);
    forall i: nat | i < |s.slots| && s.slots[i].active && s.slots[i].op == Write &&
        (s.requests[id].done || r0.op == Read)
      ensures Clear(s.slots[i].sector, s.slots[i].count, lo, hi)
    {
      assert OwnRequest(s, i);
    }
  }

  lemma SameSize(s: State, s': State, e: Event, id: nat)
    requires Inv(s) && Follows(s, s', e, id)
    ensures |s'.disk| == |s.disk|
  {
    if e.Finish? && s' != s { assert StageOk(s, e.slot) && OwnRequest(s, e.slot); }
  }

  lemma CourseOn(s: State, s': State, e: Event, id: nat, trace: seq<seq<Sector>>, disk0: seq<Sector>)
    requires Inv(s) && Follows(s, s', e, id) && Course(trace, disk0, s.disk)
    ensures Course(trace + [s'.disk], disk0, s'.disk)
  {
    SameSize(s, s', e, id);
  }

  lemma IdleOnward(s: State, s': State, e: Event, id: nat, base: seq<Sector>, lo: nat, hi: nat, trace: seq<seq<Sector>>)
    requires Inv(s) && Follows(s, s', e, id) && NoWriter(s, lo, hi) && EventApart(e, lo, hi)
    requires lo <= hi <= |s.disk| && Range(s.disk, lo, hi) == base && Still(trace, lo, hi, base)
    ensures NoWriter(s', lo, hi) && hi <= |s'.disk| && Range(s'.disk, lo, hi) == base
    ensures Still(trace + [s'.disk], lo, hi, base)
  {
    StepApart(s, s', e, id, lo, hi, -1);
    StepKeepsRange(s, s', e, id, lo, hi, -1);
  }

  lemma Joined(a: seq<seq<Sector>>, b: seq<seq<Sector>>, op: Operation, sector: nat, buffer: seq<Sector>,
               got: seq<Sector>, capacity: nat)
    requires Succeeded(b, op, sector, buffer, got, capacity)
    ensures Succeeded(a + b, op, sector, buffer, got, capacity)
  {
    if op == Read {
      var t: nat :| t < |b| && sector + |buffer| <= |b[t]| && got == Range(b[t], sector, sector + |buffer|);
      assert (a + b)[|a| + t] == b[t];
    } else {
      var t: nat :| t + 1 < |b| && sector + |buffer| <= |b[t]| && b[t + 1] == Written(b[t], sector, buffer);
      assert (a + b)[|a| + t] == b[t] && (a + b)[|a| + t + 1] == b[t + 1];
    }
  }

  lemma StillJoins(a: seq<seq<Sector>>, b: seq<seq<Sector>>, lo: nat, hi: nat, base: seq<Sector>)
    requires Still(a, lo, hi, base) && Still(b, lo, hi, base)
    ensures Still(a + b, lo, hi, base)
  {}
}

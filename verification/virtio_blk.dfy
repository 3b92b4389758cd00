/**
 The virtio block driver's request slots against a device that may finish requests in any order.
 Each slot owns three descriptors; requests travel through the available ring to the device and back
 through the used ring, whose 16-bit positions wrap.
 */
module VirtioBlk {
  import opened Word64
  import opened Entries

  /** Contents of one sector. */
  type Sector = seq<nat>

  datatype Operation = Read | Write | Flush

  datatype Status = Pending | Success | DeviceError | Invalid | Busy

  /** What the device did for a request. */
  datatype Answer = None | Failed | Transferred(sectors: seq<Sector>)

  /** A block request; `completions` and `answer` are the books kept on it. */
  datatype Request = Request(op: Operation, sector: nat, count: nat, data: seq<Sector>,
                             status: Status, done: bool, completions: nat, answer: Answer)

  /** A request slot with the DMA buffer behind its descriptors. */
  datatype Slot = Slot(active: bool, request: nat, op: Operation, sector: nat, count: nat, data: seq<Sector>,
                       status: nat)

  /** The part of a slot's buffer a descriptor points to. */
  datatype Part = Nothing | Header(slot: nat) | Data(slot: nat) | StatusByte(slot: nat)

  datatype Descriptor = Descriptor(part: Part, deviceWrites: bool, hasNext: bool, next: nat)

  /** Where an active slot's request is: on the available ring, at the device, or on the used ring. */
  datatype Stage = Idle | Queued(n: nat) | AtDevice | Returned(n: nat)

  const MAX_QUEUE_SIZE: nat := 8
  const MAX_SECTORS: nat := 8
  const INDEX_LIMIT: nat := 0x1_0000

  /** The 16-bit ring index of running number `n`. */
  function Index(n: nat): nat
  {
    n % INDEX_LIMIT
  }

  /** A 16-bit index incremented. */
  function Bump(index: nat): nat
  {
    (index + 1) % INDEX_LIMIT
  }

  function Position(index: nat, size: nat): (r: nat)
    requires size > 0
    ensures r < size
  {
    index % size
  }

  /** Ring slot of the entry with running number `n`, through its 16-bit index. */
  function Ring(n: nat, size: nat): (r: nat)
    requires size > 0
  {
    Position(Index(n), size)
  }

  /** A 16-bit index follows its running number across the wrap. */
  lemma IndexStep(n: nat)
    ensures Bump(Index(n)) == Index(n + 1)
  {}

  /** Consecutive entries never share a ring slot when two requests can be under way, wrap-around included. */
  lemma RingStep(n: nat, size: nat)
    requires 6 <= size <= MAX_QUEUE_SIZE
    ensures Ring(n, size) != Ring(n + 1, size)
  {
    var i := n % INDEX_LIMIT;
    if i + 1 < INDEX_LIMIT {
      assert (n + 1) % INDEX_LIMIT == i + 1;
      if size == 6 {
        assert i % 6 != (i + 1) % 6;
      } else if size == 7 {
        assert i % 7 != (i + 1) % 7;
      } else {
        assert i % 8 != (i + 1) % 8;
      }
    } else {
      assert (n + 1) % INDEX_LIMIT == 0 && i == 65535;
    }
  }

  // ----- the descriptor mask

  /** `virtio_blk_descriptor_mask` of slot `i`: the bits of its three descriptors. */
  function SlotMask(i: nat): Word
    requires i < 2
  {
    if i == 0 then 7 else 56
  }

  lemma SlotMaskBit(i: nat, b: nat)
    requires i < 2 && b < 64
    ensures Bit(SlotMask(i), b) <==> 3 * i <= b < 3 * i + 3
  {
    assert Pow2(3) == 8 && Pow2(0) == 1;
    FieldBit(3 * i, 3 * i + 3, b);
  }

  /** The mask names exactly the descriptors of active slots. */
  ghost predicate MaskIs(mask: Word, slots: seq<Slot>)
  {
    forall b: nat | b < 64 :: Bit(mask, b) <==> b / 3 < |slots| && slots[b / 3].active
  }

  lemma MaskTaken(mask: Word, slots: seq<Slot>, i: nat, s: Slot)
    requires |slots| <= 2 && i < |slots| && MaskIs(mask, slots) && s.active
    ensures MaskIs(BitOr(mask, SlotMask(i)), slots[i := s])
  {
    forall b: nat | b < 64
      ensures Bit(BitOr(mask, SlotMask(i)), b) <==> b / 3 < |slots| && slots[i := s][b / 3].active
    {
      OrBit(mask, SlotMask(i), b);
      SlotMaskBit(i, b);
    }
  }

  lemma MaskSame(mask: Word, slots: seq<Slot>, i: nat, s: Slot)
    requires i < |slots| && MaskIs(mask, slots) && s.active == slots[i].active
    ensures MaskIs(mask, slots[i := s])
  {}

  lemma MaskReleased(mask: Word, slots: seq<Slot>, i: nat, s: Slot)
    requires |slots| <= 2 && i < |slots| && MaskIs(mask, slots) && !s.active
    ensures MaskIs(BitAnd(mask, Not(SlotMask(i))), slots[i := s])
  {
    forall b: nat | b < 64
      ensures Bit(BitAnd(mask, Not(SlotMask(i))), b) <==> b / 3 < |slots| && slots[i := s][b / 3].active
    {
      AndBit(mask, Not(SlotMask(i)), b);
      NotBit(SlotMask(i), b);
      SlotMaskBit(i, b);
    }
  }

  /** The test of `virtio_blk_acquire_request_slot` agrees with the slot's own flag. */
  lemma MaskTest(mask: Word, slots: seq<Slot>, i: nat)
    requires |slots| <= 2 && i < |slots| && MaskIs(mask, slots)
    ensures BitAnd(mask, SlotMask(i)) != 0 <==> slots[i].active
  {
    if slots[i].active {
      AndBit(mask, SlotMask(i), 3 * i);
      SlotMaskBit(i, 3 * i);
      ZeroBit(3 * i);
    } else {
      forall b: nat | b < 64 ensures Bit(BitAnd(mask, SlotMask(i)), b) == Bit(0, b) {
        AndBit(mask, SlotMask(i), b);
        SlotMaskBit(i, b);
        ZeroBit(b);
      }
      WordsEqual(BitAnd(mask, SlotMask(i)), 0);
    }
  }

  // ----- descriptors

  /** The chain from slot `i`'s head: header, data, status, in the slot's own buffer. */
  predicate ChainOk(desc: seq<Descriptor>, i: nat, op: Operation)
  {
    && 3 * i + 2 < |desc|
    && desc[3 * i] == Descriptor(Header(i), false, true, 3 * i + 1)
    && desc[3 * i + 1] == Descriptor(Data(i), op == Read, true, 3 * i + 2)
    && desc[3 * i + 2] == Descriptor(StatusByte(i), true, false, 0)
  }

  function SetChain(desc: seq<Descriptor>, i: nat, op: Operation): (d: seq<Descriptor>)
    requires 3 * i + 2 < |desc|
    ensures |d| == |desc| && ChainOk(d, i, op)
    ensures forall j: nat, o: Operation | j != i && ChainOk(desc, j, o) :: ChainOk(d, j, o)
  {
    desc[3 * i := Descriptor(Header(i), false, true, 3 * i + 1)]
        [3 * i + 1 := Descriptor(Data(i), op == Read, true, 3 * i + 2)]
        [3 * i + 2 := Descriptor(StatusByte(i), true, false, 0)]
  }

  // ----- the whole state

  /**
   Rings, slots and requests, with the running numbers behind the 16-bit indices: `submitted` and
   `taken` entries of the available ring, `returned` and `consumed` entries of the used ring.
   */
  datatype State = State(size: nat, slots: seq<Slot>, mask: Word, desc: seq<Descriptor>,
                         avail: seq<nat>, availIdx: nat, used: seq<nat>, usedIdx: nat, lastUsed: nat, devIdx: nat,
                         disk: seq<Sector>, requests: map<nat, Request>,
                         stages: seq<Stage>, submitted: nat, taken: nat, returned: nat, consumed: nat)

  ghost predicate ShapeOk(s: State)
  {
    && 0 < s.size <= MAX_QUEUE_SIZE && |s.slots| == s.size / 3 && |s.stages| == |s.slots|
    && |s.avail| == |s.used| == |s.desc| == s.size
    && s.availIdx == Index(s.submitted) && s.devIdx == Index(s.taken)
    && s.usedIdx == Index(s.returned) && s.lastUsed == Index(s.consumed)
    && s.taken <= s.submitted && s.consumed <= s.returned
    && MaskIs(s.mask, s.slots)
  }

  /** Slot `i` stands where its stage says. */
  ghost predicate StageOk(s: State, i: nat)
    requires ShapeOk(s) && i < |s.slots|
  {
    && (s.slots[i].active <==> s.stages[i] != Idle)
    && (s.slots[i].active ==> ChainOk(s.desc, i, s.slots[i].op))
    && match s.stages[i]
       case Idle => true
       case AtDevice => true
       case Queued(n) => s.taken <= n < s.submitted && s.avail[Ring(n, s.size)] == 3 * i
       case Returned(n) => s.consumed <= n < s.returned && s.used[Ring(n, s.size)] == 3 * i
  }

  /** Every entry under way on the available ring is the head of the slot that waits for it. */
  ghost predicate QueuedOk(s: State, n: nat)
    requires ShapeOk(s)
  {
    exists i: nat :: i < |s.slots| && s.stages[i] == Queued(n) && s.avail[Ring(n, s.size)] == 3 * i
  }

  ghost predicate ReturnedOk(s: State, n: nat)
    requires ShapeOk(s)
  {
    exists i: nat :: i < |s.slots| && s.stages[i] == Returned(n) && s.used[Ring(n, s.size)] == 3 * i
  }

  /** An active slot works for a pending request of its own, and holds the device's answer once it is returned. */
  ghost predicate OwnRequest(s: State, i: nat)
    requires ShapeOk(s) && i < |s.slots|
  {
    s.slots[i].active ==>
      var slot := s.slots[i];
      && slot.request in s.requests && slot.sector + slot.count <= |s.disk| && |slot.data| == slot.count
      && var r := s.requests[slot.request];
         && r.op == slot.op && r.sector == slot.sector && r.count == slot.count
         && r.status == Pending && !r.done && r.completions == 0 && (slot.op == Write ==> slot.data == r.data)
         && (s.stages[i].Returned? <==> r.answer != None)
         && (s.stages[i].Returned? ==> (slot.status == 0 <==> r.answer.Transferred?))
         && (s.stages[i].Returned? && r.answer.Transferred? ==> slot.data == r.answer.sectors)
  }

  ghost predicate InFlight(s: State, id: nat)
  {
    exists i: nat :: i < |s.slots| && s.slots[i].active && s.slots[i].request == id
  }

  ghost predicate Inv(s: State)
  {
    && ShapeOk(s)
    && (forall i: nat {:trigger StageOk(s, i)} | i < |s.slots| :: StageOk(s, i))
    && (forall i: nat {:trigger OwnRequest(s, i)} | i < |s.slots| :: OwnRequest(s, i))
    && (forall n: nat {:trigger QueuedOk(s, n)} | s.taken <= n < s.submitted :: QueuedOk(s, n))
    && (forall n: nat {:trigger ReturnedOk(s, n)} | s.consumed <= n < s.returned :: ReturnedOk(s, n))
    && (forall i: nat, j: nat | i < j < |s.slots| && s.slots[i].active && s.slots[j].active ::
        s.slots[i].request != s.slots[j].request)
    && (forall id | id in s.requests :: Settled(s, id))
  }

  /** A request is either under way in a slot or has been completed exactly once. */
  ghost predicate Settled(s: State, id: nat)
    requires id in s.requests
  {
    if s.requests[id].done then s.requests[id].completions == 1 && !InFlight(s, id) else InFlight(s, id)
  }

  // ----- submitting

  ghost function Submitted(s: State, i: nat, id: nat, op: Operation, sector: nat, count: nat, payload: seq<Sector>,
                           data: seq<Sector>): State
    requires ShapeOk(s) && i < |s.slots|
  {
    s.(slots := s.slots[i := Slot(true, id, op, sector, count, payload, 0xFF)], mask := BitOr(s.mask, SlotMask(i)),
       desc := SetChain(s.desc, i, op), avail := s.avail[Ring(s.submitted, s.size) := 3 * i],
       availIdx := Bump(s.availIdx), stages := s.stages[i := Queued(s.submitted)], submitted := s.submitted + 1,
       requests := s.requests[id := Request(op, sector, count, data, Pending, false, 0, None)])
  }

  /** With slot `i` free, at most the entry just before the next one is still on the available ring. */
  lemma OneQueued(s: State, i: nat, n: nat)
    requires Inv(s) && i < |s.slots| && s.stages[i] == Idle && s.taken <= n < s.submitted
    ensures n + 1 == s.submitted && s.size >= 6
  {
    assert QueuedOk(s, n) && QueuedOk(s, s.submitted - 1);
  }

  lemma SubmitShape(s: State, i: nat, id: nat, op: Operation, sector: nat, count: nat, payload: seq<Sector>,
                    data: seq<Sector>)
    requires Inv(s) && i < |s.slots| && !s.slots[i].active && id !in s.requests
    ensures ShapeOk(Submitted(s, i, id, op, sector, count, payload, data))
  {
    IndexStep(s.submitted);
    MaskTaken(s.mask, s.slots, i, Slot(true, id, op, sector, count, payload, 0xFF));
  }

  lemma SubmitStages(s: State, s': State, i: nat, id: nat, op: Operation, sector: nat, count: nat,
                     payload: seq<Sector>, data: seq<Sector>)
    requires Inv(s) && i < |s.slots| && !s.slots[i].active && id !in s.requests
    requires s' == Submitted(s, i, id, op, sector, count, payload, data) && ShapeOk(s')
    ensures forall j: nat | j < |s'.slots| :: StageOk(s', j)
    ensures forall n: nat | s'.taken <= n < s'.submitted :: QueuedOk(s', n)
    ensures forall n: nat | s'.consumed <= n < s'.returned :: ReturnedOk(s', n)
  {
    assert StageOk(s, i);
    forall n: nat | s.taken <= n < s.submitted ensures Ring(n, s.size) != Ring(s.submitted, s.size) {
      OneQueued(s, i, n);
      RingStep(n, s.size);
    }
    forall j: nat | j < |s'.slots| ensures StageOk(s', j) { if j != i { assert StageOk(s, j); } }
    forall n: nat | s'.taken <= n < s'.submitted ensures QueuedOk(s', n) {
      if n < s.submitted {
        assert QueuedOk(s, n);
        var j: nat :| j < |s.slots| && s.stages[j] == Queued(n) && s.avail[Ring(n, s.size)] == 3 * j;
        assert s'.stages[j] == Queued(n);
      } else {
        assert s'.stages[i] == Queued(n);
      }
    }
    forall n: nat | s'.consumed <= n < s'.returned ensures ReturnedOk(s', n) {
      assert ReturnedOk(s, n);
      var j: nat :| j < |s.slots| && s.stages[j] == Returned(n) && s.used[Ring(n, s.size)] == 3 * j;
      assert s'.stages[j] == Returned(n);
    }
  }

  lemma SubmitKeeps(s: State, i: nat, id: nat, op: Operation, sector: nat, count: nat, payload: seq<Sector>,
                    data: seq<Sector>)
    requires Inv(s) && i < |s.slots| && !s.slots[i].active && id !in s.requests
    requires sector + count <= |s.disk| && |payload| == count && (op == Write ==> payload == data)
    ensures Inv(Submitted(s, i, id, op, sector, count, payload, data))
    ensures InFlight(Submitted(s, i, id, op, sector, count, payload, data), id)
  {
    var s' := Submitted(s, i, id, op, sector, count, payload, data);
    SubmitShape(s, i, id, op, sector, count, payload, data);
    SubmitStages(s, s', i, id, op, sector, count, payload, data);
    forall j: nat | j < |s'.slots| ensures OwnRequest(s', j) { if j != i { assert OwnRequest(s, j); } }
    forall j: nat | j < |s.slots| && j != i && s.slots[j].active
      ensures s.slots[j].request != id
    {
      assert OwnRequest(s, j);
    }
    assert s'.slots[i].active && s'.slots[i].request == id;
    forall x | x in s'.requests ensures Settled(s', x) {
      if x != id {
        assert Settled(s, x);
        FlightElsewhere(s, s', i, x);
      }
    }
  }

  /** A change of slot `i` that neither had nor gets request `x` leaves it where it was. */
  lemma FlightElsewhere(s: State, s': State, i: nat, x: nat)
    requires i < |s.slots| && |s'.slots| == |s.slots| && s'.slots == s.slots[i := s'.slots[i]]
    requires !(s.slots[i].active && s.slots[i].request == x) && !(s'.slots[i].active && s'.slots[i].request == x)
    ensures InFlight(s', x) <==> InFlight(s, x)
  {
    if InFlight(s, x) {
      var j: nat :| j < |s.slots| && s.slots[j].active && s.slots[j].request == x;
      assert s'.slots[j] == s.slots[j];
    }
    if InFlight(s', x) {
      var j: nat :| j < |s'.slots| && s'.slots[j].active && s'.slots[j].request == x;
      assert s'.slots[j] == s.slots[j];
    }
  }

  // ----- the device

  ghost function DeviceTook(s: State, i: nat): State
    requires ShapeOk(s) && i < |s.slots|
  {
    s.(stages := s.stages[i := AtDevice], taken := s.taken + 1, devIdx := Bump(s.devIdx))
  }

  /** The device takes the next entry of the available ring: the head of the slot that waits for it. */
  lemma TakeKeeps(s: State) returns (i: nat)
    requires Inv(s) && s.taken < s.submitted
    ensures i < |s.slots| && s.avail[Ring(s.taken, s.size)] == 3 * i && s.stages[i] == Queued(s.taken)
    ensures Inv(DeviceTook(s, i))
  {
    assert QueuedOk(s, s.taken);
    i :| i < |s.slots| && s.stages[i] == Queued(s.taken) && s.avail[Ring(s.taken, s.size)] == 3 * i;
    var s' := DeviceTook(s, i);
    IndexStep(s.taken);
    forall j: nat | j < |s'.slots| ensures StageOk(s', j) && OwnRequest(s', j) {
      assert StageOk(s, j) && OwnRequest(s, j);
    }
    forall n: nat | s'.taken <= n < s'.submitted ensures QueuedOk(s', n) {
      assert QueuedOk(s, n);
      var j: nat :| j < |s.slots| && s.stages[j] == Queued(n) && s.avail[Ring(n, s.size)] == 3 * j;
      assert s'.stages[j] == Queued(n);
    }
    forall n: nat | s'.consumed <= n < s'.returned ensures ReturnedOk(s', n) {
      assert ReturnedOk(s, n);
      var j: nat :| j < |s.slots| && s.stages[j] == Returned(n) && s.used[Ring(n, s.size)] == 3 * j;
      assert s'.stages[j] == Returned(n);
    }
    forall x | x in s'.requests ensures Settled(s', x) {
      assert Settled(s, x);
      SameFlight(s, s', x);
    }
  }

  lemma SameFlight(s: State, s': State, x: nat)
    requires s'.slots == s.slots
    ensures InFlight(s', x) <==> InFlight(s, x)
  {}

  /** What the device does to the disk and the slot's data; `junk` is what a failed read may leave there. */
  function DiskAfter(disk: seq<Sector>, slot: Slot, ok: bool): (d: seq<Sector>)
    ensures |slot.data| == slot.count ==> |d| == |disk|
  {
    if ok && slot.op == Write && slot.sector + slot.count <= |disk| then disk[..slot.sector] + slot.data +
        disk[slot.sector + slot.count..] else disk
  }

  function DataAfter(disk: seq<Sector>, slot: Slot, ok: bool, junk: seq<Sector>): seq<Sector>
  {
    if slot.op != Read then slot.data else if ok &&
        slot.sector + slot.count <= |disk| then disk[slot.sector..slot.sector + slot.count] else junk
  }

  ghost function DeviceDone(s: State, i: nat, ok: bool, junk: seq<Sector>): State
    requires Inv(s) && i < |s.slots| && s.stages[i] == AtDevice && |junk| == s.slots[i].count
  {
    assert StageOk(s, i) && OwnRequest(s, i);
    var slot := s.slots[i];
    var data := DataAfter(s.disk, slot, ok, junk);
    var r := s.requests[slot.request];
    s.(disk := DiskAfter(s.disk, slot, ok), slots := s.slots[i := slot.(data := data, status := if ok then 0 else 1)],
       used := s.used[Ring(s.returned, s.size) := 3 * i], usedIdx := Bump(s.usedIdx),
       stages := s.stages[i := Returned(s.returned)], returned := s.returned + 1,
       requests := s.requests[slot.request := r.(answer := if ok then Transferred(data) else Failed)])
  }

  /** With slot `i` still at the device, at most the entry just before the next one is on the used ring. */
  lemma OneReturned(s: State, i: nat, n: nat)
    requires Inv(s) && i < |s.slots| && !s.stages[i].Returned? && s.consumed <= n < s.returned
    ensures n + 1 == s.returned && s.size >= 6
  {
    assert ReturnedOk(s, n) && ReturnedOk(s, s.returned - 1);
  }

  lemma DoneShape(s: State, i: nat, ok: bool, junk: seq<Sector>)
    requires Inv(s) && i < |s.slots| && s.stages[i] == AtDevice && |junk| == s.slots[i].count
    ensures ShapeOk(DeviceDone(s, i, ok, junk))
  {
    IndexStep(s.returned);
    assert StageOk(s, i) && OwnRequest(s, i);
    MaskSame(s.mask, s.slots, i, DeviceDone(s, i, ok, junk).slots[i]);
  }

  lemma DoneStages(s: State, s': State, i: nat, ok: bool, junk: seq<Sector>)
    requires Inv(s) && i < |s.slots| && s.stages[i] == AtDevice && |junk| == s.slots[i].count
    requires s' == DeviceDone(s, i, ok, junk) && ShapeOk(s')
    ensures forall j: nat | j < |s'.slots| :: StageOk(s', j)
    ensures forall n: nat | s'.taken <= n < s'.submitted :: QueuedOk(s', n)
    ensures forall n: nat | s'.consumed <= n < s'.returned :: ReturnedOk(s', n)
  {
    forall n: nat | s.consumed <= n < s.returned ensures Ring(n, s.size) != Ring(s.returned, s.size) {
      OneReturned(s, i, n);
      RingStep(n, s.size);
    }
    forall j: nat | j < |s'.slots| ensures StageOk(s', j) { assert StageOk(s, j); }
    forall n: nat | s'.taken <= n < s'.submitted ensures QueuedOk(s', n) {
      assert QueuedOk(s, n);
      var j: nat :| j < |s.slots| && s.stages[j] == Queued(n) && s.avail[Ring(n, s.size)] == 3 * j;
      assert s'.stages[j] == Queued(n);
    }
    forall n: nat | s'.consumed <= n < s'.returned ensures ReturnedOk(s', n) {
      if n < s.returned {
        assert ReturnedOk(s, n);
        var j: nat :| j < |s.slots| && s.stages[j] == Returned(n) && s.used[Ring(n, s.size)] == 3 * j;
        assert s'.stages[j] == Returned(n);
      } else {
        assert s'.stages[i] == Returned(n);
      }
    }
  }

  lemma DoneKeeps(s: State, i: nat, ok: bool, junk: seq<Sector>)
    requires Inv(s) && i < |s.slots| && s.stages[i] == AtDevice && |junk| == s.slots[i].count
    ensures Inv(DeviceDone(s, i, ok, junk))
  {
    var s' := DeviceDone(s, i, ok, junk);
    DoneShape(s, i, ok, junk);
    DoneStages(s, s', i, ok, junk);
    assert StageOk(s, i) && OwnRequest(s, i);
    forall j: nat | j < |s'.slots| ensures OwnRequest(s', j) {
      assert OwnRequest(s, j) && StageOk(s, j);
      if j != i && s.slots[j].active {
        assert s.slots[j].request != s.slots[i].request by { assert s.slots[i].active; }
      }
    }
    forall x | x in s'.requests ensures Settled(s', x) {
      assert Settled(s, x);
      KeptFlight(s, s', i, x);
    }
  }

  /** Slot `i` keeps its request and stays active. */
  lemma KeptFlight(s: State, s': State, i: nat, x: nat)
    requires i < |s.slots| && |s'.slots| == |s.slots| && s'.slots == s.slots[i := s'.slots[i]]
    requires s'.slots[i].active == s.slots[i].active && s'.slots[i].request == s.slots[i].request
    ensures InFlight(s', x) <==> InFlight(s, x)
  {
    if InFlight(s, x) {
      var j: nat :| j < |s.slots| && s.slots[j].active && s.slots[j].request == x;
      assert s'.slots[j].active && s'.slots[j].request == x;
    }
    if InFlight(s', x) {
      var j: nat :| j < |s'.slots| && s'.slots[j].active && s'.slots[j].request == x;
      assert s.slots[j].active && s.slots[j].request == x;
    }
  }

  // ----- draining the used ring

  /** What a returned request becomes. */
  function Completed(r: Request): Request
  {
    var ok := r.answer.Transferred?;
    r.(status := if ok then Success else DeviceError, done := true, completions := r.completions + 1,
       data := if ok && r.op == Read then r.answer.sectors else r.data)
  }

  ghost function Consumed(s: State, i: nat): State
    requires ShapeOk(s) && i < |s.slots| && s.slots[i].request in s.requests
  {
    var id := s.slots[i].request;
    s.(slots := s.slots[i := s.slots[i].(active := false)], mask := BitAnd(s.mask, Not(SlotMask(i))),
       stages := s.stages[i := Idle], consumed := s.consumed + 1, lastUsed := Bump(s.lastUsed),
       requests := s.requests[id := Completed(s.requests[id])])
  }

  lemma ConsumeShape(s: State, i: nat)
    requires Inv(s) && s.consumed < s.returned && i < |s.slots| && s.slots[i].request in s.requests
    ensures ShapeOk(Consumed(s, i))
  {
    IndexStep(s.consumed);
    MaskReleased(s.mask, s.slots, i, s.slots[i].(active := false));
  }

  lemma ConsumeStages(s: State, s': State, i: nat)
    requires Inv(s) && s.consumed < s.returned && i < |s.slots| && s.stages[i] == Returned(s.consumed)
    requires s.slots[i].request in s.requests && s' == Consumed(s, i) && ShapeOk(s')
    ensures forall j: nat | j < |s'.slots| :: StageOk(s', j)
    ensures forall n: nat | s'.taken <= n < s'.submitted :: QueuedOk(s', n)
    ensures forall n: nat | s'.consumed <= n < s'.returned :: ReturnedOk(s', n)
  {
    assert StageOk(s, i);
    forall j: nat | j < |s'.slots| ensures StageOk(s', j) { assert StageOk(s, j); }
    forall n: nat | s'.taken <= n < s'.submitted ensures QueuedOk(s', n) {
      assert QueuedOk(s, n);
      var j: nat :| j < |s.slots| && s.stages[j] == Queued(n) && s.avail[Ring(n, s.size)] == 3 * j;
      assert s'.stages[j] == Queued(n);
    }
    forall n: nat | s'.consumed <= n < s'.returned ensures ReturnedOk(s', n) {
      assert ReturnedOk(s, n);
      var j: nat :| j < |s.slots| && s.stages[j] == Returned(n) && s.used[Ring(n, s.size)] == 3 * j;
      assert s'.stages[j] == Returned(n);
    }
  }

  /** The next used entry names the slot of a request that the device has answered. */
  lemma NextUsed(s: State) returns (i: nat)
    requires Inv(s) && s.consumed < s.returned
    ensures i < |s.slots| && s.used[Ring(s.consumed, s.size)] == 3 * i && s.stages[i] == Returned(s.consumed)
    ensures s.slots[i].active && s.slots[i].request in s.requests
  {
    assert ReturnedOk(s, s.consumed);
    i :| i < |s.slots| && s.stages[i] == Returned(s.consumed) && s.used[Ring(s.consumed, s.size)] == 3 * i;
    assert StageOk(s, i) && OwnRequest(s, i);
  }

  lemma ConsumeKeeps(s: State, i: nat)
    requires Inv(s) && s.consumed < s.returned && i < |s.slots| && s.stages[i] == Returned(s.consumed)
    requires s.slots[i].active && s.slots[i].request in s.requests
    ensures Inv(Consumed(s, i))
  {
    var s', id := Consumed(s, i), s.slots[i].request;
    ConsumeShape(s, i);
    ConsumeStages(s, s', i);
    assert OwnRequest(s, i);
    forall j: nat | j < |s'.slots| ensures OwnRequest(s', j) { assert OwnRequest(s, j); }
    forall x | x in s'.requests ensures Settled(s', x) {
      assert Settled(s, x);
      if x != id {
        FlightElsewhere(s, s', i, x);
      } else {
        assert !InFlight(s', x);
      }
    }
  }

  /** Slot `i` is the one the next used entry names. */
  ghost predicate Consumable(s: State, i: nat)
  {
    && ShapeOk(s) && i < |s.slots| && s.stages[i] == Returned(s.consumed) && s.slots[i].active &&
        s.slots[i].request in s.requests
    && s.requests[s.slots[i].request].answer != None && !s.requests[s.slots[i].request].done
  }

  /** Answered requests may have completed, each once; nothing else happened to any request, nor to the medium. */
  ghost predicate Drained(s: State, s': State)
  {
    && s'.disk == s.disk && s'.requests.Keys == s.requests.Keys && |s'.slots| == |s.slots|
    && (forall x | x in s.requests :: DrainedOne(s.requests[x], s'.requests[x]))
    && (forall i: nat | i < |s.slots| && s'.slots[i].active :: s'.slots[i] == s.slots[i])
  }

  predicate DrainedOne(r: Request, r': Request)
  {
    r' == r || (!r.done && r.answer != None && r' == Completed(r))
  }

  lemma DrainOn(s: State, s1: State, s2: State, k: nat)
    requires Drained(s, s1) && Consumable(s1, k) && s2 == Consumed(s1, k)
    ensures Drained(s, s2)
  {
    forall x | x in s.requests ensures DrainedOne(s.requests[x], s2.requests[x]) {
      assert DrainedOne(s.requests[x], s1.requests[x]);
    }
  }

  /** The device holds exactly these chains. */
  ghost predicate HeldIs(held: set<nat>, stages: seq<Stage>)
  {
    forall i: nat :: i in held <==> i < |stages| && stages[i] == AtDevice
  }

  /** The device sees available entries exactly while some are left to take. */
  lemma AvailableLeft(s: State)
    requires Inv(s)
    ensures s.devIdx != s.availIdx <==> s.taken < s.submitted
  {
    if s.taken + 2 < s.submitted {
      var i := QueuedBy(s, s.taken);
      var j := QueuedBy(s, s.taken + 1);
      var k := QueuedBy(s, s.taken + 2);
      assert false;
    }
  }

  lemma QueuedBy(s: State, n: nat) returns (i: nat)
    requires Inv(s) && s.taken <= n < s.submitted
    ensures i < |s.slots| <= 2 && s.stages[i] == Queued(n)
  {
    assert QueuedOk(s, n);
    i :| i < |s.slots| && s.stages[i] == Queued(n) && s.avail[Ring(n, s.size)] == 3 * i;
  }

  /** The driver sees used entries exactly while some are left to consume. */
  lemma UsedLeft(s: State)
    requires Inv(s)
    ensures s.usedIdx != s.lastUsed <==> s.consumed < s.returned
    ensures s.returned - s.consumed <= 2
  {
    if s.consumed + 2 < s.returned {
      var i := ReturnedBy(s, s.consumed);
      var j := ReturnedBy(s, s.consumed + 1);
      var k := ReturnedBy(s, s.consumed + 2);
      assert false;
    }
  }

  lemma ReturnedBy(s: State, n: nat) returns (i: nat)
    requires Inv(s) && s.consumed <= n < s.returned
    ensures i < |s.slots| <= 2 && s.stages[i] == Returned(n)
  {
    assert ReturnedOk(s, n);
    i :| i < |s.slots| && s.stages[i] == Returned(n) && s.used[Ring(n, s.size)] == 3 * i;
  }

  class Driver {
    const size: nat
    const capacity: nat
    var slots: seq<Slot>
    var mask: Word
    var desc: seq<Descriptor>
    var avail: seq<nat>
    var availIdx: nat
    var used: seq<nat>
    var usedIdx: nat
    var lastUsed: nat
    /** The device's own position on the available ring, and its medium. */
    var devIdx: nat
    var disk: seq<Sector>
    /** The slots whose chains the device has taken and not returned. */
    var held: set<nat>
    var requests: map<nat, Request>
    ghost var stages: seq<Stage>
    ghost var submitted: nat
    ghost var taken: nat
    ghost var returned: nat
    ghost var consumed: nat

    ghost function Now(): State
      reads this
    {
      State(size, slots, mask, desc, avail, availIdx, used, usedIdx, lastUsed, devIdx, disk, requests,
            stages, submitted, taken, returned, consumed)
    }

    ghost predicate Valid()
      reads this
    {
      Inv(Now()) && |disk| == capacity && HeldIs(held, stages)
    }

    constructor (size: nat, disk: seq<Sector>)
      requires 0 < size <= MAX_QUEUE_SIZE
      ensures Valid() && this.size == size && this.disk == disk && requests == map[]
    {
      this.size, this.capacity, this.disk := size, |disk|, disk;
      slots := seq(size / 3, _ => Slot(false, 0, Read, 0, 0, [], 0));
      mask, desc := 0, seq(size, _ => Descriptor(Nothing, false, false, 0));
      avail, used, availIdx, usedIdx, lastUsed, devIdx := seq(size, _ => 0), seq(size, _ => 0), 0, 0, 0, 0;
      requests, held := map[], {};
      stages, submitted, taken, returned, consumed := seq(size / 3, _ => Idle), 0, 0, 0, 0;
      new;
      Empty(Now());
    }

    /** `virtio_blk_fail_immediately`: the request completes at once, without the device. */
    method FailImmediately(id: nat, op: Operation, sector: nat, count: nat, data: seq<Sector>, status: Status)
      requires Valid() && id !in requests
      modifies this`requests
      ensures Valid() && requests == old(requests)[id := Request(op, sector, count, data, status, true, 1, None)]
    {
      ghost var s := Now();
      requests := requests[id := Request(op, sector, count, data, status, true, 1, None)];
      FailKeeps(s, Now(), id);
    }

    /** `virtio_blk_acquire_request_slot`: the first slot whose flag and descriptors are free. */
    method FindFree() returns (i: nat)
      requires Valid()
      ensures i <= |slots| && (i < |slots| ==> !slots[i].active) && forall j: nat | j < i :: slots[j].active
    {
      i := 0;
      while i < |slots|
        invariant i <= |slots| && forall j: nat | j < i :: slots[j].active
      {
        MaskTest(mask, slots, i);
        if !slots[i].active && BitAnd(mask, SlotMask(i)) == 0 { return; }
        i := i + 1;
      }
    }

    /**
     `virtio_blk_submit_request` for a caller that may sleep.  A request outside the limits or beyond
     the medium is invalid, one without a free slot is turned away as busy; any other is under way.
     */
    method Submit(id: nat, op: Operation, sector: Word, count: nat, data: seq<Sector>) returns (ok: bool)
      requires Valid() && id !in requests && |data| == count
      modifies this
      ensures Valid() && disk == old(disk) && requests.Keys == old(requests).Keys + {id}
      ensures forall x | x in old(requests) :: requests[x] == old(requests)[x]
      ensures ok <==> Acceptable(op, sector, count, capacity) && exists i: nat ::
                i < |old(slots)| && !old(slots)[i].active
      ensures ok ==> InFlight(Now(), id) && requests[id] == Request(op, sector, count, data, Pending, false, 0, None)
      ensures !ok ==>
                requests[id].done &&
                requests[id].status == if Acceptable(op, sector, count, capacity) then Busy else Invalid
      ensures Admitted(old(Now()), Now(), id, op, sector, count)
      ensures !ok ==> slots == old(slots)
    {
      if count == 0 || count > MAX_SECTORS || sector > capacity || capacity - sector < count ||
          (op != Read && op != Write) {
        FailImmediately(id, op, sector, count, data, Invalid);
        return false;
      }
      var i := FindFree();
      if i == |slots| {
        FailImmediately(id, op, sector, count, data, Busy);
        return false;
      }
      Launch(i, id, op, sector, count, data);
      ok := true;
    }

    /** Store the driver's tables, where all else is as in `s'` already. */
    method Install(slots': seq<Slot>, mask': Word, requests': map<nat, Request>, ghost s': State)
      requires Inv(s') && |disk| == capacity && s'.slots == slots' && s'.mask == mask' && s'.requests == requests'
      requires HeldIs(held, s'.stages)
      requires s' == Now().(slots := s'.slots, mask := s'.mask, requests := s'.requests, stages := s'.stages,
                            submitted := s'.submitted, returned := s'.returned, consumed := s'.consumed)
      modifies this`slots, this`mask, this`requests, this`stages, this`submitted, this`returned, this`consumed
      ensures Now() == s' && Valid()
    {
      slots, mask, requests := slots', mask', requests';
      Record(s');
    }

    /** The running numbers of `s'`. */
    ghost method Record(s': State)
      requires Inv(s') && |disk| == capacity && HeldIs(held, s'.stages)
      requires s' == Now().(stages := s'.stages, submitted := s'.submitted, returned := s'.returned,
                            consumed := s'.consumed)
      modifies this`stages, this`submitted, this`returned, this`consumed
      ensures Now() == s' && Valid()
    {
      stages, submitted, returned, consumed := s'.stages, s'.submitted, s'.returned, s'.consumed;
      assert Now() == s';
    }

    method Publish(desc': seq<Descriptor>, avail': seq<nat>, availIdx': nat)
      modifies this`desc, this`avail, this`availIdx
      ensures Now() == old(Now()).(desc := desc', avail := avail', availIdx := availIdx')
    {
      desc, avail, availIdx := desc', avail', availIdx';
    }

    method Answer(disk': seq<Sector>, used': seq<nat>, usedIdx': nat)
      modifies this`disk, this`used, this`usedIdx
      ensures Now() == old(Now()).(disk := disk', used := used', usedIdx := usedIdx')
    {
      disk, used, usedIdx := disk', used', usedIdx';
    }

    /** Fill slot `i`, link its descriptors and put its head on the available ring. */
    method Launch(i: nat, id: nat, op: Operation, sector: nat, count: nat, data: seq<Sector>)
      requires Valid() && i < |slots| && !slots[i].active && id !in requests && sector + count <= capacity
      requires |data| == count
      modifies this
      ensures Valid() && disk == old(disk) && InFlight(Now(), id)
      ensures requests == old(requests)[id := Request(op, sector, count, data, Pending, false, 0, None)]
      ensures |slots| == |old(slots)| && slots == old(slots)[i := slots[i]] && slots[i].request == id
      ensures slots[i].op == op && slots[i].sector == sector && slots[i].count == count
    {
      ghost var s := Now();
      assert StageOk(s, i);
      var payload := if op == Write then data else seq(count, _ => []);
      SubmitKeeps(s, i, id, op, sector, count, payload, data);
      var at := Position(availIdx, size);
      ghost var s' := Submitted(s, i, id, op, sector, count, payload, data);
      Publish(SetChain(desc, i, op), avail[at := 3 * i], Bump(availIdx));
      Install(slots[i := Slot(true, id, op, sector, count, payload, 0xFF)], BitOr(mask, SlotMask(i)),
              requests[id := Request(op, sector, count, data, Pending, false, 0, None)], s');
    }

    /** The device takes the next available entry; its chain lies in one slot's buffer. */
    method DeviceTake() returns (head: nat, ghost i: nat)
      requires Valid() && devIdx != availIdx
      modifies this`devIdx, this`held, this`stages, this`taken
      ensures Valid() && head == 3 * i && i < |slots| && slots[i].active && i in held && ChainOk(desc, i, slots[i].op)
      ensures Now() == DeviceTook(old(Now()), i)
    {
      ghost var s := Now();
      AvailableLeft(s);
      i := TakeKeeps(s);
      var at := Position(devIdx, size);
      head := avail[at];
      assert StageOk(s, i) && head / 3 == i;
      devIdx, held := Bump(devIdx), held + {head / 3};
      stages, taken := stages[i := AtDevice], taken + 1;
      assert Now() == DeviceTook(s, i);
    }

    /** The device finishes any request it holds, well or badly. */
    method DeviceFinish(i: nat, ok: bool, junk: seq<Sector>)
      requires Valid() && i in held && i < |slots| && |junk| == slots[i].count
      modifies this
      ensures Valid() && Now() == DeviceDone(old(Now()), i, ok, junk)
    {
      ghost var s := Now();
      DoneKeeps(s, i, ok, junk);
      var at := Position(usedIdx, size);
      assert StageOk(s, i) && OwnRequest(s, i);
      var slot := slots[i];
      var data, r := DataAfter(disk, slot, ok, junk), requests[slot.request];
      ghost var s' := DeviceDone(s, i, ok, junk);
      held := held - {i};
      Answer(DiskAfter(disk, slot, ok), used[at := 3 * i], Bump(usedIdx));
      Install(slots[i := slot.(data := data, status := if ok then 0 else 1)], mask,
              requests[slot.request := r.(answer := if ok then Transferred(data) else Failed)], s');
    }

    /** `virtio_blk_find_request_slot` */
    method FindSlot(head: nat) returns (i: nat)
      ensures i <= |slots| && (i < |slots| ==> head == 3 * i)
      ensures (i == |slots| ==> forall j: nat | j < |slots| :: head != 3 * j)
    {
      i := 0;
      while i < |slots|
        invariant i <= |slots| && forall j: nat | j < i :: head != 3 * j
      {
        if head == 3 * i { return; }
        i := i + 1;
      }
    }

    /** One turn of `virtio_blk_drain_used`. */
    method ConsumeOne() returns (ghost k: nat)
      requires Valid() && usedIdx != lastUsed
      modifies this
      ensures Valid() && Consumable(old(Now()), k) && Now() == Consumed(old(Now()), k)
    {
      ghost var s := Now();
      UsedLeft(s);
      k := NextUsed(s);
      var at := Position(lastUsed, size);
      var head := used[at];
      lastUsed := Bump(lastUsed);
      var i := FindSlot(head);
      assert i == k && StageOk(s, i) && OwnRequest(s, i);
      if i == |slots| || !slots[i].active { return; }
      var slot := slots[i];
      var r := requests[slot.request];
      var ok := slot.status == 0;
      if ok && r.op == Read { r := r.(data := slot.data); }
      r := r.(status := if ok then Success else DeviceError, done := true, completions := r.completions + 1);
      ConsumeKeeps(s, i);
      Install(slots[i := slot.(active := false)], BitAnd(mask, Not(SlotMask(i))), requests[slot.request := r],
              Consumed(s, i));
    }

    /** `virtio_blk_drain_used`: every answered request completes; nothing the device still holds does. */
    method DrainUsed()
      requires Valid()
      modifies this
      ensures Valid() && Drained(old(Now()), Now()) && consumed == returned == old(returned)
    {
      ghost var s := Now();
      while usedIdx != lastUsed
        invariant Valid() && Drained(s, Now()) && returned == s.returned
        decreases returned - consumed
      {
        ghost var s1 := Now();
        UsedLeft(s1);
        var k := ConsumeOne();
        DrainOn(s, s1, Now(), k);
      }
      UsedLeft(Now());
    }
  }

  /** At most one slot is new, and it works for request `id`. */
  ghost predicate Admitted(s: State, s': State, id: nat, op: Operation, sector: nat, count: nat)
  {
    && |s'.slots| == |s.slots|
    && forall i: nat | i < |s.slots| ::
         s'.slots[i] == s.slots[i] ||
         (s'.slots[i].request == id && s'.slots[i].op == op && s'.slots[i].sector == sector &&
          s'.slots[i].count == count)
  }

  /** Inside the limits of a request and on the medium. */
  predicate Acceptable(op: Operation, sector: nat, count: nat, capacity: nat)
  {
    (op == Read || op == Write) && 0 < count <= MAX_SECTORS && sector + count <= capacity
  }

  lemma Empty(s: State)
    requires 0 < s.size <= MAX_QUEUE_SIZE && |s.slots| == |s.stages| == s.size / 3
    requires |s.avail| == |s.used| == |s.desc| == s.size
    requires s.mask == 0 && s.availIdx == s.usedIdx == s.lastUsed == s.devIdx == 0 && s.requests == map[]
    requires s.submitted == s.taken == s.returned == s.consumed == 0
    requires forall i: nat | i < |s.slots| :: !s.slots[i].active && s.stages[i] == Idle
    ensures Inv(s)
  {
    forall b: nat | b < 64 ensures !Bit(s.mask, b) { ZeroBit(b); }
  }

  lemma FailKeeps(s: State, s': State, id: nat)
    requires Inv(s) && id !in s.requests && id in s'.requests
    requires s' == s.(requests := s.requests[id := s'.requests[id]])
    requires s'.requests[id].done && s'.requests[id].completions == 1
    ensures Inv(s')
  {
    forall i: nat | i < |s'.slots|
      ensures StageOk(s', i) && OwnRequest(s', i)
    {
      assert StageOk(s, i) && OwnRequest(s, i);
    }
    forall n: nat | s'.taken <= n < s'.submitted ensures QueuedOk(s', n) { assert QueuedOk(s, n); }
    forall n: nat | s'.consumed <= n < s'.returned ensures ReturnedOk(s', n) { assert ReturnedOk(s, n); }
    forall i: nat | i < |s.slots| && s.slots[i].active ensures s.slots[i].request != id { assert OwnRequest(s, i); }
    forall x | x in s'.requests ensures Settled(s', x) {
      if x != id { assert Settled(s, x); }
      SameFlight(s, s', x);
    }
  }
}

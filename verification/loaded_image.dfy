/**
 What a loaded program reads.  Every byte of the user slot of a loaded space is given by the last
 segment that covers its page; when the segments occupy disjoint pages that is the whole file image.
 */
module LoadedImage {
  import opened Basics
  import opened Word64
  import opened Entries
  import opened Paging
  import opened UserAccess
  import opened VirtualMemories
  import opened UserCopy
  import opened UserElf
  import opened UserImage
  import opened UserPrograms

  /** The address translates to a byte of value `b` with `flags`. */
  predicate Shows(mem: Memory, cr3: Word, va: Word, flags: Word, b: Byte)
  {
    var t := Translate(mem, cr3, va);
    t.Mapped? && t.flags == flags && ByteAt(mem, t.physical) == b
  }

  /** Every address of the user slot: a fault where no segment covers it, else the byte of the last one that does. */
  lemma EveryByte(c: Sharing, s: Space, segs: seq<Segment>, cr3: Word, va: Word)
    requires Sound(c, s.w) && Holds(s, segs) && s.root == cr3 / 4096 && SLOT_FIRST * 4096 <= va < SLOT_END * 4096
    ensures match Covering(segs, va / 4096)
            case None => Translate(s.w.mem, cr3, va) == Fault
            case Some(g) => Shows(s.w.mem, cr3, va, g.flags, ByteIn(g, va))
  {
    assert Vpn(va) == va / 4096;
    assert PageHolds(s, va / 4096, Covering(segs, va / 4096));
    TranslateIsWalk(s.w.mem, cr3, va);
  }

  // ----- what user mode may do

  /** The flags of segments and stack grant what they say. */
  lemma UserFlagsGrant(writable: bool, noExecute: bool, write: bool, fetch: bool)
    ensures HasUser(UserFlags(writable, noExecute))
    ensures Grants(UserFlags(writable, noExecute), write, fetch) <==> (write ==> writable) && (fetch ==> !noExecute)
  {
    UserFlagBits(writable, noExecute, 0);
    UserFlagBits(writable, noExecute, 1);
    UserFlagBits(writable, noExecute, 2);
    UserFlagBits(writable, noExecute, 63);
  }

  /** User mode may do with a page of the slot what the last segment that covers it grants, and nothing without one. */
  lemma SlotRights(c: Sharing, w0: World, s: Space, source: nat, shared: set<nat>, segs: seq<Segment>, v: nat,
                   write: bool, fetch: bool)
    requires Loading(c, w0, s, source, shared, segs) && SLOT_FIRST <= v < SLOT_END
    requires Covering(segs, v).Some? ==> HasUser(Covering(segs, v).value.flags)
    ensures UserMay(s.w.mem, s.root, v, write, fetch) <==>
              Covering(segs, v).Some? && Grants(Covering(segs, v).value.flags, write, fetch)
  {
    assert PageHolds(s, v, Covering(segs, v));
    MayIs(c, s.w.mem, s.w.owner, s.root, v, write, fetch);
  }

  /**
   The check lets a user access through to a mapped page exactly where the processor would let user
   mode do the same, given that the entries above the page are user-visible and the page is present.
   */
  lemma CheckAgrees(c: Sharing, mem: Memory, owner: Owners, root: nat, v: nat, a: Access)
    requires WellFormed(c, mem, owner) && IsRoot(owner, root) && a != Kernel
    ensures var leaf := Walk(mem, root, v);
            UserMay(mem, root, v, a == UserWrite, false) <==>
              !leaf.Unmapped? && UserPath(mem, root, v) && Bit(leaf.flags, 0) && Permitted(a, leaf.flags)
  {
    MayIs(c, mem, owner, root, v, a == UserWrite, false);
    if !Walk(mem, root, v).Unmapped? { PermittedDigits(a, Walk(mem, root, v).flags); }
  }

  // ----- disjoint segments

  predicate PageDisjoint(segs: seq<Segment>)
  {
    forall i: nat, j: nat | i < j < |segs| :: segs[i].hi <= segs[j].lo || segs[j].hi <= segs[i].lo
  }

  lemma {:induction false} CoveringDisjoint(segs: seq<Segment>, i: nat, v: nat)
    requires PageDisjoint(segs) && i < |segs| && Covers(segs[i], v)
    ensures Covering(segs, v) == Some(segs[i])
    decreases |segs|
  {
    var n := |segs| - 1;
    if i < n {
      assert !Covers(segs[n], v);
      CoveringDisjoint(segs[..n], i, v);
    }
  }

  /** Planned segments end below the guard page. */
  lemma {:induction false} BelowGuard(h: Header, image: Image, n: nat)
    requires h.phentsize == PROGRAM_HEADER_SIZE && n <= 0x1_0000 && AllPlannable(h, image, n)
    ensures forall i: nat | i < |SegmentsOf(h, image, n)| ::
              SLOT_FIRST <= SegmentsOf(h, image, n)[i].lo && SegmentsOf(h, image, n)[i].hi <= GUARD_BASE / 4096
    decreases n
  {
    if n > 0 {
      BelowGuard(h, image, n - 1);
      assert Plannable(h, image, n - 1);
      var p := ProgramHeaderFromImage(h, image, n - 1).value;
      if IsLoadable(p) { PlannedSegment(p, image); }
    }
  }

  /** Each loadable header among the first `n` has its segment in the list. */
  lemma {:induction false} HeaderSegment(h: Header, image: Image, n: nat, k: nat) returns (i: nat)
    requires h.phentsize == PROGRAM_HEADER_SIZE && k < n <= 0x1_0000 && AllPlannable(h, image, n)
    requires Plannable(h, image, k)
    requires IsLoadable(ProgramHeaderFromImage(h, image, k).value)
    ensures i < |SegmentsOf(h, image, n)|
    ensures SegmentsOf(h, image, n)[i] == SegmentOf(ProgramHeaderFromImage(h, image, k).value, image)
    decreases n
  {
    if k == n - 1 {
      i := |SegmentsOf(h, image, n - 1)|;
    } else {
      i := HeaderSegment(h, image, n - 1, k);
    }
  }

  // ----- the image theorem

  /**
   File bytes: if the segments are page-disjoint, address `vaddr + k` of every loadable header shows
   byte `offset + k` of the file with the planned flags, and the rest of its pages shows zeros.
   */
  lemma FileBytes(c: Sharing, w0: World, s: Space, source: nat, shared: set<nat>, image: Image, h: Header, cr3: Word,
                  k: nat, va: Word)
    requires Loaded(c, w0, s, source, shared, image, h) && s.root == cr3 / 4096
    requires PageDisjoint(SegmentsOf(h, image, h.phnum)) && k < h.phnum && Plannable(h, image, k)
    requires IsLoadable(ProgramHeaderFromImage(h, image, k).value)
    requires Covers(SegmentOf(ProgramHeaderFromImage(h, image, k).value, image), va / 4096)
    ensures var p := ProgramHeaderFromImage(h, image, k).value;
            Shows(s.w.mem, cr3, va, UserFlags(p.flags / 2 % 2 == 1, p.flags % 2 == 0), FileByteAt(p, image, va))
    ensures var p := ProgramHeaderFromImage(h, image, k).value;
            forall write: bool, fetch: bool :: UserMay(s.w.mem, s.root, va / 4096, write, fetch) <==>
              (write ==> p.flags / 2 % 2 == 1) && (fetch ==> p.flags % 2 == 1)
  {
    CoveredByHeader(h, image, k, va / 4096);
    FileByte(ProgramHeaderFromImage(h, image, k).value, image, va);
    forall write: bool, fetch: bool
      ensures var p := ProgramHeaderFromImage(h, image, k).value;
              UserMay(s.w.mem, s.root, va / 4096, write, fetch) <==>
                (write ==> p.flags / 2 % 2 == 1) && (fetch ==> p.flags % 2 == 1)
    {
      var p := ProgramHeaderFromImage(h, image, k).value;
      UserFlagsGrant(p.flags / 2 % 2 == 1, p.flags % 2 == 0, write, fetch);
      SlotRights(c, w0, s, source, shared, SegmentsOf(h, image, h.phnum) + [StackSegment()], va / 4096, write, fetch);
    }
    EveryByte(c, s, SegmentsOf(h, image, h.phnum) + [StackSegment()], cr3, va);
  }

  function FileByteAt(p: ProgramHeader, image: Image, va: nat): Byte
    requires p.offset + p.filesz <= |image|
  {
    if p.vaddr <= va < p.vaddr + p.filesz then image[p.offset + (va - p.vaddr)] else 0
  }

  lemma FileByte(p: ProgramHeader, image: Image, va: nat)
    requires PlanLoadSegment(p, |image|).Some?
    ensures ByteIn(SegmentOf(p, image), va) == FileByteAt(p, image, va)
    ensures SegmentOf(p, image).flags == UserFlags(p.flags / 2 % 2 == 1, p.flags % 2 == 0)
  {}

  lemma CoveredByHeader(h: Header, image: Image, k: nat, v: nat)
    requires h.phentsize == PROGRAM_HEADER_SIZE && h.phnum < 0x1_0000 && AllPlannable(h, image, h.phnum)
    requires PageDisjoint(SegmentsOf(h, image, h.phnum)) && k < h.phnum && Plannable(h, image, k)
    requires IsLoadable(ProgramHeaderFromImage(h, image, k).value)
    requires Covers(SegmentOf(ProgramHeaderFromImage(h, image, k).value, image), v)
    ensures Covering(SegmentsOf(h, image, h.phnum) + [StackSegment()], v) ==
            Some(SegmentOf(ProgramHeaderFromImage(h, image, k).value, image))
    ensures SLOT_FIRST <= v < SLOT_END
  {
    var segs := SegmentsOf(h, image, h.phnum);
    var i := HeaderSegment(h, image, h.phnum, k);
    BelowGuard(h, image, h.phnum);
    CoveringAppend(segs, StackSegment(), v);
    CoveringDisjoint(segs, i, v);
  }

  /** The stack reads as zeros; user mode may write it but not fetch from it. */
  lemma StackIsZero(c: Sharing, w0: World, s: Space, source: nat, shared: set<nat>, image: Image, h: Header,
                    cr3: Word, va: Word)
    requires Loaded(c, w0, s, source, shared, image, h) && s.root == cr3 / 4096 && STACK_BASE <= va < USER_STACK_TOP
    ensures Shows(s.w.mem, cr3, va, UserFlags(true, true), 0)
    ensures UserMay(s.w.mem, s.root, va / 4096, true, false) && !UserMay(s.w.mem, s.root, va / 4096, false, true)
  {
    var segs := SegmentsOf(h, image, h.phnum);
    CoveringAppend(segs, StackSegment(), va / 4096);
    UserFlagsGrant(true, true, true, false);
    UserFlagsGrant(true, true, false, true);
    SlotRights(c, w0, s, source, shared, segs + [StackSegment()], va / 4096, true, false);
    SlotRights(c, w0, s, source, shared, segs + [StackSegment()], va / 4096, false, true);
    EveryByte(c, s, segs + [StackSegment()], cr3, va);
  }

  /** Some loadable header covers page `v`. */
  ghost predicate Claimed(h: Header, image: Image, v: nat)
    requires h.phentsize == PROGRAM_HEADER_SIZE && h.phnum < 0x1_0000
  {
    exists k: nat | k < h.phnum && Plannable(h, image, k) && IsLoadable(ProgramHeaderFromImage(h, image, k).value) ::
      Covers(SegmentOf(ProgramHeaderFromImage(h, image, k).value, image), v)
  }

  lemma ClaimedIsCovered(h: Header, image: Image, v: nat)
    requires h.phentsize == PROGRAM_HEADER_SIZE && h.phnum < 0x1_0000 && AllPlannable(h, image, h.phnum)
    ensures Claimed(h, image, v) <==> Covering(SegmentsOf(h, image, h.phnum), v).Some?
  {
    var segs := SegmentsOf(h, image, h.phnum);
    if Claimed(h, image, v) {
      var k: nat :| k < h.phnum && Plannable(h, image, k) && IsLoadable(ProgramHeaderFromImage(h, image, k).value) &&
        Covers(SegmentOf(ProgramHeaderFromImage(h, image, k).value, image), v);
      var i := HeaderSegment(h, image, h.phnum, k);
      SomeCovering(segs, i, v);
    }
    if Covering(segs, v).Some? {
      CoveringIsMember(segs, v);
      var i: nat :| i < |segs| && segs[i] == Covering(segs, v).value;
      CoveringCovers(segs, v);
      var k := SegmentHeader(h, image, h.phnum, i);
    }
  }

  lemma {:induction false} CoveringCovers(segs: seq<Segment>, v: nat)
    requires Covering(segs, v).Some?
    ensures Covers(Covering(segs, v).value, v)
    decreases |segs|
  {
    if !Covers(segs[|segs| - 1], v) { CoveringCovers(segs[..|segs| - 1], v); }
  }

  /** No planned segment reaches the guard page or anything above it. */
  lemma GuardUnclaimed(h: Header, image: Image, v: nat)
    requires h.phentsize == PROGRAM_HEADER_SIZE && h.phnum < 0x1_0000 && v >= GUARD_BASE / 4096
    ensures !Claimed(h, image, v)
  {}

  lemma CoveredExactly(h: Header, image: Image, v: nat)
    requires h.phentsize == PROGRAM_HEADER_SIZE && h.phnum < 0x1_0000 && AllPlannable(h, image, h.phnum)
    ensures Covering(SegmentsOf(h, image, h.phnum) + [StackSegment()], v).Some? <==>
            Claimed(h, image, v) || STACK_BASE / 4096 <= v < USER_STACK_TOP / 4096
  {
    ClaimedIsCovered(h, image, v);
    CoveringAppend(SegmentsOf(h, image, h.phnum), StackSegment(), v);
  }

  lemma MappedWhereCovered(c: Sharing, s: Space, segs: seq<Segment>, cr3: Word, va: Word)
    requires Sound(c, s.w) && Holds(s, segs) && s.root == cr3 / 4096 && SLOT_FIRST * 4096 <= va < SLOT_END * 4096
    ensures Translate(s.w.mem, cr3, va).Mapped? <==> Covering(segs, va / 4096).Some?
  {
    EveryByte(c, s, segs, cr3, va);
  }

  /**
   The mapped part of the user slot is exactly the pages of the loadable headers and the stack.
   */
  lemma NothingElse(c: Sharing, w0: World, s: Space, source: nat, shared: set<nat>, image: Image, h: Header,
                    cr3: Word, va: Word)
    requires Loaded(c, w0, s, source, shared, image, h) && s.root == cr3 / 4096
    requires SLOT_FIRST * 4096 <= va < SLOT_END * 4096
    ensures Translate(s.w.mem, cr3, va).Mapped? <==>
            Claimed(h, image, va / 4096) || STACK_BASE / 4096 <= va / 4096 < USER_STACK_TOP / 4096
  {
    CoveredExactly(h, image, va / 4096);
    MappedWhereCovered(c, s, SegmentsOf(h, image, h.phnum) + [StackSegment()], cr3, va);
  }

  /** The guard page below the stack faults. */
  lemma GuardFaults(c: Sharing, w0: World, s: Space, source: nat, shared: set<nat>, image: Image, h: Header,
                    cr3: Word, va: Word)
    requires Loaded(c, w0, s, source, shared, image, h) && s.root == cr3 / 4096 && GUARD_BASE <= va < STACK_BASE
    ensures Translate(s.w.mem, cr3, va) == Fault && !UserMay(s.w.mem, s.root, va / 4096, false, false)
  {
    GuardPage(va);
    GuardUncovered(c, w0, s, source, shared, image, h, va / 4096);
    NothingElse(c, w0, s, source, shared, image, h, cr3, va);
    GuardUnclaimed(h, image, va / 4096);
  }

  lemma GuardUncovered(c: Sharing, w0: World, s: Space, source: nat, shared: set<nat>, image: Image, h: Header, v: nat)
    requires Loaded(c, w0, s, source, shared, image, h) && GUARD_BASE / 4096 <= v < STACK_BASE / 4096
    requires SLOT_FIRST <= v < SLOT_END
    ensures !UserMay(s.w.mem, s.root, v, false, false)
  {
    CoveredExactly(h, image, v);
    GuardUnclaimed(h, image, v);
    SlotRights(c, w0, s, source, shared, SegmentsOf(h, image, h.phnum) + [StackSegment()], v, false, false);
  }

  lemma GuardPage(va: nat)
    requires GUARD_BASE <= va < STACK_BASE
    ensures GUARD_BASE / 4096 <= va / 4096 < STACK_BASE / 4096 && SLOT_FIRST * 4096 <= va < SLOT_END * 4096
  {}

  lemma {:induction false} SegmentHeader(h: Header, image: Image, n: nat, i: nat) returns (k: nat)
    requires h.phentsize == PROGRAM_HEADER_SIZE && n <= 0x1_0000 && AllPlannable(h, image, n)
    requires i < |SegmentsOf(h, image, n)|
    ensures k < n && Plannable(h, image, k) && IsLoadable(ProgramHeaderFromImage(h, image, k).value)
    ensures SegmentsOf(h, image, n)[i] == SegmentOf(ProgramHeaderFromImage(h, image, k).value, image)
    decreases n
  {
    if i < |SegmentsOf(h, image, n - 1)| {
      k := SegmentHeader(h, image, n - 1, i);
    } else {
      k := n - 1;
      assert Plannable(h, image, k);
    }
  }

  /** Every segment of a loaded program, the stack included, has user flags. */
  lemma SegmentFlags(h: Header, image: Image, j: nat) returns (w: bool, x: bool)
    requires h.phentsize == PROGRAM_HEADER_SIZE && h.phnum < 0x1_0000 && AllPlannable(h, image, h.phnum)
    requires j < |SegmentsOf(h, image, h.phnum) + [StackSegment()]|
    ensures (SegmentsOf(h, image, h.phnum) + [StackSegment()])[j].flags == UserFlags(w, x)
  {
    if j < |SegmentsOf(h, image, h.phnum)| {
      var q := SegmentHeader(h, image, h.phnum, j);
      var p := ProgramHeaderFromImage(h, image, q).value;
      w, x := p.flags / 2 % 2 == 1, p.flags % 2 == 0;
    } else {
      w, x := true, true;
    }
  }

  /**
   The entry point of a loaded program shows a byte of the image that user mode may read; it may
   fetch from there exactly if the last segment that covers the page is executable.
   */
  lemma EntryIsMapped(c: Sharing, w0: World, s: Space, source: nat, shared: set<nat>, image: Image, h: Header,
                      cr3: Word)
    requires Loaded(c, w0, s, source, shared, image, h) && s.root == cr3 / 4096
    ensures UserMay(s.w.mem, s.root, h.entry / 4096, false, false)
    ensures var g := Covering(SegmentsOf(h, image, h.phnum) + [StackSegment()], h.entry / 4096);
            && g.Some? && Shows(s.w.mem, cr3, h.entry, g.value.flags, ByteIn(g.value, h.entry))
            && (UserMay(s.w.mem, s.root, h.entry / 4096, false, true) <==> !Bit(g.value.flags, 63))
  {
    var k: nat :| k < h.phnum && HoldsEntry(h, image, k) && forall j: nat | j <= k :: Plannable(h, image, j);
    var i := HeaderSegment(h, image, h.phnum, k);
    var segs, v := SegmentsOf(h, image, h.phnum) + [StackSegment()], h.entry / 4096;
    assert Covers(segs[i], v);
    BelowGuard(h, image, h.phnum);
    SomeCovering(segs, i, v);
    EveryByte(c, s, segs, cr3, h.entry);
    CoveringIsMember(segs, v);
    var j: nat :| j < |segs| && segs[j] == Covering(segs, v).value;
    var w, x := SegmentFlags(h, image, j);
    UserFlagBits(w, x, 63);
    UserFlagsGrant(w, x, false, false);
    UserFlagsGrant(w, x, false, true);
    SlotRights(c, w0, s, source, shared, segs, v, false, false);
    SlotRights(c, w0, s, source, shared, segs, v, false, true);
  }

  lemma {:induction false} SomeCovering(segs: seq<Segment>, i: nat, v: nat)
    requires i < |segs| && Covers(segs[i], v)
    ensures Covering(segs, v).Some?
    decreases |segs|
  {
    if i < |segs| - 1 { SomeCovering(segs[..|segs| - 1], i, v); }
  }

  lemma {:induction false} CoveringIsMember(segs: seq<Segment>, v: nat)
    requires Covering(segs, v).Some?
    ensures exists j: nat | j < |segs| :: segs[j] == Covering(segs, v).value
    decreases |segs|
  {
    var n := |segs| - 1;
    if !Covers(segs[n], v) {
      CoveringIsMember(segs[..n], v);
      var j: nat :| j < n && segs[..n][j] == Covering(segs, v).value;
      assert segs[j] == Covering(segs, v).value;
    } else {
      assert segs[n] == Covering(segs, v).value;
    }
  }

  /** An overlapping page shows the later segment: the earlier one's file bytes there are lost. */
  lemma LaterWins(c: Sharing, s: Space, segs: seq<Segment>, g: Segment, cr3: Word, va: Word)
    requires Sound(c, s.w) && Holds(s, segs + [g]) && s.root == cr3 / 4096 && SLOT_FIRST * 4096 <= va < SLOT_END * 4096
    requires Covers(g, va / 4096)
    ensures Shows(s.w.mem, cr3, va, g.flags, ByteIn(g, va))
  {
    CoveringAppend(segs, g, va / 4096);
    EveryByte(c, s, segs + [g], cr3, va);
  }

  // ----- what the others see

  /** An abandoned load leaves every older address space as it was. */
  lemma AbandonedKeepsOthers(c: Sharing, w0: World, s: Space, w: World, source: nat, shared: set<nat>, image: Image,
                             h: Header,
                             pageCount: nat, r: nat, v: nat)
    requires Abandoned(c, w0, s, w, source, shared, image, h, pageCount) && IsRoot(w0.owner, r) && v < VPN_LIMIT
    ensures Walk(w.mem, r, v) == Walk(w0.mem, r, v)
  {
    var segs :| Loading(c, w0, s, source, shared, segs);
    assert IsRoot(s.w.owner, r);
  }
}

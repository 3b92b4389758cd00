/**
 Loading a user program: `load_user_elf` checks the image, builds an address space that shares the
 kernel's slots, maps and fills one segment after the other, adds the stack, and on any failure
 tears the address space down again.
 */
module UserPrograms {
  import opened Basics
  import opened Word64
  import opened Entries
  import opened Paging
  import opened PageFrames
  import opened VirtualMemories
  import opened Teardown
  import opened SlotTeardown
  import opened UserCopy
  import opened UserElf
  import opened UserImage

  // ----- destroying an address space

  ghost predicate SpaceDestroyed(c: Sharing, w: World, w': World, root: nat, pageCount: nat)
  {
    && w'.free == w.free + Tracked(SlotFrames(w.mem, root, USER_SLOT) + SlotWords(w.mem, root, USER_SLOT), pageCount)
                         + Tracked({root}, pageCount)
    && w'.owner == Outside(w.owner, root, USER_SLOT) - {root}
    && WellFormed(c, w'.mem, w'.owner)
    && Cleared(w.mem, w'.mem, SlotFrames(w.mem, root, USER_SLOT), root, USER_SLOT, USER_SLOT + 1)
    && forall r: nat, v: nat | IsRoot(w.owner, r) && r != root && v < VPN_LIMIT ::
        Walk(w'.mem, r, v) == Walk(w.mem, r, v)
  }

  lemma RootReleased(c: Sharing, w: World, w1: World, w2: World, root: nat, pageCount: nat)
    requires SlotDestroyed(c, w, w1, root, USER_SLOT, pageCount) && IsRoot(w.owner, root)
    requires w2 == World(w1.mem, w1.owner - {root}, w1.free + Tracked({root}, pageCount))
    ensures SpaceDestroyed(c, w, w2, root, pageCount)
  {
    forall t: nat, i: nat | i < 512 && LeadsDown(w2.mem, w2.owner, t, i)
      ensures Hooked(c, w2.mem, w2.owner, t, i)
    {
      assert LeadsDown(w1.mem, w1.owner, t, i);
    }
  }

  /** Release the root of an address space; refused for an untracked frame. */
  method FreeRoot(frames: PageFrameContainer, ram: PhysicalMemory, cr3: nat) returns (ok: bool)
    requires frames.Valid() && frames.initialized && cr3 % 4096 == 0
    modifies frames`free, frames`freePageCount, frames.bitmap, ram`owner
    ensures frames.Valid() && frames.free == old(frames.free) + Tracked({cr3 / 4096}, frames.pageCount)
    ensures ram.owner == old(ram.owner) - {cr3 / 4096}
    ensures ok <==> cr3 / 4096 < frames.pageCount && cr3 / 4096 !in old(frames.free)
  {
    ok := frames.FreePage(cr3);
    ram.owner := ram.owner - {cr3 / 4096};
  }

  method DestroySpace(vm: VirtualMemory) returns (ok: bool)
    requires vm.Valid() && vm.initialized && vm.frames.initialized && USER_SLOT !in vm.ram.sharing.slots
    requires OwnsLeaves(vm.ram.sharing, vm.State(), vm.root / 4096, USER_SLOT)
    modifies vm.frames`free, vm.frames`freePageCount, vm.frames.bitmap, vm.ram
    ensures vm.frames.Valid()
    ensures SpaceDestroyed(vm.ram.sharing, old(vm.State()), vm.State(), vm.root / 4096, vm.frames.pageCount)
  {
    ghost var w := vm.State();
    var destroyed := DestroyUserSlot(vm, USER_SLOT);
    ghost var w1 := vm.State();
    ok := FreeRoot(vm.frames, vm.ram, vm.root);
    RootReleased(vm.ram.sharing, w, w1, vm.State(), vm.root / 4096, vm.frames.pageCount);
  }

  /** `destroy_user_address_space` */
  method DestroyUserAddressSpace(frames: PageFrameContainer, ram: PhysicalMemory, cr3: nat) returns (ok: bool)
    requires frames.Valid() && frames.initialized && USER_SLOT !in ram.sharing.slots
    requires Sound(ram.sharing, World(ram.mem, ram.owner, frames.free))
    requires cr3 != 0 ==> cr3 % 4096 == 0 && IsRoot(ram.owner, cr3 / 4096)
    requires cr3 != 0 ==> OwnsLeaves(ram.sharing, World(ram.mem, ram.owner, frames.free), cr3 / 4096, USER_SLOT)
    modifies frames`free, frames`freePageCount, frames.bitmap, ram
    ensures frames.Valid()
    ensures cr3 == 0 ==> !ok && World(ram.mem, ram.owner, frames.free) == old(World(ram.mem, ram.owner, frames.free))
    ensures cr3 != 0 ==> SpaceDestroyed(ram.sharing, old(World(ram.mem, ram.owner, frames.free)),
                                        World(ram.mem, ram.owner, frames.free), cr3 / 4096, frames.pageCount)
  {
    if cr3 == 0 { return false; }
    var vm := new VirtualMemory.Attach(frames, ram, cr3);
    ok := DestroySpace(vm);
  }

  // ----- the segments of an image

  function SegmentOf(p: ProgramHeader, image: Image): (g: Segment)
    requires PlanLoadSegment(p, |image|).Some?
  {
    var plan := PlanLoadSegment(p, |image|).value;
    Segment(plan.first, plan.end, plan.flags, p.vaddr, image[p.offset..p.offset + p.filesz])
  }

  lemma PlannedSegment(p: ProgramHeader, image: Image)
    requires PlanLoadSegment(p, |image|).Some?
    ensures var g := SegmentOf(p, image); IsSegment(g) && g.lo < g.hi <= GUARD_BASE / 4096
  {
    UserFlagsArePageFlags(p.flags / 2 % 2 == 1, p.flags % 2 == 0);
  }

  ghost predicate AllPlannable(h: Header, image: Image, n: nat)
    requires h.phentsize == PROGRAM_HEADER_SIZE && n <= 0x1_0000
  {
    forall i: nat | i < n :: Plannable(h, image, i)
  }

  /** The loadable segments among the first `n` program headers, in order. */
  ghost function SegmentsOf(h: Header, image: Image, n: nat): seq<Segment>
    requires h.phentsize == PROGRAM_HEADER_SIZE && n <= 0x1_0000 && AllPlannable(h, image, n)
  {
    if n == 0 then []
    else
      assert Plannable(h, image, n - 1);
      var p := ProgramHeaderFromImage(h, image, n - 1).value;
      SegmentsOf(h, image, n - 1) + if IsLoadable(p) then [SegmentOf(p, image)] else []
  }

  /** Sixteen zeroed, writable, non-executable pages below the top of user space. */
  function StackSegment(): Segment
  {
    Segment(STACK_BASE / 4096, USER_STACK_TOP / 4096, UserFlags(true, true), STACK_BASE, [])
  }

  // ----- one segment

  /** The state of a load in progress. */
  ghost predicate Loading(c: Sharing, w0: World, s: Space, source: nat, shared: set<nat>, segs: seq<Segment>)
  {
    && Sound(c, s.w) && IsRoot(s.w.owner, s.root) && Holds(s, segs) && OpenTo(s, segs) && Beside(w0, s, source, shared)
    && USER_SLOT !in c.slots && USER_SLOT !in shared
  }

  lemma LoadingFresh(c: Sharing, w0: World, s0: Space, s1: Space, source: nat, shared: set<nat>,
                     segs: seq<Segment>, g: Segment, lo: nat, n: nat)
    requires Loading(c, w0, s0, source, shared, segs) && IsSegment(g) && g.bytes == [] && g.lo == lo && g.hi == lo + n
    requires FreshRun(c, s0, s1, lo, n, g.flags) && Sound(c, s1.w) && RunOpen(s0, s1, lo, lo + n, HasUser(g.flags))
    ensures Loading(c, w0, s1, source, shared, segs + [g])
  {
    FreshSegment(c, s0, s1, segs, g, n);
    OpenToFresh(s0, s1, segs, g);
    BesideFresh(c, w0, s0, s1, source, shared, g.lo, n, g.flags);
  }

  lemma LoadingCopied(c: Sharing, w0: World, s: Space, s': Space, source: nat, shared: set<nat>,
                      segs: seq<Segment>, g: Segment, ok: bool)
    requires Loading(c, w0, s, source, shared, segs + [g.(bytes := [])]) && IsSegment(g)
    requires s' == s.(w := s.w.(mem := s'.w.mem)) && AgreeOnTables(s.w.owner, s.w.mem, s'.w.mem)
    requires Outcome(ok, s'.w.mem) == CopyTo(s.w.mem, s.root, g.vaddr, g.bytes, Kernel)
    ensures ok && Loading(c, w0, s', source, shared, segs + [g])
  {
    var ts := Targets(s.w.mem, s.root, g.vaddr, |g.bytes|, Kernel);
    TargetsInMemory(s.w.mem, s.root, g.vaddr, |g.bytes|, Kernel);
    BlankPages(s, segs, g);
    SegmentTargets(c, s, g, ts);
    CopiedSegment(c, s, s', segs, g, ts);
    OpenToCopied(c, s, s', segs, g);
    BesideCopied(c, w0, s, s', source, shared, g, ts);
  }

  lemma NoLargePages(s: Space, segs: seq<Segment>, v: nat)
    requires Holds(s, segs) && SLOT_FIRST <= v < SLOT_END
    ensures !Look(s, v).Large?
  {
    assert PageHolds(s, v, Covering(segs, v));
  }

  lemma SegmentDataPages(c: Sharing, s: Space, g: Segment)
    requires Sound(c, s.w) && s.live && OwnPages(s, g)
    ensures DataPages(s.w, s.root, g.lo, g.hi)
  {
    forall v: nat | g.lo <= v < g.hi
      ensures var leaf := Walk(s.w.mem, s.root, v);
              leaf.Small? && HasFrame(s.w.mem, leaf.frame) && !IsTable(s.w.owner, leaf.frame)
    {
      assert Covers(g, v) && OwnPage(s, v);
    }
  }

  /** Allocate and map the pages of `g`, still blank; when the frames run out, a prefix of them. */
  method MapSegment(vm: VirtualMemory, va: Word, n: nat, flags: Word, ghost g: Segment,
                    ghost w0: World, ghost source: nat, ghost shared: set<nat>, ghost segs: seq<Segment>)
    returns (ok: bool, ghost now: seq<Segment>)
    requires vm.Valid() && Loading(vm.ram.sharing, w0, vm.Snap(), source, shared, segs)
    requires IsSegment(g) && g.bytes == [] && va == g.lo * 4096 && n == g.hi - g.lo && n > 0 && flags == g.flags
    modifies vm`root, vm`initialized, vm.frames`free, vm.frames`freePageCount, vm.frames.bitmap, vm.ram
    ensures vm.Valid() && Loading(vm.ram.sharing, w0, vm.Snap(), source, shared, now)
    ensures if ok then now == segs + [g] else vm.frames.free == {}
  {
    VpnInside(va, SLOT_FIRST, SLOT_END);
    forall u: nat | Vpn(va) <= u < Vpn(va) + n ensures !Look(vm.Snap(), u).Large? {
      NoLargePages(vm.Snap(), segs, u);
    }
    ghost var s0, done := vm.Snap(), 0;
    ok, done := vm.AllocateAndMap(va, n, flags);
    ghost var part := if ok then g else g.(hi := g.lo + done, vaddr := g.lo * 4096);
    LoadingFresh(vm.ram.sharing, w0, s0, vm.Snap(), source, shared, segs, part, Vpn(va), done);
    now := segs + [part];
  }

  /** Copy the file bytes of `g` into its blank pages, which cannot fail. */
  method FillSegment(vm: VirtualMemory, va: Word, bytes: seq<Byte>, ghost g: Segment,
                     ghost w0: World, ghost source: nat, ghost shared: set<nat>, ghost segs: seq<Segment>)
    returns (ok: bool)
    requires vm.Valid() && Loading(vm.ram.sharing, w0, vm.Snap(), source, shared, segs + [g.(bytes := [])])
    requires IsSegment(g) && va == g.vaddr && bytes == g.bytes
    modifies vm.ram`mem
    ensures ok && vm.Valid() && Loading(vm.ram.sharing, w0, vm.Snap(), source, shared, segs + [g])
  {
    ghost var s := vm.Snap();
    BlankPages(s, segs, g);
    SegmentDataPages(vm.ram.sharing, s, g);
    ok := CopyPages(vm, va, bytes, Kernel, g.lo, g.hi);
    LoadingCopied(vm.ram.sharing, w0, s, vm.Snap(), source, shared, segs, g, ok);
  }

  /** Map the pages of one loadable segment and copy its file bytes; fails only when the frames run out. */
  method LoadSegment(vm: VirtualMemory, p: ProgramHeader, image: Image, ghost g: Segment,
                     ghost w0: World, ghost source: nat, ghost shared: set<nat>, ghost segs: seq<Segment>)
    returns (ok: bool, ghost now: seq<Segment>)
    requires vm.Valid() && Loading(vm.ram.sharing, w0, vm.Snap(), source, shared, segs)
    requires PlanLoadSegment(p, |image|).Some? && g == SegmentOf(p, image)
    modifies vm`root, vm`initialized, vm.frames`free, vm.frames`freePageCount, vm.frames.bitmap, vm.ram
    ensures vm.Valid() && Loading(vm.ram.sharing, w0, vm.Snap(), source, shared, now)
    ensures if ok then now == segs + [g] else vm.frames.free == {}
  {
    var plan := PlanLoadSegment(p, |image|).value;
    PlannedSegment(p, image);
    ok, now := MapSegment(vm, plan.first * 4096, plan.end - plan.first, plan.flags, g.(bytes := []), w0, source,
                          shared, segs);
    if !ok { return; }
    ok := FillSegment(vm, p.vaddr, image[p.offset..p.offset + p.filesz], g, w0, source, shared, segs);
    now := segs + [g];
  }

  /** One turn of the loop over the program headers. */
  method LoadHeader(vm: VirtualMemory, h: Header, image: Image, i: nat,
                    ghost w0: World, ghost source: nat, ghost shared: set<nat>, ghost segs: seq<Segment>)
    returns (ok: bool, ghost now: seq<Segment>)
    requires vm.Valid() && Loading(vm.ram.sharing, w0, vm.Snap(), source, shared, segs)
    requires h.phentsize == PROGRAM_HEADER_SIZE && i < 0x1_0000 && AllPlannable(h, image, i)
    requires segs == SegmentsOf(h, image, i)
    modifies vm`root, vm`initialized, vm.frames`free, vm.frames`freePageCount, vm.frames.bitmap, vm.ram
    ensures vm.Valid() && Loading(vm.ram.sharing, w0, vm.Snap(), source, shared, now)
    ensures ok ==> AllPlannable(h, image, i + 1) && now == SegmentsOf(h, image, i + 1)
    ensures !ok ==> !Plannable(h, image, i) || vm.frames.free == {}
  {
    now := segs;
    var p := ProgramHeaderFromImage(h, image, i);
    if p.None? { return false, now; }
    if IsLoadable(p.value) {
      if PlanLoadSegment(p.value, |image|).None? { return false, now; }
      ok, now := LoadSegment(vm, p.value, image, SegmentOf(p.value, image), w0, source, shared, segs);
      if !ok { return; }
    }
    ok := true;
    NextSegments(h, image, i);
  }

  lemma NextSegments(h: Header, image: Image, i: nat)
    requires h.phentsize == PROGRAM_HEADER_SIZE && i < 0x1_0000 && AllPlannable(h, image, i) && Plannable(h, image, i)
    ensures AllPlannable(h, image, i + 1)
    ensures var p := ProgramHeaderFromImage(h, image, i).value;
            SegmentsOf(h, image, i + 1) == SegmentsOf(h, image, i) + if IsLoadable(p) then [SegmentOf(p, image)] else []
  {}

  /** The loop over the program headers; fails only on a header that cannot be planned or without frames. */
  method LoadSegments(vm: VirtualMemory, h: Header, image: Image, ghost w0: World, ghost source: nat,
                      ghost shared: set<nat>)
    returns (ok: bool, ghost now: seq<Segment>)
    requires vm.Valid() && Loading(vm.ram.sharing, w0, vm.Snap(), source, shared, [])
    requires h.phentsize == PROGRAM_HEADER_SIZE && h.phnum < 0x1_0000
    modifies vm`root, vm`initialized, vm.frames`free, vm.frames`freePageCount, vm.frames.bitmap, vm.ram
    ensures vm.Valid() && Loading(vm.ram.sharing, w0, vm.Snap(), source, shared, now)
    ensures ok ==> AllPlannable(h, image, h.phnum) && now == SegmentsOf(h, image, h.phnum)
    ensures !ok ==> !AllPlannable(h, image, h.phnum) || vm.frames.free == {}
  {
    now := [];
    var i := 0;
    while i < h.phnum
      invariant i <= h.phnum && AllPlannable(h, image, i) && now == SegmentsOf(h, image, i)
      invariant vm.Valid() && Loading(vm.ram.sharing, w0, vm.Snap(), source, shared, now)
    {
      ok, now := LoadHeader(vm, h, image, i, w0, source, shared, now);
      if !ok { return; }
      i := i + 1;
    }
    ok := true;
  }

  lemma StackIsSegment()
    ensures IsSegment(StackSegment())
  {
    UserFlagsArePageFlags(true, true);
  }

  /** The new space right after the kernel's slots were cloned. */
  lemma LoadingEmpty(c: Sharing, w0: World, s: Space, source: nat, a: nat, b: nat)
    requires Sound(c, s.w) && IsRoot(s.w.owner, s.root) && USER_SLOT !in c.slots && a in c.slots && b in c.slots
    requires Extended(Space(w0, false, 0), s) && Shared(Space(w0, false, 0), s, source, {a, b}) && s.root !in w0.owner
    ensures Loading(c, w0, s, source, {a, b}, [])
  {
    forall v: nat | SLOT_FIRST <= v < SLOT_END ensures Look(s, v) == Unmapped {
      SlotPages(v);
    }
  }

  lemma LoadedOwnsLeaves(c: Sharing, w0: World, s: Space, source: nat, shared: set<nat>, segs: seq<Segment>)
    requires Loading(c, w0, s, source, shared, segs)
    ensures OwnsLeaves(c, s.w, s.root, USER_SLOT)
  {
    forall v: nat | v < VPN_LIMIT && Idx(v, 0) == USER_SLOT
      ensures var leaf := Walk(s.w.mem, s.root, v);
              leaf.Unmapped? || (leaf.Small? && leaf.frame in s.w.owner && s.w.owner[leaf.frame] == Role(s.root, 4, v))
    {
      SlotPages(v);
      assert PageHolds(s, v, Covering(segs, v));
    }
  }

  // ----- the whole load

  /** `header_from_image` and `validate_user_elf_image`: an executable whose entry point some segment holds. */
  ghost predicate IsUserElf(image: Image, h: Header)
  {
    && HeaderFromImage(image) == Some(h)
    && h.kind == TYPE_EXEC && h.machine == MACHINE_X86_64 && h.phnum < 0x1_0000
    && exists i: nat | i < h.phnum :: HoldsEntry(h, image, i) && forall j: nat | j <= i :: Plannable(h, image, j)
  }

  method ValidateImage(image: Image) returns (ok: bool, h: Header)
    ensures ok <==> HeaderFromImage(image).Some? && IsUserElf(image, HeaderFromImage(image).value)
    ensures ok ==> HeaderFromImage(image) == Some(h)
  {
    h := Header(0, 0, 0, 0, 0, 0, 0);
    var header := HeaderFromImage(image);
    if header.None? { return false, h; }
    h := header.value;
    if h.kind != TYPE_EXEC || h.machine != MACHINE_X86_64 { return false, h; }
    PhnumBound(image);
    ok := EntryPointInLoadableSegment(h, image);
  }

  lemma PhnumBound(image: Image)
    requires |image| >= HEADER_SIZE
    ensures HeaderAt(image).phnum < 0x1_0000
  {
    LittleEndianBound(image[56..58]);
    Pow2Add(8, 8);
    assert Pow2(8) == 256;
  }

  /** Segments and stack; on failure the segments loaded so far. */
  method LoadContents(vm: VirtualMemory, h: Header, image: Image, ghost w0: World, ghost source: nat,
                      ghost shared: set<nat>)
    returns (ok: bool, ghost now: seq<Segment>)
    requires vm.Valid() && Loading(vm.ram.sharing, w0, vm.Snap(), source, shared, [])
    requires h.phentsize == PROGRAM_HEADER_SIZE && h.phnum < 0x1_0000
    modifies vm`root, vm`initialized, vm.frames`free, vm.frames`freePageCount, vm.frames.bitmap, vm.ram
    ensures vm.Valid() && Loading(vm.ram.sharing, w0, vm.Snap(), source, shared, now)
    ensures ok ==> AllPlannable(h, image, h.phnum) && now == SegmentsOf(h, image, h.phnum) + [StackSegment()]
    ensures !ok ==> !AllPlannable(h, image, h.phnum) || vm.frames.free == {}
  {
    ok, now := LoadSegments(vm, h, image, w0, source, shared);
    if ok { ok, now := LoadStack(vm, w0, source, shared, now); }
  }

  method LoadStack(vm: VirtualMemory, ghost w0: World, ghost source: nat, ghost shared: set<nat>,
                   ghost segs: seq<Segment>)
    returns (ok: bool, ghost now: seq<Segment>)
    requires vm.Valid() && Loading(vm.ram.sharing, w0, vm.Snap(), source, shared, segs)
    modifies vm`root, vm`initialized, vm.frames`free, vm.frames`freePageCount, vm.frames.bitmap, vm.ram
    ensures vm.Valid() && Loading(vm.ram.sharing, w0, vm.Snap(), source, shared, now)
    ensures if ok then now == segs + [StackSegment()] else vm.frames.free == {}
  {
    ghost var g := StackSegment();
    var base, n, flags := STACK_BASE, STACK_PAGES, UserFlags(true, true);
    StackIsSegment();
    ok, now := MapSegment(vm, base, n, flags, g, w0, source, shared, segs);
    if ok { ok := StackMapped(vm, segs); }
  }

  /** The check that the initial stack slot translates, which always succeeds. */
  method StackMapped(vm: VirtualMemory, ghost segs: seq<Segment>) returns (ok: bool)
    requires vm.Valid() && vm.initialized && Holds(vm.Snap(), segs + [StackSegment()])
    ensures ok
  {
    VpnInside(USER_STACK_TOP - 8, SLOT_FIRST, SLOT_END);
    CoveringAppend(segs, StackSegment(), Vpn(USER_STACK_TOP - 8));
    assert PageHolds(vm.Snap(), Vpn(USER_STACK_TOP - 8), Covering(segs + [StackSegment()], Vpn(USER_STACK_TOP - 8)));
    var t := vm.TranslateAddress(USER_STACK_TOP - 8);
    ok := t.Mapped?;
  }

  /** The space that holds exactly the image: its segments in order, then the stack. */
  ghost predicate Loaded(c: Sharing, w0: World, s: Space, source: nat, shared: set<nat>, image: Image, h: Header)
  {
    && IsUserElf(image, h) && AllPlannable(h, image, h.phnum)
    && Loading(c, w0, s, source, shared, SegmentsOf(h, image, h.phnum) + [StackSegment()])
  }

  /** A partly loaded space `s` was destroyed, leaving the world `w`. */
  ghost predicate Abandoned(c: Sharing, w0: World, s: Space, w: World, source: nat, shared: set<nat>, image: Image,
                            h: Header,
                            pageCount: nat)
  {
    && IsUserElf(image, h)
    && (exists segs :: Loading(c, w0, s, source, shared, segs))
    && (AllPlannable(h, image, h.phnum) ==> s.w.free == {})
    && if s.root == 0 then w == s.w else SpaceDestroyed(c, s.w, w, s.root, pageCount)
  }

  /**
   `load_user_elf`.  It fails without effect on an image it does not accept or when no frame is left
   for the root; later failures, on a header that cannot be planned or for lack of frames, destroy
   the space built so far.
   */
  method LoadUserElf(frames: PageFrameContainer, ram: PhysicalMemory, kernelRoot: nat, kernelSlot: nat,
                     directSlot: nat, image: Image)
    returns (ok: bool, cr3: nat, entry: Word, userRsp: Word, ghost at: Space)
    requires frames.Valid() && Sound(ram.sharing, World(ram.mem, ram.owner, frames.free))
    requires kernelRoot % 4096 == 0 && IsRoot(ram.owner, kernelRoot / 4096) && USER_SLOT !in ram.sharing.slots
    requires kernelSlot in ram.sharing.slots && directSlot in ram.sharing.slots && kernelSlot < 512 && directSlot < 512
    modifies frames`free, frames`freePageCount, frames.bitmap, ram
    ensures frames.Valid()
    ensures ok ==> cr3 % 4096 == 0 && at == Space(World(ram.mem, ram.owner, frames.free), true, cr3 / 4096) &&
                   HeaderFromImage(image).Some? && var h := HeaderFromImage(image).value;
                   && Loaded(ram.sharing, old(World(ram.mem, ram.owner, frames.free)), at, kernelRoot / 4096,
                             {kernelSlot, directSlot}, image, h)
                   && entry == h.entry && userRsp == USER_STACK_TOP - 8
    ensures !ok ==> var h := HeaderFromImage(image); var w0 := old(World(ram.mem, ram.owner, frames.free));
                    if h.None? || !IsUserElf(image, h.value) ||
                        w0.free == {} then World(ram.mem, ram.owner, frames.free) == w0
                    else Abandoned(ram.sharing, w0, at, World(ram.mem, ram.owner, frames.free), kernelRoot / 4096,
                                   {kernelSlot, directSlot}, image, h.value, frames.pageCount)
  {
    cr3, entry, userRsp, at := 0, 0, 0, Space(World(ram.mem, ram.owner, frames.free), false, 0);
    var h;
    ok, h := ValidateImage(image);
    if !ok { return; }
    var vm := new VirtualMemory(frames, ram);
    ok := vm.CloneKernelMappings(kernelRoot, kernelSlot, directSlot);
    if !ok { return; }
    ghost var w0, source := old(World(ram.mem, ram.owner, frames.free)), kernelRoot / 4096;
    LoadingEmpty(ram.sharing, w0, vm.Snap(), source, kernelSlot, directSlot);
    ghost var segs;
    ok, segs := LoadContents(vm, h, image, w0, source, {kernelSlot, directSlot});
    at := vm.Snap();
    if !ok {
      LoadedOwnsLeaves(ram.sharing, w0, at, source, {kernelSlot, directSlot}, segs);
      var destroyed := DestroyUserAddressSpace(frames, ram, vm.root);
      return;
    }
    cr3, entry, userRsp := vm.root, h.entry, USER_STACK_TOP - 8;
  }
}

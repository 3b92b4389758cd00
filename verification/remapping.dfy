/**
 Changing and removing 4 KiB mappings: `protect` rewrites the flags of mapped pages, `free` unmaps
 pages and gives their frames back.
 */
module Remapping {
  import opened Word64
  import opened Entries
  import opened Paging
  import opened UserAccess
  import opened PageFrames
  import opened VirtualMemories
  import opened Teardown

  // ----- protect

  /** Pages `[lo, lo + n)` keep their frames and have `flags` and Present; no other page of any space changed. */
  ghost predicate Protected(c: Sharing, s: Space, s': Space, lo: nat, n: nat, flags: Word)
  {
    && Extended(s, s')
    && (forall u: nat | lo <= u < lo + n ::
        Look(s, u).Small? && Look(s', u) == Small(Look(s, u).frame, BitOr(flags, PRESENT)))
    && (forall u: nat | u < VPN_LIMIT && !(lo <= u < lo + n) :: Look(s', u) == Look(s, u))
    && OthersKept(c, s.w, s'.w, s'.root, lo, lo + n)
  }

  /** And the entries above are as before. */
  ghost predicate Rewritten(c: Sharing, s: Space, s': Space, lo: nat, n: nat, flags: Word)
  {
    Protected(c, s, s', lo, n, flags) && PathsKept(s.w.owner, s.w.mem, s'.w.mem, false)
  }

  lemma ProtectedNone(c: Sharing, s: Space, lo: nat, flags: Word)
    ensures Protected(c, s, s, lo, 0, flags)
  {}

  lemma ProtectedStays(c: Sharing, s0: Space, s1: Space, s2: Space, lo: nat, n: nat, flags: Word)
    requires Protected(c, s0, s1, lo, n, flags) && Unmoved(s1, s2) && lo + n <= VPN_LIMIT
    ensures Protected(c, s0, s2, lo, n, flags)
  {
    GrewTransitive(s0.w, s1.w, s2.w);
    if n > 0 { assert Look(s1, lo).Small?; }
    assert OthersKept(c, s0.w, s1.w, s2.root, lo, lo + n);
    KeptThenSame(c, s0.w, s1.w, s2.w, s2.root, lo, lo + n);
  }

  lemma ProtectedOne(c: Sharing, s0: Space, s1: Space, s2: Space, v: nat, f: nat, flags: Word)
    requires v < VPN_LIMIT && Unmoved(s0, s1) && s1.live && IsRoot(s1.w.owner, s1.root)
    requires s2.live && s2.root == s1.root && Grew(s1.w, s2.w) && OthersKept(c, s1.w, s2.w, s1.root, v, v + 1)
    requires Look(s1, v).Small? && Look(s1, v).frame == f && Look(s2, v) == Small(f, BitOr(flags, PRESENT))
    ensures Protected(c, s0, s2, v, 1, flags)
  {
    GrewTransitive(s0.w, s1.w, s2.w);
    KeptAfterSame(c, s0.w, s1.w, s2.w, s1.root, v, v + 1);
    forall u: nat | u < VPN_LIMIT && u != v ensures Look(s2, u) == Look(s0, u) {
      assert Walk(s2.w.mem, s1.root, u) == Walk(s1.w.mem, s1.root, u);
    }
  }

  lemma ProtectedStep(c: Sharing, s0: Space, s1: Space, s2: Space, lo: nat, i: nat, v: nat, flags: Word)
    requires v == lo + i < VPN_LIMIT && s2.live
    requires Protected(c, s0, s1, lo, i, flags) && Protected(c, s1, s2, v, 1, flags)
    ensures Protected(c, s0, s2, lo, i + 1, flags)
  {
    GrewTransitive(s0.w, s1.w, s2.w);
    assert Look(s1, v) == Look(s0, v);
    assert OthersKept(c, s0.w, s1.w, s2.root, lo, v);
    KeptTransitive(c, s0.w, s1.w, s2.w, s2.root, lo, v, v + 1);
  }

  /** The leaf word of a page whose lowest-level table is `table`. */
  lemma LeafWord(vm: VirtualMemory, va: Word, table: nat, e: Word)
    requires vm.initialized && Descend(vm.ram.mem, vm.root / 4096, Vpn(va), 3) == Table(table)
    requires e == Entry(vm.ram.mem, table, PageIndex(va, 12))
    ensures Look(vm.Snap(), Vpn(va)) == if e == 0 then Unmapped else Small(EntryFrame(e), EntryFlags(e))
  {
    IndexIsIdx(va);
  }

  method ProtectPage(vm: VirtualMemory, va: Word, flags: Word, ghost v: nat) returns (ok: bool)
    requires vm.Valid() && v == Vpn(va) && !Look(vm.Snap(), v).Large? && IsPageFlags(flags)
    modifies vm`root, vm`initialized, vm.frames`free, vm.frames`freePageCount, vm.frames.bitmap, vm.ram
    ensures vm.Valid()
    ensures if ok then vm.initialized && Protected(vm.ram.sharing, old(vm.Snap()), vm.Snap(), v, 1, flags)
            else Unmoved(old(vm.Snap()), vm.Snap()) && Look(old(vm.Snap()), v) == Unmapped
    ensures PathsKept(old(vm.ram.owner), old(vm.ram.mem), vm.ram.mem, false)
  {
    var table;
    ok, table := vm.WalkToLeaf(va, false, false);
    if !ok { return; }
    ghost var s := vm.Snap();
    var e := Entry(vm.ram.mem, table, PageIndex(va, 12));
    LeafWord(vm, va, table, e);
    if e == 0 { return false; }
    FrameBound(e);
    WithPresent(flags);
    EntryRoundTrip(EntryFrame(e), BitOr(flags, PRESENT));
    vm.WriteLeaf(va, table, MakeEntry(BitAnd(e, ADDRESS_MASK), BitOr(flags, PRESENT)));
    ProtectedOne(vm.ram.sharing, old(vm.Snap()), s, vm.Snap(), v, EntryFrame(e), flags);
    PathsKeptOn(old(vm.ram.owner), s.w.owner, old(vm.ram.mem), s.w.mem, vm.ram.mem, false);
  }

  /**
   `protect`: the first `done` pages are changed; it fails midway exactly at an unmapped page.  The
   entries above are left alone, whatever the new flags say.
   */
  method Protect(vm: VirtualMemory, va: Word, n: nat, flags: Word) returns (ok: bool, done: nat)
    requires vm.Valid() && IsPageFlags(flags) && Vpn(va) + n <= VPN_LIMIT
    requires forall u: nat | Vpn(va) <= u < Vpn(va) + n :: !Look(vm.Snap(), u).Large?
    modifies vm`root, vm`initialized, vm.frames`free, vm.frames`freePageCount, vm.frames.bitmap, vm.ram
    ensures vm.Valid() && done <= n && Protected(vm.ram.sharing, old(vm.Snap()), vm.Snap(), Vpn(va), done, flags)
    ensures PathsKept(old(vm.ram.owner), old(vm.ram.mem), vm.ram.mem, false)
    ensures ok <==> n != 0 && va % 4096 == 0 && done == n
    ensures !ok && n != 0 && va % 4096 == 0 ==> done < n && Look(old(vm.Snap()), Vpn(va) + done) == Unmapped
  {
    ok, done := false, 0;
    ghost var s0 := vm.Snap();
    ProtectedNone(vm.ram.sharing, s0, Vpn(va), flags);
    if n != 0 && va % 4096 == 0 {
      ghost var next;
      done, next := ProtectPages(vm, s0, va, Vpn(va), n, flags);
      assert next == Vpn(va) + done;
      ok := done == n;
    }
  }

  method ProtectPages(vm: VirtualMemory, ghost s0: Space, va: Word, ghost lo: nat, n: nat, flags: Word)
    returns (i: nat, ghost next: nat)
    requires lo == Vpn(va) && vm.Valid() && IsPageFlags(flags) && lo + n <= VPN_LIMIT
    requires Rewritten(vm.ram.sharing, s0, vm.Snap(), lo, 0, flags)
    requires forall u: nat | lo <= u < lo + n :: !Look(s0, u).Large?
    modifies vm`root, vm`initialized, vm.frames`free, vm.frames`freePageCount, vm.frames.bitmap, vm.ram
    ensures vm.Valid() && i <= n && Rewritten(vm.ram.sharing, s0, vm.Snap(), lo, i, flags)
    ensures next == lo + i && (i < n ==> Look(s0, next) == Unmapped)
  {
    i, next := 0, lo;
    var changed := true;
    while changed && i < n
      invariant i <= n && next == lo + i && vm.Valid() && (changed && i > 0 ==> vm.initialized)
      invariant Rewritten(vm.ram.sharing, s0, vm.Snap(), lo, i, flags)
      invariant changed || Look(s0, next) == Unmapped
      decreases n - i, changed
    {
      ghost var m := i + 1;
      changed := ProtectNext(vm, s0, va, lo, i, flags, next, m);
      if changed { i, next := i + 1, next + 1; }
    }
  }

  method ProtectNext(vm: VirtualMemory, ghost s0: Space, va: Word, ghost lo: nat, i: nat, flags: Word, ghost v: nat,
                     ghost m: nat)
    returns (ok: bool)
    requires m == i + 1
    requires lo == Vpn(va) && v == lo + i && v < VPN_LIMIT && !Look(s0, v).Large? && (i > 0 ==> vm.initialized)
    requires vm.Valid() && IsPageFlags(flags) && Rewritten(vm.ram.sharing, s0, vm.Snap(), lo, i, flags)
    modifies vm`root, vm`initialized, vm.frames`free, vm.frames`freePageCount, vm.frames.bitmap, vm.ram
    ensures vm.Valid()
    ensures if ok then vm.initialized && Rewritten(vm.ram.sharing, s0, vm.Snap(), lo, m, flags)
            else Rewritten(vm.ram.sharing, s0, vm.Snap(), lo, i, flags) && Look(s0, v) == Unmapped
  {
    PageStep(va, i, i + 1);
    ghost var s := vm.Snap();
    ok := ProtectPage(vm, va + i * 4096, flags, v);
    PathsKeptOn(s0.w.owner, s.w.owner, s0.w.mem, s.w.mem, vm.ram.mem, false);
    if ok {
      ProtectedStep(vm.ram.sharing, s0, s, vm.Snap(), lo, i, v, flags);
    } else {
      ProtectedStays(vm.ram.sharing, s0, s, vm.Snap(), lo, i, flags);
    }
  }

  /** After `protect` user mode may do what the flags say, exactly if the entries above were user-visible before. */
  lemma ProtectedMay(c: Sharing, s: Space, s': Space, lo: nat, n: nat, flags: Word, u: nat, write: bool, fetch: bool)
    requires Sound(c, s.w) && Sound(c, s'.w) && IsRoot(s.w.owner, s.root) && s.live && lo + n <= VPN_LIMIT
    requires Protected(c, s, s', lo, n, flags) && PathsKept(s.w.owner, s.w.mem, s'.w.mem, false) && lo <= u < lo + n
    ensures UserMay(s'.w.mem, s'.root, u, write, fetch) <==>
              UserPath(s.w.mem, s.root, u) && HasUser(flags) && (write ==> Bit(flags, 1)) && (fetch ==> !Bit(flags, 63))
  {
    assert Look(s', u) == Small(Look(s, u).frame, BitOr(flags, PRESENT));
    MayIs(c, s'.w.mem, s'.w.owner, s'.root, u, write, fetch);
    FlagsMay(flags, write, fetch);
    assert PathKept(s.w.mem, s'.w.mem, s.root, u, false);
  }

  // ----- free

  /** Page `u` is unmapped or maps a data page of its own. */
  ghost predicate OwnOrNone(c: Sharing, s: Space, u: nat)
  {
    var leaf := Look(s, u);
    leaf.Unmapped? || (leaf.Small? && leaf.frame in s.w.owner && s.w.owner[leaf.frame] == RoleOn(c, s.root, u, 4))
  }

  /** The frames behind pages `[lo, lo + n)`. */
  ghost function FramesOf(s: Space, lo: nat, n: nat): set<nat>
  {
    if n == 0 then {}
    else FramesOf(s, lo, n - 1) + if Look(s, lo + n - 1).Unmapped? then {} else {Look(s, lo + n - 1).frame}
  }

  /**
   Pages `[lo, lo + n)` were mapped and are not any more; their tracked frames are free; no other
   page of any space changed.
   */
  ghost predicate Removed(c: Sharing, s: Space, s': Space, lo: nat, n: nat, pageCount: nat)
  {
    TakenOut(c, s, s', lo, n, FramesOf(s, lo, n), pageCount)
  }

  ghost predicate TakenOut(c: Sharing, s: Space, s': Space, lo: nat, n: nat, fs: set<nat>, pageCount: nat)
  {
    && s'.live == s.live && s'.root == s.root
    && s'.w.free == s.w.free + Tracked(fs, pageCount) && s'.w.owner == s.w.owner - fs && |s'.w.mem| == |s.w.mem|
    && (forall u: nat | lo <= u < lo + n :: Look(s, u).Small? && Look(s', u) == Unmapped)
    && (forall u: nat | u < VPN_LIMIT && !(lo <= u < lo + n) :: Look(s', u) == Look(s, u))
    && OthersKept(c, s.w, s'.w, s.root, lo, lo + n)
  }

  lemma FramesMore(s: Space, lo: nat, n: nat, v: nat)
    requires v == lo + n && Look(s, v).Small?
    ensures FramesOf(s, lo, n + 1) == FramesOf(s, lo, n) + {Look(s, v).frame}
  {}

  lemma FramesOne(s: Space, v: nat)
    requires Look(s, v).Small?
    ensures FramesOf(s, v, 1) == {Look(s, v).frame}
  {
    FramesMore(s, v, 0, v);
  }

  /** Giving back a data page leaves all tables as they are. */
  lemma DataGone(c: Sharing, w: World, f: nat, pageCount: nat)
    requires Sound(c, w) && f in w.owner && w.owner[f].depth == 4
    ensures Sound(c, World(w.mem, w.owner - {f}, w.free + Tracked({f}, pageCount)))
  {
    var owner' := w.owner - {f};
    forall t: nat, i: nat | i < 512 && LeadsDown(w.mem, owner', t, i)
      ensures Hooked(c, w.mem, owner', t, i)
    {
      assert LeadsDown(w.mem, w.owner, t, i);
    }
  }

  lemma RemovedNone(c: Sharing, s: Space, lo: nat, pageCount: nat)
    ensures Removed(c, s, s, lo, 0, pageCount)
  {
    assert s.w.owner - {} == s.w.owner;
  }

  lemma RemovedOne(c: Sharing, s: Space, w1: World, s2: Space, v: nat, f: nat, pageCount: nat)
    requires v < VPN_LIMIT && s.live && Look(s, v).Small? && Look(s, v).frame == f && f in s.w.owner
    requires s.w.owner[f].depth == 4
    requires w1 == World(s.w.mem, s.w.owner - {f}, s.w.free + Tracked({f}, pageCount)) && IsRoot(s.w.owner, s.root)
    requires s2.live && s2.root == s.root && s2.w.owner == w1.owner && s2.w.free == w1.free && |s2.w.mem| == |s.w.mem|
    requires OthersKept(c, w1, s2.w, s.root, v, v + 1) && Look(s2, v) == Unmapped
    ensures Removed(c, s, s2, v, 1, pageCount)
  {
    FramesOne(s, v);
    forall r: nat, u: nat | IsRoot(s.w.owner, r) && u < VPN_LIMIT &&
        !(v <= u < v + 1 && (r == s.root || Idx(u, 0) in c.slots))
      ensures Walk(s2.w.mem, r, u) == Walk(s.w.mem, r, u)
    {
      assert IsRoot(w1.owner, r);
    }
  }

  /** Two pages of a space never own the same frame. */
  lemma {:induction false} NotAmong(c: Sharing, s: Space, lo: nat, n: nat, v: nat)
    requires lo + n <= v < VPN_LIMIT && Look(s, v).Small? && OwnOrNone(c, s, v)
    requires forall u: nat | lo <= u < lo + n :: OwnOrNone(c, s, u)
    ensures Look(s, v).frame !in FramesOf(s, lo, n)
    decreases n
  {
    if n > 0 {
      NotAmong(c, s, lo, n - 1, v);
      assert OwnOrNone(c, s, lo + n - 1);
      PrefixIsAll(v);
      PrefixIsAll(lo + n - 1);
    }
  }

  lemma RemovedTwice(w0: World, w1: World, w2: World, a: set<nat>, b: set<nat>, pageCount: nat)
    requires w1.free == w0.free + Tracked(a, pageCount) && w1.owner == w0.owner - a
    requires w2.free == w1.free + Tracked(b, pageCount) && w2.owner == w1.owner - b
    ensures w2.free == w0.free + Tracked(a + b, pageCount) && w2.owner == w0.owner - (a + b)
  {
    TrackedUnion(a, b, pageCount);
  }

  lemma RemovedStep(c: Sharing, s0: Space, s1: Space, s2: Space, lo: nat, i: nat, v: nat, pageCount: nat)
    requires v == lo + i < VPN_LIMIT && Removed(c, s0, s1, lo, i, pageCount) && Removed(c, s1, s2, v, 1, pageCount)
    requires forall f | f in FramesOf(s0, lo, i) && f in s0.w.owner :: s0.w.owner[f].depth == 4
    ensures Removed(c, s0, s2, lo, i + 1, pageCount)
  {
    assert Look(s1, v) == Look(s0, v);
    FramesOne(s1, v);
    FramesMore(s0, lo, i, v);
    TakenOutStep(c, s0, s1, s2, lo, i, v, FramesOf(s0, lo, i), {Look(s0, v).frame}, pageCount);
  }

  lemma TakenOutStep(c: Sharing, s0: Space, s1: Space, s2: Space, lo: nat, i: nat, v: nat, a: set<nat>, b: set<nat>,
                     pageCount: nat)
    requires v == lo + i < VPN_LIMIT && TakenOut(c, s0, s1, lo, i, a, pageCount)
    requires TakenOut(c, s1, s2, v, 1, b, pageCount)
    requires forall f | f in a && f in s0.w.owner :: s0.w.owner[f].depth == 4
    ensures TakenOut(c, s0, s2, lo, i + 1, a + b, pageCount)
  {
    assert Look(s1, v) == Look(s0, v);
    RemovedTwice(s0.w, s1.w, s2.w, a, b, pageCount);
    forall r: nat, u: nat | IsRoot(s0.w.owner, r) && u < VPN_LIMIT &&
        !(lo <= u < lo + i + 1 && (r == s0.root || Idx(u, 0) in c.slots))
      ensures Walk(s2.w.mem, r, u) == Walk(s0.w.mem, r, u)
    {
      assert IsRoot(s1.w.owner, r);
      assert Walk(s1.w.mem, r, u) == Walk(s0.w.mem, r, u);
    }
  }

  lemma {:induction false} DataFrames(c: Sharing, s: Space, lo: nat, n: nat)
    requires forall u: nat | lo <= u < lo + n :: OwnOrNone(c, s, u)
    ensures forall f | f in FramesOf(s, lo, n) :: f in s.w.owner && s.w.owner[f].depth == 4
    decreases n
  {
    if n > 0 {
      DataFrames(c, s, lo, n - 1);
      assert OwnOrNone(c, s, lo + n - 1);
    }
  }

  /** Unmap one page and give its frame back. */
  method FreeOne(vm: VirtualMemory, va: Word, ghost v: nat, ghost s: Space, ghost count: nat) returns (ok: bool)
    requires vm.Valid() && vm.initialized && vm.frames.initialized && v == Vpn(va) && s == vm.Snap()
    requires count == vm.frames.pageCount
    requires OwnOrNone(vm.ram.sharing, s, v)
    modifies vm`root, vm`initialized, vm.frames`free, vm.frames`freePageCount, vm.frames.bitmap, vm.ram
    ensures vm.Valid() && vm.initialized
    ensures if ok then Removed(vm.ram.sharing, s, vm.Snap(), v, 1, count) else vm.Snap() == s && Look(s, v) == Unmapped
  {
    var table;
    ok, table := vm.WalkToLeaf(va, false, false);
    if !ok { return; }
    var e := Entry(vm.ram.mem, table, PageIndex(va, 12));
    LeafWord(vm, va, table, e);
    if e == 0 { return false; }
    DataGone(vm.ram.sharing, s.w, EntryFrame(e), count);
    FreeNamed(vm.frames, e);
    vm.ram.owner := vm.ram.owner - {EntryFrame(e)};
    ghost var w1 := vm.State();
    vm.WriteLeaf(va, table, 0);
    RemovedOne(vm.ram.sharing, s, w1, vm.Snap(), v, EntryFrame(e), count);
  }

  /** `free`: the first `done` pages are unmapped; it fails midway exactly at a page that was not mapped. */
  method FreeRange(vm: VirtualMemory, va: Word, n: nat) returns (ok: bool, done: nat)
    requires vm.Valid() && vm.initialized && vm.frames.initialized && Vpn(va) + n <= VPN_LIMIT
    requires forall u: nat | Vpn(va) <= u < Vpn(va) + n :: OwnOrNone(vm.ram.sharing, vm.Snap(), u)
    modifies vm`root, vm`initialized, vm.frames`free, vm.frames`freePageCount, vm.frames.bitmap, vm.ram
    ensures vm.Valid() && vm.initialized && done <= n
    ensures Removed(vm.ram.sharing, old(vm.Snap()), vm.Snap(), Vpn(va), done, vm.frames.pageCount)
    ensures ok <==> n != 0 && va % 4096 == 0 && done == n
    ensures !ok && n != 0 && va % 4096 == 0 ==> done < n && Look(old(vm.Snap()), Vpn(va) + done) == Unmapped
  {
    ok, done := false, 0;
    ghost var s0, count := vm.Snap(), vm.frames.pageCount;
    RemovedNone(vm.ram.sharing, s0, Vpn(va), count);
    if n != 0 && va % 4096 == 0 {
      ghost var next;
      done, next := FreePages(vm, s0, va, Vpn(va), n, count);
      assert next == Vpn(va) + done;
      ok := done == n;
    }
  }

  method FreePages(vm: VirtualMemory, ghost s0: Space, va: Word, ghost lo: nat, n: nat, ghost count: nat)
    returns (i: nat, ghost next: nat)
    requires lo == Vpn(va) && vm.Valid() && vm.initialized && vm.frames.initialized && lo + n <= VPN_LIMIT
    requires count == vm.frames.pageCount
    requires Removed(vm.ram.sharing, s0, vm.Snap(), lo, 0, count)
    requires forall u: nat | lo <= u < lo + n :: OwnOrNone(vm.ram.sharing, s0, u)
    modifies vm`root, vm`initialized, vm.frames`free, vm.frames`freePageCount, vm.frames.bitmap, vm.ram
    ensures vm.Valid() && vm.initialized && i <= n && Removed(vm.ram.sharing, s0, vm.Snap(), lo, i, count)
    ensures next == lo + i && (i < n ==> Look(s0, next) == Unmapped)
  {
    i, next := 0, lo;
    var freed := true;
    while freed && i < n
      invariant i <= n && next == lo + i && vm.Valid() && vm.initialized && vm.frames.initialized
      invariant Removed(vm.ram.sharing, s0, vm.Snap(), lo, i, count)
      invariant freed || Look(s0, next) == Unmapped
      decreases n - i, freed
    {
      freed := FreeNext(vm, s0, va, lo, i, count, next);
      if freed { i, next := i + 1, next + 1; }
    }
  }

  method FreeNext(vm: VirtualMemory, ghost s0: Space, va: Word, ghost lo: nat, i: nat, ghost count: nat, ghost v: nat)
    returns (ok: bool)
    requires lo == Vpn(va) && vm.Valid() && vm.initialized && vm.frames.initialized && v < VPN_LIMIT
    requires count == vm.frames.pageCount
    requires v == lo + i && Removed(vm.ram.sharing, s0, vm.Snap(), lo, i, count)
    requires forall u: nat | lo <= u <= v :: OwnOrNone(vm.ram.sharing, s0, u)
    modifies vm`root, vm`initialized, vm.frames`free, vm.frames`freePageCount, vm.frames.bitmap, vm.ram
    ensures vm.Valid() && vm.initialized
    ensures if ok then Removed(vm.ram.sharing, s0, vm.Snap(), lo, i + 1, count)
            else Removed(vm.ram.sharing, s0, vm.Snap(), lo, i, count) && Look(s0, v) == Unmapped
  {
    PageStep(va, i, i + 1);
    ghost var s := vm.Snap();
    StillOwn(vm.ram.sharing, s0, s, lo, i, v, count);
    DataFrames(vm.ram.sharing, s0, lo, i);
    ok := FreeOne(vm, va + i * 4096, v, s, count);
    if ok { RemovedStep(vm.ram.sharing, s0, s, vm.Snap(), lo, i, v, count); }
  }

  /** The pages still to be freed own their frames as before. */
  lemma StillOwn(c: Sharing, s0: Space, s: Space, lo: nat, i: nat, v: nat, pageCount: nat)
    requires v == lo + i < VPN_LIMIT && Removed(c, s0, s, lo, i, pageCount)
    requires forall u: nat | lo <= u <= v :: OwnOrNone(c, s0, u)
    ensures OwnOrNone(c, s, v) && Look(s, v) == Look(s0, v)
  {
    assert OwnOrNone(c, s0, v);
    if Look(s0, v).Small? { NotAmong(c, s0, lo, i, v); }
  }

  /** Freeing what was just allocated and mapped unmaps the pages again and returns every tracked frame behind them. */
  lemma FreeUndoesAllocate(c: Sharing, s0: Space, s1: Space, s2: Space, lo: nat, n: nat, flags: Word, pageCount: nat,
                           u: nat)
    requires FreshRun(c, s0, s1, lo, n, flags) && Removed(c, s1, s2, lo, n, pageCount) && lo <= u < lo + n
    requires lo + n <= VPN_LIMIT
    requires forall f | f in s0.w.free :: f < pageCount
    ensures Look(s2, u) == Unmapped && Look(s1, u).frame in s0.w.free && Look(s1, u).frame in s2.w.free
  {
    assert FreshPage(c, s0.w, s1, u, flags);
    FrameAmong(s1, lo, n, u);
  }

  lemma {:induction false} FrameAmong(s: Space, lo: nat, n: nat, u: nat)
    requires lo <= u < lo + n && !Look(s, u).Unmapped?
    ensures Look(s, u).frame in FramesOf(s, lo, n)
    decreases n
  {
    if u < lo + n - 1 { FrameAmong(s, lo, n - 1, u); }
  }
}

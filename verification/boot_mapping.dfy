/**
 The direct map: physical page `p` appears at virtual page `base + p`.  `map_direct_range` extends
 it with 2 MiB blocks where both addresses are block-aligned and the block fits, and with 4 KiB
 pages elsewhere, skipping what it believes is mapped already.
 */
module BootMapping {
  import opened Word64
  import opened Entries
  import opened Paging
  import opened UserAccess
  import opened PageFrames
  import opened VirtualMemories

  /** Every mapped page of the window `[b, b + size)` is at the direct map's offset. */
  ghost predicate Direct(s: Space, b: nat, size: nat)
  {
    forall u: nat | b <= u < b + size :: Look(s, u).Unmapped? || Look(s, u).frame == u - b
  }

  /** Page `u` lies in the 2 MiB block from `k`, which starts and ends inside `[lo, hi)` with both addresses aligned. */
  predicate InWholeBlock(b: nat, lo: nat, hi: nat, u: nat)
  {
    b % 512 == 0 && lo <= u - u % 512 && u - u % 512 + 512 <= hi
  }

  /**
   The pages the sweep leaves unmapped: only the first and the last page of a block are looked at,
   so a block that had both but not the page in between is skipped.
   */
  predicate Hole(s: Space, b: nat, lo: nat, hi: nat, u: nat)
  {
    && InWholeBlock(b, lo, hi, u)
    && Look(s, u).Unmapped?
    && !Look(s, u - u % 512).Unmapped?
    && !Look(s, u - u % 512 + 511).Unmapped?
  }

  /** Present, Write and NoExecute, and not User. */
  predicate KernelData(flags: Word)
  {
    Bit(flags, 0) && Bit(flags, 1) && !Bit(flags, 2) && Bit(flags, 63)
  }

  /** The page translates as before, or was mapped as kernel data. */
  predicate KeptOrData(was: Leaf, now: Leaf)
  {
    now == was || (!now.Unmapped? && KernelData(now.flags))
  }

  /** Flags whose 4 KiB and 2 MiB leaves are kernel data. */
  ghost predicate DirectOnly(flags: Word)
  {
    IsPageFlags(flags) && KernelData(BitOr(flags, PRESENT)) && KernelData(BlockFlags(flags))
  }

  /** The sweep of `[lo, hi)` has reached `cur`. */
  ghost predicate Swept(c: Sharing, s0: Space, s: Space, b: nat, size: nat, lo: nat, cur: nat, hi: nat)
  {
    && Extended(s0, s) && Direct(s, b, size) && (lo < cur ==> s.live)
    && (forall u: nat | b <= u < b + size && !Look(s0, u).Unmapped? :: !Look(s, u).Unmapped?)
    && (forall u: nat | lo <= u < cur :: Look(s, u).Unmapped? <==> Hole(s0, b, lo, hi, u))
    && (forall u: nat | lo <= u < cur :: KeptOrData(Look(s0, u), Look(s, u)))
    && (forall u: nat | u < VPN_LIMIT && !(lo <= u < cur) :: Look(s, u) == Look(s0, u))
    && OthersKept(c, s0.w, s.w, s.root, lo, cur)
  }

  /** The sweep never stands strictly inside a block it should have taken whole. */
  predicate AtStep(b: nat, lo: nat, cur: nat, hi: nat)
  {
    InWholeBlock(b, lo, hi, cur) ==> cur % 512 == 0
  }

  lemma SweptNone(c: Sharing, s: Space, b: nat, size: nat, lo: nat, hi: nat)
    requires Direct(s, b, size)
    ensures Swept(c, s, s, b, size, lo, lo, hi) && AtStep(b, lo, lo, hi)
  {}

  /** Pages already mapped, or left as a hole, move the sweep on without a change. */
  lemma SweptSkip(c: Sharing, s0: Space, s: Space, b: nat, size: nat, lo: nat, cur: nat, next: nat, hi: nat)
    requires Swept(c, s0, s, b, size, lo, cur, hi) && s.live && lo <= cur <= next <= VPN_LIMIT
    requires forall u: nat | cur <= u < next :: Look(s, u).Unmapped? <==> Hole(s0, b, lo, hi, u)
    ensures Swept(c, s0, s, b, size, lo, next, hi)
  {}

  lemma SweptPage(c: Sharing, s0: Space, s: Space, s': Space, b: nat, size: nat, lo: nat, cur: nat, next: nat,
                  hi: nat, f: nat, flags: Word)
    requires Swept(c, s0, s, b, size, lo, cur, hi) && next == cur + 1 && b <= lo <= cur
    requires next <= hi <= b + size <= VPN_LIMIT
    requires f == cur - b && MappedRun(c, s, s', cur, 1, f, flags) && DirectOnly(flags)
    requires forall u: nat | cur <= u < next :: !Hole(s0, b, lo, hi, u)
    ensures Swept(c, s0, s', b, size, lo, next, hi)
  {
    GrewTransitive(s0.w, s.w, s'.w);
    assert OthersKept(c, s0.w, s.w, s'.root, lo, cur);
    KeptTransitive(c, s0.w, s.w, s'.w, s'.root, lo, cur, next);
  }

  lemma SweptBlock(c: Sharing, s0: Space, s: Space, s': Space, b: nat, size: nat, lo: nat, cur: nat, next: nat,
                   hi: nat, f: nat, flags: Word)
    requires Swept(c, s0, s, b, size, lo, cur, hi) && next == cur + 512 && b <= lo <= cur
    requires next <= hi <= b + size <= VPN_LIMIT
    requires f == cur - b && MappedBlock(c, s, s', cur, f, flags) && DirectOnly(flags)
    requires forall u: nat | cur <= u < next :: !Hole(s0, b, lo, hi, u)
    ensures Swept(c, s0, s', b, size, lo, next, hi)
  {
    GrewTransitive(s0.w, s.w, s'.w);
    assert OthersKept(c, s0.w, s.w, s'.root, lo, cur);
    KeptTransitive(c, s0.w, s.w, s'.w, s'.root, lo, cur, next);
  }

  lemma SweptStays(c: Sharing, s0: Space, s: Space, s': Space, b: nat, size: nat, lo: nat, cur: nat, hi: nat)
    requires Swept(c, s0, s, b, size, lo, cur, hi) && Unmoved(s, s') && b <= lo <= cur <= hi <= b + size <= VPN_LIMIT
    ensures Swept(c, s0, s', b, size, lo, cur, hi)
  {
    GrewTransitive(s0.w, s.w, s'.w);
    assert OthersKept(c, s0.w, s.w, s'.root, lo, cur);
    KeptThenSame(c, s0.w, s.w, s'.w, s'.root, lo, cur);
  }

  // ----- which pages of a block are holes

  lemma BlockPages(cur: nat, u: nat)
    requires cur % 512 == 0 && cur <= u < cur + 512
    ensures u - u % 512 == cur
  {}

  lemma NextStep(b: nat, lo: nat, cur: nat, hi: nat)
    requires AtStep(b, lo, cur, hi) && cur < hi
    ensures !(cur % 512 == 0 && InWholeBlock(b, lo, hi, cur)) ==> AtStep(b, lo, cur + 1, hi)
    ensures cur % 512 == 0 ==> AtStep(b, lo, cur + 512, hi)
  {
    if (cur + 1) % 512 != 0 { assert (cur + 1) - (cur + 1) % 512 == cur - cur % 512; }
  }

  /** Present, Write and NoExecute. */
  const DIRECT_FLAGS: Word := 0x8000_0000_0000_0003

  lemma DirectFlags(flags: Word)
    requires flags == DIRECT_FLAGS
    ensures DirectOnly(flags)
  {
    forall i: nat | i < 64
      ensures Bit(flags, i) <==> i == 0 || i == 1 || i == 63
      ensures Bit(BitOr(flags, PRESENT), i) == Bit(flags, i)
      ensures i != 7 ==> Bit(BlockFlags(flags), i) == Bit(flags, i)
    {
      DirectFlag(flags, NO_EXECUTE, 3, i);
      OrBit(flags, PRESENT, i);
      PresentBit(i);
      OrBit(BitOr(flags, PRESENT), LARGE_PAGE, i);
      LargePageBit(i);
    }
  }

  lemma DirectFlag(flags: Word, top: Word, low: Word, i: nat)
    requires top == NO_EXECUTE && low == 3 && flags == top + low && i < 64
    ensures Bit(flags, i) <==> i == 0 || i == 1 || i == 63
  {
    Powers();
    TopBitBeside(top, low, i);
    assert Pow2(2) == 4;
    if i >= 2 { HighBits(low, 2, i); }
  }

  /** `page_is_already_mapped` on page-aligned addresses. */
  method PageIsAlreadyMapped(vm: VirtualMemory, va: Word, pa: Word, ghost v: nat) returns (r: bool)
    requires vm.Valid() && v == Vpn(va) && va % 4096 == 0 && pa % 4096 == 0
    ensures r <==> !Look(vm.Snap(), v).Unmapped? && Look(vm.Snap(), v).frame == pa / 4096
  {
    var t := vm.TranslateAddress(va);
    r := t.Mapped? && t.physical == pa;
  }

  /** One 4 KiB step of the sweep at physical page `p`, virtual page `v`. */
  method DirectPage(vm: VirtualMemory, base: Word, p: nat, flags: Word, ghost v: nat, ghost b: nat,
                    ghost s0: Space, ghost size: nat, ghost lo: nat, ghost hi: nat, ghost next: nat)
    returns (ok: bool)
    requires vm.Valid() && DirectOnly(flags) && base % 4096 == 0 && b == Vpn(base) && v == b + p && next == v + 1
    requires b <= lo <= v < hi <= b + size <= VPN_LIMIT && size <= FRAME_LIMIT
    requires Swept(vm.ram.sharing, s0, vm.Snap(), b, size, lo, v, hi) && AtStep(b, lo, v, hi)
    requires !(v % 512 == 0 && InWholeBlock(b, lo, hi, v))
    modifies vm`root, vm`initialized, vm.frames`free, vm.frames`freePageCount, vm.frames.bitmap, vm.ram
    ensures vm.Valid()
    ensures ok ==> Swept(vm.ram.sharing, s0, vm.Snap(), b, size, lo, next, hi)
    ensures !ok ==> Swept(vm.ram.sharing, s0, vm.Snap(), b, size, lo, v, hi) && vm.frames.free == {}
  {
    PageStep(base, p, p + 1);
    var mapped := PageIsAlreadyMapped(vm, base + p * 4096, p * 4096, v);
    ghost var s := vm.Snap();
    PageNotHole(s0, b, lo, v, next, hi);
    if mapped {
      SweptSkip(vm.ram.sharing, s0, s, b, size, lo, v, next, hi);
      return true;
    }
    ok := vm.MapPage(base + p * 4096, p * 4096, flags, v, p);
    if ok {
      SweptPage(vm.ram.sharing, s0, s, vm.Snap(), b, size, lo, v, next, hi, p, flags);
    } else {
      SweptStays(vm.ram.sharing, s0, s, vm.Snap(), b, size, lo, v, hi);
    }
  }

  /** One 2 MiB step of the sweep at physical page `p`, virtual page `v`. */
  method DirectBlock(vm: VirtualMemory, base: Word, p: nat, flags: Word, ghost v: nat, ghost b: nat,
                     ghost s0: Space, ghost size: nat, ghost lo: nat, ghost hi: nat, ghost next: nat)
    returns (ok: bool)
    requires vm.Valid() && DirectOnly(flags) && base % 4096 == 0 && b == Vpn(base) && v == b + p && next == v + 512
    requires p % 512 == 0 && v % 512 == 0
    requires b <= lo <= v && next <= hi <= b + size <= VPN_LIMIT && size <= FRAME_LIMIT
    requires Swept(vm.ram.sharing, s0, vm.Snap(), b, size, lo, v, hi)
    modifies vm`root, vm`initialized, vm.frames`free, vm.frames`freePageCount, vm.frames.bitmap, vm.ram
    ensures vm.Valid()
    ensures ok ==> Swept(vm.ram.sharing, s0, vm.Snap(), b, size, lo, next, hi)
    ensures !ok ==> Swept(vm.ram.sharing, s0, vm.Snap(), b, size, lo, v, hi) && vm.frames.free == {}
  {
    PageStep(base, p, p + 512);
    PageStep(base, p + 511, p + 512);
    var first := PageIsAlreadyMapped(vm, base + p * 4096, p * 4096, v);
    ghost var s, end := vm.Snap(), v + 511;
    var last := PageIsAlreadyMapped(vm, base + (p + 511) * 4096, (p + 511) * 4096, end);
    BlockHoles(s0, s, b, lo, v, end, next, hi, first && last);
    if first && last {
      SweptSkip(vm.ram.sharing, s0, s, b, size, lo, v, next, hi);
      return true;
    }
    ok := NewBlock(vm, base + p * 4096, p, flags, v, b, s0, size, lo, hi, next);
  }

  method NewBlock(vm: VirtualMemory, va: Word, p: nat, flags: Word, ghost v: nat, ghost b: nat,
                  ghost s0: Space, ghost size: nat, ghost lo: nat, ghost hi: nat, ghost next: nat)
    returns (ok: bool)
    requires vm.Valid() && DirectOnly(flags) && v == Vpn(va) && v == b + p && next == v + 512
    requires p % 512 == 0 && v % 512 == 0
    requires b <= lo <= v && next <= hi <= b + size <= VPN_LIMIT && size <= FRAME_LIMIT
    requires Swept(vm.ram.sharing, s0, vm.Snap(), b, size, lo, v, hi)
    requires forall u: nat | v <= u < next :: !Hole(s0, b, lo, hi, u)
    modifies vm`root, vm`initialized, vm.frames`free, vm.frames`freePageCount, vm.frames.bitmap, vm.ram
    ensures vm.Valid()
    ensures ok ==> Swept(vm.ram.sharing, s0, vm.Snap(), b, size, lo, next, hi)
    ensures !ok ==> Swept(vm.ram.sharing, s0, vm.Snap(), b, size, lo, v, hi) && vm.frames.free == {}
  {
    ghost var s := vm.Snap();
    ok := vm.MapBlock(va, p * 4096, flags, v, p);
    if ok {
      SweptBlock(vm.ram.sharing, s0, s, vm.Snap(), b, size, lo, v, next, hi, p, flags);
    } else {
      SweptStays(vm.ram.sharing, s0, s, vm.Snap(), b, size, lo, v, hi);
    }
  }

  lemma PageNotHole(s0: Space, b: nat, lo: nat, v: nat, next: nat, hi: nat)
    requires next == v + 1 && AtStep(b, lo, v, hi) && !(v % 512 == 0 && InWholeBlock(b, lo, hi, v))
    ensures forall u: nat | v <= u < next :: !Hole(s0, b, lo, hi, u)
  {}

  /** A block holds holes only if its first and last pages were mapped, and then exactly its unmapped pages. */
  lemma BlockHoles(s0: Space, s: Space, b: nat, lo: nat, v: nat, end: nat, next: nat, hi: nat, ends: bool)
    requires v % 512 == 0 && b % 512 == 0 && lo <= v && end == v + 511 && next == v + 512 && next <= hi <= VPN_LIMIT
    requires forall u: nat | v <= u < next :: Look(s, u) == Look(s0, u)
    requires ends <==> !Look(s, v).Unmapped? && !Look(s, end).Unmapped?
    ensures ends ==> forall u: nat | v <= u < next :: Look(s, u).Unmapped? <==> Hole(s0, b, lo, hi, u)
    ensures !ends ==> forall u: nat | v <= u < next :: !Hole(s0, b, lo, hi, u)
  {
    forall u: nat | v <= u < next
      ensures ends ==> (Look(s, u).Unmapped? <==> Hole(s0, b, lo, hi, u))
      ensures !ends ==> !Hole(s0, b, lo, hi, u)
    {
      BlockPages(v, u);
      assert Look(s, v) == Look(s0, v) && Look(s, end) == Look(s0, end);
    }
  }

  /**
   Extend the direct map over a physical byte range.  However far it gets, every direct-map
   translation stays at its offset, none is lost, pages outside the range keep theirs, and pages
   inside that change are mapped as kernel data; on success exactly the holes of the entry state
   remain unmapped.
   */
  method MapDirectRange(vm: VirtualMemory, base: Word, start: nat, length: nat, ghost size: nat, ghost b: nat,
                        ghost lo: nat, ghost hi: nat)
    returns (ok: bool, ghost reached: nat)
    requires vm.Valid() && base % 4096 == 0 && b == Vpn(base)
    requires lo == b + start / 4096 && hi == b + AlignUp(start + length) / 4096
    requires hi <= b + size <= VPN_LIMIT && size <= FRAME_LIMIT && Direct(vm.Snap(), b, size)
    modifies vm`root, vm`initialized, vm.frames`free, vm.frames`freePageCount, vm.frames.bitmap, vm.ram
    ensures vm.Valid()
    ensures length == 0 ==> ok && vm.Snap() == old(vm.Snap())
    ensures length != 0 ==> Swept(vm.ram.sharing, old(vm.Snap()), vm.Snap(), b, size, lo, reached, hi)
    ensures length != 0 && ok ==> reached == hi
    ensures !ok ==> vm.frames.free == {}
  {
    reached := 0;
    if length == 0 { return true, 0; }
    var flags := DIRECT_FLAGS;
    DirectFlags(flags);
    ok, reached := Sweep(vm, base, start / 4096, AlignUp(start + length) / 4096, flags, size, b, lo, hi);
  }

  method Sweep(vm: VirtualMemory, base: Word, first: nat, end: nat, flags: Word, ghost size: nat, ghost b: nat,
               ghost lo: nat, ghost hi: nat)
    returns (ok: bool, ghost reached: nat)
    requires vm.Valid() && DirectOnly(flags) && base % 4096 == 0 && b == Vpn(base) && lo == b + first && hi == b + end
    requires first <= end <= size <= FRAME_LIMIT && b + size <= VPN_LIMIT && Direct(vm.Snap(), b, size)
    modifies vm`root, vm`initialized, vm.frames`free, vm.frames`freePageCount, vm.frames.bitmap, vm.ram
    ensures vm.Valid()
    ensures Swept(vm.ram.sharing, old(vm.Snap()), vm.Snap(), b, size, lo, reached, hi)
    ensures if ok then reached == hi else vm.frames.free == {}
  {
    var p: nat := first;
    ghost var s0 := vm.Snap();
    ok, reached := true, lo;
    SweptNone(vm.ram.sharing, s0, b, size, lo, hi);
    while p < end
      invariant p <= end && reached == b + p && lo <= reached
      invariant vm.Valid() && AtStep(b, lo, reached, hi)
      invariant Swept(vm.ram.sharing, s0, vm.Snap(), b, size, lo, reached, hi)
    {
      ok, p, reached := SweepStep(vm, base, p, end, flags, reached, b, s0, size, lo, hi);
      if !ok { return; }
    }
    ok := true;
  }

  /** Take a whole block when both addresses are aligned and it fits, a single page otherwise. */
  method SweepStep(vm: VirtualMemory, base: Word, p: nat, end: nat, flags: Word, ghost v: nat, ghost b: nat,
                   ghost s0: Space, ghost size: nat, ghost lo: nat, ghost hi: nat)
    returns (ok: bool, p': nat, ghost next: nat)
    requires vm.Valid() && DirectOnly(flags) && base % 4096 == 0 && b == Vpn(base) && v == b + p && hi == b + end
    requires b <= lo <= v && p < end <= size <= FRAME_LIMIT && b + size <= VPN_LIMIT
    requires Swept(vm.ram.sharing, s0, vm.Snap(), b, size, lo, v, hi) && AtStep(b, lo, v, hi)
    modifies vm`root, vm`initialized, vm.frames`free, vm.frames`freePageCount, vm.frames.bitmap, vm.ram
    ensures vm.Valid() && next == b + p' && p' <= end
    ensures Swept(vm.ram.sharing, s0, vm.Snap(), b, size, lo, next, hi) && AtStep(b, lo, next, hi)
    ensures if ok then p' > p else p' == p && vm.frames.free == {}
  {
    PageStep(base, p, p + 1);
    BlockAligned(base, p);
    NextStep(b, lo, v, hi);
    if p % 512 == 0 && (base + p * 4096) / 4096 % 512 == 0 && end - p >= 512 {
      next := v + 512;
      ok := DirectBlock(vm, base, p, flags, v, b, s0, size, lo, hi, next);
      p' := p + 512;
    } else {
      next := v + 1;
      ok := DirectPage(vm, base, p, flags, v, b, s0, size, lo, hi, next);
      p' := p + 1;
    }
    if !ok { p', next := p, v; }
  }

  lemma BlockAligned(base: Word, p: nat)
    requires base % 4096 == 0
    ensures (base + p * 4096) / 4096 % 512 == (Vpn(base) + p) % 512
  {
    var x := base / 4096;
    assert (base + p * 4096) / 4096 == x + p;
    var q := x / VPN_LIMIT;
    assert x == VPN_LIMIT * q + Vpn(base);
    assert (VPN_LIMIT * q) % 512 == 0;
  }

  /** User mode gets nothing from what the sweep maps. */
  lemma NothingForUsers(c: Sharing, s0: Space, s: Space, b: nat, size: nat, lo: nat, cur: nat, hi: nat, u: nat,
                        write: bool, fetch: bool)
    requires Swept(c, s0, s, b, size, lo, cur, hi) && lo <= u < cur && Look(s, u) != Look(s0, u)
    requires Sound(c, s.w) && IsRoot(s.w.owner, s.root)
    ensures !UserMay(s.w.mem, s.root, u, write, fetch)
  {
    assert KeptOrData(Look(s0, u), Look(s, u));
    MayIs(c, s.w.mem, s.w.owner, s.root, u, write, fetch);
  }

  // ----- when the whole range ends up mapped

  /** A finished sweep has mapped the whole range exactly when there was no hole on entry. */
  lemma MappedUnlessHoles(c: Sharing, s0: Space, s: Space, b: nat, size: nat, lo: nat, hi: nat)
    requires Swept(c, s0, s, b, size, lo, hi, hi)
    ensures (forall u: nat | lo <= u < hi :: !Look(s, u).Unmapped?) <==>
              forall u: nat | lo <= u < hi :: !Hole(s0, b, lo, hi, u)
  {
    if forall u: nat | lo <= u < hi :: !Look(s, u).Unmapped? {
      forall u: nat | lo <= u < hi ensures !Hole(s0, b, lo, hi, u) { assert !Look(s, u).Unmapped?; }
    }
  }

  /**
   If every whole block of the range was fully mapped or fully unmapped, success maps the range,
   each page at its offset.
   */
  lemma UniformBlocksMapped(c: Sharing, s0: Space, s: Space, b: nat, size: nat, lo: nat, hi: nat)
    requires Swept(c, s0, s, b, size, lo, hi, hi) && b <= lo && hi <= b + size
    requires forall u: nat | lo <= u < hi && InWholeBlock(b, lo, hi, u) ::
               Look(s0, u).Unmapped? <==> Look(s0, u - u % 512).Unmapped?
    ensures forall u: nat | lo <= u < hi :: !Look(s, u).Unmapped? && Look(s, u).frame == u - b
  {
    MappedUnlessHoles(c, s0, s, b, size, lo, hi);
  }

  /** The sampling matters: a block mapped at both ends only keeps its hole. */
  lemma SampledBlockKeepsHole(c: Sharing, s0: Space, s: Space, b: nat, size: nat, lo: nat, hi: nat, u: nat)
    requires Swept(c, s0, s, b, size, lo, hi, hi) && lo <= u < hi && Hole(s0, b, lo, hi, u)
    ensures Look(s, u).Unmapped?
  {}
}

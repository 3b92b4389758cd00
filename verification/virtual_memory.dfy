/**
 The page-table manager: it grows tables out of the page-frame allocator, writes leaf entries and
 walks them.  Physical memory and the allocator are shared by all address spaces; each manager
 object holds one root.
 */
module VirtualMemories {
  import opened Word64
  import opened Entries
  import opened Paging
  import opened UserAccess
  import opened PageFrames

  /** Everything the address spaces share: memory words, table roles and free frames. */
  datatype World = World(mem: Memory, owner: Owners, free: set<nat>)

  ghost predicate Sound(c: Sharing, w: World)
  {
    && WellFormed(c, w.mem, w.owner)
    && w.owner.Keys !! w.free
    && forall p | p in w.free :: HasFrame(w.mem, p)
  }

  /**
   Frames are only taken, roles only added to taken frames, and pages that are neither taken nor
   tables keep their words.
   */
  ghost predicate Grew(w: World, w': World)
  {
    && |w'.mem| == |w.mem|
    && w'.free <= w.free
    && (forall f | f in w.owner :: f in w'.owner && w'.owner[f] == w.owner[f])
    && (forall f | f in w'.owner :: f in w.owner || (f in w.free && f !in w'.free))
    && (forall g: nat, i: nat | i < 512 && g !in w.free && !IsTable(w.owner, g) ::
        Entry(w'.mem, g, i) == Entry(w.mem, g, i))
  }

  lemma GrewTransitive(a: World, b: World, c: World)
    requires Grew(a, b) && Grew(b, c)
    ensures Grew(a, c)
  {
    forall g: nat, i: nat | i < 512 && g !in a.free && !IsTable(a.owner, g)
      ensures Entry(c.mem, g, i) == Entry(a.mem, g, i)
    {
      assert !IsTable(b.owner, g);
      assert Entry(b.mem, g, i) == Entry(a.mem, g, i);
    }
  }

  /** Two growth steps that change no translation compose. */
  lemma Composed(a: World, b: World, c: World)
    requires Grew(a, b) && SameWalks(a.owner, a.mem, b.mem)
    requires Grew(b, c) && SameWalks(b.owner, b.mem, c.mem)
    ensures Grew(a, c) && SameWalks(a.owner, a.mem, c.mem)
  {
    GrewTransitive(a, b, c);
    forall r: nat, v: nat | IsRoot(a.owner, r) && v < VPN_LIMIT ensures Walk(c.mem, r, v) == Walk(a.mem, r, v) {
      assert IsRoot(b.owner, r) && Walk(b.mem, r, v) == Walk(a.mem, r, v);
    }
  }

  /**
   Every page outside `[lo, hi)` of `root`, and every page of the other roots outside the shared
   slots, keeps its translation.
   */
  ghost predicate OthersKept(c: Sharing, w: World, w': World, root: nat, lo: nat, hi: nat)
  {
    forall r: nat, v: nat | IsRoot(w.owner, r) && v < VPN_LIMIT &&
                            !(lo <= v < hi && (r == root || Idx(v, 0) in c.slots)) ::
      Walk(w'.mem, r, v) == Walk(w.mem, r, v)
  }

  lemma KeptAfterSame(c: Sharing, w1: World, w2: World, w3: World, root: nat, lo: nat, hi: nat)
    requires Grew(w1, w2) && SameWalks(w1.owner, w1.mem, w2.mem) && OthersKept(c, w2, w3, root, lo, hi)
    ensures OthersKept(c, w1, w3, root, lo, hi)
  {
    forall r: nat, v: nat | IsRoot(w1.owner, r) && v < VPN_LIMIT &&
        !(lo <= v < hi && (r == root || Idx(v, 0) in c.slots))
      ensures Walk(w3.mem, r, v) == Walk(w1.mem, r, v)
    {
      assert IsRoot(w2.owner, r) && Walk(w2.mem, r, v) == Walk(w1.mem, r, v);
    }
  }

  lemma KeptThenSame(c: Sharing, w1: World, w2: World, w3: World, root: nat, lo: nat, hi: nat)
    requires Grew(w1, w2) && OthersKept(c, w1, w2, root, lo, hi) && SameWalks(w2.owner, w2.mem, w3.mem)
    ensures OthersKept(c, w1, w3, root, lo, hi)
  {
    forall r: nat, v: nat | IsRoot(w1.owner, r) && v < VPN_LIMIT &&
        !(lo <= v < hi && (r == root || Idx(v, 0) in c.slots))
      ensures Walk(w3.mem, r, v) == Walk(w1.mem, r, v)
    {
      assert IsRoot(w2.owner, r) && Walk(w2.mem, r, v) == Walk(w1.mem, r, v);
    }
  }

  /** Page `i` of a range that stays inside the virtual page numbers. */
  lemma PageStep(va: Word, i: nat, n: nat)
    requires Vpn(va) + n <= VPN_LIMIT && i < n
    ensures va + i * 4096 < WORD_LIMIT && Vpn(va + i * 4096) == Vpn(va) + i
    ensures (va + i * 4096) % 4096 == va % 4096
  {
    var x := va / 4096;
    assert (va + i * 4096) / 4096 == x + i;
    var q := x / VPN_LIMIT;
    assert x == VPN_LIMIT * q + Vpn(va);
    QuotientUnique(x + i, VPN_LIMIT, q, Vpn(va) + i);
    assert x < 0x10_0000_0000_0000 && q < 0x1_0000;
  }

  lemma FrameStep(pa: nat, i: nat)
    ensures (pa + i * 4096) / 4096 == pa / 4096 + i && (pa + i * 4096) % 4096 == pa % 4096
  {}

  lemma KeptTransitive(c: Sharing, w1: World, w2: World, w3: World, root: nat, lo: nat, mid: nat, hi: nat)
    requires lo <= mid <= hi && Grew(w1, w2)
    requires OthersKept(c, w1, w2, root, lo, mid) && OthersKept(c, w2, w3, root, mid, hi)
    ensures OthersKept(c, w1, w3, root, lo, hi)
  {
    forall r: nat, v: nat | IsRoot(w1.owner, r) && v < VPN_LIMIT &&
        !(lo <= v < hi && (r == root || Idx(v, 0) in c.slots))
      ensures Walk(w3.mem, r, v) == Walk(w1.mem, r, v)
    {
      assert IsRoot(w2.owner, r) && Walk(w2.mem, r, v) == Walk(w1.mem, r, v);
    }
  }

  // ----- one address space in the shared world

  /** `live` says whether the root (a frame number) has been allocated yet. */
  datatype Space = Space(w: World, live: bool, root: nat)

  function Look(s: Space, v: nat): Leaf
  {
    if s.live then Walk(s.w.mem, s.root, v) else Unmapped
  }

  ghost predicate Extended(s: Space, s': Space)
  {
    Grew(s.w, s'.w) && (s.live ==> s'.live && s'.root == s.root)
  }

  /** The space may have gained its root and tables, but no translation of any space changed. */
  ghost predicate Unmoved(s: Space, s': Space)
  {
    && Extended(s, s')
    && SameWalks(s.w.owner, s.w.mem, s'.w.mem)
    && forall u: nat | u < VPN_LIMIT :: Look(s', u) == Look(s, u)
  }

  lemma UnmovedTransitive(s0: Space, s1: Space, s2: Space)
    requires Unmoved(s0, s1) && Unmoved(s1, s2)
    ensures Unmoved(s0, s2)
  {
    Composed(s0.w, s1.w, s2.w);
  }

  /** Below an existing root, keeping every walk keeps every page of the space. */
  lemma SameWalksUnmoved(c: Sharing, s: Space, s': Space)
    requires s.live && IsRoot(s.w.owner, s.root) && s'.live && s'.root == s.root
    requires Grew(s.w, s'.w) && SameWalks(s.w.owner, s.w.mem, s'.w.mem)
    ensures Unmoved(s, s')
  {}

  /** Pages `[lo, lo + n)` now map frames `[f, f + n)` with `flags` and Present; no other page of any space changed. */
  ghost predicate MappedRun(c: Sharing, s: Space, s': Space, lo: nat, n: nat, f: nat, flags: Word)
  {
    && Extended(s, s')
    && (n > 0 ==> s'.live)
    && (forall u: nat | lo <= u < lo + n :: Look(s', u) == Small(f + (u - lo), BitOr(flags, PRESENT)))
    && (forall u: nat | u < VPN_LIMIT && !(lo <= u < lo + n) :: Look(s', u) == Look(s, u))
    && OthersKept(c, s.w, s'.w, s'.root, lo, lo + n)
  }

  lemma MappedRunNone(c: Sharing, s: Space, lo: nat, f: nat, flags: Word)
    ensures MappedRun(c, s, s, lo, 0, f, flags)
  {}

  lemma MappedRunStays(c: Sharing, s0: Space, s1: Space, s2: Space, lo: nat, n: nat, f: nat, flags: Word)
    requires MappedRun(c, s0, s1, lo, n, f, flags) && Unmoved(s1, s2) && lo + n <= VPN_LIMIT
    ensures MappedRun(c, s0, s2, lo, n, f, flags)
  {
    GrewTransitive(s0.w, s1.w, s2.w);
    assert OthersKept(c, s0.w, s1.w, s2.root, lo, lo + n);
    KeptThenSame(c, s0.w, s1.w, s2.w, s2.root, lo, lo + n);
  }

  /** Reaching the leaf table and then overwriting the leaf maps one page. */
  lemma MappedRunOne(c: Sharing, s0: Space, s1: Space, s2: Space, v: nat, f: nat, flags: Word)
    requires v < VPN_LIMIT && Unmoved(s0, s1) && s1.live && IsRoot(s1.w.owner, s1.root)
    requires s2.live && s2.root == s1.root && Grew(s1.w, s2.w) && OthersKept(c, s1.w, s2.w, s1.root, v, v + 1)
    requires Walk(s2.w.mem, s2.root, v) == Small(f, BitOr(flags, PRESENT))
    ensures MappedRun(c, s0, s2, v, 1, f, flags)
  {
    GrewTransitive(s0.w, s1.w, s2.w);
    KeptAfterSame(c, s0.w, s1.w, s2.w, s1.root, v, v + 1);
    forall u: nat | u < VPN_LIMIT && u != v ensures Look(s2, u) == Look(s0, u) {
      assert Walk(s2.w.mem, s1.root, u) == Walk(s1.w.mem, s1.root, u);
    }
  }

  lemma MappedRunStep(c: Sharing, s0: Space, s1: Space, s2: Space, lo: nat, i: nat, v: nat, f: nat, g: nat, flags: Word)
    requires v == lo + i < VPN_LIMIT && g == f + i
    requires MappedRun(c, s0, s1, lo, i, f, flags) && MappedRun(c, s1, s2, v, 1, g, flags)
    ensures MappedRun(c, s0, s2, lo, i + 1, f, flags)
  {
    GrewTransitive(s0.w, s1.w, s2.w);
    assert OthersKept(c, s0.w, s1.w, s2.root, lo, v);
    KeptTransitive(c, s0.w, s1.w, s2.w, s2.root, lo, v, v + 1);
  }

  // ----- user access

  /** Every page keeps its User digits above, gaining some only if `user`; if so, these pages have all of them. */
  ghost predicate RunOpen(s: Space, s': Space, lo: nat, hi: nat, user: bool)
  {
    && PathsKept(s.w.owner, s.w.mem, s'.w.mem, user)
    && (user ==> forall u: nat | lo <= u < hi :: UserPath(s'.w.mem, s'.root, u))
  }

  lemma RunOpenNone(s: Space, lo: nat, user: bool)
    ensures RunOpen(s, s, lo, lo, user)
  {}

  lemma RunOpenStep(s0: Space, s1: Space, s2: Space, lo: nat, mid: nat, hi: nat, user: bool)
    requires lo <= mid <= hi <= VPN_LIMIT && Grew(s0.w, s1.w)
    requires lo < mid ==> s2.root == s1.root && IsRoot(s1.w.owner, s1.root)
    requires RunOpen(s0, s1, lo, mid, user) && RunOpen(s1, s2, mid, hi, user)
    ensures RunOpen(s0, s2, lo, hi, user)
  {
    PathsKeptOn(s0.w.owner, s1.w.owner, s0.w.mem, s1.w.mem, s2.w.mem, user);
    if user {
      forall u: nat | lo <= u < hi ensures UserPath(s2.w.mem, s2.root, u) {
        if u < mid { assert PathKept(s1.w.mem, s2.w.mem, s1.root, u, user); }
      }
    }
  }

  // ----- freshly allocated pages

  ghost predicate ZeroFrame(mem: Memory, f: nat)
  {
    forall i: nat | i < 512 :: Entry(mem, f, i) == 0
  }

  /** Page `v` maps a cleared frame that was free in `w0` and now belongs to this page alone. */
  ghost predicate FreshPage(c: Sharing, w0: World, s: Space, v: nat, flags: Word)
  {
    var leaf := Look(s, v);
    && leaf.Small? && leaf.flags == BitOr(flags, PRESENT)
    && leaf.frame in w0.free && leaf.frame !in s.w.free
    && leaf.frame in s.w.owner && s.w.owner[leaf.frame] == RoleOn(c, s.root, v, 4)
    && ZeroFrame(s.w.mem, leaf.frame)
  }

  /** Pages `[lo, lo + n)` are fresh; no other page of any space changed. */
  ghost predicate FreshRun(c: Sharing, s: Space, s': Space, lo: nat, n: nat, flags: Word)
  {
    && Extended(s, s')
    && (n > 0 ==> s'.live)
    && (forall u: nat | lo <= u < lo + n :: FreshPage(c, s.w, s', u, flags))
    && (forall u: nat | u < VPN_LIMIT && !(lo <= u < lo + n) :: Look(s', u) == Look(s, u))
    && OthersKept(c, s.w, s'.w, s'.root, lo, lo + n)
  }

  lemma FreshRunNone(c: Sharing, s: Space, lo: nat, flags: Word)
    ensures FreshRun(c, s, s, lo, 0, flags)
  {}

  lemma FreshRunStays(c: Sharing, s0: Space, s1: Space, s2: Space, lo: nat, n: nat, flags: Word)
    requires FreshRun(c, s0, s1, lo, n, flags) && Unmoved(s1, s2) && lo + n <= VPN_LIMIT
    ensures FreshRun(c, s0, s2, lo, n, flags)
  {
    GrewTransitive(s0.w, s1.w, s2.w);
    assert OthersKept(c, s0.w, s1.w, s2.root, lo, lo + n);
    KeptThenSame(c, s0.w, s1.w, s2.w, s2.root, lo, lo + n);
    forall u: nat | lo <= u < lo + n ensures FreshPage(c, s0.w, s2, u, flags) {
      FreshStays(c, s0.w, s1, s2, u, flags);
    }
  }

  lemma FreshStays(c: Sharing, w0: World, s1: Space, s2: Space, u: nat, flags: Word)
    requires FreshPage(c, w0, s1, u, flags) && Extended(s1, s2) && Look(s2, u) == Look(s1, u)
    ensures FreshPage(c, w0, s2, u, flags)
  {
    assert !IsTable(s1.w.owner, Look(s1, u).frame);
  }

  lemma FreshRunStep(c: Sharing, s0: Space, s1: Space, s2: Space, lo: nat, i: nat, v: nat, flags: Word)
    requires v == lo + i < VPN_LIMIT
    requires FreshRun(c, s0, s1, lo, i, flags) && FreshRun(c, s1, s2, v, 1, flags)
    ensures FreshRun(c, s0, s2, lo, i + 1, flags)
  {
    GrewTransitive(s0.w, s1.w, s2.w);
    assert OthersKept(c, s0.w, s1.w, s2.root, lo, v);
    KeptTransitive(c, s0.w, s1.w, s2.w, s2.root, lo, v, v + 1);
    forall u: nat | lo <= u < lo + i ensures FreshPage(c, s0.w, s2, u, flags) {
      FreshStays(c, s0.w, s1, s2, u, flags);
    }
    assert FreshPage(c, s1.w, s2, v, flags);
  }

  /** Clearing a free frame and taking it changes no translation. */
  lemma TakenUnmoved(c: Sharing, s: Space, f: nat)
    requires Sound(c, s.w) && f in s.w.free && (s.live ==> IsRoot(s.w.owner, s.root))
    ensures var s1 := s.(w := World(ZeroPage(s.w.mem, f), s.w.owner, s.w.free - {f})); Unmoved(s, s1) && Sound(c, s1.w)
  {
    var now := ZeroPage(s.w.mem, f);
    AgreeShape(c, s.w.owner, s.w.mem, now);
    forall r: nat, v: nat | IsRoot(s.w.owner, r) && v < VPN_LIMIT ensures Walk(now, r, v) == Walk(s.w.mem, r, v) {
      AgreeWalk(c, s.w.owner, s.w.mem, now, r, v);
    }
  }

  lemma TakenOpen(c: Sharing, s: Space, s1: Space, s2: Space, f: nat, lo: nat, hi: nat, user: bool)
    requires Sound(c, s.w) && f in s.w.free && lo <= hi <= VPN_LIMIT
    requires s1 == s.(w := World(ZeroPage(s.w.mem, f), s.w.owner, s.w.free - {f})) && RunOpen(s1, s2, lo, hi, user)
    ensures RunOpen(s, s2, lo, hi, user)
  {
    AgreePaths(c, s.w.owner, s.w.mem, s1.w.mem);
    PathsWiden(s.w.owner, s.w.mem, s1.w.mem, user);
    RunOpenStep(s, s1, s2, lo, lo, hi, user);
  }

  /** Taking a cleared frame, mapping it at `v` and recording its owner makes page `v` fresh. */
  lemma FreshRunOne(c: Sharing, s: Space, s1: Space, s2: Space, v: nat, f: nat, flags: Word)
    requires Sound(c, s.w) && (s.live ==> IsRoot(s.w.owner, s.root)) && v < VPN_LIMIT && f in s.w.free
    requires IsPageFlags(flags)
    requires s1 == s.(w := World(ZeroPage(s.w.mem, f), s.w.owner, s.w.free - {f}))
    requires Sound(c, s2.w) && MappedRun(c, s1, s2, v, 1, f, BitOr(flags, PRESENT))
    ensures var s3 := s2.(w := s2.w.(owner := s2.w.owner[f := RoleOn(c, s2.root, v, 4)]));
            Sound(c, s3.w) && FreshRun(c, s, s3, v, 1, flags)
  {
    var s3 := s2.(w := s2.w.(owner := s2.w.owner[f := RoleOn(c, s2.root, v, 4)]));
    TakenUnmoved(c, s, f);
    WithPresent(flags);
    assert f !in s1.w.owner && f !in s2.w.owner && !IsTable(s1.w.owner, f);
    DataRole(c, s2.w, f, RoleOn(c, s2.root, v, 4));
    GrewTransitive(s.w, s1.w, s2.w);
    KeptAfterSame(c, s.w, s1.w, s2.w, s2.root, v, v + 1);
    assert Grew(s.w, s3.w);
    forall i: nat | i < 512 ensures Entry(s3.w.mem, f, i) == 0 {
      assert Entry(s2.w.mem, f, i) == Entry(s1.w.mem, f, i);
    }
    assert Look(s2, v) == Small(f, BitOr(flags, PRESENT));
    assert FreshPage(c, s.w, s3, v, flags);
  }

  /** Recording the owner of a data page keeps the world sound. */
  lemma DataRole(c: Sharing, w: World, f: nat, role: Role)
    requires Sound(c, w) && f !in w.owner && f !in w.free && HasFrame(w.mem, f) && role.depth == 4
    ensures Sound(c, w.(owner := w.owner[f := role]))
  {
    var grown := w.owner[f := role];
    forall t: nat, i: nat | i < 512 && LeadsDown(w.mem, grown, t, i)
      ensures Hooked(c, w.mem, grown, t, i)
    {
      assert LeadsDown(w.mem, w.owner, t, i);
    }
  }

  /** The word `map_physical` stores for one page. */
  function LeafEntry(pa: Word, flags: Word): Word
  {
    MakeEntry(pa, BitOr(flags, PRESENT))
  }

  lemma LeafEntryIs(pa: Word, flags: Word)
    requires IsPageFlags(flags) && pa % 4096 == 0 && pa / 4096 < FRAME_LIMIT
    ensures var e := LeafEntry(pa, flags);
            e != 0 && EntryFrame(e) == pa / 4096 && EntryFlags(e) == BitOr(flags, PRESENT)
  {
    WithPresent(flags);
    EntryRoundTrip(pa / 4096, BitOr(flags, PRESENT));
  }

  // ----- what user mode may do with the pages mapped

  lemma FlagsMay(flags: Word, write: bool, fetch: bool)
    ensures Grants(BitOr(flags, PRESENT), write, fetch) <==>
              HasUser(flags) && (write ==> Bit(flags, 1)) && (fetch ==> !Bit(flags, 63))
  {
    OrBit(flags, PRESENT, 0);
    OrBit(flags, PRESENT, 1);
    OrBit(flags, PRESENT, 2);
    OrBit(flags, PRESENT, 63);
    PresentBit(0);
    PresentBit(1);
    PresentBit(2);
    PresentBit(63);
  }

  /** After `map_physical` user mode may do with each page exactly what the flags say. */
  lemma MappedMay(c: Sharing, s: Space, s': Space, lo: nat, n: nat, f: nat, flags: Word, u: nat, write: bool,
                  fetch: bool)
    requires Sound(c, s'.w) && IsRoot(s'.w.owner, s'.root) && lo <= u < lo + n
    requires MappedRun(c, s, s', lo, n, f, flags) && RunOpen(s, s', lo, lo + n, HasUser(flags))
    ensures UserMay(s'.w.mem, s'.root, u, write, fetch) <==>
              HasUser(flags) && (write ==> Bit(flags, 1)) && (fetch ==> !Bit(flags, 63))
  {
    assert Look(s', u) == Small(f + (u - lo), BitOr(flags, PRESENT));
    MayIs(c, s'.w.mem, s'.w.owner, s'.root, u, write, fetch);
    FlagsMay(flags, write, fetch);
  }

  /** And so after `allocate_and_map`. */
  lemma FreshMay(c: Sharing, s: Space, s': Space, lo: nat, n: nat, flags: Word, u: nat, write: bool, fetch: bool)
    requires Sound(c, s'.w) && IsRoot(s'.w.owner, s'.root) && lo <= u < lo + n
    requires FreshRun(c, s, s', lo, n, flags) && RunOpen(s, s', lo, lo + n, HasUser(flags))
    ensures UserMay(s'.w.mem, s'.root, u, write, fetch) <==>
              HasUser(flags) && (write ==> Bit(flags, 1)) && (fetch ==> !Bit(flags, 63))
  {
    assert FreshPage(c, s.w, s', u, flags);
    MayIs(c, s'.w.mem, s'.w.owner, s'.root, u, write, fetch);
    FlagsMay(flags, write, fetch);
  }

  /** A page whose translation stays keeps its rights, and gains some only if User was asked for elsewhere. */
  lemma MayKept(c: Sharing, w: World, w': World, r: nat, v: nat, user: bool, write: bool, fetch: bool)
    requires Sound(c, w) && Sound(c, w') && IsRoot(w.owner, r) && IsRoot(w'.owner, r)
    requires Walk(w'.mem, r, v) == Walk(w.mem, r, v) && PathKept(w.mem, w'.mem, r, v, user)
    ensures UserMay(w.mem, r, v, write, fetch) ==> UserMay(w'.mem, r, v, write, fetch)
    ensures !user && UserMay(w'.mem, r, v, write, fetch) ==> UserMay(w.mem, r, v, write, fetch)
  {
    MayIs(c, w.mem, w.owner, r, v, write, fetch);
    MayIs(c, w'.mem, w'.owner, r, v, write, fetch);
  }

  // ----- shared top-level entries

  /** In `slots` the space now translates as `source` does; every other page of every space is unchanged. */
  ghost predicate Shared(s: Space, s': Space, source: nat, slots: set<nat>)
  {
    && s'.live
    && (forall v: nat | v < VPN_LIMIT && Idx(v, 0) in slots :: Walk(s'.w.mem, s'.root, v) == Walk(s.w.mem, source, v))
    && (forall v: nat | v < VPN_LIMIT && Idx(v, 0) !in slots :: Look(s', v) == Look(s, v))
    && (forall r: nat, v: nat | IsRoot(s.w.owner, r) && r != s'.root && v < VPN_LIMIT ::
        Walk(s'.w.mem, r, v) == Walk(s.w.mem, r, v))
  }

  lemma SharedTwice(s0: Space, s1: Space, s2: Space, s3: Space, source: nat, a: nat, b: nat)
    requires Unmoved(s0, s1) && IsRoot(s0.w.owner, source) && IsRoot(s1.w.owner, source)
    requires Extended(s1, s2) && Shared(s1, s2, source, {a}) && Extended(s2, s3) && Shared(s2, s3, source, {b})
    requires s1.live && IsRoot(s1.w.owner, s1.root)
    ensures Extended(s0, s3) && Shared(s0, s3, source, {a, b})
  {
    GrewTransitive(s0.w, s1.w, s2.w);
    GrewTransitive(s0.w, s2.w, s3.w);
    forall r: nat, v: nat | IsRoot(s0.w.owner, r) && r != s3.root && v < VPN_LIMIT
      ensures Walk(s3.w.mem, r, v) == Walk(s0.w.mem, r, v)
    {
      assert Walk(s1.w.mem, r, v) == Walk(s0.w.mem, r, v);
      assert Walk(s2.w.mem, r, v) == Walk(s1.w.mem, r, v);
    }
    forall v: nat | v < VPN_LIMIT && Idx(v, 0) in {a, b}
      ensures Walk(s3.w.mem, s3.root, v) == Walk(s0.w.mem, source, v)
    {
      assert Walk(s1.w.mem, source, v) == Walk(s0.w.mem, source, v);
      if Idx(v, 0) == b {
        assert source == s2.root || Walk(s2.w.mem, source, v) == Walk(s1.w.mem, source, v);
      }
    }
  }

  lemma {:induction false} CloneDescend(c: Sharing, w: World, root: nat, source: nat, slot: nat, v: nat, k: nat)
    requires Sound(c, w) && IsRoot(w.owner, root) && IsRoot(w.owner, source) && slot < 512 && Idx(v, 0) == slot
    requires 1 <= k <= 3
    ensures Descend(Put(w.mem, root, slot, Entry(w.mem, source, slot)), root, v, k) == Descend(w.mem, source, v, k)
    decreases k
  {
    var now := Put(w.mem, root, slot, Entry(w.mem, source, slot));
    if k == 1 {
      assert Descend(now, root, v, 0) == Table(root) && Descend(w.mem, source, v, 0) == Table(source);
    } else {
      CloneDescend(c, w, root, source, slot, v, k - 1);
      DescendRole(c, w.mem, w.owner, source, v, k - 1);
    }
  }

  lemma CloneWorld(c: Sharing, w: World, root: nat, source: nat, slot: nat)
    requires Sound(c, w) && IsRoot(w.owner, root) && IsRoot(w.owner, source) && slot in c.slots && slot < 512
    ensures var w' := w.(mem := Put(w.mem, root, slot, Entry(w.mem, source, slot)));
            Sound(c, w') && Grew(w, w') && Shared(Space(w, true, root), Space(w', true, root), source, {slot})
  {
    var e := Entry(w.mem, source, slot);
    var now := Put(w.mem, root, slot, e);
    forall t: nat, i: nat | i < 512 && LeadsDown(now, w.owner, t, i)
      ensures Hooked(c, now, w.owner, t, i)
    {
      if t == root && i == slot {
        assert LeadsDown(w.mem, w.owner, source, slot);
      } else {
        assert LeadsDown(w.mem, w.owner, t, i);
      }
    }
    forall v: nat | v < VPN_LIMIT && Idx(v, 0) == slot ensures Walk(now, root, v) == Walk(w.mem, source, v) {
      CloneDescend(c, w, root, source, slot, v, 3);
      DescendRole(c, w.mem, w.owner, source, v, 3);
    }
    forall r: nat, v: nat | IsRoot(w.owner, r) && v < VPN_LIMIT && (r != root || Idx(v, 0) != slot)
      ensures Walk(now, r, v) == Walk(w.mem, r, v)
    {
      WalkAfterPut(c, w.mem, w.owner, root, slot, e, r, v);
    }
  }

  // ----- 2 MiB blocks

  /** The 512 pages from `lo` now map frames from `f` through one 2 MiB entry; no other page of any space changed. */
  ghost predicate MappedBlock(c: Sharing, s: Space, s': Space, lo: nat, f: nat, flags: Word)
  {
    && Extended(s, s') && s'.live
    && (forall u: nat | lo <= u < lo + 512 :: Look(s', u) == Large(f + (u - lo), BlockFlags(flags)))
    && (forall u: nat | u < VPN_LIMIT && !(lo <= u < lo + 512) :: Look(s', u) == Look(s, u))
    && OthersKept(c, s.w, s'.w, s'.root, lo, lo + 512)
  }

  /** The pages outside `[lo, hi)` keep their User digits, gaining some only if `user`; if so, those inside have all. */
  ghost predicate BlocksOpen(c: Sharing, s: Space, s': Space, lo: nat, hi: nat, user: bool)
  {
    && PathsKeptBeside(c, s.w.owner, s.w.mem, s'.w.mem, s'.root, lo, hi, user)
    && (user ==> forall u: nat | lo <= u < hi :: UserPath(s'.w.mem, s'.root, u))
  }

  lemma BlocksOpenStep(c: Sharing, s0: Space, s1: Space, s2: Space, lo: nat, mid: nat, hi: nat, user: bool)
    requires lo <= mid <= hi <= VPN_LIMIT && Grew(s0.w, s1.w)
    requires lo < mid ==> s2.root == s1.root && IsRoot(s1.w.owner, s1.root)
    requires BlocksOpen(c, s0, s1, lo, mid, user) && BlocksOpen(c, s1, s2, mid, hi, user)
    ensures BlocksOpen(c, s0, s2, lo, hi, user)
  {
    assert PathsKeptBeside(c, s0.w.owner, s0.w.mem, s1.w.mem, s2.root, lo, mid, user);
    BesideOn(c, s0.w.owner, s1.w.owner, s0.w.mem, s1.w.mem, s2.w.mem, s2.root, lo, mid, hi, user);
    if user {
      forall u: nat | lo <= u < hi ensures UserPath(s2.w.mem, s2.root, u) {
        if u < mid { assert PathKept(s1.w.mem, s2.w.mem, s1.root, u, user); }
      }
    }
  }

  lemma BlockAdded(c: Sharing, s0: Space, s1: Space, s2: Space, v: nat, hi: nat, user: bool)
    requires v <= hi <= VPN_LIMIT && Grew(s0.w, s1.w) && BlocksOpen(c, s0, s1, v, v, user)
    requires PathsKeptBeside(c, s1.w.owner, s1.w.mem, s2.w.mem, s2.root, v, hi, false)
    requires user ==> forall u: nat | v <= u < hi :: UserPath(s2.w.mem, s2.root, u)
    ensures BlocksOpen(c, s0, s2, v, hi, user)
  {
    BesideWiden(c, s1.w.owner, s1.w.mem, s2.w.mem, s2.root, v, hi, user);
    BlocksOpenStep(c, s0, s1, s2, v, v, hi, user);
  }

  lemma BlocksOpenNone(c: Sharing, s: Space, s': Space, lo: nat, user: bool)
    requires PathsKept(s.w.owner, s.w.mem, s'.w.mem, user)
    ensures BlocksOpen(c, s, s', lo, lo, user)
  {
    BesideAll(c, s.w.owner, s.w.mem, s'.w.mem, s'.root, lo, lo, user);
  }

  /** The flags a 2 MiB entry reports: the given ones, Present and the large-page bit. */
  function BlockFlags(flags: Word): Word
  {
    BitOr(BitOr(flags, PRESENT), LARGE_PAGE)
  }

  function BlockEntry(pa: Word, flags: Word): Word
  {
    MakeLargeEntry(pa, BitOr(flags, PRESENT))
  }

  lemma BlockEntryIs(pa: Word, flags: Word)
    requires IsPageFlags(flags) && pa % 4096 == 0 && pa / 4096 < FRAME_LIMIT && pa / 4096 % 512 == 0
    ensures var e := BlockEntry(pa, flags);
            e != 0 && IsLarge(e) && LargeFrame(e) == pa / 4096 && LargeFlags(e) == BlockFlags(flags) &&
                HasUser(e) == HasUser(flags)
  {
    WithPresent(flags);
    LargeEntryRoundTrip(pa / 4096, BitOr(flags, PRESENT));
    LargeEntryUser(pa, BitOr(flags, PRESENT));
    PresentKeepsUser(flags);
  }

  lemma MappedBlockOne(c: Sharing, s0: Space, s1: Space, s2: Space, v: nat, f: nat, flags: Word, e: Word)
    requires v % 512 == 0 && v < VPN_LIMIT && LargeFrame(e) == f && LargeFlags(e) == BlockFlags(flags)
    requires Unmoved(s0, s1) && s1.live && IsRoot(s1.w.owner, s1.root)
    requires s2.live && s2.root == s1.root && Grew(s1.w, s2.w) && OthersKept(c, s1.w, s2.w, s1.root, v, v + 512)
    requires forall u: nat | v <= u < v + 512 :: Look(s2, u) == Large(LargeFrame(e) + (u - v), LargeFlags(e))
    ensures MappedBlock(c, s0, s2, v, f, flags)
  {
    GrewTransitive(s0.w, s1.w, s2.w);
    KeptAfterSame(c, s0.w, s1.w, s2.w, s1.root, v, v + 512);
    forall u: nat | u < VPN_LIMIT && !(v <= u < v + 512) ensures Look(s2, u) == Look(s0, u) {
      assert Walk(s2.w.mem, s1.root, u) == Walk(s1.w.mem, s1.root, u);
    }
  }

  /** Pages `[lo, hi)`, whole blocks, now map the frames from `f` on; no other page of any space changed. */
  ghost predicate MappedBlocks(c: Sharing, s: Space, s': Space, lo: nat, hi: nat, f: nat, flags: Word)
  {
    && Extended(s, s')
    && (lo < hi ==> s'.live)
    && (forall u: nat | lo <= u < hi :: Look(s', u) == Large(f + (u - lo), BlockFlags(flags)))
    && (forall u: nat | u < VPN_LIMIT && !(lo <= u < hi) :: Look(s', u) == Look(s, u))
    && OthersKept(c, s.w, s'.w, s'.root, lo, hi)
  }

  lemma MappedBlocksNone(c: Sharing, s: Space, lo: nat, f: nat, flags: Word)
    ensures MappedBlocks(c, s, s, lo, lo, f, flags)
  {}

  lemma MappedBlocksStay(c: Sharing, s0: Space, s1: Space, s2: Space, lo: nat, hi: nat, f: nat, flags: Word)
    requires MappedBlocks(c, s0, s1, lo, hi, f, flags) && Unmoved(s1, s2) && hi <= VPN_LIMIT
    ensures MappedBlocks(c, s0, s2, lo, hi, f, flags)
  {
    GrewTransitive(s0.w, s1.w, s2.w);
    assert OthersKept(c, s0.w, s1.w, s2.root, lo, hi);
    KeptThenSame(c, s0.w, s1.w, s2.w, s2.root, lo, hi);
  }

  lemma MappedBlocksStep(c: Sharing, s0: Space, s1: Space, s2: Space, lo: nat, mid: nat, hi: nat, f: nat, g: nat,
                         flags: Word)
    requires lo <= mid && hi == mid + 512 <= VPN_LIMIT && g == f + (mid - lo)
    requires MappedBlocks(c, s0, s1, lo, mid, f, flags) && MappedBlock(c, s1, s2, mid, g, flags)
    ensures MappedBlocks(c, s0, s2, lo, hi, f, flags)
  {
    GrewTransitive(s0.w, s1.w, s2.w);
    assert OthersKept(c, s0.w, s1.w, s2.root, lo, mid);
    KeptTransitive(c, s0.w, s1.w, s2.w, s2.root, lo, mid, hi);
  }

  /** After `map_physical_2m` user mode may do with each page exactly what the flags say. */
  lemma BlocksMay(c: Sharing, s: Space, s': Space, lo: nat, hi: nat, f: nat, flags: Word, u: nat, write: bool,
                  fetch: bool)
    requires Sound(c, s'.w) && IsRoot(s'.w.owner, s'.root) && lo <= u < hi
    requires MappedBlocks(c, s, s', lo, hi, f, flags) && BlocksOpen(c, s, s', lo, hi, HasUser(flags))
    ensures UserMay(s'.w.mem, s'.root, u, write, fetch) <==>
              HasUser(flags) && (write ==> Bit(flags, 1)) && (fetch ==> !Bit(flags, 63))
  {
    assert Look(s', u) == Large(f + (u - lo), BlockFlags(flags));
    MayIs(c, s'.w.mem, s'.w.owner, s'.root, u, write, fetch);
    FlagsMay(flags, write, fetch);
    LargeGrants(BitOr(flags, PRESENT), write, fetch);
  }

  lemma LargeGrants(flags: Word, write: bool, fetch: bool)
    ensures Grants(BitOr(flags, LARGE_PAGE), write, fetch) == Grants(flags, write, fetch)
  {
    OrBit(flags, LARGE_PAGE, 0);
    OrBit(flags, LARGE_PAGE, 1);
    OrBit(flags, LARGE_PAGE, 2);
    OrBit(flags, LARGE_PAGE, 63);
    LargePageBit(0);
    LargePageBit(1);
    LargePageBit(2);
    LargePageBit(63);
  }

  /** The first page of block `i` of a range of blocks. */
  lemma BlockStep(va: Word, i: nat, n: nat, v: nat)
    requires va % 0x20_0000 == 0 && i < n && Vpn(va) + 512 * n <= VPN_LIMIT && v == Vpn(va) + 512 * i
    ensures va + i * 0x20_0000 < WORD_LIMIT && Vpn(va + i * 0x20_0000) == v && v % 512 == 0 && v + 512 <= VPN_LIMIT
  {
    PageStep(va, 512 * i, 512 * n);
    BlockAddress(va, i);
    BlockPage(va / 4096);
  }

  lemma BlockPage(x: nat)
    requires x % 512 == 0
    ensures x % VPN_LIMIT % 512 == 0
  {}

  lemma BlockAddress(a: nat, i: nat)
    requires a % 0x20_0000 == 0
    ensures 512 * i * 4096 == i * 0x20_0000 && a / 4096 % 512 == 0
    ensures (a + i * 0x20_0000) % 4096 == 0 && (a + i * 0x20_0000) / 4096 == a / 4096 + 512 * i
    ensures (a / 4096 + 512 * i) % 512 == 0
  {}

  ghost predicate BlockLeaves(s: Space, v: nat, e: Word)
  {
    forall u: nat | v <= u < v + 512 :: Look(s, u) == Large(LargeFrame(e) + (u - v), LargeFlags(e))
  }

  lemma BlockWorld(c: Sharing, w: World, root: nat, v: nat, e: Word)
    requires Sound(c, w) && IsRoot(w.owner, root) && v < VPN_LIMIT && v % 512 == 0 && Descend(w.mem, root, v, 2).Table?
    requires IsLarge(e) && e != 0
    ensures var t := Descend(w.mem, root, v, 2).t;
            HasFrame(w.mem, t) &&
            var w' := w.(mem := Put(w.mem, t, Idx(v, 2), e));
            && Sound(c, w') && Grew(w, w') && OthersKept(c, w, w', root, v, v + 512)
            && BlockLeaves(Space(w', true, root), v, e)
  {
    var t := Descend(w.mem, root, v, 2).t;
    DescendRole(c, w.mem, w.owner, root, v, 2);
    BlockShape(c, w.mem, w.owner, t, Idx(v, 2), e);
    var now := Put(w.mem, t, Idx(v, 2), e);
    forall u: nat | v <= u < v + 512 ensures Walk(now, root, u) == Large(LargeFrame(e) + (u - v), LargeFlags(e)) {
      assert u / 512 == v / 512 && u % 512 == u - v && u < VPN_LIMIT;
      BlockWalk(c, w.mem, w.owner, root, v, t, e, u);
    }
    forall r: nat, u: nat | IsRoot(w.owner, r) && u < VPN_LIMIT &&
        !(v <= u < v + 512 && (r == root || Idx(u, 0) in c.slots))
      ensures Walk(now, r, u) == Walk(w.mem, r, u)
    {
      BlockOf(u, v);
      BlockWalkElsewhere(c, w.mem, w.owner, root, v, t, e, r, u);
    }
  }

  class PhysicalMemory {
    var mem: Memory
    /** What each frame in use is for. */
    ghost var owner: Owners
    ghost const sharing: Sharing

    constructor (mem: Memory, ghost sharing: Sharing)
      ensures this.mem == mem && this.sharing == sharing && owner == map[]
    {
      this.mem, this.sharing, this.owner := mem, sharing, map[];
    }
  }

  class VirtualMemory {
    const frames: PageFrameContainer
    const ram: PhysicalMemory
    var initialized: bool
    /** Physical address of the top-level table. */
    var root: nat

    ghost function State(): World
      reads frames, ram
    {
      World(ram.mem, ram.owner, frames.free)
    }

    ghost function Snap(): Space
      reads this, frames, ram
    {
      Space(State(), initialized, root / 4096)
    }

    ghost predicate Valid()
      reads this, frames, frames.bitmap, ram
    {
      && frames.Valid()
      && Sound(ram.sharing, State())
      && (initialized ==> root % 4096 == 0 && IsRoot(ram.owner, root / 4096))
    }

    constructor (frames: PageFrameContainer, ram: PhysicalMemory)
      requires frames.Valid() && Sound(ram.sharing, World(ram.mem, ram.owner, frames.free))
      ensures this.frames == frames && this.ram == ram && !initialized && Valid()
    {
      this.frames, this.ram, this.initialized, this.root := frames, ram, false, 0;
    }

    /** A manager for an existing root. */
    constructor Attach(frames: PageFrameContainer, ram: PhysicalMemory, root: nat)
      requires frames.Valid() && Sound(ram.sharing, World(ram.mem, ram.owner, frames.free))
      requires root % 4096 == 0 && IsRoot(ram.owner, root / 4096)
      ensures this.frames == frames && this.ram == ram && initialized && this.root == root && Valid()
    {
      this.frames, this.ram, this.initialized, this.root := frames, ram, true, root;
    }

    /** `translate`: nothing without a root, the page walk plus the offset with one. */
    method TranslateAddress(va: Word) returns (t: Translation)
      requires Valid()
      ensures t == ByteOf(Look(Snap(), Vpn(va)), va)
      ensures Look(Snap(), Vpn(va)).Unmapped? || Look(Snap(), Vpn(va)).frame < FRAME_LIMIT
    {
      if !initialized { return Fault; }
      TranslateIsWalk(ram.mem, root, va);
      t := Translate(ram.mem, root, va);
    }

    /** Take the lowest free frame and clear it; fails only when no frame is free. */
    method TakeZeroedFrame() returns (ok: bool, f: nat)
      requires Valid()
      modifies frames`free, frames`freePageCount, frames.bitmap, ram`mem
      ensures Valid()
      ensures ok <==> old(frames.free) != {}
      ensures ok ==> f in old(frames.free) && f < FRAME_LIMIT && f !in ram.owner
      ensures ok ==> frames.free == old(frames.free) - {f} && ram.mem == ZeroPage(old(ram.mem), f)
      ensures !ok ==> State() == old(State())
    {
      var address;
      ok, address := frames.AllocateOne();
      f := address / 4096;
      if ok {
        ghost var was := ram.mem;
        ram.mem := ZeroPage(ram.mem, f);
        AgreeShape(ram.sharing, ram.owner, was, ram.mem);
      }
    }

    method EnsureRoot() returns (ok: bool)
      requires Valid()
      modifies this`root, this`initialized, frames`free, frames`freePageCount, frames.bitmap, ram
      ensures Valid() && Unmoved(old(Snap()), Snap())
      ensures ok <==> initialized
      ensures ok <==> old(initialized) || old(frames.free) != {}
      ensures old(initialized) ==> Snap() == old(Snap()) && root == old(root)
      ensures initialized && !old(initialized) ==> root / 4096 in old(frames.free)
      ensures !ok ==> Snap() == old(Snap())
      ensures PathsKept(old(ram.owner), old(ram.mem), ram.mem, false)
    {
      if initialized { return true; }
      ghost var s := Snap();
      var f;
      ok, f := TakeZeroedFrame();
      if !ok { return; }
      NewSpace(ram.sharing, s, f);
      root := f * 4096;
      initialized := true;
      ram.owner := ram.owner[f := Role(f, 0, 0)];
      assert Snap() == FirstRoot(s, f);
    }

    /** Put a cleared table below the empty entry `i` of `t`; fails only when no frame is free. */
    method AddTable(t: nat, i: nat, userVisible: bool, ghost v: nat, ghost k: nat, ghost k': nat)
      returns (ok: bool)
      requires Valid() && initialized && k <= 2 && k' == k + 1 && v < VPN_LIMIT && i == Idx(v, k)
      requires Descend(ram.mem, root / 4096, v, k) == Table(t) && Descend(ram.mem, root / 4096, v, k') == Dead
      modifies frames`free, frames`freePageCount, frames.bitmap, ram
      ensures Valid() && Grew(old(State()), State()) && SameWalks(old(ram.owner), old(ram.mem), ram.mem)
      ensures Descend(ram.mem, root / 4096, v, k) == Table(t)
      ensures if ok then Descend(ram.mem, root / 4096, v, k').Table? else frames.free == {}
      ensures PathsKept(old(ram.owner), old(ram.mem), ram.mem, userVisible)
      ensures ok && userVisible && old(Open(ram.mem, root / 4096, v, k)) ==> Open(ram.mem, root / 4096, v, k')
    {
      ghost var w := State();
      var flags := TableFlags(userVisible);
      TableFlagsAre(userVisible);
      OnPath(ram.sharing, w, root / 4096, v, k);
      var next;
      ok, next := TakeZeroedFrame();
      if ok {
        GrowWorld(ram.sharing, w, root / 4096, v, k, k', t, i, next, flags);
        ram.mem := Put(ram.mem, t, i, MakeEntry(next * 4096, flags));
        ram.owner := ram.owner[next := Child(ram.sharing, ram.owner[t], i)];
        assert State() == GrownWorld(ram.sharing, w, t, i, next, flags);
      }
    }

    /** Make sure entry `i` of table `t` leads to a table, user-visible if asked. */
    method EnsureTableEntry(t: nat, i: nat, userVisible: bool, ghost v: nat, ghost k: nat, ghost k': nat)
      returns (ok: bool)
      requires Valid() && initialized && k <= 2 && k' == k + 1 && v < VPN_LIMIT && i == Idx(v, k)
      requires Descend(ram.mem, root / 4096, v, k) == Table(t) && (k == 2 ==> !Look(Snap(), v).Large?)
      modifies frames`free, frames`freePageCount, frames.bitmap, ram
      ensures Valid() && Grew(old(State()), State()) && SameWalks(old(ram.owner), old(ram.mem), ram.mem)
      ensures Descend(ram.mem, root / 4096, v, k) == Table(t)
      ensures if ok then Descend(ram.mem, root / 4096, v, k').Table? else frames.free == {}
      ensures PathsKept(old(ram.owner), old(ram.mem), ram.mem, userVisible)
      ensures ok && userVisible && old(Open(ram.mem, root / 4096, v, k)) ==> Open(ram.mem, root / 4096, v, k')
    {
      ghost var w := State();
      OnPath(ram.sharing, w, root / 4096, v, k);
      var e := Entry(ram.mem, t, i);
      if e == 0 {
        ok := AddTable(t, i, userVisible, v, k, k');
        return;
      }
      if userVisible {
        MarkUserWorld(ram.sharing, w, root / 4096, v, k, k');
        ram.mem := Put(ram.mem, t, i, BitOr(e, USER));
      }
      ok := true;
    }

    /** One level of the walk to a leaf entry: follow entry `i` of table `t`, creating it if asked. */
    method NextTable(t: nat, i: nat, create: bool, userVisible: bool, ghost v: nat, ghost k: nat, ghost k': nat)
      returns (ok: bool, next: nat)
      requires Valid() && initialized && k <= 2 && k' == k + 1 && v < VPN_LIMIT && i == Idx(v, k)
      requires Descend(ram.mem, root / 4096, v, k) == Table(t) && (k == 2 ==> !Look(Snap(), v).Large?)
      modifies frames`free, frames`freePageCount, frames.bitmap, ram
      ensures Valid() && Grew(old(State()), State()) && SameWalks(old(ram.owner), old(ram.mem), ram.mem)
      ensures ok ==> Descend(ram.mem, root / 4096, v, k') == Table(next)
      ensures !ok ==> if create then frames.free == {} else Look(Snap(), v) == Unmapped
      ensures !create ==> State() == old(State())
      ensures PathsKept(old(ram.owner), old(ram.mem), ram.mem, userVisible)
      ensures ok && create && userVisible && old(Open(ram.mem, root / 4096, v, k)) ==> Open(ram.mem, root / 4096, v, k')
    {
      next := 0;
      if create {
        ok := EnsureTableEntry(t, i, userVisible, v, k, k');
        if !ok { return; }
      } else if Entry(ram.mem, t, i) == 0 {
        DeadStays(ram.mem, root / 4096, v, k');
        return false, 0;
      }
      ok, next := true, EntryFrame(Entry(ram.mem, t, i));
    }

    /** Walk to the table that holds the leaf entry of `va`, creating the tables above it if asked. */
    method WalkToLeaf(va: Word, create: bool, userVisible: bool) returns (ok: bool, table: nat)
      requires Valid() && !Look(Snap(), Vpn(va)).Large?
      modifies this`root, this`initialized, frames`free, frames`freePageCount, frames.bitmap, ram
      ensures Valid() && Unmoved(old(Snap()), Snap())
      ensures ok ==> initialized && Descend(ram.mem, root / 4096, Vpn(va), 3) == Table(table)
      ensures !ok ==> if create || !initialized then frames.free == {} else Look(Snap(), Vpn(va)) == Unmapped
      ensures !create && old(initialized) ==> Snap() == old(Snap())
      ensures PathsKept(old(ram.owner), old(ram.mem), ram.mem, userVisible)
      ensures ok && create && userVisible ==> UserPath(ram.mem, root / 4096, Vpn(va))
    {
      table := 0;
      ok := EnsureRoot();
      PathsWiden(old(ram.owner), old(ram.mem), ram.mem, userVisible);
      if ok {
        ghost var s := Snap();
        ok, table := WalkTables(va, create, userVisible, Vpn(va));
        SameWalksUnmoved(ram.sharing, s, Snap());
        UnmovedTransitive(old(Snap()), s, Snap());
        PathsKeptOn(old(ram.owner), s.w.owner, old(ram.mem), s.w.mem, ram.mem, userVisible);
      }
    }

    /** The three levels of the walk below an existing root. */
    method WalkTables(va: Word, create: bool, userVisible: bool, ghost v: nat) returns (ok: bool, table: nat)
      requires v == Vpn(va) && Valid() && initialized && !Look(Snap(), v).Large?
      modifies frames`free, frames`freePageCount, frames.bitmap, ram
      ensures Valid() && Grew(old(State()), State()) && SameWalks(old(ram.owner), old(ram.mem), ram.mem)
      ensures ok ==> Descend(ram.mem, root / 4096, v, 3) == Table(table)
      ensures !ok ==> if create then frames.free == {} else Look(Snap(), v) == Unmapped
      ensures !create ==> State() == old(State())
      ensures PathsKept(old(ram.owner), old(ram.mem), ram.mem, userVisible)
      ensures ok && create && userVisible ==> UserPath(ram.mem, root / 4096, v)
    {
      table := 0;
      IndexIsIdx(va);
      var pml2;
      ok, pml2 := UpperTables(va, create, userVisible, v);
      if ok {
        ghost var w := State();
        assert !Look(Snap(), v).Large?;
        ok, table := NextTable(pml2, PageIndex(va, 21), create, userVisible, v, 2, 3);
        Composed(old(State()), w, State());
        PathsKeptOn(old(ram.owner), w.owner, old(ram.mem), w.mem, ram.mem, userVisible);
      }
    }

    /** The two upper levels, from an existing root. */
    method UpperTables(va: Word, create: bool, userVisible: bool, ghost v: nat) returns (ok: bool, table: nat)
      requires v == Vpn(va) && Valid() && initialized
      modifies frames`free, frames`freePageCount, frames.bitmap, ram
      ensures Valid() && Grew(old(State()), State()) && SameWalks(old(ram.owner), old(ram.mem), ram.mem)
      ensures ok ==> Descend(ram.mem, root / 4096, v, 2) == Table(table)
      ensures !ok ==> if create then frames.free == {} else Look(Snap(), v) == Unmapped
      ensures !create ==> State() == old(State())
      ensures PathsKept(old(ram.owner), old(ram.mem), ram.mem, userVisible)
      ensures ok && create && userVisible ==> Open(ram.mem, root / 4096, v, 2)
    {
      table := 0;
      IndexIsIdx(va);
      var pml3;
      ok, pml3 := NextTable(root / 4096, PageIndex(va, 39), create, userVisible, v, 0, 1);
      if ok {
        ghost var w := State();
        ok, table := NextTable(pml3, PageIndex(va, 30), create, userVisible, v, 1, 2);
        Composed(old(State()), w, State());
        PathsKeptOn(old(ram.owner), w.owner, old(ram.mem), w.mem, ram.mem, userVisible);
      }
    }

    /** Map one page, overwriting whatever its leaf entry held; fails only when the frames run out. */
    method MapPage(va: Word, pa: Word, flags: Word, ghost v: nat, ghost f: nat) returns (ok: bool)
      requires v == Vpn(va) && f == pa / 4096
      requires Valid() && !Look(Snap(), v).Large? && IsPageFlags(flags)
      requires pa % 4096 == 0 && f < FRAME_LIMIT
      modifies this`root, this`initialized, frames`free, frames`freePageCount, frames.bitmap, ram
      ensures Valid()
      ensures ok ==> MappedRun(ram.sharing, old(Snap()), Snap(), v, 1, f, flags)
      ensures !ok ==> Unmoved(old(Snap()), Snap()) && frames.free == {}
      ensures RunOpen(old(Snap()), Snap(), v, if ok then v + 1 else v, HasUser(flags))
    {
      UserTest(flags);
      var table;
      ok, table := WalkToLeaf(va, true, BitAnd(flags, USER) == USER);
      if ok {
        ghost var s := Snap();
        LeafEntryIs(pa, flags);
        WriteLeaf(va, table, LeafEntry(pa, flags));
        MappedRunOne(ram.sharing, old(Snap()), s, Snap(), v, f, flags);
        PathsWiden(s.w.owner, s.w.mem, ram.mem, HasUser(flags));
        assert RunOpen(old(Snap()), s, v, v + 1, HasUser(flags));
        RunOpenStep(old(Snap()), s, Snap(), v, v + 1, v + 1, HasUser(flags));
      }
    }

    /** Overwrite the leaf entry of `va`, which sits in `table`. */
    method WriteLeaf(va: Word, table: nat, e: Word)
      requires Valid() && initialized && Descend(ram.mem, root / 4096, Vpn(va), 3) == Table(table)
      modifies ram`mem
      ensures Valid() && Grew(old(State()), State())
      ensures OthersKept(ram.sharing, old(State()), State(), root / 4096, Vpn(va), Vpn(va) + 1)
      ensures Look(Snap(), Vpn(va)) == if e == 0 then Unmapped else Small(EntryFrame(e), EntryFlags(e))
      ensures PathsKept(old(ram.owner), old(ram.mem), ram.mem, false)
    {
      IndexIsIdx(va);
      ghost var w, v := State(), Vpn(va);
      LeafWorld(ram.sharing, w, root / 4096, v, e);
      ram.mem := Put(ram.mem, table, PageIndex(va, 12), e);
      assert State() == w.(mem := Put(w.mem, table, Idx(v, 3), e));
    }

    /**
     Map `n` existing physical pages.  The first `done` pages are mapped as asked whether or not
     the call succeeds; it fails midway only when the frames run out.
     */
    method MapPhysical(va: Word, pa: Word, n: nat, flags: Word) returns (ok: bool, ghost done: nat)
      requires Valid() && IsPageFlags(flags)
      requires Vpn(va) + n <= VPN_LIMIT && pa / 4096 + n <= FRAME_LIMIT
      requires forall u: nat | Vpn(va) <= u < Vpn(va) + n :: !Look(Snap(), u).Large?
      modifies this`root, this`initialized, frames`free, frames`freePageCount, frames.bitmap, ram
      ensures Valid() && done <= n
      ensures MappedRun(ram.sharing, old(Snap()), Snap(), Vpn(va), done, pa / 4096, flags)
      ensures RunOpen(old(Snap()), Snap(), Vpn(va), Vpn(va) + done, HasUser(flags))
      ensures ok <==> n != 0 && va % 4096 == 0 && pa % 4096 == 0 && done == n
      ensures !ok && n != 0 && va % 4096 == 0 && pa % 4096 == 0 ==> frames.free == {}
    {
      ok, done := false, 0;
      MappedRunNone(ram.sharing, Snap(), Vpn(va), pa / 4096, flags);
      RunOpenNone(Snap(), Vpn(va), HasUser(flags));
      if n == 0 || va % 4096 != 0 || pa % 4096 != 0 { return; }
      ghost var s0 := Snap();
      var i := 0;
      while i < n
        invariant i <= n && done == i
        invariant Valid() && MappedRun(ram.sharing, s0, Snap(), Vpn(va), i, pa / 4096, flags)
        invariant RunOpen(s0, Snap(), Vpn(va), Vpn(va) + i, HasUser(flags))
      {
        var mapped := MapNext(s0, va, pa, i, flags, Vpn(va) + i, pa / 4096 + i);
        if !mapped { return; }
        i, done := i + 1, done + 1;
      }
      ok := true;
    }

    /** Page `i` of a range whose first `i` pages are mapped. */
    method MapNext(ghost s0: Space, va: Word, pa: Word, i: nat, flags: Word, ghost v: nat, ghost f: nat)
      returns (ok: bool)
      requires Valid() && IsPageFlags(flags) && pa % 4096 == 0 && v == Vpn(va) + i && f == pa / 4096 + i
      requires v < VPN_LIMIT && f < FRAME_LIMIT && !Look(s0, v).Large?
      requires MappedRun(ram.sharing, s0, Snap(), Vpn(va), i, pa / 4096, flags)
      requires RunOpen(s0, Snap(), Vpn(va), v, HasUser(flags))
      modifies this`root, this`initialized, frames`free, frames`freePageCount, frames.bitmap, ram
      ensures Valid()
      ensures ok ==> MappedRun(ram.sharing, s0, Snap(), Vpn(va), i + 1, pa / 4096, flags)
      ensures !ok ==> MappedRun(ram.sharing, s0, Snap(), Vpn(va), i, pa / 4096, flags) && frames.free == {}
      ensures RunOpen(s0, Snap(), Vpn(va), if ok then v + 1 else v, HasUser(flags))
    {
      PageStep(va, i, i + 1);
      FrameStep(pa, i);
      ghost var s := Snap();
      ok := MapPage(va + i * 4096, pa + i * 4096, flags, v, f);
      RunOpenStep(s0, s, Snap(), Vpn(va), v, if ok then v + 1 else v, HasUser(flags));
      if ok {
        MappedRunStep(ram.sharing, s0, s, Snap(), Vpn(va), i, v, pa / 4096, f, flags);
      } else {
        MappedRunStays(ram.sharing, s0, s, Snap(), Vpn(va), i, pa / 4096, flags);
      }
    }

    /**
     Allocate, clear and map `n` pages.  The first `done` pages are fresh whether or not the call
     succeeds; on failure midway the frames have run out and the last one taken is left unmapped.
     */
    method AllocateAndMap(va: Word, n: nat, flags: Word) returns (ok: bool, ghost done: nat)
      requires Valid() && IsPageFlags(flags) && Vpn(va) + n <= VPN_LIMIT
      requires forall u: nat | Vpn(va) <= u < Vpn(va) + n :: !Look(Snap(), u).Large?
      modifies this`root, this`initialized, frames`free, frames`freePageCount, frames.bitmap, ram
      ensures Valid() && done <= n
      ensures FreshRun(ram.sharing, old(Snap()), Snap(), Vpn(va), done, flags)
      ensures RunOpen(old(Snap()), Snap(), Vpn(va), Vpn(va) + done, HasUser(flags))
      ensures ok <==> n != 0 && va % 4096 == 0 && done == n
      ensures !ok && n != 0 && va % 4096 == 0 ==> frames.free == {}
    {
      ok, done := false, 0;
      FreshRunNone(ram.sharing, Snap(), Vpn(va), flags);
      RunOpenNone(Snap(), Vpn(va), HasUser(flags));
      if n == 0 || va % 4096 != 0 { return; }
      ghost var s0 := Snap();
      var i := 0;
      while i < n
        invariant i <= n && done == i
        invariant Valid() && FreshRun(ram.sharing, s0, Snap(), Vpn(va), i, flags)
        invariant RunOpen(s0, Snap(), Vpn(va), Vpn(va) + i, HasUser(flags))
      {
        var mapped := AllocateNext(s0, va, i, flags, Vpn(va) + i);
        if !mapped { return; }
        i, done := i + 1, done + 1;
      }
      ok := true;
    }

    /** Page `i` of a range whose first `i` pages are fresh. */
    method AllocateNext(ghost s0: Space, va: Word, i: nat, flags: Word, ghost v: nat) returns (ok: bool)
      requires Valid() && IsPageFlags(flags) && v == Vpn(va) + i && v < VPN_LIMIT && !Look(s0, v).Large?
      requires FreshRun(ram.sharing, s0, Snap(), Vpn(va), i, flags)
      requires RunOpen(s0, Snap(), Vpn(va), v, HasUser(flags))
      modifies this`root, this`initialized, frames`free, frames`freePageCount, frames.bitmap, ram
      ensures Valid()
      ensures ok ==> FreshRun(ram.sharing, s0, Snap(), Vpn(va), i + 1, flags)
      ensures !ok ==> FreshRun(ram.sharing, s0, Snap(), Vpn(va), i, flags) && frames.free == {}
      ensures RunOpen(s0, Snap(), Vpn(va), if ok then v + 1 else v, HasUser(flags))
    {
      PageStep(va, i, i + 1);
      ghost var s := Snap();
      ok := AllocatePage(va + i * 4096, flags, v);
      RunOpenStep(s0, s, Snap(), Vpn(va), v, if ok then v + 1 else v, HasUser(flags));
      if ok {
        FreshRunStep(ram.sharing, s0, s, Snap(), Vpn(va), i, v, flags);
      } else {
        FreshRunStays(ram.sharing, s0, s, Snap(), Vpn(va), i, flags);
      }
    }

    method AllocatePage(va: Word, flags: Word, ghost v: nat) returns (ok: bool)
      requires Valid() && IsPageFlags(flags) && v == Vpn(va) && !Look(Snap(), v).Large?
      modifies this`root, this`initialized, frames`free, frames`freePageCount, frames.bitmap, ram
      ensures Valid()
      ensures ok ==> FreshRun(ram.sharing, old(Snap()), Snap(), v, 1, flags)
      ensures !ok ==> Unmoved(old(Snap()), Snap()) && frames.free == {}
      ensures RunOpen(old(Snap()), Snap(), v, if ok then v + 1 else v, HasUser(flags))
    {
      ghost var s := Snap();
      var f;
      ok, f := TakeZeroedFrame();
      if !ok { return; }
      ghost var s1 := Snap();
      TakenUnmoved(ram.sharing, s, f);
      WithPresent(flags);
      PresentKeepsUser(flags);
      ok := MapPage(va, f * 4096, BitOr(flags, PRESENT), v, f);
      TakenOpen(ram.sharing, s, s1, Snap(), f, v, if ok then v + 1 else v, HasUser(flags));
      if ok {
        FreshRunOne(ram.sharing, s, s1, Snap(), v, f, flags);
        ram.owner := ram.owner[f := RoleOn(ram.sharing, root / 4096, v, 4)];
      } else {
        UnmovedTransitive(s, s1, Snap());
      }
    }

    /** Share the kernel's and the direct map's top-level entries of another root. */
    method CloneKernelMappings(source: nat, kernelSlot: nat, directSlot: nat) returns (ok: bool)
      requires Valid() && source % 4096 == 0 && IsRoot(ram.owner, source / 4096)
      requires kernelSlot in ram.sharing.slots && directSlot in ram.sharing.slots && kernelSlot < 512
      requires directSlot < 512
      modifies this`root, this`initialized, frames`free, frames`freePageCount, frames.bitmap, ram
      ensures Valid() && Extended(old(Snap()), Snap())
      ensures ok <==> old(initialized) || old(frames.free) != {}
      ensures ok ==> initialized && Shared(old(Snap()), Snap(), source / 4096, {kernelSlot, directSlot})
      ensures ok && !old(initialized) ==> root / 4096 in old(frames.free)
      ensures !ok ==> Snap() == old(Snap())
    {
      ok := EnsureRoot();
      if !ok { return; }
      ghost var s1 := Snap();
      CloneEntry(source / 4096, kernelSlot);
      ghost var s2 := Snap();
      CloneEntry(source / 4096, directSlot);
      SharedTwice(old(Snap()), s1, s2, Snap(), source / 4096, kernelSlot, directSlot);
    }

    /** Copy one shared top-level entry. */
    method CloneEntry(source: nat, slot: nat)
      requires Valid() && initialized && IsRoot(ram.owner, source) && slot in ram.sharing.slots && slot < 512
      modifies ram`mem
      ensures Valid() && Extended(old(Snap()), Snap()) && Shared(old(Snap()), Snap(), source, {slot})
    {
      CloneWorld(ram.sharing, State(), root / 4096, source, slot);
      ram.mem := Put(ram.mem, root / 4096, slot, Entry(ram.mem, source, slot));
    }

    /** Map one 2 MiB block, replacing whatever the second-lowest-level entry held. */
    method MapBlock(va: Word, pa: Word, flags: Word, ghost v: nat, ghost f: nat) returns (ok: bool)
      requires Valid() && IsPageFlags(flags)
      requires v == Vpn(va) && f == pa / 4096 && v % 512 == 0
      requires pa % 4096 == 0 && f % 512 == 0 && f < FRAME_LIMIT
      modifies this`root, this`initialized, frames`free, frames`freePageCount, frames.bitmap, ram
      ensures Valid()
      ensures ok ==> MappedBlock(ram.sharing, old(Snap()), Snap(), v, f, flags)
      ensures !ok ==> Unmoved(old(Snap()), Snap()) && frames.free == {}
      ensures BlocksOpen(ram.sharing, old(Snap()), Snap(), v, if ok then v + 512 else v, HasUser(flags))
    {
      UserTest(flags);
      ghost var hi, user := v + 512, HasUser(flags);
      var table;
      ok, table := WalkToDirectory(va, BitAnd(flags, USER) == USER);
      ghost var s := Snap();
      BlocksOpenNone(ram.sharing, old(Snap()), s, v, user);
      if ok {
        var e := BlockEntry(pa, flags);
        BlockEntryIs(pa, flags);
        WriteBlock(va, table, e, v, hi);
        MappedBlockOne(ram.sharing, old(Snap()), s, Snap(), v, f, flags, e);
        BlockAdded(ram.sharing, old(Snap()), s, Snap(), v, hi, user);
      }
    }

    /**
     `map_physical_2m`: map `n` blocks.  The first `done` blocks are mapped as asked whether or not
     the call succeeds; it fails midway only when the frames run out.
     */
    method MapPhysical2M(va: Word, pa: Word, n: nat, flags: Word) returns (ok: bool, ghost done: nat)
      requires Valid() && IsPageFlags(flags)
      requires Vpn(va) + 512 * n <= VPN_LIMIT && pa / 4096 + 512 * n <= FRAME_LIMIT
      modifies this`root, this`initialized, frames`free, frames`freePageCount, frames.bitmap, ram
      ensures Valid() && done <= n
      ensures MappedBlocks(ram.sharing, old(Snap()), Snap(), Vpn(va), Vpn(va) + 512 * done, pa / 4096, flags)
      ensures BlocksOpen(ram.sharing, old(Snap()), Snap(), Vpn(va), Vpn(va) + 512 * done, HasUser(flags))
      ensures ok <==> n != 0 && va % 0x20_0000 == 0 && pa % 0x20_0000 == 0 && done == n
      ensures !ok && n != 0 && va % 0x20_0000 == 0 && pa % 0x20_0000 == 0 ==> frames.free == {}
    {
      ok, done := false, 0;
      MappedBlocksNone(ram.sharing, Snap(), Vpn(va), pa / 4096, flags);
      BlocksOpenNone(ram.sharing, Snap(), Snap(), Vpn(va), HasUser(flags));
      if n != 0 && va % 0x20_0000 == 0 && pa % 0x20_0000 == 0 {
        ghost var end;
        ok, done, end := MapBlocks(va, pa, n, flags, Vpn(va), pa / 4096);
        assert end == Vpn(va) + 512 * done;
      }
    }

    method MapBlocks(va: Word, pa: Word, n: nat, flags: Word, ghost lo: nat, ghost f: nat)
      returns (ok: bool, ghost done: nat, ghost end: nat)
      requires Valid() && IsPageFlags(flags) && va % 0x20_0000 == 0 && pa % 0x20_0000 == 0
      requires lo == Vpn(va) && f == pa / 4096 && lo + 512 * n <= VPN_LIMIT && f + 512 * n <= FRAME_LIMIT
      modifies this`root, this`initialized, frames`free, frames`freePageCount, frames.bitmap, ram
      ensures Valid() && done <= n && end == lo + 512 * done
      ensures MappedBlocks(ram.sharing, old(Snap()), Snap(), lo, end, f, flags)
      ensures BlocksOpen(ram.sharing, old(Snap()), Snap(), lo, end, HasUser(flags))
      ensures if ok then done == n else done < n && frames.free == {}
    {
      ok, done, end := true, 0, lo;
      MappedBlocksNone(ram.sharing, Snap(), lo, f, flags);
      BlocksOpenNone(ram.sharing, Snap(), Snap(), lo, HasUser(flags));
      var i := 0;
      while ok && i < n
        invariant i <= n && done <= i && end == lo + 512 * done
        invariant if ok then done == i else done < i && frames.free == {}
        invariant Valid() && MappedBlocks(ram.sharing, old(Snap()), Snap(), lo, end, f, flags)
        invariant BlocksOpen(ram.sharing, old(Snap()), Snap(), lo, end, HasUser(flags))
      {
        BlockStep(va, i, n, end);
        BlockAddress(pa, i);
        ghost var next, g := end + 512, f + (end - lo);
        ok := MapNextBlock(old(Snap()), va + i * 0x20_0000, pa + i * 0x20_0000, flags, lo, end, next, f, g);
        if ok { done, end := done + 1, next; }
        i := i + 1;
      }
    }

    /** The block at `v`, behind those from `lo` on. */
    method MapNextBlock(ghost s0: Space, va: Word, pa: Word, flags: Word, ghost lo: nat, ghost v: nat, ghost next: nat,
                        ghost f: nat, ghost g: nat)
      returns (ok: bool)
      requires Valid() && IsPageFlags(flags) && v == Vpn(va) && g == pa / 4096 && v % 512 == 0 && g % 512 == 0
      requires pa % 4096 == 0 && g < FRAME_LIMIT && lo <= v && next == v + 512 <= VPN_LIMIT && g == f + (v - lo)
      requires MappedBlocks(ram.sharing, s0, Snap(), lo, v, f, flags)
      requires BlocksOpen(ram.sharing, s0, Snap(), lo, v, HasUser(flags))
      modifies this`root, this`initialized, frames`free, frames`freePageCount, frames.bitmap, ram
      ensures Valid()
      ensures ok ==> MappedBlocks(ram.sharing, s0, Snap(), lo, next, f, flags)
      ensures !ok ==> MappedBlocks(ram.sharing, s0, Snap(), lo, v, f, flags) && frames.free == {}
      ensures BlocksOpen(ram.sharing, s0, Snap(), lo, if ok then next else v, HasUser(flags))
    {
      ghost var s := Snap();
      ok := MapBlock(va, pa, flags, v, g);
      BlocksOpenStep(ram.sharing, s0, s, Snap(), lo, v, if ok then next else v, HasUser(flags));
      if ok {
        MappedBlocksStep(ram.sharing, s0, s, Snap(), lo, v, next, f, g, flags);
      } else {
        MappedBlocksStay(ram.sharing, s0, s, Snap(), lo, v, f, flags);
      }
    }

    /** The root and the two upper levels, created as needed. */
    method WalkToDirectory(va: Word, userVisible: bool) returns (ok: bool, table: nat)
      requires Valid()
      modifies this`root, this`initialized, frames`free, frames`freePageCount, frames.bitmap, ram
      ensures Valid() && Unmoved(old(Snap()), Snap())
      ensures ok ==> initialized && Descend(ram.mem, root / 4096, Vpn(va), 2) == Table(table)
      ensures !ok ==> frames.free == {}
      ensures PathsKept(old(ram.owner), old(ram.mem), ram.mem, userVisible)
      ensures ok && userVisible ==> Open(ram.mem, root / 4096, Vpn(va), 2)
    {
      table := 0;
      ok := EnsureRoot();
      PathsWiden(old(ram.owner), old(ram.mem), ram.mem, userVisible);
      if ok {
        ghost var s := Snap();
        ok, table := UpperTables(va, true, userVisible, Vpn(va));
        SameWalksUnmoved(ram.sharing, s, Snap());
        UnmovedTransitive(old(Snap()), s, Snap());
        PathsKeptOn(old(ram.owner), s.w.owner, old(ram.mem), s.w.mem, ram.mem, userVisible);
      }
    }

    method WriteBlock(va: Word, table: nat, e: Word, ghost v: nat, ghost hi: nat)
      requires v == Vpn(va) && Valid() && initialized && Descend(ram.mem, root / 4096, v, 2) == Table(table)
      requires IsLarge(e) && e != 0 && v % 512 == 0 && hi == v + 512
      modifies ram`mem
      ensures Valid() && Grew(old(State()), State())
      ensures OthersKept(ram.sharing, old(State()), State(), root / 4096, v, hi)
      ensures BlockLeaves(Snap(), v, e)
      ensures PathsKeptBeside(ram.sharing, old(ram.owner), old(ram.mem), ram.mem, root / 4096, v, hi, false)
      ensures HasUser(e) && old(Open(ram.mem, root / 4096, v, 2)) ==> forall u: nat | v <= u < hi ::
                UserPath(ram.mem, root / 4096, u)
    {
      IndexIsIdx(va);
      ghost var w := State();
      BlockWorld(ram.sharing, w, root / 4096, v, e);
      BlockRights(ram.sharing, w, root / 4096, v, table, e, hi);
      ram.mem := Put(ram.mem, table, PageIndex(va, 21), e);
      assert State() == w.(mem := Put(w.mem, table, Idx(v, 2), e));
    }
  }

  lemma BlockRights(c: Sharing, w: World, root: nat, v: nat, t: nat, e: Word, hi: nat)
    requires Sound(c, w) && IsRoot(w.owner, root) && Descend(w.mem, root, v, 2) == Table(t)
    requires v < VPN_LIMIT && v % 512 == 0 && hi == v + 512
    ensures HasFrame(w.mem, t)
    ensures var now := Put(w.mem, t, Idx(v, 2), e);
            && PathsKeptBeside(c, w.owner, w.mem, now, root, v, hi, false)
            && (HasUser(e) && Open(w.mem, root, v, 2) ==> forall u: nat | v <= u < hi :: UserPath(now, root, u))
  {
    BlockPaths(c, w.mem, w.owner, root, v, t, e, hi);
    var now := Put(w.mem, t, Idx(v, 2), e);
    if HasUser(e) && Open(w.mem, root, v, 2) {
      forall u: nat | v <= u < hi ensures UserPath(now, root, u) {
        BlockOf(u, v);
        SameOpen(w.mem, root, v, u, 2);
        BlockOpen(c, w.mem, w.owner, root, v, t, e, u);
      }
    }
  }

  ghost function FirstRoot(s: Space, f: nat): Space
    requires HasFrame(s.w.mem, f)
  {
    Space(World(ZeroPage(s.w.mem, f), s.w.owner[f := Role(f, 0, 0)], s.w.free - {f}), true, f)
  }

  lemma NewSpace(c: Sharing, s: Space, f: nat)
    requires Sound(c, s.w) && f in s.w.free && !s.live
    ensures Sound(c, FirstRoot(s, f).w) && Unmoved(s, FirstRoot(s, f)) && IsRoot(FirstRoot(s, f).w.owner, f)
    ensures PathsKept(s.w.owner, s.w.mem, FirstRoot(s, f).w.mem, false)
  {
    NewRoot(c, s.w, f);
    AgreePaths(c, s.w.owner, s.w.mem, ZeroPage(s.w.mem, f));
  }

  /** A cleared frame becomes a root that maps nothing and disturbs nothing. */
  lemma NewRoot(c: Sharing, w: World, f: nat)
    requires Sound(c, w) && f in w.free
    ensures var w' := World(ZeroPage(w.mem, f), w.owner[f := Role(f, 0, 0)], w.free - {f});
            && Sound(c, w') && Grew(w, w') && SameWalks(w.owner, w.mem, w'.mem)
            && forall v: nat | v < VPN_LIMIT :: Walk(w'.mem, f, v) == Unmapped
  {
    var now, grown := ZeroPage(w.mem, f), w.owner[f := Role(f, 0, 0)];
    forall t: nat, i: nat | i < 512 && LeadsDown(now, grown, t, i)
      ensures Hooked(c, now, grown, t, i)
    {
      assert LeadsDown(w.mem, w.owner, t, i);
    }
    forall r: nat, v: nat | IsRoot(w.owner, r) && v < VPN_LIMIT ensures Walk(now, r, v) == Walk(w.mem, r, v) {
      AgreeWalk(c, w.owner, w.mem, now, r, v);
    }
    forall v: nat | v < VPN_LIMIT ensures Walk(now, f, v) == Unmapped {
      EmptyTableIsDead(now, f, v, 0, f);
    }
  }

  /** On a walk that meets no 2 MiB entry, a non-empty entry leads to the next table. */
  lemma OnPath(c: Sharing, w: World, root: nat, v: nat, k: nat)
    requires Sound(c, w) && IsRoot(w.owner, root) && k <= 2 && v < VPN_LIMIT
    requires Descend(w.mem, root, v, k).Table?
    requires k == 2 ==> !Walk(w.mem, root, v).Large? || Descend(w.mem, root, v, 3) == Dead
    ensures var t := Descend(w.mem, root, v, k).t;
            var e := Entry(w.mem, t, Idx(v, k));
            && t in w.owner && w.owner[t].depth == k
            && (e == 0 ==> Descend(w.mem, root, v, k + 1) == Dead)
            && (e != 0 ==>
                LeadsDown(w.mem, w.owner, t, Idx(v, k)) &&
                Descend(w.mem, root, v, k + 1) == Table(EntryFrame(e)))
  {
    DescendRole(c, w.mem, w.owner, root, v, k);
  }

  /** The world after `next` is hooked in as the table below depth `k` on the walk of `v`. */
  ghost function GrownWorld(c: Sharing, w: World, t: nat, i: nat, f: nat, flags: Word): World
    requires t in w.owner && i < 512 && f < FRAME_LIMIT && HasFrame(w.mem, t) && HasFrame(w.mem, f)
  {
    World(Grown(w.mem, t, i, f, flags), w.owner[f := Child(c, w.owner[t], i)], w.free - {f})
  }

  lemma GrowWorld(c: Sharing, w: World, root: nat, v: nat, k: nat, k': nat, t: nat, i: nat, f: nat, flags: Word)
    requires Sound(c, w) && IsRoot(w.owner, root) && k <= 2 && k' == k + 1 && v < VPN_LIMIT && i == Idx(v, k)
    requires Descend(w.mem, root, v, k) == Table(t) && Descend(w.mem, root, v, k') == Dead
    requires f in w.free && flags != 0 && IsPageFlags(flags) && TableBits(flags)
    ensures f < FRAME_LIMIT && t in w.owner && HasFrame(w.mem, t) && HasFrame(w.mem, f)
    ensures var w' := GrownWorld(c, w, t, i, f, flags);
            && Sound(c, w') && Grew(w, w') && SameWalks(w.owner, w.mem, w'.mem)
            && Descend(w'.mem, root, v, k) == Table(t) && Descend(w'.mem, root, v, k') == Table(f)
            && PathsKept(w.owner, w.mem, w'.mem, HasUser(flags))
            && (HasUser(flags) && Open(w.mem, root, v, k) ==> Open(w'.mem, root, v, k'))
  {
    DescendRole(c, w.mem, w.owner, root, v, k);
    GrowShape(c, w.mem, w.owner, t, i, f, flags);
    GrowDescend(c, w.mem, w.owner, t, f, flags, root, v, k);
    GrowPaths(c, w.mem, w.owner, t, i, f, flags);
    GrowOpen(c, w.mem, w.owner, t, f, flags, root, v, k, k');
    forall r: nat, u: nat | IsRoot(w.owner, r) && u < VPN_LIMIT
      ensures Walk(Grown(w.mem, t, i, f, flags), r, u) == Walk(w.mem, r, u)
    {
      GrowWalk(c, w.mem, w.owner, t, i, f, flags, r, u);
    }
  }

  lemma MarkUserWorld(c: Sharing, w: World, root: nat, v: nat, k: nat, k': nat)
    requires Sound(c, w) && IsRoot(w.owner, root) && k <= 2 && k' == k + 1 && v < VPN_LIMIT
    requires Descend(w.mem, root, v, k).Table? && Descend(w.mem, root, v, k').Table?
    ensures var t := Descend(w.mem, root, v, k).t;
            HasFrame(w.mem, t) &&
            var w' := w.(mem := Put(w.mem, t, Idx(v, k), BitOr(Entry(w.mem, t, Idx(v, k)), USER)));
            && Sound(c, w') && Grew(w, w') && SameWalks(w.owner, w.mem, w'.mem)
            && Descend(w'.mem, root, v, k) == Table(t)
            && Descend(w'.mem, root, v, k') == Descend(w.mem, root, v, k')
            && PathsKept(w.owner, w.mem, w'.mem, true)
            && (Open(w.mem, root, v, k) ==> Open(w'.mem, root, v, k'))
  {
    var t := Descend(w.mem, root, v, k).t;
    var i := Idx(v, k);
    DescendRole(c, w.mem, w.owner, root, v, k);
    assert LeadsDown(w.mem, w.owner, t, i);
    MarkUserShape(c, w.mem, w.owner, t, i);
    MarkUserPaths(c, w.mem, w.owner, t, i);
    forall j: nat | j < k' ensures Descend(w.mem, root, v, j) == Table(t) ==> w.owner[t].depth == j {
      DescendRole(c, w.mem, w.owner, root, v, j);
    }
    MarkUserDescend(w.mem, w.owner, t, i, root, v, k);
    MarkUserDescend(w.mem, w.owner, t, i, root, v, k');
    MarkUserOpen(w.mem, w.owner, t, i, root, v, k');
    forall r: nat, u: nat | IsRoot(w.owner, r) && u < VPN_LIMIT
      ensures Walk(Put(w.mem, t, i, BitOr(Entry(w.mem, t, i), USER)), r, u) == Walk(w.mem, r, u)
    {
      MarkUserWalk(c, w.mem, w.owner, t, i, r, u);
    }
  }

  /** The world after the lowest-level entry of page `v` is overwritten. */
  lemma LeafWorld(c: Sharing, w: World, root: nat, v: nat, e: Word)
    requires Sound(c, w) && IsRoot(w.owner, root) && v < VPN_LIMIT && Descend(w.mem, root, v, 3).Table?
    ensures var t := Descend(w.mem, root, v, 3).t;
            HasFrame(w.mem, t) &&
            var w' := w.(mem := Put(w.mem, t, Idx(v, 3), e));
            && Sound(c, w') && Grew(w, w') && OthersKept(c, w, w', root, v, v + 1)
            && PathsKept(w.owner, w.mem, w'.mem, false)
            && Walk(w'.mem, root, v) == if e == 0 then Unmapped else Small(EntryFrame(e), EntryFlags(e))
  {
    var t := Descend(w.mem, root, v, 3).t;
    DescendRole(c, w.mem, w.owner, root, v, 3);
    LeafShape(c, w.mem, w.owner, t, Idx(v, 3), e);
    LeafPaths(c, w.mem, w.owner, t, Idx(v, 3), e);
    LeafWalk(c, w.mem, w.owner, root, v, t, e, root, v);
    forall r: nat, u: nat | IsRoot(w.owner, r) && u < VPN_LIMIT && !(u == v && (r == root || Idx(u, 0) in c.slots))
      ensures Walk(Put(w.mem, t, Idx(v, 3), e), r, u) == Walk(w.mem, r, u)
    {
      LeafWalk(c, w.mem, w.owner, root, v, t, e, r, u);
    }
  }
}

/**
 What a user address space holds while a program is loaded into it: a list of segments, of which the
 last one that covers a page decides that page's flags and bytes.
 */
module UserImage {
  import opened Basics
  import opened Word64
  import opened Entries
  import opened Paging
  import opened UserAccess
  import opened VirtualMemories
  import opened SlotTeardown
  import opened UserCopy
  import opened UserElf

  const USER_SLOT: nat := 1

  /** The virtual pages of top-level slot 1. */
  const SLOT_FIRST: nat := 0x800_0000
  const SLOT_END: nat := 0x1000_0000

  /** Pages `[lo, hi)` with `flags`, holding `bytes` from address `vaddr` on and zeros elsewhere. */
  datatype Segment = Segment(lo: nat, hi: nat, flags: Word, vaddr: nat, bytes: seq<Byte>)

  predicate Covers(g: Segment, v: nat) { g.lo <= v < g.hi }

  ghost predicate IsSegment(g: Segment)
  {
    && SLOT_FIRST <= g.lo && g.hi <= SLOT_END
    && IsPageFlags(g.flags) && BitOr(g.flags, PRESENT) == g.flags
    && g.lo * 4096 <= g.vaddr && g.vaddr + |g.bytes| <= g.hi * 4096
  }

  function ByteIn(g: Segment, va: nat): Byte
  {
    if g.vaddr <= va < g.vaddr + |g.bytes| then g.bytes[va - g.vaddr] else 0
  }

  /** The last segment that covers page `v`. */
  function Covering(segs: seq<Segment>, v: nat): Option<Segment>
  {
    if segs == [] then None
    else
      var last := segs[|segs| - 1];
      if Covers(last, v) then Some(last) else Covering(segs[..|segs| - 1], v)
  }

  lemma CoveringAppend(segs: seq<Segment>, g: Segment, v: nat)
    ensures Covering(segs + [g], v) == if Covers(g, v) then Some(g) else Covering(segs, v)
  {
    assert (segs + [g])[..|segs|] == segs;
  }

  /** Page `v` maps a frame of its own. */
  ghost predicate OwnPage(s: Space, v: nat)
  {
    var leaf := Look(s, v);
    leaf.Small? && leaf.frame !in s.w.free && leaf.frame in s.w.owner && s.w.owner[leaf.frame] == Role(s.root, 4, v)
  }

  /** Physical address of byte `va` of an own page. */
  ghost function Place(s: Space, va: nat): nat
    requires OwnPage(s, va / 4096)
  {
    Look(s, va / 4096).frame * 4096 + va % 4096
  }

  ghost predicate PageHolds(s: Space, v: nat, o: Option<Segment>)
  {
    match o
    case None => Look(s, v) == Unmapped
    case Some(g) =>
      && OwnPage(s, v) && Look(s, v).flags == g.flags
      && forall va: nat | va / 4096 == v :: ByteAt(s.w.mem, Place(s, va)) == ByteIn(g, va)
  }

  /** The user slot holds exactly these segments, later ones over earlier ones. */
  ghost predicate Holds(s: Space, segs: seq<Segment>)
  {
    s.live && forall v: nat | SLOT_FIRST <= v < SLOT_END :: PageHolds(s, v, Covering(segs, v))
  }

  /** User mode gets through to every page that a user-visible segment covers. */
  ghost predicate OpenTo(s: Space, segs: seq<Segment>)
  {
    forall v: nat | SLOT_FIRST <= v < SLOT_END && Covering(segs, v).Some? && HasUser(Covering(segs, v).value.flags) ::
      UserPath(s.w.mem, s.root, v)
  }

  lemma OpenToFresh(s0: Space, s1: Space, segs: seq<Segment>, g: Segment)
    requires OpenTo(s0, segs) && IsRoot(s0.w.owner, s0.root) && s1.root == s0.root
    requires RunOpen(s0, s1, g.lo, g.hi, HasUser(g.flags))
    ensures OpenTo(s1, segs + [g])
  {
    forall v: nat | SLOT_FIRST <= v < SLOT_END && Covering(segs + [g], v).Some? &&
        HasUser(Covering(segs + [g], v).value.flags)
      ensures UserPath(s1.w.mem, s1.root, v)
    {
      CoveringAppend(segs, g, v);
      assert PathKept(s0.w.mem, s1.w.mem, s0.root, v, HasUser(g.flags));
    }
  }

  lemma OpenToCopied(c: Sharing, s: Space, s': Space, segs: seq<Segment>, g: Segment)
    requires Sound(c, s.w) && IsRoot(s.w.owner, s.root) && OpenTo(s, segs + [g.(bytes := [])])
    requires s' == s.(w := s.w.(mem := s'.w.mem)) && AgreeOnTables(s.w.owner, s.w.mem, s'.w.mem)
    ensures OpenTo(s', segs + [g])
  {
    forall v: nat | SLOT_FIRST <= v < SLOT_END && Covering(segs + [g], v).Some? &&
        HasUser(Covering(segs + [g], v).value.flags)
      ensures UserPath(s'.w.mem, s'.root, v)
    {
      CoveringAppend(segs, g, v);
      CoveringAppend(segs, g.(bytes := []), v);
      AgreeOpen(c, s.w.owner, s.w.mem, s'.w.mem, s.root, v, 3);
      assert UserPath(s.w.mem, s.root, v);
    }
  }

  lemma SlotPages(v: nat)
    requires v < VPN_LIMIT
    ensures Idx(v, 0) == USER_SLOT <==> SLOT_FIRST <= v < SLOT_END
  {}

  // ----- bytes and words

  lemma ByteOfEntry(mem: Memory, f: nat, off: nat)
    requires off < 4096
    ensures ByteAt(mem, f * 4096 + off) == GetByte(Entry(mem, f, off / 8), off % 8)
  {}

  lemma {:induction false} ZeroByte(k: nat)
    ensures GetByte(0, k) == 0
    decreases k
  {
    if k > 0 { ZeroByte(k - 1); }
  }

  // ----- mapping fresh pages

  lemma PageStays(s0: Space, s1: Space, v: nat, o: Option<Segment>)
    requires PageHolds(s0, v, o) && Extended(s0, s1) && s0.live && Look(s1, v) == Look(s0, v)
    ensures PageHolds(s1, v, o)
  {
    if o.Some? {
      var f := Look(s0, v).frame;
      forall va: nat | va / 4096 == v ensures ByteAt(s1.w.mem, Place(s1, va)) == ByteAt(s0.w.mem, Place(s0, va)) {
        ByteOfEntry(s0.w.mem, f, va % 4096);
        ByteOfEntry(s1.w.mem, f, va % 4096);
      }
    }
  }

  lemma FreshHolds(c: Sharing, w0: World, s: Space, v: nat, g: Segment)
    requires FreshPage(c, w0, s, v, g.flags) && SLOT_FIRST <= v < SLOT_END && USER_SLOT !in c.slots
    requires BitOr(g.flags, PRESENT) == g.flags && g.bytes == []
    ensures PageHolds(s, v, Some(g))
  {
    SlotPages(v);
    PrefixIsAll(v);
    forall va: nat | va / 4096 == v ensures ByteAt(s.w.mem, Place(s, va)) == 0 {
      ByteOfEntry(s.w.mem, Look(s, v).frame, va % 4096);
      ZeroByte(va % 4096 % 8);
    }
  }

  lemma FreshSegment(c: Sharing, s0: Space, s1: Space, segs: seq<Segment>, g: Segment, n: nat)
    requires Holds(s0, segs) && IsSegment(g) && g.bytes == [] && g.hi == g.lo + n && USER_SLOT !in c.slots
    requires FreshRun(c, s0, s1, g.lo, n, g.flags)
    ensures Holds(s1, segs + [g])
  {
    forall v: nat | SLOT_FIRST <= v < SLOT_END ensures PageHolds(s1, v, Covering(segs + [g], v)) {
      CoveringAppend(segs, g, v);
      if Covers(g, v) {
        FreshHolds(c, s0.w, s1, v, g);
      } else {
        PageStays(s0, s1, v, Covering(segs, v));
      }
    }
  }

  // ----- copying file bytes into them

  lemma OwnByte(c: Sharing, s: Space, va: nat)
    requires Sound(c, s.w) && s.live && va < SLOT_END * 4096 && OwnPage(s, va / 4096)
    ensures Probe(s.w.mem, s.root, va, Kernel) == Mapped(Place(s, va), Look(s, va / 4096).flags)
    ensures Place(s, va) / 4096 == Look(s, va / 4096).frame
  {
    VpnOfUser(va);
    var leaf := Walk(s.w.mem, s.root, Vpn(va));
    assert leaf == Look(s, va / 4096);
    ByteInFrame(s.w.mem, leaf.frame, va % 4096);
  }

  lemma VpnOfUser(va: nat)
    requires va < SLOT_END * 4096
    ensures va < WORD_LIMIT && Vpn(va) == va / 4096
  {}

  lemma PlacesApart(s: Space, x: nat, y: nat)
    requires OwnPage(s, x / 4096) && OwnPage(s, y / 4096) && Place(s, x) == Place(s, y)
    ensures x == y
  {
    assert Look(s, x / 4096).frame == Look(s, y / 4096).frame;
  }

  lemma SegmentByte(g: Segment, k: nat)
    requires IsSegment(g) && k < |g.bytes|
    ensures Covers(g, (g.vaddr + k) / 4096) && g.vaddr + k < SLOT_END * 4096
  {}

  ghost predicate OwnPages(s: Space, g: Segment)
  {
    forall v: nat | Covers(g, v) :: OwnPage(s, v)
  }

  /** Every byte of the segment goes to its place. */
  ghost predicate Placed(s: Space, g: Segment, ts: seq<Translation>)
  {
    && |ts| == |g.bytes| && DistinctTargets(ts)
    && forall k: nat | k < |ts| :: PlacedAt(s, ts[k], g.vaddr + k)
  }

  ghost predicate PlacedAt(s: Space, t: Translation, va: nat)
  {
    OwnPage(s, va / 4096) && t.Mapped? && t.physical == Place(s, va)
  }

  lemma SegmentTargets(c: Sharing, s: Space, g: Segment, ts: seq<Translation>)
    requires Sound(c, s.w) && s.live && IsSegment(g) && OwnPages(s, g)
    requires ts == Targets(s.w.mem, s.root, g.vaddr, |g.bytes|, Kernel)
    ensures Placed(s, g, ts)
  {
    forall k: nat | k < |ts| ensures PlacedAt(s, ts[k], g.vaddr + k) {
      SegmentTarget(c, s, g, ts, k, g.vaddr + k);
    }
    forall i: nat, j: nat | i < j < |ts| && ts[i].Mapped? && ts[j].Mapped? ensures ts[i].physical != ts[j].physical {
      assert PlacedAt(s, ts[i], g.vaddr + i) && PlacedAt(s, ts[j], g.vaddr + j);
      PlacedApart(s, ts[i], g.vaddr + i, g.vaddr + j);
    }
  }

  lemma SegmentTarget(c: Sharing, s: Space, g: Segment, ts: seq<Translation>, k: nat, va: nat)
    requires Sound(c, s.w) && s.live && IsSegment(g) && OwnPages(s, g)
    requires ts == Targets(s.w.mem, s.root, g.vaddr, |g.bytes|, Kernel) && k < |ts| && va == g.vaddr + k
    ensures PlacedAt(s, ts[k], va)
  {
    TargetAt(s.w.mem, s.root, g.vaddr, |g.bytes|, Kernel, k);
    SegmentByte(g, k);
    OwnByte(c, s, va);
  }

  lemma PlacedApart(s: Space, t: Translation, x: nat, y: nat)
    requires PlacedAt(s, t, x) && OwnPage(s, y / 4096) && x != y
    ensures t.physical != Place(s, y)
  {
    if Place(s, x) == Place(s, y) { PlacesApart(s, x, y); }
  }

  /** After the copy, byte `va` of an own page is the segment's if the segment has it, and unchanged if not. */
  lemma CopiedByte(s: Space, g: Segment, ts: seq<Translation>, va: nat)
    requires Placed(s, g, ts) && InMemory(s.w.mem, ts) && Scatter(s.w.mem, ts, g.bytes).ok && OwnPage(s, va / 4096)
    ensures ByteAt(Scatter(s.w.mem, ts, g.bytes).mem, Place(s, va)) ==
            if g.vaddr <= va < g.vaddr + |g.bytes| then g.bytes[va - g.vaddr] else ByteAt(s.w.mem, Place(s, va))
  {
    if g.vaddr <= va < g.vaddr + |g.bytes| {
      ScatterWrites(s.w.mem, ts, g.bytes, va - g.vaddr);
      assert PlacedAt(s, ts[va - g.vaddr], g.vaddr + (va - g.vaddr));
    } else {
      var pa := Place(s, va);
      forall k: nat | k < |ts| && ts[k].Mapped? ensures ts[k].physical != pa {
        assert PlacedAt(s, ts[k], g.vaddr + k);
        PlacedApart(s, ts[k], g.vaddr + k, va);
      }
      ScatterKeeps(s.w.mem, ts, g.bytes, pa);
    }
  }

  lemma CopiedPlace(s: Space, s': Space, g: Segment, ts: seq<Translation>, v: nat, va: nat)
    requires IsSegment(g) && Placed(s, g, ts) && InMemory(s.w.mem, ts) && Scatter(s.w.mem, ts, g.bytes).ok
    requires OwnPage(s, v)
    requires s' == s.(w := s.w.(mem := Scatter(s.w.mem, ts, g.bytes).mem)) && Look(s', v) == Look(s, v)
    requires va / 4096 == v
    requires Covers(g, v) ==> forall x: nat | x / 4096 == v :: ByteAt(s.w.mem, Place(s, x)) == 0
    ensures ByteAt(s'.w.mem, Place(s', va)) == if Covers(g, v) then ByteIn(g, va) else ByteAt(s.w.mem, Place(s, va))
  {
    assert Place(s', va) == Place(s, va);
    CopiedByte(s, g, ts, va);
    if g.vaddr <= va < g.vaddr + |g.bytes| { SegmentByte(g, va - g.vaddr); }
  }

  lemma CopiedPage(s: Space, s': Space, g: Segment, ts: seq<Translation>, v: nat, o: Option<Segment>)
    requires IsSegment(g) && Placed(s, g, ts) && InMemory(s.w.mem, ts) && Scatter(s.w.mem, ts, g.bytes).ok
    requires s' == s.(w := s.w.(mem := Scatter(s.w.mem, ts, g.bytes).mem)) && Look(s', v) == Look(s, v)
    requires PageHolds(s, v, if Covers(g, v) then Some(g.(bytes := [])) else o)
    ensures PageHolds(s', v, if Covers(g, v) then Some(g) else o)
  {
    if !Look(s, v).Unmapped? {
      forall va: nat | va / 4096 == v
        ensures ByteAt(s'.w.mem, Place(s', va)) == if Covers(g, v) then ByteIn(g, va) else ByteAt(s.w.mem, Place(s, va))
      {
        CopiedPlace(s, s', g, ts, v, va);
      }
    }
  }

  lemma BlankPages(s: Space, segs: seq<Segment>, g: Segment)
    requires Holds(s, segs + [g.(bytes := [])]) && IsSegment(g)
    ensures OwnPages(s, g)
  {
    var blank := g.(bytes := []);
    forall v: nat | Covers(g, v) ensures OwnPage(s, v) {
      CoveringAppend(segs, blank, v);
      assert PageHolds(s, v, Covering(segs + [blank], v));
    }
  }

  lemma CopiedSegment(c: Sharing, s: Space, s': Space, segs: seq<Segment>, g: Segment, ts: seq<Translation>)
    requires Sound(c, s.w) && IsRoot(s.w.owner, s.root) && IsSegment(g) && Holds(s, segs + [g.(bytes := [])])
    requires ts == Targets(s.w.mem, s.root, g.vaddr, |g.bytes|, Kernel) && InMemory(s.w.mem, ts)
    requires s' == s.(w := s.w.(mem := Scatter(s.w.mem, ts, g.bytes).mem))
    requires AgreeOnTables(s.w.owner, s.w.mem, s'.w.mem)
    ensures Scatter(s.w.mem, ts, g.bytes).ok && Holds(s', segs + [g])
  {
    var blank := g.(bytes := []);
    BlankPages(s, segs, g);
    SegmentTargets(c, s, g, ts);
    ScatterVerdict(s.w.mem, ts, g.bytes);
    forall v: nat | SLOT_FIRST <= v < SLOT_END ensures PageHolds(s', v, Covering(segs + [g], v)) {
      CoveringAppend(segs, blank, v);
      CoveringAppend(segs, g, v);
      AgreeWalk(c, s.w.owner, s.w.mem, s'.w.mem, s.root, v);
      assert PageHolds(s, v, Covering(segs + [blank], v));
      CopiedPage(s, s', g, ts, v, Covering(segs, v));
    }
  }

  // ----- what the rest of the system sees

  /**
   The new space `s` in the old world `w0`: it translates as `source` does in the shared slots and
   maps nothing else outside the user slot; every older space keeps its translations and its data.
   */
  ghost predicate Beside(w0: World, s: Space, source: nat, shared: set<nat>)
  {
    && s.live && s.root !in w0.owner && Grew(w0, s.w)
    && (forall r: nat, v: nat | IsRoot(w0.owner, r) && v < VPN_LIMIT :: Walk(s.w.mem, r, v) == Walk(w0.mem, r, v))
    && (forall v: nat | SLOT_FIRST <= v < SLOT_END && Look(s, v) != Unmapped :: Look(s, v).frame in w0.free)
    && (forall v: nat | v < VPN_LIMIT && Idx(v, 0) in shared :: Look(s, v) == Walk(w0.mem, source, v))
    && (forall v: nat | v < VPN_LIMIT && Idx(v, 0) !in shared && Idx(v, 0) != USER_SLOT :: Look(s, v) == Unmapped)
  }

  lemma BesideFresh(c: Sharing, w0: World, s0: Space, s1: Space, source: nat, shared: set<nat>, lo: nat, n: nat,
                    flags: Word)
    requires Beside(w0, s0, source, shared) && FreshRun(c, s0, s1, lo, n, flags) && SLOT_FIRST <= lo
    requires lo + n <= SLOT_END
    requires USER_SLOT !in c.slots && USER_SLOT !in shared
    ensures Beside(w0, s1, source, shared)
  {
    GrewTransitive(w0, s0.w, s1.w);
    forall r: nat, v: nat | IsRoot(w0.owner, r) && v < VPN_LIMIT ensures Walk(s1.w.mem, r, v) == Walk(w0.mem, r, v) {
      SlotPages(v);
      assert IsRoot(s0.w.owner, r) && Walk(s0.w.mem, r, v) == Walk(w0.mem, r, v);
    }
    forall v: nat | SLOT_FIRST <= v < SLOT_END && Look(s1, v) != Unmapped ensures Look(s1, v).frame in w0.free {
      if lo <= v < lo + n { assert FreshPage(c, s0.w, s1, v, flags); }
    }
    forall v: nat | v < VPN_LIMIT && Idx(v, 0) != USER_SLOT ensures Look(s1, v) == Look(s0, v) {
      SlotPages(v);
    }
  }

  /** Storing bytes leaves every word outside the frames they go to. */
  lemma {:induction false} ScatterEntry(mem: Memory, ts: seq<Translation>, bs: seq<Byte>, f: nat, i: nat)
    requires |ts| == |bs| && InMemory(mem, ts) && i < 512
    requires forall k: nat | k < |ts| && ts[k].Mapped? :: ts[k].physical / 4096 != f
    ensures Entry(Scatter(mem, ts, bs).mem, f, i) == Entry(mem, f, i)
    decreases |bs|
  {
    if bs != [] && ts[0].Mapped? {
      ScatterEntry(PutByte(mem, ts[0].physical, bs[0]), ts[1..], bs[1..], f, i);
      PutByteEntry(mem, ts[0].physical, bs[0], f, i);
    }
  }

  lemma CopiedElsewhere(c: Sharing, s: Space, g: Segment, ts: seq<Translation>, f: nat, i: nat)
    requires Sound(c, s.w) && s.live && IsSegment(g) && Placed(s, g, ts) && InMemory(s.w.mem, ts) && i < 512
    requires forall v: nat | SLOT_FIRST <= v < SLOT_END && OwnPage(s, v) :: Look(s, v).frame != f
    ensures Entry(Scatter(s.w.mem, ts, g.bytes).mem, f, i) == Entry(s.w.mem, f, i)
  {
    forall k: nat | k < |ts| && ts[k].Mapped? ensures ts[k].physical / 4096 != f {
      SegmentByte(g, k);
      OwnByte(c, s, g.vaddr + k);
    }
    ScatterEntry(s.w.mem, ts, g.bytes, f, i);
  }

  lemma CopiedGrew(c: Sharing, w0: World, s: Space, s': Space, source: nat, shared: set<nat>, g: Segment,
                   ts: seq<Translation>)
    requires Sound(c, s.w) && IsSegment(g) && Placed(s, g, ts) && InMemory(s.w.mem, ts) && Beside(w0, s, source, shared)
    requires s' == s.(w := s.w.(mem := Scatter(s.w.mem, ts, g.bytes).mem))
    ensures Grew(w0, s'.w)
  {
    forall f: nat, i: nat | i < 512 && f !in w0.free && !IsTable(w0.owner, f)
      ensures Entry(s'.w.mem, f, i) == Entry(w0.mem, f, i)
    {
      CopiedElsewhere(c, s, g, ts, f, i);
      assert Entry(s.w.mem, f, i) == Entry(w0.mem, f, i);
    }
  }

  lemma BesideSame(w0: World, s: Space, s': Space, source: nat, shared: set<nat>)
    requires Beside(w0, s, source, shared) && IsRoot(s.w.owner, s.root)
    requires s'.live && s'.root == s.root && s'.w.owner == s.w.owner && Grew(w0, s'.w)
    requires SameWalks(s.w.owner, s.w.mem, s'.w.mem)
    ensures Beside(w0, s', source, shared)
  {
    forall v: nat | v < VPN_LIMIT ensures Look(s', v) == Look(s, v) {}
    forall r: nat, v: nat | IsRoot(w0.owner, r) && v < VPN_LIMIT ensures Walk(s'.w.mem, r, v) == Walk(w0.mem, r, v) {
      assert IsRoot(s.w.owner, r);
    }
  }

  lemma AgreeSameWalks(c: Sharing, w: World, mem': Memory)
    requires Sound(c, w) && AgreeOnTables(w.owner, w.mem, mem')
    ensures Sound(c, w.(mem := mem')) && SameWalks(w.owner, w.mem, mem')
  {
    AgreeShape(c, w.owner, w.mem, mem');
    forall r: nat, v: nat | IsRoot(w.owner, r) && v < VPN_LIMIT ensures Walk(mem', r, v) == Walk(w.mem, r, v) {
      AgreeWalk(c, w.owner, w.mem, mem', r, v);
    }
  }

  /** Copying into own pages that were free in `w0` is invisible to the older spaces. */
  lemma BesideCopied(c: Sharing, w0: World, s: Space, s': Space, source: nat, shared: set<nat>, g: Segment,
                     ts: seq<Translation>)
    requires Sound(c, s.w) && IsRoot(s.w.owner, s.root) && Beside(w0, s, source, shared) && IsSegment(g)
    requires Placed(s, g, ts) && InMemory(s.w.mem, ts)
    requires s' == s.(w := s.w.(mem := Scatter(s.w.mem, ts, g.bytes).mem))
    requires AgreeOnTables(s.w.owner, s.w.mem, s'.w.mem)
    ensures Sound(c, s'.w) && Beside(w0, s', source, shared)
  {
    AgreeSameWalks(c, s.w, s'.w.mem);
    CopiedGrew(c, w0, s, s', source, shared, g, ts);
    BesideSame(w0, s, s', source, shared);
  }
}

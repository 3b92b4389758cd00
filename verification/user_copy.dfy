/**
 Copies between the kernel and user memory.  The kernel translates once per page and moves the
 bytes of that page in one `memcpy`; the reference copy translates and checks every byte on its own.
 */
module UserCopy {
  import opened Basics
  import opened Word64
  import opened Entries
  import opened Paging
  import opened VirtualMemories

  // ----- bytes of words

  /** Byte `k` of `w`, counted from the least significant. */
  function GetByte(w: nat, k: nat): Byte
  {
    if k == 0 then w % 256 else GetByte(w / 256, k - 1)
  }

  function SetByte(w: nat, k: nat, b: Byte): nat
  {
    if k == 0 then w - w % 256 + b else w % 256 + 256 * SetByte(w / 256, k - 1, b)
  }

  lemma {:induction false} GetSetByte(w: nat, k: nat, b: Byte, j: nat)
    ensures GetByte(SetByte(w, k, b), j) == if j == k then b else GetByte(w, j)
    decreases k
  {
    if k == 0 {
      assert (w - w % 256 + b) / 256 == w / 256 && (w - w % 256 + b) % 256 == b;
    } else {
      assert SetByte(w, k, b) % 256 == w % 256 && SetByte(w, k, b) / 256 == SetByte(w / 256, k - 1, b);
      if j > 0 { GetSetByte(w / 256, k - 1, b, j - 1); }
    }
  }

  lemma {:induction false} SetByteBound(w: nat, k: nat, b: Byte, n: nat)
    requires k < n && w < Pow2(8 * n)
    ensures SetByte(w, k, b) < Pow2(8 * n)
    decreases k
  {
    Pow2Add(8, 8 * (n - 1));
    assert Pow2(8) == 256;
    if k > 0 { SetByteBound(w / 256, k - 1, b, n - 1); }
  }

  // ----- bytes of physical memory

  function ByteAt(mem: Memory, pa: nat): Byte
  {
    GetByte(if pa / 8 < |mem| then mem[pa / 8] else 0, pa % 8)
  }

  function PutByte(mem: Memory, pa: nat, b: Byte): (m: Memory)
    requires pa / 8 < |mem|
    ensures |m| == |mem|
  {
    Pow2At64();
    SetByteBound(mem[pa / 8], pa % 8, b, 8);
    mem[pa / 8 := SetByte(mem[pa / 8], pa % 8, b)]
  }

  lemma PutByteAt(mem: Memory, pa: nat, b: Byte, pa': nat)
    requires pa / 8 < |mem|
    ensures ByteAt(PutByte(mem, pa, b), pa') == if pa' == pa then b else ByteAt(mem, pa')
  {
    GetSetByte(mem[pa / 8], pa % 8, b, pa' % 8);
  }

  /** A byte write touches only the frame that holds the byte. */
  lemma PutByteEntry(mem: Memory, pa: nat, b: Byte, t: nat, i: nat)
    requires pa / 8 < |mem| && i < 512 && t != pa / 4096
    ensures Entry(PutByte(mem, pa, b), t, i) == Entry(mem, t, i)
  {
    assert 512 * (pa / 4096) <= pa / 8 < 512 * (pa / 4096) + 512;
  }

  /** `memcpy` into physical memory. */
  function WriteBytes(mem: Memory, pa: nat, bs: seq<Byte>): (m: Memory)
    requires pa + |bs| <= 8 * |mem|
    ensures |m| == |mem|
    decreases |bs|
  {
    if bs == [] then mem else WriteBytes(PutByte(mem, pa, bs[0]), pa + 1, bs[1..])
  }

  /** `memcpy` out of physical memory. */
  function ReadBytes(mem: Memory, pa: nat, n: nat): (bs: seq<Byte>)
    ensures |bs| == n
    decreases n
  {
    if n == 0 then [] else [ByteAt(mem, pa)] + ReadBytes(mem, pa + 1, n - 1)
  }

  // ----- the reference: every byte on its own

  /** Who asks: the kernel for itself, or on behalf of a user reading or writing. */
  datatype Access = Kernel | UserRead | UserWrite

  /** `has_required_user_flags` */
  predicate Permitted(a: Access, flags: Word)
  {
    && (a != Kernel ==> BitAnd(flags, USER) == USER)
    && (a == UserWrite ==> BitAnd(flags, WRITE) == WRITE)
  }

  /** A user access needs digit 2 of the leaf flags, a user write digit 1 as well, the kernel neither. */
  lemma PermittedDigits(a: Access, flags: Word)
    ensures Permitted(a, flags) <==> (a != Kernel ==> Bit(flags, 2)) && (a == UserWrite ==> Bit(flags, 1))
  {
    UserTest(flags);
    WriteTest(flags);
  }

  /** The byte behind `va`, if it may be accessed: the kernel's `translate` and its permission check. */
  function Probe(mem: Memory, root: nat, va: Word, a: Access): Translation
  {
    match ByteOf(Walk(mem, root, Vpn(va)), va)
    case Fault => Fault
    case Mapped(pa, flags) => if Permitted(a, flags) && pa / 8 < |mem| then Mapped(pa, flags) else Fault
  }

  lemma ProbeIsTranslate(mem: Memory, root: Word, va: Word, a: Access)
    ensures Probe(mem, root / 4096, va, a) ==
            match Translate(mem, root, va)
            case Fault => Fault
            case Mapped(pa, flags) => if Permitted(a, flags) && pa / 8 < |mem| then Mapped(pa, flags) else Fault
  {
    TranslateIsWalk(mem, root, va);
  }

  datatype Outcome = Outcome(ok: bool, mem: Memory)

  // ----- data pages

  /** The mapped pages among `[lo, hi)` lie in memory and are not tables. */
  ghost predicate DataPages(w: World, root: nat, lo: nat, hi: nat)
  {
    forall v: nat | lo <= v < hi && !Walk(w.mem, root, v).Unmapped? ::
      HasFrame(w.mem, Walk(w.mem, root, v).frame) && !IsTable(w.owner, Walk(w.mem, root, v).frame)
  }

  /** The bytes `[va, va + n)` lie in the pages `[lo, hi)` of the lower half of the address space. */
  predicate Inside(va: nat, n: nat, lo: nat, hi: nat)
  {
    lo * 4096 <= va && va + n <= hi * 4096 && hi <= VPN_LIMIT
  }

  lemma VpnInside(va: nat, lo: nat, hi: nat)
    requires Inside(va, 1, lo, hi)
    ensures Vpn(va) == va / 4096 && lo <= Vpn(va) < hi && va < WORD_LIMIT
  {}

  /** Byte `off` of frame `f` is in memory and belongs to frame `f`. */
  lemma ByteInFrame(mem: Memory, f: nat, off: nat)
    requires HasFrame(mem, f) && off < 4096
    ensures (f * 4096 + off) / 8 < |mem| && (f * 4096 + off) / 4096 == f
  {}

  lemma ProbeInPage(w: World, root: nat, va: Word, a: Access, leaf: Leaf, lo: nat, hi: nat)
    requires DataPages(w, root, lo, hi) && Inside(va, 1, lo, hi)
    requires leaf == Walk(w.mem, root, Vpn(va)) && |w.mem| <= 512 * FRAME_LIMIT
    ensures leaf.Unmapped? || !Permitted(a, leaf.flags) ==> Probe(w.mem, root, va, a) == Fault
    ensures !leaf.Unmapped? ==> leaf.frame < FRAME_LIMIT
    ensures !leaf.Unmapped? && Permitted(a, leaf.flags) ==>
              Probe(w.mem, root, va, a) == Mapped(leaf.frame * 4096 + va % 4096, leaf.flags)
  {
    VpnInside(va, lo, hi);
    if !leaf.Unmapped? {
      ByteInFrame(w.mem, leaf.frame, va % 4096);
    }
  }

  /** A byte written into a data page leaves the tables, hence all translations, as they were. */
  lemma PutByteAgrees(c: Sharing, w: World, pa: nat, b: Byte)
    requires WellFormed(c, w.mem, w.owner) && pa / 8 < |w.mem| && !IsTable(w.owner, pa / 4096)
    ensures AgreeOnTables(w.owner, w.mem, PutByte(w.mem, pa, b)) && WellFormed(c, PutByte(w.mem, pa, b), w.owner)
  {
    var now := PutByte(w.mem, pa, b);
    forall t: nat, i: nat | IsTable(w.owner, t) && i < 512 ensures Entry(now, t, i) == Entry(w.mem, t, i) {
      PutByteEntry(w.mem, pa, b, t, i);
    }
    AgreeShape(c, w.owner, w.mem, now);
  }

  lemma DataPagesKept(c: Sharing, w: World, mem': Memory, root: nat, lo: nat, hi: nat)
    requires WellFormed(c, w.mem, w.owner) && AgreeOnTables(w.owner, w.mem, mem') && IsRoot(w.owner, root)
    requires DataPages(w, root, lo, hi) && hi <= VPN_LIMIT
    ensures DataPages(w.(mem := mem'), root, lo, hi)
    ensures forall v: nat | v < VPN_LIMIT :: Walk(mem', root, v) == Walk(w.mem, root, v)
  {
    forall v: nat | v < VPN_LIMIT ensures Walk(mem', root, v) == Walk(w.mem, root, v) {
      AgreeWalk(c, w.owner, w.mem, mem', root, v);
    }
  }

  lemma AgreeTransitive(owner: Owners, m0: Memory, m1: Memory, m2: Memory)
    requires AgreeOnTables(owner, m0, m1) && AgreeOnTables(owner, m1, m2)
    ensures AgreeOnTables(owner, m0, m2)
  {
    forall t: nat, i: nat | IsTable(owner, t) && i < 512 ensures Entry(m2, t, i) == Entry(m0, t, i) {
      assert Entry(m1, t, i) == Entry(m0, t, i);
    }
  }

  lemma ChunkInFrame(mem: Memory, f: nat, off: nat, n: nat)
    requires HasFrame(mem, f) && off + n <= 4096
    ensures f * 4096 + off + n <= 8 * |mem|
  {}

  /** The bytes that fit in the rest of the page. */
  function ChunkLength(va: nat, remaining: nat): (n: nat)
    ensures n <= remaining && va % 4096 + n <= 4096 && (remaining > 0 ==> n > 0)
  {
    if remaining < 4096 - va % 4096 then remaining else 4096 - va % 4096
  }

  lemma Advance(c: Sharing, w: World, mem': Memory, root: nat, lo: nat, hi: nat)
    requires Sound(c, w) && IsRoot(w.owner, root) && DataPages(w, root, lo, hi) && hi <= VPN_LIMIT
    requires AgreeOnTables(w.owner, w.mem, mem')
    ensures Sound(c, w.(mem := mem')) && DataPages(w.(mem := mem'), root, lo, hi)
  {
    AgreeShape(c, w.owner, w.mem, mem');
    DataPagesKept(c, w, mem', root, lo, hi);
  }

  // ----- what the copy does, in terms of the memory it started from

  lemma SameProbe(c: Sharing, w: World, mem': Memory, root: nat, va: Word, a: Access)
    requires WellFormed(c, w.mem, w.owner) && IsRoot(w.owner, root) && AgreeOnTables(w.owner, w.mem, mem')
    ensures Probe(mem', root, va, a) == Probe(w.mem, root, va, a)
  {
    AgreeWalk(c, w.owner, w.mem, mem', root, Vpn(va));
  }

  /** Where the bytes `[va, va + n)` are stored. */
  function Targets(mem: Memory, root: nat, va: nat, n: nat, a: Access): (ts: seq<Translation>)
    requires va + n <= WORD_LIMIT
    ensures |ts| == n
    decreases n
  {
    if n == 0 then [] else [Probe(mem, root, va, a)] + Targets(mem, root, va + 1, n - 1, a)
  }

  lemma {:induction false} TargetAt(mem: Memory, root: nat, va: nat, n: nat, a: Access, k: nat)
    requires va + n <= WORD_LIMIT && k < n
    ensures Targets(mem, root, va, n, a)[k] == Probe(mem, root, va + k, a)
    decreases n
  {
    if k > 0 { TargetAt(mem, root, va + 1, n - 1, a, k - 1); }
  }

  lemma {:induction false} SameTargets(c: Sharing, w: World, mem': Memory, root: nat, va: nat, n: nat, a: Access)
    requires WellFormed(c, w.mem, w.owner) && IsRoot(w.owner, root) && AgreeOnTables(w.owner, w.mem, mem')
    requires va + n <= WORD_LIMIT
    ensures Targets(mem', root, va, n, a) == Targets(w.mem, root, va, n, a)
    decreases n
  {
    if n > 0 {
      SameProbe(c, w, mem', root, va, a);
      SameTargets(c, w, mem', root, va + 1, n - 1, a);
    }
  }

  ghost predicate InMemory(mem: Memory, ts: seq<Translation>)
  {
    forall i: nat | i < |ts| && ts[i].Mapped? :: ts[i].physical / 8 < |mem|
  }

  /** Store bytes one after the other at given places, up to the first bad one. */
  function Scatter(mem: Memory, ts: seq<Translation>, bs: seq<Byte>): (r: Outcome)
    requires |ts| == |bs| && InMemory(mem, ts)
    ensures |r.mem| == |mem|
    decreases |bs|
  {
    if bs == [] then Outcome(true, mem)
    else if ts[0].Fault? then Outcome(false, mem)
    else Scatter(PutByte(mem, ts[0].physical, bs[0]), ts[1..], bs[1..])
  }

  lemma {:induction false} TargetsInMemory(mem: Memory, root: nat, va: nat, n: nat, a: Access)
    requires va + n <= WORD_LIMIT
    ensures InMemory(mem, Targets(mem, root, va, n, a))
    decreases n
  {
    if n > 0 { TargetsInMemory(mem, root, va + 1, n - 1, a); }
  }

  /** The reference copy: translate and check every byte on its own, store it, stop at the first bad one. */
  function CopyTo(mem: Memory, root: nat, va: nat, src: seq<Byte>, a: Access): (r: Outcome)
    requires va + |src| <= WORD_LIMIT
  {
    TargetsInMemory(mem, root, va, |src|, a);
    Scatter(mem, Targets(mem, root, va, |src|, a), src)
  }

  lemma {:induction false} ScatterVerdict(mem: Memory, ts: seq<Translation>, bs: seq<Byte>)
    requires |ts| == |bs| && InMemory(mem, ts)
    ensures Scatter(mem, ts, bs).ok <==> forall i: nat | i < |ts| :: ts[i].Mapped?
    decreases |bs|
  {
    if bs != [] && ts[0].Mapped? {
      ScatterVerdict(PutByte(mem, ts[0].physical, bs[0]), ts[1..], bs[1..]);
      if forall i: nat | i < |ts[1..]| :: ts[1..][i].Mapped? {
        forall i: nat | i < |ts| ensures ts[i].Mapped? { if i > 0 { assert ts[i] == ts[1..][i - 1]; } }
      }
    }
  }

  lemma {:induction false} ScatterKeeps(mem: Memory, ts: seq<Translation>, bs: seq<Byte>, pa: nat)
    requires |ts| == |bs| && InMemory(mem, ts)
    requires forall i: nat | i < |ts| && ts[i].Mapped? :: ts[i].physical != pa
    ensures ByteAt(Scatter(mem, ts, bs).mem, pa) == ByteAt(mem, pa)
    decreases |bs|
  {
    if bs != [] && ts[0].Mapped? {
      ScatterKeeps(PutByte(mem, ts[0].physical, bs[0]), ts[1..], bs[1..], pa);
      PutByteAt(mem, ts[0].physical, bs[0], pa);
    }
  }

  ghost predicate DistinctTargets(ts: seq<Translation>)
  {
    forall i: nat, j: nat | i < j < |ts| && ts[i].Mapped? && ts[j].Mapped? :: ts[i].physical != ts[j].physical
  }

  lemma {:induction false} ScatterWrites(mem: Memory, ts: seq<Translation>, bs: seq<Byte>, k: nat)
    requires |ts| == |bs| && InMemory(mem, ts) && DistinctTargets(ts) && k < |bs| && Scatter(mem, ts, bs).ok
    ensures ts[k].Mapped? && ByteAt(Scatter(mem, ts, bs).mem, ts[k].physical) == bs[k]
    decreases |bs|
  {
    var mem1 := PutByte(mem, ts[0].physical, bs[0]);
    if k == 0 {
      forall i: nat | i < |ts[1..]| && ts[1..][i].Mapped? ensures ts[1..][i].physical != ts[0].physical {
        assert ts[1..][i] == ts[i + 1];
      }
      ScatterKeeps(mem1, ts[1..], bs[1..], ts[0].physical);
      PutByteAt(mem, ts[0].physical, bs[0], ts[0].physical);
    } else {
      assert DistinctTargets(ts[1..]);
      ScatterWrites(mem1, ts[1..], bs[1..], k - 1);
    }
  }

  // ----- one page at a time

  /** `memcpy` of `n` bytes is what storing them one by one at consecutive places does. */
  lemma {:induction false} ScatterChunk(mem: Memory, ts: seq<Translation>, bs: seq<Byte>, n: nat, pa: nat)
    requires |ts| == |bs| && InMemory(mem, ts) && n <= |bs| && pa + n <= 8 * |mem|
    requires forall i: nat | i < n :: ts[i].Mapped? && ts[i].physical == pa + i
    ensures InMemory(WriteBytes(mem, pa, bs[..n]), ts[n..])
    ensures Scatter(mem, ts, bs) == Scatter(WriteBytes(mem, pa, bs[..n]), ts[n..], bs[n..])
    decreases n
  {
    if n == 0 {
      assert bs[..0] == [] && bs[0..] == bs && ts[0..] == ts;
    } else {
      assert ts[0].physical == pa + 0;
      assert bs[..n] == [bs[0]] + bs[1..][..n - 1] && bs[n..] == bs[1..][n - 1..] && ts[n..] == ts[1..][n - 1..];
      ScatterChunk(PutByte(mem, pa, bs[0]), ts[1..], bs[1..], n - 1, pa + 1);
    }
  }

  lemma {:induction false} WriteAgrees(c: Sharing, w: World, f: nat, off: nat, bs: seq<Byte>)
    requires WellFormed(c, w.mem, w.owner) && HasFrame(w.mem, f) && !IsTable(w.owner, f) && off + |bs| <= 4096
    ensures f * 4096 + off + |bs| <= 8 * |w.mem|
    ensures AgreeOnTables(w.owner, w.mem, WriteBytes(w.mem, f * 4096 + off, bs))
    decreases |bs|
  {
    ChunkInFrame(w.mem, f, off, |bs|);
    if bs != [] {
      ByteInFrame(w.mem, f, off);
      PutByteAgrees(c, w, f * 4096 + off, bs[0]);
      var mem1 := PutByte(w.mem, f * 4096 + off, bs[0]);
      WriteAgrees(c, w.(mem := mem1), f, off + 1, bs[1..]);
      AgreeTransitive(w.owner, w.mem, mem1, WriteBytes(mem1, f * 4096 + off + 1, bs[1..]));
    }
  }

  lemma InPage(va: nat, i: nat)
    requires va % 4096 + i < 4096
    ensures Vpn(va + i) == Vpn(va) && (va + i) % 4096 == va % 4096 + i
  {}

  /** Inside one accessible page the targets are consecutive; at an inaccessible page the first is bad. */
  lemma PageTargets(w: World, root: nat, va: nat, n: nat, len: nat, a: Access, leaf: Leaf, lo: nat, hi: nat)
    requires DataPages(w, root, lo, hi) && Inside(va, len, lo, hi)
    requires |w.mem| <= 512 * FRAME_LIMIT && n <= len && va % 4096 + n <= 4096
    requires leaf == Walk(w.mem, root, Vpn(va))
    ensures leaf.Unmapped? || !Permitted(a, leaf.flags) ==> len > 0 ==> Targets(w.mem, root, va, len, a)[0].Fault?
    ensures !leaf.Unmapped? && Permitted(a, leaf.flags) ==> forall i: nat | i < n ::
              var t := Targets(w.mem, root, va, len, a)[i]; t.Mapped? && t.physical == leaf.frame * 4096 + va % 4096 + i
  {
    if len > 0 {
      TargetAt(w.mem, root, va, len, a, 0);
      ProbeInPage(w, root, va, a, leaf, lo, hi);
    }
    if !leaf.Unmapped? && Permitted(a, leaf.flags) {
      forall i: nat | i < n
        ensures var t := Targets(w.mem, root, va, len, a)[i];
                t.Mapped? && t.physical == leaf.frame * 4096 + va % 4096 + i
      {
        TargetAt(w.mem, root, va, len, a, i);
        InPage(va, i);
        ProbeInPage(w, root, va + i, a, leaf, lo, hi);
      }
    }
  }

  lemma {:induction false} TargetsTail(mem: Memory, root: nat, va: nat, next: nat, len: nat, left: nat, a: Access,
                                       n: nat)
    requires va + len <= WORD_LIMIT && n + left == len && next == va + n
    ensures Targets(mem, root, va, len, a)[n..] == Targets(mem, root, next, left, a)
    decreases n
  {
    if n > 0 {
      TargetsTail(mem, root, va + 1, next, len - 1, left, a, n - 1);
      assert Targets(mem, root, va, len, a)[n..] == Targets(mem, root, va + 1, len - 1, a)[n - 1..];
    }
  }

  lemma TargetsAfter(c: Sharing, w: World, mem': Memory, root: nat, va: nat, next: nat, len: nat, a: Access, n: nat,
                     ts: seq<Translation>)
    requires WellFormed(c, w.mem, w.owner) && IsRoot(w.owner, root) && AgreeOnTables(w.owner, w.mem, mem')
    requires va + len <= WORD_LIMIT && n <= len && next == va + n && ts == Targets(w.mem, root, va, len, a)
    ensures ts[n..] == Targets(mem', root, next, len - n, a)
  {
    TargetsTail(w.mem, root, va, next, len, len - n, a, n);
    SameTargets(c, w, mem', root, next, len - n, a);
  }

  /** `memcpy` into one data page. */
  method StoreInPage(vm: VirtualMemory, physical: nat, bytes: seq<Byte>, ghost f: nat, ghost off: nat, ghost lo: nat,
                     ghost hi: nat)
    requires hi <= VPN_LIMIT && vm.Valid() && vm.initialized && DataPages(vm.State(), vm.root / 4096, lo, hi)
    requires HasFrame(vm.ram.mem, f) && !IsTable(vm.ram.owner, f) && off + |bytes| <= 4096 && physical == f * 4096 + off
    requires physical + |bytes| <= 8 * |vm.ram.mem|
    modifies vm.ram`mem
    ensures vm.ram.mem == WriteBytes(old(vm.ram.mem), physical, bytes)
    ensures vm.Valid() && AgreeOnTables(vm.ram.owner, old(vm.ram.mem), vm.ram.mem)
    ensures DataPages(vm.State(), vm.root / 4096, lo, hi)
  {
    WriteAgrees(vm.ram.sharing, vm.State(), f, off, bytes);
    Advance(vm.ram.sharing, vm.State(), WriteBytes(vm.ram.mem, physical, bytes), vm.root / 4096, lo, hi);
    vm.ram.mem := WriteBytes(vm.ram.mem, physical, bytes);
  }

  /** Translate and check one page, then move its bytes at once. */
  method CopyPage(vm: VirtualMemory, va: Word, next: nat, src: seq<Byte>, n: nat, a: Access, ghost ts: seq<Translation>,
                  ghost lo: nat, ghost hi: nat)
    returns (ok: bool)
    requires vm.Valid() && vm.initialized && DataPages(vm.State(), vm.root / 4096, lo, hi)
    requires src != [] && Inside(va, |src|, lo, hi) && n == ChunkLength(va, |src|) && next == va + n
    requires ts == Targets(vm.ram.mem, vm.root / 4096, va, |src|, a) && InMemory(vm.ram.mem, ts)
    modifies vm.ram`mem
    ensures vm.Valid() && AgreeOnTables(vm.ram.owner, old(vm.ram.mem), vm.ram.mem)
    ensures DataPages(vm.State(), vm.root / 4096, lo, hi)
    ensures ok ==>
              InMemory(vm.ram.mem, ts[n..]) &&
              Scatter(old(vm.ram.mem), ts, src) == Scatter(vm.ram.mem, ts[n..], src[n..])
    ensures ok ==> ts[n..] == Targets(vm.ram.mem, vm.root / 4096, next, |src| - n, a)
    ensures !ok ==> Scatter(old(vm.ram.mem), ts, src) == Outcome(false, vm.ram.mem)
  {
    ghost var w, r := vm.State(), vm.root / 4096;
    ghost var leaf := Walk(vm.ram.mem, r, Vpn(va));
    VpnInside(va, lo, hi);
    PageTargets(w, r, va, n, |src|, a, leaf, lo, hi);
    var t := vm.TranslateAddress(va);
    match t {
      case Fault =>
        ok := false;
      case Mapped(physical, flags) =>
        if !Permitted(a, flags) { return false; }
        ChunkInFrame(w.mem, leaf.frame, va % 4096, n);
        ScatterChunk(w.mem, ts, src, n, physical);
        StoreInPage(vm, physical, src[..n], leaf.frame, va % 4096, lo, hi);
        TargetsAfter(vm.ram.sharing, w, vm.ram.mem, r, va, next, |src|, a, n, ts);
        ok := true;
    }
  }

  /**
   `copy_into_address_space` and the loop of `copy_to_user`: page by page, with the verdict and the
   memory of the byte-wise copy.
   */
  method CopyPages(vm: VirtualMemory, va: Word, src: seq<Byte>, a: Access, ghost lo: nat, ghost hi: nat)
    returns (ok: bool)
    requires vm.Valid() && vm.initialized && DataPages(vm.State(), vm.root / 4096, lo, hi) && Inside(va, |src|, lo, hi)
    modifies vm.ram`mem
    ensures vm.Valid() && AgreeOnTables(vm.ram.owner, old(vm.ram.mem), vm.ram.mem)
    ensures Outcome(ok, vm.ram.mem) == CopyTo(old(vm.ram.mem), vm.root / 4096, va, src, a)
  {
    TargetsInMemory(vm.ram.mem, vm.root / 4096, va, |src|, a);
    ok := ScatterPages(vm, va, src, a, Targets(vm.ram.mem, vm.root / 4096, va, |src|, a), lo, hi);
  }

  method ScatterPages(vm: VirtualMemory, va: Word, src: seq<Byte>, a: Access, ghost ts0: seq<Translation>,
                      ghost lo: nat, ghost hi: nat)
    returns (ok: bool)
    requires vm.Valid() && vm.initialized && DataPages(vm.State(), vm.root / 4096, lo, hi) && Inside(va, |src|, lo, hi)
    requires ts0 == Targets(vm.ram.mem, vm.root / 4096, va, |src|, a) && InMemory(vm.ram.mem, ts0)
    modifies vm.ram`mem
    ensures vm.Valid() && AgreeOnTables(vm.ram.owner, old(vm.ram.mem), vm.ram.mem)
    ensures Outcome(ok, vm.ram.mem) == Scatter(old(vm.ram.mem), ts0, src)
  {
    var copied := 0;
    var rest, cursor: nat := src, va;
    ghost var mem0, ts := vm.ram.mem, ts0;
    while copied < |src|
      invariant copied <= |src| && |rest| == |src| - copied && cursor == va + copied
      invariant vm.Valid() && DataPages(vm.State(), vm.root / 4096, lo, hi)
      invariant AgreeOnTables(vm.ram.owner, mem0, vm.ram.mem)
      invariant ts == Targets(vm.ram.mem, vm.root / 4096, cursor, |rest|, a) && InMemory(vm.ram.mem, ts)
      invariant Scatter(mem0, ts0, src) == Scatter(vm.ram.mem, ts, rest)
    {
      ghost var mem1 := vm.ram.mem;
      var chunk := ChunkLength(cursor, |rest|);
      var next := cursor + chunk;
      ok := CopyPage(vm, cursor, next, rest, chunk, a, ts, lo, hi);
      AgreeTransitive(vm.ram.owner, mem0, mem1, vm.ram.mem);
      if !ok { return; }
      copied, cursor, rest, ts := copied + chunk, next, rest[chunk..], ts[chunk..];
    }
    ok := true;
  }

  /** A failed copy has stored exactly the bytes before the first bad one. */
  lemma {:induction false} ScatterStops(mem: Memory, ts: seq<Translation>, bs: seq<Byte>, k: nat)
    requires |ts| == |bs| && InMemory(mem, ts) && k < |bs| && ts[k].Fault? && forall i: nat | i < k :: ts[i].Mapped?
    ensures Scatter(mem, ts, bs) == Outcome(false, Scatter(mem, ts[..k], bs[..k]).mem)
    decreases k
  {
    if k > 0 {
      assert ts[..k][1..] == ts[1..][..k - 1] && bs[..k][1..] == bs[1..][..k - 1];
      ScatterStops(PutByte(mem, ts[0].physical, bs[0]), ts[1..], bs[1..], k - 1);
    }
  }

  /** The first bad byte, unless it is the first of all, starts a page. */
  lemma BadByteStartsPage(w: World, root: nat, va: nat, n: nat, a: Access, k: nat, lo: nat, hi: nat)
    requires DataPages(w, root, lo, hi) && Inside(va, n, lo, hi) && |w.mem| <= 512 * FRAME_LIMIT && 0 < k < n
    requires Probe(w.mem, root, va + k - 1, a).Mapped? && Probe(w.mem, root, va + k, a).Fault?
    ensures (va + k) % 4096 == 0
  {
    SameVerdict(w, root, va + k - 1, va + k, a, lo, hi);
  }

  /** Two bytes of one page are both good or both bad. */
  lemma SameVerdict(w: World, root: nat, x: nat, y: nat, a: Access, lo: nat, hi: nat)
    requires DataPages(w, root, lo, hi) && |w.mem| <= 512 * FRAME_LIMIT && x + 1 == y
    requires Inside(x, 1, lo, hi) && Inside(y, 1, lo, hi)
    ensures y % 4096 != 0 ==> (Probe(w.mem, root, x, a).Fault? <==> Probe(w.mem, root, y, a).Fault?)
  {
    if y % 4096 != 0 {
      assert x / 4096 == y / 4096;
      var leaf := Walk(w.mem, root, Vpn(y));
      ProbeInPage(w, root, x, a, leaf, lo, hi);
      ProbeInPage(w, root, y, a, leaf, lo, hi);
    }
  }

  // ----- reading

  /** The bytes at given places, up to the first bad one. */
  function Gather(mem: Memory, ts: seq<Translation>): (r: seq<Byte>)
    ensures |r| <= |ts|
    ensures |r| == |ts| <==> forall i: nat | i < |ts| :: ts[i].Mapped?
  {
    if ts == [] || ts[0].Fault? then []
    else
      var rest := Gather(mem, ts[1..]);
      assert forall i: nat | 0 < i < |ts| :: ts[i] == ts[1..][i - 1];
      [ByteAt(mem, ts[0].physical)] + rest
  }

  /** The reference read: translate and check every byte on its own. */
  function CopyFrom(mem: Memory, root: nat, va: nat, n: nat, a: Access): (r: seq<Byte>)
    requires va + n <= WORD_LIMIT
    ensures |r| <= n
  {
    Gather(mem, Targets(mem, root, va, n, a))
  }

  lemma {:induction false} GatherChunk(mem: Memory, ts: seq<Translation>, n: nat, pa: nat)
    requires n <= |ts| && forall i: nat | i < n :: ts[i].Mapped? && ts[i].physical == pa + i
    ensures Gather(mem, ts) == ReadBytes(mem, pa, n) + Gather(mem, ts[n..])
    decreases n
  {
    if n == 0 {
      assert ts[0..] == ts;
    } else {
      assert ts[0].physical == pa + 0;
      assert ts[n..] == ts[1..][n - 1..];
      GatherChunk(mem, ts[1..], n - 1, pa + 1);
    }
  }

  /** Translate and check one page, then fetch its bytes at once. */
  method FetchPage(vm: VirtualMemory, va: Word, n: nat, ghost len: nat, a: Access, ghost ts: seq<Translation>,
                   ghost lo: nat, ghost hi: nat)
    returns (ok: bool, bytes: seq<Byte>)
    requires vm.Valid() && vm.initialized && DataPages(vm.State(), vm.root / 4096, lo, hi)
    requires len > 0 && Inside(va, len, lo, hi) && n == ChunkLength(va, len)
    requires ts == Targets(vm.ram.mem, vm.root / 4096, va, len, a)
    ensures ok ==> |bytes| == n && Gather(vm.ram.mem, ts) == bytes + Gather(vm.ram.mem, ts[n..])
    ensures !ok ==> Gather(vm.ram.mem, ts) == []
  {
    ghost var leaf := Walk(vm.ram.mem, vm.root / 4096, Vpn(va));
    VpnInside(va, lo, hi);
    PageTargets(vm.State(), vm.root / 4096, va, n, len, a, leaf, lo, hi);
    var t := vm.TranslateAddress(va);
    match t {
      case Fault =>
        ok, bytes := false, [];
      case Mapped(physical, flags) =>
        if !Permitted(a, flags) { return false, []; }
        GatherChunk(vm.ram.mem, ts, n, physical);
        ok, bytes := true, ReadBytes(vm.ram.mem, physical, n);
    }
  }

  /** The loop of `copy_from_user`: page by page, with the verdict and the bytes of the byte-wise read. */
  method FetchPages(vm: VirtualMemory, va: Word, n: nat, a: Access, ghost lo: nat, ghost hi: nat)
    returns (ok: bool, got: seq<Byte>)
    requires vm.Valid() && vm.initialized && DataPages(vm.State(), vm.root / 4096, lo, hi) && Inside(va, n, lo, hi)
    ensures got == CopyFrom(vm.ram.mem, vm.root / 4096, va, n, a)
    ensures ok <==> |got| == n
  {
    var copied, cursor: nat := 0, va;
    ghost var ts := Targets(vm.ram.mem, vm.root / 4096, va, n, a);
    ghost var rest := Gather(vm.ram.mem, ts);
    ghost var all, left := rest, n;
    ok, got := true, [];
    while ok && copied < n
      invariant copied + left == n && |got| == copied && cursor == va + copied && all == got + rest
      invariant ok ==> ts == Targets(vm.ram.mem, vm.root / 4096, cursor, left, a) && rest == Gather(vm.ram.mem, ts)
      invariant !ok ==> copied < n && rest == []
      decreases left, ok
    {
      var chunk := ChunkLength(cursor, n - copied);
      var next := cursor + chunk;
      var bytes;
      ok, bytes := FetchPage(vm, cursor, chunk, left, a, ts, lo, hi);
      if ok {
        TargetsTail(vm.ram.mem, vm.root / 4096, cursor, next, left, left - chunk, a, chunk);
        left := left - chunk;
        ts := ts[chunk..];
        Regroup(got, bytes, Gather(vm.ram.mem, ts));
        rest := Gather(vm.ram.mem, ts);
        got := got + bytes;
        copied, cursor := copied + chunk, next;
      } else {
        rest := [];
      }
    }
    assert got + [] == got;
  }

  /** `memcpy` into a kernel buffer. */
  method Fill(dest: array<Byte>, at: nat, bytes: seq<Byte>)
    requires at + |bytes| <= dest.Length
    modifies dest
    ensures dest[..] == old(dest[..])[..at] + bytes + old(dest[..])[at + |bytes|..]
  {
    ghost var was := dest[..];
    var i := 0;
    while i < |bytes|
      invariant i <= |bytes|
      invariant dest[..] == was[..at] + bytes[..i] + was[at + i..]
    {
      dest[at + i] := bytes[i];
      i := i + 1;
    }
  }

  // ----- the system-call boundary

  const USER_SPACE_BASE: nat := 0x80_0000_0000
  const USER_STACK_TOP: nat := 0x80_4000_0000

  predicate IsCanonical(address: Word)
  {
    var upper := address / 0x1_0000_0000_0000;
    upper == 0 || upper == 0xFFFF
  }

  /** `is_user_address_range` */
  predicate IsUserRange(address: Word, length: Word)
    ensures IsUserRange(address, length) <==>
            length == 0 || (USER_SPACE_BASE <= address && address + length <= USER_STACK_TOP)
  {
    length == 0 ||
    (address != 0 && IsCanonical(address) &&
     address <= WORD_LIMIT - 1 - (length - 1) &&
     IsCanonical(address + (length - 1)) &&
     address >= USER_SPACE_BASE && address + (length - 1) < USER_STACK_TOP)
  }

  /** Nothing moves for a range outside user space; inside it the verdict and memory are those of the byte-wise copy. */
  method CopyToUser(vm: VirtualMemory, userPointer: Word, source: seq<Byte>) returns (ok: bool)
    requires vm.Valid() && vm.initialized
    requires DataPages(vm.State(), vm.root / 4096, USER_SPACE_BASE / 4096, USER_STACK_TOP / 4096)
    requires |source| < WORD_LIMIT
    modifies vm.ram`mem
    ensures vm.Valid() && AgreeOnTables(vm.ram.owner, old(vm.ram.mem), vm.ram.mem)
    ensures !IsUserRange(userPointer, |source|) ==> !ok && vm.ram.mem == old(vm.ram.mem)
    ensures IsUserRange(userPointer, |source|) && source != [] ==>
              (userPointer + |source| <= WORD_LIMIT &&
               Outcome(ok, vm.ram.mem) == CopyTo(old(vm.ram.mem), vm.root / 4096, userPointer, source, UserWrite))
    ensures source == [] ==> ok && vm.ram.mem == old(vm.ram.mem)
  {
    if !IsUserRange(userPointer, |source|) { return false; }
    if source == [] { return true; }
    ok := CopyPages(vm, userPointer, source, UserWrite, USER_SPACE_BASE / 4096, USER_STACK_TOP / 4096);
  }

  method CopyFromUser(vm: VirtualMemory, userPointer: Word, destination: array<Byte>) returns (ok: bool)
    requires vm.Valid() && vm.initialized
    requires DataPages(vm.State(), vm.root / 4096, USER_SPACE_BASE / 4096, USER_STACK_TOP / 4096)
    requires destination.Length < WORD_LIMIT
    modifies destination
    ensures !IsUserRange(userPointer, destination.Length) ==> !ok && destination[..] == old(destination[..])
    ensures IsUserRange(userPointer, destination.Length) && destination.Length > 0 ==>
              userPointer + destination.Length <= WORD_LIMIT &&
              var got := CopyFrom(vm.ram.mem, vm.root / 4096, userPointer, destination.Length, UserRead);
              (ok <==> |got| == destination.Length) && destination[..] == got + old(destination[..])[|got|..]
    ensures destination.Length == 0 ==> ok
  {
    if !IsUserRange(userPointer, destination.Length) { return false; }
    if destination.Length == 0 { return true; }
    var got;
    ok, got := FetchPages(vm, userPointer, destination.Length, UserRead,
                          USER_SPACE_BASE / 4096, USER_STACK_TOP / 4096);
    Fill(destination, 0, got);
  }

  // ----- round trip

  lemma {:induction false} GatherAt(mem: Memory, ts: seq<Translation>, k: nat)
    requires k < |Gather(mem, ts)|
    ensures ts[k].Mapped? && Gather(mem, ts)[k] == ByteAt(mem, ts[k].physical)
    decreases |ts|
  {
    if k > 0 { GatherAt(mem, ts[1..], k - 1); }
  }

  /** What was copied out to bytes stored apart is what is then read back. */
  lemma ScatterGather(mem: Memory, ts: seq<Translation>, bs: seq<Byte>)
    requires |ts| == |bs| && InMemory(mem, ts) && DistinctTargets(ts) && Scatter(mem, ts, bs).ok
    ensures Gather(Scatter(mem, ts, bs).mem, ts) == bs
  {
    ScatterVerdict(mem, ts, bs);
    var m := Scatter(mem, ts, bs).mem;
    forall k: nat | k < |bs| ensures Gather(m, ts)[k] == bs[k] {
      GatherAt(m, ts, k);
      ScatterWrites(mem, ts, bs, k);
    }
  }
}

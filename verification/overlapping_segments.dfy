/**
 Segments that share pages.  Which bytes of a header survive is decided by the image alone, and an
 image with two headers for one address shows that the loader accepts what it then loses.
 */
module OverlappingSegments {
  import opened Basics
  import opened Word64
  import opened Entries
  import opened Paging
  import opened VirtualMemories
  import opened UserCopy
  import opened UserElf
  import opened UserImage
  import opened UserPrograms
  import opened LoadedImage
  import opened ElfEncoding

  /** What header `p` promises for address `va`: its flags, and its file byte or zero. */
  predicate Promised(g: Segment, p: ProgramHeader, image: Image, va: nat)
    requires p.offset + p.filesz <= |image|
  {
    g.flags == UserFlags(p.flags / 2 % 2 == 1, p.flags % 2 == 0) && ByteIn(g, va) == FileByteAt(p, image, va)
  }

  /**
   An address in the pages of header `k` shows what that header promises if and only if the last
   segment of the image that covers its page promises the same.
   */
  lemma FileByteExactly(c: Sharing, w0: World, s: Space, source: nat, shared: set<nat>, image: Image, h: Header,
                        cr3: Word, k: nat, va: Word)
    requires Loaded(c, w0, s, source, shared, image, h) && s.root == cr3 / 4096
    requires k < h.phnum && Plannable(h, image, k) && IsLoadable(ProgramHeaderFromImage(h, image, k).value)
    requires Covers(SegmentOf(ProgramHeaderFromImage(h, image, k).value, image), va / 4096)
    ensures var p, last := ProgramHeaderFromImage(h, image, k).value,
                           Covering(SegmentsOf(h, image, h.phnum), va / 4096);
            last.Some? &&
            (Shows(s.w.mem, cr3, va, UserFlags(p.flags / 2 % 2 == 1, p.flags % 2 == 0), FileByteAt(p, image, va)) <==>
             Promised(last.value, p, image, va))
  {
    var segs := SegmentsOf(h, image, h.phnum);
    var i := HeaderSegment(h, image, h.phnum, k);
    BelowGuard(h, image, h.phnum);
    SomeCovering(segs, i, va / 4096);
    CoveringAppend(segs, StackSegment(), va / 4096);
    EveryByte(c, s, segs + [StackSegment()], cr3, va);
  }

  // ----- an image with two headers for one address

  function TwiceHeader(): Header
  {
    Header(MAGIC, TYPE_EXEC, MACHINE_X86_64, USER_SPACE_BASE, 64, PROGRAM_HEADER_SIZE, 2)
  }

  /** One byte at the start of user space, taken from byte `offset` of the file. */
  function OneByte(offset: Word): ProgramHeader
  {
    ProgramHeader(PROGRAM_LOAD, 5, offset, USER_SPACE_BASE, 1, 1)
  }

  /** Two headers for one address, which take their byte from different places of the file. */
  predicate Doubled(image: Image, h: Header, a: Byte, b: Byte)
  {
    && |image| == 178 && image[176] == a && image[177] == b && h == TwiceHeader()
    && HeaderFromImage(image) == Some(h)
    && ProgramHeaderFromImage(h, image, 0) == Some(OneByte(176))
    && ProgramHeaderFromImage(h, image, 1) == Some(OneByte(177))
  }

  function TwiceFile(): FileHeader
  {
    FileHeader(ELF + seq(12, _ => 0), TYPE_EXEC, MACHINE_X86_64, 0, USER_SPACE_BASE, 64, 0, 0, 0, PROGRAM_HEADER_SIZE,
               2, 0, 0, 0)
  }

  function OneByteInFile(offset: Word): FileProgram
  {
    FileProgram(PROGRAM_LOAD, 5, offset, USER_SPACE_BASE, 0, 1, 1, 0)
  }

  /** Such an image, in bytes. */
  function Twice(a: Byte, b: Byte): seq<Byte>
  {
    EncodeFile(TwiceFile(), [OneByteInFile(176), OneByteInFile(177)], [a, b])
  }

  lemma TwiceDoubled(a: Byte, b: Byte)
    ensures |Twice(a, b)| < WORD_LIMIT && Doubled(Twice(a, b), TwiceHeader(), a, b)
  {
    var ps := [OneByteInFile(176), OneByteInFile(177)];
    FileLength(TwiceFile(), ps, [a, b]);
    DoubledBy(TwiceFile(), ps, TwiceHeader(), a, b, Twice(a, b));
  }

  lemma DoubledBy(f: FileHeader, ps: seq<FileProgram>, h: Header, a: Byte, b: Byte, image: Image)
    requires |f.ident| == 16 && f.ident[..4] == ELF && h == KeptHeader(f) == TwiceHeader() && |ps| == 2
    requires KeptProgram(ps[0]) == OneByte(176) && KeptProgram(ps[1]) == OneByte(177)
    requires image == EncodeFile(f, ps, [a, b])
    ensures Doubled(image, h, a, b)
  {
    FileLength(f, ps, [a, b]);
    FileReadsBack(f, h, [], ps, [a, b], image);
  }

  lemma OneBytePlanned(p: ProgramHeader, size: Word)
    requires p.offset < size && p == OneByte(p.offset)
    ensures IsLoadable(p) && PlanLoadSegment(p, size).Some?
  {}

  lemma BothPlannable(image: Image, h: Header, a: Byte, b: Byte)
    requires Doubled(image, h, a, b)
    ensures Plannable(h, image, 0) && Plannable(h, image, 1) && HoldsEntry(h, image, 0)
  {
    OneBytePlanned(OneByte(176), |image|);
    OneBytePlanned(OneByte(177), |image|);
  }

  /** The loader accepts the image: only a lack of frames can make the load fail. */
  lemma TwiceAccepted(image: Image, h: Header, a: Byte, b: Byte)
    requires Doubled(image, h, a, b)
    ensures IsUserElf(image, h) && AllPlannable(h, image, 2)
  {
    BothPlannable(image, h, a, b);
    forall i: nat | i < 2 ensures Plannable(h, image, i) { assert i == 0 || i == 1; }
    assert forall j: nat | j <= 0 :: Plannable(h, image, j);
  }

  lemma TwiceCovering(image: Image, h: Header, a: Byte, b: Byte)
    requires Doubled(image, h, a, b)
    ensures AllPlannable(h, image, 2)
    ensures var last := Covering(SegmentsOf(h, image, 2), USER_SPACE_BASE / 4096);
            last.Some? && ByteIn(last.value, USER_SPACE_BASE) == b
  {
    TwiceAccepted(image, h, a, b);
    var g := SegmentOf(OneByte(177), image);
    var one := SegmentsOf(h, image, 1);
    assert SegmentsOf(h, image, 2) == one + [g];
    CoveringAppend(one, g, USER_SPACE_BASE / 4096);
    FileByte(OneByte(177), image, USER_SPACE_BASE);
  }

  lemma LosesByte(c: Sharing, w0: World, s: Space, source: nat, shared: set<nat>, image: Image, h: Header, cr3: Word,
                  k: nat, va: Word, b: Byte, flags: Word)
    requires Loaded(c, w0, s, source, shared, image, h) && s.root == cr3 / 4096
    requires k < h.phnum && Plannable(h, image, k) && IsLoadable(ProgramHeaderFromImage(h, image, k).value)
    requires Covers(SegmentOf(ProgramHeaderFromImage(h, image, k).value, image), va / 4096)
    requires var last := Covering(SegmentsOf(h, image, h.phnum), va / 4096); last.Some? && ByteIn(last.value, va) == b
    requires var p := ProgramHeaderFromImage(h, image, k).value;
             FileByteAt(p, image, va) != b && flags == UserFlags(p.flags / 2 % 2 == 1, p.flags % 2 == 0)
    ensures !Shows(s.w.mem, cr3, va, flags, FileByteAt(ProgramHeaderFromImage(h, image, k).value, image, va))
  {
    FileByteExactly(c, w0, s, source, shared, image, h, cr3, k, va);
  }

  /** The first header is loadable and promises `a`. */
  lemma TwiceOwn(image: Image, h: Header, a: Byte, b: Byte, p: ProgramHeader)
    requires Doubled(image, h, a, b) && p == OneByte(176)
    ensures IsLoadable(p) && PlanLoadSegment(p, |image|).Some? && p.offset + p.filesz <= |image|
    ensures Plannable(h, image, 0) && Covers(SegmentOf(p, image), USER_SPACE_BASE / 4096)
    ensures FileByteAt(p, image, USER_SPACE_BASE) == a
    ensures UserFlags(p.flags / 2 % 2 == 1, p.flags % 2 == 0) == UserFlags(false, false)
  {}

  /** The first header's byte is lost: wherever this image is loaded, the address does not show it. */
  lemma OverlapLoses(a: Byte, b: Byte, c: Sharing, w0: World, s: Space, source: nat, shared: set<nat>, image: Image,
                     h: Header, cr3: Word, va: Word)
    requires a != b && Doubled(image, h, a, b) && va == USER_SPACE_BASE
    requires Loaded(c, w0, s, source, shared, image, h) && s.root == cr3 / 4096
    ensures OneByte(176).offset + 1 <= |image| && FileByteAt(OneByte(176), image, va) == a
    ensures !Shows(s.w.mem, cr3, va, UserFlags(false, false), a)
  {
    TwiceOwn(image, h, a, b, OneByte(176));
    TwiceCovering(image, h, a, b);
    LosesByte(c, w0, s, source, shared, image, h, cr3, 0, va, b, UserFlags(false, false));
  }
}

/**
 ELF64 files as the standard lays them out: every field of the file header and of the program
 headers, in order and little-endian.  The loader's readers are proved to be the inverse of this
 encoding, so the fields they use are the fields the standard puts there.
 */
module ElfEncoding {
  import opened Basics
  import opened Word64
  import opened UserElf

  type Half = n: nat | n < 0x1_0000
  type Quad = n: nat | n < 0x1_0000_0000

  /** `n` in `width` bytes, least significant first. */
  function LittleEndianOf(n: nat, width: nat): (bs: seq<Byte>)
    ensures |bs| == width
  {
    if width == 0 then [] else [n % 256] + LittleEndianOf(n / 256, width - 1)
  }

  lemma {:induction false} NumberReadsBack(n: nat, width: nat)
    requires n < Pow2(8 * width)
    ensures LittleEndian(LittleEndianOf(n, width)) == n
    decreases width
  {
    if width > 0 {
      Pow2Add(8, 8 * (width - 1));
      assert Pow2(8) == 256;
      NumberReadsBack(n / 256, width - 1);
      assert LittleEndianOf(n, width)[1..] == LittleEndianOf(n / 256, width - 1);
    }
  }

  lemma LowByte(n: nat, b: Byte, m: nat)
    requires n == b + 256 * m
    ensures n % 256 == b && n / 256 == m
  {}

  lemma {:induction false} BytesReadBack(bs: seq<Byte>)
    ensures LittleEndianOf(LittleEndian(bs), |bs|) == bs
    decreases |bs|
  {
    if bs != [] {
      BytesReadBack(bs[1..]);
      LowByte(LittleEndian(bs), bs[0], LittleEndian(bs[1..]));
      assert bs == [bs[0]] + bs[1..];
    }
  }

  // ----- the fields, in the order of the file

  datatype FileHeader = FileHeader(ident: seq<Byte>, kind: Half, machine: Half, version: Quad, entry: Word,
                                   phoff: Word, shoff: Word, flags: Quad, ehsize: Half, phentsize: Half, phnum: Half,
                                   shentsize: Half, shnum: Half, shstrndx: Half)

  datatype FileProgram = FileProgram(kind: Quad, flags: Quad, offset: Word, vaddr: Word, paddr: Word, filesz: Word,
                                     memsz: Word, align: Word)

  /** A number and the bytes it takes in the file. */
  datatype Slot = Slot(value: nat, width: nat)

  /** What follows the sixteen identification bytes. */
  function HeaderSlots(f: FileHeader): seq<Slot>
  {
    [Slot(f.kind, 2), Slot(f.machine, 2), Slot(f.version, 4), Slot(f.entry, 8), Slot(f.phoff, 8), Slot(f.shoff, 8),
     Slot(f.flags, 4), Slot(f.ehsize, 2), Slot(f.phentsize, 2), Slot(f.phnum, 2), Slot(f.shentsize, 2),
     Slot(f.shnum, 2), Slot(f.shstrndx, 2)]
  }

  function ProgramSlots(p: FileProgram): seq<Slot>
  {
    [Slot(p.kind, 4), Slot(p.flags, 4), Slot(p.offset, 8), Slot(p.vaddr, 8), Slot(p.paddr, 8), Slot(p.filesz, 8),
     Slot(p.memsz, 8), Slot(p.align, 8)]
  }

  /** The bytes before slot `n`. */
  function Offset(slots: seq<Slot>, n: nat): nat
    requires n <= |slots|
  {
    if n == 0 then 0 else Offset(slots, n - 1) + slots[n - 1].width
  }

  /** The first `n` slots, one behind the other. */
  function Spelt(slots: seq<Slot>, n: nat): (bs: seq<Byte>)
    requires n <= |slots|
    ensures |bs| == Offset(slots, n)
  {
    if n == 0 then [] else Spelt(slots, n - 1) + LittleEndianOf(slots[n - 1].value, slots[n - 1].width)
  }

  function Spell(slots: seq<Slot>): seq<Byte> { Spelt(slots, |slots|) }

  function EncodeHeader(f: FileHeader): seq<Byte> { f.ident + Spell(HeaderSlots(f)) }

  function EncodeProgram(p: FileProgram): seq<Byte> { Spell(ProgramSlots(p)) }

  function EncodeTable(ps: seq<FileProgram>): seq<Byte>
  {
    if ps == [] then [] else EncodeProgram(ps[0]) + EncodeTable(ps[1..])
  }

  /** A file whose program headers follow its header. */
  function EncodeFile(f: FileHeader, ps: seq<FileProgram>, body: seq<Byte>): seq<Byte>
  {
    EncodeHeader(f) + EncodeTable(ps) + body
  }

  // ----- where the slots are

  lemma {:induction false} SlotInside(slots: seq<Slot>, k: nat, n: nat, at: nat, end: nat)
    requires k < n <= |slots| && at == Offset(slots, k) && end == at + slots[k].width
    ensures end <= Offset(slots, n) && Spelt(slots, n)[at..end] == LittleEndianOf(slots[k].value, slots[k].width)
    decreases n
  {
    if k + 1 < n { SlotInside(slots, k, n - 1, at, end); }
  }

  /** A number that fits its slot is what the image holds there. */
  lemma SlotReadsBack(slots: seq<Slot>, k: nat, pre: seq<Byte>, post: seq<Byte>, image: Image, o: nat, width: nat)
    requires k < |slots| && width == slots[k].width <= 8 && slots[k].value < Pow2(8 * width)
    requires image == pre + Spell(slots) + post && o == |pre| + Offset(slots, k)
    ensures o + width <= |image| && Field(image, o, width) == slots[k].value
  {
    var at := Offset(slots, k);
    SlotInside(slots, k, |slots|, at, at + width);
    SliceOf(pre, Spell(slots), post, at, at + width);
    NumberReadsBack(slots[k].value, width);
  }

  lemma HeaderOffsets(slots: seq<Slot>, f: FileHeader)
    requires slots == HeaderSlots(f)
    ensures Offset(slots, 0) == 0 && Offset(slots, 1) == 2 && Offset(slots, 2) == 4 && Offset(slots, 3) == 8
    ensures Offset(slots, 4) == 16 && Offset(slots, 5) == 24 && Offset(slots, 6) == 32 && Offset(slots, 7) == 36
    ensures Offset(slots, 8) == 38 && Offset(slots, 9) == 40 && Offset(slots, 10) == 42 && Offset(slots, 11) == 44
    ensures Offset(slots, 12) == 46 && Offset(slots, 13) == 48
  {}

  lemma ProgramOffsets(slots: seq<Slot>, p: FileProgram)
    requires slots == ProgramSlots(p)
    ensures Offset(slots, 0) == 0 && Offset(slots, 1) == 4 && Offset(slots, 2) == 8 && Offset(slots, 3) == 16
    ensures Offset(slots, 4) == 24 && Offset(slots, 5) == 32 && Offset(slots, 6) == 40 && Offset(slots, 7) == 48
    ensures Offset(slots, 8) == PROGRAM_HEADER_SIZE
  {}

  lemma HeaderLength(f: FileHeader)
    requires |f.ident| == 16
    ensures |EncodeHeader(f)| == HEADER_SIZE
  {
    HeaderOffsets(HeaderSlots(f), f);
  }

  lemma {:induction false} TableLength(ps: seq<FileProgram>)
    ensures |EncodeTable(ps)| == |ps| * PROGRAM_HEADER_SIZE
    decreases |ps|
  {
    if ps != [] {
      ProgramOffsets(ProgramSlots(ps[0]), ps[0]);
      TableLength(ps[1..]);
    }
  }

  lemma FileLength(f: FileHeader, ps: seq<FileProgram>, body: seq<Byte>)
    requires |f.ident| == 16
    ensures |EncodeHeader(f)| == HEADER_SIZE && |EncodeTable(ps)| == |ps| * PROGRAM_HEADER_SIZE
    ensures EncodeFile(f, ps, body) == EncodeHeader(f) + [] + EncodeTable(ps) + body
  {
    HeaderLength(f);
    TableLength(ps);
  }

  lemma Widths()
    ensures Pow2(16) == 0x1_0000 && Pow2(32) == 0x1_0000_0000 && Pow2(64) == WORD_LIMIT
  {
    assert Pow2(8) == 256;
    Pow2Add(8, 8);
    Pow2Add(16, 16);
    Pow2Add(32, 32);
  }

  // ----- the file header

  const ELF: seq<Byte> := [0x7F, 0x45, 0x4C, 0x46]

  /** The magic number is the four bytes 7F 45 4C 46, in this order. */
  lemma MagicBytes(image: Image)
    requires |image| >= 4
    ensures Field(image, 0, 4) == MAGIC <==> image[..4] == ELF
  {
    BytesReadBack(ELF);
    BytesReadBack(image[0..4]);
    assert image[..4] == image[0..4];
  }

  /** What the loader keeps of a header it accepts. */
  function KeptHeader(f: FileHeader): Header
  {
    Header(MAGIC, f.kind, f.machine, f.entry, f.phoff, f.phentsize, f.phnum)
  }

  /** The loader's checks, on the fields of the file. */
  predicate Supported(f: FileHeader, size: nat)
  {
    |f.ident| == 16 && f.ident[..4] == ELF && f.phoff < size && f.phentsize == PROGRAM_HEADER_SIZE
  }

  lemma HeaderFields(f: FileHeader, post: seq<Byte>, image: Image)
    requires |f.ident| == 16 && image == EncodeHeader(f) + post
    ensures |image| >= HEADER_SIZE && image[..4] == f.ident[..4]
    ensures var h := HeaderAt(image);
            && h.kind == f.kind && h.machine == f.machine && h.entry == f.entry && h.phoff == f.phoff
            && h.phentsize == f.phentsize && h.phnum == f.phnum
  {
    var slots := HeaderSlots(f);
    HeaderOffsets(slots, f);
    Widths();
    SlotReadsBack(slots, 0, f.ident, post, image, 16, 2);
    SlotReadsBack(slots, 1, f.ident, post, image, 18, 2);
    SlotReadsBack(slots, 3, f.ident, post, image, 24, 8);
    SlotReadsBack(slots, 4, f.ident, post, image, 32, 8);
    SlotReadsBack(slots, 8, f.ident, post, image, 54, 2);
    SlotReadsBack(slots, 9, f.ident, post, image, 56, 2);
  }

  /** Reading the header of any encoded file gives its fields back, or nothing if the loader does not support it. */
  lemma HeaderReadsBack(f: FileHeader, post: seq<Byte>, image: Image)
    requires |f.ident| == 16 && image == EncodeHeader(f) + post
    ensures HeaderFromImage(image) == if Supported(f, |image|) then Some(KeptHeader(f)) else None
  {
    HeaderFields(f, post, image);
    MagicBytes(image);
  }

  // ----- program headers

  /** What the loader keeps of a program header: all but the physical address and the alignment. */
  function KeptProgram(p: FileProgram): ProgramHeader
  {
    ProgramHeader(p.kind, p.flags, p.offset, p.vaddr, p.filesz, p.memsz)
  }

  lemma ProgramFields(p: FileProgram, pre: seq<Byte>, post: seq<Byte>, image: Image, o: nat)
    requires image == pre + EncodeProgram(p) + post && o == |pre|
    ensures |EncodeProgram(p)| == PROGRAM_HEADER_SIZE && o + PROGRAM_HEADER_SIZE <= |image|
    ensures ProgramHeaderAt(image, o) == KeptProgram(p)
  {
    var slots := ProgramSlots(p);
    ProgramOffsets(slots, p);
    Widths();
    SlotReadsBack(slots, 0, pre, post, image, o, 4);
    SlotReadsBack(slots, 1, pre, post, image, o + 4, 4);
    SlotReadsBack(slots, 2, pre, post, image, o + 8, 8);
    SlotReadsBack(slots, 3, pre, post, image, o + 16, 8);
    SlotReadsBack(slots, 5, pre, post, image, o + 32, 8);
    SlotReadsBack(slots, 6, pre, post, image, o + 40, 8);
  }

  lemma {:induction false} TableFields(ps: seq<FileProgram>, i: nat, pre: seq<Byte>, post: seq<Byte>, image: Image,
                                       o: nat)
    requires i < |ps| && image == pre + EncodeTable(ps) + post && o == |pre| + i * PROGRAM_HEADER_SIZE
    ensures o + PROGRAM_HEADER_SIZE <= |image| && ProgramHeaderAt(image, o) == KeptProgram(ps[i])
    decreases i
  {
    var first, more := EncodeProgram(ps[0]), EncodeTable(ps[1..]);
    assert image == pre + first + (more + post);
    ProgramFields(ps[0], pre, more + post, image, |pre|);
    if i > 0 {
      assert image == (pre + first) + more + post;
      TableFields(ps[1..], i - 1, pre + first, post, image, o);
    }
  }

  /** Reading any program header of an encoded table gives its fields back. */
  lemma {:induction false} TableReadsBack(h: Header, ps: seq<FileProgram>, pre: seq<Byte>, post: seq<Byte>,
                                          image: Image)
    requires h.phentsize == PROGRAM_HEADER_SIZE && |pre| == h.phoff && |ps| < 0x1_0000
    requires image == pre + EncodeTable(ps) + post
    ensures forall i: nat | i < |ps| :: ProgramHeaderFromImage(h, image, i) == Some(KeptProgram(ps[i]))
  {
    forall i: nat | i < |ps| ensures ProgramHeaderFromImage(h, image, i) == Some(KeptProgram(ps[i])) {
      TableFields(ps, i, pre, post, image, |pre| + i * PROGRAM_HEADER_SIZE);
    }
  }

  /** A whole file: its header and each of its program headers are read back. */
  lemma {:induction false} FileReadsBack(f: FileHeader, h: Header, gap: seq<Byte>, ps: seq<FileProgram>,
                                         body: seq<Byte>, image: Image)
    requires image == EncodeHeader(f) + gap + EncodeTable(ps) + body && h == KeptHeader(f)
    requires Supported(f, |image|) && f.phoff == |EncodeHeader(f) + gap| && f.phnum == |ps|
    ensures HeaderFromImage(image) == Some(h)
    ensures forall i: nat | i < |ps| :: ProgramHeaderFromImage(h, image, i) == Some(KeptProgram(ps[i]))
  {
    var pre, table := EncodeHeader(f) + gap, EncodeTable(ps);
    TableReadsBack(h, ps, pre, body, image);
    Behind(EncodeHeader(f), gap, table, body);
    HeaderReadsBack(f, gap + table + body, image);
  }

  lemma Behind(x: seq<Byte>, y: seq<Byte>, z: seq<Byte>, w: seq<Byte>)
    ensures x + y + z + w == x + (y + z + w)
  {}

  // ----- every image is an encoding

  /** Slot `k` holds the number that stands in the image at its offset behind `base`. */
  predicate SlotIn(slots: seq<Slot>, image: Image, base: nat, k: nat)
    requires k < |slots|
  {
    var at, width := base + Offset(slots, k), slots[k].width;
    at + width <= |image| && width <= 8 && slots[k].value == Field(image, at, width)
  }

  /** The bytes at that offset are the slot's number, spelt out. */
  predicate SpeltIn(slots: seq<Slot>, image: Image, base: nat, k: nat)
    requires k < |slots|
  {
    var at, width := base + Offset(slots, k), slots[k].width;
    at + width <= |image| && image[at..at + width] == LittleEndianOf(slots[k].value, width)
  }

  lemma SlotSpelt(slots: seq<Slot>, image: Image, base: nat, k: nat)
    requires k < |slots| && SlotIn(slots, image, base, k)
    ensures SpeltIn(slots, image, base, k)
  {
    var at, width := base + Offset(slots, k), slots[k].width;
    BytesReadBack(image[at..at + width]);
  }

  lemma Adjacent(image: seq<Byte>, base: nat, at: nat, end: nat)
    requires base <= at <= end <= |image|
    ensures image[base..at] + image[at..end] == image[base..end]
  {}

  lemma {:induction false} SlotsIn(slots: seq<Slot>, image: Image, base: nat, n: nat)
    requires n <= |slots| && base <= |image| && forall k: nat | k < n :: SpeltIn(slots, image, base, k)
    ensures base + Offset(slots, n) <= |image| && Spelt(slots, n) == image[base..base + Offset(slots, n)]
    decreases n
  {
    if n > 0 {
      SlotsIn(slots, image, base, n - 1);
      assert SpeltIn(slots, image, base, n - 1);
      var at := base + Offset(slots, n - 1);
      Adjacent(image, base, at, at + slots[n - 1].width);
    }
  }

  /** All fields of the header, as numbers. */
  function HeaderIn(image: Image): FileHeader
    requires |image| >= HEADER_SIZE
  {
    FieldsFit(image);
    FileHeader(image[..16], Field(image, 16, 2), Field(image, 18, 2), Field(image, 20, 4), Field(image, 24, 8),
               Field(image, 32, 8), Field(image, 40, 8), Field(image, 48, 4), Field(image, 52, 2), Field(image,
               54, 2), Field(image, 56, 2), Field(image, 58, 2), Field(image, 60, 2), Field(image, 62, 2))
  }

  lemma FieldsFit(image: Image)
    requires |image| >= HEADER_SIZE
    ensures forall at: nat | at + 2 <= HEADER_SIZE :: Field(image, at, 2) < 0x1_0000
    ensures forall at: nat | at + 4 <= HEADER_SIZE :: Field(image, at, 4) < 0x1_0000_0000
  {
    Widths();
    forall at: nat | at + 2 <= HEADER_SIZE ensures Field(image, at, 2) < 0x1_0000 {
      LittleEndianBound(image[at..at + 2]);
    }
    forall at: nat | at + 4 <= HEADER_SIZE ensures Field(image, at, 4) < 0x1_0000_0000 {
      LittleEndianBound(image[at..at + 4]);
    }
  }

  /** Any 64 bytes are the encoding of some file header. */
  lemma EveryHeader(image: Image, f: FileHeader)
    requires |image| >= HEADER_SIZE && f == HeaderIn(image)
    ensures |f.ident| == 16 && EncodeHeader(f) == image[..HEADER_SIZE]
  {
    var slots := HeaderSlots(f);
    HeaderOffsets(slots, f);
    forall k: nat | k < |slots| ensures SpeltIn(slots, image, 16, k) { SlotSpelt(slots, image, 16, k); }
    SlotsIn(slots, image, 16, |slots|);
  }

  /** The image starts with the encoding of a header the loader supports. */
  predicate StartsWith(image: Image, f: FileHeader) { Supported(f, |image|) && EncodeHeader(f) <= image }

  /** A header is found exactly in the images that start with a supported one, and it is that one. */
  lemma HeaderExactly(image: Image)
    ensures HeaderFromImage(image).Some? <==> exists f: FileHeader :: StartsWith(image, f)
    ensures forall f: FileHeader | StartsWith(image, f) :: HeaderFromImage(image) == Some(KeptHeader(f))
  {
    forall f: FileHeader | StartsWith(image, f) ensures HeaderFromImage(image) == Some(KeptHeader(f)) {
      assert image == EncodeHeader(f) + image[|EncodeHeader(f)|..];
      HeaderReadsBack(f, image[|EncodeHeader(f)|..], image);
    }
    if HeaderFromImage(image).Some? {
      var f := HeaderIn(image);
      EveryHeader(image, f);
      assert image == EncodeHeader(f) + image[HEADER_SIZE..];
      HeaderReadsBack(f, image[HEADER_SIZE..], image);
      assert StartsWith(image, f);
    }
  }
}

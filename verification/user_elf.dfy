/**
 ELF64 images of user programs: the fields the loader reads, the bounds it checks, and the plan it
 makes for a loadable segment.  An image is a byte string shorter than 2^64 bytes; all checks are
 written with the 64-bit overflow tests of the loader and characterised over unbounded integers.
 */
module UserElf {
  import opened Basics
  import opened Word64
  import opened Entries
  import opened UserCopy

  type Image = s: seq<Byte> | |s| < WORD_LIMIT

  // ----- fields

  function LittleEndian(bs: seq<Byte>): nat
  {
    if bs == [] then 0 else bs[0] + 256 * LittleEndian(bs[1..])
  }

  lemma {:induction false} LittleEndianBound(bs: seq<Byte>)
    ensures LittleEndian(bs) < Pow2(8 * |bs|)
    decreases |bs|
  {
    if bs != [] {
      LittleEndianBound(bs[1..]);
      Pow2Add(8, 8 * |bs[1..]|);
      assert Pow2(8) == 256;
    }
  }

  /** `width` bytes of the image as a number. */
  function Field(image: Image, at: nat, width: nat): (n: nat)
    requires at + width <= |image| && width <= 8
    ensures n < WORD_LIMIT
  {
    LittleEndianBound(image[at..at + width]);
    Pow2At64();
    Pow2Grows(8 * width, 64);
    LittleEndian(image[at..at + width])
  }

  lemma Pow2Grows(m: nat, n: nat)
    requires m <= n
    ensures Pow2(m) <= Pow2(n)
  {
    Pow2Add(m, n - m);
    MulMono(1, Pow2(n - m), Pow2(m));
  }

  const MAGIC: nat := 0x464C_457F
  const TYPE_EXEC: nat := 2
  const MACHINE_X86_64: nat := 62
  const PROGRAM_LOAD: nat := 1
  const HEADER_SIZE: nat := 64
  const PROGRAM_HEADER_SIZE: nat := 56

  datatype Header = Header(magic: nat, kind: nat, machine: nat, entry: Word, phoff: Word, phentsize: nat, phnum: nat)

  datatype ProgramHeader = ProgramHeader(kind: nat, flags: nat, offset: Word, vaddr: Word, filesz: Word, memsz: Word)

  function HeaderAt(image: Image): Header
    requires |image| >= HEADER_SIZE
  {
    Header(Field(image, 0, 4), Field(image, 16, 2), Field(image, 18, 2), Field(image, 24, 8),
           Field(image, 32, 8), Field(image, 54, 2), Field(image, 56, 2))
  }

  function ProgramHeaderAt(image: Image, at: nat): ProgramHeader
    requires at + PROGRAM_HEADER_SIZE <= |image|
  {
    ProgramHeader(Field(image, at, 4), Field(image, at + 4, 4), Field(image, at + 8, 8),
                  Field(image, at + 16, 8), Field(image, at + 32, 8), Field(image, at + 40, 8))
  }

  // ----- bounds

  function CheckedAdd(left: Word, right: Word): (r: Option<Word>)
    ensures r.Some? <==> left + right < WORD_LIMIT
    ensures r.Some? ==> r.value == left + right
  {
    if left > WORD_LIMIT - 1 - right then None else Some(left + right)
  }

  function HeaderFromImage(image: Image): (r: Option<Header>)
    ensures r.Some? ==> |image| >= HEADER_SIZE && r.value == HeaderAt(image) && r.value.phentsize == PROGRAM_HEADER_SIZE
  {
    if |image| < HEADER_SIZE then None
    else
      var h := HeaderAt(image);
      if h.magic != MAGIC || h.phoff >= |image| || h.phentsize != PROGRAM_HEADER_SIZE then None else Some(h)
  }

  /** Program header `i`, present exactly when it lies inside the image. */
  function ProgramHeaderFromImage(h: Header, image: Image, i: nat): (r: Option<ProgramHeader>)
    requires h.phentsize == PROGRAM_HEADER_SIZE && i < 0x1_0000
    ensures r.Some? <==> h.phoff + i * PROGRAM_HEADER_SIZE + PROGRAM_HEADER_SIZE <= |image|
    ensures r.Some? ==> r.value == ProgramHeaderAt(image, h.phoff + i * PROGRAM_HEADER_SIZE)
  {
    match CheckedAdd(h.phoff, i * PROGRAM_HEADER_SIZE)
    case None => None
    case Some(at) =>
      match CheckedAdd(at, PROGRAM_HEADER_SIZE)
      case None => None
      case Some(end) => if end > |image| then None else Some(ProgramHeaderAt(image, at))
  }

  /** The file part of the segment lies inside the image and inside the segment. */
  predicate SegmentBoundsValid(p: ProgramHeader, imageSize: Word)
    ensures SegmentBoundsValid(p, imageSize) <==> p.filesz <= p.memsz && p.offset + p.filesz <= imageSize
  {
    p.memsz >= p.filesz && CheckedAdd(p.offset, p.filesz).Some? && CheckedAdd(p.offset, p.filesz).value <= imageSize
  }

  // ----- the plan of a segment

  const STACK_PAGES: nat := 16
  const STACK_BASE: nat := USER_STACK_TOP - 16 * 4096
  const GUARD_BASE: nat := USER_STACK_TOP - 17 * 4096

  /** Present and User, with Write and NoExecute as asked. */
  function UserFlags(writable: bool, noExecute: bool): Word
  {
    5 + (if writable then 2 else 0) + (if noExecute then 0x8000_0000_0000_0000 else 0)
  }

  /** First and last page plus one, and the flags of every page between. */
  datatype Plan = Plan(first: nat, end: nat, flags: Word)

  function AlignUpChecked(value: Word): (r: Option<Word>)
    ensures r.Some? <==> value + 4095 < WORD_LIMIT
    ensures r.Some? ==> r.value % 4096 == 0 && value <= r.value < value + 4096
  {
    match CheckedAdd(value, 4095)
    case None => None
    case Some(biased) => Some(biased - biased % 4096)
  }

  predicate IsLoadable(p: ProgramHeader) { p.kind == PROGRAM_LOAD && p.memsz != 0 }

  /**
   `plan_load_segment`.  A plan exists exactly when the segment is loadable, its file part is in
   bounds, and its memory lies between the start of user space and the stack guard page.
   */
  function PlanLoadSegment(p: ProgramHeader, imageSize: Word): (r: Option<Plan>)
    ensures r.Some? <==> IsLoadable(p) && p.filesz <= p.memsz && p.offset + p.filesz <= imageSize &&
                         USER_SPACE_BASE <= p.vaddr && p.vaddr + p.memsz <= GUARD_BASE
    ensures r.Some? ==> var plan := r.value;
              && plan.first * 4096 <= p.vaddr < plan.first * 4096 + 4096
              && plan.end * 4096 - 4096 < p.vaddr + p.memsz <= plan.end * 4096
              && USER_SPACE_BASE <= plan.first * 4096 && plan.first < plan.end && plan.end * 4096 <= GUARD_BASE
              && plan.flags == UserFlags(p.flags / 2 % 2 == 1, p.flags % 2 == 0)
  {
    if !IsLoadable(p) || !SegmentBoundsValid(p, imageSize) then None
    else
      match CheckedAdd(p.vaddr, p.memsz)
      case None => None
      case Some(rawEnd) =>
        match AlignUpChecked(rawEnd)
        case None => None
        case Some(end) =>
          var start := p.vaddr - p.vaddr % 4096;
          if start < USER_SPACE_BASE || end > GUARD_BASE || start / 0x80_0000_0000 % 512 != 1 || end <= start then None
          else Some(Plan(start / 4096, end / 4096, UserFlags(p.flags / 2 % 2 == 1, p.flags % 2 == 0)))
  }

  lemma LowFlagBits(low: nat, i: nat)
    requires low == 5 || low == 7
    ensures Bit(low, i) <==> i == 0 || i == 2 || (i == 1 && low == 7)
  {
    assert Pow2(3) == 8;
    if i >= 3 { HighBits(low, 3, i); }
  }

  lemma UserFlagBits(writable: bool, noExecute: bool, i: nat)
    requires i < 64
    ensures Bit(UserFlags(writable, noExecute), i) <==>
              i == 0 || i == 2 || (i == 1 && writable) || (i == 63 && noExecute)
  {
    Powers();
    var low := if writable then 7 else 5;
    LowFlagBits(low, i);
    if noExecute { TopBitBeside(NO_EXECUTE, low, i); }
  }

  lemma UserFlagsArePageFlags(writable: bool, noExecute: bool)
    ensures IsPageFlags(UserFlags(writable, noExecute))
    ensures BitOr(UserFlags(writable, noExecute), PRESENT) == UserFlags(writable, noExecute)
  {
    var f := UserFlags(writable, noExecute);
    forall i: nat | i < 64
      ensures Bit(f, i) ==> i < 3 || i == 63
      ensures Bit(BitOr(f, PRESENT), i) == Bit(f, i)
    {
      UserFlagBits(writable, noExecute, i);
      OrBit(f, PRESENT, i);
      if i > 0 { HighBits(PRESENT, 1, i); }
    }
    WordsEqual(BitOr(f, PRESENT), f);
  }

  // ----- the entry point

  /** Header `i` is in the image and, if loadable, can be planned. */
  predicate Plannable(h: Header, image: Image, i: nat)
    requires h.phentsize == PROGRAM_HEADER_SIZE && i < 0x1_0000
  {
    var p := ProgramHeaderFromImage(h, image, i);
    p.Some? && (IsLoadable(p.value) ==> PlanLoadSegment(p.value, |image|).Some?)
  }

  /** Header `i` describes memory that holds the entry point. */
  predicate HoldsEntry(h: Header, image: Image, i: nat)
    requires h.phentsize == PROGRAM_HEADER_SIZE && i < 0x1_0000
  {
    var p := ProgramHeaderFromImage(h, image, i);
    p.Some? && IsLoadable(p.value) && p.value.vaddr <= h.entry < p.value.vaddr + p.value.memsz
  }

  /** Accepts exactly when some segment holds the entry point and no header up to it is out of bounds. */
  method EntryPointInLoadableSegment(h: Header, image: Image) returns (ok: bool)
    requires h.phentsize == PROGRAM_HEADER_SIZE && h.phnum < 0x1_0000
    ensures ok <==> exists i: nat | i < h.phnum ::
              HoldsEntry(h, image, i) && forall j: nat | j <= i :: Plannable(h, image, j)
  {
    var i := 0;
    while i < h.phnum
      invariant i <= h.phnum
      invariant forall j: nat | j < i :: Plannable(h, image, j) && !HoldsEntry(h, image, j)
    {
      var verdict := EntryInHeader(h, image, i);
      if verdict != Elsewhere {
        assert HoldsEntry(h, image, i) || !Plannable(h, image, i);
        return verdict == Inside;
      }
      i := i + 1;
    }
    ok := false;
  }

  datatype Verdict = Unusable | Inside | Elsewhere

  method EntryInHeader(h: Header, image: Image, i: nat) returns (r: Verdict)
    requires h.phentsize == PROGRAM_HEADER_SIZE && i < 0x1_0000
    ensures r == Unusable <==> !Plannable(h, image, i)
    ensures r == Inside <==> Plannable(h, image, i) && HoldsEntry(h, image, i)
  {
    r := Elsewhere;
    var p := ProgramHeaderFromImage(h, image, i);
    if p.None? { return Unusable; }
    if IsLoadable(p.value) {
      var plan := PlanLoadSegment(p.value, |image|);
      if plan.None? { return Unusable; }
      var rawEnd := CheckedAdd(p.value.vaddr, p.value.memsz);
      if rawEnd.None? { return Unusable; }
      if p.value.vaddr <= h.entry < rawEnd.value { r := Inside; }
    }
  }
}

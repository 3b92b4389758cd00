/**
 From the file to user mode.  An ELF64 file written field by field is loaded, and every address its
 program headers name shows the byte of the file it should, with the rights the file asks for.
 */
module LoadedFile {
  import opened Basics
  import opened Word64
  import opened Entries
  import opened Paging
  import opened UserAccess
  import opened VirtualMemories
  import opened UserCopy
  import opened UserElf
  import opened ElfEncoding
  import opened UserImage
  import opened UserPrograms
  import opened LoadedImage

  /** A file: its header, any bytes, its program headers at the offset the header gives, any bytes. */
  ghost predicate IsFile(image: Image, f: FileHeader, gap: seq<Byte>, ps: seq<FileProgram>, body: seq<Byte>)
  {
    && image == EncodeHeader(f) + gap + EncodeTable(ps) + body
    && f.phoff == |EncodeHeader(f) + gap| && f.phnum == |ps|
  }

  predicate Loads(p: FileProgram) { p.kind == PROGRAM_LOAD && p.memsz != 0 }

  /** The pages from the one that holds the first byte to the one that holds the last. */
  predicate OnPage(p: FileProgram, v: nat) { Loads(p) && p.vaddr / 4096 <= v <= (p.vaddr + p.memsz - 1) / 4096 }

  /** No page belongs to two program headers. */
  ghost predicate Apart(ps: seq<FileProgram>)
  {
    forall i: nat, j: nat, v: nat | i < j < |ps| :: !(OnPage(ps[i], v) && OnPage(ps[j], v))
  }

  /** Planned pages are the pages of the file's own fields. */
  lemma PlannedPages(p: FileProgram, image: Image, v: nat)
    requires PlanLoadSegment(KeptProgram(p), |image|).Some?
    ensures Covers(SegmentOf(KeptProgram(p), image), v) <==> OnPage(p, v)
    ensures var g := SegmentOf(KeptProgram(p), image); g.lo < g.hi
  {}

  ghost predicate ReadFrom(image: Image, h: Header, ps: seq<FileProgram>)
    requires h.phentsize == PROGRAM_HEADER_SIZE && |ps| < 0x1_0000
  {
    forall i: nat | i < |ps| :: ProgramHeaderFromImage(h, image, i) == Some(KeptProgram(ps[i]))
  }

  lemma SegmentsApart(p: FileProgram, q: FileProgram, image: Image)
    requires PlanLoadSegment(KeptProgram(p), |image|).Some? && PlanLoadSegment(KeptProgram(q), |image|).Some?
    requires forall v: nat :: !(OnPage(p, v) && OnPage(q, v))
    ensures var g, g' := SegmentOf(KeptProgram(p), image), SegmentOf(KeptProgram(q), image);
            g.hi <= g'.lo || g'.hi <= g.lo
  {
    var g, g' := SegmentOf(KeptProgram(p), image), SegmentOf(KeptProgram(q), image);
    var v := if g.lo < g'.lo then g'.lo else g.lo;
    PlannedPages(p, image, v);
    PlannedPages(q, image, v);
  }

  /** Header `n` lies on other pages than each segment before it. */
  lemma LastApart(image: Image, h: Header, ps: seq<FileProgram>, n: nat, i: nat, p: FileProgram)
    requires h.phentsize == PROGRAM_HEADER_SIZE && n < |ps| < 0x1_0000 && ReadFrom(image, h, ps) && p == ps[n]
    requires AllPlannable(h, image, n) && Apart(ps) && PlanLoadSegment(KeptProgram(p), |image|).Some?
    requires i < |SegmentsOf(h, image, n)|
    ensures var g, g' := SegmentsOf(h, image, n)[i], SegmentOf(KeptProgram(p), image);
            g.hi <= g'.lo || g'.hi <= g.lo
  {
    var k := SegmentHeader(h, image, n, i);
    SegmentsApart(ps[k], p, image);
  }

  /** Program headers on different pages give page-disjoint segments. */
  lemma {:induction false} FileDisjoint(image: Image, h: Header, ps: seq<FileProgram>, n: nat)
    requires h.phentsize == PROGRAM_HEADER_SIZE && n <= |ps| < 0x1_0000 && ReadFrom(image, h, ps)
    requires AllPlannable(h, image, n) && Apart(ps)
    ensures PageDisjoint(SegmentsOf(h, image, n))
    decreases n
  {
    if n > 0 {
      FileDisjoint(image, h, ps, n - 1);
      assert Plannable(h, image, n - 1);
      var p, more := ps[n - 1], SegmentsOf(h, image, n - 1);
      if IsLoadable(KeptProgram(p)) {
        forall i: nat | i < |more|
          ensures var g := SegmentOf(KeptProgram(p), image); more[i].hi <= g.lo || g.hi <= more[i].lo
        {
          LastApart(image, h, ps, n - 1, i, p);
        }
      }
    }
  }

  /** Address `va` of program header `p` shows its byte of the file, or zero behind the file part. */
  predicate ShowsFile(mem: Memory, cr3: Word, image: Image, p: FileProgram, va: Word)
  {
    var t := Translate(mem, cr3, va);
    && t.Mapped? && p.vaddr <= va
    && if va < p.vaddr + p.filesz
       then p.offset + (va - p.vaddr) < |image| && ByteAt(mem, t.physical) == image[p.offset + (va - p.vaddr)]
       else ByteAt(mem, t.physical) == 0
  }

  lemma AddressPlanned(image: Image, p: FileProgram, va: nat)
    requires PlanLoadSegment(KeptProgram(p), |image|).Some? && p.vaddr <= va < p.vaddr + p.memsz
    ensures va < WORD_LIMIT && p.offset + p.filesz <= |image|
    ensures Covers(SegmentOf(KeptProgram(p), image), va / 4096)
  {
    PlannedPages(p, image, va / 4096);
  }

  lemma HeaderIsLoaded(c: Sharing, w0: World, s: Space, source: nat, shared: set<nat>, cr3: Word, image: Image,
                       h: Header, i: nat, p: FileProgram, va: nat, write: bool, fetch: bool)
    requires Loaded(c, w0, s, source, shared, image, h) && s.root == cr3 / 4096
    requires PageDisjoint(SegmentsOf(h, image, h.phnum)) && i < h.phnum
    requires ProgramHeaderFromImage(h, image, i) == Some(KeptProgram(p))
    requires Loads(p) && p.vaddr <= va < p.vaddr + p.memsz
    ensures va < WORD_LIMIT && ShowsFile(s.w.mem, cr3, image, p, va)
    ensures UserMay(s.w.mem, s.root, va / 4096, write, fetch) <==>
              (write ==> p.flags / 2 % 2 == 1) && (fetch ==> p.flags % 2 == 1)
  {
    assert Plannable(h, image, i);
    AddressPlanned(image, p, va);
    FileBytes(c, w0, s, source, shared, image, h, cr3, i, va);
  }

  /**
   If no two program headers share a page, each address of header `i` shows its byte of the file,
   or zero behind the file part; user mode may read it, and may write it or fetch from it exactly as
   the header's flags say.
   */
  lemma FileIsLoaded(c: Sharing, w0: World, s: Space, source: nat, shared: set<nat>, cr3: Word, image: Image,
                     f: FileHeader, gap: seq<Byte>, ps: seq<FileProgram>, body: seq<Byte>, i: nat, va: nat,
                     write: bool, fetch: bool)
    requires IsFile(image, f, gap, ps, body) && Supported(f, |image|) && Apart(ps)
    requires Loaded(c, w0, s, source, shared, image, KeptHeader(f)) && s.root == cr3 / 4096
    requires i < |ps| && Loads(ps[i]) && ps[i].vaddr <= va < ps[i].vaddr + ps[i].memsz
    ensures va < WORD_LIMIT && ShowsFile(s.w.mem, cr3, image, ps[i], va)
    ensures UserMay(s.w.mem, s.root, va / 4096, write, fetch) <==>
              (write ==> ps[i].flags / 2 % 2 == 1) && (fetch ==> ps[i].flags % 2 == 1)
  {
    var h := KeptHeader(f);
    FileReadsBack(f, h, gap, ps, body, image);
    FileDisjoint(image, h, ps, h.phnum);
    HeaderIsLoaded(c, w0, s, source, shared, cr3, image, h, i, ps[i], va, write, fetch);
  }
}

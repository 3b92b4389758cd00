/**
 The headers at page starts, word by word.  A slab page begins with eight header words, a multi-page
 allocation with five; the records of caches and pages are what these words say.  Nothing marks a
 page as having a header except the magic number in its first word, so a page that never got one may
 hold a magic all the same: left behind by a slab that was returned, or written by the holder of a
 payload.
 */
module KmemHeaders {
  import opened Basics
  import opened Word64
  import opened KmemSlabs
  import opened KmemLists
  import opened KmemCaches
  import opened KmemHeap

  const SLAB_MAGIC: nat := 0x4B4D_454D
  const LARGE_MAGIC: nat := 0x4B4D_454C
  const SLAB_WORDS: nat := 8
  const LARGE_WORDS: nat := 5

  function KindByte(k: Kind): nat
  {
    match k
    case NoList => 0
    case Empty => 1
    case Partial => 2
    case Full => 3
  }

  /** Word `i` of the header of slab page `p` of cache `c`; the pointer to a cache is its place in the table, from 1. */
  function SlabWord(c: nat, l: Layout, p: nat, s: Slab, i: nat): nat
  {
    if i == 0 then SLAB_MAGIC + s.objectSize * 0x1_0000_0000 + s.count * 0x1_0000_0000_0000
    else if i == 1 then s.free + SLAB_HEADER_SIZE * 0x1_0000 + l.size * 0x1_0000_0000
    else if i == 2 then KindByte(s.kind)
    else if i == 3 then p * 4096
    else if i == 4 then c + 1
    else if i == 5 then s.freeList
    else if i == 6 then s.prev * 4096
    else s.next * 4096
  }

  /** Word `i` of the header of the multi-page allocation that starts at page `p`. */
  function LargeWord(p: nat, n: nat, requested: nat, usable: nat, i: nat): nat
  {
    if i == 0 then LARGE_MAGIC + n * 0x1_0000_0000
    else if i == 1 then LARGE_OFFSET
    else if i == 2 then p * 4096
    else if i == 3 then requested
    else usable
  }

  /** Word `i` of page `p` belongs to a header. */
  predicate InHeader(pages: map<nat, Page>, p: nat, i: nat)
  {
    p in pages && i < if pages[p].SlabPage? then SLAB_WORDS else LARGE_WORDS
  }

  function HeaderWord(caches: seq<Cache>, pages: map<nat, Page>, p: nat, i: nat): nat
    requires p in pages
  {
    match pages[p]
    case SlabPage(c) =>
      if c < |caches| && p in caches[c].slabs then SlabWord(c, caches[c].layout, p, caches[c].slabs[p], i) else 0
    case LargePage(n, r, u) => LargeWord(p, n, r, u, i)
  }

  /** The headers in memory are those of the records. */
  ghost predicate HeadersOk(mem: Words, caches: seq<Cache>, pages: map<nat, Page>)
  {
    forall p: nat, i: nat | InHeader(pages, p, i) && p * 512 + i < |mem| ::
      mem[p * 512 + i] == HeaderWord(caches, pages, p, i)
  }

  /** `mem` with the header words of the records written into it. */
  function Stored(mem: Words, caches: seq<Cache>, pages: map<nat, Page>): (m: Words)
    ensures |m| == |mem|
  {
    seq(|mem|, k requires 0 <= k < |mem| =>
      if InHeader(pages, k / 512, k % 512) then HeaderWord(caches, pages, k / 512, k % 512) else mem[k])
  }

  /** The header `s` left in page `p`, which is no slab any more. */
  function LeftHeader(mem: Words, c: nat, l: Layout, p: nat, s: Slab): (m: Words)
    ensures Untouched(mem, m, p * 4096, p * 4096 + 4096)
  {
    var m := seq(|mem|, k requires 0 <= k < |mem| =>
      if k / 512 == p && k % 512 < SLAB_WORDS then SlabWord(c, l, p, s, k % 512) else mem[k]);
    assert forall a: nat | a % 8 == 0 && (a + 8 <= p * 4096 || p * 4096 + 4096 <= a) :: a / 8 / 512 != p;
    m
  }

  /** `mem'` differs from `mem` in header words at most. */
  ghost predicate OnlyHeaders(mem: Words, mem': Words, pages: map<nat, Page>)
  {
    && |mem'| == |mem|
    && forall k: nat | k < |mem| && !InHeader(pages, k / 512, k % 512) :: mem'[k] == mem[k]
  }

  lemma StoredIs(mem: Words, caches: seq<Cache>, pages: map<nat, Page>)
    ensures HeadersOk(Stored(mem, caches, pages), caches, pages) && OnlyHeaders(mem, Stored(mem, caches, pages), pages)
  {
    var m := Stored(mem, caches, pages);
    forall p: nat, i: nat | InHeader(pages, p, i) && p * 512 + i < |mem|
      ensures m[p * 512 + i] == HeaderWord(caches, pages, p, i)
    {
      assert (p * 512 + i) / 512 == p && (p * 512 + i) % 512 == i;
    }
  }

  // ----- header writes leave everything else alone

  lemma SlotOutside(pages: map<nat, Page>, p: nat, l: Layout, i: nat)
    requires ValidLayout(l) && i < Count(l) && p in pages && pages[p].SlabPage?
    ensures Slot(p, l, i) % 8 == 0 && Slot(p, l, i) / 8 / 512 == p && !InHeader(pages, p, Slot(p, l, i) / 8 % 512)
  {
    SlotBounds(p, l, i);
    var d := Slot(p, l, i) - p * 4096;
    assert Slot(p, l, i) / 8 == p * 512 + d / 8;
  }

  lemma SlabAfter(l: Layout, p: nat, s: Slab, chain: seq<nat>, mem: Words, mem': Words, pages: map<nat, Page>)
    requires ValidLayout(l) && SlabOk(l, p, s, chain, mem) && OnlyHeaders(mem, mem', pages) && p in pages
    requires pages[p].SlabPage?
    ensures SlabOk(l, p, s, chain, mem')
  {
    forall i: nat | i < |chain| ensures WordAt(mem', Slot(p, l, chain[i])) == WordAt(mem, Slot(p, l, chain[i])) {
      SlotOutside(pages, p, l, chain[i]);
    }
    LinkedFrame(mem, mem', p, l, s.freeList, chain);
  }

  lemma CachesAfter(s: Heap, mem': Words)
    requires CachesOk(s) && PagesOk(s) && OnlyHeaders(s.mem, mem', s.pages)
    ensures CachesOk(s.(mem := mem'))
  {
    forall c: nat | c < |s.caches| ensures SlotOk(s.caches[c], s.shadows[c], mem') {
      var k, g := s.caches[c], s.shadows[c];
      assert SlotOk(k, g, s.mem);
      if k.active {
        forall p | p in k.slabs ensures PageOk(k.layout, p, k.slabs[p], g.chains[p], mem') {
          assert PageOk(k.layout, p, k.slabs[p], g.chains[p], s.mem);
          PageOf(s, c, p);
          SlabAfter(k.layout, p, k.slabs[p], g.chains[p], s.mem, mem', s.pages);
        }
      }
    }
  }

  /** The allocator's structure does not depend on the header words: its records hold what they say. */
  lemma HeapAfter(s: Heap, mem': Words, free: set<nat>)
    requires HeapOk(s, free) && OnlyHeaders(s.mem, mem', s.pages)
    ensures HeapOk(s.(mem := mem'), free)
  {
    var s' := s.(mem := mem');
    CachesAfter(s, mem');
    SamePagesOk(s, s');
    forall q: nat ensures IsObject(s', q) <==> IsObject(s, q) {}
    forall q: nat ensures q in s'.live <==> IsObject(s', q) { assert q in s.live <==> IsObject(s, q); }
    forall q | q in s'.live ensures s'.live[q] <= Usable(s', q) { assert s.live[q] <= Usable(s, q); }
  }

  /** No word of a live payload lies in a header. */
  lemma PayloadOutside(s: Heap, q: nat, a: nat)
    requires CachesOk(s) && PagesOk(s) && IsObject(s, q) && a % 8 == 0 && q <= a && a + 8 <= q + Usable(s, q)
    ensures !InHeader(s.pages, a / 8 / 512, a / 8 % 512)
  {
    PayloadBounds(s, q);
    var p, b := q / 4096, a / 4096;
    PayloadHeld(s, q, b);
    assert a / 8 / 512 == b;
    if b in s.pages {
      assert Speaks(s, b);
      HeadOfRun(s, b);
      assert b == p && a / 8 % 512 == (a - p * 4096) / 8;
    }
  }

  /** A page with a header is held under that header. */
  lemma HeadOfRun(s: Heap, b: nat)
    requires PagesOk(s) && b in s.pages
    ensures b in s.holder && s.holder[b] == b
  {
    assert Speaks(s, b);
    match s.pages[b] {
      case SlabPage(c) =>
      case LargePage(n, r, u) => assert b <= b < b + n;
    }
  }

  // ----- reading a header

  function WordOf(mem: Words, p: nat, i: nat): nat
  {
    WordAt(mem, p * 4096 + i * 8)
  }

  function Magic(mem: Words, p: nat): nat { WordOf(mem, p, 0) % 0x1_0000_0000 }

  datatype Allocation = NoAllocation | SlabAllocation | LargeAllocation

  /** `allocation_kind_from_magic` on the first word of page `p`. */
  function AllocationAt(mem: Words, p: nat): Allocation
  {
    if Magic(mem, p) == SLAB_MAGIC then SlabAllocation
    else if Magic(mem, p) == LARGE_MAGIC then LargeAllocation
    else NoAllocation
  }

  function ObjectSizeAt(mem: Words, p: nat): nat { WordOf(mem, p, 0) / 0x1_0000_0000 % 0x1_0000 }

  function ObjectCountAt(mem: Words, p: nat): nat { WordOf(mem, p, 0) / 0x1_0000_0000_0000 % 0x1_0000 }

  function FreeCountAt(mem: Words, p: nat): nat { WordOf(mem, p, 1) % 0x1_0000 }

  function FirstOffsetAt(mem: Words, p: nat): nat { WordOf(mem, p, 1) / 0x1_0000 % 0x1_0000 }

  function StrideAt(mem: Words, p: nat): nat { WordOf(mem, p, 1) / 0x1_0000_0000 % 0x1_0000 }

  function PayloadOffsetAt(mem: Words, p: nat): nat { WordOf(mem, p, 1) / 0x1_0000_0000_0000 % 0x1_0000 }

  function KindAt(mem: Words, p: nat): nat { WordOf(mem, p, 2) % 0x100 }

  function PageCountAt(mem: Words, p: nat): nat { WordOf(mem, p, 0) / 0x1_0000_0000 }

  function LargeOffsetAt(mem: Words, p: nat): nat { WordOf(mem, p, 1) % 0x1_0000 }

  lemma WordIs(s: Heap, p: nat, i: nat)
    requires PagesOk(s) && HeadersOk(s.mem, s.caches, s.pages) && InHeader(s.pages, p, i)
    ensures WordOf(s.mem, p, i) == HeaderWord(s.caches, s.pages, p, i)
  {
    HeadOfRun(s, p);
    assert Held(s, p);
    assert (p * 4096 + i * 8) / 8 == p * 512 + i;
  }

  lemma Unpack(a: nat, b: nat, c: nat, d: nat)
    requires a < 0x1_0000 && b < 0x1_0000 && c < 0x1_0000 && d < 0x1_0000
    ensures var w := a + b * 0x1_0000 + c * 0x1_0000_0000 + d * 0x1_0000_0000_0000;
            && w % 0x1_0000 == a && w / 0x1_0000 % 0x1_0000 == b && w / 0x1_0000_0000 % 0x1_0000 == c
            && w / 0x1_0000_0000_0000 % 0x1_0000 == d && w % 0x1_0000_0000 == a + b * 0x1_0000
  {}

  /** Every field of the header of a slab page reads as the record has it. */
  lemma SlabReads(s: Heap, c: nat, p: nat)
    requires CachesOk(s) && PagesOk(s) && HeadersOk(s.mem, s.caches, s.pages) && c < |s.caches| && s.caches[c].active
    requires p in s.caches[c].slabs
    ensures var k, h := s.caches[c], s.caches[c].slabs[p];
            && AllocationAt(s.mem, p) == SlabAllocation && WordOf(s.mem, p, 4) == c + 1
            && ObjectSizeAt(s.mem, p) == k.layout.size == h.objectSize && ObjectCountAt(s.mem, p) == h.count
            && FreeCountAt(s.mem, p) == h.free && FirstOffsetAt(s.mem, p) == SLAB_HEADER_SIZE &&
                StrideAt(s.mem, p) == k.layout.size
            && PayloadOffsetAt(s.mem, p) == 0 && KindAt(s.mem, p) == KindByte(h.kind)
            && WordOf(s.mem, p, 3) == p * 4096 && WordOf(s.mem, p, 5) == h.freeList
            && WordOf(s.mem, p, 6) == h.prev * 4096 && WordOf(s.mem, p, 7) == h.next * 4096
  {
    PageOf(s, c, p);
    SlabWords(s, c, p);
    var k, h := s.caches[c], s.caches[c].slabs[p];
    assert SlotOk(k, s.shadows[c], s.mem);
    assert PageOk(k.layout, p, h, s.shadows[c].chains[p], s.mem);
    ChainBound(s.shadows[c].chains[p], h.count);
    CountBound(k.layout);
    assert WordOf(s.mem, p, 0) == SlabWord(c, k.layout, p, h, 0) &&
        WordOf(s.mem, p, 1) == SlabWord(c, k.layout, p, h, 1);
    SlabUnpacks(c, k.layout, p, h);
  }

  lemma SlabUnpacks(c: nat, l: Layout, p: nat, h: Slab)
    requires h.objectSize < 0x1_0000 && h.count < 0x1_0000 && h.free < 0x1_0000 && l.size < 0x1_0000
    ensures var w, x := SlabWord(c, l, p, h, 0), SlabWord(c, l, p, h, 1);
            && w % 0x1_0000_0000 == SLAB_MAGIC && w / 0x1_0000_0000 % 0x1_0000 == h.objectSize
            && w / 0x1_0000_0000_0000 % 0x1_0000 == h.count
            && x % 0x1_0000 == h.free && x / 0x1_0000 % 0x1_0000 == SLAB_HEADER_SIZE &&
                x / 0x1_0000_0000 % 0x1_0000 == l.size
            && x / 0x1_0000_0000_0000 % 0x1_0000 == 0
  {
    Unpack(0x454D, 0x4B4D, h.objectSize, h.count);
    Unpack(h.free, SLAB_HEADER_SIZE, l.size, 0);
  }

  lemma SlabWords(s: Heap, c: nat, p: nat)
    requires PagesOk(s) && HeadersOk(s.mem, s.caches, s.pages) && c < |s.caches| && p in s.caches[c].slabs
    ensures forall i: nat | i < SLAB_WORDS ::
              WordOf(s.mem, p, i) == SlabWord(c, s.caches[c].layout, p, s.caches[c].slabs[p], i)
  {
    PageOf(s, c, p);
    forall i: nat | i < SLAB_WORDS
      ensures WordOf(s.mem, p, i) == SlabWord(c, s.caches[c].layout, p, s.caches[c].slabs[p], i)
    {
      WordIs(s, p, i);
    }
  }

  lemma CountBound(l: Layout)
    requires ValidLayout(l)
    ensures Count(l) < 0x1_0000 && l.size < 0x1_0000
  {
    if Count(l) > 0 { SlotBounds(0, l, Count(l) - 1); }
    CountAtMost(l, Count(l));
  }

  lemma {:induction false} CountAtMost(l: Layout, n: nat)
    requires ValidLayout(l) && n <= Count(l)
    ensures n <= Offset(l.size, n)
    decreases n
  {
    if n > 0 { CountAtMost(l, n - 1); }
  }

  /** Every field of the header of a multi-page allocation reads as the record has it. */
  lemma LargeReads(s: Heap, p: nat)
    requires PagesOk(s) && HeadersOk(s.mem, s.caches, s.pages) && p in s.pages && s.pages[p].LargePage?
    ensures AllocationAt(s.mem, p) == LargeAllocation && PageCountAt(s.mem, p) == s.pages[p].count
    ensures LargeOffsetAt(s.mem, p) == LARGE_OFFSET && WordOf(s.mem, p, 2) == p * 4096
    ensures WordOf(s.mem, p, 3) == s.pages[p].requested && WordOf(s.mem, p, 4) == s.pages[p].usable
  {
    WordIs(s, p, 0);
    WordIs(s, p, 1);
    WordIs(s, p, 2);
    WordIs(s, p, 3);
    WordIs(s, p, 4);
  }

  // ----- writes the headers do not see

  /** Writes inside a live payload leave every header as it is. */
  lemma HeadersBesidePayload(s: Heap, ptr: nat, mem': Words)
    requires CachesOk(s) && PagesOk(s) && HeadersOk(s.mem, s.caches, s.pages)
    requires IsObject(s, ptr) && Untouched(s.mem, mem', ptr, ptr + Usable(s, ptr)) && (ptr + Usable(s, ptr)) % 8 == 0
    ensures HeadersOk(mem', s.caches, s.pages)
  {
    PayloadBounds(s, ptr);
    forall p: nat, i: nat | InHeader(s.pages, p, i) && p * 512 + i < |mem'|
      ensures mem'[p * 512 + i] == HeaderWord(s.caches, s.pages, p, i)
    {
      var a := p * 4096 + i * 8;
      assert a / 8 == p * 512 + i && a / 8 / 512 == p && a / 8 % 512 == i;
      if ptr <= a && a + 8 <= ptr + Usable(s, ptr) { PayloadOutside(s, ptr, a); }
      assert WordAt(mem', a) == WordAt(s.mem, a);
    }
  }

  /** Writes to a page without a header leave every header as it is. */
  lemma HeadersBesidePage(mem: Words, mem': Words, caches: seq<Cache>, pages: map<nat, Page>, b: nat)
    requires HeadersOk(mem, caches, pages) && Untouched(mem, mem', b * 4096, b * 4096 + 4096) && b !in pages
    ensures HeadersOk(mem', caches, pages)
  {
    forall p: nat, i: nat | InHeader(pages, p, i) && p * 512 + i < |mem'|
      ensures mem'[p * 512 + i] == HeaderWord(caches, pages, p, i)
    {
      var a := p * 4096 + i * 8;
      assert a / 8 == p * 512 + i;
      assert WordAt(mem', a) == WordAt(mem, a);
    }
  }

  /** Counters of a cache are not in the headers. */
  lemma HeadersSame(mem: Words, caches: seq<Cache>, caches': seq<Cache>, pages: map<nat, Page>)
    requires HeadersOk(mem, caches, pages) && |caches'| == |caches|
    requires forall i: nat | i < |caches| ::
               caches'[i].slabs == caches[i].slabs && (caches[i].slabs == map[] ||
                                                       caches'[i].layout == caches[i].layout)
    ensures HeadersOk(mem, caches', pages)
  {
    forall p: nat, i: nat | InHeader(pages, p, i) && p * 512 + i < |mem|
      ensures mem[p * 512 + i] == HeaderWord(caches', pages, p, i)
    {
      assert HeaderWord(caches', pages, p, i) == HeaderWord(caches, pages, p, i);
    }
  }

  // ----- a magic on a page without a header

  /** `ptr` lies on a page that has no header and whose first word is a magic all the same. */
  predicate Foreign(mem: Words, pages: map<nat, Page>, ptr: nat)
  {
    ptr / 4096 !in pages && AllocationAt(mem, ptr / 4096) != NoAllocation
  }

  /**
   How a call of `free_object` ends.  `Strayed`: it goes on through a pointer, a divisor or an odd
   address taken from words that are no header.
   */
  datatype Verdict = Freed | Stopped | Strayed

  /** `slot_index_for_pointer`, with the layout these words give. */
  function SlotAt(mem: Words, p: nat, ptr: nat): Option<nat>
    requires StrideAt(mem, p) > 0
  {
    var first := p * 4096 + FirstOffsetAt(mem, p) + PayloadOffsetAt(mem, p);
    if ptr < first || ptr >= p * 4096 + 4096 || (ptr - first) % StrideAt(mem, p) != 0 ||
       (ptr - first) / StrideAt(mem, p) >= ObjectCountAt(mem, p)
    then None
    else Some((ptr - first) / StrideAt(mem, p))
  }

  /** `pointer_on_free_list`, with `left` steps to go. */
  function SearchAt(mem: Words, p: nat, current: nat, ptr: nat, left: nat): Search
    requires StrideAt(mem, p) > 0
    decreases left
  {
    if current == 0 then Found(false)
    else if left == 0 || SlotAt(mem, p, current).None? then Corrupt
    else if current == ptr then Found(true)
    else SearchAt(mem, p, WordAt(mem, current), ptr, left - 1)
  }

  /** `free_object_locked` on words that are no header, up to the point where the slab is moved to its list. */
  function SlabVerdict(mem: Words, c: Cache, p: nat, ptr: nat): Verdict
  {
    var first, stride, count := p * 4096 + FirstOffsetAt(mem, p) + PayloadOffsetAt(mem, p), StrideAt(mem, p),
        ObjectCountAt(mem, p);
    if ptr < first || ptr >= p * 4096 + 4096 then Stopped
    else if stride == 0 then Strayed
    else if SlotAt(mem, p, ptr).None? then Stopped
    else if ptr % 8 != 0 || stride % 8 != 0 then Strayed
    else if SearchAt(mem, p, WordOf(mem, p, 5), ptr, count) != Found(false) then Stopped
    else if c.liveObjects == 0 || (FreeCountAt(mem, p) + 1) % 0x1_0000 > count || KindAt(mem, p) > 3 then Stopped
    else if KindAt(mem, p) != 0 then Strayed
    else Freed
  }

  /** One more free slot makes the page empty. */
  predicate Fills(mem: Words, p: nat)
  {
    (FreeCountAt(mem, p) + 1) % 0x1_0000 == ObjectCountAt(mem, p)
  }

  /** The cache afterwards: one object fewer, and the page that is no slab at the head of a list. */
  function ForeignGiven(mem: Words, c: Cache, p: nat, ptr: nat): Cache
    requires c.liveObjects > 0
  {
    var free := (FreeCountAt(mem, p) + 1) % 0x1_0000;
    var k := if Fills(mem, p) then Empty else Partial;
    var slab := Slab(ObjectCountAt(mem, p), free, ObjectSizeAt(mem, p), ptr, 0, 0, NoList);
    c.(slabs := AttachSlabs(c.slabs[p := slab], c.heads, p, k), heads := SetHead(c.heads, k, p),
       liveObjects := c.liveObjects - 1, freeCount := c.freeCount + 1)
  }

  /** The words of a large header name frames that are tracked and in use, and the counters allow for it. */
  ghost predicate LargePasses(mem: Words, stats: Stats, free: set<nat>, pageCount: nat, p: nat)
  {
    var n, base := PageCountAt(mem, p), WordOf(mem, p, 2);
    && n > 0 && stats.larges > 0 && stats.largeBytes >= WordOf(mem, p, 3)
    && base % 4096 == 0 && base / 4096 + n <= pageCount && forall q: nat | base / 4096 <= q < base / 4096 + n ::
        q !in free
  }

  /** Where `free_object` goes after looking at the header words. */
  datatype Route = Stop | Stray | ToLarge | ToSlab(cache: nat)

  function RouteOf(mem: Words, caches: seq<Cache>, ptr: nat, expected: Option<nat>): Route
  {
    var p := ptr / 4096;
    var w := WordOf(mem, p, 4);
    match AllocationAt(mem, p)
    case NoAllocation => Stop
    case LargeAllocation => if expected.Some? || ptr != p * 4096 + LargeOffsetAt(mem, p) then Stop else ToLarge
    case SlabAllocation =>
      if w == 0 then Stop
      else if w > |caches| then Stray
      else if (expected.Some? && expected.value != w - 1) || ObjectSizeAt(mem, p) != caches[w - 1].layout.size then Stop
      else ToSlab(w - 1)
  }

  /** How `free_object` ends on a foreign pointer. */
  ghost function ForeignVerdict(mem: Words, caches: seq<Cache>, stats: Stats, free: set<nat>, pageCount: nat, ptr: nat,
                                expected: Option<nat>): Verdict
  {
    match RouteOf(mem, caches, ptr, expected)
    case Stop => Stopped
    case Stray => Strayed
    case ToLarge => if LargePasses(mem, stats, free, pageCount, ptr / 4096) then Freed else Stopped
    case ToSlab(c) => if c < |caches| then SlabVerdict(mem, caches[c], ptr / 4096, ptr) else Strayed
  }
}

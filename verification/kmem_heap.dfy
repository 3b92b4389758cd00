/**
 The whole small-object allocator as a value: all caches, the headers at page starts, multi-page
 allocations, the frames held and the live payloads, with the invariant that ties them together.
 */
module KmemHeap {
  import opened Basics
  import opened KmemSlabs
  import opened KmemLists
  import opened KmemCaches
  import PageFrames

  /** What the header at the start of a page says: its magic and the fields behind it. */
  datatype Page = SlabPage(cache: nat) | LargePage(count: nat, requested: nat, usable: nat)

  const LARGE_OFFSET: nat := 48

  datatype Stats = Stats(slabPages: nat, allocs: nat, frees: nat, failed: nat, larges: nat, largeBytes: nat,
                         failedLarges: nat)

  /**
   `holder` maps every held frame to the page whose header speaks for it, `live` every live payload
   to the size asked for, and `bigs` lists the multi-page allocations.  `total` frames are tracked.
   */
  datatype Heap = Heap(mem: Words, caches: seq<Cache>, pages: map<nat, Page>, stats: Stats,
                       shadows: seq<Shadow>, holder: map<nat, nat>, live: map<nat, nat>, bigs: seq<nat>, total: nat)

  /** An unused slot of the cache table. */
  predicate IsBlank(c: Cache)
  {
    !c.active && !c.builtin && c.slabs == map[] && c.slabCount == 0 && c.liveObjects == 0
  }

  ghost predicate IsBlankShadow(g: Shadow)
  {
    g.lists.empty == [] && g.lists.partial == [] && g.lists.full == [] && g.chains == map[]
  }

  // ----- the invariant

  /** An active cache is well formed, an unused slot of the cache table is blank. */
  ghost predicate SlotOk(c: Cache, g: Shadow, mem: Words)
  {
    if c.active then CacheOk(c, g, mem) else IsBlank(c) && IsBlankShadow(g)
  }

  ghost predicate CachesOk(s: Heap)
  {
    && |s.shadows| == |s.caches|
    && forall i: nat {:trigger SlotOk(s.caches[i], s.shadows[i], s.mem)} | i < |s.caches| ::
        SlotOk(s.caches[i], s.shadows[i], s.mem)
  }

  /** The header of page `p` is backed by the cache or the frames it names. */
  ghost predicate Speaks(s: Heap, p: nat)
    requires p in s.pages
  {
    match s.pages[p]
    case SlabPage(c) => c < |s.caches| && p in s.caches[c].slabs && p in s.holder && s.holder[p] == p
    case LargePage(n, r, u) =>
      && n > 0 && u == n * 4096 - LARGE_OFFSET && r <= u
      && forall q | p <= q < p + n :: q in s.holder && s.holder[q] == p
  }

  /** A held frame lies in memory and under the header that speaks for it. */
  ghost predicate Held(s: Heap, q: nat)
    requires q in s.holder
  {
    && q > 0 && q * 512 + 512 <= |s.mem| && s.holder[q] in s.pages
    && match s.pages[s.holder[q]]
       case SlabPage(c) => q == s.holder[q]
       case LargePage(n, r, u) => s.holder[q] <= q < s.holder[q] + n
  }

  ghost predicate PagesOk(s: Heap)
  {
    && (forall c: nat, p | c < |s.caches| && p in s.caches[c].slabs :: p in s.pages && s.pages[p] == SlabPage(c))
    && (forall p {:trigger Speaks(s, p)} | p in s.pages :: Speaks(s, p))
    && (forall q {:trigger Held(s, q)} | q in s.holder :: Held(s, q))
  }

  /** `ptr` is a slot in use or the payload of a multi-page allocation. */
  ghost predicate IsObject(s: Heap, ptr: nat)
  {
    && ptr / 4096 in s.pages
    && match s.pages[ptr / 4096]
       case SlabPage(c) => c < |s.caches| && c < |s.shadows| && IsLive(s.caches[c], s.shadows[c], ptr)
       case LargePage(n, r, u) => ptr == ptr / 4096 * 4096 + LARGE_OFFSET
  }

  /** Bytes the caller may use. */
  ghost function Usable(s: Heap, ptr: nat): nat
    requires IsObject(s, ptr)
  {
    match s.pages[ptr / 4096]
    case SlabPage(c) => s.caches[c].layout.size
    case LargePage(n, r, u) => u
  }

  ghost predicate LiveOk(s: Heap)
  {
    && (forall ptr: nat :: ptr in s.live <==> IsObject(s, ptr))
    && (forall ptr | ptr in s.live :: s.live[ptr] <= Usable(s, ptr))
  }

  ghost function SlabSum(cs: seq<Cache>): nat
  {
    if cs == [] then 0 else SlabSum(cs[..|cs| - 1]) + cs[|cs| - 1].slabCount
  }

  ghost function LiveSum(cs: seq<Cache>): nat
  {
    if cs == [] then 0 else LiveSum(cs[..|cs| - 1]) + cs[|cs| - 1].liveObjects
  }

  ghost function Frames(pages: map<nat, Page>, l: seq<nat>): nat
  {
    if l == [] then 0
    else (if l[0] in pages && pages[l[0]].LargePage? then pages[l[0]].count else 0) + Frames(pages, l[1..])
  }

  ghost function Bytes(pages: map<nat, Page>, l: seq<nat>): nat
  {
    if l == [] then 0
    else (if l[0] in pages && pages[l[0]].LargePage? then pages[l[0]].requested else 0) + Bytes(pages, l[1..])
  }

  /** The global counters: slab pages, objects in use, multi-page allocations, and all frames held. */
  ghost predicate StatsOk(s: Heap)
  {
    && s.stats.slabPages == SlabSum(s.caches)
    && s.stats.allocs == s.stats.frees + LiveSum(s.caches) + |s.bigs|
    && s.stats.larges == |s.bigs| && s.stats.largeBytes == Bytes(s.pages, s.bigs)
    && |s.holder| == s.stats.slabPages + Frames(s.pages, s.bigs)
    && Distinct(s.bigs) && forall p: nat :: p in s.bigs <==> p in s.pages && s.pages[p].LargePage?
  }

  /** No held frame is free; held frames are tracked; every free frame lies in memory. */
  ghost predicate FreeOk(s: Heap, free: set<nat>)
  {
    && (forall q | q in s.holder :: q !in free && q < s.total)
    && (forall f | f in free :: 0 < f < s.total && f * 512 + 512 <= |s.mem|)
  }

  ghost predicate HeapOk(s: Heap, free: set<nat>)
  {
    CachesOk(s) && PagesOk(s) && LiveOk(s) && StatsOk(s) && FreeOk(s, free)
  }

  // ----- live payloads are apart

  lemma SlotPayload(c: Cache, g: Shadow, ptr: nat)
    requires IsLive(c, g, ptr)
    ensures ptr / 4096 * 4096 + SLAB_HEADER_SIZE <= ptr && ptr + c.layout.size <= ptr / 4096 * 4096 + 4096
    ensures ptr % c.layout.align == 0 && ptr % 8 == 0
  {
    var p, l := ptr / 4096, c.layout;
    var i := SlotIndex(p, l, Count(l), ptr).value;
    SlotIndexExact(p, l, ptr, i);
    SlotBounds(p, l, i);
  }

  /** The bytes of a live payload: aligned and behind the header of its page. */
  lemma PayloadBounds(s: Heap, ptr: nat)
    requires CachesOk(s) && PagesOk(s) && IsObject(s, ptr)
    ensures ptr % 8 == 0
    ensures s.pages[ptr / 4096].SlabPage? ==> ptr % s.caches[s.pages[ptr / 4096].cache].layout.align == 0
    ensures ptr / 4096 * 4096 + (if s.pages[ptr / 4096].SlabPage? then SLAB_HEADER_SIZE else LARGE_OFFSET) <= ptr
    ensures ptr + Usable(s, ptr) <= ptr / 4096 * 4096 +
              (if s.pages[ptr / 4096].SlabPage? then 1 else s.pages[ptr / 4096].count) * 4096
  {
    assert Speaks(s, ptr / 4096);
    match s.pages[ptr / 4096] {
      case SlabPage(c) => SlotPayload(s.caches[c], s.shadows[c], ptr);
      case LargePage(n, r, u) =>
    }
  }

  /** Every frame a payload touches is held under the payload's own header. */
  lemma PayloadHeld(s: Heap, ptr: nat, q: nat)
    requires CachesOk(s) && PagesOk(s) && IsObject(s, ptr) && ptr / 4096 <= q && q * 4096 < ptr + Usable(s, ptr)
    ensures q in s.holder && s.holder[q] == ptr / 4096
  {
    PayloadBounds(s, ptr);
    var p := ptr / 4096;
    assert Speaks(s, p);
    match s.pages[p] {
      case SlabPage(c) => assert q == p;
      case LargePage(n, r, u) => assert p <= q < p + n;
    }
  }

  /** Live payloads never overlap. */
  lemma PayloadsApart(s: Heap, x: nat, y: nat)
    requires CachesOk(s) && PagesOk(s) && IsObject(s, x) && IsObject(s, y) && x < y
    ensures x + Usable(s, x) <= y
  {
    var p, q := x / 4096, y / 4096;
    PayloadBounds(s, y);
    if p == q {
      assert Speaks(s, p);
      match s.pages[p] {
        case SlabPage(c) => SlotsOfPage(s.caches[c], s.shadows[c], x, y);
        case LargePage(n, r, u) =>
      }
    } else if x + Usable(s, x) > y {
      PayloadHeld(s, x, q);
      PayloadHeld(s, y, q);
    }
  }

  lemma SlotsOfPage(c: Cache, g: Shadow, x: nat, y: nat)
    requires IsLive(c, g, x) && IsLive(c, g, y) && x / 4096 == y / 4096 && x < y
    ensures x + c.layout.size <= y
  {
    var p, l := x / 4096, c.layout;
    var i, j := SlotIndex(p, l, Count(l), x).value, SlotIndex(p, l, Count(l), y).value;
    SlotIndexExact(p, l, x, i);
    SlotIndexExact(p, l, y, j);
    if i < j { SlotsApart(p, l, i, j); } else if j < i { SlotsApart(p, l, j, i); }
  }

  // ----- replacing one cache

  lemma {:induction false} SlabSumAt(cs: seq<Cache>, i: nat, c: Cache)
    requires i < |cs|
    ensures SlabSum(cs[i := c]) + cs[i].slabCount == SlabSum(cs) + c.slabCount
    decreases |cs|
  {
    var n := |cs| - 1;
    if i < n {
      SlabSumAt(cs[..n], i, c);
      assert cs[i := c][..n] == cs[..n][i := c];
    } else {
      assert cs[i := c][..n] == cs[..n];
    }
  }

  lemma {:induction false} LiveSumAt(cs: seq<Cache>, i: nat, c: Cache)
    requires i < |cs|
    ensures LiveSum(cs[i := c]) + cs[i].liveObjects == LiveSum(cs) + c.liveObjects
    decreases |cs|
  {
    var n := |cs| - 1;
    if i < n {
      LiveSumAt(cs[..n], i, c);
      assert cs[i := c][..n] == cs[..n][i := c];
    } else {
      assert cs[i := c][..n] == cs[..n];
    }
  }

  /** The heap with cache `c` replaced and memory changed in page `p` only, which no other cache has. */
  ghost predicate OneCache(s: Heap, s': Heap, c: nat, p: nat)
  {
    && c < |s.caches| && |s.shadows| == |s.caches| && |s'.caches| == |s.caches|
    && s'.caches == s.caches[c := s'.caches[c]] && |s'.shadows| == |s.shadows| &&
        s'.shadows == s.shadows[c := s'.shadows[c]]
    && Untouched(s.mem, s'.mem, p * 4096, p * 4096 + 4096)
    && forall i: nat | i < |s.caches| && i != c :: p !in s.caches[i].slabs
  }

  lemma OneCacheOk(s: Heap, s': Heap, c: nat, p: nat)
    requires CachesOk(s) && OneCache(s, s', c, p) && SlotOk(s'.caches[c], s'.shadows[c], s'.mem)
    ensures CachesOk(s')
  {
    forall i: nat | i < |s'.caches| ensures SlotOk(s'.caches[i], s'.shadows[i], s'.mem) {
      if i != c {
        assert SlotOk(s.caches[i], s.shadows[i], s.mem);
        if s.caches[i].active {
          forall q | q in s.caches[i].slabs ensures p * 4096 + 4096 <= q * 4096 || q * 4096 + 4096 <= p * 4096 {
            assert q != p;
          }
          CacheElsewhere(s.caches[i], s.shadows[i], s.mem, s'.mem, p * 4096, p * 4096 + 4096);
        }
      }
    }
  }

  /** Pages, headers and frames held are as before. */
  ghost predicate SamePages(s: Heap, s': Heap)
  {
    && s'.pages == s.pages && s'.holder == s.holder && s'.bigs == s.bigs && s'.total == s.total
    && |s'.mem| == |s.mem| && |s'.caches| == |s.caches|
    && forall i: nat | i < |s.caches| :: s'.caches[i].slabs.Keys == s.caches[i].slabs.Keys
  }

  lemma SamePagesOk(s: Heap, s': Heap)
    requires PagesOk(s) && SamePages(s, s')
    ensures PagesOk(s')
  {
    forall c: nat, p | c < |s'.caches| && p in s'.caches[c].slabs ensures p in s'.pages && s'.pages[p] == SlabPage(c) {
      assert p in s.caches[c].slabs;
    }
    forall p | p in s'.pages ensures Speaks(s', p) { assert Speaks(s, p); }
    forall q | q in s'.holder ensures Held(s', q) { assert Held(s, q); }
  }

  /** A slab's page has its header and is held by itself. */
  lemma PageOf(s: Heap, c: nat, p: nat)
    requires PagesOk(s) && c < |s.caches| && p in s.caches[c].slabs
    ensures p in s.pages && s.pages[p] == SlabPage(c) && p in s.holder && s.holder[p] == p
    ensures p > 0 && p * 512 + 512 <= |s.mem|
  {
    assert Speaks(s, p) && Held(s, p);
  }

  lemma OwnCache(s: Heap, c: nat, p: nat)
    requires PagesOk(s) && c < |s.caches| && p in s.caches[c].slabs
    ensures forall i: nat | i < |s.caches| && i != c :: p !in s.caches[i].slabs
  {
    assert s.pages[p] == SlabPage(c);
  }

  // ----- taking a slot

  /** The objects of cache `c` gained `ptr`. */
  lemma LiveGained(s: Heap, s': Heap, c: nat, p: nat, ptr: nat, size: nat)
    requires LiveOk(s) && OneCache(s, s', c, p) && s'.pages == s.pages
    requires ptr / 4096 in s.pages && s.pages[ptr / 4096] == SlabPage(c)
    requires s'.caches[c].layout == s.caches[c].layout && size <= s.caches[c].layout.size
    requires forall q: nat :: IsLive(s'.caches[c], s'.shadows[c], q) <==>
               q == ptr || IsLive(s.caches[c], s.shadows[c], q)
    requires s'.live == s.live[ptr := size]
    ensures LiveOk(s')
  {
    forall q: nat ensures IsObject(s', q) <==> q == ptr || IsObject(s, q) {}
    forall q: nat ensures q in s'.live <==> IsObject(s', q) { assert q in s.live <==> IsObject(s, q); }
    forall q | q in s'.live ensures s'.live[q] <= Usable(s', q) {
      if q != ptr { assert s.live[q] <= Usable(s, q); }
    }
  }

  /** Objects came or went, slab pages did not. */
  lemma StatsMoved(s: Heap, s': Heap, c: nat, p: nat)
    requires StatsOk(s) && OneCache(s, s', c, p) && s'.pages == s.pages && s'.holder == s.holder && s'.bigs == s.bigs
    requires s'.caches[c].slabCount == s.caches[c].slabCount
    requires s'.stats == s.stats.(allocs := s'.stats.allocs, frees := s'.stats.frees)
    requires s'.stats.allocs + s.caches[c].liveObjects + s.stats.frees ==
               s'.stats.frees + s'.caches[c].liveObjects + s.stats.allocs
    ensures StatsOk(s')
  {
    SlabSumAt(s.caches, c, s'.caches[c]);
    LiveSumAt(s.caches, c, s'.caches[c]);
  }

  lemma ObjectTaken(s: Heap, s': Heap, free: set<nat>, c: nat, p: nat, ptr: nat, size: nat)
    requires HeapOk(s, free) && OneCache(s, s', c, p) && SamePages(s, s') && SlotOk(s'.caches[c], s'.shadows[c], s'.mem)
    requires s'.caches[c].layout == s.caches[c].layout && size <= s.caches[c].layout.size
    requires s'.caches[c].slabCount == s.caches[c].slabCount && s'.caches[c].liveObjects == s.caches[c].liveObjects + 1
    requires forall q: nat :: IsLive(s'.caches[c], s'.shadows[c], q) <==>
               q == ptr || IsLive(s.caches[c], s.shadows[c], q)
    requires ptr / 4096 == p && p in s.caches[c].slabs && !IsLive(s.caches[c], s.shadows[c], ptr)
    requires s'.live == s.live[ptr := size] && s'.stats == s.stats.(allocs := s.stats.allocs + 1)
    ensures HeapOk(s', free) && ptr !in s.live
  {
    PageOf(s, c, p);
    OneCacheOk(s, s', c, p);
    SamePagesOk(s, s');
    LiveGained(s, s', c, p, ptr, size);
    StatsMoved(s, s', c, p);
    assert !IsObject(s, ptr);
  }

  /** Cache `c'` is cache `c` with the object `ptr`, of a page it has, taken from its free list. */
  ghost predicate TookObject(c: Cache, g: Shadow, c': Cache, g': Shadow, mem: Words, ptr: nat)
  {
    && SlotOk(c', g', mem) && c'.layout == c.layout && c'.objectSize == c.objectSize && c'.slabs.Keys == c.slabs.Keys
    && c'.slabCount == c.slabCount && c'.liveObjects == c.liveObjects + 1
    && ptr / 4096 in c.slabs && !IsLive(c, g, ptr) && forall q: nat :: IsLive(c', g', q) <==>
        q == ptr || IsLive(c, g, q)
  }

  ghost function Taken(s: Heap, c: nat, c': Cache, g': Shadow, ptr: nat, size: nat): Heap
    requires c < |s.caches| == |s.shadows|
  {
    s.(caches := s.caches[c := c'], shadows := s.shadows[c := g'], live := s.live[ptr := size],
       stats := s.stats.(allocs := s.stats.allocs + 1))
  }

  lemma TakeHeap(s: Heap, free: set<nat>, c: nat, c': Cache, g': Shadow, ptr: nat, size: nat)
    requires HeapOk(s, free) && c < |s.caches| && TookObject(s.caches[c], s.shadows[c], c', g', s.mem, ptr)
    requires size <= s.caches[c].layout.size
    ensures HeapOk(Taken(s, c, c', g', ptr, size), free) && ptr !in s.live
  {
    var s' := Taken(s, c, c', g', ptr, size);
    OwnCache(s, c, ptr / 4096);
    Replaced(s, s', c, c', g', ptr / 4096);
    ObjectTaken(s, s', free, c, ptr / 4096, ptr, size);
  }

  lemma Replaced(s: Heap, s': Heap, c: nat, c': Cache, g': Shadow, p: nat)
    requires c < |s.caches| == |s.shadows| && s'.caches == s.caches[c := c'] && s'.shadows == s.shadows[c := g']
    requires Untouched(s.mem, s'.mem, p * 4096, p * 4096 + 4096)
    requires forall i: nat | i < |s.caches| && i != c :: p !in s.caches[i].slabs
    ensures OneCache(s, s', c, p)
    ensures s'.pages == s.pages && s'.holder == s.holder && s'.bigs == s.bigs && s'.total == s.total &&
            c'.slabs.Keys == s.caches[c].slabs.Keys ==>
              SamePages(s, s')
  {}

  // ----- giving a slot back

  /** The objects of cache `c` lost `ptr`; page `p` may have lost its header, having no object left. */
  lemma LiveLost(s: Heap, s': Heap, c: nat, p: nat, ptr: nat)
    requires LiveOk(s) && OneCache(s, s', c, p) && p in s.pages && s.pages[p] == SlabPage(c)
    requires s'.pages == s.pages || (s'.pages == s.pages - {p} && p !in s'.caches[c].slabs)
    requires s'.caches[c].layout == s.caches[c].layout && ptr / 4096 == p
    requires forall q: nat :: IsLive(s'.caches[c], s'.shadows[c], q) <==>
               q != ptr && IsLive(s.caches[c], s.shadows[c], q)
    requires s'.live == s.live - {ptr}
    ensures LiveOk(s')
  {
    forall q: nat ensures IsObject(s', q) <==> q != ptr && IsObject(s, q) {
      if q / 4096 == p {
        assert IsLive(s'.caches[c], s'.shadows[c], q) <==> q != ptr && IsLive(s.caches[c], s.shadows[c], q);
      }
    }
    forall q: nat ensures q in s'.live <==> IsObject(s', q) { assert q in s.live <==> IsObject(s, q); }
    forall q | q in s'.live ensures s'.live[q] <= Usable(s', q) { assert s.live[q] <= Usable(s, q); }
  }

  /** Cache `c'` is cache `c` with the object `ptr` back on a free list; `drop` says that its page was returned. */
  ghost predicate GaveObject(c: Cache, g: Shadow, c': Cache, g': Shadow, mem: Words, ptr: nat, p: nat, drop: bool)
  {
    && SlotOk(c', g', mem) && c'.layout == c.layout && c'.objectSize == c.objectSize
    && p in c.slabs && IsLive(c, g, ptr) && c'.liveObjects + 1 == c.liveObjects
    && c'.slabs.Keys == (if drop then c.slabs.Keys - {p} else c.slabs.Keys)
    && (if drop then c'.slabCount + 1 == c.slabCount else c'.slabCount == c.slabCount)
    && forall q: nat :: IsLive(c', g', q) <==> q != ptr && IsLive(c, g, q)
  }

  ghost function Given(s: Heap, c: nat, c': Cache, g': Shadow, mem': Words, ptr: nat): Heap
    requires c < |s.caches| == |s.shadows|
  {
    s.(mem := mem', caches := s.caches[c := c'], shadows := s.shadows[c := g'], live := s.live - {ptr},
       stats := s.stats.(frees := s.stats.frees + 1))
  }

  lemma ObjectGiven(s: Heap, s': Heap, free: set<nat>, c: nat, p: nat, ptr: nat)
    requires HeapOk(s, free) && OneCache(s, s', c, p) && SamePages(s, s') && ptr / 4096 == p
    requires GaveObject(s.caches[c], s.shadows[c], s'.caches[c], s'.shadows[c], s'.mem, ptr, p, false)
    requires s'.live == s.live - {ptr} && s'.stats == s.stats.(frees := s.stats.frees + 1)
    ensures HeapOk(s', free)
  {
    PageOf(s, c, p);
    OneCacheOk(s, s', c, p);
    SamePagesOk(s, s');
    LiveLost(s, s', c, p, ptr);
    StatsMoved(s, s', c, p);
  }

  lemma GiveHeap(s: Heap, free: set<nat>, c: nat, c': Cache, g': Shadow, mem': Words, ptr: nat, p: nat)
    requires HeapOk(s, free) && c < |s.caches| && GaveObject(s.caches[c], s.shadows[c], c', g', mem', ptr, p, false)
    requires ptr / 4096 == p && Untouched(s.mem, mem', p * 4096, p * 4096 + 4096)
    ensures HeapOk(Given(s, c, c', g', mem', ptr), free)
  {
    var s' := Given(s, c, c', g', mem', ptr);
    OwnCache(s, c, p);
    Replaced(s, s', c, c', g', p);
    ObjectGiven(s, s', free, c, p, ptr);
  }

  ghost function Dropped(s: Heap, c: nat, c': Cache, g': Shadow, mem': Words, ptr: nat, p: nat): Heap
    requires c < |s.caches| == |s.shadows| && s.stats.slabPages > 0
  {
    Given(s, c, c', g', mem', ptr).(pages := s.pages - {p}, holder := s.holder - {p},
      stats := s.stats.(frees := s.stats.frees + 1, slabPages := s.stats.slabPages - 1))
  }

  lemma PagesDropped(s: Heap, s': Heap, c: nat, p: nat)
    requires PagesOk(s) && OneCache(s, s', c, p) && p in s.caches[c].slabs
    requires s'.caches[c].slabs.Keys == s.caches[c].slabs.Keys - {p}
    requires s'.pages == s.pages - {p} && s'.holder == s.holder - {p}
    ensures PagesOk(s')
  {
    PageOf(s, c, p);
    forall i: nat, q | i < |s'.caches| && q in s'.caches[i].slabs ensures q in s'.pages && s'.pages[q] == SlabPage(i) {
      assert q in s.caches[i].slabs;
    }
    forall q | q in s'.holder ensures Held(s', q) { assert Held(s, q); }
    forall q | q in s'.pages ensures Speaks(s', q) {
      assert Speaks(s, q);
      match s.pages[q] {
        case SlabPage(i) => assert q in s'.caches[i].slabs;
        case LargePage(n, r, u) => assert p in s.holder && s.holder[p] == p;
      }
    }
  }

  lemma {:induction false} SumsForget(pages: map<nat, Page>, l: seq<nat>, p: nat)
    requires p !in l
    ensures Frames(pages - {p}, l) == Frames(pages, l) && Bytes(pages - {p}, l) == Bytes(pages, l)
    decreases |l|
  {
    if l != [] { SumsForget(pages, l[1..], p); }
  }

  lemma StatsDropped(s: Heap, s': Heap, c: nat, p: nat)
    requires StatsOk(s) && OneCache(s, s', c, p) && p in s.pages && s.pages[p].SlabPage? && p in s.holder
    requires s'.pages == s.pages - {p} && s'.holder == s.holder - {p} && s'.bigs == s.bigs
    requires s'.caches[c].slabCount + 1 == s.caches[c].slabCount
    requires s'.caches[c].liveObjects + 1 == s.caches[c].liveObjects
    requires s'.stats == s.stats.(frees := s.stats.frees + 1, slabPages := s'.stats.slabPages)
    requires s'.stats.slabPages + 1 == s.stats.slabPages
    ensures StatsOk(s')
  {
    SlabSumAt(s.caches, c, s'.caches[c]);
    LiveSumAt(s.caches, c, s'.caches[c]);
    assert p !in s.bigs;
    SumsForget(s.pages, s.bigs, p);
    assert s'.holder.Keys == s.holder.Keys - {p};
  }

  lemma SlabCounted(s: Heap, c: nat)
    requires StatsOk(s) && c < |s.caches| && s.caches[c].slabCount > 0
    ensures s.stats.slabPages > 0
  {
    SlabSumAt(s.caches, c, s.caches[c].(slabCount := 0));
  }

  lemma PageDropped(s: Heap, s': Heap, free: set<nat>, c: nat, p: nat, ptr: nat)
    requires HeapOk(s, free) && OneCache(s, s', c, p) && ptr / 4096 == p && s'.bigs == s.bigs && s'.total == s.total
    requires GaveObject(s.caches[c], s.shadows[c], s'.caches[c], s'.shadows[c], s'.mem, ptr, p, true)
    requires s'.live == s.live - {ptr} && s'.pages == s.pages - {p} && s'.holder == s.holder - {p}
    requires s'.stats == s.stats.(frees := s.stats.frees + 1, slabPages := s'.stats.slabPages)
    requires s'.stats.slabPages + 1 == s.stats.slabPages
    ensures HeapOk(s', free + {p})
  {
    PageOf(s, c, p);
    OneCacheOk(s, s', c, p);
    PagesDropped(s, s', c, p);
    CountsDropped(s, s', c, p, ptr);
    FrameDropped(s, s', free, p);
  }

  lemma CountsDropped(s: Heap, s': Heap, c: nat, p: nat, ptr: nat)
    requires LiveOk(s) && StatsOk(s) && OneCache(s, s', c, p) && ptr / 4096 == p && s'.bigs == s.bigs
    requires p in s.pages && s.pages[p] == SlabPage(c) && p in s.holder
    requires GaveObject(s.caches[c], s.shadows[c], s'.caches[c], s'.shadows[c], s'.mem, ptr, p, true)
    requires s'.live == s.live - {ptr} && s'.pages == s.pages - {p} && s'.holder == s.holder - {p}
    requires s'.stats == s.stats.(frees := s.stats.frees + 1, slabPages := s'.stats.slabPages)
    requires s'.stats.slabPages + 1 == s.stats.slabPages
    ensures LiveOk(s') && StatsOk(s')
  {
    LiveLost(s, s', c, p, ptr);
    StatsDropped(s, s', c, p);
  }

  lemma FrameDropped(s: Heap, s': Heap, free: set<nat>, p: nat)
    requires FreeOk(s, free) && p in s.holder && 0 < p && p * 512 + 512 <= |s.mem|
    requires s'.holder == s.holder - {p} && s'.total == s.total && |s'.mem| == |s.mem|
    ensures FreeOk(s', free + {p})
  {}

  lemma DropHeap(s: Heap, free: set<nat>, c: nat, c': Cache, g': Shadow, mem': Words, ptr: nat, p: nat)
    requires HeapOk(s, free) && c < |s.caches| && GaveObject(s.caches[c], s.shadows[c], c', g', mem', ptr, p, true)
    requires ptr / 4096 == p && Untouched(s.mem, mem', p * 4096, p * 4096 + 4096)
    ensures s.stats.slabPages > 0 && HeapOk(Dropped(s, c, c', g', mem', ptr, p), free + {p})
  {
    SlabCounted(s, c);
    var s' := Dropped(s, c, c', g', mem', ptr, p);
    OwnCache(s, c, p);
    Replaced(s, s', c, c', g', p);
    assert s'.caches[c] == c' && s'.shadows[c] == g' && s'.mem == mem';
    PageDropped(s, s', free, c, p, ptr);
  }

  // ----- growing a cache

  /** A free frame carries no header and belongs to no cache. */
  lemma FreeIsUnused(s: Heap, free: set<nat>, p: nat)
    requires PagesOk(s) && FreeOk(s, free) && p in free
    ensures p !in s.holder && p !in s.pages && forall i: nat | i < |s.caches| :: p !in s.caches[i].slabs
  {
    HeadersHeld(s);
  }

  lemma HeadersHeld(s: Heap)
    requires PagesOk(s)
    ensures forall p | p in s.pages :: p in s.holder
  {
    forall p | p in s.pages ensures p in s.holder { assert Speaks(s, p); }
  }

  /** Cache `c'` is cache `c` with page `p` of free slots added. */
  ghost predicate GainedPage(c: Cache, g: Shadow, c': Cache, g': Shadow, mem: Words, p: nat)
  {
    && SlotOk(c', g', mem) && c'.layout == c.layout && c'.objectSize == c.objectSize &&
        c'.slabs.Keys == c.slabs.Keys + {p}
    && c'.slabCount == c.slabCount + 1 && c'.liveObjects == c.liveObjects
    && forall q: nat :: IsLive(c', g', q) <==> IsLive(c, g, q)
  }

  ghost function Grown(s: Heap, c: nat, c': Cache, g': Shadow, mem': Words, p: nat): Heap
    requires c < |s.caches| == |s.shadows|
  {
    s.(mem := mem', caches := s.caches[c := c'], shadows := s.shadows[c := g'], pages := s.pages[p := SlabPage(c)],
       holder := s.holder[p := p], stats := s.stats.(slabPages := s.stats.slabPages + 1))
  }

  lemma PagesGained(s: Heap, s': Heap, c: nat, p: nat)
    requires PagesOk(s) && OneCache(s, s', c, p) && s'.caches[c].slabs.Keys == s.caches[c].slabs.Keys + {p}
    requires p !in s.pages && p !in s.holder && p > 0 && p * 512 + 512 <= |s.mem|
    requires s'.pages == s.pages[p := SlabPage(c)] && s'.holder == s.holder[p := p]
    ensures PagesOk(s')
  {
    forall i: nat, q | i < |s'.caches| && q in s'.caches[i].slabs ensures q in s'.pages && s'.pages[q] == SlabPage(i) {
      if i != c || q != p { PageOf(s, i, q); }
    }
    forall q | q in s'.holder ensures Held(s', q) { if q != p { assert Held(s, q); } }
    forall q | q in s'.pages ensures Speaks(s', q) {
      if q != p {
        assert Speaks(s, q);
        match s.pages[q] { case SlabPage(i) => assert q in s'.caches[i].slabs; case LargePage(n, r, u) => }
      }
    }
  }

  lemma LiveSame(s: Heap, s': Heap, c: nat, p: nat)
    requires LiveOk(s) && OneCache(s, s', c, p) && p !in s.pages && s'.pages == s.pages[p := SlabPage(c)]
    requires s'.live == s.live
    requires s'.caches[c].layout == s.caches[c].layout && p !in s.caches[c].slabs
    requires forall q: nat :: IsLive(s'.caches[c], s'.shadows[c], q) <==> IsLive(s.caches[c], s.shadows[c], q)
    ensures LiveOk(s')
  {
    forall q: nat ensures IsObject(s', q) <==> IsObject(s, q) {
      if q / 4096 == p { assert IsLive(s'.caches[c], s'.shadows[c], q) <==> IsLive(s.caches[c], s.shadows[c], q); }
    }
    forall q: nat ensures q in s'.live <==> IsObject(s', q) { assert q in s.live <==> IsObject(s, q); }
    forall q | q in s'.live ensures s'.live[q] <= Usable(s', q) { assert s.live[q] <= Usable(s, q); }
  }

  lemma {:induction false} SumsAdd(pages: map<nat, Page>, l: seq<nat>, p: nat, h: Page)
    requires p !in l
    ensures Frames(pages[p := h], l) == Frames(pages, l) && Bytes(pages[p := h], l) == Bytes(pages, l)
    decreases |l|
  {
    if l != [] { SumsAdd(pages, l[1..], p, h); }
  }

  lemma StatsGained(s: Heap, s': Heap, c: nat, p: nat)
    requires StatsOk(s) && OneCache(s, s', c, p) && p !in s.pages && p !in s.holder
    requires s'.pages == s.pages[p := SlabPage(c)] && s'.holder == s.holder[p := p] && s'.bigs == s.bigs
    requires s'.caches[c].slabCount == s.caches[c].slabCount + 1 && s'.caches[c].liveObjects == s.caches[c].liveObjects
    requires s'.stats == s.stats.(slabPages := s.stats.slabPages + 1)
    ensures StatsOk(s')
  {
    SlabSumAt(s.caches, c, s'.caches[c]);
    LiveSumAt(s.caches, c, s'.caches[c]);
    assert p !in s.bigs;
    SumsAdd(s.pages, s.bigs, p, SlabPage(c));
    OneMore(s.holder, p);
  }

  lemma OneMore(m: map<nat, nat>, p: nat)
    requires p !in m
    ensures |m[p := p]| == |m| + 1
  {
    assert m[p := p].Keys == m.Keys + {p};
  }

  lemma PageGained(s: Heap, s': Heap, free: set<nat>, c: nat, p: nat)
    requires HeapOk(s, free) && p in free && OneCache(s, s', c, p)
    requires p !in s.pages && p !in s.holder && p !in s.caches[c].slabs
    requires GainedPage(s.caches[c], s.shadows[c], s'.caches[c], s'.shadows[c], s'.mem, p)
    requires s'.pages == s.pages[p := SlabPage(c)] && s'.holder == s.holder[p := p] && s'.total == s.total
    requires s'.live == s.live && s'.bigs == s.bigs && s'.stats == s.stats.(slabPages := s.stats.slabPages + 1)
    ensures HeapOk(s', free - {p})
  {
    OneCacheOk(s, s', c, p);
    PagesGained(s, s', c, p);
    LiveSame(s, s', c, p);
    StatsGained(s, s', c, p);
    FrameGained(s, s', free, p);
  }

  lemma FrameGained(s: Heap, s': Heap, free: set<nat>, p: nat)
    requires FreeOk(s, free) && p in free && s'.holder == s.holder[p := p] && s'.total == s.total && |s'.mem| == |s.mem|
    ensures FreeOk(s', free - {p})
  {}

  lemma GrowHeap(s: Heap, free: set<nat>, c: nat, c': Cache, g': Shadow, mem': Words, p: nat)
    requires HeapOk(s, free) && c < |s.caches| && p in free && GainedPage(s.caches[c], s.shadows[c], c', g', mem', p)
    requires Untouched(s.mem, mem', p * 4096, p * 4096 + 4096)
    ensures HeapOk(Grown(s, c, c', g', mem', p), free - {p})
  {
    var s' := Grown(s, c, c', g', mem', p);
    FreeIsUnused(s, free, p);
    Replaced(s, s', c, c', g', p);
    assert s'.caches[c] == c' && s'.shadows[c] == g' && s'.mem == mem';
    PageGained(s, s', free, c, p);
  }

  // ----- writes to live payloads

  /** Whatever is written into a live payload, the allocator's own structure is not touched. */
  lemma WritePayload(s: Heap, free: set<nat>, ptr: nat, mem': Words)
    requires HeapOk(s, free) && IsObject(s, ptr) && Untouched(s.mem, mem', ptr, ptr + Usable(s, ptr))
    ensures HeapOk(s.(mem := mem'), free)
  {
    var s' := s.(mem := mem');
    forall i: nat | i < |s.caches| ensures SlotOk(s.caches[i], s.shadows[i], mem') {
      WriteCache(s, ptr, mem', i);
    }
    SamePagesOk(s, s');
    forall q: nat ensures IsObject(s', q) <==> IsObject(s, q) {}
    forall q: nat ensures q in s'.live <==> IsObject(s', q) { assert q in s.live <==> IsObject(s, q); }
    forall q | q in s'.live ensures s'.live[q] <= Usable(s', q) { assert s.live[q] <= Usable(s, q); }
  }

  lemma WriteCache(s: Heap, ptr: nat, mem': Words, i: nat)
    requires CachesOk(s) && PagesOk(s) && IsObject(s, ptr) && Untouched(s.mem, mem', ptr, ptr + Usable(s, ptr))
    requires i < |s.caches|
    ensures SlotOk(s.caches[i], s.shadows[i], mem')
  {
    assert SlotOk(s.caches[i], s.shadows[i], s.mem);
    if s.caches[i].active {
      if s.pages[ptr / 4096] == SlabPage(i) {
        LiveElsewhere(s.caches[i], s.shadows[i], s.mem, mem', ptr);
      } else {
        forall q | q in s.caches[i].slabs ensures ptr + Usable(s, ptr) <= q * 4096 || q * 4096 + 4096 <= ptr {
          PageOf(s, i, q);
          PayloadBounds(s, ptr);
          if q * 4096 < ptr + Usable(s, ptr) && ptr < q * 4096 + 4096 { PayloadHeld(s, ptr, q); }
        }
        CacheElsewhere(s.caches[i], s.shadows[i], s.mem, mem', ptr, ptr + Usable(s, ptr));
      }
    }
  }
}

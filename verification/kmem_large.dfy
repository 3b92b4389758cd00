/**
 Changes of the allocator as a whole that are not about one object of a cache: multi-page
 allocations, and caches that come and go.
 */
module KmemLarge {
  import opened Basics
  import opened PageFrames
  import opened KmemSlabs
  import opened KmemLists
  import opened KmemCaches
  import opened KmemHeap

  // ----- multi-page allocations

  ghost function HeldBy(holder: map<nat, nat>, p: nat, n: nat): map<nat, nat>
  {
    map q | q in holder.Keys + Span(p, n) :: if q in Span(p, n) then p else holder[q]
  }

  /** Frames `[p, p + n)` are handed out as one allocation of `size` bytes. */
  ghost function Enlarged(s: Heap, mem': Words, p: nat, n: nat, size: nat): Heap
    requires n > 0
  {
    s.(mem := mem', pages := s.pages[p := LargePage(n, size, n * 4096 - LARGE_OFFSET)],
       holder := HeldBy(s.holder, p, n),
       live := s.live[p * 4096 + LARGE_OFFSET := size], bigs := [p] + s.bigs,
       stats := OneMoreLarge(s.stats, size))
  }

  /** The counters after a multi-page allocation of `size` bytes. */
  function OneMoreLarge(stats: Stats, size: nat): Stats
  {
    stats.(allocs := stats.allocs + 1, larges := stats.larges + 1, largeBytes := stats.largeBytes + size)
  }

  /** None of the frames is in use. */
  ghost predicate Unused(s: Heap, p: nat, n: nat)
  {
    forall q: nat | p <= q < p + n :: q !in s.holder && q !in s.pages
  }

  lemma FreeRunUnused(s: Heap, free: set<nat>, p: nat, n: nat)
    requires PagesOk(s) && FreeOk(s, free) && IsRun(free, p, n)
    ensures Unused(s, p, n)
  {
    forall q: nat | p <= q < p + n ensures q !in s.holder && q !in s.pages { FreeIsUnused(s, free, q); }
  }

  lemma EnlargedCaches(s: Heap, s': Heap, p: nat, n: nat)
    requires CachesOk(s) && PagesOk(s) && Unused(s, p, n)
    requires s'.caches == s.caches && s'.shadows == s.shadows && Untouched(s.mem, s'.mem, p * 4096, p * 4096 + n * 4096)
    ensures CachesOk(s')
  {
    forall i: nat | i < |s.caches| ensures SlotOk(s'.caches[i], s'.shadows[i], s'.mem) {
      assert SlotOk(s.caches[i], s.shadows[i], s.mem);
      if s.caches[i].active {
        forall q | q in s.caches[i].slabs ensures p * 4096 + n * 4096 <= q * 4096 || q * 4096 + 4096 <= p * 4096 {
          PageOf(s, i, q);
          assert !(p <= q < p + n);
        }
        CacheElsewhere(s.caches[i], s.shadows[i], s.mem, s'.mem, p * 4096, p * 4096 + n * 4096);
      }
    }
  }

  lemma HeldByIs(holder: map<nat, nat>, p: nat, n: nat, q: nat)
    ensures q in HeldBy(holder, p, n) <==> q in holder || p <= q < p + n
    ensures p <= q < p + n ==> HeldBy(holder, p, n)[q] == p
    ensures q in holder && !(p <= q < p + n) ==> HeldBy(holder, p, n)[q] == holder[q]
  {
    SpanMember(p, n, q);
  }

  lemma EnlargedPages(s: Heap, s': Heap, p: nat, n: nat, size: nat)
    requires PagesOk(s) && Unused(s, p, n) && n > 0 && size <= n * 4096 - LARGE_OFFSET
    requires p > 0 && p * 512 + n * 512 <= |s.mem| == |s'.mem| && s'.caches == s.caches
    requires s'.pages == s.pages[p := LargePage(n, size, n * 4096 - LARGE_OFFSET)]
    requires s'.holder == HeldBy(s.holder, p, n)
    ensures PagesOk(s')
  {
    forall i: nat, q | i < |s'.caches| && q in s'.caches[i].slabs ensures q in s'.pages && s'.pages[q] == SlabPage(i) {
      PageOf(s, i, q);
    }
    forall q | q in s'.holder ensures Held(s', q) {
      HeldByIs(s.holder, p, n, q);
      if !(p <= q < p + n) { assert Held(s, q); }
    }
    forall q | q in s'.pages ensures Speaks(s', q) {
      HeldByIs(s.holder, p, n, q);
      if q == p {
        forall r | p <= r < p + n ensures r in s'.holder && s'.holder[r] == p { HeldByIs(s.holder, p, n, r); }
      } else {
        assert Speaks(s, q);
        match s.pages[q] {
          case SlabPage(i) =>
          case LargePage(m, _, _) =>
            forall r | q <= r < q + m ensures r in s'.holder && s'.holder[r] == q { HeldByIs(s.holder, p, n, r); }
        }
      }
    }
  }

  lemma EnlargedLive(s: Heap, s': Heap, p: nat, n: nat, size: nat)
    requires LiveOk(s) && p !in s.pages && n > 0 && size <= n * 4096 - LARGE_OFFSET
    requires s'.caches == s.caches && s'.shadows == s.shadows
    requires s'.pages == s.pages[p := LargePage(n, size, n * 4096 - LARGE_OFFSET)]
    requires s'.live == s.live[p * 4096 + LARGE_OFFSET := size]
    ensures LiveOk(s')
  {
    var ptr := p * 4096 + LARGE_OFFSET;
    assert ptr / 4096 == p;
    forall q: nat ensures IsObject(s', q) <==> q == ptr || IsObject(s, q) {
      if q / 4096 == p { assert q / 4096 * 4096 == p * 4096; }
    }
    forall q: nat ensures q in s'.live <==> IsObject(s', q) { assert q in s.live <==> IsObject(s, q); }
    forall q | q in s'.live ensures s'.live[q] <= Usable(s', q) {
      if q != ptr { assert s.live[q] <= Usable(s, q); }
    }
  }

  lemma HeldBySize(holder: map<nat, nat>, p: nat, n: nat)
    requires forall q: nat | p <= q < p + n :: q !in holder
    ensures |HeldBy(holder, p, n)| == |holder| + n
  {
    forall q | q in Span(p, n) ensures q !in holder { SpanMember(p, n, q); }
    SpanSize(p, n);
    assert HeldBy(holder, p, n).Keys == holder.Keys + Span(p, n);
    assert |HeldBy(holder, p, n)| == |HeldBy(holder, p, n).Keys|;
  }

  lemma EnlargedStats(s: Heap, s': Heap, p: nat, n: nat, size: nat)
    requires StatsOk(s) && Unused(s, p, n) && n > 0 && s'.caches == s.caches
    requires s'.pages == s.pages[p := LargePage(n, size, n * 4096 - LARGE_OFFSET)]
    requires s'.holder == HeldBy(s.holder, p, n)
    requires s'.bigs == [p] + s.bigs
    requires s'.stats == s.stats.(allocs := s.stats.allocs + 1, larges := s.stats.larges + 1,
                                  largeBytes := s.stats.largeBytes + size)
    ensures StatsOk(s')
  {
    assert p !in s.bigs;
    SumsAdd(s.pages, s.bigs, p, LargePage(n, size, n * 4096 - LARGE_OFFSET));
    assert ([p] + s.bigs)[1..] == s.bigs;
    HeldBySize(s.holder, p, n);
  }

  lemma EnlargeHeap(s: Heap, free: set<nat>, mem': Words, p: nat, n: nat, size: nat)
    requires HeapOk(s, free) && IsRun(free, p, n) && n > 0 && size <= n * 4096 - LARGE_OFFSET
    requires Untouched(s.mem, mem', p * 4096, p * 4096 + n * 4096)
    ensures HeapOk(Enlarged(s, mem', p, n, size), free - Span(p, n)) && p * 4096 + LARGE_OFFSET !in s.live
  {
    FreeRunUnused(s, free, p, n);
    assert p in free && p + n - 1 in free;
    LargeTaken(s, Enlarged(s, mem', p, n, size), free, p, n, size);
  }

  lemma LargeTaken(s: Heap, s': Heap, free: set<nat>, p: nat, n: nat, size: nat)
    requires HeapOk(s, free) && IsRun(free, p, n) && n > 0 && size <= n * 4096 - LARGE_OFFSET && Unused(s, p, n)
    requires p > 0 && p * 512 + n * 512 <= |s.mem| && s' == Enlarged(s, s'.mem, p, n, size)
    requires Untouched(s.mem, s'.mem, p * 4096, p * 4096 + n * 4096)
    ensures HeapOk(s', free - Span(p, n)) && p * 4096 + LARGE_OFFSET !in s.live
  {
    EnlargedCaches(s, s', p, n);
    EnlargedPages(s, s', p, n, size);
    EnlargedLive(s, s', p, n, size);
    EnlargedStats(s, s', p, n, size);
    forall q | q in s'.holder ensures q !in free - Span(p, n) && q < s'.total {
      HeldByIs(s.holder, p, n, q);
      SpanMember(p, n, q);
      if p <= q < p + n { assert q in free; }
    }
    assert !IsObject(s, p * 4096 + LARGE_OFFSET);
  }

  // ----- giving one back

  ghost function Reduced(s: Heap, p: nat, n: nat, i: nat): Heap
    requires i < |s.bigs| && p in s.pages && s.pages[p].LargePage?
    requires s.stats.larges > 0 && s.stats.largeBytes >= s.pages[p].requested
  {
    s.(pages := s.pages - {p}, holder := s.holder - Span(p, n), live := s.live - {p * 4096 + LARGE_OFFSET},
       bigs := RemoveAt(s.bigs, i),
       stats := OneLess(s.stats, s.pages[p].requested))
  }

  /** The counters after a multi-page allocation of `size` bytes went back. */
  function OneLess(stats: Stats, size: nat): Stats
    requires stats.larges > 0 && stats.largeBytes >= size
  {
    stats.(frees := stats.frees + 1, larges := stats.larges - 1, largeBytes := stats.largeBytes - size)
  }

  lemma ReducedPages(s: Heap, s': Heap, p: nat, n: nat)
    requires PagesOk(s) && p in s.pages && s.pages[p].LargePage? && n == s.pages[p].count
    requires s'.caches == s.caches && |s'.mem| == |s.mem| && s'.pages == s.pages - {p}
    requires s'.holder == s.holder - Span(p, n)
    ensures PagesOk(s')
  {
    assert Speaks(s, p);
    assert forall r | p <= r < p + n :: r in s.holder && s.holder[r] == p;
    forall i: nat, q | i < |s'.caches| && q in s'.caches[i].slabs ensures q in s'.pages && s'.pages[q] == SlabPage(i) {
      PageOf(s, i, q);
    }
    forall q | q in s'.holder ensures Held(s', q) {
      SpanMember(p, n, q);
      assert Held(s, q);
    }
    forall q | q in s'.pages ensures Speaks(s', q) {
      assert Speaks(s, q);
      SpanMember(p, n, q);
      match s.pages[q] {
        case SlabPage(i) =>
        case LargePage(m, _, _) =>
          forall r | q <= r < q + m ensures r in s'.holder && s'.holder[r] == q {
            assert r in s.holder && s.holder[r] == q;
            SpanMember(p, n, r);
          }
      }
    }
  }

  lemma ReducedLive(s: Heap, s': Heap, p: nat)
    requires LiveOk(s) && p in s.pages && s.pages[p].LargePage? && s'.caches == s.caches && s'.shadows == s.shadows
    requires s'.pages == s.pages - {p} && s'.live == s.live - {p * 4096 + LARGE_OFFSET}
    ensures LiveOk(s')
  {
    var ptr := p * 4096 + LARGE_OFFSET;
    forall q: nat ensures IsObject(s', q) <==> q != ptr && IsObject(s, q) {}
    forall q: nat ensures q in s'.live <==> IsObject(s', q) { assert q in s.live <==> IsObject(s, q); }
    forall q | q in s'.live ensures s'.live[q] <= Usable(s', q) { assert s.live[q] <= Usable(s, q); }
  }

  lemma {:induction false} SumsRemove(pages: map<nat, Page>, l: seq<nat>, i: nat)
    requires i < |l| && l[i] in pages && pages[l[i]].LargePage?
    ensures Frames(pages, l) == Frames(pages, RemoveAt(l, i)) + pages[l[i]].count
    ensures Bytes(pages, l) == Bytes(pages, RemoveAt(l, i)) + pages[l[i]].requested
    decreases |l|
  {
    if i == 0 {
      assert RemoveAt(l, 0) == l[1..];
    } else {
      SumsRemove(pages, l[1..], i - 1);
      assert RemoveAt(l, i) == [l[0]] + RemoveAt(l[1..], i - 1);
      assert RemoveAt(l, i)[1..] == RemoveAt(l[1..], i - 1);
    }
  }

  lemma HolderLess(holder: map<nat, nat>, p: nat, n: nat)
    requires forall q: nat | p <= q < p + n :: q in holder
    ensures |holder - Span(p, n)| + n == |holder|
  {
    forall q | q in Span(p, n) ensures q in holder.Keys { SpanMember(p, n, q); }
    SpanSize(p, n);
    assert (holder - Span(p, n)).Keys == holder.Keys - Span(p, n);
    assert |holder - Span(p, n)| == |(holder - Span(p, n)).Keys|;
  }

  lemma ReducedBigs(l: seq<nat>, i: nat, p: nat)
    requires Distinct(l) && i < |l| && l[i] == p
    ensures Distinct(RemoveAt(l, i)) && forall q: nat :: q in RemoveAt(l, i) <==> q in l && q != p
  {
    var l' := RemoveAt(l, i);
    forall j: nat | j < |l'| ensures l'[j] == l[if j < i then j else j + 1] && l'[j] != p {}
    forall q | q in l && q != p ensures q in l' { InRemoved(l, i, q); }
  }

  lemma ReducedStats(s: Heap, s': Heap, p: nat, n: nat, i: nat)
    requires StatsOk(s) && p in s.pages && s.pages[p].LargePage? && n == s.pages[p].count && i < |s.bigs|
    requires s.bigs[i] == p
    requires forall q: nat | p <= q < p + n :: q in s.holder
    requires s'.caches == s.caches && s'.pages == s.pages - {p} && s'.holder == s.holder - Span(p, n)
    requires s'.bigs == RemoveAt(s.bigs, i)
    requires s'.stats == s.stats.(frees := s.stats.frees + 1, larges := s'.stats.larges,
                                  largeBytes := s'.stats.largeBytes)
    requires s'.stats.larges + 1 == s.stats.larges && s'.stats.largeBytes + s.pages[p].requested == s.stats.largeBytes
    ensures StatsOk(s')
  {
    SumsRemove(s.pages, s.bigs, i);
    ReducedBigs(s.bigs, i, p);
    SumsForget(s.pages, s'.bigs, p);
    HolderLess(s.holder, p, n);
  }

  /** Every multi-page allocation is on the list, and the counters can pay for its release. */
  lemma BigCounted(s: Heap, p: nat) returns (i: nat)
    requires StatsOk(s) && p in s.pages && s.pages[p].LargePage?
    ensures i < |s.bigs| && s.bigs[i] == p && s.stats.larges > 0 && s.stats.largeBytes >= s.pages[p].requested
  {
    assert p in s.bigs;
    i :| 0 <= i < |s.bigs| && s.bigs[i] == p;
    SumsRemove(s.pages, s.bigs, i);
  }

  lemma ReduceHeap(s: Heap, free: set<nat>, p: nat, n: nat, i: nat)
    requires HeapOk(s, free) && p in s.pages && s.pages[p].LargePage? && n == s.pages[p].count && i < |s.bigs|
    requires s.bigs[i] == p
    requires s.stats.larges > 0 && s.stats.largeBytes >= s.pages[p].requested
    ensures HeapOk(Reduced(s, p, n, i), free + Span(p, n))
  {
    var s' := Reduced(s, p, n, i);
    assert Speaks(s, p);
    forall j: nat | j < |s.caches| ensures SlotOk(s'.caches[j], s'.shadows[j], s'.mem) {
      assert SlotOk(s.caches[j], s.shadows[j], s.mem);
    }
    ReducedPages(s, s', p, n);
    ReducedLive(s, s', p);
    ReducedStats(s, s', p, n, i);
    forall f | f in free + Span(p, n) ensures 0 < f < s'.total && f * 512 + 512 <= |s'.mem| {
      SpanMember(p, n, f);
      if f !in free { assert Held(s, f); }
    }
  }

  // ----- caches that come and go

  /** `configure_named_cache` on a reset slot. */
  function FreshCache(objectSize: nat, layout: Layout): Cache
  {
    Cache(objectSize, layout, false, true, Heads(0, 0, 0), map[], 0, 0, 0, 0, 0, 0, 0, 0)
  }

  lemma FreshIsOk(c: Cache, g: Shadow, mem: Words)
    requires ValidLayout(c.layout) && c.objectSize <= c.layout.size && IsBlankShadow(g)
    requires c == FreshCache(c.objectSize, c.layout).(builtin := c.builtin)
    ensures SlotOk(c, g, mem)
  {}

  /** Slot `i` of the cache table changes between two states without slabs. */
  lemma SwapCache(s: Heap, s': Heap, free: set<nat>, i: nat, c: Cache)
    requires HeapOk(s, free) && i < |s.caches| && s' == s.(caches := s.caches[i := c])
    requires SlotOk(c, s.shadows[i], s.mem) && c.slabs == s.caches[i].slabs == map[]
    requires c.slabCount == s.caches[i].slabCount && c.liveObjects == s.caches[i].liveObjects
    ensures HeapOk(s', free)
  {
    forall j: nat | j < |s'.caches| ensures SlotOk(s'.caches[j], s'.shadows[j], s'.mem) {
      assert SlotOk(s.caches[j], s.shadows[j], s.mem);
    }
    SamePagesOk(s, s');
    forall q: nat ensures IsObject(s', q) <==> IsObject(s, q) {
      if q / 4096 in s.pages { assert Speaks(s, q / 4096); }
    }
    forall q: nat ensures q in s'.live <==> IsObject(s', q) { assert q in s.live <==> IsObject(s, q); }
    forall q | q in s'.live ensures s'.live[q] <= Usable(s', q) { assert s.live[q] <= Usable(s, q); }
    SlabSumAt(s.caches, i, c);
    LiveSumAt(s.caches, i, c);
  }

  lemma CreateHeap(s: Heap, free: set<nat>, i: nat, c: Cache)
    requires HeapOk(s, free) && i < |s.caches| && !s.caches[i].active && ValidLayout(c.layout)
    requires c.objectSize <= c.layout.size
    requires c == FreshCache(c.objectSize, c.layout)
    ensures HeapOk(s.(caches := s.caches[i := c]), free)
  {
    assert SlotOk(s.caches[i], s.shadows[i], s.mem);
    FreshIsOk(c, s.shadows[i], s.mem);
    SwapCache(s, s.(caches := s.caches[i := c]), free, i, c);
  }

  /** A cache without live objects has only empty slabs, hence at most one. */
  lemma Idle(c: Cache, g: Shadow, mem: Words)
    requires CacheOk(c, g, mem) && c.liveObjects == 0
    ensures g.lists.partial == [] && g.lists.full == [] && c.heads.partial == 0 && c.heads.full == 0
    ensures forall p | p in c.slabs :: c.slabs[p].free == c.slabs[p].count && c.slabs[p].kind == Empty
    ensures c.slabCount == |g.lists.empty| <= 1
    ensures c.slabs.Keys == if g.lists.empty == [] then {} else {g.lists.empty[0]}
  {
    forall p | p in c.slabs ensures c.slabs[p].free == c.slabs[p].count && c.slabs[p].kind == Empty {
      assert PageOk(c.layout, p, c.slabs[p], g.chains[p], mem);
      ChainBound(g.chains[p], c.slabs[p].count);
      if c.slabs[p].free < c.slabs[p].count { LiveCounted(c, g, mem, p); }
      CountPositive(c.layout);
    }
    FirstNode(c.slabs, c.heads.partial, g.lists.partial, Partial);
    FirstNode(c.slabs, c.heads.full, g.lists.full, Full);
    FirstNode(c.slabs, c.heads.empty, g.lists.empty, Empty);
    forall p | p in c.slabs ensures p in g.lists.empty { assert p in On(g.lists, c.slabs[p].kind); }
  }

  ghost function Destroyed(s: Heap, c: nat, blank: Cache, none: Shadow): Heap
    requires c < |s.caches| == |s.shadows| && s.stats.slabPages >= s.caches[c].slabCount
  {
    var gone := s.caches[c].slabs.Keys;
    s.(caches := s.caches[c := blank], shadows := s.shadows[c := none], pages := s.pages - gone,
       holder := s.holder - gone,
       stats := s.stats.(slabPages := s.stats.slabPages - s.caches[c].slabCount))
  }

  lemma StatsDestroyed(s: Heap, s': Heap, c: nat, p: nat)
    requires StatsOk(s) && OneCache(s, s', c, p) && p in s.pages && s.pages[p].SlabPage? && p in s.holder
    requires s.caches[c].slabCount == 1 && s.caches[c].liveObjects == 0 && IsBlank(s'.caches[c])
    requires s'.pages == s.pages - {p} && s'.holder == s.holder - {p} && s'.bigs == s.bigs
    requires s'.stats == s.stats.(slabPages := s'.stats.slabPages) && s'.stats.slabPages + 1 == s.stats.slabPages
    ensures StatsOk(s')
  {
    SlabSumAt(s.caches, c, s'.caches[c]);
    LiveSumAt(s.caches, c, s'.caches[c]);
    assert p !in s.bigs;
    SumsForget(s.pages, s.bigs, p);
    assert s'.holder.Keys == s.holder.Keys - {p};
  }

  /** Destroying an idle cache that has one slab gives its page back. */
  lemma DestroyOne(s: Heap, s': Heap, free: set<nat>, c: nat, p: nat)
    requires HeapOk(s, free) && OneCache(s, s', c, p) && s.caches[c].active && s.caches[c].liveObjects == 0
    requires s.caches[c].slabs.Keys == {p} && s.caches[c].slabCount == 1
    requires IsBlank(s'.caches[c]) && IsBlankShadow(s'.shadows[c]) && s'.stats.slabPages + 1 == s.stats.slabPages
    requires s' == s.(caches := s'.caches, shadows := s'.shadows, pages := s.pages - {p}, holder := s.holder - {p},
                      stats := s.stats.(slabPages := s'.stats.slabPages))
    ensures HeapOk(s', free + {p})
  {
    assert SlotOk(s.caches[c], s.shadows[c], s.mem);
    PageOf(s, c, p);
    OneCacheOk(s, s', c, p);
    PagesDropped(s, s', c, p);
    IdleLive(s, s', c, p);
    StatsDestroyed(s, s', c, p);
    FrameDropped(s, s', free, p);
  }

  lemma IdleLive(s: Heap, s': Heap, c: nat, p: nat)
    requires CachesOk(s) && PagesOk(s) && LiveOk(s) && OneCache(s, s', c, p) && s.caches[c].active
    requires s.caches[c].liveObjects == 0
    requires s.caches[c].slabs.Keys == {p} && p in s.pages && s.pages[p] == SlabPage(c)
    requires s'.pages == s.pages - {p} && s'.live == s.live && IsBlank(s'.caches[c])
    ensures LiveOk(s')
  {
    assert SlotOk(s.caches[c], s.shadows[c], s.mem);
    Idle(s.caches[c], s.shadows[c], s.mem);
    forall q: nat ensures IsObject(s', q) <==> IsObject(s, q) {
      if q / 4096 == p {
        NoneLive(s.caches[c], s.shadows[c], s.mem, p, q);
      } else if q / 4096 in s.pages {
        assert Speaks(s, q / 4096);
      }
    }
    forall q: nat ensures q in s'.live <==> IsObject(s', q) { assert q in s.live <==> IsObject(s, q); }
    forall q | q in s'.live ensures s'.live[q] <= Usable(s', q) {
      assert s.live[q] <= Usable(s, q);
      assert IsObject(s', q) && IsObject(s, q);
    }
  }

  lemma NoneLive(c: Cache, g: Shadow, mem: Words, p: nat, q: nat)
    requires CacheOk(c, g, mem) && p in c.slabs && c.slabs[p].free == c.slabs[p].count && q / 4096 == p
    ensures !IsLive(c, g, q)
  {
    assert PageOk(c.layout, p, c.slabs[p], g.chains[p], mem);
    var i := SlotIndex(p, c.layout, Count(c.layout), q);
    if i.Some? {
      SlotIndexExact(p, c.layout, q, i.value);
      FullChain(g.chains[p], c.slabs[p].count, i.value);
    }
  }

  lemma DestroyHeap(s: Heap, free: set<nat>, c: nat, blank: Cache, none: Shadow)
    requires HeapOk(s, free) && c < |s.caches| && s.caches[c].active && s.caches[c].liveObjects == 0
    requires IsBlank(blank) && IsBlankShadow(none)
    ensures s.stats.slabPages >= s.caches[c].slabCount
    ensures HeapOk(Destroyed(s, c, blank, none), free + s.caches[c].slabs.Keys)
  {
    var was, empties := s.caches[c], s.shadows[c].lists.empty;
    assert SlotOk(was, s.shadows[c], s.mem);
    Idle(was, s.shadows[c], s.mem);
    SlabSumAt(s.caches, c, blank);
    if empties == [] {
      DestroyNone(s, free, c, blank, none);
    } else {
      var p, s' := empties[0], Destroyed(s, c, blank, none);
      OwnCache(s, c, p);
      Replaced(s, s', c, blank, none, p);
      DestroyOne(s, s', free, c, p);
    }
  }

  lemma BlankWhenBare(c: Cache, g: Shadow, mem: Words)
    requires CacheOk(c, g, mem) && c.liveObjects == 0 && c.slabs == map[]
    ensures IsBlankShadow(g)
  {
    Idle(c, g, mem);
    assert g.chains.Keys == {};
  }

  lemma DestroyNone(s: Heap, free: set<nat>, c: nat, blank: Cache, none: Shadow)
    requires HeapOk(s, free) && c < |s.caches| && s.caches[c].active && s.caches[c].liveObjects == 0
    requires s.caches[c].slabs == map[] && s.caches[c].slabCount == 0 && IsBlank(blank) && IsBlankShadow(none)
    ensures HeapOk(Destroyed(s, c, blank, none), free + s.caches[c].slabs.Keys)
  {
    var s' := Destroyed(s, c, blank, none);
    assert SlotOk(s.caches[c], s.shadows[c], s.mem);
    BlankWhenBare(s.caches[c], s.shadows[c], s.mem);
    assert s.shadows[c] == none;
    assert s.pages - s.caches[c].slabs.Keys == s.pages && s.holder - s.caches[c].slabs.Keys == s.holder;
    assert s' == s.(caches := s.caches[c := blank]);
    assert free + s.caches[c].slabs.Keys == free;
    SwapCache(s, s', free, c, blank);
  }
}

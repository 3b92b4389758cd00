/**
 The kernel's small-object allocator: `kmalloc`, `kcalloc`, `kfree` and the named caches.
 `kmem_corruption` and a failed allocation that must not fail stop the machine; the model reports
 that as an outcome.  Memory is modelled word by word, the headers at page starts included; the
 records of caches and pages are what the header words say.
 */
module KmemAllocator {
  import opened Basics
  import opened Word64
  import opened PageFrames
  import opened KmemSlabs
  import opened KmemLists
  import opened KmemCaches
  import opened KmemHeap
  import opened KmemHeaders
  import opened KmemLarge

  datatype Flags = Flags(zero: bool, noGrow: bool, atomic: bool, panicOnFail: bool)

  datatype Result = Null | Halt | Object(ptr: nat)

  // ----- one cache

  /** `allocate_from_slab_locked`; on a well-formed cache its corruption checks never fire. */
  method TakeObject(c: Cache, p: nat, mem: Words, ghost g: Shadow)
    returns (halted: bool, c': Cache, ptr: nat, ghost g': Shadow)
    requires c.active && CacheOk(c, g, mem) && p in c.slabs && c.slabs[p].free > 0
    ensures !halted && TookObject(c, g, c', g', mem, ptr)
    ensures c'.builtin == c.builtin && c'.active
  {
    ptr := c.slabs[p].freeList;
    assert PageOk(c.layout, p, c.slabs[p], g.chains[p], mem);
    g' := TakeKeeps(c, g, mem, p);
    c' := TakeSlot(c, p, mem);
    SlotBounds(p, c.layout, g.chains[p][0]);
    SlotIndexExact(p, c.layout, ptr, g.chains[p][0]);
    halted := ptr == 0 || c.slabs[p].free == 0 || SlotIndex(p, c.layout, c.slabs[p].count, ptr).None?;
    TookIt(c, g, c', g', mem, p, ptr);
  }

  lemma TookIt(c: Cache, g: Shadow, c': Cache, g': Shadow, mem: Words, p: nat, ptr: nat)
    requires c.active && CacheOk(c, g, mem) && p in c.slabs && c.slabs[p].free > 0 && ptr == c.slabs[p].freeList
    requires c' == TakeSlot(c, p, mem) && CacheOk(c', g', mem) && c'.slabs.Keys == c.slabs.Keys
    requires g.chains[p] != [] && g'.chains == g.chains[p := g.chains[p][1..]]
    ensures TookObject(c, g, c', g', mem, ptr)
  {
    forall q: nat ensures IsLive(c', g', q) <==> q == ptr || IsLive(c, g, q) {
      TakeLive(c, g, g', mem, p, ptr, q);
    }
    TakeLive(c, g, g', mem, p, ptr, 0);
  }

  /**
   `free_object_locked` and the page return that may follow.  It stops the machine exactly when
   `ptr` is not a live object of the page.
   */
  method GiveObject(c: Cache, p: nat, ptr: nat, mem: Words, ghost g: Shadow)
    returns (halted: bool, c': Cache, mem': Words, release: bool, ghost g': Shadow)
    requires c.active && CacheOk(c, g, mem) && p in c.slabs && ptr / 4096 == p
    ensures halted <==> !IsLive(c, g, ptr)
    ensures !halted ==> GaveObject(c, g, c', g', mem', ptr, p, release) && c'.builtin == c.builtin && c'.active
    ensures !halted ==> Untouched(mem, mem', ptr, ptr + 8)
  {
    halted, c', mem', release, g' := true, c, mem, false, g;
    var s := c.slabs[p];
    assert PageOk(c.layout, p, s, g.chains[p], mem);
    var i := SlotIndex(p, c.layout, s.count, ptr);
    if i.None? { return; }
    SlotIndexExact(p, c.layout, ptr, i.value);
    var found := PointerOnFreeList(mem, p, c.layout, s.count, s.freeList, ptr, g.chains[p]);
    OnChain(p, c.layout, g.chains[p], i.value);
    if found.Corrupt? || found.on { return; }
    GivePage(c.layout, p, s, g.chains[p], mem, i.value);
    mem' := SetWord(mem, ptr, s.freeList);
    ghost var given := GiveKeeps(c, g, mem, p, ptr, i.value, mem');
    if c.liveObjects == 0 { return; }
    halted := false;
    c', release, g' := Settle(c, p, ptr, mem, mem', i.value, g, given);
  }

  lemma OnChain(p: nat, l: Layout, chain: seq<nat>, i: nat)
    requires l.size > 0
    ensures (exists j: nat | j < |chain| :: Slot(p, l, chain[j]) == Slot(p, l, i)) <==> i in chain
  {
    forall j: nat | j < |chain| && Slot(p, l, chain[j]) == Slot(p, l, i)
      ensures chain[j] == i
    {
      SlotsDistinct(p, l, chain[j], i);
    }
    if i in chain {
      var j :| 0 <= j < |chain| && chain[j] == i;
      assert Slot(p, l, chain[j]) == Slot(p, l, i);
    }
  }

  /** Move the slab to its list, and return its page if it is empty and another empty one is kept. */
  method Settle(c: Cache, p: nat, ptr: nat, mem: Words, mem': Words, i: nat, ghost g: Shadow, ghost given: Shadow)
    returns (c': Cache, release: bool, ghost g': Shadow)
    requires c.active && CacheOk(c, g, mem) && p in c.slabs && i < Count(c.layout) && i !in g.chains[p]
    requires ptr == Slot(p, c.layout, i)
    requires c.liveObjects > 0 && NearlyOk(GiveSlot(c, p, ptr), given, mem')
    requires GiveSlot(c, p, ptr).slabs.Keys == c.slabs.Keys
    requires given.chains == g.chains[p := [i] + g.chains[p]]
    requires if GiveSlot(c, p, ptr).slabs[p].kind == Empty then given.lists.empty == [p] + g.lists.empty
             else |given.lists.empty| <= 1
    ensures GaveObject(c, g, c', g', mem', ptr, p, release) && c'.builtin == c.builtin && c'.active
  {
    c', g' := GiveSlot(c, p, ptr), given;
    ghost var c1 := c';
    release := ReleasesSlab(c', p);
    NextOfHead(c', given, mem', p, g.lists.empty);
    if release {
      c' := DropSlab(c', p);
      g' := DropKeeps(c1, given, mem', p, g.lists.empty);
    }
    GaveIt(c, g, c1, given, c', g', mem, mem', p, ptr, i, release);
  }

  /** The page just emptied has a successor exactly when another empty slab is kept. */
  lemma NextOfHead(c: Cache, g: Shadow, mem: Words, p: nat, rest: seq<nat>)
    requires NearlyOk(c, g, mem) && p in c.slabs && (c.slabs[p].kind == Empty ==> g.lists.empty == [p] + rest)
    requires |rest| <= 1
    ensures ReleasesSlab(c, p) <==> c.slabs[p].kind == Empty && rest != []
  {
    if c.slabs[p].kind == Empty {
      assert NodeOk(c.slabs, g.lists.empty, 0, Empty);
      if rest != [] { assert NodeOk(c.slabs, g.lists.empty, 1, Empty); }
    }
  }

  lemma GaveIt(c: Cache, g: Shadow, c1: Cache, g1: Shadow, c': Cache, g': Shadow, mem: Words, mem': Words, p: nat,
               ptr: nat, i: nat,
               release: bool)
    requires c.active && CacheOk(c, g, mem) && p in c.slabs && i < Count(c.layout) && i !in g.chains[p]
    requires ptr == Slot(p, c.layout, i)
    requires c.liveObjects > 0 && c1 == GiveSlot(c, p, ptr) && NearlyOk(c1, g1, mem') && c1.slabs.Keys == c.slabs.Keys
    requires g1.chains == g.chains[p := [i] + g.chains[p]]
    requires if release then c1.slabs[p].kind == Empty && c1.slabCount > 0 && c' == DropSlab(c1, p) &&
               CacheOk(c', g', mem') &&
                            c'.slabs.Keys == c1.slabs.Keys - {p} && g'.chains == g1.chains - {p}
             else c' == c1 && g' == g1 && |g1.lists.empty| <= 1
    ensures GaveObject(c, g, c', g', mem', ptr, p, release)
  {
    forall q: nat ensures IsLive(c', g', q) <==> q != ptr && IsLive(c, g, q) {
      GiveLive(c, g, mem, p, i, c1, g1, q);
      if release { DropLive(c1, g1, mem', p, c', g', q); }
    }
    GiveLive(c, g, mem, p, i, c1, g1, ptr);
  }

  /** `memset` to zero of whole words. */
  method ClearWords(mem: Words, lo: nat, hi: nat) returns (m: Words)
    requires lo % 8 == 0 && hi % 8 == 0 && lo <= hi <= 8 * |mem|
    ensures Untouched(mem, m, lo, hi)
    ensures forall a: nat | a % 8 == 0 && lo <= a < hi :: WordAt(m, a) == 0
  {
    m := mem;
    var i := lo / 8;
    while i < hi / 8
      invariant lo / 8 <= i <= hi / 8 && |m| == |mem|
      invariant forall k: nat | lo / 8 <= k < i :: m[k] == 0
      invariant forall k: nat | k < |mem| && !(lo / 8 <= k < i) :: m[k] == mem[k]
    {
      m := m[i := 0];
      i := i + 1;
    }
  }

  method ClearPageStart(mem: Words, p: nat) returns (m: Words)
    requires p * 512 + 512 <= |mem|
    ensures Untouched(mem, m, p * 4096, p * 4096 + 4096)
  {
    m := ClearWords(mem, p * 4096, p * 4096 + LARGE_WORDS * 8);
  }

  /** `initialize_slab_page` and `grow_cache` with page `p`. */
  method GrowPage(c: Cache, p: nat, mem: Words, ghost g: Shadow) returns (c': Cache, mem': Words, ghost g': Shadow)
    requires c.active && CacheOk(c, g, mem) && p !in c.slabs && p != 0 && p * 512 + 512 <= |mem| && c.heads.empty == 0
    ensures GainedPage(c, g, c', g', mem', p) && Untouched(mem, mem', p * 4096, p * 4096 + 4096)
    ensures c'.builtin == c.builtin && c'.active && c'.heads.empty == p && c'.heads.partial == c.heads.partial
  {
    var cleared := ClearWords(mem, p * 4096, p * 4096 + 4096);
    var freeList;
    mem', freeList := ThreadSlots(cleared, p, c.layout, Count(c.layout));
    UntouchedTwice(mem, cleared, mem', p * 4096, p * 4096 + 4096);
    ghost var chain := Upward(0, Count(c.layout));
    UpwardIsChain(0, Count(c.layout));
    g' := GrowKeeps(c, g, mem, p, freeList, chain, mem');
    c' := Grow(c, p, freeList);
    GrewIt(c, g, c', g', mem', p, chain);
  }

  lemma UntouchedTwice(a: Words, b: Words, c: Words, lo: nat, hi: nat)
    requires Untouched(a, b, lo, hi) && Untouched(b, c, lo, hi)
    ensures Untouched(a, c, lo, hi)
  {
    forall x: nat | x % 8 == 0 && (x + 8 <= lo || hi <= x) ensures WordAt(c, x) == WordAt(a, x) {
      assert WordAt(b, x) == WordAt(a, x);
    }
  }

  lemma GrewIt(c: Cache, g: Shadow, c': Cache, g': Shadow, mem': Words, p: nat, chain: seq<nat>)
    requires ValidLayout(c.layout) && c.slabs.Keys == g.chains.Keys && p !in c.slabs
    requires IsChain(chain, Count(c.layout)) && |chain| == Count(c.layout) && SlotOk(c', g', mem')
    requires c'.layout == c.layout && c'.objectSize == c.objectSize && c'.slabs.Keys == c.slabs.Keys + {p}
    requires c'.slabCount == c.slabCount + 1 && c'.liveObjects == c.liveObjects && g'.chains == g.chains[p := chain]
    ensures GainedPage(c, g, c', g', mem', p)
  {
    forall q: nat ensures IsLive(c', g', q) <==> IsLive(c, g, q) { GrowLive(c, g, p, chain, c', g', q); }
  }

  /** `select_slab`: a partial slab first. */
  function SelectSlab(h: Heads): nat
  {
    if h.partial != 0 then h.partial else h.empty
  }

  /** The slab selected has a free slot. */
  lemma Selected(c: Cache, g: Shadow, mem: Words)
    requires CacheOk(c, g, mem) && SelectSlab(c.heads) != 0
    ensures SelectSlab(c.heads) in c.slabs && c.slabs[SelectSlab(c.heads)].free > 0
  {
    var p := SelectSlab(c.heads);
    CountPositive(c.layout);
    if c.heads.partial != 0 {
      assert NodeOk(c.slabs, g.lists.partial, 0, Partial);
    } else {
      assert NodeOk(c.slabs, g.lists.empty, 0, Empty);
    }
    assert PageOk(c.layout, p, c.slabs[p], g.chains[p], mem);
  }

  /** When no slab is selected, every slot of the cache is in use. */
  lemma NoneSelected(c: Cache, g: Shadow, mem: Words)
    requires CacheOk(c, g, mem) && SelectSlab(c.heads) == 0
    ensures g.lists.empty == [] && g.lists.partial == [] && forall p | p in c.slabs :: c.slabs[p].free == 0
  {
    FirstNode(c.slabs, c.heads.empty, g.lists.empty, Empty);
    FirstNode(c.slabs, c.heads.partial, g.lists.partial, Partial);
    forall p | p in c.slabs ensures c.slabs[p].free == 0 {
      assert PageOk(c.layout, p, c.slabs[p], g.chains[p], mem);
      assert p in On(g.lists, c.slabs[p].kind);
    }
  }

  // ----- the cache table

  const BUILTIN_SIZES: seq<nat> := [16, 32, 64, 128, 256, 512, 1024]
  const CACHE_SLOTS: nat := 39

  /** `cache_alignment_for_size` */
  function BuiltinAlign(size: nat): nat
  {
    if size < 16 then 16 else if size > 64 then 64 else size
  }

  predicate BuiltinAt(c: Cache, i: nat)
    requires i < |BUILTIN_SIZES|
  {
    c.active && c.builtin && c.objectSize == BUILTIN_SIZES[i] &&
        c.layout == Layout(BUILTIN_SIZES[i], BuiltinAlign(BUILTIN_SIZES[i]))
  }

  /** The seven built-in caches stay, and the registry lists exactly the named caches in use. */
  ghost predicate TableOk(caches: seq<Cache>, registry: seq<nat>)
  {
    && |caches| == CACHE_SLOTS
    && (forall i: nat | i < 7 :: BuiltinAt(caches[i], i))
    && (forall i: nat | 7 <= i < CACHE_SLOTS :: !caches[i].builtin)
    && Distinct(registry) && (forall i: nat :: i in registry <==> 7 <= i < CACHE_SLOTS && caches[i].active)
  }

  lemma TableSame(caches: seq<Cache>, registry: seq<nat>, c: nat, c': Cache)
    requires TableOk(caches, registry) && c < |caches|
    requires c'.active == caches[c].active && c'.builtin == caches[c].builtin
    requires c'.layout == caches[c].layout && c'.objectSize == caches[c].objectSize
    ensures TableOk(caches[c := c'], registry)
  {}

  // ----- payload contents

  /** The words of payload `q` are the same in `mem'`. */
  ghost predicate SamePayload(s: Heap, mem': Words, q: nat)
    requires IsObject(s, q)
  {
    forall a: nat | a % 8 == 0 && q <= a && a + 8 <= q + Usable(s, q) :: WordAt(mem', a) == WordAt(s.mem, a)
  }

  lemma FrameKeepsPayload(s: Heap, free: set<nat>, p: nat, n: nat, mem': Words, q: nat)
    requires CachesOk(s) && PagesOk(s) && IsObject(s, q) && Unused(s, p, n)
    requires Untouched(s.mem, mem', p * 4096, p * 4096 + n * 4096)
    ensures SamePayload(s, mem', q)
  {
    forall a: nat | a % 8 == 0 && q <= a && a + 8 <= q + Usable(s, q) ensures WordAt(mem', a) == WordAt(s.mem, a) {
      var b := a / 4096;
      PayloadHeld(s, q, b);
      assert b < p || p + n <= b;
      WordInPage(a, b, p, n);
    }
  }

  lemma WordInPage(a: nat, b: nat, p: nat, n: nat)
    requires a % 8 == 0 && b == a / 4096 && (b < p || p + n <= b)
    ensures a + 8 <= p * 4096 || p * 4096 + n * 4096 <= a
  {
    var d := a % 4096;
    assert a == b * 4096 + d && d <= 4088;
  }

  lemma WriteKeepsPayload(s: Heap, ptr: nat, mem': Words, q: nat, hi: nat)
    requires CachesOk(s) && PagesOk(s) && IsObject(s, ptr) && IsObject(s, q) && q != ptr
    requires hi <= ptr + Usable(s, ptr) && Untouched(s.mem, mem', ptr, hi)
    ensures SamePayload(s, mem', q)
  {
    if q < ptr { PayloadsApart(s, q, ptr); } else { PayloadsApart(s, ptr, q); }
  }

  /** Every payload of `s` is still there with its size and contents. */
  ghost predicate PayloadsKept(s: Heap, s': Heap)
  {
    forall q: nat | IsObject(s, q) :: IsObject(s', q) && Usable(s', q) == Usable(s, q) && SamePayload(s, s'.mem, q)
  }

  lemma KeptTwice(s: Heap, s1: Heap, s2: Heap)
    requires PayloadsKept(s, s1) && PayloadsKept(s1, s2)
    ensures PayloadsKept(s, s2)
  {
    forall q: nat | IsObject(s, q)
      ensures IsObject(s2, q) && Usable(s2, q) == Usable(s, q) && SamePayload(s, s2.mem, q)
    {
      forall a: nat | a % 8 == 0 && q <= a && a + 8 <= q + Usable(s, q) ensures WordAt(s2.mem, a) == WordAt(s.mem, a) {
        assert WordAt(s1.mem, a) == WordAt(s.mem, a);
      }
    }
  }

  /** One more payload, of at least `size` bytes, and the others as they were. */
  ghost predicate Allocated(s: Heap, s': Heap, ptr: nat, size: nat)
  {
    && ptr !in s.live && s'.live == s.live[ptr := size] && IsObject(s', ptr) && size <= Usable(s', ptr)
    && PayloadsKept(s, s')
  }

  lemma TakenKeeps(s: Heap, free: set<nat>, c: nat, c': Cache, g': Shadow, ptr: nat, size: nat)
    requires HeapOk(s, free) && c < |s.caches| && TookObject(s.caches[c], s.shadows[c], c', g', s.mem, ptr)
    requires size <= s.caches[c].layout.size
    ensures var s' := Taken(s, c, c', g', ptr, size);
            && HeapOk(s', free) && Allocated(s, s', ptr, size) && ptr / 4096 in s'.pages &&
                s'.pages[ptr / 4096] == SlabPage(c)
  {
    var s' := Taken(s, c, c', g', ptr, size);
    TakeHeap(s, free, c, c', g', ptr, size);
    PageOf(s, c, ptr / 4096);
    assert ptr in s'.live;
    forall q: nat | IsObject(s, q) ensures IsObject(s', q) && Usable(s', q) == Usable(s, q) {
      assert q in s.live && q in s'.live;
    }
  }

  lemma GrownKeeps(s: Heap, free: set<nat>, c: nat, c': Cache, g': Shadow, mem': Words, p: nat)
    requires HeapOk(s, free) && c < |s.caches| && p in free && GainedPage(s.caches[c], s.shadows[c], c', g', mem', p)
    requires Untouched(s.mem, mem', p * 4096, p * 4096 + 4096)
    ensures var s' := Grown(s, c, c', g', mem', p); HeapOk(s', free - {p}) && PayloadsKept(s, s') && s'.live == s.live
  {
    var s' := Grown(s, c, c', g', mem', p);
    GrowHeap(s, free, c, c', g', mem', p);
    FreeIsUnused(s, free, p);
    forall q: nat | IsObject(s, q) ensures IsObject(s', q) && Usable(s', q) == Usable(s, q) && SamePayload(s, mem', q) {
      assert q in s.live && q in s'.live;
      FrameKeepsPayload(s, free, p, 1, mem', q);
    }
  }

  lemma ClearedKeeps(s: Heap, free: set<nat>, ptr: nat, mem': Words)
    requires HeapOk(s, free) && IsObject(s, ptr) && Untouched(s.mem, mem', ptr, ptr + Usable(s, ptr))
    ensures var s' := s.(mem := mem');
            && HeapOk(s', free) && IsObject(s', ptr) && Usable(s', ptr) == Usable(s, ptr)
            && forall q: nat | IsObject(s, q) && q != ptr ::
                IsObject(s', q) && Usable(s', q) == Usable(s, q) && SamePayload(s, mem', q)
  {
    WritePayload(s, free, ptr, mem');
    forall q: nat | IsObject(s, q) && q != ptr ensures SamePayload(s, mem', q) {
      WriteKeepsPayload(s, ptr, mem', q, ptr + Usable(s, ptr));
    }
  }

  /** Clearing the payload just allocated keeps the others. */
  lemma AllocatedCleared(s: Heap, s1: Heap, free: set<nat>, ptr: nat, size: nat, mem': Words)
    requires HeapOk(s, free) && HeapOk(s1, free) && Allocated(s, s1, ptr, size)
    requires Untouched(s1.mem, mem', ptr, ptr + Usable(s1, ptr))
    ensures HeapOk(s1.(mem := mem'), free) && Allocated(s, s1.(mem := mem'), ptr, size)
  {
    var s2 := s1.(mem := mem');
    ClearedKeeps(s1, free, ptr, mem');
    assert ptr in s2.live;
    forall q: nat | IsObject(s, q) ensures IsObject(s2, q) && Usable(s2, q) == Usable(s, q) && SamePayload(s, mem', q) {
      assert q in s.live && q != ptr;
      assert SamePayload(s1, mem', q) && SamePayload(s, s1.mem, q);
      forall a: nat | a % 8 == 0 && q <= a && a + 8 <= q + Usable(s, q) ensures WordAt(mem', a) == WordAt(s.mem, a) {
        assert WordAt(s1.mem, a) == WordAt(s.mem, a);
      }
    }
  }

  /** `reset_named_cache_slot` */
  function BlankCache(): (c: Cache)
    ensures IsBlank(c)
  {
    Cache(0, Layout(0, 0), false, false, Heads(0, 0, 0), map[], 0, 0, 0, 0, 0, 0, 0, 0)
  }

  ghost function BlankShadow(): (g: Shadow)
    ensures IsBlankShadow(g)
  {
    Shadow(Lists([], [], []), map[])
  }

  function BuiltinCache(i: nat): Cache
    requires i < 7
  {
    FreshCache(BUILTIN_SIZES[i], Layout(BUILTIN_SIZES[i], BuiltinAlign(BUILTIN_SIZES[i]))).(builtin := true)
  }

  lemma BuiltinIsOk(i: nat, mem: Words)
    requires i < 7
    ensures SlotOk(BuiltinCache(i), BlankShadow(), mem)
  {
    FreshIsOk(BuiltinCache(i), BlankShadow(), mem);
  }

  lemma {:induction false} ZeroSums(cs: seq<Cache>)
    requires forall i: nat | i < |cs| :: cs[i].slabCount == 0 && cs[i].liveObjects == 0
    ensures SlabSum(cs) == 0 && LiveSum(cs) == 0
    decreases |cs|
  {
    if cs != [] { ZeroSums(cs[..|cs| - 1]); }
  }

  lemma Started(s: Heap, free: set<nat>)
    requires |s.caches| == |s.shadows| == CACHE_SLOTS && s.pages == map[] && s.holder == map[] && s.live == map[]
    requires s.bigs == []
    requires forall i: nat | i < CACHE_SLOTS ::
               s.shadows[i] == BlankShadow() && s.caches[i] == if i < 7 then BuiltinCache(i) else BlankCache()
    requires s.stats == Stats(0, 0, 0, 0, 0, 0, 0) && forall f | f in free ::
               0 < f < s.total && f * 512 + 512 <= |s.mem|
    ensures HeapOk(s, free) && TableOk(s.caches, [])
  {
    forall i: nat | i < CACHE_SLOTS ensures SlotOk(s.caches[i], s.shadows[i], s.mem) {
      if i < 7 { BuiltinIsOk(i, s.mem); }
    }
    ZeroSums(s.caches);
  }

  /** The fields of `s` that exist at run time. */
  predicate Real(s: Heap, mem: Words, caches: seq<Cache>, pages: map<nat, Page>, stats: Stats, total: nat)
  {
    s.mem == mem && s.caches == caches && s.pages == pages && s.stats == stats && s.total == total
  }

  /** Frames only moved between the free ones and those held. */
  ghost predicate Pooled(s: Heap, free: set<nat>, s': Heap, free': set<nat>)
  {
    s'.holder.Keys + free' == s.holder.Keys + free && |s'.mem| == |s.mem|
  }

  lemma FramesTaken(s: Heap, free: set<nat>, s': Heap, x: set<nat>)
    requires x <= free && s'.holder.Keys == s.holder.Keys + x && |s'.mem| == |s.mem|
    ensures Pooled(s, free, s', free - x)
  {}

  lemma FramesGiven(s: Heap, free: set<nat>, s': Heap, x: set<nat>)
    requires x <= s.holder.Keys && s'.holder == s.holder - x && |s'.mem| == |s.mem|
    ensures Pooled(s, free, s', free + x)
  {}

  /** A page was added to cache `c`, or nothing changed. */
  ghost predicate CacheGrown(s: Heap, s': Heap, c: nat, ok: bool)
  {
    && PayloadsKept(s, s') && s'.live == s.live && c < |s'.caches| && c < |s.caches|
    && s'.caches[c].active && s'.caches[c].layout == s.caches[c].layout
    && if ok then SelectSlab(s'.caches[c].heads) != 0 else s' == s
  }

  lemma CacheGrownNot(s: Heap, free: set<nat>, c: nat)
    requires c < |s.caches| && s.caches[c].active
    ensures CacheGrown(s, s, c, false)
  {}

  method AddPage(caches: seq<Cache>, mem: Words, pages: map<nat, Page>, stats: Stats, c: nat, p: nat,
                 ghost s: Heap, ghost free: set<nat>, ghost registry: seq<nat>)
    returns (caches': seq<Cache>, mem': Words, pages': map<nat, Page>, stats': Stats, ghost s': Heap)
    requires HeapOk(s, free) && Real(s, mem, caches, pages, stats, s.total) && p in free && TableOk(caches, registry)
    requires c < |caches| && caches[c].active && SelectSlab(caches[c].heads) == 0
    ensures HeapOk(s', free - {p}) && CacheGrown(s, s', c, true) && TableOk(caches', registry)
    ensures Pooled(s, free, s', free - {p})
    ensures Real(s', mem', caches', pages', stats', s.total)
  {
    FreeIsUnused(s, free, p);
    assert SlotOk(s.caches[c], s.shadows[c], s.mem);
    var c';
    ghost var g';
    c', mem', g' := GrowPage(caches[c], p, mem, s.shadows[c]);
    GrownKeeps(s, free, c, c', g', mem', p);
    TableSame(caches, registry, c, c');
    caches', pages', stats' := caches[c := c'], pages[p := SlabPage(c)], stats.(slabPages := stats.slabPages + 1);
    s' := Grown(s, c, c', g', mem', p);
    GrownPool(s, free, c, c', g', mem', p);
  }

  lemma GrownPool(s: Heap, free: set<nat>, c: nat, c': Cache, g': Shadow, mem': Words, p: nat)
    requires c < |s.caches| == |s.shadows| && p in free && |mem'| == |s.mem|
    ensures Pooled(s, free, Grown(s, c, c', g', mem', p), free - {p})
  {
    FramesTaken(s, free, Grown(s, c, c', g', mem', p), {p});
  }

  method TakeFrom(caches: seq<Cache>, mem: Words, stats: Stats, c: nat, p: nat, size: nat,
                  ghost s: Heap, ghost free: set<nat>, ghost registry: seq<nat>)
    returns (halted: bool, caches': seq<Cache>, stats': Stats, ptr: nat, ghost s': Heap)
    requires HeapOk(s, free) && Real(s, mem, caches, s.pages, stats, s.total) && TableOk(caches, registry)
    requires c < |caches| && caches[c].active && p in caches[c].slabs && caches[c].slabs[p].free > 0
    requires size <= caches[c].layout.size
    ensures !halted && HeapOk(s', free) && Allocated(s, s', ptr, size) && OfCache(s', c, ptr)
    ensures TableOk(caches', registry)
    ensures Real(s', mem, caches', s.pages, stats', s.total) && caches'[c].layout == caches[c].layout
    ensures s'.holder == s.holder
  {
    assert SlotOk(s.caches[c], s.shadows[c], s.mem);
    var c';
    ghost var g';
    halted, c', ptr, g' := TakeObject(caches[c], p, mem, s.shadows[c]);
    TakenKeeps(s, free, c, c', g', ptr, size);
    TableSame(caches, registry, c, c');
    caches', stats' := caches[c := c'], stats.(allocs := stats.allocs + 1);
    s' := Taken(s, c, c', g', ptr, size);
  }

  /** `ptr` is an object of cache `c`. */
  ghost predicate OfCache(s: Heap, c: nat, ptr: nat)
  {
    IsObject(s, ptr) && s.pages[ptr / 4096] == SlabPage(c)
  }

  /** Payload `ptr` holds only zero words. */
  ghost predicate IsClear(s: Heap, ptr: nat)
    requires IsObject(s, ptr)
  {
    forall a: nat | a % 8 == 0 && ptr <= a && a + 8 <= ptr + Usable(s, ptr) :: WordAt(s.mem, a) == 0
  }

  /** What an allocation call did: one more payload, cleared if asked, or none. */
  ghost predicate Served(s: Heap, s': Heap, r: Result, size: nat, zero: bool)
  {
    if r.Object? then Allocated(s, s', r.ptr, size) && (zero ==> IsClear(s', r.ptr))
    else PayloadsKept(s, s') && s'.live == s.live
  }

  lemma ServedAfter(s: Heap, s1: Heap, s2: Heap, r: Result, size: nat, zero: bool)
    requires PayloadsKept(s, s1) && s1.live == s.live && Served(s1, s2, r, size, zero)
    ensures Served(s, s2, r, size, zero)
  {
    KeptTwice(s, s1, s2);
  }

  // ----- header words

  ghost function WithHeaders(s: Heap): Heap
  {
    s.(mem := Stored(s.mem, s.caches, s.pages))
  }

  /** Writing the header words keeps the structure and every payload. */
  lemma StoredKeeps(s: Heap, free: set<nat>)
    requires HeapOk(s, free)
    ensures HeapOk(WithHeaders(s), free) && HeadersOk(WithHeaders(s).mem, s.caches, s.pages)
    ensures PayloadsKept(s, WithHeaders(s))
  {
    var s' := WithHeaders(s);
    StoredIs(s.mem, s.caches, s.pages);
    HeapAfter(s, s'.mem, free);
    forall q: nat | IsObject(s, q)
      ensures IsObject(s', q) && Usable(s', q) == Usable(s, q) && SamePayload(s, s'.mem, q)
    {
      forall a: nat | a % 8 == 0 && q <= a && a + 8 <= q + Usable(s, q) ensures WordAt(s'.mem, a) == WordAt(s.mem, a) {
        PayloadOutside(s, q, a);
      }
    }
  }

  lemma KeptStored(s: Heap, s': Heap, free: set<nat>)
    requires HeapOk(s', free) && PayloadsKept(s, s')
    ensures PayloadsKept(s, WithHeaders(s'))
  {
    StoredKeeps(s', free);
    KeptTwice(s, s', WithHeaders(s'));
  }

  lemma ServedStored(s: Heap, s': Heap, free: set<nat>, r: Result, size: nat, zero: bool)
    requires HeapOk(s', free) && Served(s, s', r, size, zero)
    ensures Served(s, WithHeaders(s'), r, size, zero)
  {
    StoredKeeps(s', free);
    KeptTwice(s, s', WithHeaders(s'));
    if r.Object? { assert SamePayload(s', WithHeaders(s').mem, r.ptr); }
  }

  lemma AllocatedStored(s: Heap, s': Heap, free: set<nat>, ptr: nat, size: nat)
    requires HeapOk(s', free) && Allocated(s, s', ptr, size)
    ensures Allocated(s, WithHeaders(s'), ptr, size)
  {
    StoredKeeps(s', free);
    KeptTwice(s, s', WithHeaders(s'));
  }

  lemma ReleasedStored(s: Heap, s': Heap, free: set<nat>, ptr: nat)
    requires HeapOk(s', free) && Released(s, s', ptr)
    ensures Released(s, WithHeaders(s'), ptr)
  {
    StoredKeeps(s', free);
    ReleasedAfter(s, s', WithHeaders(s'), ptr);
  }

  lemma ReleasedAfter(s: Heap, s1: Heap, s2: Heap, ptr: nat)
    requires Released(s, s1, ptr) && PayloadsKept(s1, s2) && s2.live == s1.live
    ensures Released(s, s2, ptr)
  {
    forall q: nat | IsObject(s, q) && q != ptr
      ensures IsObject(s2, q) && Usable(s2, q) == Usable(s, q) && SamePayload(s, s2.mem, q)
    {
      assert IsObject(s1, q) && SamePayload(s1, s2.mem, q) && SamePayload(s, s1.mem, q);
      forall a: nat | a % 8 == 0 && q <= a && a + 8 <= q + Usable(s, q) ensures WordAt(s2.mem, a) == WordAt(s.mem, a) {
        assert WordAt(s1.mem, a) == WordAt(s.mem, a);
      }
    }
  }

  /** What is written to a free page is nobody's business. */
  lemma FreePageWritten(s: Heap, free: set<nat>, p: nat, mem': Words)
    requires HeapOk(s, free) && HeadersOk(s.mem, s.caches, s.pages) && p in free
    requires Untouched(s.mem, mem', p * 4096, p * 4096 + 4096)
    ensures HeapOk(s.(mem := mem'), free) && HeadersOk(mem', s.caches, s.pages) && PayloadsKept(s, s.(mem := mem'))
  {
    var s' := s.(mem := mem');
    FreeIsUnused(s, free, p);
    HeadersBesidePage(s.mem, mem', s.caches, s.pages, p);
    FreePageCaches(s, p, mem');
    SamePagesOk(s, s');
    forall q: nat ensures IsObject(s', q) <==> IsObject(s, q) {}
    forall q: nat ensures q in s'.live <==> IsObject(s', q) { assert q in s.live <==> IsObject(s, q); }
    forall q | q in s'.live ensures s'.live[q] <= Usable(s', q) { assert s.live[q] <= Usable(s, q); }
    forall q: nat | IsObject(s, q) ensures SamePayload(s, mem', q) { FrameKeepsPayload(s, free, p, 1, mem', q); }
  }

  lemma FreePageCaches(s: Heap, p: nat, mem': Words)
    requires CachesOk(s) && Untouched(s.mem, mem', p * 4096, p * 4096 + 4096)
    requires forall i: nat | i < |s.caches| :: p !in s.caches[i].slabs
    ensures CachesOk(s.(mem := mem'))
  {
    forall i: nat | i < |s.caches| ensures SlotOk(s.caches[i], s.shadows[i], mem') {
      assert SlotOk(s.caches[i], s.shadows[i], s.mem);
      if s.caches[i].active {
        forall q | q in s.caches[i].slabs
          ensures p * 4096 + 4096 <= q * 4096 || q * 4096 + 4096 <= p * 4096
        {
          assert q != p;
        }
        CacheElsewhere(s.caches[i], s.shadows[i], s.mem, mem', p * 4096, p * 4096 + 4096);
      }
    }
  }

  /** A failed request shows only in the failure counters. */
  lemma NoteFailure(s: Heap, s': Heap, free: set<nat>, c: nat, c': Cache)
    requires HeapOk(s, free) && c < |s.caches| && s.caches[c].active
    requires c' == s.caches[c].(failed := c'.failed)
    requires s' == s.(caches := s.caches[c := c'], stats := s.stats.(failed := s'.stats.failed))
    ensures HeapOk(s', free) && PayloadsKept(s, s')
  {
    FailureCaches(s, s', c, c');
    SamePagesOk(s, s');
    FailureLive(s, s', c, c');
    SlabSumAt(s.caches, c, c');
    LiveSumAt(s.caches, c, c');
  }

  lemma FailureCaches(s: Heap, s': Heap, c: nat, c': Cache)
    requires CachesOk(s) && c < |s.caches| && c' == s.caches[c].(failed := c'.failed) && s'.caches == s.caches[c := c']
    requires s'.mem == s.mem && s'.shadows == s.shadows
    ensures CachesOk(s')
  {
    forall j: nat | j < |s'.caches| ensures SlotOk(s'.caches[j], s'.shadows[j], s'.mem) {
      assert SlotOk(s.caches[j], s.shadows[j], s.mem);
    }
  }

  lemma FailureLive(s: Heap, s': Heap, c: nat, c': Cache)
    requires LiveOk(s) && c < |s.caches| && c' == s.caches[c].(failed := c'.failed) && s'.caches == s.caches[c := c']
    requires s'.live == s.live && s'.pages == s.pages && s'.shadows == s.shadows
    ensures LiveOk(s')
  {
    forall q: nat ensures IsObject(s', q) <==> IsObject(s, q) {}
    forall q: nat ensures q in s'.live <==> IsObject(s', q) { assert q in s.live <==> IsObject(s, q); }
    forall q | q in s'.live ensures s'.live[q] <= Usable(s', q) { assert s.live[q] <= Usable(s, q); }
  }

  /** `record_cache_failure` */
  method RecordFailure(caches: seq<Cache>, stats: Stats, c: nat, ghost s: Heap, ghost free: set<nat>)
    returns (caches': seq<Cache>, stats': Stats, ghost s': Heap)
    requires HeapOk(s, free) && s.caches == caches && s.stats == stats && c < |caches| && caches[c].active
    ensures caches' == caches[c := caches[c].(failed := caches[c].failed + 1)]
    ensures stats' == stats.(failed := stats.failed + 1)
    ensures Real(s', s.mem, caches', s.pages, stats', s.total) && HeapOk(s', free) && PayloadsKept(s, s')
    ensures s'.live == s.live
    ensures s'.holder == s.holder
  {
    var c' := caches[c].(failed := caches[c].failed + 1);
    caches', stats' := caches[c := c'], stats.(failed := stats.failed + 1);
    s' := s.(caches := caches', stats := stats');
    NoteFailure(s, s', free, c, c');
  }

  lemma EightDivides(a: nat, b: nat)
    requires a % 8 == 0 && b % 8 == 0
    ensures (a + b) % 8 == 0
  {}

  lemma LargeWords(p: nat, n: nat, ptr: nat, u: nat)
    requires n > 0 && ptr == p * 4096 + LARGE_OFFSET && u == n * 4096 - LARGE_OFFSET
    ensures u % 8 == 0 && ptr + u == p * 4096 + n * 4096
  {
    Multiple(u, 8, n * 512 - 6);
  }

  lemma PayloadInMemory(s: Heap, ptr: nat)
    requires CachesOk(s) && PagesOk(s) && IsObject(s, ptr)
    ensures ptr % 8 == 0 && (ptr + Usable(s, ptr)) % 8 == 0 && ptr + Usable(s, ptr) <= 8 * |s.mem|
  {
    PayloadBounds(s, ptr);
    var p, u := ptr / 4096, Usable(s, ptr);
    assert Speaks(s, p);
    match s.pages[p] {
      case SlabPage(c) =>
        assert SlotOk(s.caches[c], s.shadows[c], s.mem) && Held(s, p);
        WholeWords(s.caches[c].layout);
      case LargePage(n, _, _) =>
        assert Held(s, p + n - 1);
        LargeWords(p, n, ptr, u);
    }
    EightDivides(ptr, u);
  }

  method ClearPayload(mem: Words, ptr: nat, size: nat, ghost s: Heap, ghost free: set<nat>) returns (m: Words)
    requires HeapOk(s, free) && HeadersOk(s.mem, s.caches, s.pages) && IsObject(s, ptr) && size == Usable(s, ptr)
    requires mem == s.mem
    ensures HeapOk(s.(mem := m), free) && IsObject(s.(mem := m), ptr) && IsClear(s.(mem := m), ptr)
    ensures Untouched(mem, m, ptr, ptr + size) && HeadersOk(m, s.caches, s.pages)
  {
    PayloadInMemory(s, ptr);
    m := ClearWords(mem, ptr, ptr + size);
    ClearedKeeps(s, free, ptr, m);
    HeadersBesidePayload(s, ptr, m);
  }

  // ----- multi-page allocations

  /** `large_layout_for_size`: the pages for the payload and the header before it, if that fits the types. */
  function LargeLayout(size: Word): (r: Option<nat>)
    ensures r.Some? <==> size + LARGE_OFFSET + 4095 < WORD_LIMIT && (size + LARGE_OFFSET + 4095) / 4096 < 0x1_0000_0000
    ensures r.Some? ==> r.value > 0 && size <= r.value * 4096 - LARGE_OFFSET < size + 4096
  {
    var total := size + LARGE_OFFSET;
    if total >= WORD_LIMIT || total + 4095 >= WORD_LIMIT then None
    else
      var n := (total + 4095) / 4096;
      if n == 0 || n > 0xFFFF_FFFF then None else Some(n)
  }

  lemma EnlargedKeeps(s: Heap, free: set<nat>, mem': Words, p: nat, n: nat, size: nat)
    requires HeapOk(s, free) && IsRun(free, p, n) && n > 0 && size <= n * 4096 - LARGE_OFFSET
    requires Untouched(s.mem, mem', p * 4096, p * 4096 + n * 4096)
    ensures var s' := Enlarged(s, mem', p, n, size);
            HeapOk(s', free - Span(p, n)) && Allocated(s, s', p * 4096 + LARGE_OFFSET, size)
  {
    var s', ptr := Enlarged(s, mem', p, n, size), p * 4096 + LARGE_OFFSET;
    EnlargeHeap(s, free, mem', p, n, size);
    FreeRunUnused(s, free, p, n);
    assert ptr in s'.live && ptr / 4096 == p;
    forall q: nat | IsObject(s, q) ensures IsObject(s', q) && Usable(s', q) == Usable(s, q) && SamePayload(s, mem', q) {
      assert q in s.live && q in s'.live;
      FrameKeepsPayload(s, free, p, n, mem', q);
    }
  }

  lemma LargeClear(s: Heap, mem': Words, p: nat, n: nat, size: nat, ptr: nat)
    requires n > 0 && ptr == p * 4096 + LARGE_OFFSET
    requires forall a: nat | a % 8 == 0 && p * 4096 <= a < p * 4096 + n * 4096 :: WordAt(mem', a) == 0
    ensures var s' := Enlarged(s, mem', p, n, size); IsObject(s', ptr) && IsClear(s', ptr)
  {
    assert ptr / 4096 == p;
  }

  lemma LargeServed(s: Heap, free: set<nat>, mem': Words, p: nat, n: nat, size: nat, zero: bool, ptr: nat)
    requires HeapOk(s, free) && IsRun(free, p, n) && n > 0 && size <= n * 4096 - LARGE_OFFSET
    requires ptr == p * 4096 + LARGE_OFFSET
    requires Untouched(s.mem, mem', p * 4096, p * 4096 + n * 4096)
    requires zero ==> forall a: nat | a % 8 == 0 && p * 4096 <= a < p * 4096 + n * 4096 :: WordAt(mem', a) == 0
    ensures HeapOk(Enlarged(s, mem', p, n, size), free - Span(p, n))
    ensures Served(s, Enlarged(s, mem', p, n, size), Object(ptr), size, zero)
  {
    EnlargedKeeps(s, free, mem', p, n, size);
    if zero { LargeClear(s, mem', p, n, size, ptr); }
  }

  /** The frames `[p, p + n)` become one allocation, cleared if asked. */
  method Enlarge(mem: Words, pages: map<nat, Page>, stats: Stats, p: nat, n: nat, size: nat, zero: bool, ghost ptr: nat,
                 ghost s: Heap, ghost free: set<nat>)
    returns (mem': Words, pages': map<nat, Page>, stats': Stats, ghost s': Heap)
    requires HeapOk(s, free) && Real(s, mem, s.caches, pages, stats, s.total)
    requires IsRun(free, p, n) && n > 0 && size <= n * 4096 - LARGE_OFFSET && ptr == p * 4096 + LARGE_OFFSET
    ensures HeapOk(s', free - Span(p, n)) && Served(s, s', Object(ptr), size, zero)
    ensures Real(s', mem', s.caches, pages', stats', s.total) && Pooled(s, free, s', free - Span(p, n))
  {
    mem' := mem;
    if zero { mem' := ClearRun(mem, p, n, s, free); }
    LargeServed(s, free, mem', p, n, size, zero, ptr);
    pages' := pages[p := LargePage(n, size, n * 4096 - LARGE_OFFSET)];
    stats' := OneMoreLarge(stats, size);
    s' := Enlarged(s, mem', p, n, size);
    EnlargedPool(s, free, mem', p, n, size);
  }

  lemma EnlargedPool(s: Heap, free: set<nat>, mem': Words, p: nat, n: nat, size: nat)
    requires IsRun(free, p, n) && n > 0 && size <= n * 4096 - LARGE_OFFSET && |mem'| == |s.mem|
    ensures Pooled(s, free, Enlarged(s, mem', p, n, size), free - Span(p, n))
  {
    RunTaken(s, free, Enlarged(s, mem', p, n, size), p, n);
  }

  lemma RunTaken(s: Heap, free: set<nat>, s': Heap, p: nat, n: nat)
    requires IsRun(free, p, n) && s'.holder.Keys == s.holder.Keys + Span(p, n) && |s'.mem| == |s.mem|
    ensures Pooled(s, free, s', free - Span(p, n))
  {
    forall q | q in Span(p, n) ensures q in free { SpanMember(p, n, q); }
    FramesTaken(s, free, s', Span(p, n));
  }

  method ClearRun(mem: Words, p: nat, n: nat, ghost s: Heap, ghost free: set<nat>) returns (m: Words)
    requires FreeOk(s, free) && mem == s.mem && IsRun(free, p, n) && n > 0
    ensures Untouched(mem, m, p * 4096, p * 4096 + n * 4096)
    ensures forall a: nat | a % 8 == 0 && p * 4096 <= a < p * 4096 + n * 4096 :: WordAt(m, a) == 0
  {
    assert p + n - 1 in free;
    m := ClearWords(mem, p * 4096, p * 4096 + n * 4096);
  }

  lemma CountersOnly(s: Heap, s': Heap, free: set<nat>)
    requires HeapOk(s, free)
    requires s' == s.(stats := s.stats.(failed := s'.stats.failed, failedLarges := s'.stats.failedLarges))
    ensures HeapOk(s', free) && PayloadsKept(s, s')
  {
    forall j: nat | j < |s'.caches| ensures SlotOk(s'.caches[j], s'.shadows[j], s'.mem) {
      assert SlotOk(s.caches[j], s.shadows[j], s.mem);
    }
    SamePagesOk(s, s');
    forall q: nat ensures IsObject(s', q) <==> IsObject(s, q) {}
    forall q: nat ensures q in s'.live <==> IsObject(s', q) { assert q in s.live <==> IsObject(s, q); }
    forall q | q in s'.live ensures s'.live[q] <= Usable(s', q) { assert s.live[q] <= Usable(s, q); }
  }

  // ----- giving back

  /** One payload less, and the others as they were. */
  ghost predicate Released(s: Heap, s': Heap, ptr: nat)
  {
    && ptr in s.live && s'.live == s.live - {ptr}
    && forall q: nat | IsObject(s, q) && q != ptr ::
        IsObject(s', q) && Usable(s', q) == Usable(s, q) && SamePayload(s, s'.mem, q)
  }

  lemma GivenReleases(s: Heap, s': Heap, free: set<nat>, free': set<nat>, ptr: nat)
    requires HeapOk(s, free) && HeapOk(s', free') && IsObject(s, ptr) && s'.live == s.live - {ptr}
    requires |s'.caches| == |s.caches| && forall i: nat | i < |s.caches| :: s'.caches[i].layout == s.caches[i].layout
    requires forall p | p in s'.pages :: p in s.pages && s'.pages[p] == s.pages[p]
    requires Untouched(s.mem, s'.mem, ptr, ptr + 8) && 8 <= Usable(s, ptr)
    ensures Released(s, s', ptr)
  {
    assert ptr in s.live;
    forall q: nat | IsObject(s, q) && q != ptr
      ensures IsObject(s', q) && Usable(s', q) == Usable(s, q) && SamePayload(s, s'.mem, q)
    {
      assert q in s.live && q in s'.live;
      WriteKeepsPayload(s, ptr, s'.mem, q, ptr + 8);
    }
  }

  /** `free_object` on a slab page: the machine stops exactly when `ptr` is not a live object. */
  method GiveBack(caches: seq<Cache>, mem: Words, pages: map<nat, Page>, stats: Stats, c: nat, p: nat, ptr: nat,
                  ghost s: Heap, ghost free: set<nat>, ghost registry: seq<nat>)
    returns (halted: bool, caches': seq<Cache>, mem': Words, pages': map<nat, Page>, stats': Stats, release: bool,
             ghost s': Heap)
    requires HeapOk(s, free) && Real(s, mem, caches, pages, stats, s.total) && TableOk(caches, registry)
    requires c < |caches| && p in caches[c].slabs && ptr / 4096 == p
    ensures halted <==> !IsObject(s, ptr)
    ensures !halted ==> TableOk(caches', registry) && Released(s, s', ptr)
    ensures !halted ==>
              HeapOk(s', if release then free + {p} else free) &&
              Real(s', mem', caches', pages', stats', s.total)
    ensures !halted ==> Pooled(s, free, s', if release then free + {p} else free)
  {
    assert SlotOk(s.caches[c], s.shadows[c], s.mem);
    PageOf(s, c, p);
    var c';
    ghost var g';
    caches', pages', stats', s' := caches, pages, stats, s;
    halted, c', mem', release, g' := GiveObject(caches[c], p, ptr, mem, s.shadows[c]);
    if halted { return; }
    caches' := caches[c := c'];
    TableSame(caches, registry, c, c');
    PageTouched(s, ptr, p, mem');
    if release {
      pages', stats', s' := RecordDrop(pages, stats, c, c', g', mem', ptr, p, s, free);
    } else {
      stats', s' := RecordGive(stats, c, c', g', mem', ptr, p, s, free);
    }
  }

  /** The counters and the page headers after an object and its page went back. */
  method RecordDrop(pages: map<nat, Page>, stats: Stats, ghost c: nat, ghost c': Cache, ghost g': Shadow,
                    ghost mem': Words,
                    ghost ptr: nat, p: nat, ghost s: Heap, ghost free: set<nat>)
    returns (pages': map<nat, Page>, stats': Stats, ghost s': Heap)
    requires HeapOk(s, free) && pages == s.pages && stats == s.stats && c < |s.caches|
    requires GaveObject(s.caches[c], s.shadows[c], c', g', mem', ptr, p, true) && ptr / 4096 == p
    requires Untouched(s.mem, mem', p * 4096, p * 4096 + 4096) && Untouched(s.mem, mem', ptr, ptr + 8)
    requires IsObject(s, ptr) && 8 <= Usable(s, ptr)
    ensures HeapOk(s', free + {p}) && Released(s, s', ptr) && Real(s', mem', s.caches[c := c'], pages', stats', s.total)
    ensures Pooled(s, free, s', free + {p})
  {
    DropReleases(s, free, c, c', g', mem', ptr, p);
    pages', stats' := pages - {p}, stats.(frees := stats.frees + 1, slabPages := stats.slabPages - 1);
    s' := Dropped(s, c, c', g', mem', ptr, p);
    PageOf(s, c, p);
    FramesGiven(s, free, s', {p});
  }

  method RecordGive(stats: Stats, ghost c: nat, ghost c': Cache, ghost g': Shadow, ghost mem': Words,
                    ghost ptr: nat, ghost p: nat, ghost s: Heap, ghost free: set<nat>)
    returns (stats': Stats, ghost s': Heap)
    requires HeapOk(s, free) && stats == s.stats && c < |s.caches|
    requires GaveObject(s.caches[c], s.shadows[c], c', g', mem', ptr, p, false) && ptr / 4096 == p
    requires Untouched(s.mem, mem', p * 4096, p * 4096 + 4096) && Untouched(s.mem, mem', ptr, ptr + 8)
    requires IsObject(s, ptr) && 8 <= Usable(s, ptr)
    ensures HeapOk(s', free) && Released(s, s', ptr) && Real(s', mem', s.caches[c := c'], s.pages, stats', s.total)
    ensures s'.holder == s.holder
  {
    GiveReleases(s, free, c, c', g', mem', ptr, p);
    stats' := stats.(frees := stats.frees + 1);
    s' := Given(s, c, c', g', mem', ptr);
  }

  lemma DropReleases(s: Heap, free: set<nat>, c: nat, c': Cache, g': Shadow, mem': Words, ptr: nat, p: nat)
    requires HeapOk(s, free) && c < |s.caches| && GaveObject(s.caches[c], s.shadows[c], c', g', mem', ptr, p, true)
    requires ptr / 4096 == p && Untouched(s.mem, mem', p * 4096, p * 4096 + 4096)
    requires Untouched(s.mem, mem', ptr, ptr + 8)
    requires IsObject(s, ptr) && 8 <= Usable(s, ptr)
    ensures s.stats.slabPages > 0 && HeapOk(Dropped(s, c, c', g', mem', ptr, p), free + {p})
    ensures Released(s, Dropped(s, c, c', g', mem', ptr, p), ptr)
  {
    DropHeap(s, free, c, c', g', mem', ptr, p);
    GivenReleases(s, Dropped(s, c, c', g', mem', ptr, p), free, free + {p}, ptr);
  }

  lemma GiveReleases(s: Heap, free: set<nat>, c: nat, c': Cache, g': Shadow, mem': Words, ptr: nat, p: nat)
    requires HeapOk(s, free) && c < |s.caches| && GaveObject(s.caches[c], s.shadows[c], c', g', mem', ptr, p, false)
    requires ptr / 4096 == p && Untouched(s.mem, mem', p * 4096, p * 4096 + 4096)
    requires Untouched(s.mem, mem', ptr, ptr + 8)
    requires IsObject(s, ptr) && 8 <= Usable(s, ptr)
    ensures HeapOk(Given(s, c, c', g', mem', ptr), free) && Released(s, Given(s, c, c', g', mem', ptr), ptr)
  {
    GiveHeap(s, free, c, c', g', mem', ptr, p);
    GivenReleases(s, Given(s, c, c', g', mem', ptr), free, free, ptr);
  }

  lemma PageTouched(s: Heap, ptr: nat, p: nat, mem': Words)
    requires CachesOk(s) && PagesOk(s) && IsObject(s, ptr) && ptr / 4096 == p && s.pages[p].SlabPage?
    requires Untouched(s.mem, mem', ptr, ptr + 8)
    ensures Untouched(s.mem, mem', p * 4096, p * 4096 + 4096) && 8 <= Usable(s, ptr)
  {
    PayloadBounds(s, ptr);
    assert Speaks(s, p);
    var c := s.pages[p].cache;
    assert SlotOk(s.caches[c], s.shadows[c], s.mem);
  }

  lemma ReducedReleases(s: Heap, free: set<nat>, p: nat, n: nat, i: nat, ptr: nat)
    requires HeapOk(s, free) && p in s.pages && s.pages[p].LargePage? && n == s.pages[p].count && i < |s.bigs|
    requires s.bigs[i] == p
    requires s.stats.larges > 0 && s.stats.largeBytes >= s.pages[p].requested && ptr == p * 4096 + LARGE_OFFSET
    ensures HeapOk(Reduced(s, p, n, i), free + Span(p, n)) && Released(s, Reduced(s, p, n, i), ptr)
  {
    ReduceHeap(s, free, p, n, i);
    var s' := Reduced(s, p, n, i);
    assert ptr / 4096 == p;
    assert IsObject(s, ptr);
    forall q: nat | IsObject(s, q) && q != ptr ensures IsObject(s', q) && Usable(s', q) == Usable(s, q) {
      assert q in s.live && q in s'.live;
    }
  }

  // ----- named caches

  /** `named_cache_parameters_valid` behind the check of the name. */
  function NamedLayout(objectSize: nat, alignment: nat): (r: Option<Layout>)
    ensures r.Some? ==> ValidLayout(r.value) && objectSize <= r.value.size < objectSize + r.value.align
    ensures r.Some? <==> (alignment == 0 || alignment == 8 || alignment == 16 || alignment == 32 || alignment == 64) &&
                         8 <= objectSize && SLAB_HEADER_SIZE + RoundUp(objectSize,
                             if alignment == 0 then 8 else alignment) <= 4096
  {
    var a := if alignment == 0 then 8 else alignment;
    RoundsUp(objectSize, a);
    if objectSize == 0 || objectSize > 65535 then None
    else if a != 8 && a != 16 && a != 32 && a != 64 then None
    else if objectSize < 8 then None
    else
      var slot := RoundUp(objectSize, a);
      if slot > 65535 || SLAB_HEADER_SIZE + slot > 4096 then None else Some(Layout(slot, a))
  }

  lemma RoundsUp(n: nat, align: nat)
    requires align > 0
    ensures n <= RoundUp(n, align) < n + align && RoundUp(n, align) % align == 0
  {
    var m := n + align - 1;
    var q := m / align;
    assert m == align * q + m % align;
    Multiple(q * align, align, q);
  }

  lemma CreateKeeps(s: Heap, s': Heap, free: set<nat>, i: nat, c: Cache)
    requires HeapOk(s, free) && i < |s.caches| && !s.caches[i].active && ValidLayout(c.layout)
    requires c.objectSize <= c.layout.size
    requires c == FreshCache(c.objectSize, c.layout) && s' == s.(caches := s.caches[i := c])
    ensures HeapOk(s', free) && PayloadsKept(s, s')
  {
    CreateHeap(s, free, i, c);
    SameObjects(s, s', free, free);
  }

  /** With the same objects, the same headers for them and the same memory, payloads are kept. */
  lemma SameObjects(s: Heap, s': Heap, free: set<nat>, free': set<nat>)
    requires HeapOk(s, free) && HeapOk(s', free') && s'.live == s.live && s'.mem == s.mem && |s'.caches| == |s.caches|
    requires forall p | p in s'.pages :: p in s.pages && s'.pages[p] == s.pages[p]
    requires forall i: nat | i < |s.caches| && s'.caches[i].slabs != map[] :: s'.caches[i].layout == s.caches[i].layout
    ensures PayloadsKept(s, s')
  {
    forall q: nat | IsObject(s, q) ensures IsObject(s', q) && Usable(s', q) == Usable(s, q) {
      assert q in s.live && q in s'.live;
    }
  }

  lemma TableAdds(caches: seq<Cache>, registry: seq<nat>, i: nat, c: Cache)
    requires TableOk(caches, registry) && 7 <= i < |caches| && !caches[i].active && c.active && !c.builtin
    ensures TableOk(caches[i := c], [i] + registry)
  {}

  lemma TableRemoves(caches: seq<Cache>, registry: seq<nat>, i: nat, k: nat, blank: Cache)
    requires TableOk(caches, registry) && k < |registry| && registry[k] == i && 7 <= i < |caches| && IsBlank(blank)
    ensures TableOk(caches[i := blank], RemoveAt(registry, k))
  {
    ReducedBigs(registry, k, i);
  }

  lemma DestroyKeeps(s: Heap, free: set<nat>, c: nat, blank: Cache, none: Shadow)
    requires HeapOk(s, free) && c < |s.caches| && s.caches[c].active && s.caches[c].liveObjects == 0
    requires IsBlank(blank) && IsBlankShadow(none)
    ensures s.stats.slabPages >= s.caches[c].slabCount
    ensures HeapOk(Destroyed(s, c, blank, none), free + s.caches[c].slabs.Keys)
    ensures PayloadsKept(s, Destroyed(s, c, blank, none))
  {
    DestroyHeap(s, free, c, blank, none);
    SameObjects(s, Destroyed(s, c, blank, none), free, free + s.caches[c].slabs.Keys);
  }

  // ----- frames of a run or a list

  /** The cache after a free of `ptr` on words that are no header; `release` says that the page is returned. */
  method GiveForeign(mem: Words, c: Cache, p: nat, ptr: nat) returns (c': Cache, release: bool)
    requires SlabVerdict(mem, c, p, ptr) == Freed
    ensures c'.liveObjects + 1 == c.liveObjects && c'.freeCount == c.freeCount + 1
    ensures !Fills(mem, p) ==> p in c'.slabs && c'.heads.partial == p
  {
    c' := ForeignGiven(mem, c, p, ptr);
    release := ReleasesSlab(c', p);
    if release { c' := DropSlab(c', p); }
  }

  /** The frames `[p, p + n)` are tracked and in use. */
  ghost predicate InUse(free: set<nat>, pageCount: nat, p: nat, n: nat)
  {
    p + n <= pageCount && forall q: nat | p <= q < p + n :: q !in free
  }

  /**
   Free the `n` frames from `base`; stops at one that is not tracked or already free.  Addresses do
   not wrap, because tracked frames end long before the last address.
   */
  method FreeFrames(frames: PageFrameContainer, base: nat, n: nat) returns (halted: bool)
    requires frames.Valid() && frames.initialized && n > 0
    modifies frames`free, frames`freePageCount, frames.bitmap
    ensures frames.Valid()
    ensures (halted <==> !(base % 4096 == 0 && InUse(old(frames.free), frames.pageCount, base / 4096, n)))
    ensures !halted ==> frames.free == old(frames.free) + Span(base / 4096, n)
  {
    ghost var p := base / 4096;
    var k := FreeUntil(frames, base, n, p, frames.free, frames.pageCount);
    if k < n { InUseStep(old(frames.free), frames.pageCount, p, k, n); }
    halted := k < n;
  }

  /** How many of the frames could be freed, one after the other. */
  method FreeUntil(frames: PageFrameContainer, base: nat, n: nat, ghost p: nat, ghost free0: set<nat>, ghost count: nat)
    returns (k: nat)
    requires frames.Valid() && frames.initialized && p == base / 4096 && free0 == frames.free
    requires count == frames.pageCount
    modifies frames`free, frames`freePageCount, frames.bitmap
    ensures frames.Valid() && k <= n && frames.free == free0 + Span(p, k)
    ensures k > 0 ==> base % 4096 == 0 && InUse(free0, count, p, k)
    ensures k < n ==> !(base % 4096 == 0 && p + k < count && p + k !in free0)
  {
    k := 0;
    var ok := true;
    ghost var q := p;
    while k < n && ok
      invariant k <= n && q == p + k && frames.Valid() && frames.initialized && frames.free == free0 + Span(p, k)
      invariant k > 0 ==> base % 4096 == 0 && InUse(free0, count, p, k)
      invariant ok || !(base % 4096 == 0 && q < count && q !in free0)
      decreases n - k, ok
    {
      var m := k + 1;
      ok := FreeNth(frames, base, p, k, m, q, free0, count);
      if ok { k, q := m, q + 1; }
    }
  }

  method FreeNth(frames: PageFrameContainer, base: nat, ghost p: nat, k: nat, ghost m: nat, ghost q: nat,
                 ghost free0: set<nat>, ghost count: nat)
    returns (ok: bool)
    requires frames.Valid() && frames.initialized && p == base / 4096 && q == p + k && m == k + 1
    requires frames.free == free0 + Span(p, k) && count == frames.pageCount
    requires (k > 0 ==> base % 4096 == 0 && InUse(free0, count, p, k))
    modifies frames`free, frames`freePageCount, frames.bitmap
    ensures frames.Valid() && (ok <==> base % 4096 == 0 && q < count && q !in free0)
    ensures frames.free == free0 + Span(p, if ok then m else k) && (ok ==> InUse(free0, count, p, m))
  {
    var address := base + k * 4096;
    NthAddress(base, k, q, address);
    InUseMore(free0, count, p, k, m, q);
    ok := frames.FreePage(address);
  }

  lemma NthAddress(base: nat, k: nat, q: nat, address: nat)
    requires q == base / 4096 + k && address == base + k * 4096
    ensures address % 4096 == base % 4096 && address / 4096 == q
  {}

  lemma InUseMore(free: set<nat>, count: nat, p: nat, k: nat, m: nat, q: nat)
    requires m == k + 1 && q == p + k
    ensures (k > 0 ==> InUse(free, count, p, k)) && q < count && q !in free ==> InUse(free, count, p, m)
    ensures free + Span(p, m) == free + Span(p, k) + {q} && q !in Span(p, k)
  {
    SpanMember(p, k, q);
  }

  method FreeFrame(frames: PageFrameContainer, p: nat) returns (ok: bool)
    requires frames.Valid() && frames.initialized && p < frames.pageCount && p !in frames.free
    modifies frames`free, frames`freePageCount, frames.bitmap
    ensures ok && frames.Valid() && frames.free == old(frames.free) + {p}
  {
    ok := frames.FreePage(p * 4096);
  }

  lemma InUseStep(free: set<nat>, count: nat, p: nat, k: nat, n: nat)
    requires k < n
    ensures InUse(free, count, p, n) ==> p + k < count && p + k !in free
  {}

  /** The first `n` elements of a list. */
  ghost function Elements(l: seq<nat>, n: nat): set<nat>
    requires n <= |l|
  {
    if n == 0 then {} else Elements(l, n - 1) + {l[n - 1]}
  }

  lemma {:induction false} ElementOf(l: seq<nat>, n: nat, q: nat)
    requires n <= |l|
    ensures q in Elements(l, n) <==> exists i: nat | i < n :: l[i] == q
    decreases n
  {
    if n > 0 {
      ElementOf(l, n - 1, q);
      if q == l[n - 1] { assert l[n - 1] == q; }
    }
  }

  lemma NextElement(l: seq<nat>, n: nat)
    requires n < |l| && Distinct(l)
    ensures l[n] !in Elements(l, n)
  {
    ElementOf(l, n, l[n]);
  }

  /** Free the pages of an idle cache's list, whose checks then never fire. */
  method ReleaseList(frames: PageFrameContainer, slabs: Slabs, head: nat, slabPages: nat, ghost l: seq<nat>,
                     ghost k: Kind)
    returns (halted: bool, n: nat)
    requires frames.Valid() && frames.initialized && ListOk(slabs, head, l, k) && |l| <= slabPages
    requires forall p | p in l :: p in slabs && slabs[p].free == slabs[p].count && p < frames.pageCount &&
               p !in frames.free
    modifies frames`free, frames`freePageCount, frames.bitmap
    ensures !halted && n == |l| && frames.Valid() && frames.free == old(frames.free) + Elements(l, |l|)
  {
    var p := head;
    halted, n := false, 0;
    while p != 0
      invariant !halted && n <= |l| && p == At(l, n) && frames.Valid()
      invariant frames.free == old(frames.free) + Elements(l, n)
      decreases |l| - n
    {
      halted, p := ReleaseNode(frames, slabs, p, slabPages, n, n + 1, l, k, old(frames.free));
      if halted { return; }
      n := n + 1;
    }
    ListEnd(slabs, head, l, k, n);
  }

  method ReleaseNode(frames: PageFrameContainer, slabs: Slabs, p: nat, slabPages: nat, n: nat, ghost m: nat,
                     ghost l: seq<nat>, ghost k: Kind,
                     ghost free0: set<nat>)
    returns (halted: bool, next: nat)
    requires frames.Valid() && frames.initialized && Distinct(l) && n < |l| <= slabPages && NodeOk(slabs, l, n, k)
    requires p == l[n] && m == n + 1
    requires slabs[p].free == slabs[p].count && p < frames.pageCount && p !in free0
    requires frames.free == free0 + Elements(l, n)
    modifies frames`free, frames`freePageCount, frames.bitmap
    ensures !halted && next == At(l, m) && frames.Valid() && frames.free == free0 + Elements(l, m)
  {
    next := slabs[p].next;
    halted := slabs[p].free != slabs[p].count || slabPages == n;
    if halted { return; }
    NextElement(l, n);
    var ok := FreeFrame(frames, p);
  }

  /** `release_cache_slabs` on a cache whose only pages are empty ones. */
  method ReleaseLists(frames: PageFrameContainer, slabs: Slabs, heads: Heads, slabPages: nat, ghost g: Lists)
    returns (halted: bool, n: nat)
    requires frames.Valid() && frames.initialized && ListsOk(slabs, heads, g) && g.partial == [] && g.full == []
    requires |g.empty| <= slabPages
    requires forall p | p in g.empty :: p in slabs && slabs[p].free == slabs[p].count && p < frames.pageCount &&
               p !in frames.free
    modifies frames`free, frames`freePageCount, frames.bitmap
    ensures !halted && n == |g.empty| && frames.Valid()
    ensures frames.free == old(frames.free) + Elements(g.empty, |g.empty|)
  {
    n := 0;
    var n1, n2, n3;
    halted, n1 := ReleaseList(frames, slabs, heads.empty, slabPages, g.empty, Empty);
    if halted { return; }
    halted, n2 := ReleaseList(frames, slabs, heads.partial, slabPages, g.partial, Partial);
    if halted { return; }
    halted, n3 := ReleaseList(frames, slabs, heads.full, slabPages, g.full, Full);
    n := n1 + n2 + n3;
  }

  lemma ListEnd(slabs: Slabs, head: nat, l: seq<nat>, k: Kind, n: nat)
    requires ListOk(slabs, head, l, k) && n <= |l| && At(l, n) == 0
    ensures n == |l|
  {
    forall i: nat | i < |l| ensures l[i] != 0 { assert NodeOk(slabs, l, i, k); }
  }

  method Reduce(pages: map<nat, Page>, stats: Stats, p: nat, ghost s: Heap, ghost free: set<nat>, ghost n: nat,
                ghost i: nat, ghost ptr: nat)
    returns (pages': map<nat, Page>, stats': Stats, ghost s': Heap)
    requires HeapOk(s, free) && Real(s, s.mem, s.caches, pages, stats, s.total)
    requires p in pages && pages[p].LargePage? && n == pages[p].count && i < |s.bigs| && s.bigs[i] == p
    requires stats.larges > 0 && stats.largeBytes >= pages[p].requested && ptr == p * 4096 + LARGE_OFFSET
    ensures HeapOk(s', free + Span(p, n)) && Released(s, s', ptr)
    ensures Real(s', s.mem, s.caches, pages', stats', s.total) && Pooled(s, free, s', free + Span(p, n))
  {
    ReducedReleases(s, free, p, n, i, ptr);
    pages' := pages - {p};
    stats' := OneLess(stats, pages[p].requested);
    s' := Reduced(s, p, n, i);
    RunGiven(s, free, s', p, n);
  }

  lemma RunGiven(s: Heap, free: set<nat>, s': Heap, p: nat, n: nat)
    requires PagesOk(s) && p in s.pages && s.pages[p].LargePage? && n == s.pages[p].count
    requires s'.holder == s.holder - Span(p, n) && |s'.mem| == |s.mem|
    ensures Pooled(s, free, s', free + Span(p, n))
  {
    assert Speaks(s, p);
    forall q | q in Span(p, n) ensures q in s.holder { SpanMember(p, n, q); }
    FramesGiven(s, free, s', Span(p, n));
  }

  method RemoveCache(caches: seq<Cache>, pages: map<nat, Page>, stats: Stats, c: nat, n: nat, blank: Cache,
                     ghost s: Heap, ghost free: set<nat>, ghost registry: seq<nat>, ghost k: nat)
    returns (caches': seq<Cache>, pages': map<nat, Page>, stats': Stats, ghost s': Heap)
    requires HeapOk(s, free) && Real(s, s.mem, caches, pages, stats, s.total)
    requires TableOk(caches, registry) && k < |registry| && registry[k] == c && 7 <= c
    requires c < |caches| && caches[c].active && caches[c].liveObjects == 0 && n == caches[c].slabCount
    requires IsBlank(blank)
    ensures HeapOk(s', free + caches[c].slabs.Keys) && PayloadsKept(s, s') && s'.live == s.live
    ensures Real(s', s.mem, caches', pages', stats', s.total) && caches' == caches[c := blank]
    ensures TableOk(caches', RemoveAt(registry, k))
    ensures Pooled(s, free, s', free + caches[c].slabs.Keys)
  {
    ghost var none := BlankShadow();
    TableRemoves(caches, registry, c, k, blank);
    DestroyKeeps(s, free, c, blank, none);
    caches', pages', stats' := caches[c := blank], pages - caches[c].slabs.Keys,
        stats.(slabPages := stats.slabPages - n);
    s' := Destroyed(s, c, blank, none);
    SlabsGiven(s, free, s', c);
  }

  // ----- statistics

  /** `snapshot_list` */
  method SnapshotList(slabs: Slabs, head: nat, ghost l: seq<nat>, ghost k: Kind, ghost count: nat)
    returns (slabCount: nat, total: nat, free: nat)
    requires ListOk(slabs, head, l, k) && forall p | p in slabs :: slabs[p].count == count
    ensures slabCount == |l| && total == Offset(count, |l|) && free == FreeSum(slabs, l)
  {
    var p := head;
    ghost var rest := l;
    slabCount, total, free := 0, 0, 0;
    while p != 0
      invariant slabCount <= |l| && rest == l[slabCount..] && p == At(l, slabCount) && total == Offset(count, slabCount)
      invariant free + FreeSum(slabs, rest) == FreeSum(slabs, l)
      decreases |l| - slabCount
    {
      assert NodeOk(slabs, l, slabCount, k) && rest[0] == p;
      rest := rest[1..];
      slabCount, total, free, p := slabCount + 1, total + slabs[p].count, free + slabs[p].free, slabs[p].next;
    }
    ListEnd(slabs, head, l, k, slabCount);
  }

  datatype CacheStats = CacheStats(slabs: nat, empty: nat, partial: nat, full: nat, total: nat, free: nat, live: nat,
                                   allocs: nat, frees: nat, growth: nat, returned: nat)

  /** `snapshot_cache_locked`: the figures it reports always agree with each other. */
  method SnapshotCache(c: Cache, ghost g: Shadow, ghost mem: Words) returns (r: CacheStats)
    requires CacheOk(c, g, mem)
    ensures r.slabs == r.empty + r.partial + r.full == r.growth - r.returned && r.empty <= 1
    ensures r.live == r.total - r.free == r.allocs - r.frees
    ensures r.slabs == |c.slabs| && r.total == Offset(Count(c.layout), r.slabs)
  {
    ghost var n := Count(c.layout);
    forall p | p in c.slabs ensures c.slabs[p].count == n { assert PageOk(c.layout, p, c.slabs[p], g.chains[p], mem); }
    var e, te, fe := SnapshotList(c.slabs, c.heads.empty, g.lists.empty, Empty, n);
    var p, tp, fp := SnapshotList(c.slabs, c.heads.partial, g.lists.partial, Partial, n);
    var f, tf, ff := SnapshotList(c.slabs, c.heads.full, g.lists.full, Full, n);
    OffsetAdds(n, e, p);
    OffsetAdds(n, e + p, f);
    r := CacheStats(c.slabCount, e, p, f, te + tp + tf, fe + fp + ff, c.liveObjects, c.allocCount, c.freeCount,
                    c.growth, c.returned);
  }

  // ----- runs

  /** A call into the allocator. */
  datatype Call =
    | Malloc(size: Word, flags: Flags)
    | Calloc(count: Word, size: Word, flags: Flags)
    | Free(ptr: nat)
    | CreateCall(named: bool, objectSize: nat, alignment: nat)
    | AllocCall(cache: nat, flags: Flags)
    | FreeCall(cache: nat, ptr: nat)
    | DestroyCall(cache: nat)
    | Write(ptr: nat, a: nat, w: Word)

  class Kmem {
    const frames: PageFrameContainer
    var mem: Words
    /** The built-in caches, then the slots for named ones. */
    var caches: seq<Cache>
    /** Headers at page starts. */
    var pages: map<nat, Page>
    var stats: Stats
    /** Named caches in use, the newest first. */
    var registry: seq<nat>
    ghost var shadows: seq<Shadow>
    ghost var holder: map<nat, nat>
    ghost var live: map<nat, nat>
    ghost var bigs: seq<nat>

    /** `kmem_init` */
    constructor (frames: PageFrameContainer, mem: Words)
      requires frames.Valid() && frames.initialized
      requires forall f | f in frames.free :: 0 < f && f * 512 + 512 <= |mem|
      ensures Valid() && this.frames == frames && this.mem == mem && live == map[] && holder == map[] && registry == []
    {
      this.frames, this.mem := frames, mem;
      caches := seq(CACHE_SLOTS, i requires 0 <= i => if i < 7 then BuiltinCache(i) else BlankCache());
      pages, stats, registry := map[], Stats(0, 0, 0, 0, 0, 0, 0), [];
      shadows, holder, live, bigs := seq(CACHE_SLOTS, _ => BlankShadow()), map[], map[], [];
      new;
      Started(State(), frames.free);
    }

    /**
     The frames that are free or held by the allocator, which only moves frames between the two, and
     the size of memory.
     */
    ghost function Pool(): (set<nat>, nat)
      reads this, frames
    {
      (holder.Keys + frames.free, |mem|)
    }

    ghost function State(): Heap
      reads this, frames
    {
      Heap(mem, caches, pages, stats, shadows, holder, live, bigs, frames.pageCount)
    }

    ghost predicate Valid()
      reads this, frames, frames.bitmap
    {
      && frames.Valid() && frames.initialized && HeapOk(State(), frames.free) && TableOk(caches, registry)
      && HeadersOk(mem, caches, pages)
    }

    /** Take over a new state that matches the frames, and write its headers. */
    method Store(mem': Words, caches': seq<Cache>, pages': map<nat, Page>, stats': Stats, ghost s': Heap)
      requires frames.Valid() && frames.initialized && HeapOk(s', frames.free) && TableOk(caches', registry)
      requires Real(s', mem', caches', pages', stats', frames.pageCount)
      modifies this`mem, this`caches, this`pages, this`stats, this`shadows, this`holder, this`live, this`bigs
      ensures Valid() && State() == WithHeaders(s')
    {
      StoredKeeps(s', frames.free);
      Install(Stored(mem', caches', pages'), caches', pages', stats', WithHeaders(s'));
    }

    /** Write words to page `p`, which is free. */
    method LeaveInPage(p: nat, mem': Words)
      requires Valid() && p in frames.free && Untouched(mem, mem', p * 4096, p * 4096 + 4096)
      modifies this`mem
      ensures Valid() && State() == old(State()).(mem := mem') && PayloadsKept(old(State()), State())
      ensures Pool() == old(Pool())
    {
      FreePageWritten(State(), frames.free, p, mem');
      mem := mem';
    }

    /** Take over a new state that matches the frames and has its headers in place. */
    method Install(mem': Words, caches': seq<Cache>, pages': map<nat, Page>, stats': Stats, ghost s': Heap)
      requires frames.Valid() && frames.initialized && HeapOk(s', frames.free) && TableOk(caches', registry)
      requires Real(s', mem', caches', pages', stats', frames.pageCount) && HeadersOk(mem', caches', pages')
      modifies this`mem, this`caches, this`pages, this`stats, this`shadows, this`holder, this`live, this`bigs
      ensures Valid() && State() == s'
    {
      mem, caches, pages, stats := mem', caches', pages', stats';
      shadows, holder, live, bigs := s'.shadows, s'.holder, s'.live, s'.bigs;
    }

    /** `grow_cache`, tried when the cache has neither a partial nor an empty slab. */
    method GrowCache(c: nat) returns (ok: bool)
      requires Valid() && c < |caches| && caches[c].active && SelectSlab(caches[c].heads) == 0
      modifies this, frames`free, frames`freePageCount, frames.bitmap
      ensures Valid() && CacheGrown(old(State()), State(), c, ok)
      ensures ok <==> old(frames.free) != {}
      ensures Pool() == old(Pool())
    {
      ghost var s, free0 := State(), frames.free;
      var address;
      ok, address := frames.AllocateOne();
      if !ok { CacheGrownNot(s, free0, c); return; }
      var caches', mem', pages', stats', s' := AddPage(caches, mem, pages, stats, c, address / 4096, s, free0,
                                                       registry);
      KeptStored(s, s', frames.free);
      Store(mem', caches', pages', stats', s');
    }

    /** Take a slot from the slab the cache selects. */
    method AllocateFromSlab(c: nat, size: nat) returns (halted: bool, ptr: nat)
      requires Valid() && c < |caches| && caches[c].active && SelectSlab(caches[c].heads) != 0
      requires size <= caches[c].layout.size
      modifies this
      ensures !halted && Valid() && Allocated(old(State()), State(), ptr, size) && OfCache(State(), c, ptr)
      ensures |caches| == |old(caches)| && caches[c].layout == old(caches[c]).layout
      ensures Pool() == old(Pool())
    {
      ghost var s := State();
      assert SlotOk(s.caches[c], s.shadows[c], s.mem);
      Selected(caches[c], shadows[c], mem);
      var caches', stats';
      ghost var s';
      halted, caches', stats', ptr, s' := TakeFrom(caches, mem, stats, c, SelectSlab(caches[c].heads), size, s,
                                                   frames.free, registry);
      AllocatedStored(s, s', frames.free, ptr, size);
      Store(mem, caches', pages, stats', s');
    }

    /** `memset` of a payload. */
    method ClearObject(ptr: nat, size: nat)
      requires Valid() && IsObject(State(), ptr) && size == Usable(State(), ptr)
      modifies this
      ensures Valid() && State() == old(State()).(mem := mem) && IsObject(State(), ptr) && IsClear(State(), ptr)
      ensures Untouched(old(mem), mem, ptr, ptr + size)
      ensures Pool() == old(Pool())
    {
      var m := ClearPayload(mem, ptr, size, State(), frames.free);
      Install(m, caches, pages, stats, State().(mem := m));
    }

    /** `record_cache_failure` and `kmem_fail` */
    method Fail(c: nat, panicOnFail: bool) returns (r: Result)
      requires Valid() && c < |caches| && caches[c].active
      modifies this
      ensures Valid() && PayloadsKept(old(State()), State()) && live == old(live)
      ensures r == if panicOnFail then Halt else Null
      ensures Pool() == old(Pool())
    {
      ghost var s := State();
      var caches', stats', s' := RecordFailure(caches, stats, c, s, frames.free);
      TableSame(caches, registry, c, caches'[c]);
      HeadersSame(mem, caches, caches', pages);
      Install(mem, caches', pages, stats', s');
      r := if panicOnFail then Halt else Null;
    }

    /** Take an object of cache `c` from a slab it has, and clear it if asked. */
    method AllocateObject(c: nat, size: nat, zero: bool) returns (r: Result)
      requires Valid() && c < |caches| && caches[c].active && SelectSlab(caches[c].heads) != 0
      requires size <= caches[c].layout.size
      modifies this
      ensures Valid() && r.Object? && Served(old(State()), State(), r, size, zero) && OfCache(State(), c, r.ptr)
      ensures Pool() == old(Pool())
    {
      ghost var s := State();
      var halted, ptr := AllocateFromSlab(c, size);
      if halted { return Halt; }
      if zero {
        ghost var s1 := State();
        ClearObject(ptr, caches[c].layout.size);
        AllocatedCleared(s, s1, frames.free, ptr, size, mem);
      }
      r := Object(ptr);
    }

    /**
     `allocate_from_cache`: fails exactly when the cache has no free slot and may not or cannot grow;
     the machine stops instead when the caller asked for that.
     */
    method AllocateFromCache(c: nat, size: nat, flags: Flags) returns (r: Result)
      requires Valid() && c < |caches| && caches[c].active && size <= caches[c].layout.size
      modifies this, frames`free, frames`freePageCount, frames.bitmap
      ensures Valid() && Served(old(State()), State(), r, size, flags.zero)
      ensures (r.Object? ==> OfCache(State(), c, r.ptr))
      ensures r.Object? <==> CanServe(old(caches[c]), flags, old(frames.free))
      ensures r == Halt <==> !r.Object? && flags.panicOnFail
      ensures Pool() == old(Pool())
    {
      ghost var s := State();
      var attempted := false;
      while true
        invariant Valid() && PayloadsKept(s, State()) && live == s.live && Pool() == old(Pool())
        invariant c < |caches| && caches[c].active && size <= caches[c].layout.size
        invariant if attempted then !flags.noGrow && !flags.atomic && old(frames.free) != {} &&
                    SelectSlab(caches[c].heads) != 0
                  else State() == s && frames.free == old(frames.free)
        decreases if attempted then 0 else 1
      {
        ghost var s1 := State();
        if SelectSlab(caches[c].heads) != 0 {
          r := AllocateObject(c, size, flags.zero);
          ServedAfter(s, s1, State(), r, size, flags.zero);
          return;
        }
        if flags.noGrow || flags.atomic || attempted {
          r := Fail(c, flags.panicOnFail);
          return;
        }
        var grown := GrowCache(c);
        if !grown {
          r := Fail(c, flags.panicOnFail);
          return;
        }
        attempted := true;
      }
    }

    /** `kmem_fail`, of a large request if `large`. */
    method FailRequest(large: bool, panicOnFail: bool) returns (r: Result)
      requires Valid()
      modifies this
      ensures Valid() && PayloadsKept(old(State()), State()) && live == old(live)
      ensures r == if panicOnFail then Halt else Null
      ensures Pool() == old(Pool())
    {
      ghost var s := State();
      var stats' := stats.(failed := stats.failed + 1, failedLarges := stats.failedLarges + if large then 1 else 0);
      CountersOnly(s, s.(stats := stats'), frames.free);
      Install(mem, caches, pages, stats', s.(stats := stats'));
      r := if panicOnFail then Halt else Null;
    }

    /**
     `allocate_large`: fails exactly when it may not take frames, the size is too big, or no run of
     frames is free.
     */
    method AllocateLarge(size: Word, flags: Flags) returns (r: Result)
      requires Valid()
      modifies this, frames`free, frames`freePageCount, frames.bitmap
      ensures Valid() && Served(old(State()), State(), r, size, flags.zero)
      ensures r.Object? <==> CanServeLarge(size, flags, old(frames.free))
      ensures r == Halt <==> !r.Object? && flags.panicOnFail
      ensures Pool() == old(Pool())
    {
      var layout := LargeLayout(size);
      if flags.noGrow || flags.atomic || layout.None? {
        r := FailRequest(true, flags.panicOnFail);
        return;
      }
      r := TakeRun(layout.value, size, flags);
    }

    /** Take the lowest run of `n` free frames as one allocation. */
    method TakeRun(n: nat, size: nat, flags: Flags) returns (r: Result)
      requires Valid() && n > 0 && size <= n * 4096 - LARGE_OFFSET
      modifies this, frames`free, frames`freePageCount, frames.bitmap
      ensures Valid() && Served(old(State()), State(), r, size, flags.zero)
      ensures r.Object? <==> exists p: nat :: IsRun(old(frames.free), p, n)
      ensures r == Halt <==> !r.Object? && flags.panicOnFail
      ensures Pool() == old(Pool())
    {
      ghost var s, free0 := State(), frames.free;
      var ok, address := frames.AllocateRun(n);
      if ok {
        r := KeepRun(address / 4096, n, size, flags.zero, s, free0);
      } else {
        r := FailRequest(true, flags.panicOnFail);
      }
    }

    /** The frames of a run just taken become one allocation. */
    method KeepRun(p: nat, n: nat, size: nat, zero: bool, ghost s: Heap, ghost free0: set<nat>) returns (r: Result)
      requires frames.Valid() && frames.initialized && s == State() && HeapOk(s, free0) && TableOk(caches, registry)
      requires IsRun(free0, p, n) && frames.free == free0 - Span(p, n) && n > 0 && size <= n * 4096 - LARGE_OFFSET
      modifies this`mem, this`caches, this`pages, this`stats, this`shadows, this`holder, this`live, this`bigs
      ensures Valid() && r.Object? && Served(s, State(), r, size, zero)
      ensures Pool() == (s.holder.Keys + free0, |s.mem|)
    {
      var ptr := p * 4096 + LARGE_OFFSET;
      var mem', pages', stats', s' := Enlarge(mem, pages, stats, p, n, size, zero, ptr, s, free0);
      r := Object(ptr);
      ServedStored(s, s', frames.free, r, size, zero);
      Store(mem', caches, pages', stats', s');
    }

    /** `select_cache`: the smallest built-in cache that fits, 7 if none does. */
    method SelectCache(size: nat) returns (c: nat)
      requires Valid()
      ensures c == CacheFor(size) && (c < 7 ==> size <= caches[c].layout.size && caches[c].active)
    {
      c := 0;
      while c < 7
        invariant c <= 7 && forall i: nat | i < c :: BUILTIN_SIZES[i] < size
      {
        assert BuiltinAt(caches[c], c);
        if size <= caches[c].objectSize { return; }
        c := c + 1;
      }
      assert BUILTIN_SIZES[6] < size;
    }

    /** `kmalloc` */
    method Kmalloc(size: Word, flags: Flags) returns (r: Result)
      requires Valid()
      modifies this, frames`free, frames`freePageCount, frames.bitmap
      ensures Valid() && Served(old(State()), State(), r, size, flags.zero)
      ensures r.Object? <==> CanServeSize(old(caches), size, flags, old(frames.free))
      ensures r == Halt <==> !r.Object? && flags.panicOnFail
      ensures Pool() == old(Pool())
    {
      if size == 0 {
        r := FailRequest(false, flags.panicOnFail);
        return;
      }
      var c := SelectCache(size);
      if c == 7 {
        r := AllocateLarge(size, flags);
      } else {
        r := AllocateFromCache(c, size, flags);
      }
    }

    /**
     `kcalloc`: fails exactly if the product of count and size overflows or cannot be served; the
     payload comes cleared and has room for every element.
     */
    method Kcalloc(count: Word, size: Word, flags: Flags) returns (r: Result)
      requires Valid()
      modifies this, frames`free, frames`freePageCount, frames.bitmap
      ensures Valid() && (MulNonNeg(count, size); Served(old(State()), State(), r, count * size, true))
      ensures r.Object? <==>
                (MulNonNeg(count, size);
                 count * size < WORD_LIMIT &&
                 CanServeSize(old(caches), count * size, flags.(zero := true), old(frames.free)))
      ensures r.Object? ==> forall i: nat | i < count :: ElementFits(State(), r.ptr, i, size)
      ensures r == Halt <==> !r.Object? && flags.panicOnFail
      ensures Pool() == old(Pool())
    {
      MulNonNeg(count, size);
      var total: nat := count * size;
      if total >= WORD_LIMIT {
        r := FailRequest(false, flags.panicOnFail);
        return;
      }
      r := Kmalloc(total, flags.(zero := true));
      if r.Object? { ElementsFit(State(), r.ptr, count, size); }
    }

    /** `release_large_allocation`; its corruption checks never fire on a header the allocator wrote. */
    method ReleaseLarge(p: nat, ghost ptr: nat) returns (halted: bool)
      requires Valid() && p in pages && pages[p].LargePage? && ptr == p * 4096 + LARGE_OFFSET
      modifies this, frames`free, frames`freePageCount, frames.bitmap
      ensures !halted && Valid() && Released(old(State()), State(), ptr)
      ensures Pool() == old(Pool())
    {
      ghost var s := State();
      halted := ReleasePages(p, ptr);
      ghost var s1 := State();
      ClearHeader(p);
      ReleasedAfter(s, s1, State(), ptr);
    }

    method ReleasePages(p: nat, ghost ptr: nat) returns (halted: bool)
      requires Valid() && p in pages && pages[p].LargePage? && ptr == p * 4096 + LARGE_OFFSET
      modifies this, frames`free, frames`freePageCount, frames.bitmap
      ensures !halted && Valid() && Released(old(State()), State(), ptr) && p in frames.free
      ensures Pool() == old(Pool())
    {
      ghost var s, free0 := State(), frames.free;
      LargeReads(s, p);
      var n, size, base := PageCountAt(mem, p), WordOf(mem, p, 3), WordOf(mem, p, 2);
      ghost var i := BigCounted(s, p);
      LargeFrames(s, free0, p, n);
      if n == 0 || stats.larges == 0 || stats.largeBytes < size { return true; }
      assert base % 4096 == 0 && base / 4096 == p;
      halted := FreeFrames(frames, base, n);
      if halted { return; }
      assert frames.free == free0 + Span(p, n);
      var pages', stats', s' := Reduce(pages, stats, p, s, free0, n, i, ptr);
      ReleasedStored(s, s', frames.free, ptr);
      Store(mem, caches, pages', stats', s');
      SpanMember(p, n, p);
    }

    /** `memset` of the header of a multi-page allocation that is gone. */
    method ClearHeader(p: nat)
      requires Valid() && p in frames.free
      modifies this`mem
      ensures Valid() && PayloadsKept(old(State()), State()) && State() == old(State()).(mem := mem)
      ensures Pool() == old(Pool())
    {
      var cleared := ClearPageStart(mem, p);
      LeaveInPage(p, cleared);
    }

    /** `free_object` on a slab page. */
    method FreeSlot(c: nat, p: nat, ptr: nat) returns (halted: bool)
      requires Valid() && c < |caches| && p in caches[c].slabs && ptr / 4096 == p
      modifies this, frames`free, frames`freePageCount, frames.bitmap
      ensures halted <==> ptr !in old(live)
      ensures !halted ==> Valid() && Released(old(State()), State(), ptr) && Pool() == old(Pool())
    {
      ghost var s, free0 := State(), frames.free;
      var caches', mem', pages', stats', release;
      ghost var s';
      halted, caches', mem', pages', stats', release,
          s' := GiveBack(caches, mem, pages, stats, c, p, ptr, s, free0, registry);
      assert ptr in s.live <==> IsObject(s, ptr);
      if halted { return; }
      PageOf(s, c, p);
      var l, h := caches[c].layout, caches[c].slabs[p];
      PutBack(mem', caches', pages', stats', s', p, release, s, free0, ptr);
      if release { LeaveHeader(c, l, p, Slab(h.count, h.free + 1, h.objectSize, ptr, 0, 0, NoList), s, ptr); }
    }

    /** Store the state after an object went back, and free its page if it went too. */
    method PutBack(mem': Words, caches': seq<Cache>, pages': map<nat, Page>, stats': Stats, ghost s': Heap, p: nat,
                   release: bool,
                   ghost s: Heap, ghost free0: set<nat>, ghost ptr: nat)
      requires frames.Valid() && frames.initialized && frames.free == free0 && p < frames.pageCount && p !in free0
      requires s == State()
      requires HeapOk(s', if release then free0 + {p} else free0) && TableOk(caches', registry)
      requires Real(s', mem', caches', pages', stats', frames.pageCount) && Released(s, s', ptr)
      requires Pooled(s, free0, s', if release then free0 + {p} else free0)
      modifies this`mem, this`caches, this`pages, this`stats, this`shadows, this`holder, this`live, this`bigs
      modifies frames`free, frames`freePageCount, frames.bitmap
      ensures Valid() && Released(s, State(), ptr) && Pool() == old(Pool()) && (release ==> p in frames.free)
    {
      if release { var ok := FreeFrame(frames, p); }
      ReleasedStored(s, s', frames.free, ptr);
      Store(mem', caches', pages', stats', s');
    }

    method LeaveHeader(c: nat, l: Layout, p: nat, slab: Slab, ghost s: Heap, ghost ptr: nat)
      requires Valid() && p in frames.free && Released(s, State(), ptr)
      modifies this`mem
      ensures Valid() && Released(s, State(), ptr)
      ensures Pool() == old(Pool())
    {
      ghost var s1 := State();
      LeaveInPage(p, LeftHeader(mem, c, l, p, slab));
      ReleasedAfter(s, s1, State(), ptr);
    }

    /** `release_large_allocation` on words that are no header. */
    method ReleaseForeign(p: nat) returns (r: Verdict)
      requires frames.Valid() && frames.initialized
      modifies this, frames`free, frames`freePageCount, frames.bitmap
      ensures r == if LargePasses(old(mem), old(stats), old(frames.free), frames.pageCount, p) then Freed else Stopped
    {
      var n, size, base := PageCountAt(mem, p), WordOf(mem, p, 3), WordOf(mem, p, 2);
      ghost var passes := LargePasses(mem, stats, frames.free, frames.pageCount, p);
      if n == 0 || stats.larges == 0 || stats.largeBytes < size { return Stopped; }
      assert passes <==> base % 4096 == 0 && InUse(frames.free, frames.pageCount, base / 4096, n);
      stats := OneLess(stats, size);
      if p * 512 + LARGE_WORDS <= |mem| { mem := ClearWords(mem, p * 4096, p * 4096 + LARGE_WORDS * 8); }
      var halted := FreeFrames(frames, base, n);
      r := if halted then Stopped else Freed;
    }

    /** `free_object_locked` on words that are no header, and the page return that may follow. */
    method FreeForeign(c: nat, p: nat, ptr: nat) returns (r: Verdict)
      requires frames.Valid() && frames.initialized && c < |caches|
      modifies this, frames`free, frames`freePageCount, frames.bitmap
      ensures r == SlabVerdict(old(mem), old(caches[c]), p, ptr)
      ensures r == Freed ==> Tricked(old(caches), old(pages), caches, pages, old(mem), c, p) && live == old(live)
    {
      r := SlabVerdict(mem, caches[c], p, ptr);
      if r != Freed { return; }
      var page := WordOf(mem, p, 3);
      var c', release := GiveForeign(mem, caches[c], p, ptr);
      stats := stats.(frees := stats.frees + 1, slabPages := if release &&
                      stats.slabPages > 0 then stats.slabPages - 1 else stats.slabPages);
      caches := caches[c := c'];
      if ptr / 8 < |mem| { mem := SetWord(mem, ptr, WordOf(mem, p, 5)); }
      if release { var ok := frames.FreePage(page); }
    }

    /**
     `kfree` and `kmem_cache_free`, the latter with the cache the caller expects.  It reads the magic
     at the start of the page and trusts it.  On a page with a header, or without a magic, the
     machine stops exactly when the pointer is no live object (of that cache), and otherwise exactly
     that object goes.  On any other page the words found there decide.
     */
    method FreeObject(ptr: nat, expected: Option<nat>) returns (r: Verdict)
      requires Valid()
      modifies this, frames`free, frames`freePageCount, frames.bitmap
      ensures ptr == 0 ==> r == Freed && Valid() && State() == old(State()) && Pool() == old(Pool())
      ensures ptr != 0 && !Foreign(old(mem), old(pages), ptr) ==>
                if ptr in old(live) && (expected.Some? ==> OfCache(old(State()), expected.value, ptr))
                then r == Freed && Valid() && Released(old(State()), State(), ptr) &&
                    Pool() == old(Pool()) else r == Stopped
      ensures ptr != 0 && Foreign(old(mem), old(pages), ptr) ==>
                && ptr !in old(live)
                && r == ForeignVerdict(old(mem), old(caches), old(stats), old(frames.free), frames.pageCount, ptr,
                                       expected)
      ensures ptr != 0 && Foreign(old(mem), old(pages), ptr) && r == Freed ==>
                var route := RouteOf(old(mem), old(caches), ptr, expected);
                route.ToSlab? ==> Tricked(old(caches), old(pages), caches, pages, old(mem), route.cache,
                                          ptr / 4096) && live == old(live)
    {
      if ptr == 0 { return Freed; }
      ghost var s := State();
      assert ptr in s.live <==> IsObject(s, ptr);
      RouteReads(s, ptr, expected);
      match RouteOf(mem, caches, ptr, expected) {
        case Stop => r := Stopped;
        case Stray => r := Strayed;
        case ToLarge => r := FreeLarge(ptr / 4096, ptr);
        case ToSlab(c) => r := FreeInSlab(c, ptr / 4096, ptr);
      }
    }

    method FreeLarge(p: nat, ghost ptr: nat) returns (r: Verdict)
      requires Valid() && (p in pages ==> pages[p].LargePage? && ptr == p * 4096 + LARGE_OFFSET)
      modifies this, frames`free, frames`freePageCount, frames.bitmap
      ensures p in old(pages) ==> r == Freed && Valid() && Released(old(State()), State(), ptr) && Pool() == old(Pool())
      ensures p !in old(pages) ==>
                r == if LargePasses(old(mem), old(stats), old(frames.free), frames.pageCount, p) then Freed else Stopped
    {
      if p in pages {
        var halted := ReleaseLarge(p, ptr);
        r := if halted then Stopped else Freed;
      } else {
        r := ReleaseForeign(p);
      }
    }

    method FreeInSlab(c: nat, p: nat, ptr: nat) returns (r: Verdict)
      requires Valid() && c < |caches| && ptr / 4096 == p && (p in pages ==> p in caches[c].slabs)
      modifies this, frames`free, frames`freePageCount, frames.bitmap
      ensures p in old(pages) ==> if ptr in old(live) then r == Freed && Valid() &&
                Released(old(State()), State(), ptr) && Pool() == old(Pool())
                                  else r == Stopped
      ensures p !in old(pages) ==> r == SlabVerdict(old(mem), old(caches[c]), p, ptr)
      ensures p !in old(pages) && r == Freed ==>
                Tricked(old(caches), old(pages), caches, pages, old(mem), c, p) && live == old(live)
    {
      if p in pages {
        var halted := FreeSlot(c, p, ptr);
        r := if halted then Stopped else Freed;
      } else {
        r := FreeForeign(c, p, ptr);
      }
    }

    /** `kmem_cache_create`: the first unused slot of the table, if the parameters are valid and one is left. */
    method CacheCreate(named: bool, objectSize: nat, alignment: nat) returns (r: Option<nat>)
      requires Valid()
      modifies this
      ensures Valid() && PayloadsKept(old(State()), State()) && live == old(live)
      ensures r.Some? <==> named && NamedLayout(objectSize, alignment).Some? &&
                           exists i: nat :: 7 <= i < CACHE_SLOTS && !old(caches)[i].active
      ensures r.Some? ==>
                7 <= r.value < CACHE_SLOTS && !old(caches)[r.value].active &&
                registry == [r.value] + old(registry)
      ensures r.Some? ==> NamedLayout(objectSize, alignment).Some? &&
                          caches == old(caches)[r.value := FreshCache(objectSize,
                                                                      NamedLayout(objectSize, alignment).value)]
      ensures r.None? ==> State() == old(State())
      ensures Pool() == old(Pool())
    {
      var layout := NamedLayout(objectSize, alignment);
      if !named || layout.None? { return None; }
      var i := FindUnused();
      if i == CACHE_SLOTS { return None; }
      Create(i, objectSize, layout.value);
      r := Some(i);
    }

    /** The first unused slot of the table for named caches. */
    method FindUnused() returns (i: nat)
      requires |caches| == CACHE_SLOTS
      ensures 7 <= i <= CACHE_SLOTS && (i < CACHE_SLOTS ==> !caches[i].active) && forall j: nat | 7 <= j < i ::
                caches[j].active
    {
      i := 7;
      while i < CACHE_SLOTS
        invariant 7 <= i <= CACHE_SLOTS && forall j: nat | 7 <= j < i :: caches[j].active
      {
        if !caches[i].active { return; }
        i := i + 1;
      }
    }

    method Create(i: nat, objectSize: nat, layout: Layout)
      requires Valid() && 7 <= i < CACHE_SLOTS && !caches[i].active && ValidLayout(layout) && objectSize <= layout.size
      modifies this
      ensures Valid() && PayloadsKept(old(State()), State()) && live == old(live)
      ensures caches == old(caches)[i := FreshCache(objectSize, layout)] && registry == [i] + old(registry)
      ensures Pool() == old(Pool())
    {
      ghost var s := State();
      var c := FreshCache(objectSize, layout);
      var caches' := caches[i := c];
      CreateKeeps(s, s.(caches := caches'), frames.free, i, c);
      TableAdds(caches, registry, i, c);
      assert SlotOk(s.caches[i], s.shadows[i], s.mem);
      HeadersSame(mem, caches, caches', pages);
      registry := [i] + registry;
      Install(mem, caches', pages, stats, s.(caches := caches'));
    }

    /** `kmem_cache_alloc` */
    method CacheAlloc(c: nat, flags: Flags) returns (r: Result)
      requires Valid() && c < CACHE_SLOTS
      modifies this, frames`free, frames`freePageCount, frames.bitmap
      ensures Valid() && Served(old(State()), State(), r, old(caches[c]).objectSize, flags.zero)
      ensures r.Object? <==> old(caches[c]).active && CanServe(old(caches[c]), flags, old(frames.free))
      ensures r.Object? ==> OfCache(State(), c, r.ptr)
      ensures Pool() == old(Pool())
    {
      if !caches[c].active { return Null; }
      assert SlotOk(State().caches[c], State().shadows[c], State().mem);
      r := AllocateFromCache(c, caches[c].objectSize, flags);
    }

    /** `kmem_cache_free` */
    method CacheFree(c: nat, ptr: nat) returns (r: Verdict)
      requires Valid() && c < CACHE_SLOTS
      modifies this, frames`free, frames`freePageCount, frames.bitmap
      ensures ptr == 0 ==> r == Freed && Valid() && State() == old(State()) && Pool() == old(Pool())
      ensures ptr != 0 && (!old(caches[c]).active || !Foreign(old(mem), old(pages), ptr)) ==>
                if ptr in old(live) && OfCache(old(State()), c, ptr)
                then r == Freed && Valid() && Released(old(State()), State(), ptr) &&
                    Pool() == old(Pool()) else r == Stopped
      ensures ptr != 0 && old(caches[c]).active && Foreign(old(mem), old(pages), ptr) ==>
                && ptr !in old(live)
                && r == ForeignVerdict(old(mem), old(caches), old(stats), old(frames.free), frames.pageCount, ptr,
                                       Some(c))
    {
      if ptr == 0 { return Freed; }
      if !caches[c].active {
        InactiveHasNone(State(), c, ptr);
        return Stopped;
      }
      r := FreeObject(ptr, Some(c));
    }

    /** `release_cache_slabs` and `reset_named_cache_slot` */
    method ReleaseCache(c: nat, k: nat) returns (halted: bool)
      requires Valid() && 7 <= c < CACHE_SLOTS && caches[c].active && caches[c].liveObjects == 0
      requires k < |registry| && registry[k] == c
      modifies this, frames`free, frames`freePageCount, frames.bitmap
      ensures !halted && Valid() && caches == old(caches)[c := BlankCache()] && registry == RemoveAt(old(registry), k)
      ensures frames.free == old(frames.free) + old(caches[c]).slabs.Keys && PayloadsKept(old(State()), State())
      ensures live == old(live)
      ensures Pool() == old(Pool())
    {
      ghost var s, free0 := State(), frames.free;
      var slabs, heads := caches[c].slabs, caches[c].heads;
      ghost var lists := shadows[c].lists;
      IdleLists(s, free0, c);
      var n;
      halted, n := ReleaseLists(frames, slabs, heads, stats.slabPages, lists);
      if halted { return; }
      ForgetCache(c, k, n, s, free0);
    }

    /** Empty the slot of cache `c`, whose pages are free again. */
    method ForgetCache(c: nat, k: nat, n: nat, ghost s: Heap, ghost free0: set<nat>)
      requires frames.Valid() && frames.initialized && s == State() && HeapOk(s, free0) && TableOk(caches, registry)
      requires 7 <= c < CACHE_SLOTS && caches[c].active && caches[c].liveObjects == 0 && n == caches[c].slabCount
      requires k < |registry| && registry[k] == c && frames.free == free0 + caches[c].slabs.Keys
      modifies this
      ensures Valid() && caches == old(caches)[c := BlankCache()] && registry == RemoveAt(old(registry), k)
      ensures PayloadsKept(s, State()) && live == old(live) && Pool() == (s.holder.Keys + free0, |s.mem|)
    {
      var blank := BlankCache();
      var caches', pages', stats', s' := RemoveCache(caches, pages, stats, c, n, blank, s, free0, registry, k);
      registry := RemoveAt(registry, k);
      KeptStored(s, s', frames.free);
      Store(mem, caches', pages', stats', s');
    }

    /** `named_cache_is_registered_locked`: the position in the registry, its length if absent. */
    method FindRegistered(c: nat) returns (k: nat)
      ensures k <= |registry| && (k < |registry| ==> registry[k] == c) && (k == |registry| ==> c !in registry)
    {
      k := 0;
      while k < |registry|
        invariant k <= |registry| && forall j: nat | j < k :: registry[j] != c
      {
        if registry[k] == c { return; }
        k := k + 1;
      }
    }

    /** `kmem_cache_destroy`: only a named cache without live objects goes, and its pages are free again. */
    method CacheDestroy(c: nat) returns (ok: bool)
      requires Valid() && c < CACHE_SLOTS
      modifies this, frames`free, frames`freePageCount, frames.bitmap
      ensures ok <==> !old(caches[c]).builtin && old(caches[c]).active && old(caches[c]).liveObjects == 0
      ensures Valid() && PayloadsKept(old(State()), State()) && live == old(live)
      ensures ok ==> caches == old(caches)[c := BlankCache()] && c !in registry
      ensures ok ==> frames.free == old(frames.free) + old(caches[c]).slabs.Keys
      ensures !ok ==> State() == old(State())
      ensures Pool() == old(Pool())
    {
      if caches[c].builtin || !caches[c].active { return false; }
      var k := FindRegistered(c);
      if k == |registry| || caches[c].liveObjects != 0 { return false; }
      var halted := ReleaseCache(c, k);
      ok := !halted;
    }

    /** The holder of a live payload writes one of its words: nothing else in the allocator notices. */
    method StoreWord(ptr: nat, a: nat, w: Word)
      requires Valid() && ptr in live && a % 8 == 0 && ptr <= a && a + 8 <= ptr + Usable(State(), ptr)
      modifies this
      ensures Valid() && WordAt(mem, a) == w && State() == old(State()).(mem := mem)
      ensures Untouched(old(mem), mem, a, a + 8)
      ensures forall q: nat | q in live && q != ptr :: SamePayload(old(State()), mem, q)
      ensures Pool() == old(Pool())
    {
      ghost var s := State();
      assert IsObject(s, ptr);
      PayloadInMemory(s, ptr);
      var m := SetWord(mem, a, w);
      assert Untouched(mem, m, a, a + 8);
      ClearedKeeps(s, frames.free, ptr, m);
      HeadersBesidePayload(s, ptr, m);
      Install(m, caches, pages, stats, s.(mem := m));
      forall q: nat | q in live && q != ptr ensures SamePayload(s, mem, q) { assert IsObject(s, q); }
    }

    method Perform(call: Call) returns (r: Verdict)
      requires Valid()
      modifies this, frames`free, frames`freePageCount, frames.bitmap
      ensures r == Freed && !Trusts(call, old(mem), old(pages)) ==> Valid() && Pool() == old(Pool())
      ensures r == Strayed ==> Trusts(call, old(mem), old(pages))
    {
      r := Freed;
      match call {
        case Malloc(size, flags) =>
          var o := Kmalloc(size, flags);
          if o.Halt? { r := Stopped; }
        case Calloc(count, size, flags) =>
          var o := Kcalloc(count, size, flags);
          if o.Halt? { r := Stopped; }
        case Free(ptr) => r := FreeObject(ptr, None);
        case CreateCall(named, objectSize, alignment) => var o := CacheCreate(named, objectSize, alignment);
        case AllocCall(c, flags) =>
          if c < CACHE_SLOTS {
            var o := CacheAlloc(c, flags);
            if o.Halt? { r := Stopped; }
          }
        case FreeCall(c, ptr) => if c < CACHE_SLOTS { r := CacheFree(c, ptr); }
        case DestroyCall(c) => if c < CACHE_SLOTS { var ok := CacheDestroy(c); }
        case Write(ptr, a, w) =>
          var inside := InPayload(ptr, a);
          if inside { StoreWord(ptr, a, w); }
      }
    }

    /** The word at `a` lies in the live payload `ptr`. */
    method InPayload(ptr: nat, a: nat) returns (inside: bool)
      requires Valid()
      ensures inside <==> ptr in live && a % 8 == 0 && ptr <= a && a + 8 <= ptr + Usable(State(), ptr)
    {
      ghost var s := State();
      assert ptr in s.live <==> IsObject(s, ptr);
      var p := ptr / 4096;
      if p !in pages || a % 8 != 0 || a < ptr { return false; }
      assert Speaks(s, p);
      match pages[p] {
        case LargePage(n, _, usable) => inside := ptr == p * 4096 + LARGE_OFFSET && a + 8 <= ptr + usable;
        case SlabPage(c) =>
          var taken := IsTaken(caches[c], p, ptr, mem, shadows[c]);
          inside := taken && a + 8 <= ptr + caches[c].layout.size;
      }
    }

    /**
     Any sequence of calls, with writes to live payloads in between, keeps the invariant and so the
     payloads safe, until the machine stops or a call frees a foreign pointer.
     */
    method Run(calls: seq<Call>) returns (r: Verdict, done: nat)
      requires Valid()
      modifies this, frames`free, frames`freePageCount, frames.bitmap
      ensures done <= |calls| && (r == Freed <==> done == |calls|)
      ensures r != Stopped ==> Valid() && Safe(State(), frames.free) && Pool() == old(Pool())
      ensures r == Strayed ==> done < |calls| && Trusts(calls[done], mem, pages)
    {
      r, done := Freed, 0;
      while done < |calls| && r == Freed
        invariant done <= |calls| && (r != Freed ==> done < |calls|)
        invariant r != Stopped ==> Valid() && Pool() == old(Pool())
        invariant r == Strayed ==> Trusts(calls[done], mem, pages)
        decreases |calls| - done, r == Freed
      {
        if Trusts(calls[done], mem, pages) {
          r := Strayed;
        } else {
          r := Perform(calls[done]);
          if r == Freed { done := done + 1; }
        }
      }
      if r != Stopped { HeapSafe(State(), frames.free); }
    }
  }

  /**
   Cache `c` counts an object fewer, and page `p`, which has no header, heads one of its lists
   unless it was returned.
   */
  ghost predicate Tricked(caches: seq<Cache>, pages: map<nat, Page>, caches': seq<Cache>, pages': map<nat, Page>,
                          mem: Words, c: nat, p: nat)
  {
    && c < |caches| == |caches'| && caches'[c].liveObjects + 1 == caches[c].liveObjects
    && pages' == pages && (!Fills(mem, p) ==> p in caches'[c].slabs && caches'[c].heads.partial == p)
  }

  /** The call frees a pointer whose page has no header but a magic. */
  predicate Trusts(call: Call, mem: Words, pages: map<nat, Page>)
  {
    match call
    case Free(ptr) => ptr != 0 && Foreign(mem, pages, ptr)
    case FreeCall(_, ptr) => ptr != 0 && Foreign(mem, pages, ptr)
    case _ => false
  }

  /** Whether slot `ptr` of a page is in use. */
  method IsTaken(c: Cache, p: nat, ptr: nat, mem: Words, ghost g: Shadow) returns (taken: bool)
    requires SlotOk(c, g, mem) && p in c.slabs && ptr / 4096 == p
    ensures taken <==> IsLive(c, g, ptr)
  {
    var s := c.slabs[p];
    assert PageOk(c.layout, p, s, g.chains[p], mem);
    var i := SlotIndex(p, c.layout, s.count, ptr);
    if i.None? { return false; }
    SlotIndexExact(p, c.layout, ptr, i.value);
    var found := PointerOnFreeList(mem, p, c.layout, s.count, s.freeList, ptr, g.chains[p]);
    OnChain(p, c.layout, g.chains[p], i.value);
    taken := found == Found(false);
  }

  // ----- what the invariant means for callers

  /**
   A live payload: at least the size asked for, aligned, behind the header of its page, in frames
   that are tracked and busy.
   */
  ghost predicate SafePayload(s: Heap, free: set<nat>, q: nat)
  {
    && IsObject(s, q) && q in s.live && s.live[q] <= Usable(s, q)
    && (match s.pages[q / 4096]
        case SlabPage(c) => c < |s.caches| && s.caches[c].layout.align > 0 && q % s.caches[c].layout.align == 0 &&
            q >= q / 4096 * 4096 + SLAB_HEADER_SIZE
        case LargePage(_, _, _) => q % 16 == 0 && q == q / 4096 * 4096 + LARGE_OFFSET)
    && (forall f: nat | q / 4096 <= f && f * 4096 < q + Usable(s, q) ::
        f !in free && f < s.total && (f in s.pages ==> f == q / 4096))
  }

  /** Every live payload is safe and no two overlap. */
  ghost predicate Safe(s: Heap, free: set<nat>)
  {
    && (forall q | q in s.live :: SafePayload(s, free, q))
    && (forall x, y | x in s.live && y in s.live && x < y :: SafePayload(s, free, x) && x + Usable(s, x) <= y)
  }

  lemma PayloadSafe(s: Heap, free: set<nat>, q: nat)
    requires HeapOk(s, free) && q in s.live
    ensures SafePayload(s, free, q)
  {
    assert IsObject(s, q) && s.live[q] <= Usable(s, q);
    PayloadBounds(s, q);
    assert Speaks(s, q / 4096);
    forall f: nat | q / 4096 <= f && f * 4096 < q + Usable(s, q)
      ensures f !in free && f < s.total && (f in s.pages ==> f == q / 4096)
    {
      PayloadFrame(s, free, q, f);
    }
    PayloadAligned(s, q);
  }

  lemma PayloadFrame(s: Heap, free: set<nat>, q: nat, f: nat)
    requires CachesOk(s) && PagesOk(s) && FreeOk(s, free) && IsObject(s, q) && q / 4096 <= f
    requires f * 4096 < q + Usable(s, q)
    ensures f !in free && f < s.total && (f in s.pages ==> f == q / 4096)
  {
    PayloadHeld(s, q, f);
    if f in s.pages { HeadOfRun(s, f); }
  }

  lemma PayloadAligned(s: Heap, q: nat)
    requires CachesOk(s) && PagesOk(s) && IsObject(s, q)
    ensures match s.pages[q / 4096]
            case SlabPage(c) => c < |s.caches| && s.caches[c].layout.align > 0 && q % s.caches[c].layout.align == 0
            case LargePage(_, _, _) => q % 16 == 0
  {
    PayloadBounds(s, q);
    assert Speaks(s, q / 4096);
    match s.pages[q / 4096] {
      case SlabPage(c) => assert SlotOk(s.caches[c], s.shadows[c], s.mem);
      case LargePage(_, _, _) => assert (q / 4096 * 4096) % 16 == 0;
    }
  }

  lemma HeapSafe(s: Heap, free: set<nat>)
    requires HeapOk(s, free)
    ensures Safe(s, free)
  {
    forall q | q in s.live ensures SafePayload(s, free, q) { PayloadSafe(s, free, q); }
    forall x, y | x in s.live && y in s.live && x < y ensures x + Usable(s, x) <= y {
      assert IsObject(s, x) && IsObject(s, y);
      PayloadsApart(s, x, y);
    }
  }

  /** The header words of page `p`, as far as freeing reads them first. */
  lemma HeaderReads(s: Heap, p: nat)
    requires CachesOk(s) && PagesOk(s) && HeadersOk(s.mem, s.caches, s.pages)
    ensures p in s.pages ==>
              match s.pages[p]
              case SlabPage(c) => c < |s.caches| && p in s.caches[c].slabs &&
                  AllocationAt(s.mem, p) == SlabAllocation &&
                                  WordOf(s.mem, p, 4) == c + 1 && ObjectSizeAt(s.mem, p) == s.caches[c].layout.size
              case LargePage(_, _, _) =>
                  AllocationAt(s.mem, p) == LargeAllocation && LargeOffsetAt(s.mem, p) == LARGE_OFFSET
  {
    if p in s.pages {
      assert Speaks(s, p);
      match s.pages[p] {
        case SlabPage(c) =>
          assert SlotOk(s.caches[c], s.shadows[c], s.mem);
          SlabReads(s, c, p);
        case LargePage(_, _, _) => LargeReads(s, p);
      }
    }
  }

  /** On a page with a header the words lead where the header says. */
  lemma RouteReads(s: Heap, ptr: nat, expected: Option<nat>)
    requires CachesOk(s) && PagesOk(s) && HeadersOk(s.mem, s.caches, s.pages)
    ensures var p, route := ptr / 4096, RouteOf(s.mem, s.caches, ptr, expected);
            && (p !in s.pages && !Foreign(s.mem, s.pages, ptr) ==> route == Stop)
            && (p in s.pages ==> route != Stray)
            && (p in s.pages && route == Stop ==> !(IsObject(s, ptr) &&
                                                    (expected.Some? ==> OfCache(s, expected.value, ptr))))
            && (p in s.pages && route == ToLarge ==>
                s.pages[p].LargePage? && ptr == p * 4096 + LARGE_OFFSET && expected.None?)
            && (p in s.pages && route.ToSlab? ==>
                s.pages[p] == SlabPage(route.cache) && p in s.caches[route.cache].slabs &&
                (expected.Some? ==> expected.value == route.cache))
            && (route.ToSlab? ==> route.cache < |s.caches|)
  {
    HeaderReads(s, ptr / 4096);
  }

  lemma SlabsGiven(s: Heap, free: set<nat>, s': Heap, c: nat)
    requires PagesOk(s) && c < |s.caches| && s'.holder == s.holder - s.caches[c].slabs.Keys && |s'.mem| == |s.mem|
    ensures Pooled(s, free, s', free + s.caches[c].slabs.Keys)
  {
    forall p | p in s.caches[c].slabs ensures p in s.holder { PageOf(s, c, p); }
    FramesGiven(s, free, s', s.caches[c].slabs.Keys);
  }

  lemma OneElement(l: seq<nat>)
    requires |l| <= 1
    ensures Elements(l, |l|) == if l == [] then {} else {l[0]}
  {}

  /** The lists of an idle cache: at most one page, empty and held. */
  lemma IdleLists(s: Heap, free: set<nat>, c: nat)
    requires HeapOk(s, free) && c < |s.caches| && s.caches[c].active && s.caches[c].liveObjects == 0
    ensures var slabs, h, g := s.caches[c].slabs, s.caches[c].heads, s.shadows[c].lists;
            && ListsOk(slabs, h, g) && g.partial == [] && g.full == [] &&
                |g.empty| == s.caches[c].slabCount <= s.stats.slabPages
            && Elements(g.empty, |g.empty|) == slabs.Keys
            && forall p | p in g.empty :: p in slabs && slabs[p].free == slabs[p].count && p < s.total && p !in free
  {
    assert SlotOk(s.caches[c], s.shadows[c], s.mem);
    Idle(s.caches[c], s.shadows[c], s.mem);
    SlabSumAt(s.caches, c, s.caches[c].(slabCount := 0));
    forall p | p in s.shadows[c].lists.empty ensures p in s.caches[c].slabs && p < s.total && p !in free {
      PageOf(s, c, p);
    }
    OneElement(s.shadows[c].lists.empty);
  }

  lemma InactiveHasNone(s: Heap, c: nat, ptr: nat)
    requires CachesOk(s) && c < |s.caches| && !s.caches[c].active
    ensures !OfCache(s, c, ptr)
  {
    assert SlotOk(s.caches[c], s.shadows[c], s.mem);
  }

  lemma LargeFrames(s: Heap, free: set<nat>, p: nat, n: nat)
    requires PagesOk(s) && FreeOk(s, free) && p in s.pages && s.pages[p].LargePage? && n == s.pages[p].count
    ensures n > 0 && p + n <= s.total && forall q: nat | p <= q < p + n :: q !in free
  {
    assert Speaks(s, p);
    assert p + n - 1 in s.holder;
  }

  /** Element `i` of an array of `size`-byte elements lies in the payload. */
  ghost predicate ElementFits(s: Heap, ptr: nat, i: nat, size: nat)
    requires IsObject(s, ptr)
  {
    (i + 1) * size <= Usable(s, ptr)
  }

  lemma ElementsFit(s: Heap, ptr: nat, count: nat, size: nat)
    requires IsObject(s, ptr) && count * size <= Usable(s, ptr)
    ensures forall i: nat | i < count :: ElementFits(s, ptr, i, size)
  {
    forall i: nat | i < count ensures ElementFits(s, ptr, i, size) { MulMono(i + 1, count, size); }
  }

  /** The smallest built-in cache whose objects hold `size` bytes; 7 stands for none. */
  function CacheFor(size: nat): (c: nat)
    ensures c <= 7 && (c < 7 ==> size <= BUILTIN_SIZES[c]) && forall i: nat | i < c :: BUILTIN_SIZES[i] < size
  {
    if size <= 16 then 0 else if size <= 32 then 1 else if size <= 64 then 2 else if size <= 128 then 3
    else if size <= 256 then 4 else if size <= 512 then 5 else if size <= 1024 then 6 else 7
  }

  /** When `kmalloc` can serve a request. */
  ghost predicate CanServeSize(caches: seq<Cache>, size: Word, flags: Flags, free: set<nat>)
  {
    && size > 0
    && if CacheFor(size) == 7 then CanServeLarge(size, flags, free)
       else CacheFor(size) < |caches| && CanServe(caches[CacheFor(size)], flags, free)
  }

  ghost predicate CanServeLarge(size: Word, flags: Flags, free: set<nat>)
  {
    && !flags.noGrow && !flags.atomic && LargeLayout(size).Some?
    && exists p: nat :: IsRun(free, p, LargeLayout(size).value)
  }

  /** A slab with a free slot, or leave and a frame to grow. */
  ghost predicate CanServe(c: Cache, flags: Flags, free: set<nat>)
  {
    SelectSlab(c.heads) != 0 || (!flags.noGrow && !flags.atomic && free != {})
  }

  lemma WholeWords(l: Layout)
    requires ValidLayout(l)
    ensures l.size % 8 == 0
  {
    if l.align == 8 {
      assert l.size % 8 == 0;
    } else if l.align == 16 {
      assert l.size % 16 == 0;
    } else if l.align == 32 {
      assert l.size % 32 == 0;
    } else {
      assert l.size % 64 == 0;
    }
  }
}

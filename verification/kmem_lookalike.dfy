/**
 A magic number is all that marks a page as a slab.  The holder of a multi-page payload can write
 one: freeing an address behind it is then accepted although no object is there.
 */
module KmemLookalike {
  import opened Basics
  import opened Word64
  import opened KmemSlabs
  import opened KmemLists
  import opened KmemCaches
  import opened KmemHeap
  import opened KmemHeaders
  import opened KmemAllocator

  /** The words at the start of page `q` look like the header of a slab of cache `c` with two slots, both in use. */
  ghost predicate LooksLikeSlab(mem: Words, q: nat, c: nat, size: nat)
  {
    && WordOf(mem, q, 0) == SLAB_MAGIC + size * 0x1_0000_0000 + 2 * 0x1_0000_0000_0000
    && WordOf(mem, q, 1) == SLAB_HEADER_SIZE * 0x1_0000 + size * 0x1_0000_0000
    && WordOf(mem, q, 2) == 0 && WordOf(mem, q, 4) == c + 1 && WordOf(mem, q, 5) == 0
  }

  lemma LookalikeReads(mem: Words, q: nat, c: nat, size: nat)
    requires LooksLikeSlab(mem, q, c, size) && size < 0x1_0000
    ensures AllocationAt(mem, q) == SlabAllocation && ObjectSizeAt(mem, q) == size && ObjectCountAt(mem, q) == 2
    ensures FreeCountAt(mem, q) == 0 && FirstOffsetAt(mem, q) == SLAB_HEADER_SIZE && StrideAt(mem, q) == size
    ensures PayloadOffsetAt(mem, q) == 0 && KindAt(mem, q) == 0 && !Fills(mem, q)
  {
    Unpack(0x454D, 0x4B4D, size, 2);
    Unpack(0, SLAB_HEADER_SIZE, size, 0);
  }

  /** Every check of `free_object` passes on such words. */
  lemma LookalikePasses(mem: Words, caches: seq<Cache>, q: nat, c: nat, ptr: nat)
    requires c < |caches| && ValidLayout(caches[c].layout) && caches[c].liveObjects > 0
    requires LooksLikeSlab(mem, q, c, caches[c].layout.size) && ptr == q * 4096 + SLAB_HEADER_SIZE
    ensures ptr / 4096 == q && RouteOf(mem, caches, ptr, None) == ToSlab(c)
    ensures SlabVerdict(mem, caches[c], q, ptr) == Freed
  {
    var l := caches[c].layout;
    CountBound(l);
    WholeWords(l);
    LookalikeReads(mem, q, c, l.size);
    assert SlotAt(mem, q, ptr) == Some(0);
    assert SearchAt(mem, q, 0, ptr, 2) == Found(false);
  }

  /** The second page of a multi-page payload has no header, and its words are the holder's. */
  lemma SecondPage(s: Heap, big: nat, q: nat)
    requires CachesOk(s) && PagesOk(s) && IsObject(s, big) && Usable(s, big) >= 8192 && q == big / 4096 + 1
    ensures q !in s.pages && big <= q * 4096 && q * 4096 + 48 <= big + Usable(s, big)
  {
    PayloadBounds(s, big);
    assert Speaks(s, big / 4096);
    PayloadHeld(s, big, q);
    if q in s.pages { HeadOfRun(s, q); }
  }

  lemma KeepsWord(mem: Words, mem': Words, q: nat, i: nat, j: nat)
    requires Untouched(mem, mem', q * 4096 + i * 8, q * 4096 + i * 8 + 8) && i != j
    ensures WordOf(mem', q, j) == WordOf(mem, q, j)
  {}

  /** The holder writes word `i` of the second page. */
  method WriteSecond(k: Kmem, big: nat, q: nat, i: nat, w: Word)
    requires k.Valid() && IsObject(k.State(), big) && Usable(k.State(), big) >= 8192 && q == big / 4096 + 1 && i < 6
    modifies k
    ensures k.Valid() && k.State() == old(k.State()).(mem := k.mem)
    ensures IsObject(k.State(), big) && Usable(k.State(), big) >= 8192
    ensures WordOf(k.mem, q, i) == w && forall j: nat | j != i :: WordOf(k.mem, q, j) == old(WordOf(k.mem, q, j))
  {
    ghost var mem := k.mem;
    SecondPage(k.State(), big, q);
    k.StoreWord(big, q * 4096 + i * 8, w);
    forall j: nat | j != i ensures WordOf(k.mem, q, j) == WordOf(mem, q, j) { KeepsWord(mem, k.mem, q, i, j); }
  }

  method WriteLookalike(k: Kmem, big: nat, q: nat, c: nat)
    requires k.Valid() && IsObject(k.State(), big) && Usable(k.State(), big) >= 8192 && q == big / 4096 + 1
    requires c < |k.caches| && k.caches[c].layout.size < 0x1_0000 && c < CACHE_SLOTS
    modifies k
    ensures k.Valid() && k.State() == old(k.State()).(mem := k.mem) && IsObject(k.State(), big)
    ensures Usable(k.State(), big) >= 8192
    ensures LooksLikeSlab(k.mem, q, c, k.caches[c].layout.size)
  {
    var size := k.caches[c].layout.size;
    WriteSecond(k, big, q, 0, SLAB_MAGIC + size * 0x1_0000_0000 + 2 * 0x1_0000_0000_0000);
    WriteSecond(k, big, q, 1, SLAB_HEADER_SIZE * 0x1_0000 + size * 0x1_0000_0000);
    WriteSecond(k, big, q, 2, 0);
    WriteSecond(k, big, q, 4, c + 1);
    WriteSecond(k, big, q, 5, 0);
  }

  /**
   For every holder of at least two pages and every cache with a live object: after five writes to
   the payload, freeing an address in it that is no live object does not stop the machine.  The
   cache then counts an object too few and has a page that is none of the allocator's on its list,
   so the invariant is gone.
   */
  method FreeLookalike(k: Kmem, big: nat, c: nat) returns (ptr: nat, r: Verdict)
    requires k.Valid() && big in k.live && Usable(k.State(), big) >= 8192
    requires c < CACHE_SLOTS && k.caches[c].active && k.caches[c].liveObjects > 0
    modifies k, k.frames`free, k.frames`freePageCount, k.frames.bitmap
    ensures big < ptr && ptr !in old(k.live) && k.live == old(k.live) && r == Freed && !k.Valid()
    ensures c < |k.caches| == |old(k.caches)| && k.caches[c].liveObjects + 1 == old(k.caches[c]).liveObjects
  {
    var q := big / 4096 + 1;
    assert IsObject(k.State(), big);
    assert SlotOk(k.State().caches[c], k.State().shadows[c], k.State().mem);
    CountBound(k.caches[c].layout);
    WriteLookalike(k, big, q, c);
    SecondPage(k.State(), big, q);
    ptr := q * 4096 + SLAB_HEADER_SIZE;
    r := FreeBehind(k, q, c, ptr);
  }

  method FreeBehind(k: Kmem, q: nat, c: nat, ptr: nat) returns (r: Verdict)
    requires ptr == q * 4096 + SLAB_HEADER_SIZE && k.Valid() && q !in k.pages
    requires c < |k.caches| && ValidLayout(k.caches[c].layout)
    requires k.caches[c].liveObjects > 0
    requires LooksLikeSlab(k.mem, q, c, k.caches[c].layout.size)
    modifies k, k.frames`free, k.frames`freePageCount, k.frames.bitmap
    ensures ptr !in old(k.live) && k.live == old(k.live) && r == Freed && !k.Valid()
    ensures c < |k.caches| == |old(k.caches)| && k.caches[c].liveObjects + 1 == old(k.caches[c]).liveObjects
  {
    CountBound(k.caches[c].layout);
    LookalikeReads(k.mem, q, c, k.caches[c].layout.size);
    LookalikePasses(k.mem, k.caches, q, c, ptr);
    assert Foreign(k.mem, k.pages, ptr);
    r := k.FreeObject(ptr, None);
    NotAPage(k.State(), c, q);
  }

  lemma NotAPage(s: Heap, c: nat, q: nat)
    requires c < |s.caches| && q in s.caches[c].slabs && q !in s.pages
    ensures !PagesOk(s)
  {}

  /** Such a state is two calls away from any state in which they succeed. */
  method FailingInput(k: Kmem, flags: Flags) returns (served: bool, ptr: nat, r: Verdict)
    requires k.Valid()
    modifies k, k.frames`free, k.frames`freePageCount, k.frames.bitmap
    ensures !served ==> k.Valid()
    ensures served ==> r == Freed && ptr !in k.live && !k.Valid()
  {
    served, ptr, r := false, 0, Stopped;
    var big := k.Kmalloc(8192, flags);
    if big.Object? {
      ghost var s := k.State();
      var small := k.CacheAlloc(0, flags);
      if small.Object? {
        StillThere(s, k.State(), small.ptr, big.ptr);
        LiveInCache(k.State(), 0, small.ptr);
        served := true;
        ptr, r := FreeLookalike(k, big.ptr, 0);
      }
    }
  }

  lemma StillThere(s: Heap, s': Heap, ptr: nat, big: nat)
    requires ptr in s'.live && Allocated(s, s', ptr, s'.live[ptr]) && big in s.live && IsObject(s, big)
    ensures big in s'.live && IsObject(s', big) && Usable(s', big) == Usable(s, big)
  {}

  lemma LiveInCache(s: Heap, c: nat, ptr: nat)
    requires CachesOk(s) && PagesOk(s) && OfCache(s, c, ptr)
    ensures c < |s.caches| && s.caches[c].active && s.caches[c].liveObjects > 0
  {
    var p, k, g := ptr / 4096, s.caches[c], s.shadows[c];
    assert SlotOk(k, g, s.mem);
    assert PageOk(k.layout, p, k.slabs[p], g.chains[p], s.mem);
    var i := SlotIndex(p, k.layout, Count(k.layout), ptr);
    SlotIndexExact(p, k.layout, ptr, i.value);
    ChainBound(g.chains[p], k.slabs[p].count);
    if |g.chains[p]| == k.slabs[p].count { FullChain(g.chains[p], k.slabs[p].count, i.value); }
    LiveCounted(k, g, s.mem, p);
  }
}

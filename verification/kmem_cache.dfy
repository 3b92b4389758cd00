/**
 One slab cache: its lists, the free lists of its pages and its counters, and what taking a slot,
 giving one back, growing by a page and returning a page do to all of them at once.
 */
module KmemCaches {
  import opened Basics
  import opened KmemSlabs
  import opened KmemLists

  datatype Cache = Cache(objectSize: nat, layout: Layout, builtin: bool, active: bool, heads: Heads, slabs: Slabs,
                         slabCount: nat, liveObjects: nat, peak: nat, allocCount: nat, freeCount: nat, failed: nat,
                         growth: nat, returned: nat)

  /** The lists and free lists as sequences. */
  datatype Shadow = Shadow(lists: Lists, chains: map<nat, seq<nat>>)

  /** The list a slab belongs on. */
  function KindFor(s: Slab): Kind
  {
    if s.free == 0 then Full else if s.free == s.count then Empty else Partial
  }

  /** Page `p` with header `s` and free list `chain`. */
  ghost predicate SlabOk(l: Layout, p: nat, s: Slab, chain: seq<nat>, mem: Words)
    requires ValidLayout(l)
  {
    && 0 < p && p * 512 + 512 <= |mem|
    && s.count == Count(l) && s.objectSize == l.size
    && s.free == |chain| && IsChain(chain, s.count) && Linked(mem, p, l, s.freeList, chain)
  }

  /** Free slots on all three lists. */
  ghost function TotalFree(slabs: Slabs, g: Lists): nat
  {
    FreeSum(slabs, g.empty) + FreeSum(slabs, g.partial) + FreeSum(slabs, g.full)
  }

  /**
   The counters agree with the lists: slabs, growth and return; allocations and frees; and the live
   objects are the slots that are not free.
   */
  ghost predicate Counted(c: Cache, g: Lists)
    requires ValidLayout(c.layout)
  {
    && c.slabCount == |g.empty| + |g.partial| + |g.full| == |c.slabs|
    && c.growth == c.returned + c.slabCount
    && c.allocCount == c.freeCount + c.liveObjects
    && c.liveObjects <= c.peak
    && c.liveObjects + TotalFree(c.slabs, g) == Offset(Count(c.layout), c.slabCount)
  }

  ghost predicate PageOk(l: Layout, p: nat, s: Slab, chain: seq<nat>, mem: Words)
    requires ValidLayout(l)
  {
    SlabOk(l, p, s, chain, mem) && s.kind == KindFor(s)
  }

  /** The lists are linked, every page is well formed, and each slab is on the list its free count calls for. */
  ghost predicate Structured(l: Layout, slabs: Slabs, h: Heads, g: Shadow, mem: Words)
    requires ValidLayout(l)
  {
    && ListsOk(slabs, h, g.lists) && g.chains.Keys == slabs.Keys
    && forall p {:trigger PageOk(l, p, slabs[p], g.chains[p], mem)} | p in slabs ::
        PageOk(l, p, slabs[p], g.chains[p], mem)
  }

  ghost predicate CacheOk(c: Cache, g: Shadow, mem: Words)
  {
    && ValidLayout(c.layout) && c.objectSize <= c.layout.size
    && Structured(c.layout, c.slabs, c.heads, g, mem)
    && |g.lists.empty| <= 1 && Counted(c, g.lists)
  }

  /** `ptr` is a slot of this cache that is not free. */
  ghost predicate IsLive(c: Cache, g: Shadow, ptr: nat)
  {
    && ValidLayout(c.layout) && ptr / 4096 in c.slabs && ptr / 4096 in g.chains
    && var i := SlotIndex(ptr / 4096, c.layout, Count(c.layout), ptr);
       i.Some? && i.value !in g.chains[ptr / 4096]
  }

  // ----- list bookkeeping around a change of one header

  lemma SameLinks(slabs: Slabs, h: Heads, g: Lists, p: nat, s: Slab)
    requires ListsOk(slabs, h, g) && p in slabs
    requires s.prev == slabs[p].prev && s.next == slabs[p].next && s.kind == slabs[p].kind
    ensures ListsOk(slabs[p := s], h, g)
  {
    var slabs' := slabs[p := s];
    SameLinksList(slabs, h.empty, g.empty, Empty, p, s);
    SameLinksList(slabs, h.partial, g.partial, Partial, p, s);
    SameLinksList(slabs, h.full, g.full, Full, p, s);
  }

  lemma SameLinksList(slabs: Slabs, head: nat, l: seq<nat>, k: Kind, p: nat, s: Slab)
    requires ListOk(slabs, head, l, k) && p in slabs
    requires s.prev == slabs[p].prev && s.next == slabs[p].next && s.kind == slabs[p].kind
    ensures ListOk(slabs[p := s], head, l, k)
  {
    var slabs' := slabs[p := s];
    forall i: nat | i < |l| ensures NodeOk(slabs', l, i, k) { assert NodeOk(slabs, l, i, k); }
  }

  /** A listed slab stands at exactly one place of its list. */
  lemma PlaceOf(slabs: Slabs, h: Heads, g: Lists, p: nat) returns (i: nat)
    requires ListsOk(slabs, h, g) && p in slabs && slabs[p].kind != NoList
    ensures i < |On(g, slabs[p].kind)| && On(g, slabs[p].kind)[i] == p
  {
    assert p in On(g, slabs[p].kind);
    i :| 0 <= i < |On(g, slabs[p].kind)| && On(g, slabs[p].kind)[i] == p;
  }

  lemma {:induction false} FreeSumWithout(slabs: Slabs, p: nat, s: Slab, l: seq<nat>)
    requires p !in l
    ensures FreeSum(slabs[p := s], l) == FreeSum(slabs, l)
    decreases |l|
  {
    if l != [] { FreeSumWithout(slabs, p, s, l[1..]); }
  }

  lemma FreeSumWith(slabs: Slabs, p: nat, s: Slab, l: seq<nat>, i: nat)
    requires p in slabs && Distinct(l) && i < |l| && l[i] == p
    ensures FreeSum(slabs[p := s], l) + slabs[p].free == FreeSum(slabs, l) + s.free
  {
    FreeSumRemove(slabs, l, i);
    FreeSumRemove(slabs[p := s], l, i);
    forall j: nat | j < |RemoveAt(l, i)| ensures RemoveAt(l, i)[j] != p {
      assert RemoveAt(l, i)[j] == l[if j < i then j else j + 1];
    }
    FreeSumWithout(slabs, p, s, RemoveAt(l, i));
  }

  lemma NotOnOther(slabs: Slabs, head: nat, l: seq<nat>, k: Kind, p: nat)
    requires ListOk(slabs, head, l, k) && p in slabs && slabs[p].kind != k
    ensures p !in l
  {
    forall i: nat | i < |l| ensures l[i] != p { assert NodeOk(slabs, l, i, k); }
  }

  /** Changing the free count of one slab changes the total by as much. */
  lemma TotalWith(slabs: Slabs, h: Heads, g: Lists, p: nat, s: Slab)
    requires ListsOk(slabs, h, g) && p in slabs && slabs[p].kind != NoList
    ensures TotalFree(slabs[p := s], g) + slabs[p].free == TotalFree(slabs, g) + s.free
  {
    var i := PlaceOf(slabs, h, g, p);
    var k := slabs[p].kind;
    FreeSumWith(slabs, p, s, On(g, k), i);
    if k != Empty { NotOnOther(slabs, h.empty, g.empty, Empty, p); FreeSumWithout(slabs, p, s, g.empty); }
    if k != Partial { NotOnOther(slabs, h.partial, g.partial, Partial, p); FreeSumWithout(slabs, p, s, g.partial); }
    if k != Full { NotOnOther(slabs, h.full, g.full, Full, p); FreeSumWithout(slabs, p, s, g.full); }
  }

  lemma TotalRelinked(slabs: Slabs, slabs': Slabs, g: Lists)
    requires Relinked(slabs, slabs')
    ensures TotalFree(slabs', g) == TotalFree(slabs, g)
  {
    FreeSumRelinked(slabs, slabs', g.empty);
    FreeSumRelinked(slabs, slabs', g.partial);
    FreeSumRelinked(slabs, slabs', g.full);
  }

  lemma {:induction false} FreeSumRelinked(slabs: Slabs, slabs': Slabs, l: seq<nat>)
    requires Relinked(slabs, slabs')
    ensures FreeSum(slabs', l) == FreeSum(slabs, l)
    decreases |l|
  {
    if l != [] {
      assert l[0] in slabs <==> l[0] in slabs';
      FreeSumRelinked(slabs, slabs', l[1..]);
    }
  }

  /** Moving a slab between lists keeps the total and the number of slabs. */
  lemma TotalMoved(slabs: Slabs, g: Lists, i: nat, p: nat, from: Kind, k: Kind)
    requires p in slabs && from != NoList && k != NoList && i < |On(g, from)| && On(g, from)[i] == p
    ensures TotalFree(slabs, MoveLists(g, i, p, from, k)) == TotalFree(slabs, g)
    ensures var m := MoveLists(g, i, p, from, k);
            |m.empty| + |m.partial| + |m.full| == |g.empty| + |g.partial| + |g.full|
  {
    if from != k {
      FreeSumRemove(slabs, On(g, from), i);
      FreeSumPush(slabs, On(g, k), p);
    }
  }

  // ----- a change of one page, followed by the move it calls for

  /** The lists after slab `p` was moved to list `k`. */
  ghost predicate EmptyMoved(g: Lists, g': Lists, p: nat, from: Kind, k: Kind)
  {
    && |g'.empty| + |g'.partial| + |g'.full| == |g.empty| + |g.partial| + |g.full|
    && (from != Empty && k == Empty ==> g'.empty == [p] + g.empty)
    && (k != Empty ==> |g'.empty| <= |g.empty|)
  }

  lemma SlabElsewhere(l: Layout, p: nat, s: Slab, chain: seq<nat>, mem: Words, mem': Words, lo: nat, hi: nat)
    requires ValidLayout(l) && SlabOk(l, p, s, chain, mem) && Untouched(mem, mem', lo, hi)
    requires hi <= p * 4096 || p * 4096 + 4096 <= lo
    ensures SlabOk(l, p, s, chain, mem')
  {
    LinkedElsewhere(mem, mem', p, l, s.freeList, chain, lo, hi);
  }

  /** The lists and the total after header `p` became `s` and moved to the list it belongs on. */
  lemma HeaderChanged(slabs: Slabs, h: Heads, g: Lists, p: nat, s: Slab, k: Kind) returns (g': Lists)
    requires ListsOk(slabs, h, g) && p in slabs && slabs[p].kind != NoList && k != NoList
    requires s.prev == slabs[p].prev && s.next == slabs[p].next && s.kind == slabs[p].kind
    ensures var now := slabs[p := s];
            var slabs' := MoveSlabs(now, h, p, k);
            && ListsOk(slabs', MoveHeads(now, h, p, k), g') && Relinked(now, slabs') && |slabs'| == |slabs|
            && slabs'[p].kind == k && (forall q | q in slabs && q != p :: slabs'[q].kind == slabs[q].kind)
            && TotalFree(slabs', g') + slabs[p].free == TotalFree(slabs, g) + s.free
            && EmptyMoved(g, g', p, slabs[p].kind, k)
  {
    var now := slabs[p := s];
    SameLinks(slabs, h, g, p, s);
    TotalWith(slabs, h, g, p, s);
    var i := PlaceOf(now, h, g, p);
    Moved(now, h, g, i, p, k);
    var slabs' := MoveSlabs(now, h, p, k);
    g' := MoveLists(g, i, p, s.kind, k);
    TotalRelinked(now, slabs', g');
    TotalMoved(now, g, i, p, s.kind, k);
    assert slabs'.Keys == slabs.Keys;
    SameSize(slabs, slabs');
  }

  /** The whole structure after that change. */
  lemma Restructured(l: Layout, slabs: Slabs, h: Heads, g: Shadow, mem: Words, p: nat, s: Slab, chain: seq<nat>,
                     mem': Words,
                     slabs': Slabs, h': Heads, lists: Lists)
    requires ValidLayout(l) && Structured(l, slabs, h, g, mem) && p in slabs
    requires SlabOk(l, p, s, chain, mem') && Untouched(mem, mem', p * 4096, p * 4096 + 4096)
    requires ListsOk(slabs', h', lists) && Relinked(slabs[p := s], slabs') && slabs'[p].kind == KindFor(s)
    requires forall q | q in slabs && q != p :: slabs'[q].kind == slabs[q].kind
    ensures Structured(l, slabs', h', Shadow(lists, g.chains[p := chain]), mem')
  {
    PagesKept(l, slabs, g.chains, mem, p, s, chain, mem', slabs');
  }

  lemma PagesKept(l: Layout, slabs: Slabs, chains: map<nat, seq<nat>>, mem: Words, p: nat, s: Slab, chain: seq<nat>,
                  mem': Words,
                  slabs': Slabs)
    requires ValidLayout(l) && chains.Keys == slabs.Keys && p in slabs
    requires forall q | q in slabs :: PageOk(l, q, slabs[q], chains[q], mem)
    requires SlabOk(l, p, s, chain, mem') && Untouched(mem, mem', p * 4096, p * 4096 + 4096)
    requires Relinked(slabs[p := s], slabs') && slabs'[p].kind == KindFor(s)
    requires forall q | q in slabs && q != p :: slabs'[q].kind == slabs[q].kind
    ensures forall q | q in slabs' :: PageOk(l, q, slabs'[q], chains[p := chain][q], mem')
  {
    forall q | q in slabs' ensures PageOk(l, q, slabs'[q], chains[p := chain][q], mem') {
      if q != p {
        assert PageOk(l, q, slabs[q], chains[q], mem); SlabElsewhere(l, q, slabs[q], chains[q], mem, mem', p * 4096,
                                                                     p * 4096 + 4096);
      }
    }
  }

  lemma SameSize(a: Slabs, b: Slabs)
    requires a.Keys == b.Keys
    ensures |a| == |b|
  {
    assert |a| == |a.Keys| && |b| == |b.Keys|;
  }

  /** A new header and free list for page `p`, and the move they call for. */
  lemma PageChanged(l: Layout, slabs: Slabs, h: Heads, g: Shadow, mem: Words, p: nat, s: Slab, chain: seq<nat>,
                    k: Kind, mem': Words,
                    slabs': Slabs, h': Heads)
    returns (g': Shadow)
    requires ValidLayout(l) && Structured(l, slabs, h, g, mem) && p in slabs && k == KindFor(s)
    requires s.prev == slabs[p].prev && s.next == slabs[p].next && s.kind == slabs[p].kind
    requires SlabOk(l, p, s, chain, mem') && Untouched(mem, mem', p * 4096, p * 4096 + 4096)
    requires slabs' == MoveSlabs(slabs[p := s], h, p, k) && h' == MoveHeads(slabs[p := s], h, p, k)
    ensures Structured(l, slabs', h', g', mem') && |slabs'| == |slabs| && slabs'.Keys == slabs.Keys
    ensures slabs'[p].kind == k
    ensures g'.chains == g.chains[p := chain]
    ensures TotalFree(slabs', g'.lists) + slabs[p].free == TotalFree(slabs, g.lists) + s.free
    ensures EmptyMoved(g.lists, g'.lists, p, slabs[p].kind, k)
  {
    assert PageOk(l, p, slabs[p], g.chains[p], mem);
    var lists := HeaderChanged(slabs, h, g.lists, p, s, k);
    g' := Shadow(lists, g.chains[p := chain]);
    Restructured(l, slabs, h, g, mem, p, s, chain, mem', slabs', h', lists);
  }

  // ----- taking a slot

  /** `allocate_from_slab_locked`: the slot is the head of the page's free list. */
  function TakeSlot(c: Cache, p: nat, mem: Words): Cache
    requires p in c.slabs && c.slabs[p].free > 0
  {
    var s := c.slabs[p].(freeList := WordAt(mem, c.slabs[p].freeList), free := c.slabs[p].free - 1);
    var k := if s.free == 0 then Full else Partial;
    var live := c.liveObjects + 1;
    c.(slabs := MoveSlabs(c.slabs[p := s], c.heads, p, k), heads := MoveHeads(c.slabs[p := s], c.heads, p, k),
       allocCount := c.allocCount + 1, liveObjects := live, peak := if c.peak < live then live else c.peak)
  }

  lemma PopLinked(mem: Words, p: nat, l: Layout, head: nat, chain: seq<nat>)
    requires ValidLayout(l) && Linked(mem, p, l, head, chain) && IsChain(chain, Count(l)) && chain != []
    ensures head == Slot(p, l, chain[0]) && Linked(mem, p, l, WordAt(mem, head), chain[1..])
    ensures IsChain(chain[1..], Count(l))
    ensures chain[0] !in chain[1..]
  {}

  lemma TakeKeeps(c: Cache, g: Shadow, mem: Words, p: nat) returns (g': Shadow)
    requires CacheOk(c, g, mem) && p in c.slabs && c.slabs[p].free > 0
    ensures CacheOk(TakeSlot(c, p, mem), g', mem)
    ensures g.chains[p] != [] && g'.chains == g.chains[p := g.chains[p][1..]]
    ensures c.slabs[p].freeList == Slot(p, c.layout, g.chains[p][0])
    ensures TakeSlot(c, p, mem).slabs.Keys == c.slabs.Keys
  {
    var was, chain, c' := c.slabs[p], g.chains[p], TakeSlot(c, p, mem);
    assert PageOk(c.layout, p, was, chain, mem);
    var s := was.(freeList := WordAt(mem, was.freeList), free := was.free - 1);
    ChainBound(chain, s.count);
    PopLinked(mem, p, c.layout, was.freeList, chain);
    g' := PageChanged(c.layout, c.slabs, c.heads, g, mem, p, s, chain[1..],
                      if s.free == 0 then Full else Partial, mem, c'.slabs, c'.heads);
  }

  /** Exactly one more object is live: the one returned, which was free. */
  lemma TakeLive(c: Cache, g: Shadow, g': Shadow, mem: Words, p: nat, ptr: nat, q: nat)
    requires CacheOk(c, g, mem) && p in c.slabs && c.slabs[p].free > 0 && ptr == c.slabs[p].freeList
    requires g.chains[p] != [] && g'.chains == g.chains[p := g.chains[p][1..]] && CacheOk(TakeSlot(c, p, mem), g', mem)
    requires TakeSlot(c, p, mem).slabs.Keys == c.slabs.Keys
    ensures ptr / 4096 == p && !IsLive(c, g, ptr)
    ensures IsLive(TakeSlot(c, p, mem), g', q) <==> q == ptr || IsLive(c, g, q)
  {
    var chain := g.chains[p];
    assert PageOk(c.layout, p, c.slabs[p], chain, mem);
    SlotBounds(p, c.layout, chain[0]);
    SlotIndexExact(p, c.layout, ptr, chain[0]);
    if q / 4096 == p && SlotIndex(p, c.layout, Count(c.layout), q).Some? {
      var i := SlotIndex(p, c.layout, Count(c.layout), q).value;
      SlotIndexExact(p, c.layout, q, i);
      assert i in chain <==> i == chain[0] || i in chain[1..];
      assert chain[0] !in chain[1..];
    }
  }

  // ----- giving a slot back

  /** `free_object_locked` behind its checks: the header and counters; the slot's word is written apart. */
  function GiveSlot(c: Cache, p: nat, ptr: nat): Cache
    requires p in c.slabs && c.liveObjects > 0
  {
    var s := c.slabs[p].(freeList := ptr, free := c.slabs[p].free + 1);
    var k := if s.free == s.count then Empty else Partial;
    c.(slabs := MoveSlabs(c.slabs[p := s], c.heads, p, k), heads := MoveHeads(c.slabs[p := s], c.heads, p, k),
       liveObjects := c.liveObjects - 1, freeCount := c.freeCount + 1)
  }

  /** The verdict of `free_object_locked`: this page is empty and another empty one is kept. */
  predicate ReleasesSlab(c: Cache, p: nat)
    requires p in c.slabs
  {
    c.slabs[p].kind == Empty && c.slabs[p].next != 0 && c.slabCount > 1
  }

  /** `free_object`, returning the page. */
  function DropSlab(c: Cache, p: nat): Cache
    requires p in c.slabs && c.slabCount > 0
  {
    c.(slabs := DetachSlabs(c.slabs, p) - {p}, heads := DetachHeads(c.slabs, c.heads, p),
       slabCount := c.slabCount - 1, returned := c.returned + 1)
  }

  /** All of the cache's invariant but the bound on empty slabs. */
  ghost predicate NearlyOk(c: Cache, g: Shadow, mem: Words)
  {
    ValidLayout(c.layout) && c.objectSize <= c.layout.size && Structured(c.layout, c.slabs, c.heads, g, mem) &&
        Counted(c, g.lists)
  }

  lemma {:induction false} FreeSumBound(slabs: Slabs, l: seq<nat>, count: nat)
    requires forall p | p in slabs :: slabs[p].free <= count
    ensures FreeSum(slabs, l) <= Offset(count, |l|)
    decreases |l|
  {
    if l != [] { FreeSumBound(slabs, l[1..], count); }
  }

  lemma {:induction false} OffsetAdds(size: nat, m: nat, n: nat)
    ensures Offset(size, m + n) == Offset(size, m) + Offset(size, n)
    decreases n
  {
    if n > 0 { OffsetAdds(size, m, n - 1); }
  }

  lemma TotalBound(slabs: Slabs, g: Lists, count: nat)
    requires forall p | p in slabs :: slabs[p].free <= count
    ensures TotalFree(slabs, g) <= Offset(count, |g.empty| + |g.partial| + |g.full|)
  {
    FreeSumBound(slabs, g.empty, count);
    FreeSumBound(slabs, g.partial, count);
    FreeSumBound(slabs, g.full, count);
    OffsetAdds(count, |g.empty|, |g.partial|);
    OffsetAdds(count, |g.empty| + |g.partial|, |g.full|);
  }

  lemma TotalSlack(slabs: Slabs, h: Heads, g: Lists, p: nat, n: nat, total: nat)
    requires total == |g.empty| + |g.partial| + |g.full|
    requires ListsOk(slabs, h, g) && p in slabs && slabs[p].kind != NoList && slabs[p].free < n
    requires forall q | q in slabs :: slabs[q].free <= n
    ensures TotalFree(slabs, g) < Offset(n, total)
  {
    var full := slabs[p].(free := n);
    TotalWith(slabs, h, g, p, full);
    TotalBound(slabs[p := full], g, n);
  }

  lemma FreeBound(l: Layout, slabs: Slabs, h: Heads, g: Shadow, mem: Words, n: nat)
    requires ValidLayout(l) && Structured(l, slabs, h, g, mem) && n == Count(l)
    ensures forall q | q in slabs :: slabs[q].free <= n
  {
    forall q | q in slabs ensures slabs[q].free <= n {
      assert PageOk(l, q, slabs[q], g.chains[q], mem);
      ChainBound(g.chains[q], n);
    }
  }

  /** A page with a slot in use shows in the live count. */
  lemma LiveCounted(c: Cache, g: Shadow, mem: Words, p: nat)
    requires NearlyOk(c, g, mem) && p in c.slabs && c.slabs[p].free < c.slabs[p].count
    ensures c.liveObjects > 0
  {
    var n := Count(c.layout);
    assert PageOk(c.layout, p, c.slabs[p], g.chains[p], mem);
    FreeBound(c.layout, c.slabs, c.heads, g, mem, n);
    TotalSlack(c.slabs, c.heads, g.lists, p, n, c.slabCount);
  }

  lemma GivePage(l: Layout, p: nat, s: Slab, chain: seq<nat>, mem: Words, i: nat)
    requires ValidLayout(l) && SlabOk(l, p, s, chain, mem) && i < Count(l) && i !in chain
    ensures s.free < s.count && Slot(p, l, i) / 8 < |mem|
    ensures var ptr := Slot(p, l, i);
            var mem' := SetWord(mem, ptr, s.freeList);
            && SlabOk(l, p, s.(freeList := ptr, free := s.free + 1), [i] + chain, mem')
            && Untouched(mem, mem', ptr, ptr + 8) && Untouched(mem, mem', p * 4096, p * 4096 + 4096)
  {
    PushLinked(mem, p, l, s.freeList, chain, i);
    ChainBound([i] + chain, s.count);
    SlotBounds(p, l, i);
  }

  lemma GiveKeeps(c: Cache, g: Shadow, mem: Words, p: nat, ptr: nat, i: nat, mem': Words) returns (g': Shadow)
    requires CacheOk(c, g, mem) && p in c.slabs && c.slabs[p].free < c.slabs[p].count
    requires SlabOk(c.layout, p, c.slabs[p].(freeList := ptr, free := c.slabs[p].free + 1), [i] + g.chains[p], mem')
    requires Untouched(mem, mem', p * 4096, p * 4096 + 4096)
    ensures c.liveObjects > 0 && NearlyOk(GiveSlot(c, p, ptr), g', mem')
    ensures GiveSlot(c, p, ptr).slabs.Keys == c.slabs.Keys
    ensures g'.chains == g.chains[p := [i] + g.chains[p]]
    ensures if GiveSlot(c, p, ptr).slabs[p].kind == Empty then g'.lists.empty == [p] + g.lists.empty
            else |g'.lists.empty| <= 1
  {
    assert PageOk(c.layout, p, c.slabs[p], g.chains[p], mem);
    LiveCounted(c, g, mem, p);
    var s, c' := c.slabs[p].(freeList := ptr, free := c.slabs[p].free + 1), GiveSlot(c, p, ptr);
    g' := PageChanged(c.layout, c.slabs, c.heads, g, mem, p, s, [i] + g.chains[p],
                      if s.free == s.count then Empty else Partial, mem', c'.slabs, c'.heads);
  }

  /** Exactly one object less is live: the one given back, which was live. */
  lemma GiveLive(c: Cache, g: Shadow, mem: Words, p: nat, i: nat, c': Cache, g': Shadow, q: nat)
    requires CacheOk(c, g, mem) && p in c.slabs && i < Count(c.layout) && i !in g.chains[p]
    requires c'.layout == c.layout && c'.slabs.Keys == c.slabs.Keys && g'.chains == g.chains[p := [i] + g.chains[p]]
    ensures Slot(p, c.layout, i) / 4096 == p && IsLive(c, g, Slot(p, c.layout, i))
    ensures IsLive(c', g', q) <==> q != Slot(p, c.layout, i) && IsLive(c, g, q)
  {
    var ptr, chain := Slot(p, c.layout, i), g.chains[p];
    SlotBounds(p, c.layout, i);
    SlotIndexExact(p, c.layout, ptr, i);
    if q / 4096 == p && SlotIndex(p, c.layout, Count(c.layout), q).Some? {
      var j := SlotIndex(p, c.layout, Count(c.layout), q).value;
      SlotIndexExact(p, c.layout, q, j);
      assert j in [i] + chain <==> j == i || j in chain;
    }
  }

  // ----- returning a page

  /** A slab on no list can be forgotten. */
  lemma Forget(slabs: Slabs, h: Heads, g: Lists, p: nat)
    requires ListsOk(slabs, h, g) && p in slabs && slabs[p].kind == NoList
    ensures ListsOk(slabs - {p}, h, g) && TotalFree(slabs - {p}, g) == TotalFree(slabs, g)
  {
    ForgetList(slabs, h.empty, g.empty, Empty, p);
    ForgetList(slabs, h.partial, g.partial, Partial, p);
    ForgetList(slabs, h.full, g.full, Full, p);
  }

  lemma ForgetList(slabs: Slabs, head: nat, l: seq<nat>, k: Kind, p: nat)
    requires ListOk(slabs, head, l, k) && p in slabs && slabs[p].kind != k
    ensures ListOk(slabs - {p}, head, l, k) && FreeSum(slabs - {p}, l) == FreeSum(slabs, l)
  {
    NotOnOther(slabs, head, l, k, p);
    forall i: nat | i < |l| ensures NodeOk(slabs - {p}, l, i, k) { assert NodeOk(slabs, l, i, k); }
    FreeSumForget(slabs, l, p);
  }

  lemma {:induction false} FreeSumForget(slabs: Slabs, l: seq<nat>, p: nat)
    requires p !in l
    ensures FreeSum(slabs - {p}, l) == FreeSum(slabs, l)
    decreases |l|
  {
    if l != [] { FreeSumForget(slabs, l[1..], p); }
  }

  lemma DropLists(slabs: Slabs, h: Heads, g: Lists, p: nat, rest: seq<nat>)
    requires ListsOk(slabs, h, g) && p in slabs && slabs[p].kind == Empty && g.empty == [p] + rest
    ensures var slabs' := DetachSlabs(slabs, p) - {p};
            && ListsOk(slabs', DetachHeads(slabs, h, p), g.(empty := rest)) && |slabs'| + 1 == |slabs|
            && slabs'.Keys == slabs.Keys - {p}
            && TotalFree(slabs', g.(empty := rest)) + slabs[p].free == TotalFree(slabs, g)
            && forall q | q in slabs' :: slabs'[q] == slabs[q].(prev := slabs'[q].prev, next := slabs'[q].next)
  {
    Detached(slabs, h, g, 0, p);
    assert RemoveAt(g.empty, 0) == rest;
    var out := DetachSlabs(slabs, p);
    TotalRelinked(slabs, out, g);
    FreeSumPush(out, rest, p);
    Forget(out, DetachHeads(slabs, h, p), g.(empty := rest), p);
    SameSize(slabs, out);
    assert |out - {p}| == |out| - 1 by { assert (out - {p}).Keys == out.Keys - {p}; }
  }

  lemma DropPages(l: Layout, slabs: Slabs, h: Heads, g: Shadow, mem: Words, slabs': Slabs, h': Heads, g': Shadow,
                  p: nat)
    requires ValidLayout(l) && Structured(l, slabs, h, g, mem) && ListsOk(slabs', h', g'.lists)
    requires g'.chains == g.chains - {p} && slabs'.Keys == slabs.Keys - {p}
    requires forall q | q in slabs' :: slabs'[q] == slabs[q].(prev := slabs'[q].prev, next := slabs'[q].next)
    ensures Structured(l, slabs', h', g', mem)
  {
    forall q | q in slabs' ensures PageOk(l, q, slabs'[q], g'.chains[q], mem) {
      assert PageOk(l, q, slabs[q], g.chains[q], mem);
    }
  }

  lemma DropKeeps(c: Cache, g: Shadow, mem: Words, p: nat, rest: seq<nat>) returns (g': Shadow)
    requires NearlyOk(c, g, mem) && p in c.slabs && c.slabs[p].kind == Empty && g.lists.empty == [p] + rest
    requires |rest| <= 1
    ensures c.slabCount > 0 && CacheOk(DropSlab(c, p), g', mem) && g' == Shadow(g.lists.(empty := rest), g.chains - {p})
    ensures DropSlab(c, p).slabs.Keys == c.slabs.Keys - {p}
  {
    DropLists(c.slabs, c.heads, g.lists, p, rest);
    g' := Shadow(g.lists.(empty := rest), g.chains - {p});
    DropPages(c.layout, c.slabs, c.heads, g, mem, DropSlab(c, p).slabs, DropSlab(c, p).heads, g', p);
    assert PageOk(c.layout, p, c.slabs[p], g.chains[p], mem);
  }

  /** Nothing on an empty page was live. */
  lemma DropLive(c: Cache, g: Shadow, mem: Words, p: nat, c': Cache, g': Shadow, q: nat)
    requires NearlyOk(c, g, mem) && p in c.slabs && c.slabs[p].kind == Empty
    requires c'.layout == c.layout && c'.slabs.Keys == c.slabs.Keys - {p} && g'.chains == g.chains - {p}
    ensures IsLive(c', g', q) <==> IsLive(c, g, q)
  {
    assert PageOk(c.layout, p, c.slabs[p], g.chains[p], mem);
    var i := SlotIndex(p, c.layout, Count(c.layout), q);
    if q / 4096 == p && i.Some? {
      SlotIndexExact(p, c.layout, q, i.value);
      FullChain(g.chains[p], c.slabs[p].count, i.value);
    }
  }

  // ----- growing by a page

  function NewSlab(l: Layout, freeList: nat): Slab
    requires ValidLayout(l)
  {
    Slab(Count(l), Count(l), l.size, freeList, 0, 0, NoList)
  }

  /** `grow_cache` with a page whose slots are threaded. */
  function Grow(c: Cache, p: nat, freeList: nat): Cache
    requires ValidLayout(c.layout)
  {
    var slabs := c.slabs[p := NewSlab(c.layout, freeList)];
    c.(slabs := AttachSlabs(slabs, c.heads, p, Empty), heads := SetHead(c.heads, Empty, p),
       slabCount := c.slabCount + 1, growth := c.growth + 1)
  }

  lemma NewList(slabs: Slabs, head: nat, l: seq<nat>, k: Kind, p: nat, s: Slab)
    requires ListOk(slabs, head, l, k) && p !in slabs
    ensures ListOk(slabs[p := s], head, l, k) && p !in l
  {
    forall i: nat | i < |l| ensures NodeOk(slabs[p := s], l, i, k) && l[i] != p { assert NodeOk(slabs, l, i, k); }
  }

  lemma GrowLists(slabs: Slabs, h: Heads, g: Lists, p: nat, s: Slab)
    requires ListsOk(slabs, h, g) && p !in slabs && p != 0 && s.kind == NoList
    ensures var slabs' := AttachSlabs(slabs[p := s], h, p, Empty);
            && ListsOk(slabs', SetHead(h, Empty, p), g.(empty := [p] + g.empty)) && |slabs'| == |slabs| + 1
            && Relinked(slabs[p := s], slabs') && slabs'[p].kind == Empty
            && (forall q | q in slabs :: slabs'[q].kind == slabs[q].kind)
            && TotalFree(slabs', g.(empty := [p] + g.empty)) == TotalFree(slabs, g) + s.free
  {
    NewList(slabs, h.empty, g.empty, Empty, p, s);
    NewList(slabs, h.partial, g.partial, Partial, p, s);
    NewList(slabs, h.full, g.full, Full, p, s);
    var now := slabs[p := s];
    Attached(now, h, g, p, Empty);
    TotalRelinked(now, AttachSlabs(now, h, p, Empty), g.(empty := [p] + g.empty));
    FreeSumPush(now, g.empty, p);
    FreeSumWithout(slabs, p, s, g.empty);
    FreeSumWithout(slabs, p, s, g.partial);
    FreeSumWithout(slabs, p, s, g.full);
    SameSize(now, AttachSlabs(now, h, p, Empty));
    assert |now| == |slabs| + 1 by { assert now.Keys == slabs.Keys + {p}; }
  }

  lemma GrowPages(l: Layout, slabs: Slabs, chains: map<nat, seq<nat>>, mem: Words, p: nat, s: Slab, chain: seq<nat>,
                  mem': Words,
                  slabs': Slabs)
    requires ValidLayout(l) && chains.Keys == slabs.Keys && p !in slabs
    requires forall q | q in slabs :: PageOk(l, q, slabs[q], chains[q], mem)
    requires SlabOk(l, p, s, chain, mem') && Untouched(mem, mem', p * 4096, p * 4096 + 4096)
    requires Relinked(slabs[p := s], slabs') && slabs'[p].kind == KindFor(s)
    requires forall q | q in slabs :: slabs'[q].kind == slabs[q].kind
    ensures forall q | q in slabs' :: PageOk(l, q, slabs'[q], chains[p := chain][q], mem')
  {
    forall q | q in slabs' ensures PageOk(l, q, slabs'[q], chains[p := chain][q], mem') {
      if q != p {
        assert PageOk(l, q, slabs[q], chains[q], mem); SlabElsewhere(l, q, slabs[q], chains[q], mem, mem', p * 4096,
                                                                     p * 4096 + 4096);
      }
    }
  }

  lemma GrowStructured(l: Layout, slabs: Slabs, h: Heads, g: Shadow, mem: Words, p: nat, s: Slab, chain: seq<nat>,
                       mem': Words,
                       slabs': Slabs, h': Heads, lists: Lists)
    requires ValidLayout(l) && Structured(l, slabs, h, g, mem) && p !in slabs
    requires SlabOk(l, p, s, chain, mem') && Untouched(mem, mem', p * 4096, p * 4096 + 4096)
    requires ListsOk(slabs', h', lists) && Relinked(slabs[p := s], slabs') && slabs'[p].kind == KindFor(s)
    requires forall q | q in slabs :: slabs'[q].kind == slabs[q].kind
    ensures Structured(l, slabs', h', Shadow(lists, g.chains[p := chain]), mem')
  {
    GrowPages(l, slabs, g.chains, mem, p, s, chain, mem', slabs');
  }

  /** A cache without an empty slab gains a page whose slots are all free. */
  lemma GrowKeeps(c: Cache, g: Shadow, mem: Words, p: nat, freeList: nat, chain: seq<nat>,
                  mem': Words) returns (g': Shadow)
    requires CacheOk(c, g, mem) && p !in c.slabs && p != 0 && c.heads.empty == 0 && p * 512 + 512 <= |mem|
    requires Untouched(mem, mem', p * 4096, p * 4096 + 4096)
    requires IsChain(chain, Count(c.layout)) && |chain| == Count(c.layout) && Linked(mem', p, c.layout, freeList, chain)
    ensures CacheOk(Grow(c, p, freeList), g', mem') && Grow(c, p, freeList).slabs.Keys == c.slabs.Keys + {p}
    ensures g' == Shadow(g.lists.(empty := [p] + g.lists.empty), g.chains[p := chain])
  {
    var s, c' := NewSlab(c.layout, freeList), Grow(c, p, freeList);
    CountPositive(c.layout);
    NoneEmpty(c.slabs, c.heads, g.lists);
    GrowLists(c.slabs, c.heads, g.lists, p, s);
    g' := Shadow(g.lists.(empty := [p] + g.lists.empty), g.chains[p := chain]);
    GrowStructured(c.layout, c.slabs, c.heads, g, mem, p, s, chain, mem', c'.slabs, c'.heads, g'.lists);
  }

  lemma NoneEmpty(slabs: Slabs, h: Heads, g: Lists)
    requires ListsOk(slabs, h, g) && h.empty == 0
    ensures g.empty == []
  {
    FirstNode(slabs, h.empty, g.empty, Empty);
  }

  lemma GrowLive(c: Cache, g: Shadow, p: nat, chain: seq<nat>, c': Cache, g': Shadow, q: nat)
    requires ValidLayout(c.layout) && c.slabs.Keys == g.chains.Keys && p !in c.slabs
    requires IsChain(chain, Count(c.layout)) && |chain| == Count(c.layout)
    requires c'.layout == c.layout && c'.slabs.Keys == c.slabs.Keys + {p} && g'.chains == g.chains[p := chain]
    ensures IsLive(c', g', q) <==> IsLive(c, g, q)
  {
    var n := Count(c.layout);
    var i := SlotIndex(p, c.layout, n, q);
    if q / 4096 == p && i.Some? {
      SlotIndexExact(p, c.layout, q, i.value);
      FullChain(chain, n, i.value);
    }
  }

  // ----- memory changes elsewhere

  lemma CacheElsewhere(c: Cache, g: Shadow, mem: Words, mem': Words, lo: nat, hi: nat)
    requires CacheOk(c, g, mem) && Untouched(mem, mem', lo, hi)
    requires forall p | p in c.slabs :: hi <= p * 4096 || p * 4096 + 4096 <= lo
    ensures CacheOk(c, g, mem')
  {
    forall p | p in c.slabs ensures PageOk(c.layout, p, c.slabs[p], g.chains[p], mem') {
      assert PageOk(c.layout, p, c.slabs[p], g.chains[p], mem);
      SlabElsewhere(c.layout, p, c.slabs[p], g.chains[p], mem, mem', lo, hi);
    }
  }

  lemma LivePageKept(l: Layout, p: nat, s: Slab, chain: seq<nat>, mem: Words, mem': Words, i: nat)
    requires ValidLayout(l) && SlabOk(l, p, s, chain, mem) && i < Count(l) && i !in chain
    requires Untouched(mem, mem', Slot(p, l, i), Slot(p, l, i) + l.size)
    ensures SlabOk(l, p, s, chain, mem')
  {
    forall j: nat | j < |chain| ensures WordAt(mem', Slot(p, l, chain[j])) == WordAt(mem, Slot(p, l, chain[j])) {
      SlotBounds(p, l, chain[j]);
      if chain[j] < i { SlotsApart(p, l, chain[j], i); } else { SlotsApart(p, l, i, chain[j]); }
    }
    LinkedFrame(mem, mem', p, l, s.freeList, chain);
  }

  /** Clearing a live object leaves the free lists of its page alone. */
  lemma LiveElsewhere(c: Cache, g: Shadow, mem: Words, mem': Words, ptr: nat)
    requires CacheOk(c, g, mem) && IsLive(c, g, ptr) && Untouched(mem, mem', ptr, ptr + c.layout.size)
    ensures CacheOk(c, g, mem')
  {
    var p, l := ptr / 4096, c.layout;
    var i := SlotIndex(p, l, Count(l), ptr).value;
    SlotIndexExact(p, l, ptr, i);
    SlotBounds(p, l, i);
    forall q | q in c.slabs ensures PageOk(l, q, c.slabs[q], g.chains[q], mem') {
      assert PageOk(l, q, c.slabs[q], g.chains[q], mem);
      if q != p {
        SlabElsewhere(l, q, c.slabs[q], g.chains[q], mem, mem', ptr, ptr + l.size);
      } else {
        LivePageKept(l, p, c.slabs[p], g.chains[p], mem, mem', i);
      }
    }
  }
}

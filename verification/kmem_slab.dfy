/**
 One slab page of the kernel's small-object allocator: a 64-byte header, then equal slots.  Free
 slots form a list threaded through their first words; the page's invariant is that this list names
 distinct slots, so that free and live slots partition the page.  Addresses are physical; 0 is the
 null pointer, and frame 0 is never handed out.
 */
module KmemSlabs {
  import opened Basics
  import opened Word64

  /** Physical memory as 8-byte words. */
  type Words = seq<nat>

  function WordAt(mem: Words, a: nat): nat
  {
    if a / 8 < |mem| then mem[a / 8] else 0
  }

  function SetWord(mem: Words, a: nat, w: nat): (m: Words)
    requires a / 8 < |mem|
    ensures |m| == |mem|
    ensures forall b: nat :: WordAt(m, b) == if b / 8 == a / 8 then w else WordAt(mem, b)
  {
    mem[a / 8 := w]
  }

  /** Words outside the bytes `[lo, hi)` are the same. */
  ghost predicate Untouched(mem: Words, mem': Words, lo: nat, hi: nat)
  {
    |mem'| == |mem| && forall a: nat | a % 8 == 0 && (a + 8 <= lo || hi <= a) :: WordAt(mem', a) == WordAt(mem, a)
  }

  // ----- layout

  const SLAB_HEADER_SIZE: nat := 64

  /** Slot size and alignment of a cache. */
  datatype Layout = Layout(size: nat, align: nat)

  predicate ValidLayout(l: Layout)
  {
    (l.align == 8 || l.align == 16 || l.align == 32 || l.align == 64) &&
    l.size % l.align == 0 && 8 <= l.size && SLAB_HEADER_SIZE + l.size <= 4096
  }

  /** `align_up` */
  function RoundUp(n: nat, align: nat): nat
    requires align > 0
  {
    (n + align - 1) / align * align
  }

  /** `room / size`, by subtraction. */
  function Fitting(room: nat, size: nat): nat
    requires size > 0
  {
    if room < size then 0 else 1 + Fitting(room - size, size)
  }

  lemma {:induction false} FittingIs(room: nat, size: nat)
    requires size > 0
    ensures Fitting(room, size) == room / size
    decreases room
  {
    if room < size {
      QuotientUnique(room, size, 0, room);
    } else {
      FittingIs(room - size, size);
      var q := (room - size) / size;
      assert room - size == size * q + (room - size) % size;
      MulDistributes(size, q, 1);
      QuotientUnique(room, size, q + 1, (room - size) % size);
    }
  }

  /** Slots of a page. */
  function Count(l: Layout): (n: nat)
    requires ValidLayout(l)
  {
    Fitting(4096 - SLAB_HEADER_SIZE, l.size)
  }

  /** `size * i`, by addition. */
  function Offset(size: nat, i: nat): nat
  {
    if i == 0 then 0 else Offset(size, i - 1) + size
  }

  lemma {:induction false} OffsetIs(size: nat, i: nat)
    ensures Offset(size, i) == size * i
    decreases i
  {
    if i > 0 {
      OffsetIs(size, i - 1);
      MulDistributes(size, i - 1, 1);
    }
  }

  /** Address of slot `i` of page `p`. */
  function Slot(p: nat, l: Layout, i: nat): nat
  {
    p * 4096 + SLAB_HEADER_SIZE + Offset(l.size, i)
  }

  lemma TimesSize(size: nat, align: nat, i: nat)
    requires align > 0 && size % align == 0
    ensures (size * i) % align == 0
  {
    var q := size / align;
    MulAssociates(align, q, i);
    QuotientUnique(size * i, align, q * i, 0);
  }

  lemma CountFits(l: Layout, i: nat)
    requires ValidLayout(l)
    ensures i < Count(l) <==> l.size * i + l.size <= 4096 - SLAB_HEADER_SIZE
  {
    var room := 4096 - SLAB_HEADER_SIZE;
    FittingIs(room, l.size);
    var n := room / l.size;
    assert room == l.size * n + room % l.size;
    MulDistributes(l.size, i, 1);
    MulDistributes(l.size, n, 1);
    if i < n { MulMono(i + 1, n, l.size); } else { MulMono(n + 1, i + 1, l.size); }
  }

  lemma CountPositive(l: Layout)
    requires ValidLayout(l)
    ensures Count(l) > 0
  {}

  /** A slot lies in its page behind the header, aligned. */
  lemma SlotBounds(p: nat, l: Layout, i: nat)
    requires ValidLayout(l) && i < Count(l)
    ensures p * 4096 + SLAB_HEADER_SIZE <= Slot(p, l, i) && Slot(p, l, i) + l.size <= p * 4096 + 4096
    ensures Slot(p, l, i) / 4096 == p && Slot(p, l, i) % l.align == 0 && Slot(p, l, i) % 8 == 0
  {
    CountFits(l, i);
    TimesSize(l.size, l.align, i);
    OffsetIs(l.size, i);
    InPage(p, l.align, l.size * i);
  }

  lemma InPage(p: nat, align: nat, d: nat)
    requires (align == 8 || align == 16 || align == 32 || align == 64) && d % align == 0 && d < 4096 - SLAB_HEADER_SIZE
    ensures (p * 4096 + SLAB_HEADER_SIZE + d) / 4096 == p
    ensures (p * 4096 + SLAB_HEADER_SIZE + d) % align == 0 && (p * 4096 + SLAB_HEADER_SIZE + d) % 8 == 0
  {
    var k := d / align;
    assert d == align * k;
    if align == 8 {
      Multiple(p * 4096 + 64 + d, 8, p * 512 + 8 + k);
    } else if align == 16 {
      Multiple(p * 4096 + 64 + d, 16, p * 256 + 4 + k);
      Multiple(p * 4096 + 64 + d, 8, p * 512 + 8 + 2 * k);
    } else if align == 32 {
      Multiple(p * 4096 + 64 + d, 32, p * 128 + 2 + k);
      Multiple(p * 4096 + 64 + d, 8, p * 512 + 8 + 4 * k);
    } else {
      Multiple(p * 4096 + 64 + d, 64, p * 64 + 1 + k);
      Multiple(p * 4096 + 64 + d, 8, p * 512 + 8 + 8 * k);
    }
    QuotientUnique(p * 4096 + 64 + d, 4096, p, 64 + d);
  }

  lemma Multiple(a: nat, align: nat, k: nat)
    requires align > 0 && a == align * k
    ensures a % align == 0
  {
    QuotientUnique(a, align, k, 0);
  }

  lemma SlotsApart(p: nat, l: Layout, i: nat, j: nat)
    requires i < j
    ensures Slot(p, l, i) + l.size <= Slot(p, l, j)
  {
    OffsetIs(l.size, i);
    OffsetIs(l.size, j);
    MulMono(i + 1, j, l.size);
    MulDistributes(l.size, i, 1);
  }

  lemma SlotsDistinct(p: nat, l: Layout, i: nat, j: nat)
    requires l.size > 0 && Slot(p, l, i) == Slot(p, l, j)
    ensures i == j
  {
    if i < j { SlotsApart(p, l, i, j); }
    if j < i { SlotsApart(p, l, j, i); }
  }

  /** `slot_index_for_pointer` */
  function SlotIndex(p: nat, l: Layout, count: nat, ptr: nat): Option<nat>
    requires l.size > 0
  {
    if ptr < p * 4096 + SLAB_HEADER_SIZE || ptr >= p * 4096 + 4096 then None
    else
      var delta := ptr - (p * 4096 + SLAB_HEADER_SIZE);
      if delta % l.size != 0 then None
      else if delta / l.size >= count then None
      else Some(delta / l.size)
  }

  /** It finds exactly the addresses of slots. */
  lemma SlotIndexExact(p: nat, l: Layout, ptr: nat, i: nat)
    requires ValidLayout(l)
    ensures SlotIndex(p, l, Count(l), ptr) == Some(i) <==> i < Count(l) && ptr == Slot(p, l, i)
  {
    OffsetIs(l.size, i);
    if i < Count(l) && ptr == Slot(p, l, i) {
      SlotBounds(p, l, i);
      QuotientUnique(l.size * i, l.size, i, 0);
    }
    if SlotIndex(p, l, Count(l), ptr) == Some(i) {
      var delta := ptr - (p * 4096 + SLAB_HEADER_SIZE);
      assert delta == l.size * (delta / l.size) + delta % l.size;
    }
  }

  // ----- the free list of a page

  /** From `head`, the words of the free slots lead through exactly the slots of `chain`, then to null. */
  predicate Linked(mem: Words, p: nat, l: Layout, head: nat, chain: seq<nat>)
    decreases |chain|
  {
    if chain == [] then head == 0
    else head == Slot(p, l, chain[0]) && Linked(mem, p, l, WordAt(mem, head), chain[1..])
  }

  ghost predicate IsChain(chain: seq<nat>, count: nat)
  {
    && (forall i: nat | i < |chain| :: chain[i] < count)
    && (forall i: nat, j: nat | i < j < |chain| :: chain[i] != chain[j])
  }

  lemma {:induction false} LinkedFrame(mem: Words, mem': Words, p: nat, l: Layout, head: nat, chain: seq<nat>)
    requires Linked(mem, p, l, head, chain)
    requires forall i: nat | i < |chain| :: WordAt(mem', Slot(p, l, chain[i])) == WordAt(mem, Slot(p, l, chain[i]))
    ensures Linked(mem', p, l, head, chain)
    decreases |chain|
  {
    if chain != [] {
      assert WordAt(mem', Slot(p, l, chain[0])) == WordAt(mem, Slot(p, l, chain[0]));
      forall i: nat | i < |chain[1..]|
        ensures WordAt(mem', Slot(p, l, chain[1..][i])) == WordAt(mem, Slot(p, l, chain[1..][i]))
      {
        assert chain[1..][i] == chain[i + 1];
      }
      LinkedFrame(mem, mem', p, l, WordAt(mem, head), chain[1..]);
    }
  }

  /** Writes elsewhere in memory leave the list alone. */
  lemma LinkedElsewhere(mem: Words, mem': Words, p: nat, l: Layout, head: nat, chain: seq<nat>, lo: nat, hi: nat)
    requires ValidLayout(l) && Linked(mem, p, l, head, chain) && IsChain(chain, Count(l))
    requires Untouched(mem, mem', lo, hi)
    requires hi <= p * 4096 || p * 4096 + 4096 <= lo
    ensures Linked(mem', p, l, head, chain)
  {
    forall i: nat | i < |chain| ensures WordAt(mem', Slot(p, l, chain[i])) == WordAt(mem, Slot(p, l, chain[i])) {
      SlotBounds(p, l, chain[i]);
    }
    LinkedFrame(mem, mem', p, l, head, chain);
  }

  /** Pushing slot `k`, which is not on the list. */
  lemma PushLinked(mem: Words, p: nat, l: Layout, head: nat, chain: seq<nat>, k: nat)
    requires ValidLayout(l) && Linked(mem, p, l, head, chain) && IsChain(chain, Count(l)) && k < Count(l) && k !in chain
    requires p * 512 + 512 <= |mem|
    ensures Slot(p, l, k) / 8 < |mem|
    ensures Linked(SetWord(mem, Slot(p, l, k), head), p, l, Slot(p, l, k), [k] + chain)
    ensures IsChain([k] + chain, Count(l))
    ensures Untouched(mem, SetWord(mem, Slot(p, l, k), head), Slot(p, l, k), Slot(p, l, k) + 8)
  {
    SlotBounds(p, l, k);
    var mem' := SetWord(mem, Slot(p, l, k), head);
    forall i: nat | i < |chain| ensures WordAt(mem', Slot(p, l, chain[i])) == WordAt(mem, Slot(p, l, chain[i])) {
      SlotBounds(p, l, chain[i]);
      if Slot(p, l, chain[i]) / 8 == Slot(p, l, k) / 8 { SlotsDistinct(p, l, chain[i], k); }
    }
    LinkedFrame(mem, mem', p, l, head, chain);
    assert ([k] + chain)[1..] == chain;
  }

  lemma ChainBound(chain: seq<nat>, count: nat)
    requires IsChain(chain, count)
    ensures |chain| <= count
  {
    Named(chain, |chain|, count);
    Below(Members(chain, |chain|), count);
  }

  /** The first `n` slots of the list. */
  ghost function Members(chain: seq<nat>, n: nat): set<nat>
    requires n <= |chain|
  {
    if n == 0 then {} else Members(chain, n - 1) + {chain[n - 1]}
  }

  lemma PrefixStep(chain: seq<nat>, n: nat)
    requires 0 < n <= |chain|
    ensures chain[..n] == chain[..n - 1] + [chain[n - 1]]
  {}

  lemma {:induction false} Named(chain: seq<nat>, n: nat, count: nat)
    requires IsChain(chain, count) && n <= |chain|
    ensures |Members(chain, n)| == n && forall x | x in Members(chain, n) :: x < count && x in chain[..n]
    decreases n
  {
    if n > 0 {
      Named(chain, n - 1, count);
      PrefixStep(chain, n);
      assert chain[n - 1] !in chain[..n - 1];
    }
  }

  lemma {:induction false} Below(s: set<nat>, count: nat)
    requires forall x | x in s :: x < count
    ensures |s| <= count
    decreases count
  {
    if count == 0 {
      assert s == {};
    } else {
      Below(s - {count - 1}, count - 1);
      assert s <= (s - {count - 1}) + {count - 1};
    }
  }

  /** A full free list holds every slot, so no slot is live. */
  lemma FullChain(chain: seq<nat>, count: nat, i: nat)
    requires IsChain(chain, count) && |chain| == count && i < count
    ensures i in chain
  {
    if i !in chain {
      assert IsChain([i] + chain, count);
      ChainBound([i] + chain, count);
    }
  }

  // ----- walking and building the list

  /** `kmem_corruption` never returns; the model reports it as an outcome. */
  datatype Search = Corrupt | Found(on: bool)

  /** `pointer_on_free_list`: on a well-formed list neither corruption check fires and the verdict is exact. */
  method PointerOnFreeList(mem: Words, p: nat, l: Layout, count: nat, freeList: nat, ptr: nat, ghost chain: seq<nat>)
    returns (r: Search)
    requires ValidLayout(l) && count == Count(l) && p > 0
    requires Linked(mem, p, l, freeList, chain) && IsChain(chain, count)
    ensures r == Found(exists i: nat | i < |chain| :: Slot(p, l, chain[i]) == ptr)
  {
    ChainBound(chain, count);
    var current, visited := freeList, 0;
    ghost var rest := chain;
    while current != 0 && visited < count
      invariant visited <= |chain| && rest == chain[visited..] && Linked(mem, p, l, current, rest)
      invariant forall i: nat | i < visited :: Slot(p, l, chain[i]) != ptr
      decreases count - visited
    {
      assert rest != [] && rest[0] == chain[visited];
      SlotIndexExact(p, l, current, rest[0]);
      if SlotIndex(p, l, count, current).None? { return Corrupt; }
      if current == ptr { return Found(true); }
      rest := rest[1..];
      current, visited := WordAt(mem, current), visited + 1;
    }
    NullAtEnd(mem, p, l, current, rest);
    if current != 0 { return Corrupt; }
    r := Found(false);
  }

  lemma NullAtEnd(mem: Words, p: nat, l: Layout, head: nat, chain: seq<nat>)
    requires Linked(mem, p, l, head, chain)
    ensures head == 0 <==> chain == []
  {}

  /** Slots `[i, n)` in order. */
  function Upward(i: nat, n: nat): (s: seq<nat>)
    decreases n - i
  {
    if i >= n then [] else [i] + Upward(i + 1, n)
  }

  lemma {:induction false} UpwardIsChain(i: nat, n: nat)
    ensures IsChain(Upward(i, n), n) && |Upward(i, n)| == if i <= n then n - i else 0
    ensures forall x | x in Upward(i, n) :: i <= x < n
    decreases n - i
  {
    if i < n {
      UpwardIsChain(i + 1, n);
      var rest := Upward(i + 1, n);
      forall j: nat | j < |rest| ensures rest[j] != i { assert rest[j] in rest; }
    }
  }

  /** The threading loop of `initialize_slab_page`: every slot is free, the first one first. */
  method ThreadSlots(mem: Words, p: nat, l: Layout, count: nat) returns (m: Words, freeList: nat)
    requires ValidLayout(l) && count == Count(l) && p * 512 + 512 <= |mem|
    ensures Linked(m, p, l, freeList, Upward(0, count)) && IsChain(Upward(0, count), count)
    ensures Untouched(mem, m, p * 4096, p * 4096 + 4096)
  {
    m, freeList := mem, 0;
    var index: nat := count;
    UpwardIsChain(index, count);
    while index > 0
      invariant index <= count && |m| == |mem|
      invariant Linked(m, p, l, freeList, Upward(index, count))
      invariant Untouched(mem, m, p * 4096, p * 4096 + 4096)
    {
      m, freeList := ThreadOne(m, p, l, count, index - 1, freeList, mem);
      index := index - 1;
    }
    UpwardIsChain(0, count);
  }

  method ThreadOne(mem: Words, p: nat, l: Layout, count: nat, k: nat, freeList: nat, ghost mem0: Words)
    returns (m: Words, head: nat)
    requires ValidLayout(l) && count == Count(l) && p * 512 + 512 <= |mem| && k < count
    requires Linked(mem, p, l, freeList, Upward(k + 1, count)) && Untouched(mem0, mem, p * 4096, p * 4096 + 4096)
    ensures Linked(m, p, l, head, Upward(k, count)) && Untouched(mem0, m, p * 4096, p * 4096 + 4096)
  {
    UpwardIsChain(k + 1, count);
    SlotBounds(p, l, k);
    PushLinked(mem, p, l, freeList, Upward(k + 1, count), k);
    head := Slot(p, l, k);
    m := SetWord(mem, head, freeList);
  }
}

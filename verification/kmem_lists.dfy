/**
 The doubly linked slab lists of a cache.  Links are page numbers kept in the slab headers; the
 invariant ties every head and link to a sequence of pages per list.
 */
module KmemLists {
  import opened Basics
  import opened KmemSlabs

  datatype Kind = NoList | Empty | Partial | Full

  /** A slab header; `prev` and `next` are page numbers, 0 for null. */
  datatype Slab = Slab(count: nat, free: nat, objectSize: nat, freeList: nat, prev: nat, next: nat, kind: Kind)

  type Slabs = map<nat, Slab>

  /** The heads of the three lists. */
  datatype Heads = Heads(empty: nat, partial: nat, full: nat)

  function HeadOf(h: Heads, k: Kind): nat
  {
    match k
    case Empty => h.empty
    case Partial => h.partial
    case Full => h.full
    case NoList => 0
  }

  function SetHead(h: Heads, k: Kind, p: nat): Heads
  {
    match k
    case Empty => h.(empty := p)
    case Partial => h.(partial := p)
    case Full => h.(full := p)
    case NoList => h
  }

  /** The lists as sequences of pages. */
  datatype Lists = Lists(empty: seq<nat>, partial: seq<nat>, full: seq<nat>)

  function On(g: Lists, k: Kind): seq<nat>
  {
    match k
    case Empty => g.empty
    case Partial => g.partial
    case Full => g.full
    case NoList => []
  }

  function SetOn(g: Lists, k: Kind, l: seq<nat>): Lists
  {
    match k
    case Empty => g.(empty := l)
    case Partial => g.(partial := l)
    case Full => g.(full := l)
    case NoList => g
  }

  /** Element `i`, or null outside the list. */
  function At(l: seq<nat>, i: int): nat
  {
    if 0 <= i < |l| then l[i] else 0
  }

  predicate NodeOk(slabs: Slabs, l: seq<nat>, i: nat, k: Kind)
  {
    i < |l| && l[i] in slabs && l[i] != 0 && slabs[l[i]].kind == k &&
    slabs[l[i]].prev == At(l, i - 1) && slabs[l[i]].next == At(l, i + 1)
  }

  /** `head` leads forth and back through exactly `l`, whose slabs are marked `k`. */
  ghost predicate ListOk(slabs: Slabs, head: nat, l: seq<nat>, k: Kind)
  {
    && head == At(l, 0) && Distinct(l)
    && forall i: nat | i < |l| :: NodeOk(slabs, l, i, k)
  }

  lemma FirstNode(slabs: Slabs, head: nat, l: seq<nat>, k: Kind)
    requires ListOk(slabs, head, l, k)
    ensures l == [] <==> head == 0
    ensures l != [] ==> head == l[0] && head in slabs && slabs[head].kind == k
  {
    if l != [] { assert NodeOk(slabs, l, 0, k); }
  }

  /** All three lists, and every slab that is marked as listed is on its list. */
  ghost predicate ListsOk(slabs: Slabs, h: Heads, g: Lists)
  {
    && ListOk(slabs, h.empty, g.empty, Empty)
    && ListOk(slabs, h.partial, g.partial, Partial)
    && ListOk(slabs, h.full, g.full, Full)
    && forall p | p in slabs :: slabs[p].kind == NoList || p in On(g, slabs[p].kind)
  }

  /** Same headers up to the list fields. */
  ghost predicate Relinked(slabs: Slabs, slabs': Slabs)
  {
    && slabs'.Keys == slabs.Keys
    && forall p | p in slabs ::
         slabs'[p] == slabs[p].(prev := slabs'[p].prev, next := slabs'[p].next, kind := slabs'[p].kind)
  }

  // ----- unlinking

  function SetNext(slabs: Slabs, p: nat, q: nat): Slabs
  {
    if p in slabs then slabs[p := slabs[p].(next := q)] else slabs
  }

  function SetPrev(slabs: Slabs, p: nat, q: nat): Slabs
  {
    if p in slabs then slabs[p := slabs[p].(prev := q)] else slabs
  }

  /** `detach_slab`, the headers. */
  function DetachSlabs(slabs: Slabs, p: nat): Slabs
    requires p in slabs
  {
    var s := slabs[p];
    var a := if s.prev != 0 then SetNext(slabs, s.prev, s.next) else slabs;
    var b := if s.next != 0 then SetPrev(a, s.next, s.prev) else a;
    b[p := b[p].(prev := 0, next := 0, kind := NoList)]
  }

  /** `detach_slab`, the head pointers. */
  function DetachHeads(slabs: Slabs, h: Heads, p: nat): Heads
    requires p in slabs
  {
    if slabs[p].prev != 0 then h else SetHead(h, slabs[p].kind, slabs[p].next)
  }

  function RemoveAt(l: seq<nat>, i: nat): seq<nat>
    requires i < |l|
  {
    l[..i] + l[i + 1..]
  }

  lemma DetachList(slabs: Slabs, head: nat, l: seq<nat>, k: Kind, i: nat)
    requires ListOk(slabs, head, l, k) && i < |l| && k != NoList && NodeOk(slabs, l, i, k)
    ensures var slabs' := DetachSlabs(slabs, l[i]);
            ListOk(slabs', if slabs[l[i]].prev != 0 then head else slabs[l[i]].next, RemoveAt(l, i), k)
  {
    var p, l', slabs' := l[i], RemoveAt(l, i), DetachSlabs(slabs, l[i]);
    Neighbours(slabs, head, l, k, i);
    forall j: nat | j < |l'| ensures NodeOk(slabs', l', j, k) {
      var o := if j < i then j else j + 1;
      assert l'[j] == l[o] && l[o] != p && NodeOk(slabs, l, o, k);
      if o > 0 { assert l[o - 1] != l[o]; }
      if o + 1 < |l| { assert l[o] != l[o + 1]; }
    }
  }

  lemma Neighbours(slabs: Slabs, head: nat, l: seq<nat>, k: Kind, i: nat)
    requires ListOk(slabs, head, l, k) && i < |l|
    ensures NodeOk(slabs, l, i, k)
    ensures i > 0 ==> NodeOk(slabs, l, i - 1, k)
    ensures i + 1 < |l| ==> NodeOk(slabs, l, i + 1, k)
    ensures i > 0 && i + 1 < |l| ==> l[i - 1] != l[i + 1]
  {}

  /** The other lists do not notice. */
  lemma DetachOther(slabs: Slabs, head: nat, l: seq<nat>, k: Kind, i: nat, head2: nat, l2: seq<nat>, k2: Kind)
    requires ListOk(slabs, head, l, k) && i < |l| && k != NoList && NodeOk(slabs, l, i, k)
    requires ListOk(slabs, head2, l2, k2) && k2 != k
    ensures ListOk(DetachSlabs(slabs, l[i]), head2, l2, k2)
  {
    var p, slabs' := l[i], DetachSlabs(slabs, l[i]);
    Neighbours(slabs, head, l, k, i);
    forall j: nat | j < |l2| ensures NodeOk(slabs', l2, j, k2) {
      assert NodeOk(slabs, l2, j, k2);
    }
  }

  lemma DetachRelinks(slabs: Slabs, head: nat, l: seq<nat>, k: Kind, i: nat)
    requires ListOk(slabs, head, l, k) && i < |l| && k != NoList && NodeOk(slabs, l, i, k)
    ensures var slabs' := DetachSlabs(slabs, l[i]);
            && Relinked(slabs, slabs') && slabs'[l[i]].kind == NoList
            && forall q | q in slabs && q != l[i] :: slabs'[q].kind == slabs[q].kind
  {
    Neighbours(slabs, head, l, k, i);
  }

  lemma Detached(slabs: Slabs, h: Heads, g: Lists, i: nat, p: nat)
    requires ListsOk(slabs, h, g) && p in slabs && slabs[p].kind != NoList
    requires i < |On(g, slabs[p].kind)| && On(g, slabs[p].kind)[i] == p
    ensures var k := slabs[p].kind;
            ListsOk(DetachSlabs(slabs, p), DetachHeads(slabs, h, p), SetOn(g, k, RemoveAt(On(g, k), i)))
    ensures Relinked(slabs, DetachSlabs(slabs, p)) && DetachSlabs(slabs, p)[p].kind == NoList
    ensures forall q | q in slabs && q != p :: DetachSlabs(slabs, p)[q].kind == slabs[q].kind
  {
    var k := slabs[p].kind;
    var l := On(g, k);
    Neighbours(slabs, HeadOf(h, k), l, k, i);
    DetachRelinks(slabs, HeadOf(h, k), l, k, i);
    DetachList(slabs, HeadOf(h, k), l, k, i);
    if k != Empty { DetachOther(slabs, HeadOf(h, k), l, k, i, h.empty, g.empty, Empty); }
    if k != Partial { DetachOther(slabs, HeadOf(h, k), l, k, i, h.partial, g.partial, Partial); }
    if k != Full { DetachOther(slabs, HeadOf(h, k), l, k, i, h.full, g.full, Full); }
    var slabs', g' := DetachSlabs(slabs, p), SetOn(g, k, RemoveAt(l, i));
    forall q | q in slabs' && slabs'[q].kind != NoList ensures q in On(g', slabs'[q].kind) {
      assert q != p && slabs'[q].kind == slabs[q].kind && q in On(g, slabs[q].kind);
      if slabs[q].kind == k { InRemoved(l, i, q); }
    }
  }

  lemma InRemoved(l: seq<nat>, i: nat, q: nat)
    requires i < |l| && q in l && q != l[i]
    ensures q in RemoveAt(l, i)
  {
    var j :| 0 <= j < |l| && l[j] == q;
    assert RemoveAt(l, i)[if j < i then j else j - 1] == q;
  }

  // ----- linking in at the head

  /** `attach_slab`, the headers. */
  function AttachSlabs(slabs: Slabs, h: Heads, p: nat, k: Kind): Slabs
    requires p in slabs
  {
    var head := HeadOf(h, k);
    var a := slabs[p := slabs[p].(prev := 0, next := head)];
    var b := if head != 0 then SetPrev(a, head, p) else a;
    b[p := b[p].(kind := k)]
  }

  lemma AttachList(slabs: Slabs, h: Heads, l: seq<nat>, p: nat, k: Kind)
    requires ListOk(slabs, HeadOf(h, k), l, k) && p in slabs && p != 0 && slabs[p].kind == NoList && k != NoList
    ensures ListOk(AttachSlabs(slabs, h, p, k), p, [p] + l, k)
  {
    var l', slabs' := [p] + l, AttachSlabs(slabs, h, p, k);
    forall j: nat | j < |l| ensures l'[j + 1] == l[j] && l[j] != p { assert NodeOk(slabs, l, j, k); }
    if |l| > 0 { assert NodeOk(slabs, l, 0, k); }
    forall j: nat | j < |l'| ensures NodeOk(slabs', l', j, k) {
      if j > 0 {
        assert l'[j] == l[j - 1] && NodeOk(slabs, l, j - 1, k);
        if j > 1 { assert l[0] != l[j - 1]; }
      }
    }
  }

  lemma AttachOther(slabs: Slabs, h: Heads, l: seq<nat>, p: nat, k: Kind, head2: nat, l2: seq<nat>, k2: Kind)
    requires ListOk(slabs, HeadOf(h, k), l, k) && p in slabs && slabs[p].kind == NoList && k != NoList && k2 != NoList
    requires ListOk(slabs, head2, l2, k2) && k2 != k
    ensures ListOk(AttachSlabs(slabs, h, p, k), head2, l2, k2)
  {
    var slabs' := AttachSlabs(slabs, h, p, k);
    if |l| > 0 { assert NodeOk(slabs, l, 0, k); }
    forall j: nat | j < |l2| ensures NodeOk(slabs', l2, j, k2) {
      assert NodeOk(slabs, l2, j, k2);
    }
  }

  lemma Attached(slabs: Slabs, h: Heads, g: Lists, p: nat, k: Kind)
    requires ListsOk(slabs, h, g) && p in slabs && p != 0 && slabs[p].kind == NoList && k != NoList
    ensures ListsOk(AttachSlabs(slabs, h, p, k), SetHead(h, k, p), SetOn(g, k, [p] + On(g, k)))
    ensures Relinked(slabs, AttachSlabs(slabs, h, p, k)) && AttachSlabs(slabs, h, p, k)[p].kind == k
    ensures forall q | q in slabs && q != p :: AttachSlabs(slabs, h, p, k)[q].kind == slabs[q].kind
  {
    var l := On(g, k);
    AttachList(slabs, h, l, p, k);
    if k != Empty { AttachOther(slabs, h, l, p, k, h.empty, g.empty, Empty); }
    if k != Partial { AttachOther(slabs, h, l, p, k, h.partial, g.partial, Partial); }
    if k != Full { AttachOther(slabs, h, l, p, k, h.full, g.full, Full); }
    var slabs', g' := AttachSlabs(slabs, h, p, k), SetOn(g, k, [p] + l);
    forall q | q in slabs' && slabs'[q].kind != NoList ensures q in On(g', slabs'[q].kind) {
      if q == p { assert On(g', k)[0] == p; } else { assert q in On(g, slabs[q].kind); }
    }
  }

  // ----- moving between lists

  function MoveSlabs(slabs: Slabs, h: Heads, p: nat, k: Kind): Slabs
    requires p in slabs
  {
    if slabs[p].kind == k then slabs else AttachSlabs(DetachSlabs(slabs, p), DetachHeads(slabs, h, p), p, k)
  }

  function MoveHeads(slabs: Slabs, h: Heads, p: nat, k: Kind): Heads
    requires p in slabs
  {
    if slabs[p].kind == k then h else SetHead(DetachHeads(slabs, h, p), k, p)
  }

  ghost function MoveLists(g: Lists, i: nat, p: nat, from: Kind, k: Kind): Lists
    requires i < |On(g, from)|
  {
    if from == k then g
    else
      var out := SetOn(g, from, RemoveAt(On(g, from), i));
      SetOn(out, k, [p] + On(out, k))
  }

  lemma Moved(slabs: Slabs, h: Heads, g: Lists, i: nat, p: nat, k: Kind)
    requires ListsOk(slabs, h, g) && p in slabs && slabs[p].kind != NoList && k != NoList
    requires i < |On(g, slabs[p].kind)| && On(g, slabs[p].kind)[i] == p
    ensures ListsOk(MoveSlabs(slabs, h, p, k), MoveHeads(slabs, h, p, k), MoveLists(g, i, p, slabs[p].kind, k))
    ensures Relinked(slabs, MoveSlabs(slabs, h, p, k)) && MoveSlabs(slabs, h, p, k)[p].kind == k
    ensures forall q | q in slabs && q != p :: MoveSlabs(slabs, h, p, k)[q].kind == slabs[q].kind
  {
    if slabs[p].kind != k {
      Neighbours(slabs, HeadOf(h, slabs[p].kind), On(g, slabs[p].kind), slabs[p].kind, i);
      Detached(slabs, h, g, i, p);
      var from := slabs[p].kind;
      Attached(DetachSlabs(slabs, p), DetachHeads(slabs, h, p), SetOn(g, from, RemoveAt(On(g, from), i)), p, k);
    }
  }

  // ----- free slots of a list

  ghost function FreeSum(slabs: Slabs, l: seq<nat>): nat
  {
    if l == [] then 0 else (if l[0] in slabs then slabs[l[0]].free else 0) + FreeSum(slabs, l[1..])
  }

  lemma {:induction false} FreeSumRemove(slabs: Slabs, l: seq<nat>, i: nat)
    requires i < |l| && l[i] in slabs
    ensures FreeSum(slabs, l) == FreeSum(slabs, RemoveAt(l, i)) + slabs[l[i]].free
    decreases |l|
  {
    if i == 0 {
      assert RemoveAt(l, 0) == l[1..];
    } else {
      FreeSumRemove(slabs, l[1..], i - 1);
      assert RemoveAt(l, i) == [l[0]] + RemoveAt(l[1..], i - 1);
      assert RemoveAt(l, i)[1..] == RemoveAt(l[1..], i - 1);
    }
  }

  lemma FreeSumPush(slabs: Slabs, l: seq<nat>, p: nat)
    requires p in slabs
    ensures FreeSum(slabs, [p] + l) == slabs[p].free + FreeSum(slabs, l)
  {
    assert ([p] + l)[1..] == l;
  }
}

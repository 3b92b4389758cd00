/**
 What destroying a freshly loaded address space does to the allocator.  The teardown takes the words
 of data pages for entries, and these words are the file bytes just copied: so whether the allocator
 stays consistent is a condition on the image, which is stated exactly.  The frames that never come
 back are stated exactly too.
 */
module AbandonedLoads {
  import opened Basics
  import opened Word64
  import opened Entries
  import opened Paging
  import opened VirtualMemories
  import opened Teardown
  import opened SlotTeardown
  import opened UserCopy
  import opened UserElf
  import opened UserImage
  import opened UserPrograms

  // ----- the words of a slot's data pages

  /** Word `i` of the data page behind `v` is not zero and names `f`. */
  ghost predicate NamesAt(mem: Memory, root: nat, v: nat, i: nat, f: nat)
  {
    && v < VPN_LIMIT && i < 512 && Walk(mem, root, v).Small?
    && var x := Entry(mem, Walk(mem, root, v).frame, i); x != 0 && EntryFrame(x) == f
  }

  lemma {:induction false} NamedIndex(mem: Memory, page: nat, n: nat, f: nat) returns (i: nat)
    requires n <= 512 && f in Named(mem, page, n)
    ensures i < n && Entry(mem, page, i) != 0 && EntryFrame(Entry(mem, page, i)) == f
    decreases n
  {
    i := n - 1;
    if f in Named(mem, page, n - 1) { i := NamedIndex(mem, page, n - 1, f); }
  }

  lemma {:induction false} SomeIndex(mem: Memory, t: nat, level: nat, n: nat, f: nat) returns (i: nat)
    requires level >= 1 && n <= 512 && f in WordsSome(mem, t, level, n)
    ensures i < n && f in Words(mem, Entry(mem, t, i), level)
    decreases n
  {
    i := n - 1;
    if f in WordsSome(mem, t, level, n - 1) { i := SomeIndex(mem, t, level, n - 1, f); }
  }

  lemma ChildOf(mem: Memory, root: nat, p: nat, d: nat, e: Word, k: nat, q: nat, deeper: nat)
    requires 1 <= d <= 3 && p < Count(d) && k < 512 && e != 0 && Leads(mem, root, p, d, e) && !(d == 3 && IsLarge(e))
    requires q == p * 512 + k && deeper == d + 1
    ensures q < Count(deeper) && Up(q, deeper - 1) == Up(p, d - 1)
    ensures Leads(mem, root, q, deeper, Entry(mem, EntryFrame(e), k))
  {
    ChildLeads(mem, root, p, d, e, k);
  }

  /** A frame named under entry `e` is named by a word of a data page of the slot. */
  lemma {:induction false} WordsFrom(c: Sharing, w: World, root: nat, slot: nat, p: nat, d: nat, level: nat, e: Word,
                                     f: nat)
    returns (v: nat, i: nat)
    requires Sound(c, w) && IsRoot(w.owner, root) && slot !in c.slots && OwnsLeaves(c, w, root, slot)
    requires 1 <= d <= 4 && p < Count(d) && Up(p, d - 1) == slot && Leads(w.mem, root, p, d, e)
    requires level == 5 - d && f in Words(w.mem, e, level)
    ensures Idx(v, 0) == slot && NamesAt(w.mem, root, v, i, f)
    decreases level
  {
    EntryRole(c, w, root, slot, p, d, e);
    var t := EntryFrame(e);
    if d == 4 {
      FirstPage(p, d);
      v := p * Size(d);
      assert Walk(w.mem, root, v) == Small(t, EntryFlags(e));
      i := NamedIndex(w.mem, t, 512, f);
    } else {
      var k := SomeIndex(w.mem, t, level - 1, 512, f);
      var q, deeper := p * 512 + k, d + 1;
      ChildOf(w.mem, root, p, d, e, k, q, deeper);
      v, i := WordsFrom(c, w, root, slot, q, deeper, level - 1, Entry(w.mem, t, k), f);
    }
  }

  /** A word of a mapped data page is among the words under every table on the way to it. */
  lemma {:induction false} WordsUp(mem: Memory, root: nat, v: nat, k: nat, i: nat, f: nat)
    requires k <= 3 && NamesAt(mem, root, v, i, f) && Descend(mem, root, v, k).Table?
    ensures f in Words(mem, Entry(mem, Descend(mem, root, v, k).t, Idx(v, k)), 4 - k)
    decreases 3 - k
  {
    var t := Descend(mem, root, v, k).t;
    if k == 3 {
      NamedMember(mem, Walk(mem, root, v).frame, 512, i);
    } else {
      StepDown(mem, root, v, k);
      WordsUp(mem, root, v, k + 1, i, f);
      WordsSomeMember(mem, Descend(mem, root, v, k + 1).t, 3 - k, 512, Idx(v, k + 1));
    }
  }

  lemma StepDown(mem: Memory, root: nat, v: nat, k: nat)
    requires k <= 2 && Walk(mem, root, v).Small? && Descend(mem, root, v, k).Table?
    ensures var e := Entry(mem, Descend(mem, root, v, k).t, Idx(v, k));
            e != 0 && Descend(mem, root, v, k + 1) == Table(EntryFrame(e))
  {
    if Descend(mem, root, v, k + 1) == Dead { DeadStays(mem, root, v, k + 1); }
  }

  /** The frames a teardown takes from data words are exactly those that words of mapped pages name. */
  lemma SlotWordsAre(c: Sharing, w: World, root: nat, slot: nat, f: nat)
    requires Sound(c, w) && IsRoot(w.owner, root) && slot < 512 && slot !in c.slots && OwnsLeaves(c, w, root, slot)
    ensures f in SlotWords(w.mem, root, slot) <==>
              exists v: nat, i: nat :: Idx(v, 0) == slot && NamesAt(w.mem, root, v, i, f)
  {
    if f in SlotWords(w.mem, root, slot) {
      FirstPage(slot, 1);
      assert Descend(w.mem, root, slot * Size(1), 0) == Table(root);
      var v, i := WordsFrom(c, w, root, slot, slot, 1, 4, Entry(w.mem, root, slot), f);
    }
    forall v: nat, i: nat | Idx(v, 0) == slot && NamesAt(w.mem, root, v, i, f)
      ensures f in SlotWords(w.mem, root, slot)
    {
      assert Descend(w.mem, root, v, 0) == Table(root);
      WordsUp(w.mem, root, v, 0, i, f);
    }
  }

  // ----- words and file bytes

  lemma {:induction false} BytesOfWord(w: nat, n: nat)
    requires w < Pow2(8 * n)
    ensures LittleEndian(seq<Byte>(n, k requires 0 <= k => GetByte(w, k))) == w
    decreases n
  {
    if n > 0 {
      Pow2Add(8, 8 * (n - 1));
      assert Pow2(8) == 256;
      BytesOfWord(w / 256, n - 1);
      assert seq<Byte>(n, k requires 0 <= k => GetByte(w, k))[1..] ==
          seq<Byte>(n - 1, k requires 0 <= k => GetByte(w / 256, k));
    } else {
      assert Pow2(0) == 1;
    }
  }

  /** Word `i` of page `v` as segment `g` fills it. */
  ghost function ImageWord(g: Segment, v: nat, i: nat): nat
  {
    LittleEndian(seq<Byte>(8, k requires 0 <= k => ByteIn(g, v * 4096 + i * 8 + k)))
  }

  lemma PageWord(s: Space, g: Segment, v: nat, i: nat)
    requires PageHolds(s, v, Some(g)) && i < 512 && HasFrame(s.w.mem, Look(s, v).frame)
    ensures Entry(s.w.mem, Look(s, v).frame, i) == ImageWord(g, v, i)
  {
    var f := Look(s, v).frame;
    var w := Entry(s.w.mem, f, i);
    forall k: nat | k < 8 ensures ByteIn(g, v * 4096 + i * 8 + k) == GetByte(w, k) {
      PageByte(s, g, v, i, k, v * 4096 + i * 8 + k);
    }
    assert seq<Byte>(8, k requires 0 <= k => ByteIn(g, v * 4096 + i * 8 + k)) ==
        seq<Byte>(8, k requires 0 <= k => GetByte(w, k));
    Pow2At64();
    BytesOfWord(w, 8);
  }

  lemma PageByte(s: Space, g: Segment, v: nat, i: nat, k: nat, va: nat)
    requires PageHolds(s, v, Some(g)) && i < 512 && k < 8 && va == v * 4096 + i * 8 + k
    requires HasFrame(s.w.mem, Look(s, v).frame)
    ensures ByteIn(g, va) == GetByte(Entry(s.w.mem, Look(s, v).frame, i), k)
  {
    var pa := Look(s, v).frame * 4096 + (i * 8 + k);
    assert va / 4096 == v && va % 4096 == i * 8 + k;
    assert pa / 8 == 512 * Look(s, v).frame + i && pa % 8 == k;
    assert ByteAt(s.w.mem, Place(s, va)) == ByteIn(g, va);
  }

  // ----- the outcome

  /** No eight bytes of the loaded pages, read as an entry, name a tracked frame that is still owned. */
  ghost predicate Harmless(segs: seq<Segment>, owner: Owners, pageCount: nat)
  {
    forall v: nat, i: nat | SLOT_FIRST <= v < SLOT_END && i < 512 && Covering(segs, v).Some? ::
      HarmlessWord(ImageWord(Covering(segs, v).value, v, i), owner, pageCount)
  }

  predicate HarmlessWord(x: nat, owner: Owners, pageCount: nat)
  {
    x == 0 || x >= WORD_LIMIT || EntryFrame(x) >= pageCount || EntryFrame(x) !in owner
  }

  lemma SpaceTeardownExact(c: Sharing, w: World, w': World, root: nat, pageCount: nat)
    requires Sound(c, w) && IsRoot(w.owner, root) && USER_SLOT !in c.slots && OwnsLeaves(c, w, root, USER_SLOT)
    requires SpaceDestroyed(c, w, w', root, pageCount) && 512 * pageCount <= |w.mem|
    ensures Sound(c, w') <==> forall f | f in SlotWords(w.mem, root, USER_SLOT) && f < pageCount :: f !in w'.owner
  {
    SlotIsTree(c, w, root, USER_SLOT);
    var own, named := SlotFrames(w.mem, root, USER_SLOT), SlotWords(w.mem, root, USER_SLOT);
    forall f | f in own ensures f !in w'.owner {}
    FreedApart(w'.owner.Keys, w.free, own, named, root, pageCount);
    assert forall f | f in w'.free :: HasFrame(w'.mem, f);
  }

  lemma FreedApart(owned: set<nat>, free: set<nat>, own: set<nat>, named: set<nat>, root: nat, pageCount: nat)
    requires owned !! free && owned !! own && root !in owned
    ensures owned !! free + Tracked(own + named, pageCount) + Tracked({root}, pageCount) <==>
            forall f | f in named && f < pageCount :: f !in owned
  {
    var all := free + Tracked(own + named, pageCount) + Tracked({root}, pageCount);
    forall f | f in named && f < pageCount ensures f in all {}
  }

  /** The words of the slot's pages are those of the segments. */
  lemma WordsAreImageWords(c: Sharing, w0: World, s: Space, source: nat, shared: set<nat>, segs: seq<Segment>, v: nat,
                           i: nat, f: nat)
    requires Loading(c, w0, s, source, shared, segs) && Idx(v, 0) == USER_SLOT && i < 512 && v < VPN_LIMIT
    ensures SLOT_FIRST <= v < SLOT_END
    ensures NamesAt(s.w.mem, s.root, v, i, f) <==>
            Covering(segs, v).Some? &&
                var x := ImageWord(Covering(segs, v).value, v, i); 0 < x < WORD_LIMIT && EntryFrame(x) == f
  {
    SlotPages(v);
    assert PageHolds(s, v, Covering(segs, v));
    if Covering(segs, v).Some? { PageWord(s, Covering(segs, v).value, v, i); }
  }

  /**
   A load that is given up, or a program destroyed before it ran: the allocator and the page tables
   stay consistent exactly when the image is harmless.
   */
  lemma AbandonedSound(c: Sharing, w0: World, s: Space, w: World, source: nat, shared: set<nat>, segs: seq<Segment>,
                       pageCount: nat)
    requires Loading(c, w0, s, source, shared, segs) && SpaceDestroyed(c, s.w, w, s.root, pageCount)
    requires 512 * pageCount <= |s.w.mem|
    ensures Sound(c, w) <==> Harmless(segs, w.owner, pageCount)
  {
    LoadedOwnsLeaves(c, w0, s, source, shared, segs);
    SpaceTeardownExact(c, s.w, w, s.root, pageCount);
    if Harmless(segs, w.owner, pageCount) {
      forall f | f in SlotWords(s.w.mem, s.root, USER_SLOT) && f < pageCount ensures f !in w.owner {
        HarmlessName(c, w0, s, w.owner, source, shared, segs, pageCount, f);
      }
    }
    if forall f | f in SlotWords(s.w.mem, s.root, USER_SLOT) && f < pageCount :: f !in w.owner {
      ApartIsHarmless(c, w0, s, w.owner, source, shared, segs, pageCount);
    }
  }

  lemma HarmlessName(c: Sharing, w0: World, s: Space, owner: Owners, source: nat, shared: set<nat>,
                     segs: seq<Segment>, pageCount: nat, f: nat)
    requires Loading(c, w0, s, source, shared, segs) && OwnsLeaves(c, s.w, s.root, USER_SLOT)
    requires Harmless(segs, owner, pageCount)
    requires f in SlotWords(s.w.mem, s.root, USER_SLOT) && f < pageCount
    ensures f !in owner
  {
    SlotWordsAre(c, s.w, s.root, USER_SLOT, f);
    var v: nat, i: nat :| Idx(v, 0) == USER_SLOT && NamesAt(s.w.mem, s.root, v, i, f);
    WordsAreImageWords(c, w0, s, source, shared, segs, v, i, f);
    assert HarmlessWord(ImageWord(Covering(segs, v).value, v, i), owner, pageCount);
  }

  lemma ApartIsHarmless(c: Sharing, w0: World, s: Space, owner: Owners, source: nat, shared: set<nat>,
                        segs: seq<Segment>, pageCount: nat)
    requires Loading(c, w0, s, source, shared, segs) && OwnsLeaves(c, s.w, s.root, USER_SLOT)
    requires forall f | f in SlotWords(s.w.mem, s.root, USER_SLOT) && f < pageCount :: f !in owner
    ensures Harmless(segs, owner, pageCount)
  {
    forall v: nat, i: nat | SLOT_FIRST <= v < SLOT_END && i < 512 && Covering(segs, v).Some?
      ensures HarmlessWord(ImageWord(Covering(segs, v).value, v, i), owner, pageCount)
    {
      var x := ImageWord(Covering(segs, v).value, v, i);
      if 0 < x < WORD_LIMIT {
        PageOfSlot(v);
        WordsAreImageWords(c, w0, s, source, shared, segs, v, i, EntryFrame(x));
        SlotWordsAre(c, s.w, s.root, USER_SLOT, EntryFrame(x));
      }
    }
  }

  lemma PageOfSlot(v: nat)
    requires SLOT_FIRST <= v < SLOT_END
    ensures Idx(v, 0) == USER_SLOT && v < VPN_LIMIT
  {}

  /**
   Of the frames the load took, exactly those that no table or leaf of the slot leads to, and no
   data word names, are lost.
   */
  lemma LostExactly(c: Sharing, w0: World, s: Space, w: World, source: nat, shared: set<nat>, segs: seq<Segment>,
                    pageCount: nat, f: nat)
    requires Loading(c, w0, s, source, shared, segs) && SpaceDestroyed(c, s.w, w, s.root, pageCount)
    requires f in w0.free && f < pageCount
    ensures f !in w.free <==> f !in s.w.free && f != s.root &&
                              f !in SlotFrames(s.w.mem, s.root, USER_SLOT) &&
                                  f !in SlotWords(s.w.mem, s.root, USER_SLOT)
  {}
}

/**
 Tearing down a top-level slot.  `destroy_table` is entered with level 4 on a root entry, so its
 level-1 case runs on the data pages themselves: their non-zero words are taken for entries and the
 frames they name are freed as well.  The freed set is stated exactly, with that part separate.
 */
module Teardown {
  import opened Word64
  import opened Entries
  import opened Paging
  import opened PageFrames
  import opened VirtualMemories

  // ----- what a subtree consists of

  /** The frames under entry `e`: tables at levels above 1, data pages at level 1. */
  ghost function Reach(mem: Memory, e: Word, level: nat): set<nat>
    requires level >= 1
    decreases level, 513
  {
    if e == 0 then {}
    else if level == 1 then {EntryFrame(e)}
    else {EntryFrame(e)} + ReachSome(mem, EntryFrame(e), level - 1, 512)
  }

  /** The frames under the first `n` entries of table `f`. */
  ghost function ReachSome(mem: Memory, f: nat, level: nat, n: nat): set<nat>
    requires level >= 1 && n <= 512
    decreases level, 514, n
  {
    if n == 0 then {} else ReachSome(mem, f, level, n - 1) + Reach(mem, Entry(mem, f, n - 1), level)
  }

  /** The frames that the non-zero words of the first `n` slots of page `f` name. */
  ghost function Named(mem: Memory, f: nat, n: nat): set<nat>
    requires n <= 512
  {
    if n == 0 then {}
    else if Entry(mem, f, n - 1) == 0 then Named(mem, f, n - 1)
    else Named(mem, f, n - 1) + {EntryFrame(Entry(mem, f, n - 1))}
  }

  /** The frames named by words of the data pages under `e`. */
  ghost function Words(mem: Memory, e: Word, level: nat): set<nat>
    requires level >= 1
    decreases level, 513
  {
    if e == 0 then {}
    else if level == 1 then Named(mem, EntryFrame(e), 512)
    else WordsSome(mem, EntryFrame(e), level - 1, 512)
  }

  ghost function WordsSome(mem: Memory, f: nat, level: nat, n: nat): set<nat>
    requires level >= 1 && n <= 512
    decreases level, 514, n
  {
    if n == 0 then {} else WordsSome(mem, f, level, n - 1) + Words(mem, Entry(mem, f, n - 1), level)
  }

  /** No frame is reached twice under `e`. */
  ghost predicate IsTree(mem: Memory, e: Word, level: nat)
    requires level >= 1
    decreases level
  {
    e == 0 || (
      HasFrame(mem, EntryFrame(e)) &&
      (level > 1 ==>
        && (forall i: nat | i < 512 :: IsTree(mem, Entry(mem, EntryFrame(e), i), level - 1))
        && (forall i: nat | i < 512 :: EntryFrame(e) !in Reach(mem, Entry(mem, EntryFrame(e), i), level - 1))
        && (forall i: nat, j: nat | i < j < 512 ::
              Reach(mem, Entry(mem, EntryFrame(e), i), level - 1) !! Reach(mem, Entry(mem, EntryFrame(e), j),
                  level - 1))))
  }

  lemma {:induction false} ReachSomeMember(mem: Memory, f: nat, level: nat, n: nat, i: nat)
    requires level >= 1 && i < n <= 512
    ensures Reach(mem, Entry(mem, f, i), level) <= ReachSome(mem, f, level, n)
    decreases n
  {
    if i < n - 1 { ReachSomeMember(mem, f, level, n - 1, i); }
  }

  lemma {:induction false} WordsSomeMember(mem: Memory, f: nat, level: nat, n: nat, i: nat)
    requires level >= 1 && i < n <= 512
    ensures Words(mem, Entry(mem, f, i), level) <= WordsSome(mem, f, level, n)
    decreases n
  {
    if i < n - 1 { WordsSomeMember(mem, f, level, n - 1, i); }
  }

  lemma {:induction false} NamedMember(mem: Memory, f: nat, n: nat, i: nat)
    requires i < n <= 512 && Entry(mem, f, i) != 0
    ensures EntryFrame(Entry(mem, f, i)) in Named(mem, f, n)
    decreases n
  {
    if i < n - 1 { NamedMember(mem, f, n - 1, i); }
  }

  // ----- a subtree depends only on its own words

  ghost predicate SameWords(mem: Memory, mem': Memory, frames: set<nat>)
  {
    |mem'| == |mem| && forall g: nat, i: nat | g in frames && i < 512 :: Entry(mem', g, i) == Entry(mem, g, i)
  }

  lemma {:induction false} SameSubtree(mem: Memory, mem': Memory, e: Word, level: nat)
    requires level >= 1 && SameWords(mem, mem', Reach(mem, e, level))
    ensures Reach(mem', e, level) == Reach(mem, e, level)
    ensures Words(mem', e, level) == Words(mem, e, level)
    ensures IsTree(mem', e, level) == IsTree(mem, e, level)
    decreases level, 513
  {
    if e != 0 {
      var f := EntryFrame(e);
      if level == 1 {
        SameNamed(mem, mem', f, 512);
      } else {
        SameSome(mem, mem', f, level - 1, 512);
        forall i: nat | i < 512
          ensures Entry(mem', f, i) == Entry(mem, f, i)
          ensures Reach(mem', Entry(mem', f, i), level - 1) == Reach(mem, Entry(mem, f, i), level - 1)
          ensures IsTree(mem', Entry(mem', f, i), level - 1) == IsTree(mem, Entry(mem, f, i), level - 1)
        {
          ReachSomeMember(mem, f, level - 1, 512, i);
          SameSubtree(mem, mem', Entry(mem, f, i), level - 1);
        }
      }
    }
  }

  lemma {:induction false} SameSome(mem: Memory, mem': Memory, f: nat, level: nat, n: nat)
    requires level >= 1 && n <= 512 && SameWords(mem, mem', ReachSome(mem, f, level, n) + {f})
    ensures ReachSome(mem', f, level, n) == ReachSome(mem, f, level, n)
    ensures WordsSome(mem', f, level, n) == WordsSome(mem, f, level, n)
    decreases level, 514, n
  {
    if n > 0 {
      SameSome(mem, mem', f, level, n - 1);
      SameSubtree(mem, mem', Entry(mem, f, n - 1), level);
    }
  }

  lemma {:induction false} SameNamed(mem: Memory, mem': Memory, f: nat, n: nat)
    requires n <= 512 && SameWords(mem, mem', {f})
    ensures Named(mem', f, n) == Named(mem, f, n)
  {
    if n > 0 { SameNamed(mem, mem', f, n - 1); }
  }

  /** In a tree, the `k`-th child shares no frame with its parent or with the children before it. */
  lemma {:induction false} ChildApart(mem: Memory, e: Word, level: nat, k: nat, n: nat)
    requires level > 1 && e != 0 && IsTree(mem, e, level) && n <= k < 512
    ensures EntryFrame(e) !in Reach(mem, Entry(mem, EntryFrame(e), k), level - 1)
    ensures EntryFrame(e) !in ReachSome(mem, EntryFrame(e), level - 1, n)
    ensures Reach(mem, Entry(mem, EntryFrame(e), k), level - 1) !! ReachSome(mem, EntryFrame(e), level - 1, n)
    decreases n
  {
    if n > 0 {
      ChildApart(mem, e, level, k, n - 1);
      assert Reach(mem, Entry(mem, EntryFrame(e), n - 1), level - 1) !! Reach(mem, Entry(mem, EntryFrame(e), k),
          level - 1);
      assert EntryFrame(e) !in Reach(mem, Entry(mem, EntryFrame(e), n - 1), level - 1);
    }
  }

  // ----- the walk

  /** All words of `frames`, and the first `n` entries of `t` from `lo`, are zero; all others are as they were. */
  ghost predicate Cleared(mem: Memory, mem': Memory, frames: set<nat>, t: nat, lo: nat, n: nat)
  {
    |mem'| == |mem| &&
    forall g: nat, j: nat | j < 512 ::
      Entry(mem', g, j) == if g in frames || (g == t && lo <= j < n) then 0 else Entry(mem, g, j)
  }

  /** The part of `fs` the allocator tracks. */
  ghost function Tracked(fs: set<nat>, pageCount: nat): set<nat>
  {
    set f | f in fs && f < pageCount
  }

  lemma TrackedUnion(a: set<nat>, b: set<nat>, pageCount: nat)
    ensures Tracked(a + b, pageCount) == Tracked(a, pageCount) + Tracked(b, pageCount)
  {}

  lemma UnionAssociates(a: set<nat>, b: set<nat>, c: set<nat>)
    ensures (a + b) + c == a + (b + c)
  {}

  /** `frames_.free` of whatever frame an entry names: tracked frames end up free, others are refused. */
  method FreeNamed(frames: PageFrameContainer, e: Word)
    requires frames.Valid() && frames.initialized
    modifies frames`free, frames`freePageCount, frames.bitmap
    ensures frames.Valid()
    ensures frames.free == old(frames.free) + Tracked({EntryFrame(e)}, frames.pageCount)
  {
    FrameBound(e);
    var done := frames.FreePage(BitAnd(e, ADDRESS_MASK));
  }

  lemma ClearStep(mem0: Memory, mem: Memory, f: nat, i: nat, next: nat)
    requires i < 512 && next == i + 1 && HasFrame(mem, f) && Cleared(mem0, mem, {}, f, 0, i)
    ensures Entry(mem, f, i) == Entry(mem0, f, i) && Cleared(mem0, Put(mem, f, i, 0), {}, f, 0, next)
    ensures Entry(mem, f, i) == 0 ==> Cleared(mem0, mem, {}, f, 0, next)
  {}

  lemma NamedStep(mem: Memory, f: nat, i: nat, next: nat, free: set<nat>, free0: set<nat>, pageCount: nat)
    requires i < 512 && next == i + 1 && free == free0 + Tracked(Named(mem, f, i), pageCount)
    ensures free0 + Tracked(Named(mem, f, next), pageCount) ==
            if Entry(mem, f, i) == 0 then free else free + Tracked({EntryFrame(Entry(mem, f, i))}, pageCount)
  {
    TrackedUnion(Named(mem, f, i), {EntryFrame(Entry(mem, f, i))}, pageCount);
  }

  /** The level-1 case: free every frame a non-zero word of page `f` names and clear the word. */
  method ReleaseWords(frames: PageFrameContainer, ram: PhysicalMemory, f: nat)
    requires frames.Valid() && frames.initialized && HasFrame(ram.mem, f)
    modifies frames`free, frames`freePageCount, frames.bitmap, ram`mem
    ensures frames.Valid()
    ensures frames.free == old(frames.free) + Tracked(Named(old(ram.mem), f, 512), frames.pageCount)
    ensures Cleared(old(ram.mem), ram.mem, {}, f, 0, 512)
  {
    ghost var mem0 := ram.mem;
    var i := 0;
    while i < 512
      invariant i <= 512 && frames.Valid()
      invariant frames.free == old(frames.free) + Tracked(Named(mem0, f, i), frames.pageCount)
      invariant Cleared(mem0, ram.mem, {}, f, 0, i)
    {
      var w, next := Entry(ram.mem, f, i), i + 1;
      ClearStep(mem0, ram.mem, f, i, next);
      NamedStep(mem0, f, i, next, frames.free, old(frames.free), frames.pageCount);
      if w != 0 {
        FreeNamed(frames, w);
        ram.mem := Put(ram.mem, f, i, 0);
      }
      i := next;
    }
  }

  /** After its first `k` children are destroyed, child `k` of a tree is still as it was at the start. */
  lemma ChildIntact(mem: Memory, mem': Memory, e: Word, level: nat, k: nat)
    requires level > 1 && e != 0 && IsTree(mem, e, level) && k < 512
    requires Cleared(mem, mem', ReachSome(mem, EntryFrame(e), level - 1, k), EntryFrame(e), 0, k)
    ensures var w := Entry(mem, EntryFrame(e), k);
            && Entry(mem', EntryFrame(e), k) == w
            && IsTree(mem', w, level - 1) && EntryFrame(e) !in Reach(mem', w, level - 1)
            && Reach(mem', w, level - 1) == Reach(mem, w, level - 1)
            && Words(mem', w, level - 1) == Words(mem, w, level - 1)
  {
    ChildApart(mem, e, level, k, k);
    SameSubtree(mem, mem', Entry(mem, EntryFrame(e), k), level - 1);
  }

  lemma ClearedStep(mem: Memory, mem1: Memory, mem2: Memory, f: nat, level: nat, k: nat)
    requires level >= 1 && k < 512
    requires Cleared(mem, mem1, ReachSome(mem, f, level, k), f, 0, k)
    requires Cleared(mem1, mem2, Reach(mem, Entry(mem, f, k), level), f, k, k + 1)
    ensures Cleared(mem, mem2, ReachSome(mem, f, level, k + 1), f, 0, k + 1)
  {
    assert ReachSome(mem, f, level, k + 1) == ReachSome(mem, f, level, k) + Reach(mem, Entry(mem, f, k), level);
  }

  lemma FreedStep(mem: Memory, f: nat, level: nat, k: nat, pageCount: nat)
    requires level >= 1 && k < 512
    ensures Tracked(ReachSome(mem, f, level, k + 1) + WordsSome(mem, f, level, k + 1), pageCount) ==
            Tracked(ReachSome(mem, f, level, k) + WordsSome(mem, f, level, k), pageCount) +
            Tracked(Reach(mem, Entry(mem, f, k), level) + Words(mem, Entry(mem, f, k), level), pageCount)
  {}

  /** The frames strictly below the one `e` names, and the frames named by words below it. */
  ghost function Inside(mem: Memory, e: Word, level: nat): set<nat>
    requires level >= 1
  {
    if level > 1 then ReachSome(mem, EntryFrame(e), level - 1, 512) else {}
  }

  ghost function WordsInside(mem: Memory, e: Word, level: nat): set<nat>
    requires level >= 1
  {
    if level > 1 then WordsSome(mem, EntryFrame(e), level - 1, 512) else Named(mem, EntryFrame(e), 512)
  }

  lemma TreeParts(mem: Memory, e: Word, level: nat, pageCount: nat)
    requires level >= 1 && e != 0
    ensures Reach(mem, e, level) == Inside(mem, e, level) + {EntryFrame(e)}
    ensures Words(mem, e, level) == WordsInside(mem, e, level)
    ensures Tracked(Reach(mem, e, level) + Words(mem, e, level), pageCount) ==
            Tracked(Inside(mem, e, level) + WordsInside(mem, e, level), pageCount) + Tracked({EntryFrame(e)}, pageCount)
  {}

  /** Clearing the contents of a table and then the entry that leads to it clears the whole subtree. */
  lemma ClearedTop(mem: Memory, mem1: Memory, p: nat, i: nat, level: nat)
    requires level >= 1 && i < 512 && HasFrame(mem, p)
    requires var e := Entry(mem, p, i);
             e != 0 && p !in Reach(mem, e, level) && Cleared(mem, mem1, Inside(mem, e, level), EntryFrame(e), 0, 512)
    ensures Cleared(mem, Put(mem1, p, i, 0), Reach(mem, Entry(mem, p, i), level), p, i, i + 1)
  {
    TreeParts(mem, Entry(mem, p, i), level, 0);
  }

  /** Destroy the subtree under entry `i` of frame `p`. */
  method DestroyTable(frames: PageFrameContainer, ram: PhysicalMemory, p: nat, i: nat, level: nat)
    requires frames.Valid() && frames.initialized && HasFrame(ram.mem, p) && i < 512 && level >= 1
    requires IsTree(ram.mem, Entry(ram.mem, p, i), level) && p !in Reach(ram.mem, Entry(ram.mem, p, i), level)
    modifies frames`free, frames`freePageCount, frames.bitmap, ram`mem
    ensures frames.Valid()
    ensures var e := Entry(old(ram.mem), p, i);
            && frames.free == old(frames.free) +
                 Tracked(Reach(old(ram.mem), e, level) + Words(old(ram.mem), e, level), frames.pageCount)
            && Cleared(old(ram.mem), ram.mem, Reach(old(ram.mem), e, level), p, i, i + 1)
    decreases level, 2
  {
    var e := Entry(ram.mem, p, i);
    if e == 0 { return; }
    ghost var mem0 := ram.mem;
    DestroyContents(frames, ram, e, level);
    TreeParts(mem0, e, level, frames.pageCount);
    ClearedTop(mem0, ram.mem, p, i, level);
    UnionAssociates(old(frames.free), Tracked(Inside(mem0, e, level) + WordsInside(mem0, e, level), frames.pageCount),
                    Tracked({EntryFrame(e)}, frames.pageCount));
    FreeNamed(frames, e);
    ram.mem := Put(ram.mem, p, i, 0);
  }

  method DestroyContents(frames: PageFrameContainer, ram: PhysicalMemory, e: Word, level: nat)
    requires frames.Valid() && frames.initialized && level >= 1 && e != 0 && IsTree(ram.mem, e, level)
    modifies frames`free, frames`freePageCount, frames.bitmap, ram`mem
    ensures frames.Valid()
    ensures frames.free == old(frames.free) +
              Tracked(Inside(old(ram.mem), e, level) + WordsInside(old(ram.mem), e, level), frames.pageCount)
    ensures Cleared(old(ram.mem), ram.mem, Inside(old(ram.mem), e, level), EntryFrame(e), 0, 512)
    decreases level, 1
  {
    if level > 1 {
      DestroyChildren(frames, ram, e, level);
    } else {
      ReleaseWords(frames, ram, EntryFrame(e));
    }
  }

  method DestroyChildren(frames: PageFrameContainer, ram: PhysicalMemory, e: Word, level: nat)
    requires frames.Valid() && frames.initialized && level > 1 && e != 0 && IsTree(ram.mem, e, level)
    modifies frames`free, frames`freePageCount, frames.bitmap, ram`mem
    ensures frames.Valid()
    ensures var f := EntryFrame(e);
            && frames.free == old(frames.free) +
                 Tracked(ReachSome(old(ram.mem), f, level - 1, 512) + WordsSome(old(ram.mem), f, level - 1, 512),
                         frames.pageCount)
            && Cleared(old(ram.mem), ram.mem, ReachSome(old(ram.mem), f, level - 1, 512), f, 0, 512)
    decreases level, 0
  {
    ghost var mem0 := ram.mem;
    var f := EntryFrame(e);
    var k := 0;
    while k < 512
      invariant k <= 512 && frames.Valid()
      invariant frames.free == old(frames.free) +
                  Tracked(ReachSome(mem0, f, level - 1, k) + WordsSome(mem0, f, level - 1, k), frames.pageCount)
      invariant Cleared(mem0, ram.mem, ReachSome(mem0, f, level - 1, k), f, 0, k)
    {
      ghost var mem1 := ram.mem;
      ChildIntact(mem0, mem1, e, level, k);
      FreedStep(mem0, f, level - 1, k, frames.pageCount);
      UnionAssociates(old(frames.free),
                      Tracked(ReachSome(mem0, f, level - 1, k) + WordsSome(mem0, f, level - 1, k), frames.pageCount),
                      Tracked(Reach(mem0, Entry(mem0, f, k), level - 1) + Words(mem0, Entry(mem0, f, k), level - 1),
                              frames.pageCount));
      DestroyTable(frames, ram, f, k, level - 1);
      ClearedStep(mem0, mem1, ram.mem, f, level - 1, k);
      k := k + 1;
    }
  }
}

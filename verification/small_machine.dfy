/**
 A machine of six frames with one page table: frame 1 is the root, frames 2, 3 and 4 are the tables
 below its entry 1, and frame 5 is a data page.  On it the two procedures that trust what they read
 go wrong: tearing down a slot whose data page holds a word that names the root, and extending the
 direct map over a block of which only both ends are mapped.
 */
module SmallMachine {
  import opened Word64
  import opened Entries
  import opened Paging
  import opened VirtualMemories
  import opened Teardown
  import opened SlotTeardown
  import opened BootMapping

  /** The first page under entry 1 of the root. */
  const FIRST: nat := 0x800_0000

  function Link(f: nat, flags: Word): Word
    requires f < FRAME_LIMIT
  {
    MakeEntry(f * 4096, flags)
  }

  /**
   Word `k`: leaf entries `first` and `last` at both ends of the lowest table, and `word` at the
   start of the data page.
   */
  function Content(flags: Word, first: Word, last: Word, word: Word, k: int): Word
  {
    if k == 513 then Link(2, flags)
    else if k == 1024 then Link(3, flags)
    else if k == 1536 then Link(4, flags)
    else if k == 2048 then first
    else if k == 2559 then last
    else if k == 2560 then word
    else 0
  }

  function Machine(flags: Word, first: Word, last: Word, word: Word): (mem: Memory)
    ensures |mem| == 3072
  {
    seq(3072, k => Content(flags, first, last, word, k))
  }

  lemma Cell(flags: Word, first: Word, last: Word, word: Word, t: nat, i: nat)
    requires i < 512
    ensures Entry(Machine(flags, first, last, word), t, i) ==
            if t == 1 && i == 1 then Link(2, flags) else if t == 2 && i == 0 then Link(3, flags)
            else if t == 3 && i == 0 then Link(4, flags) else if t == 4 && i == 0 then first
            else if t == 4 && i == 511 then last else if t == 5 && i == 0 then word else 0
  {}

  ghost function Owner(): Owners
  {
    map[1 := Role(1, 0, 0), 2 := Role(1, 1, 1), 3 := Role(1, 2, 512), 4 := Role(1, 3, 0x4_0000), 5 := Role(1, 4, FIRST)]
  }

  ghost function Alone(): Sharing { Sharing(1, {}) }

  lemma LinkIs(f: nat, flags: Word)
    requires f < FRAME_LIMIT && IsPageFlags(flags) && flags != 0
    ensures EntryFrame(Link(f, flags)) == f && EntryFlags(Link(f, flags)) == flags && !IsLarge(Link(f, flags))
    ensures Link(f, flags) != 0
  {
    EntryRoundTrip(f, flags);
  }

  lemma MachineShape(flags: Word, first: Word, last: Word, word: Word)
    requires IsPageFlags(flags) && flags != 0 && TableBits(flags)
    ensures WellFormed(Alone(), Machine(flags, first, last, word), Owner())
  {
    var mem := Machine(flags, first, last, word);
    LinkIs(2, flags);
    LinkIs(3, flags);
    LinkIs(4, flags);
    TableEntryBits(2, flags);
    TableEntryBits(3, flags);
    TableEntryBits(4, flags);
    forall t: nat, i: nat | i < 512 && LeadsDown(mem, Owner(), t, i)
      ensures Hooked(Alone(), mem, Owner(), t, i)
    {
      Cell(flags, first, last, word, t, i);
    }
  }

  /** Where page `v` leads: to a leaf only under the first 512 pages of entry 1. */
  lemma MachineWalk(flags: Word, first: Word, last: Word, word: Word, v: nat)
    requires IsPageFlags(flags) && flags != 0 && v < VPN_LIMIT
    ensures Walk(Machine(flags, first, last, word), 1, v) ==
            if v / 512 != FIRST / 512 then Unmapped
            else
              var e := if v == FIRST then first else if v == FIRST + 511 then last else 0;
              if e == 0 then Unmapped else Small(EntryFrame(e), EntryFlags(e))
  {
    var mem := Machine(flags, first, last, word);
    LinkIs(2, flags);
    LinkIs(3, flags);
    LinkIs(4, flags);
    Cell(flags, first, last, word, 1, Idx(v, 0));
    Cell(flags, first, last, word, 2, Idx(v, 1));
    Cell(flags, first, last, word, 3, Idx(v, 2));
    Cell(flags, first, last, word, 4, Idx(v, 3));
    PrefixIsAll(v);
    assert v / 512 == FIRST / 512 <==> Idx(v, 0) == 1 && Idx(v, 1) == 0 && Idx(v, 2) == 0;
    MachineDescend(mem, flags, v);
  }

  lemma MachineDescend(mem: Memory, flags: Word, v: nat)
    requires Link(2, flags) != 0 && Link(3, flags) != 0 && Link(4, flags) != 0 && !IsLarge(Link(4, flags))
    requires EntryFrame(Link(2, flags)) == 2 && EntryFrame(Link(3, flags)) == 3 && EntryFrame(Link(4, flags)) == 4
    requires Entry(mem, 1, Idx(v, 0)) == if Idx(v, 0) == 1 then Link(2, flags) else 0
    requires Entry(mem, 2, Idx(v, 1)) == if Idx(v, 1) == 0 then Link(3, flags) else 0
    requires Entry(mem, 3, Idx(v, 2)) == if Idx(v, 2) == 0 then Link(4, flags) else 0
    ensures Descend(mem, 1, v, 3) == if Idx(v, 0) == 1 && Idx(v, 1) == 0 && Idx(v, 2) == 0 then Table(4) else Dead
  {
    assert Descend(mem, 1, v, 0) == Table(1);
    assert Descend(mem, 1, v, 1) == if Idx(v, 0) == 1 then Table(2) else Dead;
    assert Descend(mem, 1, v, 2) == if Idx(v, 0) == 1 && Idx(v, 1) == 0 then Table(3) else Dead;
  }

  // ----- teardown

  /** The data page, mapped with `flags`, holds a word that names the root. */
  ghost function Naming(flags: Word): World
  {
    World(Machine(TableFlags(true), Link(5, flags), 0, Link(1, flags)), Owner(), {})
  }

  lemma NamesRoot(flags: Word)
    requires IsPageFlags(flags) && flags != 0
    ensures 1 in SlotWords(Naming(flags).mem, 1, 1)
  {
    var mem, upper := Naming(flags).mem, TableFlags(true);
    TableFlagsAre(true);
    LinkIs(1, flags);
    LinkIs(2, upper);
    LinkIs(3, upper);
    LinkIs(4, upper);
    LinkIs(5, flags);
    Cell(upper, Link(5, flags), 0, Link(1, flags), 1, 1);
    Cell(upper, Link(5, flags), 0, Link(1, flags), 2, 0);
    Cell(upper, Link(5, flags), 0, Link(1, flags), 3, 0);
    Cell(upper, Link(5, flags), 0, Link(1, flags), 4, 0);
    Cell(upper, Link(5, flags), 0, Link(1, flags), 5, 0);
    NamedMember(mem, 5, 512, 0);
    WordsSomeMember(mem, 4, 1, 512, 0);
    WordsSomeMember(mem, 3, 2, 512, 0);
    WordsSomeMember(mem, 2, 3, 512, 0);
  }

  lemma NamingBreaks(flags: Word, w': World)
    requires IsPageFlags(flags) && flags != 0 && SlotDestroyed(Alone(), Naming(flags), w', 1, 1, 6)
    ensures 1 in w'.free && 1 in w'.owner && !Sound(Alone(), w')
  {
    NamingSound(flags);
    NamesRoot(flags);
    Breaks(Alone(), Naming(flags), w', 1, 1, 6);
  }

  /**
   A sound world whose one data page belongs to its slot alone: whatever destroying the slot leaves
   behind is not sound, because the root, which is still in use, was freed.
   */
  lemma TeardownCanBreak(flags: Word)
    requires IsPageFlags(flags) && flags != 0
    ensures Sound(Alone(), Naming(flags)) && OwnsLeaves(Alone(), Naming(flags), 1, 1)
    ensures forall w' | SlotDestroyed(Alone(), Naming(flags), w', 1, 1, 6) ::
              1 in w'.free && 1 in w'.owner && !Sound(Alone(), w')
  {
    NamingSound(flags);
    forall w' | SlotDestroyed(Alone(), Naming(flags), w', 1, 1, 6)
      ensures 1 in w'.free && 1 in w'.owner && !Sound(Alone(), w')
    {
      NamingBreaks(flags, w');
    }
  }

  lemma Breaks(c: Sharing, w: World, w': World, root: nat, slot: nat, pageCount: nat)
    requires Sound(c, w) && IsRoot(w.owner, root) && slot < 512 && slot !in c.slots && OwnsLeaves(c, w, root, slot)
    requires SlotDestroyed(c, w, w', root, slot, pageCount) && 512 * pageCount <= |w.mem|
    requires root in SlotWords(w.mem, root, slot) && root < pageCount
    ensures root in w'.free && root in w'.owner && !Sound(c, w')
  {
    TeardownExact(c, w, w', root, slot, pageCount);
  }

  lemma NamingSound(flags: Word)
    requires IsPageFlags(flags) && flags != 0
    ensures Sound(Alone(), Naming(flags)) && OwnsLeaves(Alone(), Naming(flags), 1, 1)
  {
    var w, upper := Naming(flags), TableFlags(true);
    TableFlagsAre(true);
    MachineShape(upper, Link(5, flags), 0, Link(1, flags));
    forall v: nat | v < VPN_LIMIT && Idx(v, 0) == 1
      ensures Walk(w.mem, 1, v).Unmapped? || (Walk(w.mem, 1, v).Small? && Walk(w.mem, 1, v).frame == 5 && v == FIRST)
    {
      LinkIs(5, flags);
      MachineWalk(upper, Link(5, flags), 0, Link(1, flags), v);
    }
  }

  // ----- the direct map

  /** Of the first block only the first and the last page are mapped, each at its offset. */
  ghost function BothEnds(flags: Word): Space
  {
    Space(World(Machine(TableFlags(true), Link(0, flags), Link(511, flags), 0), Owner(), {}), true, 1)
  }

  /** The block is swept, and the pages in between stay unmapped. */
  lemma HoleSurvives(flags: Word, s: Space, u: nat)
    requires IsPageFlags(flags) && flags != 0 && FIRST < u < FIRST + 511
    ensures Sound(Alone(), BothEnds(flags).w) && Direct(BothEnds(flags), FIRST, 512)
    ensures Swept(Alone(), BothEnds(flags), s, FIRST, 512, FIRST, FIRST + 512, FIRST + 512) ==>
              !Look(s, FIRST).Unmapped? && !Look(s, FIRST + 511).Unmapped? && Look(s, u).Unmapped?
  {
    var s0, upper := BothEnds(flags), TableFlags(true);
    TableFlagsAre(true);
    LinkIs(0, flags);
    LinkIs(511, flags);
    MachineShape(upper, Link(0, flags), Link(511, flags), 0);
    forall v: nat | FIRST <= v < FIRST + 512
      ensures Look(s0, v) == if v == FIRST then Small(0, flags)
                             else if v == FIRST + 511 then Small(511, flags)
                             else Unmapped
    {
      MachineWalk(upper, Link(0, flags), Link(511, flags), 0, v);
    }
    assert u - u % 512 == FIRST;
    if Swept(Alone(), s0, s, FIRST, 512, FIRST, FIRST + 512, FIRST + 512) {
      SampledBlockKeepsHole(Alone(), s0, s, FIRST, 512, FIRST, FIRST + 512, u);
    }
  }
}

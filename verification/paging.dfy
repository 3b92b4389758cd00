/**
 Four-level page tables as words in physical memory, and what a table write does to every
 translation of every address space.

 Each frame that holds a table carries a ghost role: the address space it belongs to, its depth
 below the root, and the virtual-address prefix it serves.  A role determines a frame's place, so
 no table can be reached along two different paths.  Address spaces share the tables under the
 kernel's slots and nothing else.
 */
module Paging {
  import opened Word64
  import opened Entries

  /** Physical memory: frame `f` is the words `[512 * f, 512 * f + 512)`. */
  type Memory = seq<Word>

  /** Virtual page numbers: bits 12..47 of a virtual address. */
  const VPN_LIMIT: nat := 0x10_0000_0000

  // ----- memory

  function Entry(mem: Memory, t: nat, i: nat): Word
  {
    if 512 * t + i < |mem| then mem[512 * t + i] else 0
  }

  predicate HasFrame(mem: Memory, f: nat) { 512 * f + 512 <= |mem| }

  function Put(mem: Memory, t: nat, i: nat, w: Word): (m: Memory)
    requires HasFrame(mem, t) && i < 512
    ensures |m| == |mem|
    ensures forall t': nat, i': nat | i' < 512 ::
              Entry(m, t', i') == if t' == t && i' == i then w else Entry(mem, t', i')
  {
    mem[512 * t + i := w]
  }

  function ZeroPage(mem: Memory, f: nat): (m: Memory)
    requires HasFrame(mem, f)
    ensures |m| == |mem|
    ensures forall t': nat, i': nat | i' < 512 :: Entry(m, t', i') == if t' == f then 0 else Entry(mem, t', i')
  {
    var m := mem[..512 * f] + seq(512, _ => 0) + mem[512 * f + 512..];
    m
  }

  // ----- virtual page numbers

  /** Table index used at depth `k`: bits 39, 30, 21, 12 and up of the address. */
  function Idx(v: nat, k: nat): (i: nat)
    requires k <= 3
    ensures i < 512
  {
    if k == 0 then v / 0x800_0000 % 512
    else if k == 1 then v / 0x4_0000 % 512
    else if k == 2 then v / 512 % 512
    else v % 512
  }

  /** The part of `v` that the first `k` indices spell out. */
  function Prefix(v: nat, k: nat): nat
    requires k <= 4
  {
    if k == 0 then 0 else Prefix(v, k - 1) * 512 + Idx(v, k - 1)
  }

  lemma PrefixIsAll(v: nat)
    requires v < VPN_LIMIT
    ensures Prefix(v, 4) == v
    ensures Prefix(v, 3) == v / 512 && Prefix(v, 2) == v / 0x4_0000 && Prefix(v, 1) == Idx(v, 0)
  {
    assert Prefix(v, 1) == v / 0x800_0000;
    assert Prefix(v, 2) == v / 0x4_0000;
    assert Prefix(v, 3) == v / 512;
  }

  // ----- translation

  datatype Step = Dead | Table(t: nat) | Block(e: Word)

  /** One level: read entry `i`; only the third level can hold 2 MiB entries. */
  function Below(mem: Memory, s: Step, i: nat, third: bool): Step
  {
    match s
    case Table(t) =>
      var e := Entry(mem, t, i);
      if e == 0 then Dead else if third && IsLarge(e) then Block(e) else Table(EntryFrame(e))
    case other => other
  }

  /** The table reached after `k` levels, a 2 MiB entry met on the way, or nothing. */
  function Descend(mem: Memory, root: nat, v: nat, k: nat): Step
    requires k <= 3
  {
    if k == 0 then Table(root) else Below(mem, Descend(mem, root, v, k - 1), Idx(v, k - 1), k == 3)
  }

  /** What a virtual page translates to: a frame and flags, from a 4 KiB or a 2 MiB entry. */
  datatype Leaf = Unmapped | Small(frame: nat, flags: Word) | Large(frame: nat, flags: Word)

  function Walk(mem: Memory, root: nat, v: nat): Leaf
  {
    match Descend(mem, root, v, 3)
    case Dead => Unmapped
    case Block(e) => Large(LargeFrame(e) + v % 512, LargeFlags(e))
    case Table(t) =>
      var e := Entry(mem, t, Idx(v, 3));
      if e == 0 then Unmapped else Small(EntryFrame(e), EntryFlags(e))
  }

  // ----- roles

  /** `depth` 0 is a root, 3 a lowest-level table, 4 a page of user data. */
  datatype Role = Role(space: nat, depth: nat, prefix: nat)

  /** The root whose tables the other roots share, and the top-level slots they share. */
  datatype Sharing = Sharing(home: nat, slots: set<nat>)

  type Owners = map<nat, Role>

  function Child(c: Sharing, r: Role, i: nat): Role
  {
    Role(if r.depth == 0 && i in c.slots then c.home else r.space, r.depth + 1, r.prefix * 512 + i)
  }

  /** The role of the table that `root` uses for `v` at depth `k`. */
  function RoleOn(c: Sharing, root: nat, v: nat, k: nat): Role
    requires k <= 4
  {
    Role(if k >= 1 && Idx(v, 0) in c.slots then c.home else root, k, Prefix(v, k))
  }

  predicate IsTable(owner: Owners, t: nat) { t in owner && owner[t].depth <= 3 }

  predicate IsRoot(owner: Owners, t: nat) { t in owner && owner[t].depth == 0 }

  /** Entry `i` of table `t` leads to a lower table. */
  predicate LeadsDown(mem: Memory, owner: Owners, t: nat, i: nat)
  {
    t in owner && owner[t].depth <= 2 && Entry(mem, t, i) != 0 &&
    !(owner[t].depth == 2 && IsLarge(Entry(mem, t, i)))
  }

  /** Entry `i` of table `t` names the table of the right role, and is present, writable and executable. */
  ghost predicate Hooked(c: Sharing, mem: Memory, owner: Owners, t: nat, i: nat)
  {
    var e := Entry(mem, t, i);
    t in owner && EntryFrame(e) in owner && owner[EntryFrame(e)] == Child(c, owner[t], i) && TableBits(e)
  }

  ghost predicate WellFormed(c: Sharing, mem: Memory, owner: Owners)
  {
    && |mem| <= 512 * FRAME_LIMIT
    && (forall t | t in owner :: HasFrame(mem, t) && owner[t].depth <= 4)
    && (forall t | IsRoot(owner, t) :: owner[t] == Role(t, 0, 0))
    && (forall t: nat, i: nat | i < 512 && LeadsDown(mem, owner, t, i) :: Hooked(c, mem, owner, t, i))
  }

  /** Along any walk, the table at depth `k` has the role the address calls for. */
  lemma {:induction false} DescendRole(c: Sharing, mem: Memory, owner: Owners, root: nat, v: nat, k: nat)
    requires WellFormed(c, mem, owner) && IsRoot(owner, root) && k <= 3
    ensures Descend(mem, root, v, k).Table? ==>
              var t := Descend(mem, root, v, k).t; t in owner && owner[t] == RoleOn(c, root, v, k)
    decreases k
  {
    if k > 0 {
      DescendRole(c, mem, owner, root, v, k - 1);
      if Descend(mem, root, v, k).Table? {
        var t := Descend(mem, root, v, k - 1).t;
        assert LeadsDown(mem, owner, t, Idx(v, k - 1));
      }
    }
  }

  /** The walk of `v` from `root` reads entry `i` of table `t`, which sits at depth `d`. */
  predicate Reads(mem: Memory, root: nat, v: nat, t: nat, i: nat, d: nat)
  {
    d <= 3 && Descend(mem, root, v, d) == Table(t) && Idx(v, d) == i
  }

  lemma BelowAfterPut(mem: Memory, t: nat, i: nat, w: Word, st: Step, j: nat, last: bool)
    requires HasFrame(mem, t) && i < 512 && j < 512 && (st != Table(t) || i != j)
    ensures Below(Put(mem, t, i, w), st, j, last) == Below(mem, st, j, last)
  {}

  /** Writing one table entry leaves every descent that does not read it unchanged. */
  lemma {:induction false} DescendAfterPut(c: Sharing, mem: Memory, owner: Owners, t: nat, i: nat, w: Word,
                                           root: nat, v: nat, k: nat)
    requires WellFormed(c, mem, owner) && IsRoot(owner, root) && k <= 3
    requires IsTable(owner, t) && i < 512
    requires k <= owner[t].depth || !Reads(mem, root, v, t, i, owner[t].depth)
    ensures Descend(Put(mem, t, i, w), root, v, k) == Descend(mem, root, v, k)
    decreases k
  {
    if k > 0 {
      DescendAfterPut(c, mem, owner, t, i, w, root, v, k - 1);
      DescendRole(c, mem, owner, root, v, k - 1);
      assert !Reads(mem, root, v, t, i, k - 1);
      BelowAfterPut(mem, t, i, w, Descend(mem, root, v, k - 1), Idx(v, k - 1), k == 3);
    }
  }

  lemma WalkAfterPut(c: Sharing, mem: Memory, owner: Owners, t: nat, i: nat, w: Word, root: nat, v: nat)
    requires WellFormed(c, mem, owner) && IsRoot(owner, root)
    requires IsTable(owner, t) && i < 512 && !Reads(mem, root, v, t, i, owner[t].depth)
    ensures Walk(Put(mem, t, i, w), root, v) == Walk(mem, root, v)
  {
    DescendAfterPut(c, mem, owner, t, i, w, root, v, 3);
    DescendRole(c, mem, owner, root, v, 3);
  }

  /** Two walks that read the same lowest-level entry are for the same page, in one space or in shared slots. */
  lemma SameEntrySamePage(c: Sharing, mem: Memory, owner: Owners, root: nat, v: nat, root': nat, v': nat, t: nat)
    requires WellFormed(c, mem, owner) && IsRoot(owner, root) && IsRoot(owner, root')
    requires v < VPN_LIMIT && v' < VPN_LIMIT
    requires Descend(mem, root, v, 3) == Table(t) && Reads(mem, root', v', t, Idx(v, 3), 3)
    ensures v' == v && (root' == root || Idx(v, 0) in c.slots)
  {
    DescendRole(c, mem, owner, root, v, 3);
    DescendRole(c, mem, owner, root', v', 3);
    PrefixIsAll(v);
    PrefixIsAll(v');
  }

  // ----- memory changes that no walk can see

  ghost predicate AgreeOnTables(owner: Owners, was: Memory, now: Memory)
  {
    |now| == |was| &&
    forall t: nat, i: nat | IsTable(owner, t) && i < 512 :: Entry(now, t, i) == Entry(was, t, i)
  }

  lemma {:induction false} AgreeDescend(c: Sharing, owner: Owners, was: Memory, now: Memory, root: nat, v: nat, k: nat)
    requires WellFormed(c, was, owner) && AgreeOnTables(owner, was, now) && IsRoot(owner, root) && k <= 3
    ensures Descend(now, root, v, k) == Descend(was, root, v, k)
    decreases k
  {
    if k > 0 {
      AgreeDescend(c, owner, was, now, root, v, k - 1);
      DescendRole(c, was, owner, root, v, k - 1);
    }
  }

  /** Writing outside the tables changes no translation of any address space. */
  lemma AgreeWalk(c: Sharing, owner: Owners, was: Memory, now: Memory, root: nat, v: nat)
    requires WellFormed(c, was, owner) && AgreeOnTables(owner, was, now) && IsRoot(owner, root)
    ensures Walk(now, root, v) == Walk(was, root, v)
  {
    AgreeDescend(c, owner, was, now, root, v, 3);
    DescendRole(c, was, owner, root, v, 3);
  }

  lemma AgreeShape(c: Sharing, owner: Owners, was: Memory, now: Memory)
    requires WellFormed(c, was, owner) && AgreeOnTables(owner, was, now)
    ensures WellFormed(c, now, owner)
  {
    forall t: nat, i: nat | i < 512 && LeadsDown(now, owner, t, i)
      ensures Hooked(c, now, owner, t, i)
    {
      assert IsTable(owner, t) && LeadsDown(was, owner, t, i);
    }
  }

  // ----- adding a table

  /** All roots translate every page the same way in both memories. */
  ghost predicate SameWalks(owner: Owners, was: Memory, now: Memory)
  {
    forall r: nat, v: nat | IsRoot(owner, r) && v < VPN_LIMIT :: Walk(now, r, v) == Walk(was, r, v)
  }

  /** Hooking a zeroed, previously unused frame into an empty entry. */
  ghost function Grown(mem: Memory, t: nat, i: nat, f: nat, flags: Word): Memory
    requires HasFrame(mem, t) && HasFrame(mem, f) && i < 512 && f < FRAME_LIMIT
  {
    Put(ZeroPage(mem, f), t, i, MakeEntry(f * 4096, flags))
  }

  lemma GrowShape(c: Sharing, mem: Memory, owner: Owners, t: nat, i: nat, f: nat, flags: Word)
    requires WellFormed(c, mem, owner) && t in owner && owner[t].depth <= 2 && i < 512
    requires f !in owner && HasFrame(mem, f) && flags != 0 && IsPageFlags(flags) && TableBits(flags)
    ensures f < FRAME_LIMIT
    ensures WellFormed(c, Grown(mem, t, i, f, flags), owner[f := Child(c, owner[t], i)])
  {
    var now, grown := Grown(mem, t, i, f, flags), owner[f := Child(c, owner[t], i)];
    EntryRoundTrip(f, flags);
    TableEntryBits(f, flags);
    forall t': nat, i': nat | i' < 512 && LeadsDown(now, grown, t', i')
      ensures Hooked(c, now, grown, t', i')
    {
      if t' != f && !(t' == t && i' == i) {
        assert LeadsDown(mem, owner, t', i');
      }
    }
  }

  /** The new, empty table changes no translation: what reached the empty entry was unmapped and stays so. */
  lemma GrowWalk(c: Sharing, mem: Memory, owner: Owners, t: nat, i: nat, f: nat, flags: Word, root: nat, v: nat)
    requires WellFormed(c, mem, owner) && t in owner && owner[t].depth <= 2 && i < 512
    requires Entry(mem, t, i) == 0 && IsRoot(owner, root)
    requires f !in owner && HasFrame(mem, f) && flags != 0 && IsPageFlags(flags) && f < FRAME_LIMIT
    ensures Walk(Grown(mem, t, i, f, flags), root, v) == Walk(mem, root, v)
  {
    var zeroed, now := ZeroPage(mem, f), Grown(mem, t, i, f, flags);
    AgreeShape(c, owner, mem, zeroed);
    AgreeWalk(c, owner, mem, zeroed, root, v);
    var d := owner[t].depth;
    AgreeDescend(c, owner, mem, zeroed, root, v, d);
    if Reads(mem, root, v, t, i, d) {
      DescendAfterPut(c, zeroed, owner, t, i, MakeEntry(f * 4096, flags), root, v, d);
      EntryRoundTrip(f, flags);
      assert Descend(mem, root, v, d + 1) == Dead;
      DeadStays(mem, root, v, d + 1);
      assert Descend(now, root, v, d + 1) == Table(f);
      EmptyTableIsDead(now, root, v, d + 1, f);
    } else {
      WalkAfterPut(c, zeroed, owner, t, i, MakeEntry(f * 4096, flags), root, v);
    }
  }

  /** The walk that grew the table now continues into it. */
  lemma GrowDescend(c: Sharing, mem: Memory, owner: Owners, t: nat, f: nat, flags: Word, root: nat, v: nat, d: nat)
    requires WellFormed(c, mem, owner) && IsRoot(owner, root) && d <= 2
    requires Descend(mem, root, v, d) == Table(t)
    requires f !in owner && HasFrame(mem, f) && flags != 0 && IsPageFlags(flags) && f < FRAME_LIMIT
    ensures t in owner && owner[t].depth == d
    ensures Descend(Grown(mem, t, Idx(v, d), f, flags), root, v, d) == Table(t)
    ensures Descend(Grown(mem, t, Idx(v, d), f, flags), root, v, d + 1) == Table(f)
  {
    DescendRole(c, mem, owner, root, v, d);
    var zeroed := ZeroPage(mem, f);
    AgreeShape(c, owner, mem, zeroed);
    AgreeDescend(c, owner, mem, zeroed, root, v, d);
    DescendAfterPut(c, zeroed, owner, t, Idx(v, d), MakeEntry(f * 4096, flags), root, v, d);
    EntryRoundTrip(f, flags);
  }

  lemma {:induction false} DeadStays(mem: Memory, root: nat, v: nat, k: nat)
    requires k <= 3 && Descend(mem, root, v, k) == Dead
    ensures Walk(mem, root, v) == Unmapped
    decreases 3 - k
  {
    if k < 3 { DeadStays(mem, root, v, k + 1); }
  }

  lemma {:induction false} EmptyTableIsDead(mem: Memory, root: nat, v: nat, k: nat, f: nat)
    requires k <= 3 && Descend(mem, root, v, k) == Table(f)
    requires forall i: nat | i < 512 :: Entry(mem, f, i) == 0
    ensures Walk(mem, root, v) == Unmapped
  {
    if k < 3 { DeadStays(mem, root, v, k + 1); }
  }

  // ----- making an existing entry user-visible

  /** Setting the User bit of a table entry changes no translation and keeps the shape. */
  lemma MarkUserShape(c: Sharing, mem: Memory, owner: Owners, t: nat, i: nat)
    requires WellFormed(c, mem, owner) && i < 512 && LeadsDown(mem, owner, t, i)
    ensures WellFormed(c, Put(mem, t, i, BitOr(Entry(mem, t, i), USER)), owner)
  {
    var now := Put(mem, t, i, BitOr(Entry(mem, t, i), USER));
    AddUserKeepsFrame(Entry(mem, t, i));
    AddUserBits(Entry(mem, t, i));
    forall t': nat, i': nat | i' < 512 && LeadsDown(now, owner, t', i')
      ensures Hooked(c, now, owner, t', i')
    {
      assert LeadsDown(mem, owner, t', i');
    }
  }

  lemma {:induction false} MarkUserDescend(mem: Memory, owner: Owners, t: nat, i: nat, root: nat, v: nat, k: nat)
    requires HasFrame(mem, t) && i < 512 && LeadsDown(mem, owner, t, i) && k <= 3
    requires forall j: nat | j < k :: Descend(mem, root, v, j) == Table(t) ==> owner[t].depth == j
    ensures Descend(Put(mem, t, i, BitOr(Entry(mem, t, i), USER)), root, v, k) == Descend(mem, root, v, k)
    decreases k
  {
    if k > 0 {
      MarkUserDescend(mem, owner, t, i, root, v, k - 1);
      AddUserKeepsFrame(Entry(mem, t, i));
    }
  }

  lemma MarkUserWalk(c: Sharing, mem: Memory, owner: Owners, t: nat, i: nat, root: nat, v: nat)
    requires WellFormed(c, mem, owner) && i < 512 && LeadsDown(mem, owner, t, i) && IsRoot(owner, root)
    ensures Walk(Put(mem, t, i, BitOr(Entry(mem, t, i), USER)), root, v) == Walk(mem, root, v)
  {
    forall j: nat | j < 3 ensures Descend(mem, root, v, j) == Table(t) ==> owner[t].depth == j {
      DescendRole(c, mem, owner, root, v, j);
    }
    MarkUserDescend(mem, owner, t, i, root, v, 3);
    DescendRole(c, mem, owner, root, v, 3);
  }

  // ----- writing a lowest-level entry

  lemma LeafShape(c: Sharing, mem: Memory, owner: Owners, t: nat, i: nat, w: Word)
    requires WellFormed(c, mem, owner) && t in owner && owner[t].depth == 3 && i < 512
    ensures WellFormed(c, Put(mem, t, i, w), owner)
  {
    var now := Put(mem, t, i, w);
    forall t': nat, i': nat | i' < 512 && LeadsDown(now, owner, t', i')
      ensures Hooked(c, now, owner, t', i')
    {
      assert LeadsDown(mem, owner, t', i');
    }
  }

  /** The page whose entry is written gets the new leaf; every other page of every space keeps its own. */
  lemma LeafWalk(c: Sharing, mem: Memory, owner: Owners, root: nat, v: nat, t: nat, w: Word, root': nat, v': nat)
    requires WellFormed(c, mem, owner) && IsRoot(owner, root) && IsRoot(owner, root')
    requires v < VPN_LIMIT && v' < VPN_LIMIT && Descend(mem, root, v, 3) == Table(t)
    ensures t in owner && owner[t].depth == 3
    ensures var now := Put(mem, t, Idx(v, 3), w);
            && (root' == root && v' == v ==>
                  Walk(now, root', v') == if w == 0 then Unmapped else Small(EntryFrame(w), EntryFlags(w)))
            && (v' != v || (root' != root && Idx(v, 0) !in c.slots) ==> Walk(now, root', v') == Walk(mem, root', v'))
  {
    DescendRole(c, mem, owner, root, v, 3);
    if root' == root && v' == v {
      DescendAfterPut(c, mem, owner, t, Idx(v, 3), w, root, v, 3);
    } else {
      if Reads(mem, root', v', t, Idx(v, 3), 3) {
        SameEntrySamePage(c, mem, owner, root, v, root', v', t);
      } else {
        WalkAfterPut(c, mem, owner, t, Idx(v, 3), w, root', v');
      }
    }
  }

  // ----- writing a 2 MiB entry

  lemma BlockShape(c: Sharing, mem: Memory, owner: Owners, t: nat, i: nat, w: Word)
    requires WellFormed(c, mem, owner) && t in owner && owner[t].depth == 2 && i < 512 && IsLarge(w)
    ensures WellFormed(c, Put(mem, t, i, w), owner)
  {
    var now := Put(mem, t, i, w);
    forall t': nat, i': nat | i' < 512 && LeadsDown(now, owner, t', i')
      ensures Hooked(c, now, owner, t', i')
    {
      assert LeadsDown(mem, owner, t', i');
    }
  }

  /** Every page outside the block, and the block of every other space, keeps its translation. */
  lemma BlockWalkElsewhere(c: Sharing, mem: Memory, owner: Owners, root: nat, v: nat, t: nat, w: Word, root': nat,
                           v': nat)
    requires WellFormed(c, mem, owner) && IsRoot(owner, root) && IsRoot(owner, root') && IsLarge(w) && w != 0
    requires v < VPN_LIMIT && v' < VPN_LIMIT && Descend(mem, root, v, 2) == Table(t)
    requires v' / 512 != v / 512 || (root' != root && Idx(v, 0) !in c.slots)
    ensures t in owner && owner[t].depth == 2 && Walk(Put(mem, t, Idx(v, 2), w), root', v') == Walk(mem, root', v')
  {
    DescendRole(c, mem, owner, root, v, 2);
    DescendRole(c, mem, owner, root', v', 2);
    PrefixIsAll(v);
    PrefixIsAll(v');
    assert v' / 512 == v / 512 <==> Prefix(v', 3) == Prefix(v, 3);
    WalkAfterPut(c, mem, owner, t, Idx(v, 2), w, root', v');
  }

  /** All 512 pages of the block get the new translation. */
  lemma BlockWalk(c: Sharing, mem: Memory, owner: Owners, root: nat, v: nat, t: nat, w: Word, v': nat)
    requires WellFormed(c, mem, owner) && IsRoot(owner, root) && IsLarge(w) && w != 0
    requires v < VPN_LIMIT && v' < VPN_LIMIT && v' / 512 == v / 512 && Descend(mem, root, v, 2) == Table(t)
    ensures t in owner && owner[t].depth == 2
    ensures Walk(Put(mem, t, Idx(v, 2), w), root, v') == Large(LargeFrame(w) + v' % 512, LargeFlags(w))
  {
    DescendRole(c, mem, owner, root, v, 2);
    SameUpper(mem, root, v, v', 2);
    DescendAfterPut(c, mem, owner, t, Idx(v, 2), w, root, v', 2);
  }

  /** Pages of one 2 MiB block descend through the same upper tables. */
  lemma {:induction false} SameUpper(mem: Memory, root: nat, v: nat, v': nat, k: nat)
    requires v / 512 == v' / 512 && k <= 3
    ensures Descend(mem, root, v, k) == Descend(mem, root, v', k)
    ensures k <= 2 ==> Idx(v, k) == Idx(v', k)
    decreases k
  {
    assert v / 0x4_0000 == (v / 512) / 512 && v' / 0x4_0000 == (v' / 512) / 512;
    assert v / 0x800_0000 == (v / 512) / 0x4_0000 && v' / 0x800_0000 == (v' / 512) / 0x4_0000;
    if k > 0 { SameUpper(mem, root, v, v', k - 1); }
  }

  // ----- the kernel's translate, bit by bit

  datatype Translation = Fault | Mapped(physical: Word, flags: Word)

  /** `(virtual_address >> shift) & 0x1FF` */
  function PageIndex(va: Word, shift: nat): nat
  {
    BitAnd(Shr(va, shift), 0x1FF)
  }

  function Vpn(va: nat): nat { va / 4096 % VPN_LIMIT }

  function Translate(mem: Memory, root: Word, va: Word): Translation
  {
    var pml4e := Entry(mem, root / 4096, PageIndex(va, 39));
    if pml4e == 0 then Fault else
    var pml3e := Entry(mem, EntryFrame(pml4e), PageIndex(va, 30));
    if pml3e == 0 then Fault else
    var pml2e := Entry(mem, EntryFrame(pml3e), PageIndex(va, 21));
    if pml2e == 0 then Fault
    else if BitAnd(pml2e, LARGE_PAGE) != 0 then
      Mapped(BitOr(BitAnd(pml2e, LARGE_ADDRESS_MASK), BitAnd(va, 0x1F_FFFF)), BitAnd(pml2e, Not(LARGE_ADDRESS_MASK)))
    else
      var pml1e := Entry(mem, EntryFrame(pml2e), PageIndex(va, 12));
      if pml1e == 0 then Fault
      else Mapped(BitOr(BitAnd(pml1e, ADDRESS_MASK), BitAnd(va, 0xFFF)), BitAnd(pml1e, Not(ADDRESS_MASK)))
  }

  /** A page's translation applied to one of its bytes. */
  function ByteOf(leaf: Leaf, va: Word): Translation
  {
    if leaf.Unmapped? || leaf.frame >= FRAME_LIMIT then Fault else Mapped(leaf.frame * 4096 + va % 4096, leaf.flags)
  }

  /** Bit-level translation of an address is the page walk of its page number plus the offset. */
  lemma TranslateIsWalk(mem: Memory, root: Word, va: Word)
    ensures Translate(mem, root, va) == ByteOf(Walk(mem, root / 4096, Vpn(va)), va)
    ensures var leaf := Walk(mem, root / 4096, Vpn(va)); leaf.Unmapped? || leaf.frame < FRAME_LIMIT
  {
    var v := Vpn(va);
    IndexIsIdx(va);
    var s := Descend(mem, root / 4096, v, 3);
    if s.Block? {
      LargeByte(s.e, va);
    } else if s.Table? && Entry(mem, s.t, Idx(v, 3)) != 0 {
      SmallByte(Entry(mem, s.t, Idx(v, 3)), va);
    }
    Unrolled(mem, root / 4096, v);
  }

  lemma Unrolled(mem: Memory, root: nat, v: nat)
    ensures Descend(mem, root, v, 3) ==
            Below(mem, Below(mem, Below(mem, Table(root), Idx(v, 0), false), Idx(v, 1), false), Idx(v, 2), true)
  {
    assert Descend(mem, root, v, 1) == Below(mem, Descend(mem, root, v, 0), Idx(v, 0), false);
    assert Descend(mem, root, v, 2) == Below(mem, Descend(mem, root, v, 1), Idx(v, 1), false);
  }

  lemma IndexIsIdx(va: Word)
    ensures PageIndex(va, 39) == Idx(Vpn(va), 0) && PageIndex(va, 30) == Idx(Vpn(va), 1)
    ensures PageIndex(va, 21) == Idx(Vpn(va), 2) && PageIndex(va, 12) == Idx(Vpn(va), 3)
  {
    Powers();
    Pow2Add(21, 9);
    Pow2Add(30, 9);
    assert Pow2(9) == 512;
    LowMask(Shr(va, 39), 9, 0x1FF);
    LowMask(Shr(va, 30), 9, 0x1FF);
    LowMask(Shr(va, 21), 9, 0x1FF);
    LowMask(Shr(va, 12), 9, 0x1FF);
    IndexArithmetic(va);
  }

  lemma IndexArithmetic(va: nat)
    ensures va / 0x80_0000_0000 % 512 == Vpn(va) / 0x800_0000 % 512
    ensures va / 0x4000_0000 % 512 == Vpn(va) / 0x4_0000 % 512
    ensures va / 0x20_0000 % 512 == Vpn(va) / 512 % 512
    ensures va / 4096 % 512 == Vpn(va) % 512
  {
    DivDiv(va, 4096, 0x800_0000);
    DivDiv(va, 4096, 0x4_0000);
    DivDiv(va, 4096, 512);
    var x := va / 4096;
    FieldOfRemainder(x, 0x800_0000, 1);
    FieldOfRemainder(x, 0x4_0000, 512);
    FieldOfRemainder(x, 512, 0x4_0000);
    FieldOfRemainder(x, 1, 0x800_0000);
  }

  /** A base-512 digit of `x % VPN_LIMIT` is that digit of `x`. */
  lemma FieldOfRemainder(x: nat, d: nat, k: nat)
    requires d > 0 && d * (512 * k) == VPN_LIMIT
    ensures (x % VPN_LIMIT) / d % 512 == x / d % 512
  {
    var q, r := x / VPN_LIMIT, x % VPN_LIMIT;
    var m := k * q;
    assert x == (d * (512 * k)) * q + r;
    MulAssociates(d, 512 * k, q);
    MulAssociates(512, k, q);
    assert x == d * (512 * m) + r;
    DropMultiple(x, d, m, r);
  }

  lemma DropMultiple(x: nat, d: nat, m: nat, r: nat)
    requires d > 0 && x == d * (512 * m) + r
    ensures x / d % 512 == r / d % 512
  {
    var a, b := r / d, r % d;
    assert r == d * a + b;
    MulDistributes(d, 512 * m, a);
    QuotientUnique(x, d, 512 * m + a, b);
  }

  lemma SmallByte(e: Word, va: Word)
    ensures EntryFrame(e) < FRAME_LIMIT
    ensures BitOr(BitAnd(e, ADDRESS_MASK), BitAnd(va, 0xFFF)) == EntryFrame(e) * 4096 + va % 4096
  {
    Powers();
    FrameBound(e);
    LowMask(va, 12, 0xFFF);
    OrIsSum(EntryFrame(e), va % 4096, 12);
  }

  lemma LargeByte(e: Word, va: Word)
    ensures LargeFrame(e) + Vpn(va) % 512 < FRAME_LIMIT
    ensures BitOr(BitAnd(e, LARGE_ADDRESS_MASK), BitAnd(va, 0x1F_FFFF)) ==
            (LargeFrame(e) + Vpn(va) % 512) * 4096 + va % 4096
  {
    Powers();
    LargeFrameBound(e);
    LowMask(va, 21, 0x1F_FFFF);
    OrIsSum(LargeFrame(e) / 512, va % 0x20_0000, 21);
    IndexArithmetic(va);
    OffsetInBlock(va);
  }

  lemma OffsetInBlock(va: nat)
    ensures va % 0x20_0000 == (va / 4096 % 512) * 4096 + va % 4096
  {
    var x := va / 4096;
    var q, r := x / 512, x % 512;
    assert va == 4096 * x + va % 4096;
    QuotientUnique(va, 0x20_0000, q, 4096 * r + va % 4096);
  }
}

/**
 Destroying the user slot of an address space whose data pages it owns: the slot becomes
 unmapped, all its frames become free, and no other translation changes.  Whether the allocator
 stays consistent depends on the words the data pages happen to hold.
 */
module SlotTeardown {
  import opened Word64
  import opened Entries
  import opened Paging
  import opened PageFrames
  import opened VirtualMemories
  import opened Teardown

  // ----- prefixes of page numbers

  /** The prefix `k` levels further up. */
  function Up(p: nat, k: nat): nat
  {
    if k == 0 then p else Up(p / 512, k - 1)
  }

  lemma {:induction false} UpStep(p: nat, k: nat)
    ensures Up(p, k + 1) == Up(p, k) / 512
    decreases k
  {
    if k > 0 { UpStep(p / 512, k - 1); }
  }

  /** Pages below a depth-`d` table. */
  function Size(d: nat): nat
    requires 1 <= d <= 4
  {
    if d == 1 then 0x800_0000 else if d == 2 then 0x4_0000 else if d == 3 then 512 else 1
  }

  function Count(d: nat): nat
    requires 1 <= d <= 4
  {
    if d == 1 then 512 else if d == 2 then 0x4_0000 else if d == 3 then 0x800_0000 else VPN_LIMIT
  }

  lemma FirstPage(p: nat, d: nat)
    requires 1 <= d <= 4 && p < Count(d)
    ensures p * Size(d) < VPN_LIMIT && Prefix(p * Size(d), d) == p && Idx(p * Size(d), 0) == Up(p, d - 1)
  {
    var v := p * Size(d);
    PrefixIsAll(v);
    UpStep(p, 0);
    UpStep(p, 1);
    UpStep(p, 2);
  }

  /** Pages with the same first `d` indices descend alike to depth `d`. */
  lemma {:induction false} SamePrefixDescend(mem: Memory, root: nat, u: nat, v: nat, d: nat)
    requires d <= 3 && Prefix(u, d) == Prefix(v, d)
    ensures Descend(mem, root, u, d) == Descend(mem, root, v, d)
    decreases d
  {
    if d > 0 { SamePrefixDescend(mem, root, u, v, d - 1); }
  }

  // ----- the frames of a slot

  /** The role of a table or data page under `slot` of `root`. */
  predicate InSlot(r: Role, root: nat, slot: nat)
  {
    r.space == root && 1 <= r.depth <= 4 && Up(r.prefix, r.depth - 1) == slot
  }

  /** Under prefix `p` of depth `d`. */
  predicate Under(owner: Owners, root: nat, p: nat, d: nat, g: nat)
  {
    g in owner && owner[g].space == root && d <= owner[g].depth <= 4 && Up(owner[g].prefix, owner[g].depth - d) == p
  }

  ghost predicate AllUnder(owner: Owners, root: nat, p: nat, d: nat, frames: set<nat>)
  {
    forall g | g in frames :: Under(owner, root, p, d, g)
  }

  /** Every page of the slot is unmapped or maps a data page that belongs to it alone. */
  ghost predicate OwnsLeaves(c: Sharing, w: World, root: nat, slot: nat)
  {
    forall v: nat | v < VPN_LIMIT && Idx(v, 0) == slot ::
      var leaf := Walk(w.mem, root, v);
      leaf.Unmapped? || (leaf.Small? && leaf.frame in w.owner && w.owner[leaf.frame] == Role(root, 4, v))
  }

  /** Entry `e` is where the walk to prefix `p` stands at depth `d`. */
  predicate Leads(mem: Memory, root: nat, p: nat, d: nat, e: Word)
    requires 1 <= d <= 4
  {
    var s := Descend(mem, root, p * Size(d), d - 1);
    s.Table? && Entry(mem, s.t, Idx(p * Size(d), d - 1)) == e
  }

  lemma ChildLeads(mem: Memory, root: nat, p: nat, d: nat, e: Word, i: nat)
    requires 1 <= d <= 3 && p < Count(d) && i < 512 && e != 0 && Leads(mem, root, p, d, e) && !(d == 3 && IsLarge(e))
    ensures p * 512 + i < Count(d + 1) && Up(p * 512 + i, d) == Up(p, d - 1)
    ensures Leads(mem, root, p * 512 + i, d + 1, Entry(mem, EntryFrame(e), i))
  {
    var q := p * 512 + i;
    FirstPage(p, d);
    FirstPage(q, d + 1);
    assert q / 512 == p;
    var u, v := q * Size(d + 1), p * Size(d);
    assert Prefix(u, d + 1) == Prefix(u, d) * 512 + Idx(u, d);
    assert Prefix(u, d) == p && Idx(u, d) == i;
    SamePrefixDescend(mem, root, u, v, d);
  }

  lemma EntryRole(c: Sharing, w: World, root: nat, slot: nat, p: nat, d: nat, e: Word)
    requires Sound(c, w) && IsRoot(w.owner, root) && slot !in c.slots && OwnsLeaves(c, w, root, slot)
    requires 1 <= d <= 4 && p < Count(d) && Up(p, d - 1) == slot && e != 0 && Leads(w.mem, root, p, d, e)
    ensures !(d == 3 && IsLarge(e))
    ensures EntryFrame(e) in w.owner && w.owner[EntryFrame(e)] == Role(root, d, p)
  {
    var v := p * Size(d);
    FirstPage(p, d);
    PrefixIsAll(v);
    var leaf := Walk(w.mem, root, v);
    if d == 4 {
      assert leaf == Small(EntryFrame(e), EntryFlags(e));
    } else {
      assert d == 3 && IsLarge(e) ==> leaf.Large?;
      assert Descend(w.mem, root, v, d) == Table(EntryFrame(e));
      DescendRole(c, w.mem, w.owner, root, v, d);
    }
  }

  /** Everything under entry `e` has a role under prefix `p`, so no frame is reached twice. */
  lemma {:induction false} SubtreeIsTree(c: Sharing, w: World, root: nat, slot: nat, p: nat, d: nat, e: Word)
    requires Sound(c, w) && IsRoot(w.owner, root) && slot !in c.slots && OwnsLeaves(c, w, root, slot)
    requires 1 <= d <= 4 && p < Count(d) && Up(p, d - 1) == slot && Leads(w.mem, root, p, d, e)
    ensures IsTree(w.mem, e, 5 - d)
    ensures AllUnder(w.owner, root, p, d, Reach(w.mem, e, 5 - d))
    decreases 5 - d, 0
  {
    if e != 0 {
      EntryRole(c, w, root, slot, p, d, e);
      if d < 4 {
        ChildTrees(c, w, root, slot, p, d, d + 1, e, EntryFrame(e));
        SomeUnder(w, root, p, d, EntryFrame(e), 512);
        SiblingsApart(w, root, p, d, EntryFrame(e));
      }
    }
  }

  lemma {:induction false} ChildTrees(c: Sharing, w: World, root: nat, slot: nat, p: nat, d: nat, d': nat, e: Word,
                                      f: nat)
    requires Sound(c, w) && IsRoot(w.owner, root) && slot !in c.slots && OwnsLeaves(c, w, root, slot)
    requires 1 <= d <= 3 && d' == d + 1 && p < Count(d) && Up(p, d - 1) == slot && Leads(w.mem, root, p, d, e)
    requires e != 0 && f == EntryFrame(e) && !(d == 3 && IsLarge(e))
    ensures forall i: nat | i < 512 ::
              IsTree(w.mem, Entry(w.mem, f, i), 4 - d) &&
              AllUnder(w.owner, root, p * 512 + i, d', Reach(w.mem, Entry(w.mem, f, i), 4 - d))
    decreases 4 - d, 1
  {
    forall i: nat | i < 512
      ensures IsTree(w.mem, Entry(w.mem, f, i), 4 - d)
      ensures AllUnder(w.owner, root, p * 512 + i, d', Reach(w.mem, Entry(w.mem, f, i), 4 - d))
    {
      ChildLeads(w.mem, root, p, d, e, i);
      SubtreeIsTree(c, w, root, slot, p * 512 + i, d', Entry(w.mem, f, i));
    }
  }

  lemma SiblingsApart(w: World, root: nat, p: nat, d: nat, f: nat)
    requires 1 <= d <= 3 && f in w.owner && w.owner[f] == Role(root, d, p)
    requires forall i: nat | i < 512 ::
               AllUnder(w.owner, root, p * 512 + i, d + 1, Reach(w.mem, Entry(w.mem, f, i), 4 - d))
    ensures forall i: nat | i < 512 :: f !in Reach(w.mem, Entry(w.mem, f, i), 4 - d)
    ensures forall i: nat, j: nat | i < j < 512 ::
              Reach(w.mem, Entry(w.mem, f, i), 4 - d) !! Reach(w.mem, Entry(w.mem, f, j), 4 - d)
  {
    forall i: nat | i < 512 ensures f !in Reach(w.mem, Entry(w.mem, f, i), 4 - d) {
      assert !Under(w.owner, root, p * 512 + i, d + 1, f);
    }
    forall i: nat, j: nat | i < j < 512
      ensures Reach(w.mem, Entry(w.mem, f, i), 4 - d) !! Reach(w.mem, Entry(w.mem, f, j), 4 - d)
    {
      var a, b := Reach(w.mem, Entry(w.mem, f, i), 4 - d), Reach(w.mem, Entry(w.mem, f, j), 4 - d);
      forall g | g in a ensures g !in b {
        assert Under(w.owner, root, p * 512 + i, d + 1, g) && !Under(w.owner, root, p * 512 + j, d + 1, g);
      }
    }
  }

  lemma UnderParent(owner: Owners, root: nat, p: nat, d: nat, i: nat, g: nat)
    requires i < 512 && Under(owner, root, p * 512 + i, d + 1, g)
    ensures Under(owner, root, p, d, g)
  {
    UpStep(owner[g].prefix, owner[g].depth - (d + 1));
  }

  lemma {:induction false} SomeUnder(w: World, root: nat, p: nat, d: nat, f: nat, n: nat)
    requires 1 <= d <= 3 && n <= 512
    requires forall i: nat | i < 512 ::
               AllUnder(w.owner, root, p * 512 + i, d + 1, Reach(w.mem, Entry(w.mem, f, i), 4 - d))
    ensures AllUnder(w.owner, root, p, d, ReachSome(w.mem, f, 4 - d, n))
    decreases n
  {
    if n > 0 {
      SomeUnder(w, root, p, d, f, n - 1);
      forall g | g in Reach(w.mem, Entry(w.mem, f, n - 1), 4 - d) ensures Under(w.owner, root, p, d, g) {
        assert Under(w.owner, root, p * 512 + (n - 1), d + 1, g);
        UnderParent(w.owner, root, p, d, n - 1, g);
      }
    }
  }

  /** The slot's subtree is a tree of frames whose roles lie in the slot. */
  lemma SlotIsTree(c: Sharing, w: World, root: nat, slot: nat)
    requires Sound(c, w) && IsRoot(w.owner, root) && slot < 512 && slot !in c.slots && OwnsLeaves(c, w, root, slot)
    ensures var e := Entry(w.mem, root, slot);
            && IsTree(w.mem, e, 4)
            && (forall g | g in Reach(w.mem, e, 4) :: g in w.owner && InSlot(w.owner[g], root, slot))
            && root !in Reach(w.mem, e, 4)
  {
    FirstPage(slot, 1);
    assert Descend(w.mem, root, slot * Size(1), 0) == Table(root);
    SubtreeIsTree(c, w, root, slot, slot, 1, Entry(w.mem, root, slot));
    forall g | g in Reach(w.mem, Entry(w.mem, root, slot), 4) ensures g in w.owner && InSlot(w.owner[g], root, slot) {
      assert Under(w.owner, root, slot, 1, g);
    }
  }

  // ----- every mapped page is part of the subtree

  lemma StepReached(mem: Memory, t: nat, i: nat, level: nat, j: nat)
    requires level >= 2 && Entry(mem, t, i) != 0 && j < 512
    ensures var f := EntryFrame(Entry(mem, t, i));
            && f in Reach(mem, Entry(mem, t, i), level)
            && Reach(mem, Entry(mem, f, j), level - 1) <= Reach(mem, Entry(mem, t, i), level)
  {
    ReachSomeMember(mem, EntryFrame(Entry(mem, t, i)), level - 1, 512, j);
  }

  /** Holds for every level `top` deep enough for the walk; a root entry is destroyed at level 4. */
  lemma {:induction false} WalkReached(mem: Memory, root: nat, v: nat, k: nat, top: nat)
    requires 1 <= k <= 3 && k < top && Descend(mem, root, v, k).Table?
    ensures var e := Entry(mem, root, Idx(v, 0));
            var t := Descend(mem, root, v, k).t;
            t in Reach(mem, e, top) && Reach(mem, Entry(mem, t, Idx(v, k)), top - k) <= Reach(mem, e, top)
    decreases k
  {
    if k == 1 {
      assert Descend(mem, root, v, k - 1) == Table(root);
      StepReached(mem, root, Idx(v, 0), top, Idx(v, k));
    } else {
      WalkReached(mem, root, v, k - 1, top);
      StepReached(mem, Descend(mem, root, v, k - 1).t, Idx(v, k - 1), top - (k - 1), Idx(v, k));
    }
  }

  /** The data page behind every mapped page of the slot is among the frames reached. */
  lemma LeafReached(mem: Memory, root: nat, v: nat, top: nat)
    requires Walk(mem, root, v).Small? && top >= 4
    ensures Walk(mem, root, v).frame in Reach(mem, Entry(mem, root, Idx(v, 0)), top)
  {
    WalkReached(mem, root, v, 3, top);
  }

  // ----- the outcome

  /** The owners left after the slot is gone. */
  ghost function Outside(owner: Owners, root: nat, slot: nat): Owners
  {
    map g | g in owner && !InSlot(owner[g], root, slot) :: owner[g]
  }

  lemma OutsideShape(c: Sharing, w: World, root: nat, slot: nat)
    requires Sound(c, w) && IsRoot(w.owner, root) && slot < 512 && slot !in c.slots
    ensures WellFormed(c, Put(w.mem, root, slot, 0), Outside(w.owner, root, slot))
  {
    var mem1, owner1 := Put(w.mem, root, slot, 0), Outside(w.owner, root, slot);
    forall t: nat, i: nat | i < 512 && LeadsDown(mem1, owner1, t, i)
      ensures Hooked(c, mem1, owner1, t, i)
    {
      assert LeadsDown(w.mem, w.owner, t, i);
      var r := Child(c, w.owner[t], i);
      assert r.prefix / 512 == w.owner[t].prefix;
      assert !InSlot(r, root, slot);
    }
  }

  /** Clearing frames of the slot and the slot's entry leaves every other page of every space as it was. */
  lemma OthersSurvive(c: Sharing, w: World, mem': Memory, gone: set<nat>, root: nat, slot: nat)
    requires Sound(c, w) && IsRoot(w.owner, root) && slot < 512 && slot !in c.slots
    requires forall g | g in gone :: g in w.owner && InSlot(w.owner[g], root, slot)
    requires Cleared(w.mem, mem', gone, root, slot, slot + 1)
    ensures WellFormed(c, mem', Outside(w.owner, root, slot))
    ensures forall r: nat, v: nat | IsRoot(w.owner, r) && v < VPN_LIMIT && !(r == root && Idx(v, 0) == slot) ::
              Walk(mem', r, v) == Walk(w.mem, r, v)
    ensures forall v: nat | Idx(v, 0) == slot :: Walk(mem', root, v) == Unmapped
  {
    var mem1, owner1 := Put(w.mem, root, slot, 0), Outside(w.owner, root, slot);
    OutsideShape(c, w, root, slot);
    assert AgreeOnTables(owner1, mem1, mem');
    AgreeShape(c, owner1, mem1, mem');
    forall r: nat, v: nat | IsRoot(w.owner, r) && v < VPN_LIMIT && !(r == root && Idx(v, 0) == slot)
      ensures Walk(mem', r, v) == Walk(w.mem, r, v)
    {
      assert IsRoot(owner1, r);
      WalkAfterPut(c, w.mem, w.owner, root, slot, 0, r, v);
      AgreeWalk(c, owner1, mem1, mem', r, v);
    }
    forall v: nat | Idx(v, 0) == slot ensures Walk(mem', root, v) == Unmapped {
      assert Descend(mem', root, v, 0) == Table(root);
      DeadStays(mem', root, v, 1);
    }
  }

  /** The frames of the slot: its tables and its data pages. */
  ghost function SlotFrames(mem: Memory, root: nat, slot: nat): set<nat>
  {
    Reach(mem, Entry(mem, root, slot), 4)
  }

  /** The frames named by words of the slot's data pages. */
  ghost function SlotWords(mem: Memory, root: nat, slot: nat): set<nat>
  {
    Words(mem, Entry(mem, root, slot), 4)
  }

  /** What a destroyed slot leaves behind. */
  ghost predicate SlotDestroyed(c: Sharing, w: World, w': World, root: nat, slot: nat, pageCount: nat)
  {
    && w'.free == w.free + Tracked(SlotFrames(w.mem, root, slot) + SlotWords(w.mem, root, slot), pageCount)
    && w'.owner == Outside(w.owner, root, slot)
    && WellFormed(c, w'.mem, w'.owner)
    && Cleared(w.mem, w'.mem, SlotFrames(w.mem, root, slot), root, slot, slot + 1)
    && (forall r: nat, v: nat | IsRoot(w.owner, r) && v < VPN_LIMIT && !(r == root && Idx(v, 0) == slot) ::
          Walk(w'.mem, r, v) == Walk(w.mem, r, v))
    && (forall v: nat | Idx(v, 0) == slot :: Walk(w'.mem, root, v) == Unmapped)
  }

  method DestroyUserSlot(vm: VirtualMemory, slot: nat) returns (ok: bool)
    requires vm.Valid() && vm.frames.initialized && slot !in vm.ram.sharing.slots
    requires vm.initialized && slot < 512 ==> OwnsLeaves(vm.ram.sharing, vm.State(), vm.root / 4096, slot)
    modifies vm.frames`free, vm.frames`freePageCount, vm.frames.bitmap, vm.ram
    ensures ok <==> vm.initialized && slot < 512
    ensures !ok ==> vm.State() == old(vm.State())
    ensures vm.frames.Valid()
    ensures ok ==> SlotDestroyed(vm.ram.sharing, old(vm.State()), vm.State(), vm.root / 4096, slot, vm.frames.pageCount)
  {
    if !vm.initialized || slot >= 512 { return false; }
    ghost var w, r := vm.State(), vm.root / 4096;
    SlotIsTree(vm.ram.sharing, w, r, slot);
    DestroyTable(vm.frames, vm.ram, vm.root / 4096, slot, 4);
    OthersSurvive(vm.ram.sharing, w, vm.ram.mem, SlotFrames(w.mem, r, slot), r, slot);
    vm.ram.owner := Outside(vm.ram.owner, r, slot);
    ok := true;
  }

  /** Every tracked data page the slot mapped is free afterwards. */
  lemma MappedPagesFreed(c: Sharing, w: World, w': World, root: nat, slot: nat, pageCount: nat, v: nat)
    requires SlotDestroyed(c, w, w', root, slot, pageCount) && Idx(v, 0) == slot && Walk(w.mem, root, v).Small?
    requires Walk(w.mem, root, v).frame < pageCount
    ensures Walk(w.mem, root, v).frame in w'.free
  {
    LeafReached(w.mem, root, v, 4);
  }

  /**
   The allocator changes for the slot's own frames only, exactly when no word of a data page names
   a tracked frame that is in use elsewhere; and then, and only then, the world stays sound.
   */
  lemma TeardownExact(c: Sharing, w: World, w': World, root: nat, slot: nat, pageCount: nat)
    requires Sound(c, w) && IsRoot(w.owner, root) && slot < 512 && slot !in c.slots && OwnsLeaves(c, w, root, slot)
    requires SlotDestroyed(c, w, w', root, slot, pageCount) && 512 * pageCount <= |w.mem|
    ensures w'.free == w.free + Tracked(SlotFrames(w.mem, root, slot), pageCount) <==>
            forall f | f in SlotWords(w.mem, root, slot) && f < pageCount ::
                f in w.free || f in SlotFrames(w.mem, root, slot)
    ensures Sound(c, w') <==> forall f | f in SlotWords(w.mem, root, slot) && f < pageCount :: f !in w'.owner
  {
    SlotIsTree(c, w, root, slot);
    var own, named := SlotFrames(w.mem, root, slot), SlotWords(w.mem, root, slot);
    forall f | f in named && f < pageCount ensures f in w'.free {}
    if w'.free == w.free + Tracked(own, pageCount) {
      forall f | f in named && f < pageCount ensures f in w.free || f in own {
        assert f in w'.free;
      }
    }
    forall f | f in own ensures f !in w'.owner {}
  }

  /** Data pages that hold only zero words name no frame. */
  lemma ZeroPagesNameNothing(c: Sharing, w: World, root: nat, slot: nat)
    requires Sound(c, w) && IsRoot(w.owner, root) && slot < 512 && slot !in c.slots && OwnsLeaves(c, w, root, slot)
    requires forall v: nat | v < VPN_LIMIT && Idx(v, 0) == slot && Walk(w.mem, root, v).Small? ::
               ZeroFrame(w.mem, Walk(w.mem, root, v).frame)
    ensures SlotWords(w.mem, root, slot) == {}
  {
    FirstPage(slot, 1);
    assert Descend(w.mem, root, slot * Size(1), 0) == Table(root);
    NoWords(c, w, root, slot, slot, 1, Entry(w.mem, root, slot));
  }

  lemma {:induction false} NoWords(c: Sharing, w: World, root: nat, slot: nat, p: nat, d: nat, e: Word)
    requires Sound(c, w) && IsRoot(w.owner, root) && slot !in c.slots && OwnsLeaves(c, w, root, slot)
    requires 1 <= d <= 4 && p < Count(d) && Up(p, d - 1) == slot && Leads(w.mem, root, p, d, e)
    requires forall v: nat | v < VPN_LIMIT && Idx(v, 0) == slot && Walk(w.mem, root, v).Small? ::
               ZeroFrame(w.mem, Walk(w.mem, root, v).frame)
    ensures Words(w.mem, e, 5 - d) == {}
    decreases 5 - d
  {
    if e != 0 {
      EntryRole(c, w, root, slot, p, d, e);
      var f := EntryFrame(e);
      if d == 4 {
        FirstPage(p, d);
        assert Walk(w.mem, root, p * Size(d)) == Small(f, EntryFlags(e));
        ZeroNamesNothing(w.mem, f, 512);
      } else {
        forall i: nat | i < 512 ensures Words(w.mem, Entry(w.mem, f, i), 4 - d) == {} {
          ChildLeads(w.mem, root, p, d, e, i);
          NoWords(c, w, root, slot, p * 512 + i, d + 1, Entry(w.mem, f, i));
        }
        NoneSome(w.mem, f, 4 - d, 512);
      }
    }
  }

  lemma {:induction false} NoneSome(mem: Memory, f: nat, level: nat, n: nat)
    requires level >= 1 && n <= 512 && forall i: nat | i < 512 :: Words(mem, Entry(mem, f, i), level) == {}
    ensures WordsSome(mem, f, level, n) == {}
    decreases n
  {
    if n > 0 { NoneSome(mem, f, level, n - 1); }
  }

  lemma {:induction false} ZeroNamesNothing(mem: Memory, f: nat, n: nat)
    requires n <= 512 && ZeroFrame(mem, f)
    ensures Named(mem, f, n) == {}
    decreases n
  {
    if n > 0 { ZeroNamesNothing(mem, f, n - 1); }
  }
}

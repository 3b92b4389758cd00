/**
 What the processor lets user mode do, read off the words of the tables (Intel SDM volume 3A,
 4-level paging): every entry on the way to a page must be present and user-visible, writable for a
 write, and without the no-execute digit for an instruction fetch.  Tables are always present,
 writable and executable, so a page's rights are its leaf flags, provided that every entry above
 carries the User digit.
 */
module UserAccess {
  import opened Word64
  import opened Entries
  import opened Paging

  /** The entry read at depth `k` of the walk of `v`, 0 if the walk does not get there. */
  function PathEntry(mem: Memory, root: nat, v: nat, k: nat): Word
    requires k <= 3
  {
    match Descend(mem, root, v, k)
    case Table(t) => Entry(mem, t, Idx(v, k))
    case _ => 0
  }

  predicate Grants(e: Word, write: bool, fetch: bool)
  {
    Bit(e, 0) && Bit(e, 2) && (write ==> Bit(e, 1)) && (fetch ==> !Bit(e, 63))
  }

  /** User mode may read page `v`, write it if `write`, and fetch instructions from it if `fetch`. */
  predicate UserMay(mem: Memory, root: nat, v: nat, write: bool, fetch: bool)
  {
    && Grants(PathEntry(mem, root, v, 0), write, fetch)
    && Grants(PathEntry(mem, root, v, 1), write, fetch)
    && Grants(PathEntry(mem, root, v, 2), write, fetch)
    && (Descend(mem, root, v, 3).Block? || Grants(PathEntry(mem, root, v, 3), write, fetch))
  }

  /** The first `k` entries on the way to page `v` carry the User digit. */
  predicate Open(mem: Memory, root: nat, v: nat, k: nat)
    requires k <= 3
  {
    k == 0 || (Open(mem, root, v, k - 1) && HasUser(PathEntry(mem, root, v, k - 1)))
  }

  /** All entries above the leaf of page `v` carry the User digit. */
  predicate UserPath(mem: Memory, root: nat, v: nat)
  {
    Open(mem, root, v, 3)
  }

  lemma {:induction false} OpenShorter(mem: Memory, root: nat, v: nat, k: nat, n: nat)
    requires k <= n <= 3 && Open(mem, root, v, n)
    ensures Open(mem, root, v, k)
    decreases n
  {
    if k < n { OpenShorter(mem, root, v, k, n - 1); }
  }

  /** An entry that leads to a table grants what user mode asks for exactly if it carries the User digit. */
  lemma TableGrants(c: Sharing, mem: Memory, owner: Owners, root: nat, v: nat, k: nat, write: bool, fetch: bool)
    requires WellFormed(c, mem, owner) && IsRoot(owner, root) && k <= 2 && Descend(mem, root, v, k + 1).Table?
    ensures Grants(PathEntry(mem, root, v, k), write, fetch) <==> HasUser(PathEntry(mem, root, v, k))
  {
    DescendRole(c, mem, owner, root, v, k);
    assert LeadsDown(mem, owner, Descend(mem, root, v, k).t, Idx(v, k));
    assert Hooked(c, mem, owner, Descend(mem, root, v, k).t, Idx(v, k));
  }

  lemma NoGrant(write: bool, fetch: bool)
    ensures !Grants(0, write, fetch) && !HasUser(0)
  {
    ZeroBit(0);
    ZeroBit(2);
  }

  lemma FlagsGrant(e: Word, write: bool, fetch: bool)
    ensures Grants(EntryFlags(e), write, fetch) == Grants(e, write, fetch)
    ensures Grants(LargeFlags(e), write, fetch) == Grants(e, write, fetch)
  {
    EntryFlagsBit(e, 0);
    EntryFlagsBit(e, 1);
    EntryFlagsBit(e, 2);
    EntryFlagsBit(e, 63);
    LargeFlagsBit(e, 0);
    LargeFlagsBit(e, 1);
    LargeFlagsBit(e, 2);
    LargeFlagsBit(e, 63);
  }

  /** The walk of a mapped page goes through tables. */
  lemma TablesAbove(mem: Memory, root: nat, v: nat)
    requires !Walk(mem, root, v).Unmapped?
    ensures Descend(mem, root, v, 1).Table? && Descend(mem, root, v, 2).Table? && Descend(mem, root, v, 3) != Dead
    ensures Descend(mem, root, v, 3).Block? ==> Descend(mem, root, v, 3).e == PathEntry(mem, root, v, 2)
  {
    var d0, d1, d2 := Descend(mem, root, v, 0), Descend(mem, root, v, 1), Descend(mem, root, v, 2);
    assert d0 == Table(root) && d1 == Below(mem, d0, Idx(v, 0), false) && d2 == Below(mem, d1, Idx(v, 1), false);
    assert Descend(mem, root, v, 3) == Below(mem, d2, Idx(v, 2), true);
  }

  /** The rights of a page: its leaf flags, if all entries above carry the User digit, and none otherwise. */
  lemma MayIs(c: Sharing, mem: Memory, owner: Owners, root: nat, v: nat, write: bool, fetch: bool)
    requires WellFormed(c, mem, owner) && IsRoot(owner, root)
    ensures UserMay(mem, root, v, write, fetch) <==>
              !Walk(mem, root, v).Unmapped? && UserPath(mem, root, v) &&
                  Grants(Walk(mem, root, v).flags, write, fetch)
  {
    if Walk(mem, root, v).Unmapped? {
      NoGrant(write, fetch);
    } else {
      TablesAbove(mem, root, v);
      TableGrants(c, mem, owner, root, v, 0, write, fetch);
      TableGrants(c, mem, owner, root, v, 1, write, fetch);
      FlagsGrant(PathEntry(mem, root, v, 2), write, fetch);
      FlagsGrant(PathEntry(mem, root, v, 3), write, fetch);
      PathIs(mem, root, v);
      if Descend(mem, root, v, 3).Table? { TableGrants(c, mem, owner, root, v, 2, write, fetch); }
    }
  }

  lemma PathIs(mem: Memory, root: nat, v: nat)
    ensures UserPath(mem, root, v) <==> HasUser(PathEntry(mem, root, v, 0)) && HasUser(PathEntry(mem, root, v, 1)) &&
                                        HasUser(PathEntry(mem, root, v, 2))
  {
    assert Open(mem, root, v, 1) <==> HasUser(PathEntry(mem, root, v, 0));
    assert Open(mem, root, v, 2) <==> Open(mem, root, v, 1) && HasUser(PathEntry(mem, root, v, 1));
  }

  // ----- what table writes do to the path

  /** Every page keeps the User digits above it, and gains some only if `user`. */
  ghost predicate PathsKept(owner: Owners, was: Memory, now: Memory, user: bool)
  {
    forall r: nat, v: nat | IsRoot(owner, r) && v < VPN_LIMIT :: PathKept(was, now, r, v, user)
  }

  predicate PathKept(was: Memory, now: Memory, r: nat, v: nat, user: bool)
  {
    (UserPath(was, r, v) ==> UserPath(now, r, v)) && (!user && UserPath(now, r, v) ==> UserPath(was, r, v))
  }

  lemma PathsKeptOn(owner: Owners, owner': Owners, a: Memory, b: Memory, c: Memory, user: bool)
    requires forall r: nat | IsRoot(owner, r) :: IsRoot(owner', r)
    requires PathsKept(owner, a, b, user) && PathsKept(owner', b, c, user)
    ensures PathsKept(owner, a, c, user)
  {
    forall r: nat, v: nat | IsRoot(owner, r) && v < VPN_LIMIT ensures PathKept(a, c, r, v, user) {
      assert PathKept(a, b, r, v, user) && IsRoot(owner', r) && PathKept(b, c, r, v, user);
    }
  }

  lemma PathsWiden(owner: Owners, was: Memory, now: Memory, user: bool)
    requires PathsKept(owner, was, now, false)
    ensures PathsKept(owner, was, now, user)
  {
    forall r: nat, v: nat | IsRoot(owner, r) && v < VPN_LIMIT ensures PathKept(was, now, r, v, user) {
      assert PathKept(was, now, r, v, false);
    }
  }

  lemma {:induction false} OpenAfterPut(c: Sharing, mem: Memory, owner: Owners, t: nat, i: nat, w: Word,
                                        root: nat, v: nat, k: nat)
    requires WellFormed(c, mem, owner) && IsRoot(owner, root) && k <= 3
    requires IsTable(owner, t) && i < 512
    requires k <= owner[t].depth || !Reads(mem, root, v, t, i, owner[t].depth)
    ensures Open(Put(mem, t, i, w), root, v, k) == Open(mem, root, v, k)
    decreases k
  {
    if k > 0 {
      OpenAfterPut(c, mem, owner, t, i, w, root, v, k - 1);
      DescendAfterPut(c, mem, owner, t, i, w, root, v, k - 1);
      DescendRole(c, mem, owner, root, v, k - 1);
    }
  }

  lemma {:induction false} AgreeOpen(c: Sharing, owner: Owners, was: Memory, now: Memory, root: nat, v: nat, k: nat)
    requires WellFormed(c, was, owner) && AgreeOnTables(owner, was, now) && IsRoot(owner, root) && k <= 3
    ensures Open(now, root, v, k) == Open(was, root, v, k)
    decreases k
  {
    if k > 0 {
      AgreeOpen(c, owner, was, now, root, v, k - 1);
      AgreeDescend(c, owner, was, now, root, v, k - 1);
      DescendRole(c, was, owner, root, v, k - 1);
    }
  }

  /** Writing outside the tables changes no rights. */
  lemma AgreePaths(c: Sharing, owner: Owners, was: Memory, now: Memory)
    requires WellFormed(c, was, owner) && AgreeOnTables(owner, was, now)
    ensures PathsKept(owner, was, now, false)
  {
    forall r: nat, v: nat | IsRoot(owner, r) && v < VPN_LIMIT ensures PathKept(was, now, r, v, false) {
      AgreeOpen(c, owner, was, now, r, v, 3);
    }
  }

  /** Writing a leaf entry changes no User digit above any page. */
  lemma LeafPaths(c: Sharing, mem: Memory, owner: Owners, t: nat, i: nat, w: Word)
    requires WellFormed(c, mem, owner) && t in owner && owner[t].depth == 3 && i < 512
    ensures PathsKept(owner, mem, Put(mem, t, i, w), false)
  {
    forall r: nat, v: nat | IsRoot(owner, r) && v < VPN_LIMIT ensures PathKept(mem, Put(mem, t, i, w), r, v, false) {
      OpenAfterPut(c, mem, owner, t, i, w, r, v, 3);
    }
  }

  /** The path through a new table: as open as the way to it and its own entry. */
  lemma GrowOpen(c: Sharing, mem: Memory, owner: Owners, t: nat, f: nat, flags: Word, root: nat, v: nat, d: nat,
                 d': nat)
    requires WellFormed(c, mem, owner) && IsRoot(owner, root) && d <= 2 && d' == d + 1
    requires Descend(mem, root, v, d) == Table(t)
    requires f !in owner && HasFrame(mem, f) && f < FRAME_LIMIT && TableBits(flags)
    ensures t in owner && owner[t].depth == d && HasFrame(mem, t)
    ensures Open(Grown(mem, t, Idx(v, d), f, flags), root, v, d') <==> Open(mem, root, v, d) && HasUser(flags)
  {
    DescendRole(c, mem, owner, root, v, d);
    var zeroed, e := ZeroPage(mem, f), MakeEntry(f * 4096, flags);
    AgreeShape(c, owner, mem, zeroed);
    AgreeDescend(c, owner, mem, zeroed, root, v, d);
    AgreeOpen(c, owner, mem, zeroed, root, v, d);
    OpenAfterPut(c, zeroed, owner, t, Idx(v, d), e, root, v, d);
    DescendAfterPut(c, zeroed, owner, t, Idx(v, d), e, root, v, d);
    TableEntryBits(f, flags);
  }

  lemma GrowPaths(c: Sharing, mem: Memory, owner: Owners, t: nat, i: nat, f: nat, flags: Word)
    requires WellFormed(c, mem, owner) && t in owner && owner[t].depth <= 2 && i < 512 && Entry(mem, t, i) == 0
    requires f !in owner && HasFrame(mem, f) && f < FRAME_LIMIT && TableBits(flags)
    ensures PathsKept(owner, mem, Grown(mem, t, i, f, flags), HasUser(flags))
  {
    var now, d := Grown(mem, t, i, f, flags), owner[t].depth;
    forall r: nat, v: nat | IsRoot(owner, r) && v < VPN_LIMIT ensures PathKept(mem, now, r, v, HasUser(flags)) {
      if Reads(mem, r, v, t, i, d) {
        GrowOpen(c, mem, owner, t, f, flags, r, v, d, d + 1);
        NoGrant(false, false);
        assert !Open(mem, r, v, d + 1);
        if UserPath(mem, r, v) { OpenShorter(mem, r, v, d + 1, 3); }
        if UserPath(now, r, v) { OpenShorter(now, r, v, d + 1, 3); }
      } else {
        var zeroed := ZeroPage(mem, f);
        AgreeShape(c, owner, mem, zeroed);
        AgreeDescend(c, owner, mem, zeroed, r, v, d);
        AgreeOpen(c, owner, mem, zeroed, r, v, 3);
        OpenAfterPut(c, zeroed, owner, t, i, MakeEntry(f * 4096, flags), r, v, 3);
      }
    }
  }

  /** Setting the User digit of a table entry opens it and closes nothing. */
  lemma {:induction false} MarkUserOpen(mem: Memory, owner: Owners, t: nat, i: nat, root: nat, v: nat, k: nat)
    requires HasFrame(mem, t) && i < 512 && LeadsDown(mem, owner, t, i) && k <= 3
    requires forall j: nat | j < k :: Descend(mem, root, v, j) == Table(t) ==> owner[t].depth == j
    ensures var now := Put(mem, t, i, BitOr(Entry(mem, t, i), USER));
            && (Open(mem, root, v, k) ==> Open(now, root, v, k))
            && (k > 0 && Open(mem, root, v, k - 1) && Reads(mem, root, v, t, i, k - 1) ==> Open(now, root, v, k))
    decreases k
  {
    if k > 0 {
      MarkUserOpen(mem, owner, t, i, root, v, k - 1);
      MarkUserDescend(mem, owner, t, i, root, v, k - 1);
      AddUserBits(Entry(mem, t, i));
    }
  }

  lemma MarkUserPaths(c: Sharing, mem: Memory, owner: Owners, t: nat, i: nat)
    requires WellFormed(c, mem, owner) && i < 512 && LeadsDown(mem, owner, t, i)
    ensures PathsKept(owner, mem, Put(mem, t, i, BitOr(Entry(mem, t, i), USER)), true)
  {
    var now := Put(mem, t, i, BitOr(Entry(mem, t, i), USER));
    forall r: nat, v: nat | IsRoot(owner, r) && v < VPN_LIMIT ensures PathKept(mem, now, r, v, true) {
      forall j: nat | j < 3 ensures Descend(mem, r, v, j) == Table(t) ==> owner[t].depth == j {
        DescendRole(c, mem, owner, r, v, j);
      }
      MarkUserOpen(mem, owner, t, i, r, v, 3);
    }
  }

  // ----- 2 MiB blocks

  /** The same for every page but those in `[lo, hi)` of `root`, wherever they are shared. */
  ghost predicate PathsKeptBeside(c: Sharing, owner: Owners, was: Memory, now: Memory, root: nat, lo: nat, hi: nat,
                                  user: bool)
  {
    forall r: nat, v: nat | IsRoot(owner, r) && v < VPN_LIMIT &&
                            !(lo <= v < hi && (r == root || Idx(v, 0) in c.slots)) ::
      PathKept(was, now, r, v, user)
  }

  /** Writing a 2 MiB entry: its pages are as open as the way to it and the entry itself. */
  lemma BlockOpen(c: Sharing, mem: Memory, owner: Owners, root: nat, v: nat, t: nat, w: Word, u: nat)
    requires WellFormed(c, mem, owner) && IsRoot(owner, root) && Descend(mem, root, v, 2) == Table(t)
    requires v < VPN_LIMIT && u < VPN_LIMIT && u / 512 == v / 512
    ensures t in owner && owner[t].depth == 2 && HasFrame(mem, t)
    ensures UserPath(Put(mem, t, Idx(v, 2), w), root, u) <==> Open(mem, root, u, 2) && HasUser(w)
  {
    DescendRole(c, mem, owner, root, v, 2);
    SameUpper(mem, root, v, u, 2);
    DescendAfterPut(c, mem, owner, t, Idx(v, 2), w, root, u, 2);
    OpenAfterPut(c, mem, owner, t, Idx(v, 2), w, root, u, 2);
  }

  /** Pages of one block have the same entries above. */
  lemma {:induction false} SameOpen(mem: Memory, root: nat, v: nat, u: nat, k: nat)
    requires k <= 2 && v / 512 == u / 512
    ensures Open(mem, root, v, k) == Open(mem, root, u, k)
    decreases k
  {
    if k > 0 {
      SameOpen(mem, root, v, u, k - 1);
      SameUpper(mem, root, v, u, k - 1);
    }
  }

  lemma BlockPaths(c: Sharing, mem: Memory, owner: Owners, root: nat, v: nat, t: nat, w: Word, hi: nat)
    requires WellFormed(c, mem, owner) && IsRoot(owner, root) && Descend(mem, root, v, 2) == Table(t)
    requires v < VPN_LIMIT && v % 512 == 0 && hi == v + 512
    ensures t in owner && owner[t].depth == 2 && HasFrame(mem, t)
    ensures PathsKeptBeside(c, owner, mem, Put(mem, t, Idx(v, 2), w), root, v, hi, false)
  {
    DescendRole(c, mem, owner, root, v, 2);
    forall r: nat, u: nat | IsRoot(owner, r) && u < VPN_LIMIT && !(v <= u < hi && (r == root || Idx(u, 0) in c.slots))
      ensures PathKept(mem, Put(mem, t, Idx(v, 2), w), r, u, false)
    {
      DescendRole(c, mem, owner, r, u, 2);
      PrefixIsAll(v);
      PrefixIsAll(u);
      BlockOf(u, v);
      OpenAfterPut(c, mem, owner, t, Idx(v, 2), w, r, u, 3);
    }
  }

  lemma BlockOf(u: nat, v: nat)
    requires v % 512 == 0
    ensures u / 512 == v / 512 <==> v <= u < v + 512
    ensures u / 512 == v / 512 ==> Idx(u, 0) == Idx(v, 0)
  {
    assert u / 0x800_0000 == (u / 512) / 0x4_0000 && v / 0x800_0000 == (v / 512) / 0x4_0000;
  }

  lemma BesideOn(c: Sharing, owner: Owners, owner': Owners, a: Memory, b: Memory, d: Memory, root: nat, lo: nat,
                 mid: nat, hi: nat, user: bool)
    requires lo <= mid <= hi && forall r: nat | IsRoot(owner, r) :: IsRoot(owner', r)
    requires PathsKeptBeside(c, owner, a, b, root, lo, mid, user)
    requires PathsKeptBeside(c, owner', b, d, root, mid, hi, user)
    ensures PathsKeptBeside(c, owner, a, d, root, lo, hi, user)
  {
    forall r: nat, v: nat | IsRoot(owner, r) && v < VPN_LIMIT && !(lo <= v < hi && (r == root || Idx(v, 0) in c.slots))
      ensures PathKept(a, d, r, v, user)
    {
      assert PathKept(a, b, r, v, user) && IsRoot(owner', r) && PathKept(b, d, r, v, user);
    }
  }

  lemma BesideAll(c: Sharing, owner: Owners, was: Memory, now: Memory, root: nat, lo: nat, hi: nat, user: bool)
    requires PathsKept(owner, was, now, user)
    ensures PathsKeptBeside(c, owner, was, now, root, lo, hi, user)
  {
    forall r: nat, v: nat | IsRoot(owner, r) && v < VPN_LIMIT && !(lo <= v < hi && (r == root || Idx(v, 0) in c.slots))
      ensures PathKept(was, now, r, v, user)
    {
      assert PathKept(was, now, r, v, user);
    }
  }

  lemma BesideWiden(c: Sharing, owner: Owners, was: Memory, now: Memory, root: nat, lo: nat, hi: nat, user: bool)
    requires PathsKeptBeside(c, owner, was, now, root, lo, hi, false)
    ensures PathsKeptBeside(c, owner, was, now, root, lo, hi, user)
  {
    forall r: nat, v: nat | IsRoot(owner, r) && v < VPN_LIMIT && !(lo <= v < hi && (r == root || Idx(v, 0) in c.slots))
      ensures PathKept(was, now, r, v, user)
    {
      assert PathKept(was, now, r, v, false);
    }
  }
}

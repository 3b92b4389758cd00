/**
 Page-table entries: a 64-bit word holding a frame address in bits 12..51 and flags elsewhere
 (Intel SDM volume 3A, 4-level paging).  An entry of the second-lowest level with bit 7 set maps
 2 MiB and keeps its address in bits 21..51.
 */
module Entries {
  import opened Word64

  const PRESENT: Word := 1
  const WRITE: Word := 2
  const USER: Word := 4
  const LARGE_PAGE: Word := 0x80
  const NO_EXECUTE: Word := 0x8000_0000_0000_0000
  const ADDRESS_MASK: Word := 0x000F_FFFF_FFFF_F000
  const LARGE_ADDRESS_MASK: Word := 0x000F_FFFF_FFE0_0000

  /** Frames an entry can name. */
  const FRAME_LIMIT: nat := 0x100_0000_0000

  /** A combination of the `PageFlags` enumerators. */
  predicate IsPageFlags(f: Word)
  {
    forall i: nat | i < 64 :: Bit(f, i) ==> i == 0 || i == 1 || i == 2 || i == 63
  }

  function EntryFrame(e: Word): nat { BitAnd(e, ADDRESS_MASK) / 4096 }

  function EntryFlags(e: Word): Word { BitAnd(e, Not(ADDRESS_MASK)) }

  predicate IsLarge(e: Word) { BitAnd(e, LARGE_PAGE) != 0 }

  /** First 4 KiB frame of a 2 MiB entry. */
  function LargeFrame(e: Word): nat { BitAnd(e, LARGE_ADDRESS_MASK) / 4096 }

  function LargeFlags(e: Word): Word { BitAnd(e, Not(LARGE_ADDRESS_MASK)) }

  /** `(physical & kEntryAddressMask) | flags` */
  function MakeEntry(physical: Word, flags: Word): Word
  {
    BitOr(BitAnd(physical, ADDRESS_MASK), flags)
  }

  /** `(physical & kLargePageAddressMask2MiB) | flags | kEntryLargePage` */
  function MakeLargeEntry(physical: Word, flags: Word): Word
  {
    BitOr(BitOr(BitAnd(physical, LARGE_ADDRESS_MASK), flags), LARGE_PAGE)
  }

  // ----- digits of the masks

  /** `(2^(hi-lo) - 1) * 2^lo` has exactly the digits in `[lo, hi)`. */
  lemma FieldBit(lo: nat, hi: nat, i: nat)
    requires lo <= hi
    ensures Bit((Pow2(hi - lo) - 1) * Pow2(lo), i) == (lo <= i < hi)
  {
    ShiftUpBit(Pow2(hi - lo) - 1, lo, i);
    if lo <= i { OnesBit(hi - lo, i - lo); }
  }

  lemma Powers()
    ensures Pow2(12) == 4096 && Pow2(21) == 0x200000 && Pow2(40) == FRAME_LIMIT && Pow2(31) == 0x8000_0000
    ensures Pow2(52) == 0x10_0000_0000_0000 && Pow2(7) == 128 && Pow2(63) == NO_EXECUTE
  {
    assert Pow2(7) == 128;
    assert Pow2(12) == 4096;
    Pow2Add(12, 9);
    assert Pow2(9) == 512;
    Pow2Add(12, 12);
    Pow2Add(24, 7);
    Pow2Add(31, 9);
    Pow2Add(40, 12);
    Pow2Add(52, 11);
    assert Pow2(11) == 2048;
  }

  lemma AddressMaskBit(i: nat)
    ensures Bit(ADDRESS_MASK, i) == (12 <= i < 52)
  {
    Powers();
    FieldBit(12, 52, i);
  }

  lemma LargeAddressMaskBit(i: nat)
    ensures Bit(LARGE_ADDRESS_MASK, i) == (21 <= i < 52)
  {
    Powers();
    FieldBit(21, 52, i);
  }

  lemma LargePageBit(i: nat)
    ensures Bit(LARGE_PAGE, i) == (i == 7)
  {
    Powers();
    FieldBit(7, 8, i);
  }

  lemma UserBit(i: nat)
    ensures Bit(USER, i) == (i == 2)
  {
    FieldBit(2, 3, i);
    assert Pow2(1) == 2 && Pow2(2) == 4;
  }

  // ----- composing and taking apart

  /** Low-order zeros: a multiple of 2^n has no digit below n. */
  lemma AlignedBit(q: nat, n: nat, i: nat)
    requires i < n
    ensures !Bit(q * Pow2(n), i)
  {
    ShiftUpBit(q, n, i);
  }

  /** Masking an aligned physical address below 2^52 changes nothing. */
  lemma MaskAligned(physical: Word, q: nat, mask: Word, lo: nat)
    requires physical == q * Pow2(lo) && physical < Pow2(52)
    requires forall i: nat | i < 64 :: Bit(mask, i) == (lo <= i < 52)
    ensures BitAnd(physical, mask) == physical
  {
    forall i: nat | i < 64 ensures Bit(BitAnd(physical, mask), i) == Bit(physical, i) {
      AndBit(physical, mask, i);
      if i < lo { AlignedBit(q, lo, i); } else if i >= 52 { HighBits(physical, 52, i); }
    }
    WordsEqual(BitAnd(physical, mask), physical);
  }

  /** An address field and a flag field that do not overlap come back unchanged. */
  lemma SplitFields(address: Word, flags: Word, mask: Word)
    requires forall i: nat | i < 64 :: Bit(address, i) ==> Bit(mask, i)
    requires forall i: nat | i < 64 :: Bit(flags, i) ==> !Bit(mask, i)
    ensures BitAnd(BitOr(address, flags), mask) == address
    ensures BitAnd(BitOr(address, flags), Not(mask)) == flags
  {
    var e := BitOr(address, flags);
    forall i: nat | i < 64
      ensures Bit(BitAnd(e, mask), i) == Bit(address, i)
      ensures Bit(BitAnd(e, Not(mask)), i) == Bit(flags, i)
    {
      OrBit(address, flags, i);
      AndBit(e, mask, i);
      NotBit(mask, i);
      AndBit(e, Not(mask), i);
    }
    WordsEqual(BitAnd(e, mask), address);
    WordsEqual(BitAnd(e, Not(mask)), flags);
  }

  /** A 4 KiB entry gives back the frame and the flags it was made from. */
  lemma EntryRoundTrip(frame: nat, flags: Word)
    requires frame < FRAME_LIMIT && flags != 0 && IsPageFlags(flags)
    ensures frame * 4096 < WORD_LIMIT
    ensures var e := MakeEntry(frame * 4096, flags);
            e != 0 && EntryFrame(e) == frame && EntryFlags(e) == flags && !IsLarge(e)
  {
    Powers();
    var address: Word := frame * 4096;
    forall i: nat | i < 64 ensures Bit(ADDRESS_MASK, i) == (12 <= i < 52) { AddressMaskBit(i); }
    MaskAligned(address, frame, ADDRESS_MASK, 12);
    forall i: nat | i < 64 ensures Bit(address, i) ==> Bit(ADDRESS_MASK, i) {
      AndBit(address, ADDRESS_MASK, i);
    }
    SplitFields(address, flags, ADDRESS_MASK);
    var e := MakeEntry(address, flags);
    NotLarge(address, flags, e);
    assert EntryFlags(0) == 0;
  }

  lemma NotLarge(address: Word, flags: Word, e: Word)
    requires e == BitOr(address, flags) && IsPageFlags(flags)
    requires forall i: nat | i < 64 :: Bit(address, i) ==> Bit(ADDRESS_MASK, i)
    ensures !IsLarge(e)
  {
    OrBit(address, flags, 7);
    AddressMaskBit(7);
    Powers();
    ShlOneAt7();
    TestOneBit(e, 7);
  }

  lemma ShlOneAt7()
    ensures Shl(1, 7) == LARGE_PAGE
  {
    Powers();
  }

  /** A 2 MiB entry gives back its first frame and its flags, with the large bit added. */
  lemma LargeEntryRoundTrip(frame: nat, flags: Word)
    requires frame < FRAME_LIMIT && frame % 512 == 0 && IsPageFlags(flags)
    ensures frame * 4096 < WORD_LIMIT
    ensures var e := MakeLargeEntry(frame * 4096, flags);
            e != 0 && IsLarge(e) && LargeFrame(e) == frame && LargeFlags(e) == BitOr(flags, LARGE_PAGE)
  {
    Powers();
    var address: Word := frame * 4096;
    forall i: nat | i < 64 ensures Bit(LARGE_ADDRESS_MASK, i) == (21 <= i < 52) { LargeAddressMaskBit(i); }
    MaskAligned(address, frame / 512, LARGE_ADDRESS_MASK, 21);
    var rest := BitOr(flags, LARGE_PAGE);
    var e := MakeLargeEntry(address, flags);
    forall i: nat | i < 64
      ensures Bit(address, i) ==> Bit(LARGE_ADDRESS_MASK, i)
      ensures Bit(rest, i) ==> !Bit(LARGE_ADDRESS_MASK, i)
      ensures Bit(e, i) == Bit(BitOr(address, rest), i)
    {
      AndBit(address, LARGE_ADDRESS_MASK, i);
      OrBit(flags, LARGE_PAGE, i);
      LargePageBit(i);
      OrBit(address, flags, i);
      OrBit(BitOr(address, flags), LARGE_PAGE, i);
      OrBit(address, rest, i);
    }
    WordsEqual(e, BitOr(address, rest));
    SplitFields(address, rest, LARGE_ADDRESS_MASK);
    OrBit(BitOr(address, flags), LARGE_PAGE, 7);
    LargePageBit(7);
    ShlOneAt7();
    TestOneBit(e, 7);
    ZeroBit(7);
  }

  /** Adding the User bit to a table entry changes neither the frame it names nor its kind. */
  lemma AddUserKeepsFrame(e: Word)
    requires e != 0
    ensures BitOr(e, USER) != 0 && EntryFrame(BitOr(e, USER)) == EntryFrame(e)
    ensures IsLarge(BitOr(e, USER)) == IsLarge(e)
  {
    var u := BitOr(e, USER);
    forall i: nat | i < 64
      ensures Bit(BitAnd(u, ADDRESS_MASK), i) == Bit(BitAnd(e, ADDRESS_MASK), i)
      ensures Bit(BitAnd(u, LARGE_PAGE), i) == Bit(BitAnd(e, LARGE_PAGE), i)
    {
      OrBit(e, USER, i);
      UserBit(i);
      AddressMaskBit(i);
      LargePageBit(i);
      AndBit(u, ADDRESS_MASK, i);
      AndBit(e, ADDRESS_MASK, i);
      AndBit(u, LARGE_PAGE, i);
      AndBit(e, LARGE_PAGE, i);
    }
    WordsEqual(BitAnd(u, ADDRESS_MASK), BitAnd(e, ADDRESS_MASK));
    WordsEqual(BitAnd(u, LARGE_PAGE), BitAnd(e, LARGE_PAGE));
    OrBit(e, USER, 2);
    UserBit(2);
    ZeroBit(2);
  }

  // ----- masks of low digits

  /** `w & (2^n - 1)` is the remainder modulo 2^n. */
  lemma LowMask(w: Word, n: nat, mask: Word)
    requires mask == Pow2(n) - 1
    ensures BitAnd(w, mask) == w % Pow2(n)
  {
    var r := w % Pow2(n);
    assert r <= mask;
    forall i: nat | i < 64 ensures Bit(BitAnd(w, mask), i) == Bit(r, i) {
      AndBit(w, mask, i);
      OnesBit(n, i);
      ModBit(w, n, i);
    }
    WordsEqual(BitAnd(w, mask), r);
  }

  /** `|` of a multiple of 2^n and a number below 2^n is their sum. */
  lemma OrIsSum(q: nat, low: nat, n: nat)
    requires low < Pow2(n) && q * Pow2(n) + low < WORD_LIMIT
    ensures q * Pow2(n) < WORD_LIMIT && low < WORD_LIMIT
    ensures BitOr(q * Pow2(n), low) == q * Pow2(n) + low
  {
    var sum: Word := q * Pow2(n) + low;
    QuotientUnique(sum, Pow2(n), q, low);
    forall i: nat | i < 64 ensures Bit(BitOr(q * Pow2(n), low), i) == Bit(sum, i) {
      OrBit(q * Pow2(n), low, i);
      ShiftUpBit(q, n, i);
      if i < n {
        ModBit(sum, n, i);
      } else {
        HighBits(low, n, i);
        ShiftDownBit(sum, n, i - n);
      }
    }
    WordsEqual(BitOr(q * Pow2(n), low), sum);
  }

  lemma FrameBound(e: Word)
    ensures EntryFrame(e) < FRAME_LIMIT && BitAnd(e, ADDRESS_MASK) == EntryFrame(e) * 4096
  {
    AndBound(e, ADDRESS_MASK);
    var a := BitAnd(e, ADDRESS_MASK);
    Powers();
    forall i: nat | i < 12 ensures !Bit(a, i) {
      AndBit(e, ADDRESS_MASK, i);
      AddressMaskBit(i);
    }
    LowZeros(a, 12);
  }

  /** The first frame of a 2 MiB entry is a multiple of 512. */
  lemma LargeFrameBound(e: Word)
    ensures LargeFrame(e) + 512 <= FRAME_LIMIT && LargeFrame(e) % 512 == 0
    ensures BitAnd(e, LARGE_ADDRESS_MASK) == LargeFrame(e) * 4096
  {
    AndBound(e, LARGE_ADDRESS_MASK);
    var a := BitAnd(e, LARGE_ADDRESS_MASK);
    Powers();
    forall i: nat | i < 21 ensures !Bit(a, i) {
      AndBit(e, LARGE_ADDRESS_MASK, i);
      LargeAddressMaskBit(i);
    }
    LowZeros(a, 21);
  }

  lemma {:induction false} LowZeros(a: nat, n: nat)
    requires forall i: nat | i < n :: !Bit(a, i)
    ensures a % Pow2(n) == 0
    decreases n
  {
    forall i: nat | i < n ensures Bit(a % Pow2(n), i) == Bit(0, i) {
      ModBit(a, n, i);
      ZeroBit(i);
    }
    BitsDetermine(a % Pow2(n), 0, n);
  }

  /** Adding Present to page flags gives non-zero page flags. */
  lemma WithPresent(flags: Word)
    requires IsPageFlags(flags)
    ensures BitOr(flags, PRESENT) != 0 && IsPageFlags(BitOr(flags, PRESENT))
    ensures BitOr(BitOr(flags, PRESENT), PRESENT) == BitOr(flags, PRESENT)
  {
    var f := BitOr(flags, PRESENT);
    forall i: nat | i < 64
      ensures Bit(f, i) == (i == 0 || Bit(flags, i))
      ensures Bit(BitOr(f, PRESENT), i) == Bit(f, i)
    {
      OrBit(flags, PRESENT, i);
      OrBit(f, PRESENT, i);
      if i > 0 { HighBits(1, 1, i); }
    }
    WordsEqual(BitOr(f, PRESENT), f);
    ZeroBit(0);
  }

  // ----- single digits

  /** Present, writable and executable, as the processor reads an entry that leads to a table. */
  predicate TableBits(e: Word) { Bit(e, 0) && Bit(e, 1) && !Bit(e, 63) }

  /** The User digit. */
  predicate HasUser(e: Word) { Bit(e, 2) }

  /** `table_entry_flags` */
  function TableFlags(user: bool): Word
  {
    if user then BitOr(BitOr(PRESENT, WRITE), USER) else BitOr(PRESENT, WRITE)
  }

  lemma PresentBit(i: nat)
    ensures Bit(PRESENT, i) == (i == 0)
  {
    if i > 0 { HighBits(1, 1, i); }
  }

  lemma WriteBit(i: nat)
    ensures Bit(WRITE, i) == (i == 1)
  {
    FieldBit(1, 2, i);
    assert Pow2(1) == 2;
  }

  lemma TopBitBeside(top: nat, low: nat, i: nat)
    requires top == Pow2(63) && low < Pow2(63) && top + low < WORD_LIMIT && i < 64
    ensures Bit(top + low, i) <==> i == 63 || Bit(low, i)
  {
    OrIsSum(1, low, 63);
    OrBit(top, low, i);
    FieldBit(63, 64, i);
  }

  /** Tables are present and writable, and user-visible exactly if asked. */
  lemma TableFlagsAre(user: bool)
    ensures TableFlags(user) != 0 && IsPageFlags(TableFlags(user)) && TableBits(TableFlags(user))
    ensures HasUser(TableFlags(user)) == user
  {
    forall i: nat ensures Bit(TableFlags(user), i) == (i == 0 || i == 1 || (user && i == 2)) {
      OrBit(PRESENT, WRITE, i);
      OrBit(BitOr(PRESENT, WRITE), USER, i);
      PresentBit(i);
      WriteBit(i);
      UserBit(i);
    }
    ZeroBit(0);
  }

  /** A 4 KiB or table entry has the flags' digits outside the address field. */
  lemma EntryBit(frame: nat, flags: Word, i: nat)
    requires frame < FRAME_LIMIT && (i < 12 || 52 <= i < 64)
    ensures frame * 4096 < WORD_LIMIT && Bit(MakeEntry(frame * 4096, flags), i) == Bit(flags, i)
  {
    OrBit(BitAnd(frame * 4096, ADDRESS_MASK), flags, i);
    AndBit(frame * 4096, ADDRESS_MASK, i);
    AddressMaskBit(i);
  }

  lemma TableEntryBits(frame: nat, flags: Word)
    requires frame < FRAME_LIMIT && TableBits(flags)
    ensures frame * 4096 < WORD_LIMIT && TableBits(MakeEntry(frame * 4096, flags))
    ensures HasUser(MakeEntry(frame * 4096, flags)) == HasUser(flags)
  {
    EntryBit(frame, flags, 0);
    EntryBit(frame, flags, 1);
    EntryBit(frame, flags, 2);
    EntryBit(frame, flags, 63);
  }

  lemma LargeEntryUser(physical: Word, flags: Word)
    ensures HasUser(MakeLargeEntry(physical, flags)) == HasUser(flags)
  {
    OrBit(BitOr(BitAnd(physical, LARGE_ADDRESS_MASK), flags), LARGE_PAGE, 2);
    OrBit(BitAnd(physical, LARGE_ADDRESS_MASK), flags, 2);
    AndBit(physical, LARGE_ADDRESS_MASK, 2);
    LargeAddressMaskBit(2);
    LargePageBit(2);
  }

  /** The flags read from an entry are its digits outside the address field. */
  lemma EntryFlagsBit(e: Word, i: nat)
    requires i < 12 || 52 <= i < 64
    ensures Bit(EntryFlags(e), i) == Bit(e, i)
  {
    AndBit(e, Not(ADDRESS_MASK), i);
    NotBit(ADDRESS_MASK, i);
    AddressMaskBit(i);
  }

  lemma LargeFlagsBit(e: Word, i: nat)
    requires i < 12 || 52 <= i < 64
    ensures Bit(LargeFlags(e), i) == Bit(e, i)
  {
    AndBit(e, Not(LARGE_ADDRESS_MASK), i);
    NotBit(LARGE_ADDRESS_MASK, i);
    LargeAddressMaskBit(i);
  }

  /** Adding the User digit adds just that. */
  lemma AddUserBits(e: Word)
    ensures HasUser(BitOr(e, USER)) && (TableBits(e) ==> TableBits(BitOr(e, USER)))
  {
    OrBit(e, USER, 0);
    OrBit(e, USER, 1);
    OrBit(e, USER, 2);
    OrBit(e, USER, 63);
    UserBit(0);
    UserBit(1);
    UserBit(2);
    UserBit(63);
  }

  /** The loader's and the mapper's test for the User flag. */
  lemma UserTest(flags: Word)
    ensures BitAnd(flags, USER) == USER <==> HasUser(flags)
  {
    forall i: nat ensures Bit(USER, i) == (i == 2) { UserBit(i); }
    DigitTest(flags, USER, 2);
  }

  lemma WriteTest(flags: Word)
    ensures BitAnd(flags, WRITE) == WRITE <==> Bit(flags, 1)
  {
    forall i: nat ensures Bit(WRITE, i) == (i == 1) { WriteBit(i); }
    DigitTest(flags, WRITE, 1);
  }

  /** Masking with a word of one digit tests that digit. */
  lemma DigitTest(flags: Word, mask: Word, k: nat)
    requires k < 64 && forall i: nat :: Bit(mask, i) == (i == k)
    ensures BitAnd(flags, mask) == mask <==> Bit(flags, k)
  {
    forall i: nat ensures Bit(BitAnd(flags, mask), i) == (i == k && Bit(flags, k)) { AndBit(flags, mask, i); }
    assert Bit(mask, k);
    if Bit(flags, k) { WordsEqual(BitAnd(flags, mask), mask); }
  }

  /** Present does not touch the User digit. */
  lemma PresentKeepsUser(flags: Word)
    ensures HasUser(BitOr(flags, PRESENT)) == HasUser(flags)
  {
    OrBit(flags, PRESENT, 2);
    PresentBit(2);
  }
}

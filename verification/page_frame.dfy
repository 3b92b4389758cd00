/**
 The bitmap page-frame allocator: one bit per physical page, a set bit means free.
 The bitmap is an array of 64-bit words that every operation updates in place; its meaning is
 the set of free page numbers, and each method is specified on that set.
 */
module PageFrames {
  import opened Word64

  // Pages are 4096 bytes; the literal keeps address arithmetic linear for the verifier.

  /** Low physical memory that stays reserved after boot. */
  const EARLY_RESERVED_END: nat := 0x20000

  /** One boot memory-map entry; `usable` is `type == Usable`. */
  datatype Region = Region(start: nat, length: nat, usable: bool)

  // ----- what a bitmap means

  /** Page `i` is marked free in the words `s`. */
  predicate FreeIn(s: seq<Word>, i: nat)
  {
    i / 64 < |s| && Bit(s[i / 64], i % 64)
  }

  /** The free pages below `n`. */
  ghost function FreeBelow(s: seq<Word>, n: nat): set<nat>
  {
    if n == 0 then {}
    else if FreeIn(s, n - 1) then FreeBelow(s, n - 1) + {n - 1}
    else FreeBelow(s, n - 1)
  }

  ghost function FreeSet(s: seq<Word>): set<nat>
  {
    FreeBelow(s, 64 * |s|)
  }

  lemma {:induction false} FreeBelowMember(s: seq<Word>, n: nat, i: nat)
    ensures i in FreeBelow(s, n) <==> i < n && FreeIn(s, i)
    decreases n
  {
    if n > 0 { FreeBelowMember(s, n - 1, i); }
  }

  lemma FreeSetMember(s: seq<Word>, i: nat)
    ensures i in FreeSet(s) <==> FreeIn(s, i)
  {
    FreeBelowMember(s, 64 * |s|, i);
  }

  /** Clearing one bit of one word removes exactly that page. */
  lemma ClearPage(s: seq<Word>, i: nat)
    requires i / 64 < |s|
    ensures FreeSet(s[i / 64 := BitAnd(s[i / 64], Not(Shl(1, i % 64)))]) == FreeSet(s) - {i}
  {
    var w := s[i / 64];
    var t := s[i / 64 := BitAnd(w, Not(Shl(1, i % 64)))];
    forall p: nat ensures p in FreeSet(t) <==> p in FreeSet(s) && p != i {
      FreeSetMember(s, p);
      FreeSetMember(t, p);
      if p / 64 == i / 64 { ClearOneBit(w, i % 64, p % 64); }
    }
  }

  /** Setting one bit of one word adds exactly that page. */
  lemma SetPage(s: seq<Word>, i: nat)
    requires i / 64 < |s|
    ensures FreeSet(s[i / 64 := BitOr(s[i / 64], Shl(1, i % 64))]) == FreeSet(s) + {i}
  {
    var w := s[i / 64];
    var t := s[i / 64 := BitOr(w, Shl(1, i % 64))];
    forall p: nat ensures p in FreeSet(t) <==> p in FreeSet(s) || p == i {
      FreeSetMember(s, p);
      FreeSetMember(t, p);
      if p / 64 == i / 64 { SetOneBit(w, i % 64, p % 64); }
    }
  }

  lemma PageBit(s: seq<Word>, p: nat, b: nat)
    requires p < |s| && b < 64
    ensures FreeIn(s, 64 * p + b) == Bit(s[p], b)
  {
    assert (64 * p + b) / 64 == p && (64 * p + b) % 64 == b;
  }

  lemma FreeBelowStep(s: seq<Word>, n: nat)
    ensures |FreeBelow(s, n + 1)| == |FreeBelow(s, n)| + if FreeIn(s, n) then 1 else 0
  {
    FreeBelowMember(s, n, n);
  }

  /** No free page in `[m, n)` leaves the set below unchanged. */
  lemma {:induction false} NoneBetween(s: seq<Word>, m: nat, n: nat)
    requires m <= n && forall i: nat | m <= i < n :: !FreeIn(s, i)
    ensures FreeBelow(s, n) == FreeBelow(s, m)
    decreases n
  {
    if m < n { NoneBetween(s, m, n - 1); }
  }

  lemma ZeroWordHasNoFreePage(s: seq<Word>, w: nat)
    requires w < |s| && s[w] == 0
    ensures FreeBelow(s, 64 * (w + 1)) == FreeBelow(s, 64 * w)
  {
    forall i: nat | 64 * w <= i < 64 * (w + 1) ensures !FreeIn(s, i) {
      ZeroBit(i % 64);
    }
    NoneBetween(s, 64 * w, 64 * (w + 1));
  }

  // ----- which pages the boot map makes usable

  function AlignUp(v: nat): nat { (v + 4095) / 4096 * 4096 }

  function AlignDown(v: nat): nat { v / 4096 * 4096 }

  /** The page-aligned end of `r`, clipped to what `limitWords` bitmap words can track. */
  function ClippedEnd(r: Region, limitWords: nat): nat
  {
    var end := AlignDown(r.start + r.length);
    if end > limitWords * 64 * 4096 then limitWords * 64 * 4096 else end
  }

  /** Page `p` lies wholly inside the trackable part of `r`. */
  predicate PageInRegion(r: Region, p: nat, limitWords: nat)
  {
    r.usable && r.start <= p * 4096 && (p + 1) * 4096 <= r.start + r.length && p < limitWords * 64
  }

  predicate PageUsable(regions: seq<Region>, p: nat, limitWords: nat)
  {
    exists k | 0 <= k < |regions| :: PageInRegion(regions[k], p, limitWords)
  }

  /** The pages reached by stepping a page at a time from byte `start` while below byte `end`. */
  predicate PageInWindow(start: nat, end: nat, p: nat)
  {
    start / 4096 <= p && start + (p - start / 4096) * 4096 < end
  }

  /** `r` contributes at least one trackable page. */
  predicate Contributes(r: Region, limitWords: nat)
  {
    r.usable && AlignUp(r.start) < ClippedEnd(r, limitWords)
  }

  lemma PageInRegionIsRange(r: Region, p: nat, limitWords: nat)
    requires r.usable
    ensures PageInRegion(r, p, limitWords) <==>
              AlignUp(r.start) / 4096 <= p < ClippedEnd(r, limitWords) / 4096
  {
    var e := r.start + r.length;
    assert AlignDown(e) / 4096 == e / 4096;
    assert limitWords * 64 * 4096 / 4096 == limitWords * 64;
    assert AlignUp(r.start) / 4096 == (r.start + 4095) / 4096;
  }

  // ----- painting and counting

  const ALL_ONES: Word := WORD_LIMIT - 1

  lemma OnesWordBit(j: nat)
    ensures Bit(ALL_ONES, j) == (j < 64)
  {
    Pow2At64();
    OnesBit(64, j);
  }

  /** `((1 << count) - 1) << first`, with the full word when `count` is 64. */
  function SpanMask(first: nat, count: nat): Word
    requires first < 64 && 0 < count <= 64
  {
    if count == 64 then ALL_ONES else
    ShlOne(count);
    Shl(Shl(1, count) - 1, first)
  }

  lemma ShlOne(n: nat)
    requires n < 64
    ensures Shl(1, n) == Pow2(n)
  {
    Pow2At64();
    Pow2Add(n, 64 - n);
    assert Pow2(64 - n) >= 2;
    MulMono(2, Pow2(64 - n), Pow2(n));
  }

  lemma SpanMaskBit(first: nat, count: nat, j: nat)
    requires first < 64 && 0 < count && first + count <= 64
    ensures Bit(SpanMask(first, count), j) == (first <= j < first + count)
  {
    if count == 64 {
      OnesWordBit(j);
    } else {
      ShlOne(count);
      ShlBit(Shl(1, count) - 1, first, j);
      if first <= j { OnesBit(count, j - first); }
    }
  }

  lemma UpMaskBit(first: nat, j: nat)
    ensures Bit(Shl(ALL_ONES, first), j) == (first <= j < 64)
  {
    ShlBit(ALL_ONES, first, j);
    if first <= j { OnesWordBit(j - first); }
  }

  lemma DownMaskBit(count: nat, j: nat)
    requires count <= 64
    ensures Bit(Shr(ALL_ONES, 64 - count), j) == (j < count)
  {
    ShrBit(ALL_ONES, 64 - count, j);
    OnesWordBit(j + 64 - count);
  }

  /** `|=` with a mask whose digits are those in `[lo, hi)`. */
  lemma OrMaskBit(w: Word, mask: Word, lo: nat, hi: nat, j: nat)
    requires Bit(mask, j) == (lo <= j < hi)
    ensures Bit(BitOr(w, mask), j) == (Bit(w, j) || lo <= j < hi)
  {
    OrBit(w, mask, j);
  }

  /** Digit `j` of word `k` after painting the pages `[startPage, endPage)`. */
  ghost predicate Painted(was: Word, now: Word, k: nat, startPage: nat, endPage: nat)
  {
    forall j: nat | j < 64 :: Bit(now, j) == (Bit(was, j) || startPage <= 64 * k + j < endPage)
  }

  lemma PaintInOneWord(w: Word, k: nat, startPage: nat, endPage: nat)
    requires startPage < endPage && startPage / 64 == k == (endPage - 1) / 64
    ensures Painted(w, BitOr(w, SpanMask(startPage % 64, (endPage - 1) % 64 - startPage % 64 + 1)),
                    k, startPage, endPage)
  {
    var first, count := startPage % 64, (endPage - 1) % 64 - startPage % 64 + 1;
    forall j: nat | j < 64
      ensures Bit(BitOr(w, SpanMask(first, count)), j) == (Bit(w, j) || startPage <= 64 * k + j < endPage)
    {
      SpanMaskBit(first, count, j);
      OrMaskBit(w, SpanMask(first, count), first, first + count, j);
    }
  }

  lemma PaintFirstWord(w: Word, k: nat, startPage: nat, endPage: nat)
    requires startPage < endPage && startPage / 64 == k < (endPage - 1) / 64
    ensures Painted(w, BitOr(w, Shl(ALL_ONES, startPage % 64)), k, startPage, endPage)
  {
    forall j: nat | j < 64
      ensures Bit(BitOr(w, Shl(ALL_ONES, startPage % 64)), j) == (Bit(w, j) || startPage <= 64 * k + j < endPage)
    {
      UpMaskBit(startPage % 64, j);
      OrMaskBit(w, Shl(ALL_ONES, startPage % 64), startPage % 64, 64, j);
    }
  }

  function LastMask(lastBits: nat): Word
    requires lastBits < 64
  {
    if lastBits == 0 then ALL_ONES else Shr(ALL_ONES, 64 - lastBits)
  }

  lemma PaintLastWord(w: Word, k: nat, startPage: nat, endPage: nat)
    requires startPage < endPage && startPage / 64 < k == (endPage - 1) / 64
    ensures Painted(w, BitOr(w, LastMask(endPage % 64)), k, startPage, endPage)
  {
    var n := if endPage % 64 == 0 then 64 else endPage % 64;
    forall j: nat | j < 64
      ensures Bit(BitOr(w, LastMask(endPage % 64)), j) == (Bit(w, j) || startPage <= 64 * k + j < endPage)
    {
      if n == 64 { OnesWordBit(j); } else { DownMaskBit(n, j); }
      OrMaskBit(w, LastMask(endPage % 64), 0, n, j);
    }
  }

  lemma PaintOtherWord(w: Word, k: nat, startPage: nat, endPage: nat)
    requires startPage < endPage
    ensures startPage / 64 < k < (endPage - 1) / 64 ==> Painted(w, ALL_ONES, k, startPage, endPage)
    ensures k < startPage / 64 || (endPage - 1) / 64 < k ==> Painted(w, w, k, startPage, endPage)
  {
    forall j: nat | j < 64 ensures Bit(ALL_ONES, j) { OnesWordBit(j); }
  }

  method PaintRange(bitmap: array<Word>, startPage: nat, endPage: nat)
    requires startPage < endPage <= 64 * bitmap.Length
    modifies bitmap
    ensures forall k | 0 <= k < bitmap.Length :: Painted(old(bitmap[k]), bitmap[k], k, startPage, endPage)
  {
    var first := startPage / 64;
    var last := (endPage - 1) / 64;
    forall k | 0 <= k < bitmap.Length
      ensures k < first || last < k ==> Painted(bitmap[k], bitmap[k], k, startPage, endPage)
      ensures first < k < last ==> Painted(bitmap[k], ALL_ONES, k, startPage, endPage)
    {
      PaintOtherWord(bitmap[k], k, startPage, endPage);
    }
    if first == last {
      var mask := SpanMask(startPage % 64, (endPage - 1) % 64 - startPage % 64 + 1);
      PaintInOneWord(bitmap[first], first, startPage, endPage);
      bitmap[first] := BitOr(bitmap[first], mask);
      return;
    }
    PaintFirstWord(bitmap[first], first, startPage, endPage);
    PaintLastWord(bitmap[last], last, startPage, endPage);
    bitmap[first] := BitOr(bitmap[first], Shl(ALL_ONES, startPage % 64));
    var k := first + 1;
    while k < last
      invariant first < k <= last
      invariant bitmap[first] == BitOr(old(bitmap[first]), Shl(ALL_ONES, startPage % 64))
      invariant forall m | first < m < k :: bitmap[m] == ALL_ONES
      invariant forall m | 0 <= m < bitmap.Length && !(first <= m < k) :: bitmap[m] == old(bitmap[m])
    {
      bitmap[k] := ALL_ONES;
      k := k + 1;
    }
    bitmap[last] := BitOr(bitmap[last], LastMask(endPage % 64));
  }

  /**
   Count the free pages of one non-zero word.  `page` is the allocator's running page index: it
   may lag behind the true position `64 * p` but never passes it.
   */
  method CountWord(ghost s: seq<Word>, ghost p: nat, word: Word, page: nat, pageCount: nat, soFar: nat)
    returns (count: nat, next: nat)
    requires p < |s| && s[p] == word
    requires page <= 64 * p && soFar == |FreeBelow(s, 64 * p)|
    requires forall i: nat | FreeIn(s, i) :: i < pageCount
    ensures count == |FreeBelow(s, 64 * (p + 1))| && next <= 64 * (p + 1)
  {
    count, next := soFar, page;
    var val := word;
    var bitCount := 64;
    ghost var b: nat := 0;
    while bitCount > 0 && next < pageCount
      invariant 0 <= bitCount <= 64 && b == 64 - bitCount
      invariant next <= 64 * p + b
      invariant val == Shr(word, b)
      invariant count == |FreeBelow(s, 64 * p + b)|
    {
      PageBit(s, p, b);
      FreeBelowStep(s, 64 * p + b);
      ShiftStep(word, b);
      if val % 2 == 1 { count := count + 1; }
      val := Shr(val, 1);
      next := next + 1;
      bitCount, b := bitCount - 1, b + 1;
    }
    NoneBetween(s, 64 * p + b, 64 * (p + 1));
  }

  /** One `val >>= 1` of a scan that has already shifted `word` by `k`. */
  lemma ShiftStep(word: Word, k: nat)
    ensures Shr(Shr(word, k), 1) == Shr(word, k + 1)
    ensures (Shr(word, k) % 2 == 1) == Bit(word, k)
  {
    DivDiv(word, Pow2(k), 2);
    assert Pow2(1) == 2 && Pow2(k + 1) == Pow2(k) * 2;
    ShrBit(word, k, 0);
  }

  /** Count the free pages, skipping zero words without advancing the running page index. */
  method CountFree(bitmap: array<Word>, size: nat, pageCount: nat) returns (count: nat)
    requires size <= bitmap.Length
    requires forall i: nat | FreeIn(bitmap[..size], i) :: i < pageCount
    ensures count == |FreeSet(bitmap[..size])|
  {
    ghost var s := bitmap[..size];
    count := 0;
    var page: nat := 0;
    var p := 0;
    while p < size
      invariant p <= size
      invariant page <= 64 * p
      invariant count == |FreeBelow(s, 64 * p)|
    {
      if bitmap[p] != 0 {
        count, page := CountWord(s, p, bitmap[p], page, pageCount, count);
      } else {
        ZeroWordHasNoFreePage(s, p);
      }
      p := p + 1;
    }
    assert |s| == size;
  }

  // ----- the two passes over the boot memory map

  /** The highest trackable byte any usable region reaches, 0 when none contributes a page. */
  function MaxEnd(regions: seq<Region>, limitWords: nat): nat
  {
    if regions == [] then 0
    else
      var r := regions[|regions| - 1];
      var m := MaxEnd(regions[..|regions| - 1], limitWords);
      if Contributes(r, limitWords) && m < ClippedEnd(r, limitWords) then ClippedEnd(r, limitWords) else m
  }

  lemma {:induction false} MaxEndPositive(regions: seq<Region>, limitWords: nat)
    ensures MaxEnd(regions, limitWords) > 0 <==> exists k | 0 <= k < |regions| :: Contributes(regions[k], limitWords)
    ensures forall k | 0 <= k < |regions| && Contributes(regions[k], limitWords) ::
              ClippedEnd(regions[k], limitWords) <= MaxEnd(regions, limitWords)
  {
    if regions != [] {
      var n := |regions| - 1;
      MaxEndPositive(regions[..n], limitWords);
      if Contributes(regions[n], limitWords) {
        assert MaxEnd(regions, limitWords) > 0;
      } else {
        assert forall k | 0 <= k < n :: regions[k] == regions[..n][k];
      }
    }
  }

  lemma {:induction false} MaxEndBound(regions: seq<Region>, limitWords: nat)
    ensures MaxEnd(regions, limitWords) % 4096 == 0
    ensures MaxEnd(regions, limitWords) / 4096 <= limitWords * 64
  {
    if regions != [] { MaxEndBound(regions[..|regions| - 1], limitWords); }
  }

  method Measure(regions: seq<Region>, limitWords: nat) returns (memoryEnd: nat)
    ensures memoryEnd == MaxEnd(regions, limitWords)
  {
    memoryEnd := 0;
    for i := 0 to |regions|
      invariant memoryEnd == MaxEnd(regions[..i], limitWords)
    {
      assert regions[..i + 1][..i] == regions[..i];
      var b := regions[i];
      if b.usable {
        var clippedStart := AlignUp(b.start);
        var clippedEnd := ClippedEnd(b, limitWords);
        if clippedStart < clippedEnd && memoryEnd < clippedEnd {
          memoryEnd := clippedEnd;
        }
      }
    }
    assert regions[..|regions|] == regions;
  }

  /** The words `s` mark free exactly the usable pages of `regions`. */
  ghost predicate Shows(s: seq<Word>, regions: seq<Region>, limitWords: nat)
  {
    forall p: nat | p < 64 * |s| :: FreeIn(s, p) <==> PageUsable(regions, p, limitWords)
  }

  lemma ShownBelow(s: seq<Word>, regions: seq<Region>, limitWords: nat)
    requires Shows(s, regions, limitWords) && MaxEnd(regions, limitWords) / 4096 <= 64 * |s|
    ensures forall p: nat :: p in FreeSet(s) <==> PageUsable(regions, p, limitWords)
    ensures forall p: nat :: FreeIn(s, p) <==> PageUsable(regions, p, limitWords)
    ensures forall p: nat | FreeIn(s, p) :: p < MaxEnd(regions, limitWords) / 4096
  {
    MaxEndPositive(regions, limitWords);
    forall p: nat
      ensures p in FreeSet(s) <==> FreeIn(s, p)
      ensures PageUsable(regions, p, limitWords) ==> p < MaxEnd(regions, limitWords) / 4096
      ensures FreeIn(s, p) <==> PageUsable(regions, p, limitWords)
    {
      FreeSetMember(s, p);
      if PageUsable(regions, p, limitWords) {
        var k :| 0 <= k < |regions| && PageInRegion(regions[k], p, limitWords);
        PageInRegionIsRange(regions[k], p, limitWords);
      }
    }
  }

  /** The page range the painting pass computes for `r`, clipped to the end of memory. */
  lemma PaintBounds(r: Region, limitWords: nat, memoryEnd: nat, p: nat)
    requires r.usable && memoryEnd <= limitWords * 64 * 4096
    requires Contributes(r, limitWords) ==> ClippedEnd(r, limitWords) <= memoryEnd
    ensures var end := AlignDown(r.start + r.length);
            var clipped := if end > memoryEnd then memoryEnd else end;
            AlignUp(r.start) / 4096 <= p < clipped / 4096 <==> PageInRegion(r, p, limitWords)
  {
    PageInRegionIsRange(r, p, limitWords);
  }

  lemma PaintStep(was: seq<Word>, now: seq<Word>, done: seq<Region>, r: Region, limitWords: nat,
                  startPage: nat, endPage: nat)
    requires |was| == |now| && Shows(was, done, limitWords)
    requires forall k | 0 <= k < |was| :: Painted(was[k], now[k], k, startPage, endPage)
    requires forall p: nat :: startPage <= p < endPage <==> PageInRegion(r, p, limitWords)
    ensures Shows(now, done + [r], limitWords)
  {
    forall p: nat | p < 64 * |now| ensures FreeIn(now, p) <==> PageUsable(done + [r], p, limitWords) {
      var k, j := p / 64, p % 64;
      assert Painted(was[k], now[k], k, startPage, endPage);
      assert FreeIn(was, p) <==> PageUsable(done, p, limitWords);
      UsableStep(done, r, p, limitWords);
    }
  }

  lemma UsableStep(done: seq<Region>, r: Region, p: nat, limitWords: nat)
    ensures PageUsable(done + [r], p, limitWords) <==> PageUsable(done, p, limitWords) || PageInRegion(r, p, limitWords)
  {
    var all := done + [r];
    assert all[|done|] == r;
    if PageUsable(done, p, limitWords) {
      var k :| 0 <= k < |done| && PageInRegion(done[k], p, limitWords);
      assert all[k] == done[k];
    }
  }

  lemma NothingShown(s: seq<Word>, limitWords: nat)
    requires forall k | 0 <= k < |s| :: s[k] == 0
    ensures Shows(s, [], limitWords)
  {
    forall p: nat | p < 64 * |s| ensures !FreeIn(s, p) { ZeroBit(p % 64); }
  }

  /** Zero the first `size` words, then paint every usable region clipped to `memoryEnd`. */
  method PaintRegions(regions: seq<Region>, bitmap: array<Word>, size: nat, memoryEnd: nat)
    requires memoryEnd == MaxEnd(regions, bitmap.Length)
    requires size == (memoryEnd / 4096 + 63) / 64 <= bitmap.Length
    modifies bitmap
    ensures Shows(bitmap[..size], regions, bitmap.Length)
  {
    MaxEndPositive(regions, bitmap.Length);
    MaxEndBound(regions, bitmap.Length);
    forall k | 0 <= k < size { bitmap[k] := 0; }
    NothingShown(bitmap[..size], bitmap.Length);
    for i := 0 to |regions|
      invariant Shows(bitmap[..size], regions[..i], bitmap.Length)
    {
      assert regions[..i + 1] == regions[..i] + [regions[i]];
      PaintRegion(regions[..i], regions[i], bitmap, size, memoryEnd);
    }
    assert regions[..|regions|] == regions;
  }

  method PaintRegion(ghost done: seq<Region>, b: Region, bitmap: array<Word>, size: nat, memoryEnd: nat)
    requires memoryEnd / 4096 <= 64 * size && size <= bitmap.Length && memoryEnd <= bitmap.Length * 64 * 4096
    requires Contributes(b, bitmap.Length) ==> ClippedEnd(b, bitmap.Length) <= memoryEnd
    requires Shows(bitmap[..size], done, bitmap.Length)
    modifies bitmap
    ensures Shows(bitmap[..size], done + [b], bitmap.Length)
  {
    ghost var was := bitmap[..size];
    if !b.usable {
      forall p: nat ensures PageUsable(done + [b], p, bitmap.Length) == PageUsable(done, p, bitmap.Length) {
        UsableStep(done, b, p, bitmap.Length);
      }
      return;
    }
    var end := AlignDown(b.start + b.length);
    var clipped := if end > memoryEnd then memoryEnd else end;
    var startPage, endPage := AlignUp(b.start) / 4096, clipped / 4096;
    forall p: nat ensures startPage <= p < endPage <==> PageInRegion(b, p, bitmap.Length) {
      PaintBounds(b, bitmap.Length, memoryEnd, p);
    }
    if endPage <= startPage {
      forall p: nat ensures PageUsable(done + [b], p, bitmap.Length) == PageUsable(done, p, bitmap.Length) {
        UsableStep(done, b, p, bitmap.Length);
      }
      return;
    }
    PaintRange(bitmap, startPage, endPage);
    PaintStep(was, bitmap[..size], done, b, bitmap.Length, startPage, endPage);
  }

  // ----- runs of consecutive free pages

  /** `n` consecutive free pages start at `r`. */
  ghost predicate IsRun(free: set<nat>, r: nat, n: nat)
  {
    forall i: nat | r <= i < r + n :: i in free
  }

  ghost predicate IsLowest(free: set<nat>, p: nat)
  {
    p in free && forall q | q in free :: p <= q
  }

  /** Pages `[r, r + n)` as a set. */
  ghost function Span(r: nat, n: nat): set<nat>
  {
    if n == 0 then {} else Span(r, n - 1) + {r + n - 1}
  }

  lemma {:induction false} SpanMember(r: nat, n: nat, i: nat)
    ensures i in Span(r, n) <==> r <= i < r + n
    decreases n
  {
    if n > 0 { SpanMember(r, n - 1, i); }
  }

  /** `free` without the pages in `[lo, hi)`. */
  ghost function OutsideRange(free: set<nat>, lo: nat, hi: nat): set<nat>
  {
    set p | p in free && !(lo <= p < hi)
  }

  lemma OutsideRangeStep(free: set<nat>, lo: nat, hi: nat)
    requires lo <= hi
    ensures OutsideRange(free, lo, hi + 1) == OutsideRange(free, lo, hi) - {hi}
  {}

  lemma OutsideRangeBeyond(free: set<nat>, lo: nat, hi: nat, end: nat)
    requires lo <= hi <= end && forall p | p in free :: p < hi || p < lo
    ensures OutsideRange(free, lo, end) == OutsideRange(free, lo, hi)
  {}

  /** Taking a run of `n` free pages leaves `n` fewer. */
  lemma RunSize(was: set<nat>, now: set<nat>, r: nat, n: nat)
    requires IsRun(was, r, n) && now == was - Span(r, n)
    ensures |was| == |now| + n
  {
    SpanSize(r, n);
    forall i | i in Span(r, n) ensures i in was { SpanMember(r, n, i); }
    assert was == now + Span(r, n);
  }

  lemma {:induction false} SpanSize(r: nat, n: nat)
    ensures |Span(r, n)| == n
  {
    if n > 0 {
      SpanSize(r, n - 1);
      SpanMember(r, n - 1, r + n - 1);
    }
  }

  class PageFrameContainer {
    var bitmap: array<Word>
    var pageCount: nat
    var freePageCount: nat
    var bitmapSize: nat
    var memoryEnd: nat
    var initialized: bool
    /** The set of free pages the bitmap denotes. */
    ghost var free: set<nat>

    constructor ()
      ensures !initialized && Valid() && fresh(bitmap)
    {
      bitmap := new Word[0];
      pageCount, freePageCount, bitmapSize, memoryEnd, initialized := 0, 0, 0, 0, false;
      free := {};
    }

    /** The bitmap words denote `free`, and no bit at or above `pageCount` is set. */
    ghost predicate Backed()
      reads this, bitmap
    {
      && bitmapSize == (pageCount + 63) / 64
      && bitmapSize <= bitmap.Length
      && free == FreeSet(bitmap[..bitmapSize])
      && forall p | p in free :: p < pageCount
    }

    ghost predicate Valid()
      reads this, bitmap
    {
      if initialized then Backed() && freePageCount == |free| else free == {}
    }

    /**
     Build the bitmap from the boot memory map and reserve the bitmap's own pages, low memory and
     the kernel window.  `storage` is the bitmap memory, one word per `bitmap_limit` unit.
     */
    method Initialize(regions: seq<Region>, bitmapAddress: nat, storage: array<Word>,
                      kernelStart: nat, kernelEnd: nat)
      returns (ok: bool)
      requires Valid()
      modifies this, storage
      ensures Valid()
      ensures ok <==> !old(initialized) && exists k | 0 <= k < |regions| :: Contributes(regions[k], storage.Length)
      ensures ok ==> initialized && memoryEnd == MaxEnd(regions, storage.Length) && pageCount == memoryEnd / 4096
      ensures ok ==> forall p: nat :: p in free <==>
                && PageUsable(regions, p, storage.Length)
                && !PageInWindow(bitmapAddress, bitmapAddress + storage.Length * 8, p)
                && !PageInWindow(0, EARLY_RESERVED_END, p)
                && !PageInWindow(kernelStart, kernelEnd, p)
    {
      ok := false;
      if initialized { return; }
      memoryEnd := Measure(regions, storage.Length);
      MaxEndPositive(regions, storage.Length);
      if memoryEnd == 0 { return; }
      BuildBitmap(regions, storage);
      MarkWindowBusy(bitmapAddress, bitmapAddress + storage.Length * 8);
      MarkWindowBusy(0, EARLY_RESERVED_END);
      MarkWindowBusy(kernelStart, kernelEnd);
      ok := true;
    }

    /** Size, clear, paint and count the bitmap. */
    method BuildBitmap(regions: seq<Region>, storage: array<Word>)
      requires memoryEnd == MaxEnd(regions, storage.Length)
      modifies this, storage
      ensures initialized && Valid() && bitmap == storage && memoryEnd == old(memoryEnd)
      ensures pageCount == memoryEnd / 4096
      ensures forall p: nat :: p in free <==> PageUsable(regions, p, storage.Length)
    {
      bitmap := storage;
      pageCount := memoryEnd / 4096;
      bitmapSize := ((pageCount + 7) / 8 + 7) / 8;
      MaxEndBound(regions, storage.Length);
      PaintRegions(regions, storage, bitmapSize, memoryEnd);
      ShownBelow(bitmap[..bitmapSize], regions, storage.Length);
      freePageCount := CountFree(bitmap, bitmapSize, pageCount);
      free := FreeSet(bitmap[..bitmapSize]);
      initialized := true;
    }

    /** `is_free` */
    method IsFree(page: nat) returns (r: bool)
      requires Backed() && page < pageCount
      ensures r <==> page in free
    {
      FreeSetMember(bitmap[..bitmapSize], page);
      TestOneBit(bitmap[page / 64], page % 64);
      r := BitAnd(bitmap[page / 64], Shl(1, page % 64)) != 0;
    }

    /** `set_busy`: the bitmap only, not the counter. */
    method SetBusy(page: nat)
      requires Backed() && page < pageCount
      modifies this`free, bitmap
      ensures Backed() && free == old(free) - {page}
    {
      ghost var s := bitmap[..bitmapSize];
      ClearPage(s, page);
      bitmap[page / 64] := BitAnd(bitmap[page / 64], Not(Shl(1, page % 64)));
      assert bitmap[..bitmapSize] == s[page / 64 := bitmap[page / 64]];
      free := free - {page};
    }

    /** `set_free`: the bitmap only, not the counter. */
    method SetFree(page: nat)
      requires Backed() && page < pageCount
      modifies this`free, bitmap
      ensures Backed() && free == old(free) + {page}
    {
      ghost var s := bitmap[..bitmapSize];
      SetPage(s, page);
      bitmap[page / 64] := BitOr(bitmap[page / 64], Shl(1, page % 64));
      assert bitmap[..bitmapSize] == s[page / 64 := bitmap[page / 64]];
      free := free + {page};
    }

    /** Clear one bit and, when it was set, adjust the cached count. */
    method MarkBusyCounted(page: nat)
      requires initialized && Valid()
      modifies this`free, this`freePageCount, bitmap
      ensures Valid() && free == old(free) - {page}
    {
      if page >= pageCount { return; }
      var isFree := IsFree(page);
      if isFree {
        SetBusy(page);
        if freePageCount > 0 { freePageCount := freePageCount - 1; }
      }
    }

    /** Mark busy the pages reached from byte `start` in page steps while below byte `end`. */
    method MarkWindowBusy(start: nat, end: nat)
      requires initialized && Valid()
      modifies this`free, this`freePageCount, bitmap
      ensures Valid()
      ensures free == set p | p in old(free) && !PageInWindow(start, end, p)
    {
      var vp := start;
      ghost var k: nat := 0;
      while vp < end
        invariant vp == start + k * 4096
        invariant Valid()
        invariant free == set p | p in old(free) &&
                              !(PageInWindow(start, end, p) && p < start / 4096 + k)
        decreases end - vp
      {
        assert vp / 4096 == start / 4096 + k;
        MarkBusyCounted(vp / 4096);
        vp, k := vp + 4096, k + 1;
      }
    }

    method AllocateOne() returns (ok: bool, address: nat)
      requires Valid()
      modifies this`free, this`freePageCount, bitmap
      ensures Valid()
      ensures ok <==> old(free) != {}
      ensures ok ==> address % 4096 == 0 && IsLowest(old(free), address / 4096)
      ensures free == if ok then old(free) - {address / 4096} else old(free)
    {
      ok, address := false, 0;
      if !initialized { return; }
      var page;
      ok, page := LowestFree();
      if ok {
        address := page * 4096;
        SetBusy(page);
        if freePageCount > 0 { freePageCount := freePageCount - 1; }
      }
    }

    /** Scan the words for the first non-zero one, then its lowest digit. */
    method LowestFree() returns (found: bool, page: nat)
      requires Backed()
      ensures found <==> free != {}
      ensures found ==> IsLowest(free, page)
    {
      ghost var s := bitmap[..bitmapSize];
      found, page := false, 0;
      var p := 0;
      while p < bitmapSize
        invariant p <= bitmapSize
        invariant FreeBelow(s, 64 * p) == {}
      {
        if bitmap[p] != 0 {
          var k := LowestBit(bitmap[p]);
          LowestPage(s, p, k);
          return true, p * 64 + k;
        }
        ZeroWordHasNoFreePage(s, p);
        p := p + 1;
      }
    }

    /** First-fit search for `count` consecutive free pages. */
    method AllocateRun(count: nat) returns (ok: bool, address: nat)
      requires Valid()
      modifies this`free, this`freePageCount, bitmap
      ensures Valid()
      ensures ok <==> initialized && count != 0 && exists r: nat :: IsRun(old(free), r, count)
      ensures ok ==> address % 4096 == 0 && IsRun(old(free), address / 4096, count)
      ensures ok ==> forall r: nat | IsRun(old(free), r, count) :: address / 4096 <= r
      ensures free == if ok then old(free) - Span(address / 4096, count) else old(free)
    {
      ok, address := false, 0;
      if !initialized || count == 0 { return; }
      var first;
      ok, first := FirstRun(count);
      if ok {
        address := first * 4096;
        assert first + count - 1 in free;
        TakeRun(first, first + count - 1);
      }
    }

    /** Walk the pages keeping the start of the current run, `pageCount` standing for none. */
    method FirstRun(count: nat) returns (found: bool, first: nat)
      requires Backed() && count != 0
      ensures found <==> exists r: nat :: IsRun(free, r, count)
      ensures found ==> IsRun(free, first, count) && forall r: nat | IsRun(free, r, count) :: first <= r
    {
      var runStart: nat := pageCount;
      var i: nat := 0;
      while i < pageCount
        invariant i <= pageCount
        invariant runStart == pageCount || runStart < i
        invariant runStart < i ==> IsRun(free, runStart, i - runStart) && i - runStart < count
        invariant forall r: nat | IsRun(free, r, count) :: (if runStart == pageCount then i else runStart) <= r
      {
        var isFree := IsFree(i);
        if isFree {
          if runStart == pageCount { runStart := i; }
          if i - runStart + 1 == count {
            assert IsRun(free, runStart, count);
            return true, runStart;
          }
        } else {
          NoRunAcross(free, i, count);
          runStart := pageCount;
        }
        i := i + 1;
      }
      RunEnds(free, pageCount, count);
      found, first := false, 0;
    }

    method TakeRun(first: nat, last: nat)
      requires initialized && Valid()
      requires first <= last < pageCount && IsRun(free, first, last - first + 1)
      modifies this`free, this`freePageCount, bitmap
      ensures Valid() && free == old(free) - Span(first, last - first + 1)
    {
      SetRunBusy(first, last);
      RunSize(old(free), free, first, last - first + 1);
      if freePageCount >= last - first + 1 {
        freePageCount := freePageCount - (last - first + 1);
      }
    }

    method SetRunBusy(first: nat, last: nat)
      requires Backed() && first <= last < pageCount
      modifies this`free, bitmap
      ensures Backed() && free == old(free) - Span(first, last - first + 1)
    {
      var j := first;
      while j <= last
        invariant first <= j <= last + 1
        invariant Backed() && free == old(free) - Span(first, j - first)
      {
        assert Span(first, j + 1 - first) == Span(first, j - first) + {j};
        SetBusy(j);
        j := j + 1;
      }
    }

    /** Free one page.  Any tracked busy page is accepted, whoever holds it. */
    method FreePage(address: nat) returns (ok: bool)
      requires Valid()
      modifies this`free, this`freePageCount, bitmap
      ensures Valid()
      ensures ok <==> initialized && address % 4096 == 0 && address / 4096 < pageCount &&
                      address / 4096 !in old(free)
      ensures free == if ok then old(free) + {address / 4096} else old(free)
    {
      ok := false;
      if !initialized || address % 4096 != 0 { return; }
      var page := address / 4096;
      if page < pageCount {
        var isFree := IsFree(page);
        if !isFree {
          SetFree(page);
          freePageCount := freePageCount + 1;
          ok := true;
        }
      }
    }

    /** Reserve a byte range.  The end is computed in 64 bits, so a wrapping range reserves nothing. */
    method ReserveRange(address: Word, length: Word) returns (ok: bool)
      requires Valid()
      modifies this`free, this`freePageCount, bitmap
      ensures Valid()
      ensures ok <==> initialized && length != 0 &&
                      (EndPage(address, length) <= address / 4096 || EndPage(address, length) <= pageCount)
      ensures free == if !initialized || length == 0 then old(free)
                      else OutsideRange(old(free), address / 4096, EndPage(address, length))
    {
      ok := false;
      if !initialized || length == 0 { return; }
      var start, end := address / 4096, EndPage(address, length);
      if end <= start { return true; }
      ok := MarkPages(start, end);
    }

    method MarkPages(start: nat, end: nat) returns (ok: bool)
      requires initialized && Valid() && start < end
      modifies this`free, this`freePageCount, bitmap
      ensures Valid() && (ok <==> end <= pageCount)
      ensures free == OutsideRange(old(free), start, end)
    {
      var page: nat := start;
      while page < end
        invariant start <= page <= end
        invariant page <= pageCount || page == start
        invariant Valid() && free == OutsideRange(old(free), start, page)
      {
        if page >= pageCount {
          OutsideRangeBeyond(old(free), start, page, end);
          return false;
        }
        OutsideRangeStep(old(free), start, page);
        MarkBusyCounted(page);
        page := page + 1;
      }
      ok := true;
    }
  }

  /** One past the last page a byte range touches, computed in 64 bits. */
  function EndPage(address: Word, length: Word): nat
  {
    ((address + length + 4095) % WORD_LIMIT) / 4096
  }

  /** A digit set at position `k` of a 64-bit word means `k < 64`. */
  lemma ShortWord(w: Word, k: nat)
    requires Bit(w, k)
    ensures k < 64
  {
    Pow2At64();
    if k >= 64 { HighBits(w, 64, k); }
  }

  /** Shift a non-zero word right until its lowest digit is set. */
  method LowestBit(word: Word) returns (k: nat)
    requires word != 0
    ensures k < 64 && Bit(word, k) && forall j: nat | j < k :: !Bit(word, j)
  {
    var val := word;
    k := 0;
    assert word / 1 == word;
    while val % 2 == 0
      invariant val != 0 && val == Shr(word, k)
      invariant forall j: nat | j < k :: !Bit(word, j)
      decreases val
    {
      ShiftStep(word, k);
      val := Shr(val, 1);
      assert Pow2(1) == 2;
      k := k + 1;
    }
    ShiftStep(word, k);
    ShortWord(word, k);
  }

  lemma LowestPage(s: seq<Word>, p: nat, k: nat)
    requires p < |s| && k < 64 && FreeBelow(s, 64 * p) == {}
    requires Bit(s[p], k) && forall j: nat | j < k :: !Bit(s[p], j)
    ensures IsLowest(FreeSet(s), 64 * p + k)
  {
    PageBit(s, p, k);
    FreeSetMember(s, 64 * p + k);
    forall q: nat | q < 64 * p + k ensures q !in FreeSet(s) {
      FreeSetMember(s, q);
      FreeBelowMember(s, 64 * p, q);
      if q >= 64 * p { assert q / 64 == p && !Bit(s[p], q % 64); }
    }
  }

  lemma RunEnds(free: set<nat>, limit: nat, n: nat)
    requires forall p | p in free :: p < limit
    requires n > 0
    ensures forall r: nat | IsRun(free, r, n) :: r + n <= limit
  {
    forall r: nat | IsRun(free, r, n) ensures r + n <= limit {
      assert r + n - 1 in free;
    }
  }

  lemma NoRunAcross(free: set<nat>, i: nat, n: nat)
    requires i !in free && n > 0
    ensures forall r: nat | IsRun(free, r, n) && r <= i :: r + n <= i
  {}
}

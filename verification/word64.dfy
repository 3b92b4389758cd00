/**
 Unsigned 64-bit words as the kernel's `uint64_t` uses them: naturals below 2^64 with the
 C++ operators `|`, `&`, `~`, `<<` and `>>`.  Bitwise operators are defined digit by digit, and
 every fact about them is proved through `Bit`, the value of one binary digit.
 */
module Word64 {

  function Pow2(n: nat): (p: nat)
    ensures p > 0
  {
    if n == 0 then 1 else 2 * Pow2(n - 1)
  }

  const WORD_LIMIT: nat := 0x1_0000_0000_0000_0000

  /** A `uint64_t` value. */
  type Word = w: nat | w < WORD_LIMIT

  /** Binary digit `i` of `w`, counted from the least significant. */
  predicate Bit(w: nat, i: nat)
  {
    if i == 0 then w % 2 == 1 else Bit(w / 2, i - 1)
  }

  function Or(a: nat, b: nat): nat
  {
    if a == 0 && b == 0 then 0
    else (if a % 2 == 1 || b % 2 == 1 then 1 else 0) + 2 * Or(a / 2, b / 2)
  }

  function And(a: nat, b: nat): nat
  {
    if a == 0 || b == 0 then 0
    else (if a % 2 == 1 && b % 2 == 1 then 1 else 0) + 2 * And(a / 2, b / 2)
  }

  /** `~w` */
  function Not(w: Word): Word
  {
    WORD_LIMIT - 1 - w
  }

  /** `w << n` */
  function Shl(w: Word, n: nat): Word
  {
    (w * Pow2(n)) % WORD_LIMIT
  }

  /** `w >> n` */
  function Shr(w: Word, n: nat): Word
  {
    Above(w, n)
  }

  /** The digits of `w` from position `n` up. */
  function Above(w: nat, n: nat): (q: nat)
    ensures q <= w
  {
    DivAtMost(w, Pow2(n));
    w / Pow2(n)
  }

  /** `a | b` on words */
  function BitOr(a: Word, b: Word): Word
  {
    Pow2At64();
    OrBound(a, b, 64);
    Or(a, b)
  }

  /** `a & b` on words */
  function BitAnd(a: Word, b: Word): Word
  {
    AndBound(a, b);
    And(a, b)
  }

  // ----- arithmetic

  lemma DivAtMost(a: nat, b: nat)
    requires b > 0
    ensures 0 <= a / b <= a
  {
    var q := a / b;
    assert a == q * b + a % b;
    assert q * b == q + q * (b - 1);
    if q > 0 { MulNonNeg(q, b - 1); }
  }

  lemma MulNonNeg(a: nat, b: nat)
    ensures a * b >= 0
  {}

  lemma Pow2At64()
    ensures Pow2(64) == WORD_LIMIT
  {
    assert Pow2(2) == 4;
    Pow2Add(2, 2);
    Pow2Add(4, 4);
    Pow2Add(8, 8);
    Pow2Add(16, 16);
    Pow2Add(32, 32);
  }

  lemma {:induction false} Pow2Add(m: nat, n: nat)
    ensures Pow2(m + n) == Pow2(m) * Pow2(n)
    decreases m
  {
    if m > 0 {
      Pow2Add(m - 1, n);
      assert Pow2(m + n) == 2 * Pow2(m - 1 + n);
      assert 2 * (Pow2(m - 1) * Pow2(n)) == Pow2(m) * Pow2(n);
    }
  }

  // ----- digits of the operators

  lemma {:induction false} OrBit(a: nat, b: nat, i: nat)
    ensures Bit(Or(a, b), i) == (Bit(a, i) || Bit(b, i))
    decreases i
  {
    if a == 0 && b == 0 {
      ZeroBit(i);
    } else if i > 0 {
      OrBit(a / 2, b / 2, i - 1);
      assert Or(a, b) / 2 == Or(a / 2, b / 2);
    }
  }

  lemma {:induction false} AndBit(a: nat, b: nat, i: nat)
    ensures Bit(And(a, b), i) == (Bit(a, i) && Bit(b, i))
    decreases i
  {
    if a == 0 || b == 0 {
      ZeroBit(i);
    } else if i > 0 {
      AndBit(a / 2, b / 2, i - 1);
      assert And(a, b) / 2 == And(a / 2, b / 2);
    }
  }

  lemma {:induction false} ZeroBit(i: nat)
    ensures !Bit(0, i)
  {
    if i > 0 { ZeroBit(i - 1); }
  }

  /** A number below 2^n has no digit at or above n; a digit set at or above n makes it at least 2^n. */
  lemma {:induction false} HighBits(w: nat, n: nat, i: nat)
    requires w < Pow2(n) && n <= i
    ensures !Bit(w, i)
    decreases n
  {
    if n == 0 {
      ZeroBit(i);
    } else {
      HighBits(w / 2, n - 1, i - 1);
    }
  }

  /** Two numbers below 2^n with the same low n digits are equal. */
  lemma {:induction false} BitsDetermine(a: nat, b: nat, n: nat)
    requires a < Pow2(n) && b < Pow2(n)
    requires forall i: nat | i < n :: Bit(a, i) == Bit(b, i)
    ensures a == b
    decreases n
  {
    if n > 0 {
      assert Bit(a, 0) == Bit(b, 0);
      forall i: nat | i < n - 1 ensures Bit(a / 2, i) == Bit(b / 2, i) {
        assert Bit(a, i + 1) == Bit(b, i + 1);
      }
      BitsDetermine(a / 2, b / 2, n - 1);
    }
  }

  lemma {:induction false} ShiftUpBit(w: nat, n: nat, i: nat)
    ensures Bit(w * Pow2(n), i) == (n <= i && Bit(w, i - n))
    decreases n
  {
    if n > 0 {
      assert w * Pow2(n) == 2 * (w * Pow2(n - 1));
      if i > 0 { ShiftUpBit(w, n - 1, i - 1); }
    }
  }

  lemma {:induction false} ShiftDownBit(w: nat, n: nat, i: nat)
    ensures Bit(Above(w, n), i) == Bit(w, i + n)
    decreases n
  {
    if n == 0 {
      assert w / 1 == w;
    } else {
      ShiftDownBit(w / 2, n - 1, i);
      DivDiv(w, 2, Pow2(n - 1));
    }
  }

  lemma DivDiv(a: nat, b: nat, c: nat)
    requires b > 0 && c > 0
    ensures b * c > 0 && a / (b * c) == (a / b) / c
  {
    var q, r := a / b, a % b;
    var q2, r2 := q / c, q % c;
    assert a == b * q + r;
    assert q == c * q2 + r2;
    assert a == b * (c * q2 + r2) + r;
    assert b * (c * q2 + r2) == (b * c) * q2 + b * r2 by { MulDistributes(b, c * q2, r2); MulAssociates(b, c, q2); }
    assert 0 <= b * r2 + r < b * c by {
      MulMono(r2 + 1, c, b);
      MulDistributes(b, r2, 1);
      MulNonNeg(b, r2);
    }
    QuotientUnique(a, b * c, q2, b * r2 + r);
  }

  lemma MulDistributes(a: int, b: int, c: int)
    ensures a * (b + c) == a * b + a * c
  {}

  lemma MulAssociates(a: int, b: int, c: int)
    ensures a * (b * c) == (a * b) * c
  {}

  lemma MulMono(a: int, b: int, c: nat)
    requires a <= b
    ensures c * a <= c * b
  {
    MulDistributes(c, a, b - a);
    MulNonNeg(c, b - a);
  }

  lemma QuotientUnique(a: nat, d: nat, q: nat, r: nat)
    requires d > 0 && a == d * q + r && r < d
    ensures a / d == q && a % d == r
  {
    var q', r' := a / d, a % d;
    assert a == d * q' + r';
    if q < q' {
      MulMono(q + 1, q', d);
      MulDistributes(d, q, 1);
      assert false;
    } else if q' < q {
      MulMono(q' + 1, q, d);
      MulDistributes(d, q', 1);
      assert false;
    }
  }

  lemma {:induction false} ModBit(w: nat, n: nat, i: nat)
    ensures Bit(w % Pow2(n), i) == (i < n && Bit(w, i))
    decreases n
  {
    if n == 0 {
      ZeroBit(i);
    } else {
      var p := Pow2(n - 1);
      var q, r := (w / 2) / p, (w / 2) % p;
      assert w / 2 == p * q + r;
      assert w == (2 * p) * q + (2 * r + w % 2) by { MulAssociates(2, p, q); }
      QuotientUnique(w, 2 * p, q, 2 * r + w % 2);
      if i > 0 { ModBit(w / 2, n - 1, i - 1); }
    }
  }

  lemma {:induction false} OnesBit(n: nat, i: nat)
    ensures Bit(Pow2(n) - 1, i) == (i < n)
    decreases n
  {
    if n == 0 {
      ZeroBit(i);
    } else {
      assert (Pow2(n) - 1) / 2 == Pow2(n - 1) - 1;
      if i > 0 { OnesBit(n - 1, i - 1); }
    }
  }

  lemma {:induction false} ComplementBit(w: nat, n: nat, i: nat)
    requires w < Pow2(n) && i < n
    ensures Bit(Pow2(n) - 1 - w, i) == !Bit(w, i)
    decreases n
  {
    if i > 0 {
      assert (Pow2(n) - 1 - w) / 2 == Pow2(n - 1) - 1 - w / 2;
      ComplementBit(w / 2, n - 1, i - 1);
    }
  }

  lemma NotBit(w: Word, i: nat)
    requires i < 64
    ensures Bit(Not(w), i) == !Bit(w, i)
  {
    Pow2At64();
    ComplementBit(w, 64, i);
  }

  lemma ShlBit(w: Word, n: nat, i: nat)
    ensures Bit(Shl(w, n), i) == (n <= i < 64 && Bit(w, i - n))
  {
    Pow2At64();
    ShiftUpBit(w, n, i);
    ModBit(w * Pow2(n), 64, i);
  }

  lemma ShrBit(w: Word, n: nat, i: nat)
    ensures Bit(Shr(w, n), i) == Bit(w, i + n)
  {
    ShiftDownBit(w, n, i);
  }

  lemma {:induction false} OrBound(a: nat, b: nat, n: nat)
    requires a < Pow2(n) && b < Pow2(n)
    ensures Or(a, b) < Pow2(n)
    decreases n
  {
    if n > 0 && !(a == 0 && b == 0) { OrBound(a / 2, b / 2, n - 1); }
  }

  lemma {:induction false} AndBound(a: nat, b: nat)
    ensures And(a, b) <= a && And(a, b) <= b
    decreases a
  {
    if !(a == 0 || b == 0) { AndBound(a / 2, b / 2); }
  }

  /** Words are equal as soon as their 64 digits are. */
  lemma WordsEqual(a: Word, b: Word)
    requires forall i: nat | i < 64 :: Bit(a, i) == Bit(b, i)
    ensures a == b
  {
    Pow2At64();
    BitsDetermine(a, b, 64);
  }

  /** A word is non-zero exactly when some digit is set. */
  lemma {:induction false} NonZeroHasBit(w: nat) returns (i: nat)
    requires w != 0
    ensures Bit(w, i)
  {
    if w % 2 == 1 { i := 0; } else { i := NonZeroHasBit(w / 2); i := i + 1; }
  }

  // ----- single-digit masks, as a bitmap uses them

  lemma MaskBit(k: nat, j: nat)
    requires k < 64
    ensures Bit(Shl(1, k), j) == (j == k)
  {
    ShlBit(1, k, j);
    if j > k { HighBits(1, 1, j - k); }
  }

  lemma SetOneBit(w: Word, k: nat, j: nat)
    requires k < 64
    ensures Bit(BitOr(w, Shl(1, k)), j) == (j == k || Bit(w, j))
  {
    MaskBit(k, j);
    OrBit(w, Shl(1, k), j);
  }

  lemma ClearOneBit(w: Word, k: nat, j: nat)
    requires k < 64 && j < 64
    ensures Bit(BitAnd(w, Not(Shl(1, k))), j) == (j != k && Bit(w, j))
  {
    MaskBit(k, j);
    NotBit(Shl(1, k), j);
    AndBit(w, Not(Shl(1, k)), j);
  }

  lemma TestOneBit(w: Word, k: nat)
    requires k < 64
    ensures (BitAnd(w, Shl(1, k)) != 0) == Bit(w, k)
  {
    var m := BitAnd(w, Shl(1, k));
    AndBit(w, Shl(1, k), k);
    MaskBit(k, k);
    if m != 0 {
      var i := NonZeroHasBit(m);
      AndBit(w, Shl(1, k), i);
      MaskBit(k, i);
    } else {
      ZeroBit(k);
    }
  }
}

/**
 The timer calibration's rounded quotient of a product: the operands are reduced to lowest terms
 before a 64-bit multiplication that is checked for overflow.
 */
module Calibration {
  import opened Word64

  // ----- divisibility

  predicate Divides(d: nat, n: nat)
    requires d > 0
  {
    n % d == 0
  }

  lemma DividesIs(d: nat, n: nat, k: nat)
    requires d > 0 && n == d * k
    ensures Divides(d, n) && n / d == k
  {
    QuotientUnique(n, d, k, 0);
  }

  lemma Quotient(d: nat, n: nat)
    requires d > 0 && Divides(d, n)
    ensures n == d * (n / d)
  {}

  lemma DividesSum(d: nat, a: nat, b: nat)
    requires d > 0 && Divides(d, a) && Divides(d, b)
    ensures Divides(d, a + b)
  {
    Quotient(d, a);
    Quotient(d, b);
    MulDistributes(d, a / d, b / d);
    DividesIs(d, a + b, a / d + b / d);
  }

  lemma DividesMultiple(d: nat, a: nat, k: nat)
    requires d > 0 && Divides(d, a)
    ensures Divides(d, a * k)
  {
    Quotient(d, a);
    MulAssociates(d, a / d, k);
    DividesIs(d, a * k, (a / d) * k);
  }

  lemma DividesDifference(d: nat, a: nat, b: nat)
    requires d > 0 && Divides(d, a + b) && Divides(d, b)
    ensures Divides(d, a)
  {
    Quotient(d, a + b);
    Quotient(d, b);
    var x, y := (a + b) / d, b / d;
    MulDistributes(d, x - y, y);
    if x < y { MulMono(x, y, d); MulMono(x + 1, y, d); MulDistributes(d, x, 1); }
    DividesIs(d, a, x - y);
  }

  /** `g` is the greatest common divisor: it divides both, and everything that divides both divides it. */
  ghost predicate IsGcd(g: nat, a: nat, b: nat)
  {
    && g > 0 && Divides(g, a) && Divides(g, b)
    && forall d: nat | d > 0 && Divides(d, a) && Divides(d, b) :: Divides(d, g)
  }

  lemma EuclidStep(g: nat, a: nat, b: nat)
    requires b > 0 && IsGcd(g, b, a % b)
    ensures IsGcd(g, a, b)
  {
    var q := a / b;
    assert a == b * q + a % b;
    DividesMultiple(g, b, q);
    DividesSum(g, b * q, a % b);
    forall d: nat | d > 0 && Divides(d, a) && Divides(d, b) ensures Divides(d, g) {
      DividesMultiple(d, b, q);
      DividesDifference(d, a % b, b * q);
    }
  }

  /** Euclid's algorithm as a recursion, for the loop to follow. */
  ghost function Gcd(a: nat, b: nat): nat
    decreases b
  {
    if b == 0 then a else Gcd(b, a % b)
  }

  lemma {:induction false} GcdIs(a: nat, b: nat)
    requires a > 0 || b > 0
    ensures IsGcd(Gcd(a, b), a, b)
    decreases b
  {
    if b == 0 {
      DividesIs(a, a, 1);
      DividesIs(a, 0, 0);
    } else {
      GcdIs(b, a % b);
      EuclidStep(Gcd(a, b), a, b);
    }
  }

  /** `gcd_u64` */
  method GcdU64(left: Word, right: Word) returns (g: Word)
    ensures g == Gcd(left, right)
    ensures left > 0 || right > 0 ==> IsGcd(g, left, right)
  {
    var a, b := left, right;
    while b != 0
      invariant Gcd(a, b) == Gcd(left, right)
      decreases b
    {
      a, b := b, a % b;
    }
    g := a;
    if left > 0 || right > 0 { GcdIs(left, right); }
  }

  // ----- lowest terms

  lemma {:induction false} Bezout(a: nat, b: nat) returns (x: int, y: int)
    ensures a * x + b * y == Gcd(a, b)
    decreases b
  {
    if b == 0 {
      x, y := 1, 0;
    } else {
      var u, v := Bezout(b, a % b);
      x, y := v, u - (a / b) * v;
      BezoutStep(a, b, u, v);
    }
  }

  lemma BezoutStep(a: nat, b: nat, u: int, v: int)
    requires b > 0
    ensures a * v + b * (u - (a / b) * v) == b * u + (a % b) * v
  {
    var q, r := a / b, a % b;
    assert a == b * q + r;
    assert a * v == (b * q) * v + r * v;
    assert b * (u - q * v) == b * u - b * (q * v);
    MulAssociates(b, q, v);
  }

  /** A combination of two numbers that equals `k` is divisible by everything that divides both. */
  lemma DividesCombination(d: nat, a: nat, b: nat, x: int, y: int, k: nat)
    requires d > 0 && Divides(d, a) && Divides(d, b) && a * x + b * y == k
    ensures Divides(d, k)
  {
    Quotient(d, a);
    Quotient(d, b);
    var p, q := a / d, b / d;
    MulAssociates(d, p, x);
    MulAssociates(d, q, y);
    MulDistributes(d, p * x, q * y);
    var m := p * x + q * y;
    assert k == d * m;
    if m < 0 { MulMono(m, -1, d); }
    DividesIs(d, k, m);
  }

  /** Mutual divisors are equal. */
  lemma DividesBoth(a: nat, b: nat)
    requires a > 0 && b > 0 && Divides(a, b) && Divides(b, a)
    ensures a == b
  {
    Quotient(a, b);
    Quotient(b, a);
    if b / a == 0 || a / b == 0 {
      assert false;
    }
    MulMono(1, b / a, a);
    MulMono(1, a / b, b);
  }

  lemma GcdUnique(g: nat, h: nat, a: nat, b: nat)
    requires IsGcd(g, a, b) && IsGcd(h, a, b)
    ensures g == h
  {
    DividesBoth(g, h);
  }

  /** Numbers with a combination equal to one are coprime. */
  lemma CoprimeByCombination(a: nat, b: nat, x: int, y: int)
    requires a * x + b * y == 1
    ensures IsGcd(1, a, b)
  {
    DividesIs(1, a, a);
    DividesIs(1, b, b);
    forall d: nat | d > 0 && Divides(d, a) && Divides(d, b)
      ensures Divides(d, 1)
    {
      DividesCombination(d, a, b, x, y, 1);
    }
  }

  lemma CoprimeGcd(a: nat, b: nat)
    requires IsGcd(1, a, b)
    ensures Gcd(a, b) == 1
  {
    if a == 0 && b == 0 {
      DividesIs(2, 0, 0);
      assert false;
    } else {
      GcdIs(a, b);
      GcdUnique(Gcd(a, b), 1, a, b);
    }
  }

  /** Dividing two numbers by their greatest common divisor leaves coprime ones. */
  lemma Reduced(a: nat, b: nat, g: nat)
    requires (a > 0 || b > 0) && g == Gcd(a, b)
    ensures g > 0 && a == g * (a / g) && b == g * (b / g) && IsGcd(1, a / g, b / g)
  {
    GcdIs(a, b);
    Quotient(g, a);
    Quotient(g, b);
    var p, q := a / g, b / g;
    var x, y := Bezout(a, b);
    MulAssociates(g, p, x);
    MulAssociates(g, q, y);
    MulDistributes(g, p * x, q * y);
    var m := p * x + q * y;
    assert g * m == g * 1;
    if m < 1 { MulMono(m, 0, g); }
    if m > 1 { MulMono(2, m, g); }
    CoprimeByCombination(p, q, x, y);
  }

  lemma ProductOfSums(a: int, c: int, x: int, y: int, b: int, u: int, v: int)
    requires a * x + c * y == 1 && b * u + c * v == 1
    ensures (a * b) * (x * u) + c * (a * x * v + y * (b * u + c * v)) == 1
  {
    var s, t := b * u + c * v, a * x;
    assert t * s + (c * y) * s == 1;
    assert t * s == t * (b * u) + t * (c * v);
    assert (a * b) * (x * u) == t * (b * u);
    assert c * (a * x * v + y * s) == t * (c * v) + (c * y) * s;
  }

  /** A product of numbers coprime to `c` is coprime to `c`. */
  lemma CoprimeProduct(a: nat, b: nat, c: nat)
    requires IsGcd(1, a, c) && IsGcd(1, b, c)
    ensures IsGcd(1, a * b, c)
  {
    CoprimeGcd(a, c);
    CoprimeGcd(b, c);
    var x, y := Bezout(a, c);
    var u, v := Bezout(b, c);
    ProductOfSums(a, c, x, y, b, u, v);
    CoprimeByCombination(a * b, c, x * u, a * x * v + y * (b * u + c * v));
  }

  /** Coprimality is kept by going to a divisor. */
  lemma CoprimeDivisor(a: nat, b: nat, c: nat, k: nat)
    requires IsGcd(1, a, b) && b == c * k && c > 0
    ensures IsGcd(1, a, c)
  {
    DividesIs(1, c, c);
    forall d: nat | d > 0 && Divides(d, a) && Divides(d, c) ensures Divides(d, 1) { DividesMultiple(d, c, k); }
  }

  // ----- rounding

  /** `r` is the integer nearest to `n / d`, the larger one of two equally near. */
  predicate IsNearest(r: nat, n: nat, d: nat)
  {
    2 * r * d <= 2 * n + d && 2 * n < 2 * r * d + d
  }

  lemma NearestIs(num: nat, den: nat)
    requires den > 0
    ensures IsNearest((num + den / 2) / den, num, den)
  {
    var h, m := den / 2, num + den / 2;
    var r, rest := m / den, m % den;
    assert m == den * r + rest && 0 <= rest < den;
    assert 2 * r * den == 2 * (den * r);
    assert den == 2 * h || den == 2 * h + 1;
    Parity(num, r, h);
  }

  lemma Parity(n: nat, r: nat, h: nat)
    ensures 2 * n != 2 * r * (2 * h + 1) + (2 * h + 1)
  {
    assert 2 * r * (2 * h + 1) == 2 * (r * (2 * h + 1));
  }

  /** The nearest integer depends on the fraction only. */
  lemma NearestScales(r: nat, num: nat, den: nat, k: nat)
    requires IsNearest(r, num, den) && k > 0
    ensures IsNearest(r, num * k, den * k)
  {
    var e := 2 * r * den;
    assert 2 * r * (den * k) == k * e && 2 * (num * k) + den * k == k * (2 * num + den) &&
        k * e + den * k == k * (e + den);
    MulMono(e, 2 * num + den, k);
    assert 2 * (num * k) == k * (2 * num);
    MulMono(2 * num + 1, e + den, k);
    MulDistributes(k, 2 * num, 1);
  }

  // ----- the whole computation

  /** Numerator and denominator of `left * right / denominator` in lowest terms. */
  ghost function LowestNum(left: nat, right: nat, denominator: nat): nat
    requires denominator > 0
  {
    MulNonNeg(left, right);
    GcdIs(left * right, denominator);
    DivAtMost(left * right, Gcd(left * right, denominator));
    left * right / Gcd(left * right, denominator)
  }

  ghost function LowestDen(left: nat, right: nat, denominator: nat): nat
    requires denominator > 0
  {
    MulNonNeg(left, right);
    GcdIs(left * right, denominator);
    DivAtMost(denominator, Gcd(left * right, denominator));
    denominator / Gcd(left * right, denominator)
  }

  /** Coprime numbers that a common factor scales up to a fraction are its lowest terms. */
  lemma LowestUnique(num: nat, den: nat, k: nat, n: nat, d: nat)
    requires k > 0 && n == num * k && d == den * k && d > 0 && IsGcd(1, num, den)
    ensures Gcd(n, d) == k && n / k == num && d / k == den
  {
    CoprimeGcd(num, den);
    var x, y := Bezout(num, den);
    DividesIs(k, n, num);
    DividesIs(k, d, den);
    assert n * x + d * y == k by {
      Scaled(num, k, x);
      Scaled(den, k, y);
      MulDistributes(k, num * x, den * y);
    }
    forall e: nat | e > 0 && Divides(e, n) && Divides(e, d)
      ensures Divides(e, k)
    {
      DividesCombination(e, n, d, x, y, k);
    }
    GcdIs(n, d);
    GcdUnique(Gcd(n, d), k, n, d);
  }

  lemma Scaled(a: int, k: int, x: int)
    ensures (a * k) * x == k * (a * x)
  {}

  lemma Interchange(l: nat, g: nat, r: nat, h: nat)
    ensures (g * l) * (h * r) == (l * r) * (h * g)
  {
    assert (g * l) * (h * r) == g * (l * (h * r));
    assert l * (h * r) == h * (l * r);
    assert g * (h * (l * r)) == (g * h) * (l * r);
  }

  /** The two reductions of the routine together reach the lowest terms. */
  lemma TwoReductions(left: nat, right: nat, denominator: nat, l: nat, r: nat, d: nat, g1: nat, g2: nat)
    requires left == g2 * l && right == g1 * r && denominator == g1 * (g2 * d) && g1 > 0 && g2 > 0 && d > 0
    requires denominator > 0
    requires IsGcd(1, l, d) && IsGcd(1, r, g2 * d)
    ensures LowestNum(left, right, denominator) == l * r && LowestDen(left, right, denominator) == d
    ensures left * right == (l * r) * (g1 * g2) && denominator == d * (g1 * g2) && g1 * g2 > 0
  {
    Commutes(g2, d);
    CoprimeDivisor(r, g2 * d, d, g2);
    CoprimeProduct(l, r, d);
    Interchange(l, g2, r, g1);
    MulAssociates(g1, g2, d);
    Commutes(g1 * g2, d);
    MulMono(1, g2, g1);
    LowestUnique(l * r, d, g1 * g2, left * right, denominator);
  }

  lemma Commutes(a: int, b: int)
    ensures a * b == b * a
  {}

  /** Divide two numbers by their greatest common divisor. */
  method Reduce(a: Word, b: Word) returns (p: Word, q: Word, g: Word)
    requires b > 0
    ensures g > 0 && a == g * p && b == g * q && q > 0 && IsGcd(1, p, q)
  {
    g := GcdU64(a, b);
    Reduced(a, b, g);
    DivAtMost(a, g);
    DivAtMost(b, g);
    p, q := a / g, b / g;
  }

  /**
   `divide_product_rounded`: succeeds exactly when the denominator is not zero and the numerator plus
   half the denominator, in lowest terms, fits 64 bits; the result is then `left * right /
   denominator` over unbounded integers, rounded to nearest with ties up.
   */
  method DivideProductRounded(left: Word, right: Word, denominator: Word) returns (ok: bool, result: Word)
    ensures ok <==> (denominator != 0 && LowestNum(left, right, denominator) + LowestDen(left, right,
              denominator) / 2 < WORD_LIMIT)
    ensures ok ==> 0 <= left * right && IsNearest(result, left * right, denominator)
    ensures !ok ==> result == 0
  {
    ok, result := false, 0;
    if denominator == 0 { return; }
    var r, d1, g1 := Reduce(right, denominator);
    var l, d, g2 := Reduce(left, d1);
    TwoReductions(left, right, denominator, l, r, d, g1, g2);
    Overflow(l, r);
    if r != 0 && l > (WORD_LIMIT - 1) / r { return; }
    ok, result := RoundedQuotient(l, r, d);
    if ok { NearestScales(result, l * r, d, g1 * g2); }
  }

  /** The checked product and rounded quotient of reduced operands. */
  method RoundedQuotient(l: Word, r: Word, d: Word) returns (ok: bool, result: Word)
    requires d > 0 && 0 <= l * r < WORD_LIMIT
    ensures ok <==> l * r + d / 2 < WORD_LIMIT
    ensures if ok then IsNearest(result, l * r, d) else result == 0
  {
    var product := l * r;
    if product > WORD_LIMIT - 1 - d / 2 { return false, 0; }
    NearestIs(product, d);
    DivAtMost(product + d / 2, d);
    ok, result := true, (product + d / 2) / d;
  }

  /** The division test tells exactly whether the product fits. */
  lemma Overflow(l: nat, r: nat)
    ensures r != 0 ==> (l > (WORD_LIMIT - 1) / r <==> l * r >= WORD_LIMIT)
    ensures r == 0 ==> l * r == 0
    ensures l * r >= 0
  {
    MulNonNeg(l, r);
    if r != 0 {
      var m := WORD_LIMIT - 1;
      var q := m / r;
      assert m == r * q + m % r;
      if l > q { MulMono(q + 1, l, r); MulDistributes(r, q, 1); } else { MulMono(l, q, r); }
    }
  }
}

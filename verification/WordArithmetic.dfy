/** The modular word arithmetic of the accelerator kernels: 64-bit unsigned operands, sums that wrap,
    products in 128 bits, square-and-multiply powers and the signed extended Euclid loop. */
module WordArithmetic {
  import opened Congruence

  const WORD := 0x1_0000_0000_0000_0000
  const HALF_WORD := 0x8000_0000_0000_0000

  type Word = x: int | 0 <= x < WORD
  type Signed = x: int | -HALF_WORD <= x < HALF_WORD

  function ModAdd(a: Word, b: Word, m: Word): Word
  {
    if m == 0 then 0 else
      var s := (a % m + b % m) % WORD;
      if s >= m then s - m else s
  }

  function ModSub(a: Word, b: Word, m: Word): Word
  {
    if m == 0 then 0 else
      var aa, bb := a % m, b % m;
      if aa >= bb then aa - bb else aa + (m - bb)
  }

  function ModMul(a: Word, b: Word, m: Word): Word
  {
    if m == 0 then 0 else
      var p := (a % m) * (b % m);
      assert 0 <= p % m < m;
      p % m
  }

  function WrappedSum(x: nat, y: nat, m: nat): int
  {
    var s := (x + y) % WORD;
    if s >= m then s - m else s
  }

  lemma WrappedSumExact(x: nat, y: nat, m: nat)
    requires x < m && y < m < WORD
    ensures WrappedSum(x, y, m) == (x + y) % m <==> x + y < WORD
  {
    var s := x + y;
    if s < WORD {
      SmallMod(s, WORD);
      if s < m {
        SmallMod(s, m);
      } else {
        CongFrom(s, s - m, 1, m);
        SmallMod(s - m, m);
      }
    } else {
      WrapsOnce(s);
      CongFrom(s, s - m, 1, m);
      SmallMod(s - m, m);
    }
  }

  lemma WrapsOnce(s: nat)
    requires WORD <= s < 2 * WORD
    ensures s % WORD == s - WORD
  {
    CongFrom(s, s - WORD, 1, WORD);
    SmallMod(s - WORD, WORD);
  }

  /** The 64-bit sum inside ModAdd may wrap; the result is right exactly when it does not. */
  lemma ModAddExact(a: Word, b: Word, m: Word)
    requires m > 0
    ensures ModAdd(a, b, m) == (a + b) % m <==> a % m + b % m < WORD
  {
    CongMod(a, m);
    CongMod(b, m);
    CongAdd(a % m, a, b % m, b, m);
    WrappedSumExact(a % m, b % m, m);
    assert ModAdd(a, b, m) == WrappedSum(a % m, b % m, m);
  }

  /** Hence ModAdd adds modulo m on all operands exactly for the moduli up to 2^63. */
  lemma ModAddRange(m: Word)
    requires m > 0
    ensures (forall a: Word, b: Word :: ModAdd(a, b, m) == (a + b) % m) <==> m <= HALF_WORD
  {
    forall a: Word, b: Word
      ensures ModAdd(a, b, m) == (a + b) % m <==> a % m + b % m < WORD
    {
      ModAddExact(a, b, m);
    }
    if m > HALF_WORD {
      var top: Word := m - 1;
      SmallMod(top, m);
      assert ModAdd(top, top, m) != (top + top) % m;
    }
  }

  lemma ModSubCorrect(a: Word, b: Word, m: Word)
    requires m > 0
    ensures ModSub(a, b, m) == (a - b) % m
  {
    CongMod(a, m);
    CongMod(b, m);
    CongSub(a % m, a, b % m, b, m);
    var d := a % m - b % m;
    if d >= 0 {
      SmallMod(d, m);
    } else {
      CongFrom(d + m, d, 1, m);
      SmallMod(d + m, m);
    }
  }

  lemma ModMulCorrect(a: Word, b: Word, m: Word)
    requires m > 0
    ensures ModMul(a, b, m) == (a * b) % m
  {
    CongMod(a, m);
    CongMod(b, m);
    CongMul(a % m, a, b % m, b, m);
  }

  /** Square and multiply. */
  method ModPow(base: Word, exponent: Word, m: Word) returns (acc: Word)
    ensures m == 0 ==> acc == 0
    ensures m > 0 && exponent == 0 ==> acc == 1
    ensures m > 0 && exponent > 0 ==> acc == Pow(base, exponent) % m
    ensures m > 0 ==> Cong(acc, Pow(base, exponent), m)
  {
    if m == 0 {
      return 0;
    }
    acc := 1;
    var b: Word := base % m;
    var e: Word := exponent;
    CongMod(base, m);
    PowCong(b, base, e, m);
    while e != 0
      invariant Cong(acc * Pow(b, e), Pow(base, exponent), m)
      invariant e < exponent ==> acc < m || e != 0
      invariant e == exponent ==> acc == 1
      decreases e
    {
      PowHalve(b, e);
      var nextB := ModMul(b, b, m);
      ModMulCorrect(b, b, m);
      CongMod(b * b, m);
      PowCong(nextB, b * b, e / 2, m);
      if e % 2 != 0 {
        var nextAcc := ModMul(acc, b, m);
        ModMulCorrect(acc, b, m);
        CongMod(acc * b, m);
        CongMul(nextAcc, acc * b, Pow(nextB, e / 2), Pow(b * b, e / 2), m);
        assert (acc * b) * Pow(b * b, e / 2) == acc * Pow(b, e);
        acc := nextAcc;
      } else {
        CongMul(acc, acc, Pow(nextB, e / 2), Pow(b * b, e / 2), m);
      }
      b := nextB;
      e := e / 2;
    }
    if exponent > 0 {
      CongCanonical(acc, Pow(base, exponent), m);
    }
  }

  lemma PowHalve(b: int, e: nat)
    ensures Pow(b, e) == (if e % 2 == 0 then 1 else b) * Pow(b * b, e / 2)
  {
    assert Pow(b, 2) == b * Pow(b, 1) == b * b;
    PowMul(b, 2, e / 2);
    PowAdd(b, e % 2, 2 * (e / 2));
    assert Pow(b, e % 2) == if e % 2 == 0 then 1 else b;
  }

  // ----- modular inverse

  ghost predicate IsInverse(a: int, x: int, m: int)
    requires m > 0
  {
    (a * x) % m == 1
  }

  /** The inverse below m, or 0 when there is none. */
  ghost function InverseOf(a: int, m: int): (r: int)
    requires m > 0
    ensures 0 <= r < m
    ensures (exists x :: IsInverse(a, x, m)) ==> IsInverse(a, r, m)
  {
    if exists x :: IsInverse(a, x, m) then
      var x :| IsInverse(a, x, m);
      InverseReduced(a, x, m);
      x % m
    else 0
  }

  lemma InverseReduced(a: int, x: int, m: int)
    requires m > 0 && IsInverse(a, x, m)
    ensures 0 <= x % m < m && IsInverse(a, x % m, m)
  {
    CongMod(x, m);
    CongMul(a, a, x % m, x, m);
  }

  lemma InverseUnique(a: int, x: int, y: int, m: int)
    requires m > 0 && 0 <= x < m && 0 <= y < m && IsInverse(a, x, m) && IsInverse(a, y, m)
    ensures x == y
  {
    SmallMod(x, m);
    SmallMod(y, m);
    if m > 1 {
      SmallMod(1, m);
      CongMul(a * x, 1, y, y, m);
      CongMul(a * y, 1, x, x, m);
      SwapLast(a, x, y);
    }
  }

  lemma SwapLast(a: int, x: int, y: int)
    ensures (a * x) * y == (a * y) * x
  {
  }

  /** Remainder with the sign of the dividend, as the signed `%` of the source computes it. */
  function TruncatedRemainder(x: int, m: int): int
    requires m > 0
  {
    if x >= 0 then x % m else -((-x) % m)
  }

  /** What the Euclid loop knows about its four variables: Bezout coefficients for both remainders,
      |t| == u and |newT| == newU with opposite signs, and both inputs as combinations of the remainders. */
  datatype Certificate = Certificate(s: int, newS: int, flip: int, u: int, newU: int, alpha: int, beta: int) {
    ghost predicate Holds(t: int, newT: int, r: int, newR: int, a: int, m: int) {
      && r >= 1 && newR >= 0
      && r == s * m + t * a && newR == newS * m + newT * a
      && (flip == 1 || flip == -1)
      && u >= 0 && newU >= 0 && t == -flip * u && newT == flip * newU
      && u * newR + newU * r == m
      && alpha * r + beta * newR == a
    }

    function Next(q: int): Certificate {
      Certificate(newS, s - q * newS, -flip, newU, u + q * newU, alpha * q + beta, alpha)
    }
  }

  lemma EuclidStep(c: Certificate, t: int, newT: int, r: int, newR: int, a: int, m: int)
    requires c.Holds(t, newT, r, newR, a, m) && newR != 0
    ensures var q := r / newR;
      && 0 <= q <= r
      && c.Next(q).Holds(newT, t - q * newT, newR, r - q * newR, a, m)
      && 0 <= r - q * newR < newR
      && -m <= q * newT <= m && -m <= t - q * newT <= m
  {
    var q := r / newR;
    DivisionStep(r, newR);
    BezoutStep(r, newR, q, m, a, c.s, c.newS, t, newT);
    CoefficientStep(c.u, c.newU, r, newR, q, m);
    ExpandStep(c.alpha, c.beta, r, newR, q);
    FlipStep(q, c.flip, c.newU);
  }

  lemma FlipStep(q: int, flip: int, u: int)
    requires flip == 1 || flip == -1
    ensures q * (flip * u) == flip * (q * u)
  {
  }

  /** Extended Euclid on signed 64-bit words. For a modulus below 2^63 no step overflows: the coefficients
      satisfy |t| * newR + |newT| * r == m throughout. The result is the inverse, or 0 when there is none. */
  method ModInv(a: Word, m: Word) returns (inv: Word)
    requires m < HALF_WORD
    ensures m <= 1 ==> inv == 0
    ensures m > 1 ==> (inv != 0 <==> exists x :: IsInverse(a, x, m))
    ensures m > 1 && inv != 0 ==> inv < m && IsInverse(a, inv, m)
    ensures m > 0 ==> inv == InverseOf(a, m)
  {
    if m == 0 {
      return 0;
    }
    var t: Signed, newT: Signed := 0, 1;
    var r: Signed, newR: Signed := m, a % m;
    ghost var c := Certificate(1, 0, 1, 0, 1, 0, 1);
    while newR != 0
      invariant c.Holds(t, newT, r, newR, a % m, m)
      decreases newR
    {
      EuclidStep(c, t, newT, r, newR, a % m, m);
      var q: Signed := r / newR;
      c := c.Next(q);
      var scaled: Signed := q * newT;
      var nextT: Signed := t - scaled;
      t := newT;
      newT := nextT;
      var nextR: Signed := r - q * newR;
      r := newR;
      newR := nextR;
    }
    if r != 1 {
      NoInverse(a, m, r, c.alpha, c.newU);
      assert m == 1 || InverseOf(a, m) == 0;
      return 0;
    }
    var reduced: Signed := TruncatedRemainder(t, m);
    TruncatedIsCongruent(t, m);
    if reduced < 0 {
      CongFrom(reduced + m, reduced, 1, m);
      reduced := reduced + m;
    }
    if m > 1 {
      BezoutInverse(a, m, c.s, t, reduced);
      InverseUnique(a, reduced, InverseOf(a, m), m);
    }
    return reduced;
  }

  lemma DivisionStep(r: int, d: int)
    requires r >= 1 && d >= 1
    ensures 0 <= r / d <= r
    ensures 0 <= r - (r / d) * d < d
  {
    var q, rest := r / d, r % d;
    assert r == d * q + rest;
    MulAtLeast(q, d);
  }

  lemma MulAtLeast(a: int, b: int)
    requires a >= 0 && b >= 1
    ensures a * b == b * a >= a
  {
  }

  lemma BezoutStep(r: int, newR: int, q: int, m: int, a: int, s: int, newS: int, t: int, newT: int)
    requires r == s * m + t * a && newR == newS * m + newT * a
    ensures r - q * newR == (s - q * newS) * m + (t - q * newT) * a
  {
    assert q * newR == (q * newS) * m + (q * newT) * a;
  }

  lemma CoefficientStep(u: int, newU: int, r: int, newR: int, q: int, m: int)
    requires u >= 0 && newU >= 0 && q >= 0 && newR >= 1 && r - q * newR >= 0
    requires u * newR + newU * r == m
    ensures newU * (r - q * newR) + (u + q * newU) * newR == m
    ensures 0 <= q * newU <= u + q * newU <= m
  {
    ExchangeTerms(u, newU, r, newR, q);
    MulNonNegative(newU, r - q * newR);
    MulNonNegative(q, newU);
    MulAtLeast(u + q * newU, newR);
  }

  lemma ExchangeTerms(u: int, v: int, r: int, d: int, q: int)
    ensures v * (r - q * d) + (u + q * v) * d == u * d + v * r
  {
  }

  lemma MulNonNegative(a: int, b: int)
    requires a >= 0 && b >= 0
    ensures a * b >= 0
  {
  }

  lemma ExpandStep(alpha: int, beta: int, r: int, newR: int, q: int)
    ensures (alpha * q + beta) * newR + alpha * (r - q * newR) == alpha * r + beta * newR
  {
  }

  /** A common divisor other than 1 rules out an inverse. */
  lemma NoInverse(a: int, m: int, d: int, alpha: int, mu: int)
    requires m > 1 ==> d > 1
    requires m > 0 && a % m == alpha * d && m == mu * d
    ensures m > 1 ==> !exists x :: IsInverse(a, x, m)
  {
    if m > 1 && exists x :: IsInverse(a, x, m) {
      var x :| IsInverse(a, x, m);
      CongMod(a, m);
      CongMul(a % m, a, x, x, m);
      SmallMod(1, m);
      var k := CongQuotient((a % m) * x, 1, m);
      assert (alpha * d) * x == d * (alpha * x);
      assert k * (mu * d) == d * (k * mu);
      assert d * (alpha * x - k * mu) == 1;
      UnitFactor(d, alpha * x - k * mu);
    }
  }

  lemma UnitFactor(d: int, e: int)
    requires d >= 1 && d * e == 1
    ensures d == 1
  {
    assert e >= 1;
    assert d >= 2 ==> d * e >= 2 * e;
  }

  lemma TruncatedIsCongruent(t: int, m: int)
    requires m > 0
    ensures -m < TruncatedRemainder(t, m) < m
    ensures Cong(TruncatedRemainder(t, m), t, m)
  {
    if t >= 0 {
      CongMod(t, m);
    } else {
      CongMod(-t, m);
      CongSub(0, 0, (-t) % m, -t, m);
    }
  }

  lemma BezoutInverse(a: int, m: int, s: int, t: int, x: int)
    requires m > 1 && 0 <= x < m && Cong(x, t, m)
    requires s * m + t * (a % m) == 1
    ensures x != 0 && IsInverse(a, x, m)
  {
    CongMod(a, m);
    CongMul(a % m, a, t, x, m);
    assert (a % m) * t == t * (a % m);
    CongFrom(1, (a % m) * t, s, m);
    SmallMod(1, m);
    SmallMod(0, m);
  }
}

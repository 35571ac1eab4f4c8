/** Barrett reduction of 128-bit values on 64-bit words and the Horner loop that reduces long integers with it. */
module Barrett {
  import opened Congruence
  import opened WordArithmetic

  /** The two words of a product. */
  function LowWord(x: nat): Word
  {
    x % WORD
  }

  function HighWord(x: nat): nat
  {
    x / WORD
  }

  lemma ProductBound(a: Word, b: Word)
    ensures 0 <= a * b <= (WORD - 1) * (WORD - 1)
  {
    MulNonNegative(a, b);
    MulNonNegative(WORD - 1 - a, b);
    MulNonNegative(WORD - 1, WORD - 1 - b);
  }

  function Product(a: Word, b: Word): (r: nat)
    ensures HighWord(r) < WORD - 1
  {
    ProductBound(a, b);
    a * b
  }

  /** What the modulus object precomputes: the two words of floor(2^128 / p). */
  ghost predicate RatioOf(ratio0: Word, ratio1: Word, p: Word)
  {
    p > 0 && ratio0 + ratio1 * WORD == (WORD * WORD) / p
  }

  lemma AssembleQuotient(in0: Word, in1: Word, ratio0: Word, ratio1: Word)
    ensures var b, c := Product(in0, ratio1), Product(in1, ratio0);
      var s1 := LowWord(b) + HighWord(Product(in0, ratio0));
      var s2 := LowWord(s1) + LowWord(c);
      (in0 + in1 * WORD) * (ratio0 + ratio1 * WORD) / (WORD * WORD)
        == Product(in1, ratio1) + (HighWord(b) + HighWord(s1)) + (HighWord(c) + HighWord(s2))
  {
    ExpandWords(in0, in1, ratio0, ratio1, WORD);
    var a, b, c, d := Product(in0, ratio0), Product(in0, ratio1), Product(in1, ratio0), Product(in1, ratio1);
    assert a == in0 * ratio0 && b == in0 * ratio1 && c == in1 * ratio0 && d == in1 * ratio1;
    hide Product, HighWord, LowWord;
    CollectWords((in0 + in1 * WORD) * (ratio0 + ratio1 * WORD), a, b, c, d);
  }

  lemma ExpandWords(a0: int, a1: int, b0: int, b1: int, w: int)
    ensures (a0 + a1 * w) * (b0 + b1 * w) == a0 * b0 + (a0 * b1 + a1 * b0) * w + (a1 * b1) * (w * w)
  {
    assert (a0 + a1 * w) * (b0 + b1 * w) == a0 * b0 + a0 * (b1 * w) + (a1 * w) * b0 + (a1 * w) * (b1 * w);
    PairFactors(a1, w, b1, w);
  }

  lemma CollectWords(x: int, a: nat, b: nat, c: nat, d: nat)
    requires x == a + (b + c) * WORD + d * (WORD * WORD)
    ensures var s1 := LowWord(b) + HighWord(a);
      var s2 := LowWord(s1) + LowWord(c);
      x / (WORD * WORD) == d + (HighWord(b) + HighWord(s1)) + (HighWord(c) + HighWord(s2))
  {
    var s1 := LowWord(b) + HighWord(a);
    var s2 := LowWord(s1) + LowWord(c);
    var q := d + (HighWord(b) + HighWord(s1)) + (HighWord(c) + HighWord(s2));
    assert x == LowWord(a) + LowWord(s2) * WORD + q * (WORD * WORD);
  }

  /** The estimate is at most one below the true quotient. */
  lemma EstimateBound(x: nat, r: nat, p: nat, b: nat, q: nat)
    requires p > 0 && b > 0 && x < b && r == b / p && q == (x * r) / b
    ensures 0 <= x - q * p < 2 * p
  {
    var s, rest := b % p, (x * r) % b;
    assert b == p * r + s;
    assert x * r == b * q + rest;
    EstimateLow(x, r, p, b, q, s, rest);
    EstimateHigh(x, r, p, b, q, s, rest);
  }

  lemma EstimateLow(x: nat, r: nat, p: nat, b: nat, q: nat, s: nat, rest: nat)
    requires b == p * r + s && x * r == b * q + rest && b > 0
    ensures q * p <= x
  {
    ScaleUp(x, r, p, b, q, s, rest);
    MulNonNegative(p, rest);
    MulNonNegative(x, s);
    CancelFactor(b, q * p, x);
  }

  lemma EstimateHigh(x: nat, r: nat, p: nat, b: nat, q: nat, s: nat, rest: nat)
    requires b == p * r + s && x * r == b * q + rest && x < b && s < p && rest < b
    ensures x < (q + 2) * p
  {
    ScaleUp(x, r, p, b, q, s, rest);
    BelowProduct(p, rest, b);
    BelowProduct(x, s, p);
    BelowProduct(p, x, b);
    Widen(b, q * p, p);
    assert (q + 2) * p == q * p + 2 * p;
    CancelStrict(b, x, q * p + 2 * p);
  }

  lemma ScaleUp(x: nat, r: nat, p: nat, b: nat, q: nat, s: nat, rest: nat)
    requires b == p * r + s && x * r == b * q + rest
    ensures x * b == b * (q * p) + p * rest + x * s
  {
    var xr := x * r;
    assert x * b == p * xr + x * s by {
      assert x * (p * r) == p * (x * r);
    }
    assert p * xr == b * (q * p) + p * rest by {
      assert p * (b * q) == b * (q * p);
    }
  }

  lemma BelowProduct(a: nat, u: nat, v: nat)
    requires u < v
    ensures a * u <= a * v - a
    ensures a * u == u * a && a * v == v * a
  {
    MulNonNegative(a, v - 1 - u);
    assert a * (v - 1 - u) == a * v - a - a * u;
  }

  lemma Widen(b: int, qp: int, p: int)
    ensures b * (qp + 2 * p) == b * qp + 2 * (p * b)
  {
  }

  lemma CancelFactor(b: nat, u: int, v: int)
    requires b > 0 && b * u <= v * b
    ensures u <= v
  {
    if u > v {
      MulAtLeast(u - v, b);
    }
  }

  lemma CancelStrict(b: nat, u: int, v: int)
    requires u * b < b * v
    ensures u < v
  {
    if u >= v {
      MulNonNegative(u - v, b);
    }
  }

  /** One 128-bit reduction, word by word; every addition and the final product wrap at 64 bits. */
  method BarrettReduce128(in0: Word, in1: Word, p: Word, ratio0: Word, ratio1: Word) returns (r: Word)
    requires 2 <= p <= HALF_WORD && RatioOf(ratio0, ratio1, p)
    ensures r == (in0 + in1 * WORD) % p
  {
    hide Product, LowWord, HighWord;
    NoCarryLost(in0, in1, ratio0, ratio1);
    var carry := HighWord(Product(in0, ratio0));
    var s1 := LowWord(Product(in0, ratio1)) + carry;
    var tmp3 := LowWord(HighWord(Product(in0, ratio1)) + HighWord(s1));
    var s2 := LowWord(s1) + LowWord(Product(in1, ratio0));
    carry := LowWord(HighWord(Product(in1, ratio0)) + HighWord(s2));
    var estimate := LowWord(Product(in1, ratio1) + tmp3 + carry);
    var rest := (in0 - estimate * p) % WORD;
    r := if rest >= p then rest - p else rest;
    RemainderRight(in0, in1, p, ratio0, ratio1, Product(in1, ratio1) + tmp3 + carry, estimate, rest);
  }

  lemma RemainderRight(in0: Word, in1: Word, p: Word, ratio0: Word, ratio1: Word, full: nat, estimate: Word, rest: Word)
    requires 2 <= p <= HALF_WORD && RatioOf(ratio0, ratio1, p)
    requires full == (in0 + in1 * WORD) * (ratio0 + ratio1 * WORD) / (WORD * WORD)
    requires estimate == LowWord(full) && rest == (in0 - estimate * p) % WORD
    ensures (if rest >= p then rest - p else rest) == (in0 + in1 * WORD) % p
  {
    var x := in0 + in1 * WORD;
    EstimateBound(x, ratio0 + ratio1 * WORD, p, WORD * WORD, full);
    var d := x - full * p;
    var t := HighWord(full);
    FoldWords(in0, in1, estimate, t, p, d);
    CongFrom(in0 - estimate * p, d, t * p - in1, WORD);
    SmallMod(d, WORD);
    if d >= p {
      CongFrom(x, d - p, full + 1, p);
      SmallMod(d - p, p);
    } else {
      CongFrom(x, d, full, p);
      SmallMod(d, p);
    }
  }

  lemma FoldWords(in0: int, in1: int, estimate: int, t: int, p: int, d: int)
    requires d == in0 + in1 * WORD - (estimate + t * WORD) * p
    ensures in0 - estimate * p == d + (t * p - in1) * WORD
  {
    assert (t * WORD) * p == (t * p) * WORD;
  }

  /** No carry leaves its word, so the estimate is floor(x * ratio / 2^128) modulo 2^64. */
  lemma NoCarryLost(in0: Word, in1: Word, ratio0: Word, ratio1: Word)
    ensures var b, c := Product(in0, ratio1), Product(in1, ratio0);
      var s1 := LowWord(b) + HighWord(Product(in0, ratio0));
      var s2 := LowWord(s1) + LowWord(c);
      Product(in1, ratio1) + LowWord(HighWord(b) + HighWord(s1)) + LowWord(HighWord(c) + HighWord(s2))
        == (in0 + in1 * WORD) * (ratio0 + ratio1 * WORD) / (WORD * WORD)
  {
    hide LowWord, HighWord, Product;
    var b, c := Product(in0, ratio1), Product(in1, ratio0);
    var s1 := LowWord(b) + HighWord(Product(in0, ratio0));
    var s2 := LowWord(s1) + LowWord(c);
    SumFits(HighWord(b), s1);
    SumFits(HighWord(c), s2);
    AssembleQuotient(in0, in1, ratio0, ratio1);
  }

  lemma SumFits(high: nat, s: nat)
    requires high < WORD - 1 && s < 2 * WORD
    ensures LowWord(high + HighWord(s)) == high + HighWord(s)
  {
  }

  // ----- long integers

  /** Value of little-endian digits in base b. */
  function ValueOf(digits: seq<int>, b: int): int
  {
    if |digits| == 0 then 0 else digits[0] + b * ValueOf(digits[1..], b)
  }

  /** Horner steps from the most significant word down. A single word is handed back as it is, so the result is
      the remainder exactly when there are two words or more, or the one word is already below p. */
  method ModuloUint(value: seq<Word>, p: Word, ratio0: Word, ratio1: Word) returns (r: Word)
    requires |value| >= 1 && 2 <= p <= HALF_WORD && RatioOf(ratio0, ratio1, p)
    ensures r == ValueOf(value, WORD) % p <==> |value| >= 2 || value[0] < p
    ensures |value| == 1 ==> r == value[0]
  {
    var top := |value| - 1;
    r := value[top];
    ghost var rest := ValueOf(value[top..], WORD);
    assert value[top..] == [value[top]];
    SingleDigit(r, WORD);
    var k := top;
    while k > 0
      invariant 0 <= k <= top
      invariant rest == ValueOf(value[k..], WORD) && Cong(r, rest, p)
      invariant if k < top then r < p else r == value[top]
    {
      k := k - 1;
      assert value[k..][1..] == value[k + 1..];
      ghost var next := value[k] + WORD * rest;
      HornerStep(value[k], r, rest, p);
      r := BarrettReduce128(value[k], r, p, ratio0, ratio1);
      rest := next;
    }
    assert value[0..] == value;
    if top > 0 {
      CongCanonical(r, rest, p);
    } else if r < p {
      SmallMod(r, p);
    }
  }

  lemma SingleDigit(d: int, b: int)
    ensures ValueOf([d], b) == d
  {
    assert b * ValueOf([], b) == 0;
  }

  lemma HornerStep(word: int, r: int, rest: int, p: int)
    requires p > 0 && Cong(r, rest, p)
    ensures 0 <= (word + r * WORD) % p < p && Cong((word + r * WORD) % p, word + WORD * rest, p)
  {
    CongMul(r, rest, WORD, WORD, p);
    CongAdd(word, word, r * WORD, rest * WORD, p);
    CongMod(word + r * WORD, p);
  }
}

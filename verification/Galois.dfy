/** Automorphisms X -> X^g of Z[X]/(X^n + 1) in the transform domain: the permutation the kernels apply, the
    Galois element of a rotation step, and the encoder's slot map on which a rotation is a cyclic shift. */
module Galois {
  import opened Congruence
  import opened Polynomials
  import opened Bits
  import opened WordArithmetic
  import opened FourStepStages
  import opened NttKernel
  import opened NttTheorems

  // ----- the permutation kernel

  /** Source index of output k: twice it, plus one, is g times the odd exponent of slot k. */
  function SourceIndex(n: nat, g: nat, k: nat): nat
    requires n > 0
  {
    IndexOfExponent(n, g, Rev(n + k, TrailingZeros(n) + 1))
  }

  function IndexOfExponent(n: nat, g: nat, e: nat): nat
    requires n > 0
  {
    Rev(HalfIndex(g * e, n), TrailingZeros(n))
  }

  function HalfIndex(p: int, n: nat): (r: nat)
    requires n > 0
    ensures r < n
  {
    (p / 2) % n
  }

  function GaloisPermuted(a: seq<int>, g: nat): seq<int>
  {
    seq(|a|, (k: nat) => if |a| == 0 then 0 else At(a, SourceIndex(|a|, g, k)))
  }

  method ApplyGaloisNttPermutation(operand: array<Word>, result: array<Word>, g: Word)
    requires operand != result && operand.Length == result.Length
    modifies result
    ensures result[..] == if IsPowerOfTwo(operand.Length) && g % 2 == 1 then GaloisPermuted(operand[..], g) else old(result[..])
  {
    var n := operand.Length;
    if n == 0 || !IsPowerOfTwo(n) || g % 2 == 0 {
      return;
    }
    var power := Log2(n);
    var k: nat := 0;
    while k < n
      invariant k <= n && operand[..] == old(operand[..])
      invariant forall j: nat :: j < k ==> result[j] == At(operand[..], SourceIndex(n, g, j))
    {
      var reversed := ReverseBits(n + k, power + 1);
      var indexRaw: nat := HalfIndex(g * reversed, n);
      var source := ReverseBits(indexRaw, power);
      result[k] := operand[source];
      k := k + 1;
    }
  }

  /** Exponent of psi at which slot k holds the value of the polynomial. */
  function Slot(n: nat, k: nat): (e: nat)
    ensures e % 2 == 1
  {
    2 * Rev(k, TrailingZeros(n)) + 1
  }

  /** Exponents modulo 2n; total, so that callers need no sign argument. */
  function Wrap(e: int, n: nat): (r: nat)
    requires n > 0
    ensures r < 2 * n
  {
    e % (2 * n)
  }

  /** The slot of exponent e takes the value of the slot of exponent g * e, both modulo 2n. */
  lemma SourceExponent(n: nat, g: nat, k: nat)
    requires IsPowerOfTwo(n) && g % 2 == 1 && k < n
    ensures SourceIndex(n, g, k) < n
    ensures Slot(n, SourceIndex(n, g, k)) == Wrap(g * Slot(n, k), n)
  {
    SourceForm(n, g, k);
    OddHalf(g, Slot(n, k), n);
    SlotOfReversed(n, HalfIndex(g * Slot(n, k), n));
  }

  lemma SourceForm(n: nat, g: nat, k: nat)
    requires IsPowerOfTwo(n) && k < n
    ensures SourceIndex(n, g, k) == IndexOfExponent(n, g, Slot(n, k))
  {
    TopReversed(n, k);
  }

  lemma TopReversed(n: nat, k: nat)
    requires IsPowerOfTwo(n) && k < n
    ensures Rev(n + k, TrailingZeros(n) + 1) == Slot(n, k)
  {
    RevTopBit(k, n, TrailingZeros(n));
  }

  lemma SlotOfReversed(n: nat, h: nat)
    requires IsPowerOfTwo(n) && h < n
    ensures Slot(n, Rev(h, TrailingZeros(n))) == 2 * h + 1
  {
    RevInvolution(h, TrailingZeros(n));
  }

  /** Halving an odd product modulo 2n. */
  lemma OddHalf(g: nat, e: nat, n: nat)
    requires n > 0 && g % 2 == 1 && e % 2 == 1
    ensures 2 * HalfIndex(g * e, n) + 1 == Wrap(g * e, n)
  {
    OddProduct(g, e);
    HalfOfOdd(g * e, n);
  }

  lemma HalfOfOdd(p: int, n: nat)
    requires n > 0 && p % 2 == 1
    ensures 2 * HalfIndex(p, n) + 1 == Wrap(p, n)
  {
    var h, k := p / 2, (p / 2) / n;
    assert h == n * k + HalfIndex(p, n);
    assert p == 2 * HalfIndex(p, n) + 1 + k * (2 * n);
    CongFrom(p, 2 * HalfIndex(p, n) + 1, k, 2 * n);
    SmallMod(2 * HalfIndex(p, n) + 1, 2 * n);
  }

  lemma OddTimes(a: nat, b: nat, e: nat)
    requires e == 2 * b + 1
    ensures (2 * a + 1) * e == 2 * (a * e + b) + 1
  {
  }

  lemma OddProduct(g: nat, e: nat)
    requires g % 2 == 1 && e % 2 == 1
    ensures (g * e) % 2 == 1
  {
    var a, b := g / 2, e / 2;
    OddTimes(a, b, e);
    OddForm(g * e, a * e + b);
  }

  // ----- the automorphism on coefficients

  /** Coefficient i lands at position g * i modulo 2n, with a sign in the upper half. */
  function Landing(a: seq<int>, g: nat, i: nat, k: nat): int
    requires |a| > 0
  {
    var e := Wrap(g * i, |a|);
    if e == k then At(a, i) else if e == k + |a| then -At(a, i) else 0
  }

  function LandingTerm(a: seq<int>, g: nat, k: nat): nat -> int
    requires |a| > 0
  {
    (i: nat) => Landing(a, g, i, k)
  }

  /** a(X^g) reduced modulo X^n + 1. */
  function Automorphism(a: seq<int>, g: nat): seq<int>
  {
    seq(|a|, (k: nat) => if |a| == 0 then 0 else Sum(LandingTerm(a, g, k), |a|))
  }

  function LandingCell(a: seq<int>, g: nat, x: int): (nat, nat) -> int
    requires |a| > 0
  {
    (k: nat, i: nat) => Landing(a, g, i, k) * Pow(x, k)
  }

  /** At a root of X^n + 1 the automorphism evaluates a at x^g. */
  lemma EvalAutomorphism(a: seq<int>, g: nat, x: int, q: int)
    requires q > 0 && |a| > 0 && Cong(Pow(x, |a|), -1, q)
    ensures Cong(Eval(Automorphism(a, g), x), Eval(a, Pow(x, g)), q)
  {
    var n := |a|;
    var c := Automorphism(a, g);
    var cell := LandingCell(a, g, x);
    forall k: nat | k < n
      ensures Term(c, x)(k) == FirstTotals(cell, n)(k)
    {
      LandingRow(a, g, x, k);
    }
    SumExt(Term(c, x), FirstTotals(cell, n), n);
    SumSwap(cell, n, n);
    forall i: nat | i < n
      ensures Cong(SecondTotals(cell, n)(i), Term(a, Pow(x, g))(i), q)
    {
      LandingColumn(a, g, x, i, q);
    }
    SumCong(SecondTotals(cell, n), Term(a, Pow(x, g)), n, q);
  }

  lemma LandingRow(a: seq<int>, g: nat, x: int, k: nat)
    requires |a| > 0 && k < |a|
    ensures Sum(LandingTerm(a, g, k), |a|) * Pow(x, k) == Sum(FixFirst(LandingCell(a, g, x), k), |a|)
  {
    var f := LandingTerm(a, g, k);
    SumScale(Pow(x, k), f, |a|);
    forall i: nat | i < |a|
      ensures Times(Pow(x, k), f)(i) == FixFirst(LandingCell(a, g, x), k)(i)
    {
      Commute(Pow(x, k), f(i));
    }
    SumExt(Times(Pow(x, k), f), FixFirst(LandingCell(a, g, x), k), |a|);
    Commute(Pow(x, k), Sum(f, |a|));
  }

  lemma LandingColumn(a: seq<int>, g: nat, x: int, i: nat, q: int)
    requires q > 0 && |a| > 0 && i < |a| && Cong(Pow(x, |a|), -1, q)
    ensures Cong(Sum(FixSecond(LandingCell(a, g, x), i), |a|), At(a, i) * Pow(Pow(x, g), i), q)
  {
    var n := |a|;
    var e := Wrap(g * i, n);
    var k := if e < n then e else e - n;
    SumSingle(FixSecond(LandingCell(a, g, x), i), n, k);
    LandedValue(a[i], x, e, n, q);
    MulNonNegative(g, i);
    PowMul(x, g, i);
    ReduceExponent(x, g * i, n, q);
    CongMul(a[i], a[i], Pow(x, e), Pow(x, g * i), q);
  }

  /** The sign in the upper half stands for the factor x^n. */
  lemma LandedValue(c: int, x: int, e: nat, n: nat, q: int)
    requires q > 0 && n > 0 && e < 2 * n && Cong(Pow(x, n), -1, q)
    ensures e >= n ==> Cong(-c * Pow(x, e - n), c * Pow(x, e), q)
  {
    if e >= n {
      var y := Pow(x, e - n);
      PowAdd(x, n, e - n);
      CongMul(Pow(x, n), -1, y, y, q);
      CongMul(c, c, Pow(x, e), -1 * y, q);
      assert c * (-1 * y) == -c * y;
    }
  }

  lemma DropPeriods(x: int, r: nat, s: nat, k: nat, q: int)
    requires q > 0 && Cong(Pow(x, s), 1, q)
    ensures s * k >= 0 && Cong(Pow(x, r + s * k), Pow(x, r), q)
  {
    MulNonNegative(s, k);
    PowAdd(x, r, s * k);
    PowMul(x, s, k);
    PowCong(Pow(x, s), 1, k, q);
    PowOne(k);
    CongMul(Pow(x, r), Pow(x, r), Pow(Pow(x, s), k), 1, q);
  }

  /** Exponents matter modulo 2n only. */
  lemma ReduceExponent(x: int, e: nat, n: nat, q: int)
    requires q > 0 && n > 0 && Cong(Pow(x, n), -1, q)
    ensures Cong(Pow(x, Wrap(e, n)), Pow(x, e), q)
  {
    var s: nat := 2 * n;
    DivisionParts(e, s);
    SquarePeriod(x, n, q);
    DropPeriods(x, e % s, s, e / s, q);
  }

  lemma DivisionParts(e: nat, s: nat)
    requires s > 0
    ensures 0 <= e % s < s && e / s >= 0 && e == e % s + s * (e / s)
  {
    var k := e / s;
    assert e == s * k + e % s;
  }

  /** Permuting the transform of a is transforming a(X^g) mod X^n + 1, for every odd g. */
  lemma GaloisIntertwines(a: seq<int>, g: nat, roots: NegacyclicRoots, m: int)
    requires g % 2 == 1 && TransformSpan(|a|) && RootsFor(roots, |a|, m)
    ensures GaloisPermuted(Forward(a, roots.psi, m), g) == Forward(Automorphism(a, g), roots.psi, m)
  {
    RootPeriod(roots, |a|, m);
    forall k: nat | k < |a|
      ensures GaloisPermuted(Forward(a, roots.psi, m), g)[k] == Forward(Automorphism(a, g), roots.psi, m)[k]
    {
      GaloisSlot(a, g, roots.psi, k, m);
    }
  }

  lemma GaloisSlot(a: seq<int>, g: nat, psi: int, k: nat, m: int)
    requires m > 0 && g % 2 == 1 && IsPowerOfTwo(|a|) && k < |a| && Cong(Pow(psi, |a|), -1, m)
    ensures At(Forward(a, psi, m), SourceIndex(|a|, g, k)) == PointValue(Automorphism(a, g), psi, Slot(|a|, k), m)
  {
    var n := |a|;
    var e := Slot(n, k);
    SourceExponent(n, g, k);
    OddRoot(psi, n, e, m);
    EvalAutomorphism(a, g, Pow(psi, e), m);
    PowerOfSlot(psi, e, g, n, m);
    SameValue(a, Automorphism(a, g), psi, SourceIndex(n, g, k), Slot(n, SourceIndex(n, g, k)), e, Pow(Pow(psi, e), g), m);
  }

  lemma SameValue(a: seq<int>, b: seq<int>, psi: int, s: nat, w: nat, e: nat, x: int, m: int)
    requires m > 0 && s < |a| && w == Slot(|a|, s)
    requires Cong(Pow(psi, w), x, m) && Cong(Eval(b, Pow(psi, e)), Eval(a, x), m)
    ensures At(Forward(a, psi, m), s) == PointValue(b, psi, e, m)
  {
    SelfCong(a, m);
    EvalCong(a, a, Pow(psi, w), x, m);
    assert At(Forward(a, psi, m), s) == PointValue(a, psi, w, m);
  }

  lemma PowerOfSlot(psi: int, e: nat, g: nat, n: nat, m: int)
    requires m > 0 && n > 0 && Cong(Pow(psi, n), -1, m)
    ensures Cong(Pow(psi, Wrap(g * e, n)), Pow(Pow(psi, e), g), m)
  {
    MulNonNegative(g, e);
    PowMul(psi, e, g);
    Commute(g, e);
    ReduceExponent(psi, g * e, n, m);
  }
}

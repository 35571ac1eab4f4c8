/** What the negacyclic transform is for: it inverts exactly, and it turns slotwise products into products
    modulo X^n + 1. */
module NttTheorems {
  import opened Congruence
  import opened Polynomials
  import opened Bits
  import opened WordArithmetic
  import opened FourStepStages
  import opened NttKernel

  /** The unreduced cyclic transform. */
  function Spectrum(b: seq<int>, w: int): seq<int>
  {
    seq(|b|, (k: nat) => Eval(b, Pow(w, k)))
  }

  /** Contribution of coefficient j to output i of the second transform, through entry k of the spectrum. */
  function Cell(b: seq<int>, w: int, v: int, i: nat): (nat, nat) -> int
  {
    (k: nat, j: nat) => At(b, j) * (Pow(Pow(w, k), j) * Pow(Pow(v, k), i))
  }

  /** A transform at w followed by one at the inverse of w multiplies by the length. */
  lemma CyclicInverts(b: seq<int>, w: int, v: int, i: nat, n: nat, q: int)
    requires q > 0 && n >= 1 && |b| == Pow2(n) && i < |b|
    requires Cong(Pow(w, Pow2(n - 1)), -1, q) && Cong(w * v, 1, q)
    ensures Cong(Eval(Spectrum(b, w), Pow(v, i)), Pow2(n) * b[i], q)
  {
    var size := Pow2(n);
    var cell := Cell(b, w, v, i);
    forall k: nat | k < size
      ensures Term(Spectrum(b, w), Pow(v, i))(k) == FirstTotals(cell, size)(k)
    {
      SpectrumTerm(b, w, v, i, k);
    }
    SumExt(Term(Spectrum(b, w), Pow(v, i)), FirstTotals(cell, size), size);
    SumSwap(cell, size, size);
    var picked := (j: nat) => if j == i then size * b[i] else 0;
    forall j: nat | j < size
      ensures Cong(SecondTotals(cell, size)(j), picked(j), q)
    {
      ColumnSum(b, w, v, i, j, n, q);
    }
    SumCong(SecondTotals(cell, size), picked, size, q);
    SumSingle(picked, size, i);
  }

  lemma SpectrumTerm(b: seq<int>, w: int, v: int, i: nat, k: nat)
    requires k < |b|
    ensures At(Spectrum(b, w), k) * Pow(Pow(v, i), k) == Sum(FixFirst(Cell(b, w, v, i), k), |b|)
  {
    var c := Pow(Pow(v, k), i);
    var f := Term(b, Pow(w, k));
    SwapPowers(v, i, k);
    SumScale(c, f, |b|);
    forall j: nat | j < |b|
      ensures Times(c, f)(j) == FixFirst(Cell(b, w, v, i), k)(j)
    {
      CellFactor(b, w, v, i, k, j);
    }
    SumExt(Times(c, f), FixFirst(Cell(b, w, v, i), k), |b|);
    Commute(c, Sum(f, |b|));
  }

  lemma Commute(a: int, b: int)
    ensures a * b == b * a
  {
  }

  lemma CellFactor(b: seq<int>, w: int, v: int, i: nat, k: nat, j: nat)
    ensures Pow(Pow(v, k), i) * Term(b, Pow(w, k))(j) == Cell(b, w, v, i)(k, j)
  {
    var p, c := Pow(Pow(w, k), j), Pow(Pow(v, k), i);
    Commute(c, At(b, j) * p);
    Associate(At(b, j), p, c);
  }

  lemma ColumnSum(b: seq<int>, w: int, v: int, i: nat, j: nat, n: nat, q: int)
    requires q > 0 && n >= 1 && |b| == Pow2(n) && i < |b| && j < |b|
    requires Cong(Pow(w, Pow2(n - 1)), -1, q) && Cong(w * v, 1, q)
    ensures Cong(Sum(FixSecond(Cell(b, w, v, i), j), Pow2(n)), if j == i then Pow2(n) * b[i] else 0, q)
  {
    var f := CrossPowers(w, v, j, i);
    SumScale(b[j], f, Pow2(n));
    SumExt(Times(b[j], f), FixSecond(Cell(b, w, v, i), j), Pow2(n));
    Orthogonality(w, v, j, i, n, q);
    CongMul(b[j], b[j], Sum(f, Pow2(n)), if j == i then Pow2(n) else 0, q);
    assert b[i] * Pow2(n) == Pow2(n) * b[i];
  }

  // ----- round trips

  /** A span that divides m - 1 is invertible modulo m. */
  lemma SpanInvertible(roots: NegacyclicRoots, span: nat, m: int)
    requires RootsFor(roots, span, m)
    ensures IsInverse(span, InverseOf(span, m), m) && InverseOf(span, m) != 0
    ensures Cong(InverseOf(span, m) * span, 1, m)
  {
    hide Pow;
    var u := SpanFactor(span, m);
    CongFrom(1, span * u, 1, m);
    SmallMod(1, m);
    assert IsInverse(span, u, m);
    assert span * 0 == 0;
    Commute(span, InverseOf(span, m));
  }

  /** Minus twice the quotient that the span leaves in m - 1. */
  lemma SpanFactor(span: nat, m: int) returns (u: int)
    requires span > 0 && m > 1 && (m - 1) % (2 * span) == 0
    ensures span * u == 1 - m
  {
    var t := (m - 1) / (2 * span);
    assert m - 1 == (2 * span) * t;
    u := -2 * t;
    assert (2 * span) * t == 2 * (span * t);
    assert span * u == -2 * (span * t);
  }

  /** The inverse transform, entry by entry, before reduction. */
  lemma BackwardEntry(y: seq<int>, roots: NegacyclicRoots, i: nat, m: int)
    requires TransformSpan(|y|) && RootsFor(roots, |y|, m) && i < |y|
    ensures Cong(Backward(y, roots.psiInv, roots.omegaInv, m)[i],
                 (InverseOf(|y|, m) * Eval(BitReversed(y), Pow(roots.omegaInv, i))) * Pow(roots.psiInv, i), m)
  {
    SpanInvertible(roots, |y|, m);
    var inv := InverseOf(|y|, m);
    var value := Eval(BitReversed(y), Pow(roots.omegaInv, i));
    var scaled := ((value % m) * inv) % m;
    CongMod(value, m);
    CongMod((value % m) * inv, m);
    CongMul(value % m, value, inv, inv, m);
    CongMul(scaled, value * inv, Pow(roots.psiInv, i), Pow(roots.psiInv, i), m);
    CongMod(scaled * Pow(roots.psiInv, i), m);
    Commute(value, inv);
    var cyclic := Cyclic(BitReversed(y), roots.omegaInv, m);
    assert cyclic[i] == value % m;
    assert Normalized(cyclic, m) == Scaled(cyclic, inv, m);
    assert Normalized(cyclic, m)[i] == scaled;
  }

  /** Undoing the bit reversal of a forward transform leaves the spectrum of the twisted input. */
  lemma ForwardSpectrum(a: seq<int>, roots: NegacyclicRoots, m: int)
    requires TransformSpan(|a|) && RootsFor(roots, |a|, m)
    ensures SeqCong(BitReversed(Forward(a, roots.psi, m)), Spectrum(Twist(a, roots.psi), roots.omega), m)
  {
    var bits := TrailingZeros(|a|);
    RootPeriod(roots, |a|, m);
    forall k: nat | k < |a|
      ensures Cong(BitReversed(Forward(a, roots.psi, m))[k], Spectrum(Twist(a, roots.psi), roots.omega)[k], m)
    {
      RevInvolution(k, bits);
      OddPoint(a, roots, k, m);
      assert BitReversed(Forward(a, roots.psi, m))[k] == Forward(a, roots.psi, m)[Rev(k, bits)]
          == PointValue(a, roots.psi, 2 * k + 1, m);
    }
  }

  lemma OddPoint(a: seq<int>, roots: NegacyclicRoots, k: nat, m: int)
    requires m > 0 && Cong(roots.omega, Pow(roots.psi, 2), m)
    ensures Cong(PointValue(a, roots.psi, 2 * k + 1, m), Eval(Twist(a, roots.psi), Pow(roots.omega, k)), m)
  {
    var b := Twist(a, roots.psi);
    EvalTwist(a, roots.psi, Pow(Pow(roots.psi, 2), k));
    PowMul(roots.psi, 2, k);
    PowCong(roots.omega, Pow(roots.psi, 2), k, m);
    SelfCong(b, m);
    EvalCong(b, b, Pow(roots.omega, k), Pow(Pow(roots.psi, 2), k), m);
    CongMod(Eval(a, Pow(roots.psi, 2 * k + 1)), m);
  }

  /** inv * (n * (a * p)) * r is a when inv * n and p * r are 1. */
  lemma CancelFactors(inv: int, n: int, a: int, p: int, r: int, m: int)
    requires m > 0 && Cong(inv * n, 1, m) && Cong(p * r, 1, m)
    ensures Cong((inv * (n * (a * p))) * r, a, m)
  {
    CongMul(a, a, p * r, 1, m);
    CongMul(inv * n, 1, a * (p * r), a, m);
    Regroup(inv, n, a, p, r);
  }

  lemma Regroup(inv: int, n: int, a: int, p: int, r: int)
    ensures (inv * (n * (a * p))) * r == (inv * n) * (a * (p * r))
  {
    var x := a * p;
    Associate(inv, n, x);
    Associate(inv * n, x, r);
    Associate(a, p, r);
  }

  /** The inverse transform undoes the forward transform. */
  lemma BackwardForward(a: seq<int>, roots: NegacyclicRoots, i: nat, m: int)
    requires TransformSpan(|a|) && RootsFor(roots, |a|, m) && i < |a|
    ensures Backward(Forward(a, roots.psi, m), roots.psiInv, roots.omegaInv, m)[i] == a[i] % m
  {
    var y := Forward(a, roots.psi, m);
    var b := Twist(a, roots.psi);
    var n := TrailingZeros(|a|);
    var inv := InverseOf(|a|, m);
    var back := Backward(y, roots.psiInv, roots.omegaInv, m);
    SpanInvertible(roots, |a|, m);
    RootPeriod(roots, |a|, m);
    BackwardEntry(y, roots, i, m);
    ForwardSpectrum(a, roots, m);
    EvalCong(BitReversed(y), Spectrum(b, roots.omega), Pow(roots.omegaInv, i), Pow(roots.omegaInv, i), m);
    CyclicInverts(b, roots.omega, roots.omegaInv, i, n, m);
    CongMul(inv, inv, Eval(BitReversed(y), Pow(roots.omegaInv, i)), |a| * b[i], m);
    var r := Pow(roots.psiInv, i);
    CongMul(inv * Eval(BitReversed(y), Pow(roots.omegaInv, i)), inv * (|a| * b[i]), r, r, m);
    SmallMod(1, m);
    InversePower(roots.psi, roots.psiInv, i, m);
    CancelFactors(inv, |a|, a[i], Pow(roots.psi, i), r, m);
    CongCanonical(back[i], a[i], m);
  }

  function Multiple(a: seq<int>, c: int): seq<int>
  {
    seq(|a|, (i: nat) => c * At(a, i))
  }

  lemma EvalMultiple(a: seq<int>, c: int, x: int)
    ensures Eval(Multiple(a, c), x) == c * Eval(a, x)
  {
    forall i: nat | i < |a|
      ensures Term(Multiple(a, c), x)(i) == Times(c, Term(a, x))(i)
    {
      Associate(c, At(a, i), Pow(x, i));
    }
    SumExt(Term(Multiple(a, c), x), Times(c, Term(a, x)), |a|);
    SumScale(c, Term(a, x), |a|);
  }

  /** Twisting the inverse transform again leaves the scaled inverse spectrum. */
  lemma TwistedBackward(y: seq<int>, roots: NegacyclicRoots, m: int)
    requires TransformSpan(|y|) && RootsFor(roots, |y|, m)
    ensures SeqCong(Twist(Backward(y, roots.psiInv, roots.omegaInv, m), roots.psi),
                    Multiple(Spectrum(BitReversed(y), roots.omegaInv), InverseOf(|y|, m)), m)
  {
    var x := Backward(y, roots.psiInv, roots.omegaInv, m);
    var spectrum := Spectrum(BitReversed(y), roots.omegaInv);
    var inv := InverseOf(|y|, m);
    forall i: nat | i < |y|
      ensures Cong(Twist(x, roots.psi)[i], Multiple(spectrum, inv)[i], m)
    {
      BackwardEntry(y, roots, i, m);
      var r, p := Pow(roots.psiInv, i), Pow(roots.psi, i);
      CongMul(x[i], (inv * spectrum[i]) * r, p, p, m);
      SmallMod(1, m);
      InversePower(roots.psi, roots.psiInv, i, m);
      CongMul(inv * spectrum[i], inv * spectrum[i], p * r, 1, m);
      Associate(inv * spectrum[i], r, p);
      Commute(r, p);
    }
  }

  /** The forward transform undoes the inverse transform. */
  lemma ForwardBackward(y: seq<int>, roots: NegacyclicRoots, j: nat, m: int)
    requires TransformSpan(|y|) && RootsFor(roots, |y|, m) && j < |y|
    ensures Forward(Backward(y, roots.psiInv, roots.omegaInv, m), roots.psi, m)[j] == y[j] % m
  {
    hide *;
    SpansPositive(roots, |y|, m);
    var k := Rev(j, TrailingZeros(|y|));
    var x := Backward(y, roots.psiInv, roots.omegaInv, m);
    var point := Pow(roots.omega, k);
    var spectrum := Multiple(Spectrum(BitReversed(y), roots.omegaInv), InverseOf(|y|, m));
    RootPeriod(roots, |y|, m);
    ReversedEntry(y, j, roots, m);
    ForwardEntry(x, roots.psi, m, j);
    OddPoint(x, roots, k, m);
    TwistedBackward(y, roots, m);
    EvalSame(Twist(x, roots.psi), spectrum, point, m);
    InverseSpectrumValue(y, roots, k, m);
    ThroughCong(PointValue(x, roots.psi, 2 * k + 1, m), Eval(Twist(x, roots.psi), point), Eval(spectrum, point), y[j], m);
    PointReduced(x, roots.psi, 2 * k + 1, m);
    CongCanonical(PointValue(x, roots.psi, 2 * k + 1, m), y[j], m);
  }

  lemma EvalSame(a: seq<int>, b: seq<int>, x: int, m: int)
    requires m > 0 && SeqCong(a, b, m)
    ensures Cong(Eval(a, x), Eval(b, x), m)
  {
    EvalCong(a, b, x, x, m);
  }

  lemma ThroughCong(a: int, b: int, c: int, d: int, m: int)
    requires m > 0 && Cong(a, b, m) && Cong(b, c, m) && Cong(c, d, m)
    ensures Cong(a, d, m)
  {
  }

  lemma PointReduced(a: seq<int>, w: int, k: nat, m: int)
    requires m > 0
    ensures 0 <= PointValue(a, w, k, m) < m
  {
    hide Eval, Pow;
  }

  /** The mirrored position, and what stands there after a bit reversal. */
  lemma ReversedEntry(y: seq<int>, j: nat, roots: NegacyclicRoots, m: int)
    requires TransformSpan(|y|) && j < |y| && m > 0
    ensures |Backward(y, roots.psiInv, roots.omegaInv, m)| == |y| == |BitReversed(y)|
    ensures Rev(j, TrailingZeros(|y|)) < |y| && BitReversed(y)[Rev(j, TrailingZeros(|y|))] == y[j]
  {
    RevInvolution(j, TrailingZeros(|y|));
    hide Pow, Eval;
  }

  /** Transforming the scaled inverse spectrum gives the values back. */
  lemma InverseSpectrumValue(y: seq<int>, roots: NegacyclicRoots, k: nat, m: int)
    requires TransformSpan(|y|) && RootsFor(roots, |y|, m) && k < |y|
    ensures Cong(Eval(Multiple(Spectrum(BitReversed(y), roots.omegaInv), InverseOf(|y|, m)), Pow(roots.omega, k)),
                 BitReversed(y)[k], m)
  {
    var b, inv, point := BitReversed(y), InverseOf(|y|, m), Pow(roots.omega, k);
    RootPeriod(roots, |y|, m);
    SpanInvertible(roots, |y|, m);
    EvalMultiple(Spectrum(b, roots.omegaInv), inv, point);
    Commute(roots.omega, roots.omegaInv);
    CyclicInverts(b, roots.omegaInv, roots.omega, k, TrailingZeros(|y|), m);
    CongMul(inv, inv, Eval(Spectrum(b, roots.omegaInv), point), |y| * b[k], m);
    CongMul(inv * |y|, 1, b[k], b[k], m);
    Associate(inv, |y|, b[k]);
  }

  // ----- products

  /** Coefficient of the product that arrives at position k from coefficient i, wrapped with a sign. */
  function Wrapped(b: seq<int>, i: nat, k: nat): int
  {
    if i <= k then At(b, k - i) else -At(b, |b| + k - i)
  }

  function ProductTerm(a: seq<int>, b: seq<int>, k: nat): nat -> int
  {
    (i: nat) => At(a, i) * Wrapped(b, i, k)
  }

  /** The product of two polynomials of equal length n modulo X^n + 1. */
  function NegacyclicProduct(a: seq<int>, b: seq<int>): seq<int>
  {
    seq(|a|, (k: nat) => Sum(ProductTerm(a, b, k), |a|))
  }

  function WrappedTerm(b: seq<int>, i: nat, x: int): nat -> int
  {
    (k: nat) => Wrapped(b, i, k) * Pow(x, k)
  }

  /** Multiplying by X^i shifts with wrap-around; at a point with x^n == -1 it multiplies the value by x^i. */
  lemma EvalWrapped(b: seq<int>, i: nat, x: int, q: int)
    requires q > 0 && i < |b| && Cong(Pow(x, |b|), -1, q)
    ensures Cong(Sum(WrappedTerm(b, i, x), |b|), Pow(x, i) * Eval(b, x), q)
  {
    hide *;
    var n := |b|;
    var f, g := WrappedTerm(b, i, x), Times(Pow(x, i), Term(b, x));
    SumSplit(f, i, n - i);
    SumSplit(g, n - i, i);
    forall k: nat | k < n - i
      ensures Shift(f, i)(k) == g(k)
    {
      UpperShift(b, i, x, k);
    }
    SumExt(Shift(f, i), g, n - i);
    forall k: nat | k < i
      ensures Cong(f(k), Shift(g, n - i)(k), q)
    {
      LowerShift(b, i, x, k, q);
    }
    SumCong(f, Shift(g, n - i), i, q);
    CongSame(Sum(g, n - i), q);
    CongAdd(Sum(f, i), Sum(Shift(g, n - i), i), Sum(g, n - i), Sum(g, n - i), q);
    ScaledEval(b, i, x);
  }

  lemma ScaledEval(b: seq<int>, i: nat, x: int)
    ensures Sum(Times(Pow(x, i), Term(b, x)), |b|) == Pow(x, i) * Eval(b, x)
  {
    hide Pow, Sum;
    SumScale(Pow(x, i), Term(b, x), |b|);
  }

  lemma CongSame(a: int, q: int)
    requires q > 0
    ensures Cong(a, a, q)
  {
  }

  lemma UpperShift(b: seq<int>, i: nat, x: int, k: nat)
    requires i < |b| && k < |b| - i
    ensures Shift(WrappedTerm(b, i, x), i)(k) == Times(Pow(x, i), Term(b, x))(k)
  {
    hide Pow;
    PowAdd(x, i, k);
    Rearrange(At(b, k), Pow(x, i), Pow(x, k));
  }

  lemma LowerShift(b: seq<int>, i: nat, x: int, k: nat, q: int)
    requires q > 0 && k < i < |b| && Cong(Pow(x, |b|), -1, q)
    ensures Cong(WrappedTerm(b, i, x)(k), Shift(Times(Pow(x, i), Term(b, x)), |b| - i)(k), q)
  {
    hide Pow, Cong;
    WrapSign(b, i, k, x, q);
  }

  lemma WrapSign(b: seq<int>, i: nat, k: nat, x: int, q: int)
    requires q > 0 && k < i < |b| && Cong(Pow(x, |b|), -1, q)
    ensures Cong(-At(b, |b| + k - i) * Pow(x, k), Pow(x, i) * (At(b, |b| - i + k) * Pow(x, |b| - i + k)), q)
  {
    var n := |b|;
    var c := b[n - i + k];
    PowAdd(x, i, n - i + k);
    PowAdd(x, n, k);
    CongMul(Pow(x, n), -1, Pow(x, k), Pow(x, k), q);
    CongMul(c, c, Pow(x, n + k), -Pow(x, k), q);
    Rearrange(Pow(x, i), c, Pow(x, n - i + k));
    assert c * -Pow(x, k) == -c * Pow(x, k);
  }

  function ProductCell(a: seq<int>, b: seq<int>, x: int): (nat, nat) -> int
  {
    (k: nat, i: nat) => At(a, i) * (Wrapped(b, i, k) * Pow(x, k))
  }

  /** The negacyclic product evaluates to the product of the values wherever x^n is -1. */
  lemma EvalProduct(a: seq<int>, b: seq<int>, x: int, q: int)
    requires q > 0 && |a| == |b| && Cong(Pow(x, |b|), -1, q)
    ensures Cong(Eval(NegacyclicProduct(a, b), x), Eval(a, x) * Eval(b, x), q)
  {
    var n := |a|;
    var c := NegacyclicProduct(a, b);
    var cell := ProductCell(a, b, x);
    forall k: nat | k < n
      ensures Term(c, x)(k) == FirstTotals(cell, n)(k)
    {
      ProductRow(a, b, x, k);
    }
    SumExt(Term(c, x), FirstTotals(cell, n), n);
    SumSwap(cell, n, n);
    var target := Times(Eval(b, x), Term(a, x));
    forall i: nat | i < n
      ensures Cong(SecondTotals(cell, n)(i), target(i), q)
    {
      ProductColumn(a, b, x, i, q);
    }
    SumCong(SecondTotals(cell, n), target, n, q);
    SumScale(Eval(b, x), Term(a, x), n);
    Commute(Eval(a, x), Eval(b, x));
  }

  lemma ProductRow(a: seq<int>, b: seq<int>, x: int, k: nat)
    requires |a| == |b| && k < |a|
    ensures Sum(ProductTerm(a, b, k), |a|) * Pow(x, k) == Sum(FixFirst(ProductCell(a, b, x), k), |a|)
  {
    var f := ProductTerm(a, b, k);
    SumScale(Pow(x, k), f, |a|);
    forall i: nat | i < |a|
      ensures Times(Pow(x, k), f)(i) == FixFirst(ProductCell(a, b, x), k)(i)
    {
      Commute(Pow(x, k), At(a, i) * Wrapped(b, i, k));
      Associate(At(a, i), Wrapped(b, i, k), Pow(x, k));
    }
    SumExt(Times(Pow(x, k), f), FixFirst(ProductCell(a, b, x), k), |a|);
    Commute(Pow(x, k), Sum(f, |a|));
  }

  lemma ProductColumn(a: seq<int>, b: seq<int>, x: int, i: nat, q: int)
    requires q > 0 && |a| == |b| && i < |a| && Cong(Pow(x, |b|), -1, q)
    ensures Cong(Sum(FixSecond(ProductCell(a, b, x), i), |a|), Eval(b, x) * (At(a, i) * Pow(x, i)), q)
  {
    var f := WrappedTerm(b, i, x);
    SumScale(a[i], f, |a|);
    SumExt(Times(a[i], f), FixSecond(ProductCell(a, b, x), i), |a|);
    EvalWrapped(b, i, x, q);
    CongMul(a[i], a[i], Sum(f, |a|), Pow(x, i) * Eval(b, x), q);
    Associate(a[i], Pow(x, i), Eval(b, x));
    Commute(a[i] * Pow(x, i), Eval(b, x));
  }

  /** The slotwise product of the multiplication module. */
  function SlotProduct(x: seq<int>, y: seq<int>, m: int): seq<int>
    requires m > 0
  {
    seq(|x|, (j: nat) => (At(x, j) * At(y, j)) % m)
  }

  /** The transform of a product modulo X^n + 1 is the slotwise product of the transforms. */
  lemma ForwardProduct(a: seq<int>, b: seq<int>, roots: NegacyclicRoots, m: int)
    requires |a| == |b| && TransformSpan(|a|) && RootsFor(roots, |a|, m)
    ensures Forward(NegacyclicProduct(a, b), roots.psi, m) == SlotProduct(Forward(a, roots.psi, m), Forward(b, roots.psi, m), m)
  {
    hide *;
    SpansPositive(roots, |a|, m);
    RootPeriod(roots, |a|, m);
    var p, fa, fb := NegacyclicProduct(a, b), Forward(a, roots.psi, m), Forward(b, roots.psi, m);
    ProductSize(a, b, roots.psi, m);
    forall j: nat | j < |a|
      ensures Forward(p, roots.psi, m)[j] == SlotProduct(fa, fb, m)[j]
    {
      var e := 2 * Rev(j, TrailingZeros(|a|)) + 1;
      ForwardEntry(p, roots.psi, m, j);
      ForwardEntry(a, roots.psi, m, j);
      ForwardEntry(b, roots.psi, m, j);
      ProductPoint(a, b, roots.psi, e, m);
      SlotEntry(fa, fb, m, j);
    }
  }

  lemma ForwardEntry(a: seq<int>, psi: int, m: int, j: nat)
    requires m > 0 && j < |a|
    ensures |Forward(a, psi, m)| == |a| && Forward(a, psi, m)[j] == PointValue(a, psi, 2 * Rev(j, TrailingZeros(|a|)) + 1, m)
  {
  }

  lemma SlotEntry(x: seq<int>, y: seq<int>, m: int, j: nat)
    requires m > 0 && j < |x| == |y|
    ensures |SlotProduct(x, y, m)| == |x| && SlotProduct(x, y, m)[j] == (x[j] * y[j]) % m
  {
  }

  lemma SpansPositive(roots: NegacyclicRoots, span: nat, m: int)
    requires TransformSpan(span) && RootsFor(roots, span, m)
    ensures m > 1 && span % 2 == 0
  {
  }

  lemma ProductSize(a: seq<int>, b: seq<int>, psi: int, m: int)
    requires |a| == |b| && m > 0
    ensures |NegacyclicProduct(a, b)| == |a| == |Forward(a, psi, m)| == |Forward(b, psi, m)| == |Forward(NegacyclicProduct(a, b), psi, m)|
    ensures |SlotProduct(Forward(a, psi, m), Forward(b, psi, m), m)| == |a|
  {
    hide PointValue;
  }

  lemma ProductPoint(a: seq<int>, b: seq<int>, psi: int, e: nat, m: int)
    requires m > 0 && |a| == |b| && Cong(Pow(psi, |a|), -1, m) && e % 2 == 1
    ensures PointValue(NegacyclicProduct(a, b), psi, e, m) == (PointValue(a, psi, e, m) * PointValue(b, psi, e, m)) % m
  {
    OddRoot(psi, |a|, e, m);
    EvalProduct(a, b, Pow(psi, e), m);
    var u, v := Eval(a, Pow(psi, e)), Eval(b, Pow(psi, e));
    CongMod(u, m);
    CongMod(v, m);
    CongMul(u % m, u, v % m, v, m);
  }

  /** Odd powers of psi are again roots of X^n + 1. */
  lemma OddRoot(psi: int, n: nat, e: nat, m: int)
    requires m > 0 && Cong(Pow(psi, n), -1, m) && e % 2 == 1
    ensures Cong(Pow(Pow(psi, e), n), -1, m)
  {
    SwapPowers(psi, e, n);
    PowMinusOne(Pow(psi, n), e, m);
  }

  /** Transform both operands, multiply slot by slot, transform back: the product modulo X^n + 1 and m. */
  lemma MultiplyByTransforms(a: seq<int>, b: seq<int>, roots: NegacyclicRoots, i: nat, m: int)
    requires |a| == |b| && TransformSpan(|a|) && RootsFor(roots, |a|, m) && i < |a|
    ensures Backward(SlotProduct(Forward(a, roots.psi, m), Forward(b, roots.psi, m), m), roots.psiInv, roots.omegaInv, m)[i]
         == NegacyclicProduct(a, b)[i] % m
  {
    ForwardProduct(a, b, roots, m);
    BackwardForward(NegacyclicProduct(a, b), roots, i, m);
  }
}

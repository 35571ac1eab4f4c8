/** How large the error of a key switch is. */
module KeySwitchSizes {
  import opened Congruence
  import opened Polynomials
  import opened WordArithmetic
  import opened NttTheorems
  import opened Rns
  import opened BaseConversion
  import opened Rescale
  import opened KeySwitch
  import opened KeySwitchLimbs

  predicate Within(x: int, bound: nat)
  {
    x <= bound && 0 <= x + bound
  }

  ghost predicate AllWithin(a: Poly, bound: nat)
  {
    forall c: nat :: c < |a| ==> Within(a[c], bound)
  }

  /** The most that a coefficient of a product of n terms can be. */
  function ProductMost(n: nat, a: nat, b: nat): nat
  {
    n * (a * b)
  }

  /** Coefficients of a negacyclic product. */
  lemma ProductBound(a: Poly, b: Poly, boundA: nat, boundB: nat)
    requires |a| == |b| && AllWithin(a, boundA) && AllWithin(b, boundB)
    ensures AllWithin(NegacyclicProduct(a, b), ProductMost(|a|, boundA, boundB))
  {
    forall c: nat | c < |a|
      ensures Within(NegacyclicProduct(a, b)[c], ProductMost(|a|, boundA, boundB))
    {
      hide *;
      ProductBoundAt(a, b, boundA, boundB, c);
    }
  }

  lemma ProductBoundAt(a: Poly, b: Poly, boundA: nat, boundB: nat, c: nat)
    requires |a| == |b| && c < |a| && AllWithin(a, boundA) && AllWithin(b, boundB)
    ensures |NegacyclicProduct(a, b)| == |a| && Within(NegacyclicProduct(a, b)[c], ProductMost(|a|, boundA, boundB))
  {
    var n, m := |a|, boundA * boundB;
    var f, low, high := ProductTerm(a, b, c), (i: nat) => -m, (i: nat) => m;
    forall i: nat | i < n
      ensures low(i) <= f(i) <= high(i)
    {
      assert Within(a[i], boundA);
      MulBound(a[i], Wrapped(b, i, c), boundA, boundB);
    }
    SumMonotone(low, f, n);
    SumMonotone(f, high, n);
    SumConst(-m, n);
    SumConst(m, n);
    assert -m * n == -(n * m) && m * n == n * m;
    assert NegacyclicProduct(a, b)[c] == Sum(f, n);
  }

  lemma MulBound(x: int, y: int, a: nat, b: nat)
    requires Within(x, a) && Within(y, b)
    ensures Within(x * y, a * b)
  {
    MulNonNegative(a - x, b + y);
    MulNonNegative(a + x, b - y);
    MulNonNegative(a - x, b - y);
    MulNonNegative(a + x, b + y);
    assert (a - x) * (b + y) == a * b + a * y - x * b - x * y;
    assert (a + x) * (b - y) == a * b - a * y + x * b - x * y;
    assert (a - x) * (b - y) == a * b - a * y - x * b + x * y;
    assert (a + x) * (b + y) == a * b + a * y + x * b + x * y;
  }

  /** The most a conversion from a base lifts to. */
  function LiftMost(b: RnsBase): int
  {
    b.Total() * Sum(LessOne(b), b.Size())
  }

  lemma LiftedWithin(w: Switch, d: nat, bound: nat)
    requires w.Valid() && d < |w.digits| && LiftMost(w.digits[d].base) <= bound
    ensures AllWithin(w.Lifted(d), bound)
  {
    DigitIn(w, d);
    hide Switch.Valid, Lift, Switch.DigitResidue;
    forall c: nat | c < w.p.n
      ensures Within(w.Lifted(d)[c], bound)
    {
      DigitReduced(w, d, c);
      LiftBounds(w.digits[d].base, w.DigitResidues(d, c));
    }
  }

  lemma DigitReduced(w: Switch, d: nat, c: nat)
    requires w.Valid() && d < |w.digits| && c < w.p.n
    ensures Reduced(w.DigitResidues(d, c), w.digits[d].base)
  {
    DigitIn(w, d);
    PValid(w);
    assert DigitFor(w.p, w.digits[d]);
    hide Switch.Valid, Params.Valid, KeyFor;
    forall k: nat | k < |w.digits[d].ids|
      ensures 0 <= w.DigitResidues(d, c)[k] < w.digits[d].base.primes[k]
    {
      LimbIn(w, w.digits[d].ids[k], 0);
      CoefficientsReduced(w.p, w.x[w.digits[d].ids[k]], w.digits[d].ids[k], c);
    }
  }

  lemma PartWithin(w: Switch, second: bool)
    requires w.Valid()
    ensures LiftMost(w.p.ext) >= 0 && AllWithin(w.Part(second), LiftMost(w.p.ext))
  {
    PValid(w);
    ExtValid(w.p);
    hide Switch.Valid, Params.Valid, Lift, Switch.ExtResidues;
    MostPositive(w.p.ext);
    forall c: nat | c < w.p.n
      ensures Within(w.Part(second)[c], LiftMost(w.p.ext))
    {
      ExtReduced(w, second, c);
      LiftBounds(w.p.ext, w.ExtResidues(second, c));
    }
  }

  lemma MostPositive(b: RnsBase)
    requires b.Valid()
    ensures LiftMost(b) >= 0
  {
    var zero := (k: nat) => 0;
    SumZero(zero, b.Size());
    SumMonotone(zero, LessOne(b), b.Size());
    BaseProductPositive(b.primes);
    MulNonNegative(b.Total(), Sum(LessOne(b), b.Size()));
  }

  lemma CombinedWithin(a: Poly, b: Poly, sign: int, boundA: nat, boundB: nat)
    requires |a| == |b| && AllWithin(a, boundA) && AllWithin(b, boundB) && (sign == 1 || sign == -1)
    ensures AllWithin(Combined(a, sign, b), boundA + boundB)
  {
    forall c: nat | c < |a|
      ensures Within(Combined(a, sign, b)[c], boundA + boundB)
    {
      assert Within(a[c], boundA) && Within(b[c], boundB);
    }
  }

  /** Digits that lift to at most `digit`, and noise below `noise`. */
  ghost predicate Sizes(w: Switch, digit: nat, noise: nat, key: nat)
  {
    && |w.es| == |w.digits| && AllWithin(w.s, key)
    && forall d: nat :: d < |w.digits| ==> LiftMost(w.digits[d].base) <= digit && AllWithin(w.es[d], noise)
  }

  function DigitError(n: nat, digit: nat, noise: nat, count: nat): nat
  {
    if count == 0 then 0 else DigitError(n, digit, noise, count - 1) + ProductMost(n, digit, noise)
  }

  lemma {:induction false} WeightedWithin(w: Switch, digit: nat, noise: nat, key: nat, count: nat)
    requires w.Valid() && Sizes(w, digit, noise, key) && count <= |w.digits|
    ensures AllWithin(w.WeightedNoise(count), DigitError(w.p.n, digit, noise, count))
  {
    hide *;
    if count == 0 {
      ZeroWithin(w, digit, noise);
    } else {
      var d := count - 1;
      WeightedWithin(w, digit, noise, key, d);
      WeightedIs(w, d);
      SizesAt(w, digit, noise, key, d);
      LiftedWithin(w, d, digit);
      ProductBound(w.Lifted(d), w.es[d], digit, noise);
      ProductLength(w.Lifted(d), w.es[d]);
      CombinedWithin(w.WeightedNoise(d), NegacyclicProduct(w.Lifted(d), w.es[d]), 1, DigitError(w.p.n, digit, noise, d),
                     ProductMost(w.p.n, digit, noise));
      OneMoreDigit(w.p.n, digit, noise, d);
    }
  }

  lemma OneMoreDigit(n: nat, digit: nat, noise: nat, d: nat)
    ensures DigitError(n, digit, noise, d + 1) == DigitError(n, digit, noise, d) + ProductMost(n, digit, noise)
  {
  }

  lemma ProductLength(a: Poly, b: Poly)
    ensures |NegacyclicProduct(a, b)| == |a|
  {
  }

  lemma SizesAt(w: Switch, digit: nat, noise: nat, key: nat, d: nat)
    requires Sizes(w, digit, noise, key) && d < |w.digits|
    ensures |w.es| == |w.digits| && AllWithin(w.s, key) && LiftMost(w.digits[d].base) <= digit && AllWithin(w.es[d], noise)
  {
    hide AllWithin, LiftMost;
  }

  lemma ZeroWithin(w: Switch, digit: nat, noise: nat)
    requires w.Valid()
    ensures AllWithin(w.WeightedNoise(0), DigitError(w.p.n, digit, noise, 0))
  {
    hide Switch.Valid;
    assert w.WeightedNoise(0) == Zeros(w.p.n);
  }

  /** How large the error is: P times it stays within the noise times the digits, plus the two converted parts. */
  lemma ErrorBound(w: Switch, digit: nat, noise: nat, key: nat, c: nat)
    requires w.Valid() && Disjoint(w.Sets()) && Sizes(w, digit, noise, key) && c < w.p.n
    ensures LiftMost(w.p.ext) >= 0
    ensures Within(w.p.ext.Total() * ErrorOf(w)[c],
                   DigitError(w.p.n, digit, noise, |w.digits|) + LiftMost(w.p.ext) + ProductMost(w.p.n, LiftMost(w.p.ext), key))
  {
    hide *;
    PartWithin(w, false);
    PartWithin(w, true);
    KeyWithin(w, digit, noise, key);
    WeightedWithin(w, digit, noise, key, |w.digits|);
    RemainderIs(w);
    var most: nat := LiftMost(w.p.ext);
    var all := DigitError(w.p.n, digit, noise, |w.digits|);
    ProductBound(w.Part(true), w.s, most, key);
    CombinedWithin(w.WeightedNoise(|w.digits|), w.Part(false), -1, all, most);
    CombinedLength(w.WeightedNoise(|w.digits|), -1, w.Part(false));
    CombinedWithin(Combined(w.WeightedNoise(|w.digits|), -1, w.Part(false)), NegacyclicProduct(w.Part(true), w.s), -1, all + most,
                   ProductMost(w.p.n, most, key));
    ErrorTimesP(w, c);
    WithinAt(w.Remainder(), all + most + ProductMost(w.p.n, most, key), c);
  }

  lemma KeyWithin(w: Switch, digit: nat, noise: nat, key: nat)
    requires Sizes(w, digit, noise, key)
    ensures AllWithin(w.s, key)
  {
  }

  lemma WithinAt(a: Poly, bound: nat, c: nat)
    requires AllWithin(a, bound) && c < |a|
    ensures Within(a[c], bound)
  {
  }
}

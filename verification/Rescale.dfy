/** Dividing moduli out of a limb in transform form: by one modulus held in a register, and by the product of the
    bases of a base conversion. */
module Rescale {
  import opened Congruence
  import opened Polynomials
  import opened WordArithmetic
  import opened NttKernel
  import opened Rns
  import opened BaseConversion

  // ----- the transform is linear

  function Combined(b: seq<int>, c: int, d: seq<int>): seq<int>
    requires |b| == |d|
  {
    seq(|b|, i requires 0 <= i < |b| => b[i] + c * d[i])
  }

  lemma EvalCombined(b: seq<int>, c: int, d: seq<int>, x: int)
    requires |b| == |d|
    ensures Eval(Combined(b, c, d), x) == Eval(b, x) + c * Eval(d, x)
  {
    forall i: nat | i < |b|
      ensures Term(Combined(b, c, d), x)(i) == Plus(Term(b, x), Times(c, Term(d, x)))(i)
    {
      CombineTerm(b[i], c, d[i], Pow(x, i));
    }
    SumExt(Term(Combined(b, c, d), x), Plus(Term(b, x), Times(c, Term(d, x))), |b|);
    SumAdd(Term(b, x), Times(c, Term(d, x)), |b|);
    SumScale(c, Term(d, x), |b|);
  }

  lemma CombineTerm(b: int, c: int, d: int, x: int)
    ensures (b + c * d) * x == b * x + c * (d * x)
  {
  }

  lemma ForwardLinear(xs: seq<int>, rs: seq<int>, d: int, ys: seq<int>, psi: int, q: int, j: nat)
    requires q > 0 && |xs| == |rs| == |ys| && j < |xs| && SeqCong(xs, Combined(rs, d, ys), q)
    ensures Cong(Forward(xs, psi, q)[j], Forward(rs, psi, q)[j] + d * Forward(ys, psi, q)[j], q)
  {
    var x := Pow(psi, 2 * Bits.Rev(j, Bits.TrailingZeros(|xs|)) + 1);
    var er, ey := Eval(rs, x), Eval(ys, x);
    EvalCong(xs, Combined(rs, d, ys), x, x, q);
    EvalCombined(rs, d, ys, x);
    hide Eval, Pow;
    CongMod(Eval(xs, x), q);
    CongMod(er, q);
    CongMod(ey, q);
    CongMul(d, d, ey % q, ey, q);
    CongAdd(er % q, er, d * (ey % q), d * ey, q);
  }

  // ----- dividing

  /** Slot by slot: subtract, then multiply by the inverse of the divisor. */
  function DividedSlot(x: int, r: int, inverse: int, q: int): (s: int)
    requires q > 0
    ensures 0 <= s < q
  {
    (((x - r) % q) * inverse) % q
  }

  lemma DividedSlotRight(x: int, r: int, d: int, y: int, inverse: int, q: int)
    requires q > 1 && Cong(x, r + d * y, q) && IsInverse(d, inverse, q) && 0 <= y < q
    ensures DividedSlot(x, r, inverse, q) == y
  {
    CongMod(x - r, q);
    CongSub(x, r + d * y, r, r, q);
    CongMul((x - r) % q, d * y, inverse, inverse, q);
    SmallMod(1, q);
    CongMul(y, y, d * inverse, 1, q);
    Regroup(d, y, inverse);
    SmallMod(y, q);
  }

  lemma Regroup(d: int, y: int, inverse: int)
    ensures (d * y) * inverse == y * (d * inverse)
  {
  }

  /** When xs == rs + d * ys modulo q, subtracting the transform of rs and dividing by d leaves that of ys. */
  lemma DividesOut(xs: seq<int>, rs: seq<int>, d: int, ys: seq<int>, inverse: int, psi: int, q: int, j: nat)
    requires q > 1 && |xs| == |rs| == |ys| && j < |xs| && SeqCong(xs, Combined(rs, d, ys), q) && IsInverse(d, inverse, q)
    ensures DividedSlot(Forward(xs, psi, q)[j], Forward(rs, psi, q)[j], inverse, q) == Forward(ys, psi, q)[j]
  {
    ForwardLinear(xs, rs, d, ys, psi, q, j);
    ForwardReduced(ys, psi, q, j);
    DividedSlotRight(Forward(xs, psi, q)[j], Forward(rs, psi, q)[j], d, Forward(ys, psi, q)[j], inverse, q);
  }

  lemma ForwardReduced(ys: seq<int>, psi: int, q: int, j: nat)
    requires q > 0 && j < |ys|
    ensures 0 <= Forward(ys, psi, q)[j] < q
  {
  }

  datatype Outcome = Done(limb: seq<int>) | InverseFailed

  function Quotients(xs: seq<int>, d: int): seq<int>
    requires d > 0
  {
    seq(|xs|, i requires 0 <= i < |xs| => xs[i] / d)
  }

  /** A residue below the divisor, brought below the target modulus by at most one subtraction. */
  function OneSubtraction(r: int, q: int): int
  {
    if r >= q then r - q else r
  }

  /** One subtraction suffices for every residue exactly when the divisor is at most twice the target modulus. */
  lemma OneSubtractionSuffices(q: nat, d: nat)
    requires q > 0 && d > 0
    ensures (forall r: nat :: r < d ==> OneSubtraction(r, q) < q) <==> d <= 2 * q
  {
    if d > 2 * q {
      var r: nat := 2 * q;
      assert OneSubtraction(r, q) >= q;
    }
  }

  lemma OneSubtractionCong(r: int, q: int)
    requires q > 0
    ensures Cong(OneSubtraction(r, q), r, q)
  {
    if r >= q {
      CongFrom(r - q, r, -1, q);
    }
  }

  /** The loop over slots. */
  method DivideSlots(xs: seq<int>, rs: seq<int>, inverse: int, q: Word) returns (limb: seq<int>)
    requires q > 0 && |xs| == |rs|
    ensures |limb| == |xs| && forall j :: 0 <= j < |xs| ==> limb[j] == DividedSlot(xs[j], rs[j], inverse, q)
  {
    limb := [];
    for j := 0 to |xs|
      invariant |limb| == j && forall k :: 0 <= k < j ==> limb[k] == DividedSlot(xs[k], rs[k], inverse, q)
    {
      var x := (xs[j] - rs[j]) % q;
      limb := limb + [(x * inverse) % q];
    }
  }

  lemma LimbDividesOut(xs: seq<int>, rs: seq<int>, d: int, ys: seq<int>, inverse: int, psi: int, q: int, limb: seq<int>)
    requires q > 1 && |xs| == |rs| == |ys| == |limb| && SeqCong(xs, Combined(rs, d, ys), q) && IsInverse(d, inverse, q)
    requires forall j :: 0 <= j < |xs| ==>
      limb[j] == DividedSlot(Forward(xs, psi, q)[j], Forward(rs, psi, q)[j], inverse, q)
    ensures limb == Forward(ys, psi, q)
  {
    forall j | 0 <= j < |xs|
      ensures limb[j] == Forward(ys, psi, q)[j]
    {
      DividesOut(xs, rs, d, ys, inverse, psi, q, j);
    }
  }

  /** Divides by the modulus d of the second operand, given in coefficient form: the limb of xs becomes that of the
      rounded-down quotients. */
  method DivideByModulus(operand1: seq<int>, operand2: seq<int>, q: Word, d: Word, psi: int, ghost xs: seq<int>)
      returns (result: Outcome)
    requires 1 < q < HALF_WORD && d > 0 && |operand1| == |operand2| == |xs|
    requires operand1 == Forward(xs, psi, q)
    requires forall i :: 0 <= i < |xs| ==> operand2[i] == xs[i] % d
    ensures result.InverseFailed? <==> !exists x :: IsInverse(d, x, q)
    ensures result.Done? ==> result.limb == Forward(Quotients(xs, d), psi, q)
  {
    var inverse := ModInv(d, q);
    if inverse == 0 {
      return InverseFailed;
    }
    var temp: seq<int> := [];
    for i := 0 to |operand2|
      invariant |temp| == i && forall k :: 0 <= k < i ==> temp[k] == OneSubtraction(operand2[k], q)
    {
      temp := temp + [if operand2[i] >= q then operand2[i] - q else operand2[i]];
    }
    QuotientsCombine(xs, temp, d, q);
    var limb := DivideSlots(operand1, Forward(temp, psi, q), inverse, q);
    LimbDividesOut(xs, temp, d, Quotients(xs, d), inverse, psi, q, limb);
    return Done(limb);
  }

  lemma QuotientsCombine(xs: seq<int>, temp: seq<int>, d: int, q: int)
    requires d > 0 && q > 0 && |temp| == |xs|
    requires forall i :: 0 <= i < |xs| ==> temp[i] == OneSubtraction(xs[i] % d, q)
    ensures SeqCong(xs, Combined(temp, d, Quotients(xs, d)), q)
  {
    hide OneSubtraction, Cong;
    forall i | 0 <= i < |xs|
      ensures Cong(xs[i], Combined(temp, d, Quotients(xs, d))[i], q)
    {
      QuotientCombines(xs[i], temp[i], d, q);
    }
  }

  lemma QuotientCombines(x: int, t: int, d: int, q: int)
    requires d > 0 && q > 0 && t == OneSubtraction(x % d, q)
    ensures Cong(x, t + d * (x / d), q)
  {
    OneSubtractionCong(x % d, q);
    var r, whole := x % d, d * (x / d);
    assert x == r + whole;
    CongAdd(t, r, whole, whole, q);
  }

  // ----- dividing by the bases of a conversion

  function ResiduesOf(x: int, b: RnsBase): seq<int>
    requires b.Valid()
  {
    seq(b.Size(), k requires 0 <= k < b.Size() => x % b.primes[k])
  }

  /** The residues of x resolve to x modulo the product. */
  lemma RemainderResolves(x: int, b: RnsBase)
    requires b.Valid()
    ensures b.Total() > 0 && Reduced(ResiduesOf(x, b), b) && Resolved(x % b.Total(), ResiduesOf(x, b), b)
  {
    BaseProductPositive(b.primes);
    var r, residues := x % b.Total(), ResiduesOf(x, b);
    forall k: nat | k < b.Size()
      ensures Cong(r, residues[k], b.primes[k])
    {
      CongMod(x, b.Total());
      PuncturedCompletes(b, k);
      ThroughFactor(r, x, b.Punctured(k), b.primes[k], b.Total());
      CongMod(x, b.primes[k]);
    }
    forall y | 0 <= y < b.Total() && Represents(y, residues, b)
      ensures y == r
    {
      ResiduesDetermine(y, r, residues, b);
      SmallMod(y, b.Total());
      SmallMod(r, b.Total());
    }
  }

  lemma ThroughFactor(x: int, y: int, p: int, q: int, total: int)
    requires q > 0 && total > 0 && total == p * q && Cong(x, y, total)
    ensures Cong(x, y, q)
  {
    var k := CongQuotient(x, y, total);
    Associate(k, p, q);
    CongFrom(x, y, k * p, q);
  }

  function Less(xs: seq<int>, us: seq<int>): seq<int>
    requires |xs| == |us|
  {
    seq(|xs|, i requires 0 <= i < |xs| => xs[i] - us[i])
  }

  /** Subtracts the transform of `converted` and multiplies by the inverse of the product P of the bases. */
  method SubtractAndDivide(operand1: seq<int>, converted: seq<int>, q: Word, b: RnsBase, psi: int)
      returns (result: Outcome, ghost inverse: int)
    requires 1 < q < HALF_WORD && b.Valid() && |operand1| == |converted|
    ensures result.InverseFailed? <==> !exists x :: IsInverse(b.Total() % q, x, q)
    ensures result.Done? ==> |result.limb| == |operand1| && IsInverse(b.Total(), inverse, q)
    ensures result.Done? ==> forall j :: 0 <= j < |operand1| ==>
      result.limb[j] == DividedSlot(operand1[j], Forward(converted, psi, q)[j], inverse, q)
  {
    BaseProductPositive(b.primes);
    var found := ModInv(b.Total() % q, q);
    inverse := found;
    if found == 0 {
      return InverseFailed, inverse;
    }
    ProductInverse(b.Total(), found, q);
    hide *;
    ForwardLength(converted, psi, q);
    var limb := DivideSlots(operand1, Forward(converted, psi, q), found, q);
    return Done(limb), inverse;
  }

  lemma ForwardLength(xs: seq<int>, psi: int, q: int)
    requires q > 0
    ensures |Forward(xs, psi, q)| == |xs|
  {
  }

  /** Divides by the product P of the bases of a conversion whose output limb is `converted`: the limb of xs becomes
      that of floor(x / P) - u, with u the multiple the conversion left. */
  method DivideByBases(operand1: seq<int>, converted: seq<int>, q: Word, b: RnsBase, psi: int, ghost xs: seq<int>)
      returns (result: Outcome, ghost us: seq<int>)
    requires 1 < q < HALF_WORD && b.Valid() && |operand1| == |converted| == |xs|
    requires operand1 == Forward(xs, psi, q)
    requires forall i :: 0 <= i < |xs| ==> converted[i] == Target(b, ResiduesOf(xs[i], b), q)
    ensures result.InverseFailed? <==> !exists x :: IsInverse(b.Total() % q, x, q)
    ensures |us| == |xs| && forall i :: 0 <= i < |xs| ==> 0 <= us[i] <= Sum(LessOne(b), b.Size())
    ensures b.Size() == 1 ==> forall i :: 0 <= i < |xs| ==> us[i] == 0
    ensures b.Total() > 0
    ensures result.Done? ==> result.limb == Forward(Less(Quotients(xs, b.Total()), us), psi, q)
  {
    us := Overshoots(xs, converted, b, q);
    BaseProductPositive(b.primes);
    OvershootsCombine(xs, converted, us, b, q);
    hide *;
    ghost var inverse;
    result, inverse := SubtractAndDivide(operand1, converted, q, b, psi);
    if result.Done? {
      LimbDividesOut(xs, converted, b.Total(), Less(Quotients(xs, b.Total()), us), inverse, psi, q, result.limb);
    }
  }

  lemma OvershootsCombine(xs: seq<int>, converted: seq<int>, us: seq<int>, b: RnsBase, q: int)
    requires q > 0 && b.Valid() && |converted| == |xs| == |us|
    requires forall i :: 0 <= i < |xs| ==> Overshoot(xs[i], converted[i], us[i], b, q)
    ensures b.Total() > 0 && SeqCong(xs, Combined(converted, b.Total(), Less(Quotients(xs, b.Total()), us)), q)
    ensures forall i :: 0 <= i < |xs| ==> 0 <= us[i] <= Sum(LessOne(b), b.Size())
    ensures b.Size() == 1 ==> forall i :: 0 <= i < |xs| ==> us[i] == 0
  {
    BaseProductPositive(b.primes);
    hide LessOne, Cong, RnsBase.Total, RnsBase.Valid;
    forall i | 0 <= i < |xs|
      ensures Cong(xs[i], Combined(converted, b.Total(), Less(Quotients(xs, b.Total()), us))[i], q)
    {
      assert Overshoot(xs[i], converted[i], us[i], b, q);
    }
  }

  lemma ProductInverse(total: int, inverse: int, q: int)
    requires q > 1 && IsInverse(total % q, inverse, q)
    ensures IsInverse(total, inverse, q)
  {
    CongMod(total, q);
    CongMul(total % q, total, inverse, inverse, q);
  }

  /** What a conversion leaves of x: c is the residue of (x mod P) + u * P. */
  ghost predicate Overshoot(x: int, c: int, u: int, b: RnsBase, q: int)
    requires q > 0 && b.Valid()
  {
    && 0 <= u <= Sum(LessOne(b), b.Size()) && (b.Size() == 1 ==> u == 0)
    && b.Total() > 0 && Cong(x, c + b.Total() * (x / b.Total() - u), q)
  }

  /** The multiples left by the conversion, coefficient by coefficient. */
  lemma Overshoots(xs: seq<int>, converted: seq<int>, b: RnsBase, q: int) returns (us: seq<int>)
    requires q > 0 && b.Valid() && |converted| == |xs|
    requires forall i :: 0 <= i < |xs| ==> converted[i] == Target(b, ResiduesOf(xs[i], b), q)
    ensures |us| == |xs| && forall i :: 0 <= i < |xs| ==> Overshoot(xs[i], converted[i], us[i], b, q)
  {
    hide Overshoot, Target;
    us := [];
    for i := 0 to |xs|
      invariant |us| == i
      invariant forall k :: 0 <= k < i ==> Overshoot(xs[k], converted[k], us[k], b, q)
    {
      var u := OvershootOf(xs[i], converted[i], b, q);
      us := us + [u];
    }
  }

  lemma OvershootOf(x: int, c: int, b: RnsBase, q: int) returns (u: nat)
    requires q > 0 && b.Valid() && c == Target(b, ResiduesOf(x, b), q)
    ensures Overshoot(x, c, u, b, q)
  {
    RemainderResolves(x, b);
    hide *;
    var v: int;
    u, v := ConversionValue(b, ResiduesOf(x, b), x % b.Total());
    OvershootFrom(x, c, u, b, q, v);
  }

  lemma OvershootFrom(x: int, c: int, u: nat, b: RnsBase, q: int, v: int)
    requires q > 0 && b.Valid() && b.Total() > 0 && v == x % b.Total() + u * b.Total()
    requires TargetOf(b, ResiduesOf(x, b), q, v) && c == Target(b, ResiduesOf(x, b), q)
    requires u <= Sum(LessOne(b), b.Size()) && (b.Size() == 1 ==> u == 0)
    ensures Overshoot(x, c, u, b, q)
  {
    assert c == v % q;
    OvershootRight(x, u, b.Total(), v, c, q);
    hide Target, Sum, LessOne, RnsBase.Total;
  }

  lemma OvershootRight(x: int, u: int, total: int, v: int, c: int, q: int)
    requires q > 0 && total > 0 && v == x % total + u * total && c == v % q
    ensures Cong(x, c + total * (x / total - u), q)
  {
    var whole := total * (x / total - u);
    assert x == v + whole;
    CongMod(v, q);
    CongAdd(c, v, whole, whole, q);
  }
}

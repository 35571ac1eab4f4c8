/** What the subtract-and-divide instruction divides by, and that on the output of a conversion unit it divides the
    product of the source moduli out of the limb. */
module SudDivision {
  import opened Congruence
  import opened Polynomials
  import opened WordArithmetic
  import opened NttKernel
  import opened Rns
  import opened BaseConversion
  import opened Rescale
  import HM = HandleMachine

  function SourceModuli(c: HM.Config, sources: seq<nat>): (moduli: seq<nat>)
    ensures |moduli| == |sources|
  {
    seq(|sources|, k requires 0 <= k < |sources| => c.Modulus(sources[k]))
  }

  ghost predicate AllKnown(c: HM.Config, sources: seq<nat>)
  {
    forall k: nat :: k < |sources| ==> c.Modulus(sources[k]) > 0
  }

  /** The running product is that of the source moduli, and is missing exactly when a modulus is. */
  lemma {:induction false} DivisorIsProduct(c: HM.Config, sources: seq<nat>, q: Word, acc: Word)
    requires q > 0
    ensures HM.Divisor(c, sources, q, acc).Some? <==> AllKnown(c, sources)
    ensures AllKnown(c, sources) ==> Cong(HM.Divisor(c, sources, q, acc).value, acc * BaseProduct(SourceModuli(c, sources)), q)
    ensures AllKnown(c, sources) && acc < q ==> HM.Divisor(c, sources, q, acc).value < q
    decreases |sources|
  {
    if |sources| > 0 {
      var m := c.Modulus(sources[0]);
      if m == 0 {
        assert !AllKnown(c, sources);
      } else {
        var next, rest := ModMul(acc, m % q, q), sources[1..];
        DivisorIsProduct(c, rest, q, next);
        KnownRest(c, sources);
        ProductStep(acc, m, next, q);
        FirstModulus(c, sources);
        if AllKnown(c, sources) {
          CongMul(next, acc * m, BaseProduct(SourceModuli(c, rest)), BaseProduct(SourceModuli(c, rest)), q);
          Associate(acc, m, BaseProduct(SourceModuli(c, rest)));
        }
      }
    }
  }

  lemma KnownRest(c: HM.Config, sources: seq<nat>)
    requires |sources| > 0 && c.Modulus(sources[0]) > 0
    ensures AllKnown(c, sources) <==> AllKnown(c, sources[1..])
  {
    if AllKnown(c, sources[1..]) {
      forall k: nat | k < |sources|
        ensures c.Modulus(sources[k]) > 0
      {
        if k > 0 {
          assert sources[1..][k - 1] == sources[k];
        }
      }
    }
  }

  lemma ProductStep(acc: Word, m: Word, next: Word, q: Word)
    requires q > 0 && next == ModMul(acc, m % q, q)
    ensures Cong(next, acc * m, q) && next < q
  {
    ModMulCorrect(acc, m % q, q);
    CongMod(m, q);
    CongMul(acc, acc, m % q, m, q);
    CongMod(acc * (m % q), q);
  }

  lemma FirstModulus(c: HM.Config, sources: seq<nat>)
    requires |sources| > 0
    ensures BaseProduct(SourceModuli(c, sources)) == c.Modulus(sources[0]) * BaseProduct(SourceModuli(c, sources[1..]))
  {
    var first: seq<nat> := [c.Modulus(sources[0])];
    assert SourceModuli(c, sources) == first + SourceModuli(c, sources[1..]);
    BaseProductAppend(first, SourceModuli(c, sources[1..]));
    assert first[..0] == [];
  }

  /** Sources of the conversion whose output the instruction subtracts, if it is configured. */
  function SudSources(c: HM.Config, active: seq<nat>, i: HM.Inst): HM.Option<seq<nat>>
  {
    var unit := HM.BcuOutputUnit(i.src1);
    if !c.extraValid || unit >= HM.MAX_UNITS || unit >= c.units || HM.ActiveCrc(active, unit) == 0 then HM.None
    else
      var e := c.UnitEntryFrom(HM.ActiveCrc(active, unit), unit, 0);
      if e == |c.entries| || |c.entries[e].sources| == 0 then HM.None else HM.Some(c.entries[e].sources)
  }

  /** On a conversion output the instruction divides by the product of the source moduli, and it is refused exactly when
      the conversion is not configured or a source modulus is unknown. On a register it divides by the limb's own modulus,
      that is by 0. */
  lemma SudDivides(c: HM.Config, active: seq<nat>, i: HM.Inst, q: Word)
    requires q > 1
    ensures var d := HM.SudDivisor(c, active, i, q);
      && (HM.IsBcuOutput(i.src1) ==> (d.Got? <==> SudSources(c, active, i).Some? && AllKnown(c, SudSources(c, active, i).value)))
      && (HM.IsBcuOutput(i.src1) && d.Got? ==> d.value == BaseProduct(SourceModuli(c, SudSources(c, active, i).value)) % q)
      && (!HM.IsBcuOutput(i.src1) && c.Modulus(i.rns) == q ==> d == HM.Got(0))
  {
    if HM.IsBcuOutput(i.src1) {
      var sources := SudSources(c, active, i);
      if sources.Some? {
        DivisorIsProduct(c, sources.value, q, 1);
        if AllKnown(c, sources.value) {
          CongCanonical(HM.Divisor(c, sources.value, q, 1).value, 1 * BaseProduct(SourceModuli(c, sources.value)), q);
        }
      }
    }
  }

  // ----- what the subtraction and multiplication compute

  lemma SudSlotIs(a: int, r: int, inverse: Word, q: Word)
    requires q > 1
    ensures ModMul(ModSub(a % q, r % q, q), inverse, q) == DividedSlot(a, r, inverse, q)
  {
    ModSubCorrect(a % q, r % q, q);
    CongMod(a, q);
    CongMod(r, q);
    CongSub(a % q, a, r % q, r, q);
    ModMulCorrect((a - r) % q, inverse, q);
  }

  /** The instruction on the limb of xs and the converted residues of xs: the limb of floor(x / P) - u, with P the product
      of the source moduli and u what the conversion exceeds. */
  lemma SudSlotsDivide(b: RnsBase, xs: seq<int>, converted: HM.Poly, inverse: Word, psi: Word, q: Word) returns (us: seq<int>)
    requires 1 < q < HALF_WORD && b.Valid() && |converted.coeffs| == |xs| && IsInverse(b.Total() % q, inverse, q)
    requires !converted.ntt && forall k: nat :: k < |xs| ==> converted.coeffs[k] == Target(b, ResiduesOf(xs[k], b), q)
    ensures b.Total() > 0 && |us| == |xs| && forall k: nat :: k < |xs| ==> 0 <= us[k] <= Sum(LessOne(b), b.Size())
    ensures b.Size() == 1 ==> forall k: nat :: k < |xs| ==> us[k] == 0
    ensures |Forward(xs, psi, q)| == |xs|
    ensures HM.SudSlots(Forward(xs, psi, q), converted, inverse, psi, q) == Forward(Less(Quotients(xs, b.Total()), us), psi, q)
  {
    us := Overshoots(xs, converted.coeffs, b, q);
    OvershootsCombine(xs, converted.coeffs, us, b, q);
    ProductInverse(b.Total(), inverse, q);
    ForwardLength(xs, psi, q);
    ForwardLength(converted.coeffs, psi, q);
    ReducedAlready(converted.coeffs, b, xs, q);
    hide RnsBase.Valid, RnsBase.Total, Sum, LessOne, Forward, Overshoot, SeqCong, IsInverse;
    var slots := HM.SudSlots(Forward(xs, psi, q), converted, inverse, psi, q);
    forall j: nat | j < |xs|
      ensures slots[j] == DividedSlot(Forward(xs, psi, q)[j], Forward(converted.coeffs, psi, q)[j], inverse, q)
    {
      SudSlotIs(Forward(xs, psi, q)[j], Forward(converted.coeffs, psi, q)[j], inverse, q);
    }
    LimbDividesOut(xs, converted.coeffs, b.Total(), Less(Quotients(xs, b.Total()), us), inverse, psi, q, slots);
  }

  lemma ReducedAlready(a: seq<int>, b: RnsBase, xs: seq<int>, q: Word)
    requires q > 0 && b.Valid() && |a| == |xs| && forall k: nat :: k < |xs| ==> a[k] == Target(b, ResiduesOf(xs[k], b), q)
    ensures HM.Reduced(a, q) == a
  {
    hide Target;
    forall k: nat | k < |a|
      ensures HM.Reduced(a, q)[k] == a[k]
    {
      SmallMod(a[k], q);
    }
  }

  /** The instruction as the machine runs it: with the limb of xs first and the output of a configured conversion second,
      it puts the limb of floor(x / P) - u in the result, P being the product of the source moduli. */
  lemma SudComputes(c: HM.Config, active: seq<nat>, i: HM.Inst, o: HM.Operands<HM.Poly>, b: RnsBase, xs: seq<int>)
      returns (us: seq<int>)
    requires c.n <= HM.MAX_COEFF && i.op == HM.Sud && HM.IsBcuOutput(i.src1) && 1 < o.q < HALF_WORD && o.q == c.Modulus(i.rns)
    requires SudSources(c, active, i).Some? && b.Valid() && b.primes == SourceModuli(c, SudSources(c, active, i).value)
    requires o.first.coeffs == Forward(xs, c.Roots(i.rns).psi, o.q) && |o.first.coeffs| == |o.second.coeffs| == |xs|
    requires !o.second.ntt && forall k: nat :: k < |xs| ==> o.second.coeffs[k] == Target(b, ResiduesOf(xs[k], b), o.q)
    ensures b.Total() > 0 && |us| == |xs| && forall k: nat :: k < |xs| ==> 0 <= us[k] <= Sum(LessOne(b), b.Size())
    ensures b.Size() == 1 ==> forall k: nat :: k < |xs| ==> us[k] == 0
    ensures var r := HM.Compute(c, active, HM.Arithmetic, i, o);
      if exists x :: IsInverse(b.Total() % o.q, x, o.q)
      then r == HM.Values(Forward(Less(Quotients(xs, b.Total()), us), c.Roots(i.rns).psi, o.q))
      else r == HM.Stuck(HM.MissingModulus)
  {
    var q, psi := o.q, c.Roots(i.rns).psi;
    KnownSources(c, SudSources(c, active, i).value, b);
    SudDivides(c, active, i, q);
    var d := b.Total() % q;
    assert HM.SudDivisor(c, active, i, q) == HM.Got(d);
    hide HM.SudDivisor, RnsBase.Valid, Sum, LessOne, Forward, HM.SudSlots, Target, SudSources;
    NoInverse(d, q);
    if exists x :: IsInverse(d, x, q) {
      us := SudSlotsDivide(b, xs, o.second, InverseOf(d, q), psi, q);
    } else {
      us := Overshoots(xs, o.second.coeffs, b, q);
      OvershootsCombine(xs, o.second.coeffs, us, b, q);
    }
  }

  lemma NoInverse(d: int, q: int)
    requires q > 1
    ensures InverseOf(d, q) == 0 <==> !exists x :: IsInverse(d, x, q)
  {
    if exists x :: IsInverse(d, x, q) {
      assert IsInverse(d, InverseOf(d, q), q);
      assert d * 0 == 0;
    }
  }

  lemma KnownSources(c: HM.Config, sources: seq<nat>, b: RnsBase)
    requires b.Valid() && b.primes == SourceModuli(c, sources)
    ensures AllKnown(c, sources)
  {
    forall k: nat | k < |sources|
      ensures c.Modulus(sources[k]) > 0
    {
      assert b.primes[k] == c.Modulus(sources[k]);
    }
  }
}

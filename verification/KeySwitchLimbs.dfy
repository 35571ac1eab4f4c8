/** The key switch on whole limbs: digits lifted by base conversion, keys of GenerateEvalKey, accumulators in every limb
    below the level and in the extension, and the division by P. One integer polynomial is the error of all limbs. */
module KeySwitchLimbs {
  import opened Congruence
  import opened Polynomials
  import opened WordArithmetic
  import opened NttKernel
  import opened NttTheorems
  import opened Rns
  import opened BaseConversion
  import opened Rescale
  import opened KeySwitch

  type Poly = seq<int>

  // ----- transforms

  function Zeros(n: nat): Poly
  {
    seq(n, i => 0)
  }

  /** Congruent coefficients have the same transform. */
  lemma ForwardCong(a: Poly, b: Poly, psi: int, m: int)
    requires m > 0 && SeqCong(a, b, m)
    ensures Forward(a, psi, m) == Forward(b, psi, m)
  {
    forall j: nat | j < |a|
      ensures Forward(a, psi, m)[j] == Forward(b, psi, m)[j]
    {
      EvalCong(a, b, Pow(psi, 2 * Bits.Rev(j, Bits.TrailingZeros(|a|)) + 1), Pow(psi, 2 * Bits.Rev(j, Bits.TrailingZeros(|a|)) + 1), m);
      hide Eval, Pow;
    }
  }

  lemma ForwardAt(a: Poly, psi: int, m: int, j: nat)
    requires m > 0 && j < |a|
    ensures |Forward(a, psi, m)| == |a| && 0 <= Forward(a, psi, m)[j] < m
  {
    ForwardReduced(a, psi, m, j);
  }

  /** A polynomial whose transform vanishes vanishes. */
  lemma ZeroTransform(a: Poly, roots: NegacyclicRoots, m: int, c: nat)
    requires TransformSpan(|a|) && RootsFor(roots, |a|, m) && c < |a|
    requires forall j: nat :: j < |a| ==> Cong(Forward(a, roots.psi, m)[j], 0, m)
    ensures Cong(a[c], 0, m)
  {
    var zero := Zeros(|a|);
    forall j: nat | j < |a|
      ensures Forward(a, roots.psi, m)[j] == Forward(zero, roots.psi, m)[j]
    {
      ForwardAt(a, roots.psi, m, j);
      ZeroForward(|a|, roots.psi, m, j);
      SmallMod(Forward(a, roots.psi, m)[j], m);
      SmallMod(0, m);
    }
    assert |Forward(a, roots.psi, m)| == |Forward(zero, roots.psi, m)|;
    assert Forward(a, roots.psi, m) == Forward(zero, roots.psi, m);
    BackwardForward(a, roots, c, m);
    BackwardForward(zero, roots, c, m);
  }

  lemma ZeroForward(n: nat, psi: int, m: int, j: nat)
    requires m > 0 && j < n
    ensures Forward(Zeros(n), psi, m)[j] == 0
  {
    var x := Pow(psi, 2 * Bits.Rev(j, Bits.TrailingZeros(n)) + 1);
    SumZero(Term(Zeros(n), x), n);
    SmallMod(0, m);
  }

  /** Subtracting and scaling, slot by slot. */
  lemma ForwardCombined(b: Poly, c: int, d: Poly, psi: int, m: int, j: nat)
    requires m > 0 && |b| == |d| && j < |b|
    ensures |Forward(Combined(b, c, d), psi, m)| == |b|
    ensures Cong(Forward(Combined(b, c, d), psi, m)[j], Forward(b, psi, m)[j] + c * Forward(d, psi, m)[j], m)
  {
    forall i: nat | i < |b|
      ensures Cong(Combined(b, c, d)[i], Combined(b, c, d)[i], m)
    {
    }
    ForwardLinear(Combined(b, c, d), b, c, d, psi, m, j);
  }

  lemma ForwardProductAt(a: Poly, b: Poly, roots: NegacyclicRoots, m: int, j: nat)
    requires |a| == |b| && TransformSpan(|a|) && RootsFor(roots, |a|, m) && j < |a|
    ensures |NegacyclicProduct(a, b)| == |a|
    ensures Cong(Forward(NegacyclicProduct(a, b), roots.psi, m)[j], Forward(a, roots.psi, m)[j] * Forward(b, roots.psi, m)[j], m)
  {
    ForwardProduct(a, b, roots, m);
    CongMod(Forward(a, roots.psi, m)[j] * Forward(b, roots.psi, m)[j], m);
    hide Forward;
  }

  // ----- parameters

  /** Ring size, moduli with their transforms, the extension base whose product is P, and the inverses of P. */
  datatype Params = Params(n: nat, moduli: seq<nat>, roots: seq<NegacyclicRoots>, level: nat, ext: RnsBase, inverses: seq<nat>) {
    ghost predicate Valid() {
      && TransformSpan(n) && |roots| == |moduli| && level + ext.Size() <= |moduli| && |inverses| == level
      && ext.Valid() && ext.primes == ExtensionModuli(moduli, ext.Size())
      && (forall id: nat :: id < |moduli| ==> RootsFor(roots[id], n, moduli[id]))
      && (forall i: nat :: i < level ==> IsInverse(ext.Total(), inverses[i], moduli[i]))
    }

    predicate Used(id: nat) {
      id < level || |moduli| - ext.Size() <= id < |moduli|
    }

    function ExtId(k: nat): nat
      requires k < ext.Size() <= |moduli|
    {
      |moduli| - 1 - k
    }

    function Transform(a: Poly, id: nat): seq<int>
      requires id < |moduli| && |roots| == |moduli| && moduli[id] > 0
    {
      Forward(a, roots[id].psi, moduli[id])
    }

    ghost function Coefficients(y: seq<int>, id: nat): Poly
      requires id < |moduli| && |roots| == |moduli| && moduli[id] > 0
    {
      Backward(y, roots[id].psiInv, roots[id].omegaInv, moduli[id])
    }
  }

  lemma ParamsAt(p: Params, id: nat)
    requires p.Valid() && p.Used(id)
    ensures id < |p.moduli| && |p.roots| == |p.moduli| && TransformSpan(p.n) && RootsFor(p.roots[id], p.n, p.moduli[id]) && p.moduli[id] > 1
    ensures id < p.level ==> |p.inverses| == p.level && IsInverse(p.ext.Total(), p.inverses[id], p.moduli[id])
    ensures p.ext.Valid() && p.ext.Size() <= |p.moduli|
  {
  }

  lemma ExtAt(p: Params, k: nat)
    requires p.Valid() && k < p.ext.Size()
    ensures p.ext.Size() <= |p.moduli| && p.Used(p.ExtId(k)) && p.ExtId(k) >= p.level
    ensures p.ExtId(k) < |p.moduli| && p.moduli[p.ExtId(k)] == p.ext.primes[k]
  {
  }

  /** The transform and the coefficients of a limb. */
  lemma LimbRoundTrip(p: Params, y: seq<int>, id: nat, j: nat)
    requires p.Valid() && p.Used(id) && |y| == p.n && j < p.n && id < |p.moduli| && |p.roots| == |p.moduli| && p.moduli[id] > 0
    ensures |p.Coefficients(y, id)| == p.n && |p.Transform(p.Coefficients(y, id), id)| == p.n
    ensures p.Transform(p.Coefficients(y, id), id)[j] == y[j] % p.moduli[id]
  {
    ParamsAt(p, id);
    ForwardBackward(y, p.roots[id], j, p.moduli[id]);
    hide Params.Valid;
  }

  // ----- digits and keys

  /** One digit: its limbs, their base, and the two halves of its key. */
  datatype Digit = Digit(ids: seq<nat>, base: RnsBase, c0: Limbs, c1: Limbs)

  ghost predicate DigitFor(p: Params, d: Digit)
  {
    && d.base.Valid() && d.base.Size() == |d.ids| && (forall k: nat, l: nat :: k < l < |d.ids| ==> d.ids[k] != d.ids[l])
    && forall k: nat :: k < |d.ids| ==> d.ids[k] < p.level <= |p.moduli| && d.base.primes[k] == p.moduli[d.ids[k]]
  }

  /** One slot of a digit's key: P times the new key s' on the limbs of the digit, under the old key s, with noise e. */
  ghost predicate KeyAt(p: Params, d: Digit, s: Poly, t: Poly, e: Poly, id: nat, j: nat)
    requires id < |p.moduli| && |p.roots| == |p.moduli| && p.moduli[id] > 0 && |s| == |t| == |e| == p.n && j < p.n
  {
    && id in d.c0 && id in d.c1 && |d.c0[id]| == |d.c1[id]| == p.n
    && KeySlot(d.c0[id][j], d.c1[id][j], p.Transform(s, id)[j], p.Transform(e, id)[j], p.ext.Total(), p.Transform(t, id)[j],
               id in d.ids, p.moduli[id])
  }

  ghost predicate KeyFor(p: Params, d: Digit, s: Poly, t: Poly, e: Poly)
    requires p.Valid()
  {
    && |s| == |t| == |e| == p.n
    && forall id: nat, j: nat :: p.Used(id) && j < p.n ==> KeyAt(p, d, s, t, e, id, j)
  }

  /** The limbs of a polynomial, as a key generator holds them. */
  ghost predicate LimbsAre(p: Params, limbs: Limbs, a: Poly)
    requires p.Valid()
  {
    |a| == p.n && forall id: nat :: p.Used(id) ==> id in limbs && limbs[id] == p.Transform(a, id)
  }

  // ----- the switch

  /** Limbs below the level, the digits with their keys, and, as integer polynomials, the two secret keys and the noise
      of every digit's key. */
  datatype Switch = Switch(p: Params, digits: seq<Digit>, x: seq<seq<int>>, s: Poly, t: Poly, es: seq<Poly>) {
    ghost predicate Valid() {
      && p.Valid() && |es| == |digits| && |x| == p.level && |s| == |t| == p.n
      && (forall d: nat :: d < |digits| ==> DigitFor(p, digits[d]) && KeyFor(p, digits[d], s, t, es[d]))
      && (forall i: nat :: i < p.level ==> LimbBelow(i))
    }

    ghost predicate LimbBelow(i: nat)
      requires |x| == p.level <= |p.moduli|
    {
      i < p.level && |x[i]| == p.n && forall j: nat :: j < p.n ==> 0 <= x[i][j] < p.moduli[i]
    }

    ghost function Sets(): (r: seq<set<nat>>)
      ensures |r| == |digits|
    {
      seq(|digits|, d requires 0 <= d < |digits| => set k | k in digits[d].ids)
    }

    /** The residues of one coefficient in the base of a digit. */
    ghost function DigitResidues(d: nat, c: nat): (r: seq<int>)
      requires Valid() && d < |digits| && c < p.n
      ensures |r| == |digits[d].ids|
    {
      DigitIn(this, d);
      seq(|digits[d].ids|, k requires 0 <= k < |digits[d].ids| => DigitResidue(d, c, k))
    }

    ghost function DigitResidue(d: nat, c: nat, k: nat): int
      requires Valid() && d < |digits| && c < p.n && k < |digits[d].ids|
    {
      DigitIn(this, d);
      LimbIn(this, digits[d].ids[k], 0);
      CoefficientsLength(p, x[digits[d].ids[k]], digits[d].ids[k]);
      p.Coefficients(x[digits[d].ids[k]], digits[d].ids[k])[c]
    }

    /** The integer polynomial that the base conversion of a digit stands for. */
    ghost function Lifted(d: nat): (y: Poly)
      requires Valid() && d < |digits|
      ensures |y| == p.n
    {
      seq(p.n, c requires 0 <= c < p.n => Lift(digits[d].base, DigitResidues(d, c)))
    }

    /** The converted digit in another limb. */
    ghost function Converted(d: nat, id: nat): (y: Poly)
      requires Valid() && d < |digits| && p.Used(id)
      ensures |y| == p.n
    {
      DigitIn(this, d);
      ParamsAt(p, id);
      seq(p.n, c requires 0 <= c < p.n => Target(digits[d].base, DigitResidues(d, c), p.moduli[id]))
    }

    /** A digit in limb id: the limb itself in its own digit, the converted one elsewhere. */
    ghost function Raised(d: nat, id: nat): (y: seq<int>)
      requires Valid() && d < |digits| && p.Used(id)
      ensures |y| == p.n
    {
      DigitIn(this, d);
      ParamsAt(p, id);
      if id in digits[d].ids then
        LimbIn(this, id, 0);
        x[id]
      else p.Transform(Converted(d, id), id)
    }

    /** One half of a digit's key in one slot. */
    ghost function KeyHalf(second: bool, d: nat, id: nat, j: nat): int
      requires Valid() && d < |digits| && p.Used(id) && j < p.n
    {
      KeyIn(this, d, id, j);
      if second then digits[d].c1[id][j] else digits[d].c0[id][j]
    }

    ghost function RaisedSlots(id: nat, j: nat): (r: seq<int>)
      requires Valid() && p.Used(id) && j < p.n
      ensures |r| == |digits|
    {
      seq(|digits|, d requires 0 <= d < |digits| => Raised(d, id)[j])
    }

    ghost function KeySlots(second: bool, id: nat, j: nat): (r: seq<int>)
      requires Valid() && p.Used(id) && j < p.n
      ensures |r| == |digits|
    {
      seq(|digits|, d requires 0 <= d < |digits| => KeyHalf(second, d, id, j))
    }

    /** Digits times one half of their keys, summed: one limb, below the level or in the extension. */
    ghost function Accumulated(second: bool, id: nat): (acc: seq<int>)
      requires Valid() && p.Used(id)
      ensures |acc| == p.n
    {
      ParamsAt(p, id);
      seq(p.n, j requires 0 <= j < p.n => KeyProduct(RaisedSlots(id, j), KeySlots(second, id, j), p.moduli[id], |digits|))
    }

    ghost function ExtResidue(second: bool, c: nat, k: nat): int
      requires Valid() && c < p.n && k < p.ext.Size()
    {
      ExtAt(p, k);
      ParamsAt(p, p.ExtId(k));
      CoefficientsLength(p, Accumulated(second, p.ExtId(k)), p.ExtId(k));
      p.Coefficients(Accumulated(second, p.ExtId(k)), p.ExtId(k))[c]
    }

    /** The residues of one coefficient of an accumulator in the extension. */
    ghost function ExtResidues(second: bool, c: nat): (r: seq<int>)
      requires Valid() && c < p.n
      ensures |r| == p.ext.Size()
    {
      seq(p.ext.Size(), k requires 0 <= k < p.ext.Size() => ExtResidue(second, c, k))
    }

    /** The integer polynomial that the conversion of the extension stands for. */
    ghost function Part(second: bool): (r: Poly)
      requires Valid()
      ensures |r| == p.n
    {
      seq(p.n, c requires 0 <= c < p.n => Lift(p.ext, ExtResidues(second, c)))
    }

    /** The converted extension in limb i. */
    ghost function ConvertedPart(second: bool, i: nat): (r: Poly)
      requires Valid() && p.Used(i)
      ensures |r| == p.n
    {
      ParamsAt(p, i);
      seq(p.n, c requires 0 <= c < p.n => Target(p.ext, ExtResidues(second, c), p.moduli[i]))
    }

    /** The result in limb i: the converted extension subtracted, then divided by P. */
    ghost function Switched(second: bool, i: nat): (r: seq<int>)
      requires Valid() && i < p.level
      ensures |r| == p.n
    {
      ParamsAt(p, i);
      TransformLength(p, ConvertedPart(second, i), i);
      seq(p.n, j requires 0 <= j < p.n =>
        DividedSlot(Accumulated(second, i)[j], p.Transform(ConvertedPart(second, i), i)[j], p.inverses[i], p.moduli[i]))
    }

    /** Lifted digits times the noise of their keys, as integer polynomials. */
    ghost function WeightedNoise(count: nat): (v: Poly)
      requires Valid() && count <= |digits|
      ensures |v| == p.n
    {
      if count == 0 then Zeros(p.n)
      else
        NoiseIn(this, count - 1);
        Combined(WeightedNoise(count - 1), 1, NegacyclicProduct(Lifted(count - 1), es[count - 1]))
    }

    /** What the switch adds before the division: the weighted noise less the extension parts under the old key. */
    ghost function Remainder(): (v: Poly)
      requires Valid()
      ensures |v| == p.n
    {
      PValid(this);
      Combined(Combined(WeightedNoise(|digits|), -1, Part(false)), -1, NegacyclicProduct(Part(true), s))
    }
  }

  lemma DigitIn(w: Switch, d: nat)
    requires w.Valid() && d < |w.digits|
    ensures DigitFor(w.p, w.digits[d]) && KeyFor(w.p, w.digits[d], w.s, w.t, w.es[d])
    ensures |w.digits[d].base.inverses| == w.digits[d].base.Size() == |w.digits[d].ids| && w.digits[d].base.Valid()
    ensures forall id: nat :: id in w.digits[d].ids ==> id < w.p.level
    ensures |w.x| == w.p.level <= |w.p.moduli|
  {
    hide KeyAt, Params.Valid, Switch.LimbBelow;
    assert w.p.level <= |w.p.moduli| by {
      LevelFits(w.p);
    }
  }

  lemma LevelFits(p: Params)
    requires p.Valid()
    ensures p.level <= |p.moduli|
  {
  }

  lemma LimbIn(w: Switch, i: nat, j: nat)
    requires w.Valid() && i < w.p.level
    ensures |w.x| == w.p.level <= |w.p.moduli| && |w.x[i]| == w.p.n && (j < w.p.n ==> 0 <= w.x[i][j] < w.p.moduli[i])
    ensures w.p.Used(i) && |w.p.roots| == |w.p.moduli| && w.p.moduli[i] > 1
  {
    ParamsAt(w.p, i);
    LevelFits(w.p);
    hide Params.Valid, DigitFor, KeyFor;
    assert w.LimbBelow(i);
  }

  lemma CoefficientsLength(p: Params, y: seq<int>, id: nat)
    requires id < |p.moduli| && |p.roots| == |p.moduli| && p.moduli[id] > 0
    ensures |p.Coefficients(y, id)| == |y|
  {
  }

  /** In every limb a raised digit is the transform of the lifted one. */
  lemma RaisedIsLifted(w: Switch, d: nat, id: nat)
    requires w.Valid() && d < |w.digits| && w.p.Used(id)
    ensures id < |w.p.moduli| && |w.p.roots| == |w.p.moduli| && w.p.moduli[id] > 1
    ensures w.Raised(d, id) == w.p.Transform(w.Lifted(d), id)
  {
    ParamsAt(w.p, id);
    DigitIn(w, d);
    if id in w.digits[d].ids {
      var k: nat :| k < |w.digits[d].ids| && w.digits[d].ids[k] == id;
      OwnRaised(w, d, k);
    } else {
      OtherRaised(w, d, id);
    }
  }

  lemma OwnRaised(w: Switch, d: nat, k: nat)
    requires w.Valid() && d < |w.digits| && k < |w.digits[d].ids|
    ensures var id := w.digits[d].ids[k];
      w.p.Used(id) && id < |w.p.moduli| && |w.p.roots| == |w.p.moduli| && w.p.moduli[id] > 1 && w.Raised(d, id) == w.p.Transform(w.Lifted(d), id)
  {
    var id := w.digits[d].ids[k];
    DigitIn(w, d);
    LimbIn(w, id, 0);
    var y, q := w.x[id], w.p.moduli[id];
    CoefficientsLength(w.p, y, id);
    assert DigitFor(w.p, w.digits[d]);
    assert w.digits[d].base.primes[k] == q;
    hide Switch.Valid, Params.Coefficients, Params.Transform, Params.Valid, KeyFor, Lift;
    forall c: nat | c < w.p.n
      ensures Cong(w.Lifted(d)[c], w.p.Coefficients(y, id)[c], q)
    {
      LiftResidue(w.digits[d].base, w.DigitResidues(d, c), k);
      assert w.DigitResidues(d, c)[k] == w.DigitResidue(d, c, k);
    }
    TransformCong(w.p, w.Lifted(d), w.p.Coefficients(y, id), id);
    PValid(w);
    forall j: nat | j < w.p.n
      ensures w.p.Transform(w.p.Coefficients(y, id), id)[j] == y[j]
    {
      LimbRoundTrip(w.p, y, id, j);
      LimbIn(w, id, j);
      SmallMod(y[j], q);
    }
    TransformLength(w.p, w.p.Coefficients(y, id), id);
    assert w.p.Transform(w.p.Coefficients(y, id), id) == y;
  }

  lemma PValid(w: Switch)
    requires w.Valid()
    ensures w.p.Valid() && |w.es| == |w.digits| && |w.x| == w.p.level && |w.s| == |w.t| == w.p.n
  {
  }

  lemma TransformLength(p: Params, a: Poly, id: nat)
    requires id < |p.moduli| && |p.roots| == |p.moduli| && p.moduli[id] > 0
    ensures |p.Transform(a, id)| == |a|
  {
  }

  lemma TransformCong(p: Params, a: Poly, b: Poly, id: nat)
    requires id < |p.moduli| && |p.roots| == |p.moduli| && p.moduli[id] > 0 && |a| == |b|
    requires forall c: nat :: c < |a| ==> Cong(a[c], b[c], p.moduli[id])
    ensures p.Transform(a, id) == p.Transform(b, id)
  {
    ForwardCong(a, b, p.roots[id].psi, p.moduli[id]);
  }

  lemma OtherRaised(w: Switch, d: nat, id: nat)
    requires w.Valid() && d < |w.digits| && w.p.Used(id) && id !in w.digits[d].ids
    ensures id < |w.p.moduli| && |w.p.roots| == |w.p.moduli| && w.p.moduli[id] > 1
    ensures w.Raised(d, id) == w.p.Transform(w.Lifted(d), id)
  {
    ParamsAt(w.p, id);
    DigitIn(w, d);
    hide Switch.Valid, Params.Transform, Params.Valid, KeyFor, Lift, Target;
    forall c: nat | c < w.p.n
      ensures Cong(w.Converted(d, id)[c], w.Lifted(d)[c], w.p.moduli[id])
    {
      TargetIsLift(w.digits[d].base, w.DigitResidues(d, c), w.p.moduli[id]);
      CongMod(w.Lifted(d)[c], w.p.moduli[id]);
    }
    TransformCong(w.p, w.Converted(d, id), w.Lifted(d), id);
  }

  lemma NoiseIn(w: Switch, d: nat)
    requires w.Valid() && d < |w.digits|
    ensures |w.es| == |w.digits| && |w.es[d]| == w.p.n
  {
    DigitIn(w, d);
    PValid(w);
    hide Switch.Valid, DigitFor, Params.Valid;
  }

  lemma KeyIn(w: Switch, d: nat, id: nat, j: nat)
    requires w.Valid() && d < |w.digits| && w.p.Used(id) && j < w.p.n
    ensures id < |w.p.moduli| && |w.p.roots| == |w.p.moduli| && w.p.moduli[id] > 1 && |w.es| == |w.digits| && |w.es[d]| == |w.s| == |w.t| == w.p.n
    ensures KeyAt(w.p, w.digits[d], w.s, w.t, w.es[d], id, j)
    ensures id in w.digits[d].c0 && id in w.digits[d].c1 && |w.digits[d].c0[id]| == |w.digits[d].c1[id]| == w.p.n
  {
    ParamsAt(w.p, id);
    DigitIn(w, d);
    PValid(w);
    NoiseIn(w, d);
    hide Switch.Valid, DigitFor, Params.Valid, Params.Used;
    assert KeyFor(w.p, w.digits[d], w.s, w.t, w.es[d]);
    assert KeyAt(w.p, w.digits[d], w.s, w.t, w.es[d], id, j);
  }

  // ----- one slot

  ghost function NoiseSlots(w: Switch, id: nat, j: nat): (r: seq<int>)
    requires w.Valid() && w.p.Used(id) && j < w.p.n
    ensures |r| == |w.digits|
  {
    seq(|w.digits|, d requires 0 <= d < |w.digits| => NoiseSlot(w, d, id, j))
  }

  ghost function NoiseSlot(w: Switch, d: nat, id: nat, j: nat): int
    requires w.Valid() && d < |w.digits| && w.p.Used(id) && j < w.p.n
  {
    KeyIn(w, d, id, j);
    TransformLength(w.p, w.es[d], id);
    w.p.Transform(w.es[d], id)[j]
  }

  /** One slot of the old key, and of the new one. */
  ghost function OldKeySlot(w: Switch, id: nat, j: nat): int
    requires w.Valid() && w.p.Used(id) && j < w.p.n
  {
    ParamsAt(w.p, id);
    PValid(w);
    TransformLength(w.p, w.s, id);
    w.p.Transform(w.s, id)[j]
  }

  ghost function NewKeySlot(w: Switch, id: nat, j: nat): int
    requires w.Valid() && w.p.Used(id) && j < w.p.n
  {
    ParamsAt(w.p, id);
    PValid(w);
    TransformLength(w.p, w.t, id);
    w.p.Transform(w.t, id)[j]
  }

  ghost function PartSlot(w: Switch, second: bool, id: nat, j: nat): int
    requires w.Valid() && w.p.Used(id) && j < w.p.n
  {
    ParamsAt(w.p, id);
    TransformLength(w.p, w.Part(second), id);
    w.p.Transform(w.Part(second), id)[j]
  }

  ghost function RemainderSlot(w: Switch, id: nat, j: nat): int
    requires w.Valid() && w.p.Used(id) && j < w.p.n
  {
    ParamsAt(w.p, id);
    TransformLength(w.p, w.Remainder(), id);
    w.p.Transform(w.Remainder(), id)[j]
  }

  ghost function SlotOf(w: Switch, id: nat, j: nat): SwitchSlot
    requires w.Valid() && w.p.Used(id) && j < w.p.n
  {
    SwitchSlot(w.RaisedSlots(id, j), w.KeySlots(false, id, j), w.KeySlots(true, id, j), NoiseSlots(w, id, j))
  }

  /** The slots are those of keys of GenerateEvalKey. */
  lemma SlotFor(w: Switch, id: nat, j: nat, x: int)
    requires w.Valid() && w.p.Used(id) && j < w.p.n && id < |w.p.moduli| && (id < w.p.level <= |w.x| ==> |w.x[id]| == w.p.n && x == w.x[id][j])
    ensures SlotOf(w, id, j).For(w.Sets(), id, x, OldKeySlot(w, id, j), NewKeySlot(w, id, j), w.p.ext.Total(), w.p.moduli[id])
  {
    ParamsAt(w.p, id);
    var r, sets := SlotOf(w, id, j), w.Sets();
    var s, t, total, q := OldKeySlot(w, id, j), NewKeySlot(w, id, j), w.p.ext.Total(), w.p.moduli[id];
    forall d: nat | d < |sets|
      ensures KeySlot(r.c0s[d], r.c1s[d], s, r.es[d], total, t, id in sets[d], q)
      ensures id in sets[d] ==> Cong(r.ys[d], x, q)
    {
      DigitIn(w, d);
      KeyIn(w, d, id, j);
      hide Switch.Valid, Params.Valid, DigitFor, KeyFor, KeySlot, Params.Transform;
    }
    hide Switch.Valid, Params.Valid, KeySlot;
  }

  // ----- the error polynomial, slot by slot

  lemma TransformCombined(p: Params, a: Poly, c: int, b: Poly, id: nat, j: nat)
    requires id < |p.moduli| && |p.roots| == |p.moduli| && p.moduli[id] > 0 && |a| == |b| && j < |a|
    ensures |p.Transform(Combined(a, c, b), id)| == |p.Transform(a, id)| == |p.Transform(b, id)| == |a|
    ensures Cong(p.Transform(Combined(a, c, b), id)[j], p.Transform(a, id)[j] + c * p.Transform(b, id)[j], p.moduli[id])
  {
    TransformLength(p, a, id);
    TransformLength(p, b, id);
    ForwardCombined(a, c, b, p.roots[id].psi, p.moduli[id], j);
    hide Forward, Combined, Cong;
  }

  lemma TransformProduct(p: Params, a: Poly, b: Poly, id: nat, j: nat)
    requires p.Valid() && p.Used(id) && |a| == |b| == p.n && j < p.n
    ensures id < |p.moduli| && |p.roots| == |p.moduli| && p.moduli[id] > 1 && |NegacyclicProduct(a, b)| == p.n
    ensures |p.Transform(NegacyclicProduct(a, b), id)| == |p.Transform(a, id)| == |p.Transform(b, id)| == p.n
    ensures Cong(p.Transform(NegacyclicProduct(a, b), id)[j], p.Transform(a, id)[j] * p.Transform(b, id)[j], p.moduli[id])
  {
    ParamsAt(p, id);
    hide Params.Valid, Params.Used;
    TransformLength(p, a, id);
    TransformLength(p, b, id);
    ForwardProductAt(a, b, p.roots[id], p.moduli[id], j);
    hide Forward, NegacyclicProduct, Cong;
    TransformLength(p, NegacyclicProduct(a, b), id);
  }

  lemma TransformZeros(p: Params, id: nat, j: nat)
    requires id < |p.moduli| && |p.roots| == |p.moduli| && p.moduli[id] > 0 && j < p.n
    ensures |p.Transform(Zeros(p.n), id)| == p.n && p.Transform(Zeros(p.n), id)[j] == 0
  {
    TransformLength(p, Zeros(p.n), id);
    ZeroForward(p.n, p.roots[id].psi, p.moduli[id], j);
    hide Forward, Zeros;
  }

  /** What the weighted noise is, from digit to digit. */
  lemma WeightedIs(w: Switch, d: nat)
    requires w.Valid() && d < |w.digits|
    ensures w.WeightedNoise(0) == Zeros(w.p.n) && |w.es| == |w.digits| && |w.es[d]| == w.p.n
    ensures w.WeightedNoise(d + 1) == Combined(w.WeightedNoise(d), 1, NegacyclicProduct(w.Lifted(d), w.es[d]))
  {
    NoiseIn(w, d);
    hide Switch.Valid;
  }

  lemma SlotsAt(w: Switch, id: nat, j: nat, d: nat)
    requires w.Valid() && w.p.Used(id) && j < w.p.n && d < |w.digits|
    ensures id < |w.p.moduli| && |w.p.roots| == |w.p.moduli| && w.p.moduli[id] > 1 && |w.es| == |w.digits| && |w.es[d]| == w.p.n
    ensures |w.p.Transform(w.Lifted(d), id)| == |w.p.Transform(w.es[d], id)| == w.p.n
    ensures w.RaisedSlots(id, j)[d] == w.p.Transform(w.Lifted(d), id)[j] && NoiseSlots(w, id, j)[d] == w.p.Transform(w.es[d], id)[j]
  {
    RaisedIsLifted(w, d, id);
    NoiseIn(w, d);
    TransformLength(w.p, w.Lifted(d), id);
    TransformLength(w.p, w.es[d], id);
    hide Switch.Valid, Params.Transform, Params.Valid, Switch.Raised, Switch.Lifted;
  }

  lemma {:induction false} WeightedSlot(w: Switch, id: nat, j: nat, count: nat)
    requires w.Valid() && w.p.Used(id) && j < w.p.n && count <= |w.digits|
    ensures id < |w.p.moduli| && |w.p.roots| == |w.p.moduli| && w.p.moduli[id] > 1 && |w.p.Transform(w.WeightedNoise(count), id)| == w.p.n
    ensures Cong(w.p.Transform(w.WeightedNoise(count), id)[j], Dot(w.RaisedSlots(id, j), NoiseSlots(w, id, j), count), w.p.moduli[id])
  {
    hide *;
    PValid(w);
    ParamsAt(w.p, id);
    if count == 0 {
      TransformZeros(w.p, id, j);
      NoWeight(w, id, j);
    } else {
      var d := count - 1;
      WeightedSlot(w, id, j, d);
      WeightedIs(w, d);
      SlotsAt(w, id, j, d);
      TransformProduct(w.p, w.Lifted(d), w.es[d], id, j);
      TransformCombined(w.p, w.WeightedNoise(d), 1, NegacyclicProduct(w.Lifted(d), w.es[d]), id, j);
      DotStep(w.RaisedSlots(id, j), NoiseSlots(w, id, j), d, w.p.Transform(w.WeightedNoise(count), id)[j],
              w.p.Transform(w.WeightedNoise(d), id)[j], w.p.Transform(NegacyclicProduct(w.Lifted(d), w.es[d]), id)[j], w.p.moduli[id]);
    }
  }

  lemma NoWeight(w: Switch, id: nat, j: nat)
    requires w.Valid() && w.p.Used(id) && j < w.p.n && id < |w.p.moduli| && |w.p.roots| == |w.p.moduli| && w.p.moduli[id] > 1
    requires |w.p.Transform(Zeros(w.p.n), id)| == w.p.n && w.p.Transform(Zeros(w.p.n), id)[j] == 0
    ensures |w.p.Transform(w.WeightedNoise(0), id)| == w.p.n
    ensures Cong(w.p.Transform(w.WeightedNoise(0), id)[j], Dot(w.RaisedSlots(id, j), NoiseSlots(w, id, j), 0), w.p.moduli[id])
  {
    hide Switch.Valid, Params.Transform, Zeros;
  }

  lemma DotStep(ys: seq<int>, es: seq<int>, d: nat, after: int, before: int, product: int, q: int)
    requires q > 0 && d < |ys| && d < |es| && Cong(before, Dot(ys, es, d), q) && Cong(product, ys[d] * es[d], q)
    requires Cong(after, before + 1 * product, q)
    ensures Cong(after, Dot(ys, es, d + 1), q)
  {
    CongAdd(before, Dot(ys, es, d), product, ys[d] * es[d], q);
  }

  lemma RemainderIs(w: Switch)
    requires w.Valid()
    ensures |w.s| == w.p.n && |NegacyclicProduct(w.Part(true), w.s)| == w.p.n
    ensures w.Remainder() == Combined(Combined(w.WeightedNoise(|w.digits|), -1, w.Part(false)), -1, NegacyclicProduct(w.Part(true), w.s))
  {
    PValid(w);
    hide Switch.Valid;
  }

  lemma SlotsAre(w: Switch, id: nat, j: nat)
    requires w.Valid() && w.p.Used(id) && j < w.p.n
    ensures id < |w.p.moduli| && |w.p.roots| == |w.p.moduli| && w.p.moduli[id] > 1 && |w.s| == w.p.n
    ensures |w.p.Transform(w.Part(false), id)| == |w.p.Transform(w.Part(true), id)| == |w.p.Transform(w.s, id)| == w.p.n
    ensures |w.p.Transform(w.Remainder(), id)| == w.p.n && RemainderSlot(w, id, j) == w.p.Transform(w.Remainder(), id)[j]
    ensures PartSlot(w, false, id, j) == w.p.Transform(w.Part(false), id)[j] && PartSlot(w, true, id, j) == w.p.Transform(w.Part(true), id)[j]
    ensures OldKeySlot(w, id, j) == w.p.Transform(w.s, id)[j]
  {
    PValid(w);
    ParamsAt(w.p, id);
    hide Switch.Valid, Params.Valid, Params.Transform, Switch.Remainder, Switch.Part;
    TransformLength(w.p, w.Part(false), id);
    TransformLength(w.p, w.Part(true), id);
    TransformLength(w.p, w.s, id);
    TransformLength(w.p, w.Remainder(), id);
  }

  lemma RemainderRight(w: Switch, id: nat, j: nat)
    requires w.Valid() && w.p.Used(id) && j < w.p.n
    ensures id < |w.p.moduli| && w.p.moduli[id] > 1
    ensures Cong(RemainderSlot(w, id, j), Dot(w.RaisedSlots(id, j), NoiseSlots(w, id, j), |w.digits|)
                 - (PartSlot(w, false, id, j) + PartSlot(w, true, id, j) * OldKeySlot(w, id, j)), w.p.moduli[id])
  {
    hide *;
    PValid(w);
    WeightedSlot(w, id, j, |w.digits|);
    RemainderIs(w);
    SlotsAre(w, id, j);
    var v, r0, r1, s := w.WeightedNoise(|w.digits|), w.Part(false), w.Part(true), w.s;
    TransformProduct(w.p, r1, s, id, j);
    TransformCombined(w.p, v, -1, r0, id, j);
    CombinedLength(v, -1, r0);
    TransformCombined(w.p, Combined(v, -1, r0), -1, NegacyclicProduct(r1, s), id, j);
    RemainderSums(RemainderSlot(w, id, j), w.p.Transform(Combined(v, -1, r0), id)[j], w.p.Transform(v, id)[j], PartSlot(w, false, id, j),
                  w.p.Transform(NegacyclicProduct(r1, s), id)[j], PartSlot(w, true, id, j) * OldKeySlot(w, id, j),
                  Dot(w.RaisedSlots(id, j), NoiseSlots(w, id, j), |w.digits|), w.p.moduli[id]);
  }

  lemma CombinedLength(a: Poly, c: int, b: Poly)
    requires |a| == |b|
    ensures |Combined(a, c, b)| == |a|
  {
  }

  lemma RemainderSums(all: int, part: int, v: int, r0: int, product: int, r1s: int, dot: int, q: int)
    requires q > 0 && Cong(all, part + -1 * product, q) && Cong(part, v + -1 * r0, q) && Cong(product, r1s, q) && Cong(v, dot, q)
    ensures Cong(all, dot - (r0 + r1s), q)
  {
    CongSub(part, v - r0, product, r1s, q);
    CongSub(v, dot, r0 + r1s, r0 + r1s, q);
    assert v - r0 - r1s == v - (r0 + r1s);
  }

  // ----- the extension

  /** Modulo an extension modulus the converted part is the accumulator itself. */
  lemma PartIsAccumulated(w: Switch, second: bool, k: nat, j: nat)
    requires w.Valid() && k < w.p.ext.Size() && j < w.p.n
    ensures w.p.ext.Size() <= |w.p.moduli|
    ensures var id := w.p.ExtId(k);
      w.p.Used(id) && id < |w.p.moduli| && w.p.moduli[id] > 1 && Cong(PartSlot(w, second, id, j), w.Accumulated(second, id)[j], w.p.moduli[id])
  {
    PValid(w);
    ExtAt(w.p, k);
    var id := w.p.ExtId(k);
    ParamsAt(w.p, id);
    var y, q := w.Accumulated(second, id), w.p.moduli[id];
    CoefficientsLength(w.p, y, id);
    hide Switch.Valid, Params.Coefficients, Params.Transform, Params.Valid, Lift, Switch.Accumulated;
    forall c: nat | c < w.p.n
      ensures Cong(w.Part(second)[c], w.p.Coefficients(y, id)[c], q)
    {
      assert w.ExtResidues(second, c)[k] == w.ExtResidue(second, c, k);
      LiftResidue(w.p.ext, w.ExtResidues(second, c), k);
    }
    TransformCong(w.p, w.Part(second), w.p.Coefficients(y, id), id);
    LimbRoundTrip(w.p, y, id, j);
    CongMod(y[j], q);
  }

  /** No digit holds a limb of the extension. */
  lemma ExtensionUnseen(w: Switch, id: nat)
    requires w.Valid() && id >= w.p.level
    ensures !SeenIn(w.Sets(), id, |w.digits|)
  {
    forall d: nat | d < |w.digits|
      ensures id !in w.Sets()[d]
    {
      DigitIn(w, d);
      hide Switch.Valid, DigitFor, KeyFor;
    }
    hide Switch.Valid;
  }

  /** In the extension acc0 + acc1 * s is the weighted noise alone. */
  lemma ExtensionNoise(w: Switch, k: nat, j: nat)
    requires w.Valid() && k < w.p.ext.Size() && j < w.p.n && Disjoint(w.Sets())
    ensures w.p.ext.Size() <= |w.p.moduli|
    ensures var id := w.p.ExtId(k);
      && w.p.Used(id) && id < |w.p.moduli| && w.p.moduli[id] > 1
      && Cong(w.Accumulated(false, id)[j] + w.Accumulated(true, id)[j] * OldKeySlot(w, id, j),
              Dot(w.RaisedSlots(id, j), NoiseSlots(w, id, j), |w.digits|), w.p.moduli[id])
  {
    hide *;
    PValid(w);
    ExtAt(w.p, k);
    var id := w.p.ExtId(k);
    ParamsAt(w.p, id);
    SlotFor(w, id, j, 0);
    ExtensionUnseen(w, id);
    SlotIs(w, id, j);
    var r, q, n, s := SlotOf(w, id, j), w.p.moduli[id], |w.digits|, OldKeySlot(w, id, j);
    AccumulatedDots(r, w.Sets(), id, s, NewKeySlot(w, id, j), w.p.ext.Total(), q, n);
  }

  /** The accumulators hold the products of a slot, summed. */
  lemma SlotIs(w: Switch, id: nat, j: nat)
    requires w.Valid() && w.p.Used(id) && j < w.p.n
    ensures id < |w.p.moduli| && w.p.moduli[id] > 1
    ensures var r := SlotOf(w, id, j);
      && |r.ys| == |r.c0s| == |r.c1s| == |r.es| == |w.digits| && r.ys == w.RaisedSlots(id, j) && r.es == NoiseSlots(w, id, j)
      && w.Accumulated(false, id)[j] == KeyProduct(r.ys, r.c0s, w.p.moduli[id], |w.digits|)
      && w.Accumulated(true, id)[j] == KeyProduct(r.ys, r.c1s, w.p.moduli[id], |w.digits|)
  {
    ParamsAt(w.p, id);
    hide Switch.Valid, Params.Valid, Params.Used, KeyProduct;
  }

  /** Products of a limb that no digit holds. */
  lemma AccumulatedDots(r: SwitchSlot, sets: seq<set<nat>>, id: nat, s: int, t: int, p: int, q: int, n: nat)
    requires r.For(sets, id, 0, s, t, p, q) && Disjoint(sets) && n == |sets| && !SeenIn(sets, id, n)
    ensures q > 1 && |r.ys| == |r.c0s| == |r.c1s| == |r.es| == n
    ensures Cong(KeyProduct(r.ys, r.c0s, q, n) + KeyProduct(r.ys, r.c1s, q, n) * s, Dot(r.ys, r.es, n), q)
  {
    DigitsContribute(r, sets, id, 0, s, t, p, q, n);
    KeyProductIsDot(r.ys, r.c0s, q, n);
    KeyProductIsDot(r.ys, r.c1s, q, n);
    hide SeenIn, Disjoint, SwitchSlot.For, KeyProduct, Dot, Cong;
    AccumulatedSums(KeyProduct(r.ys, r.c0s, q, n), KeyProduct(r.ys, r.c1s, q, n), Dot(r.ys, r.c0s, n), Dot(r.ys, r.c1s, n), s, Dot(r.ys, r.es, n), q);
  }

  lemma AccumulatedSums(a: int, b: int, da: int, db: int, s: int, e: int, q: int)
    requires q > 0 && Cong(a, da, q) && Cong(b, db, q) && Cong(da + db * s, e, q)
    ensures Cong(a + b * s, e, q)
  {
    CongMul(b, db, s, s, q);
    CongAdd(a, da, b * s, db * s, q);
  }

  lemma RemainderVanishesAt(w: Switch, k: nat, j: nat)
    requires w.Valid() && k < w.p.ext.Size() && j < w.p.n && Disjoint(w.Sets())
    ensures w.p.ext.Size() <= |w.p.moduli|
    ensures var id := w.p.ExtId(k);
      w.p.Used(id) && id < |w.p.moduli| && w.p.moduli[id] > 1 && Cong(RemainderSlot(w, id, j), 0, w.p.moduli[id])
  {
    hide *;
    PartIsAccumulated(w, false, k, j);
    PartIsAccumulated(w, true, k, j);
    ExtensionNoise(w, k, j);
    var id := w.p.ExtId(k);
    RemainderRight(w, id, j);
    VanishingSums(RemainderSlot(w, id, j), PartSlot(w, false, id, j), PartSlot(w, true, id, j), OldKeySlot(w, id, j),
                  w.Accumulated(false, id)[j], w.Accumulated(true, id)[j],
                  Dot(w.RaisedSlots(id, j), NoiseSlots(w, id, j), |w.digits|), w.p.moduli[id]);
  }

  lemma VanishingSums(all: int, r0: int, r1: int, s: int, a: int, b: int, dot: int, q: int)
    requires q > 0 && Cong(all, dot - (r0 + r1 * s), q) && Cong(r0, a, q) && Cong(r1, b, q) && Cong(a + b * s, dot, q)
    ensures Cong(all, 0, q)
  {
    CongMul(r1, b, s, s, q);
    CongAdd(r0, a, r1 * s, b * s, q);
    CongSub(dot, dot, r0 + r1 * s, dot, q);
  }

  /** P divides every coefficient of the error before the division. */
  lemma RemainderDivides(w: Switch, c: nat)
    requires w.Valid() && Disjoint(w.Sets()) && c < w.p.n
    ensures w.p.ext.Total() > 0 && Cong(w.Remainder()[c], 0, w.p.ext.Total())
  {
    PValid(w);
    var b := w.p.ext;
    assert b.Valid();
    hide Switch.Valid, Params.Valid;
    forall k: nat | k < b.Size()
      ensures Cong(w.Remainder()[c], 0, b.primes[k])
    {
      RemainderVanishes(w, k, c);
    }
    hide RnsBase.Valid;
    AllZero(b, w.Remainder()[c]);
  }

  lemma AllZero(b: RnsBase, x: int)
    requires b.Valid() && forall k: nat :: k < b.Size() ==> Cong(x, 0, b.primes[k])
    ensures b.Total() > 0 && Cong(x, 0, b.Total())
  {
    var zeros := seq(b.Size(), k => 0);
    ResiduesDetermine(x, 0, zeros, b);
  }

  lemma RemainderVanishes(w: Switch, k: nat, c: nat)
    requires w.Valid() && k < w.p.ext.Size() && c < w.p.n && Disjoint(w.Sets())
    ensures w.p.ext.primes[k] > 1 && Cong(w.Remainder()[c], 0, w.p.ext.primes[k])
  {
    PValid(w);
    ExtAt(w.p, k);
    var id := w.p.ExtId(k);
    ParamsAt(w.p, id);
    hide Switch.Valid, Params.Valid, Params.Used, Disjoint;
    forall j: nat | j < w.p.n
      ensures Cong(w.p.Transform(w.Remainder(), id)[j], 0, w.p.moduli[id])
    {
      TransformLength(w.p, w.Remainder(), id);
      RemainderVanishesAt(w, k, j);
    }
    hide Forward, Switch.Remainder;
    TransformLength(w.p, w.Remainder(), id);
    ZeroTransform(w.Remainder(), w.p.roots[id], w.p.moduli[id], c);
  }

  // ----- the identity

  /** The converted extension, transformed, in a limb below the level. */
  lemma PartTransformed(w: Switch, second: bool, i: nat, j: nat)
    requires w.Valid() && i < w.p.level && j < w.p.n
    ensures w.p.Used(i) && i < |w.p.moduli| && |w.p.inverses| == w.p.level && w.p.moduli[i] > 1
    ensures w.Switched(second, i)[j] == DividedSlot(w.Accumulated(second, i)[j], PartSlot(w, second, i, j), w.p.inverses[i], w.p.moduli[i])
  {
    PValid(w);
    ParamsAt(w.p, i);
    var q := w.p.moduli[i];
    hide Switch.Valid, Params.Transform, Params.Valid, Lift, Target, Switch.Accumulated;
    forall c: nat | c < w.p.n
      ensures Cong(w.ConvertedPart(second, i)[c], w.Part(second)[c], q)
    {
      TargetIsLift(w.p.ext, w.ExtResidues(second, c), q);
      CongMod(w.Part(second)[c], q);
    }
    TransformCong(w.p, w.ConvertedPart(second, i), w.Part(second), i);
    TransformLength(w.p, w.Part(second), i);
  }

  /** Before P is cancelled: limb i, slot j. */
  lemma SwitchedTimesP(w: Switch, size: nat, i: nat, j: nat)
    requires w.Valid() && Partition(w.Sets(), w.p.level, size) && i < w.p.level && j < w.p.n
    ensures w.p.Used(i) && i < |w.p.moduli| && w.p.moduli[i] > 1 && |w.x| == w.p.level && |w.x[i]| == w.p.n
    ensures var p, s := w.p.ext.Total(), OldKeySlot(w, i, j);
      Cong(p * (w.Switched(false, i)[j] + w.Switched(true, i)[j] * s),
           p * (w.x[i][j] * NewKeySlot(w, i, j)) + RemainderSlot(w, i, j), w.p.moduli[i])
  {
    hide *;
    LimbIn(w, i, j);
    PValid(w);
    ParamsAt(w.p, i);
    SlotFor(w, i, j, w.x[i][j]);
    SlotIs(w, i, j);
    PartTransformed(w, false, i, j);
    PartTransformed(w, true, i, j);
    RemainderRight(w, i, j);
    var r, q, s, t := SlotOf(w, i, j), w.p.moduli[i], OldKeySlot(w, i, j), NewKeySlot(w, i, j);
    KeySwitchIdentity(r, w.Sets(), w.p.level, size, i, w.x[i][j], s, t, w.p.ext.Total(), w.p.inverses[i], q,
                      PartSlot(w, false, i, j), PartSlot(w, true, i, j));
    ReplaceRest(w.p.ext.Total() * (w.Switched(false, i)[j] + w.Switched(true, i)[j] * s), w.p.ext.Total() * (w.x[i][j] * t),
                Dot(r.ys, r.es, |w.digits|), PartSlot(w, false, i, j) + PartSlot(w, true, i, j) * s, RemainderSlot(w, i, j), q);
  }

  lemma ReplaceRest(left: int, main: int, dot: int, parts: int, rest: int, q: int)
    requires q > 0 && Cong(left, main + dot - parts, q) && Cong(rest, dot - parts, q)
    ensures Cong(left, main + rest, q)
  {
    CongAdd(main, main, rest, dot - parts, q);
  }

  /** The error: what is left of the noise after the division by P. */
  ghost function ErrorOf(w: Switch): (e: Poly)
    requires w.Valid()
    ensures |e| == w.p.n
  {
    PositiveTotal(w);
    Quotients(w.Remainder(), w.p.ext.Total())
  }

  lemma PositiveTotal(w: Switch)
    requires w.Valid()
    ensures w.p.ext.Total() > 0
  {
    PValid(w);
    ExtValid(w.p);
    hide Switch.Valid, Params.Valid;
    BaseProductPositive(w.p.ext.primes);
  }

  lemma ExtValid(p: Params)
    requires p.Valid()
    ensures p.ext.Valid()
  {
  }

  /** The division by P leaves nothing over. */
  lemma ErrorTimesP(w: Switch, c: nat)
    requires w.Valid() && Disjoint(w.Sets()) && c < w.p.n
    ensures w.p.ext.Total() * ErrorOf(w)[c] == w.Remainder()[c]
  {
    RemainderDivides(w, c);
    hide Switch.Valid, Switch.Remainder, RnsBase.Total, Disjoint;
    ExactQuotient(w.Remainder()[c], w.p.ext.Total());
  }

  lemma ExactQuotient(x: int, p: int)
    requires p > 0 && Cong(x, 0, p)
    ensures p * (x / p) == x
  {
    SmallMod(0, p);
  }

  ghost function ErrorSlot(w: Switch, id: nat, j: nat): int
    requires w.Valid() && w.p.Used(id) && j < w.p.n
  {
    ParamsAt(w.p, id);
    TransformLength(w.p, ErrorOf(w), id);
    w.p.Transform(ErrorOf(w), id)[j]
  }

  lemma RemainderIsError(w: Switch, id: nat, j: nat)
    requires w.Valid() && Disjoint(w.Sets()) && w.p.Used(id) && j < w.p.n
    ensures id < |w.p.moduli| && w.p.moduli[id] > 1
    ensures Cong(RemainderSlot(w, id, j), w.p.ext.Total() * ErrorSlot(w, id, j), w.p.moduli[id])
  {
    hide *;
    PValid(w);
    ParamsAt(w.p, id);
    SlotsAre(w, id, j);
    ErrorAt(w, id, j);
    var total := w.p.ext.Total();
    forall c: nat | c < w.p.n
      ensures total * ErrorOf(w)[c] == w.Remainder()[c]
    {
      ErrorTimesP(w, c);
    }
    ScaledIs(w.Remainder(), total, ErrorOf(w));
    ZerosLength(w.p.n);
    TransformCombined(w.p, Zeros(w.p.n), total, ErrorOf(w), id, j);
    TransformZeros(w.p, id, j);
  }

  lemma ZerosLength(n: nat)
    ensures |Zeros(n)| == n
  {
  }

  lemma ErrorAt(w: Switch, id: nat, j: nat)
    requires w.Valid() && w.p.Used(id) && j < w.p.n
    ensures id < |w.p.moduli| && |w.p.roots| == |w.p.moduli| && w.p.moduli[id] > 1
    ensures |w.p.Transform(ErrorOf(w), id)| == w.p.n && ErrorSlot(w, id, j) == w.p.Transform(ErrorOf(w), id)[j]
  {
    ParamsAt(w.p, id);
    TransformLength(w.p, ErrorOf(w), id);
    hide Switch.Valid, Params.Valid, Params.Transform, ErrorOf;
  }

  lemma ScaledIs(v: Poly, p: int, e: Poly)
    requires |v| == |e| && forall c: nat :: c < |v| ==> p * e[c] == v[c]
    ensures |Zeros(|e|)| == |e| && Combined(Zeros(|e|), p, e) == v
  {
    forall c: nat | c < |v|
      ensures Combined(Zeros(|e|), p, e)[c] == v[c]
    {
    }
  }

  /** The key switch: in every limb below the level, and with one integer polynomial as the error of all of them, what
      decrypts under s is x times the new key. The error is what P leaves of the weighted noise less R0 + R1 * s. */
  lemma KeySwitchRight(w: Switch, size: nat, i: nat, j: nat)
    requires w.Valid() && Partition(w.Sets(), w.p.level, size) && i < w.p.level && j < w.p.n
    ensures w.p.Used(i) && i < |w.p.moduli| && w.p.moduli[i] > 1 && |w.x| == w.p.level && |w.x[i]| == w.p.n
    ensures Cong(w.Switched(false, i)[j] + w.Switched(true, i)[j] * OldKeySlot(w, i, j),
                 w.x[i][j] * NewKeySlot(w, i, j) + ErrorSlot(w, i, j), w.p.moduli[i])
  {
    hide *;
    SwitchedTimesP(w, size, i, j);
    PartitionDisjoint(w.Sets(), w.p.level, size);
    RemainderIsError(w, i, j);
    PValid(w);
    ParamsAt(w.p, i);
    var k := w.Switched(false, i)[j] + w.Switched(true, i)[j] * OldKeySlot(w, i, j);
    CancelP(k, w.x[i][j] * NewKeySlot(w, i, j), RemainderSlot(w, i, j), ErrorSlot(w, i, j), w.p.ext.Total(), w.p.inverses[i], w.p.moduli[i]);
  }

  lemma PartitionDisjoint(sets: seq<set<nat>>, level: nat, size: nat)
    requires Partition(sets, level, size)
    ensures Disjoint(sets)
  {
  }

  lemma CancelP(k: int, main: int, rest: int, e: int, p: int, inverse: int, q: int)
    requires q > 1 && IsInverse(p, inverse, q) && Cong(p * k, p * main + rest, q) && Cong(rest, p * e, q)
    ensures Cong(k, main + e, q)
  {
    CongAdd(p * main, p * main, rest, p * e, q);
    assert p * main + p * e == p * (main + e);
    CongMul(inverse, inverse, p * k, p * (main + e), q);
    Undo(k, p, inverse, q);
    Undo(main + e, p, inverse, q);
  }

  lemma Undo(x: int, p: int, inverse: int, q: int)
    requires q > 1 && IsInverse(p, inverse, q)
    ensures Cong(inverse * (p * x), x, q)
  {
    SmallMod(1, q);
    CongMul(p * inverse, 1, x, x, q);
    assert inverse * (p * x) == (p * inverse) * x by {
      Associate(inverse, p, x);
    }
  }

  // ----- sizes

  /** A subtracted part is the value of the extension residues and a multiple of P. */
  lemma PartExceeds(w: Switch, second: bool, c: nat) returns (v: int, u: nat)
    requires w.Valid() && c < w.p.n
    ensures w.p.ext.Valid() && Resolved(v, w.ExtResidues(second, c), w.p.ext)
    ensures w.Part(second)[c] == v + u * w.p.ext.Total() && u <= Sum(LessOne(w.p.ext), w.p.ext.Size())
    ensures w.p.ext.Size() == 1 ==> u == 0
  {
    PValid(w);
    ExtValid(w.p);
    ExtReduced(w, second, c);
    hide Switch.Valid, Params.Valid, Lift, Switch.ExtResidues;
    v := ResolvedValue(w.p.ext, w.ExtResidues(second, c));
    u := LiftExceeds(w.p.ext, w.ExtResidues(second, c), v);
  }

  lemma ResolvedValue(b: RnsBase, residues: seq<int>) returns (v: int)
    requires b.Valid() && |residues| == b.Size()
    ensures Resolved(v, residues, b)
  {
    var order := seq(b.Size(), k => k);
    forall k: nat | k < b.Size()
      ensures k in order
    {
      assert order[k] == k;
    }
    ResolveAnyOrder(b, order, residues);
    v := Accumulated(b, order, residues);
  }

  lemma ExtReduced(w: Switch, second: bool, c: nat)
    requires w.Valid() && c < w.p.n
    ensures Reduced(w.ExtResidues(second, c), w.p.ext)
  {
    PValid(w);
    hide Switch.Valid, Params.Valid, Switch.Accumulated;
    forall k: nat | k < w.p.ext.Size()
      ensures 0 <= w.ExtResidues(second, c)[k] < w.p.ext.primes[k]
    {
      ExtAt(w.p, k);
      ParamsAt(w.p, w.p.ExtId(k));
      CoefficientsReduced(w.p, w.Accumulated(second, w.p.ExtId(k)), w.p.ExtId(k), c);
    }
  }

  lemma CoefficientsReduced(p: Params, y: seq<int>, id: nat, c: nat)
    requires id < |p.moduli| && |p.roots| == |p.moduli| && p.moduli[id] > 0 && c < |y|
    ensures |p.Coefficients(y, id)| == |y| && 0 <= p.Coefficients(y, id)[c] < p.moduli[id]
  {
  }
}

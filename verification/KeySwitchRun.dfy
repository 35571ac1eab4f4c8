/** The operations behind a key switch, run on limbs: the key of a digit, and the division of an accumulator by P. */
module KeySwitchRun {
  import opened WordArithmetic
  import opened Congruence
  import opened NttKernel
  import opened Rns
  import opened Rescale
  import opened KeySwitch
  import opened KeySwitchLimbs

  /** The generated key of a digit is one that the key switch needs. */
  method MakeDigit(p: Params, ids: seq<nat>, base: RnsBase, oldKey: Limbs, newKey: seq<seq<Element>>, c1: Limbs, noise: Limbs,
                   ghost s: Poly, ghost t: Poly, ghost e: Poly) returns (d: Digit)
    requires p.Valid() && Moduli(p.moduli) && DigitFor(p, Digit(ids, base, c1, c1))
    requires LimbsAre(p, oldKey, s) && LimbsAre(p, noise, e) && |t| == p.n
    requires p.ext.Size() <= |p.moduli| && HasLimbs(c1, KeyIds(p.level, p.ext.Size(), |p.moduli|), p.n)
    requires |newKey| == |ids| && forall k: nat :: k < |ids| ==> NewLimb(p, ids[k], newKey[k], t)
    ensures d.ids == ids && d.base == base && d.c1 == c1 && DigitFor(p, d) && KeyFor(p, d, s, t, e)
  {
    LevelFits(p);
    KeyLimbsFit(p, oldKey, noise, s, e);
    var c0 := GenerateEvalKey(oldKey, newKey, c1, noise, p.level, p.ext.Size(), ids, p.moduli, p.n);
    d := Digit(ids, base, c0, c1);
    hide KeyLimb;
    GeneratedKey(p, d, oldKey, newKey, noise, s, t, e);
  }

  ghost predicate NewLimb(p: Params, id: nat, limb: seq<Element>, t: Poly)
  {
    && id < |p.moduli| && |p.roots| == |p.moduli| && p.moduli[id] > 0 && |limb| == p.n
    && limb == p.Transform(t, id)
  }

  lemma KeyIdUsed(p: Params, t: nat)
    requires p.Valid() && t < p.level + p.ext.Size()
    ensures p.ext.Size() <= |p.moduli| && p.Used(KeyIds(p.level, p.ext.Size(), |p.moduli|)[t])
  {
  }

  lemma UsedKeyId(p: Params, id: nat) returns (t: nat)
    requires p.Valid() && p.Used(id)
    ensures p.ext.Size() <= |p.moduli| && t < p.level + p.ext.Size() && KeyIds(p.level, p.ext.Size(), |p.moduli|)[t] == id
  {
    t := if id < p.level then id else p.level + (|p.moduli| - 1 - id);
  }

  /** Transforms are limbs that the generator takes. */
  lemma KeyLimbsFit(p: Params, oldKey: Limbs, noise: Limbs, s: Poly, e: Poly)
    requires p.Valid() && LimbsAre(p, oldKey, s) && LimbsAre(p, noise, e)
    ensures p.ext.Size() <= |p.moduli| && LimbsReduced(noise, KeyIds(p.level, p.ext.Size(), |p.moduli|), p.moduli, p.n)
    ensures HasLimbs(oldKey, KeyIds(p.level, p.ext.Size(), |p.moduli|), p.n)
  {
    ExtFits(p);
    var ids := KeyIds(p.level, p.ext.Size(), |p.moduli|);
    forall t: nat | t < |ids|
      ensures LimbReduced(noise, ids[t], p.moduli, p.n) && ids[t] in oldKey && |oldKey[ids[t]]| == p.n
    {
      KeyIdUsed(p, t);
      ParamsAt(p, ids[t]);
      hide Params.Valid, Params.Transform, Params.Used;
      KeyLimbFits(p, noise, e, ids[t]);
      KeyLimbFits(p, oldKey, s, ids[t]);
    }
  }

  lemma ExtFits(p: Params)
    requires p.Valid()
    ensures p.ext.Size() <= |p.moduli|
  {
  }

  lemma KeyLimbFits(p: Params, limbs: Limbs, a: Poly, id: nat)
    requires p.Valid() && LimbsAre(p, limbs, a) && p.Used(id)
    ensures LimbReduced(limbs, id, p.moduli, p.n)
  {
    ParamsAt(p, id);
    hide Params.Valid, Params.Used;
    forall j: nat | j < p.n
      ensures |limbs[id]| == p.n && limbs[id][j] < p.moduli[id]
    {
      ForwardAt(a, p.roots[id].psi, p.moduli[id], j);
    }
    TransformLength(p, a, id);
  }

  lemma GeneratedKey(p: Params, d: Digit, oldKey: Limbs, newKey: seq<seq<Element>>, noise: Limbs, s: Poly, t: Poly, e: Poly)
    requires p.Valid() && p.ext.Size() <= |p.moduli| && DigitFor(p, Digit(d.ids, d.base, d.c1, d.c1))
    requires LimbsAre(p, oldKey, s) && LimbsAre(p, noise, e) && |t| == p.n
    requires |newKey| == |d.ids| && forall k: nat :: k < |d.ids| ==> NewLimb(p, d.ids[k], newKey[k], t)
    requires forall k: nat :: k < |d.ids| ==>
      KeyLimb(d.c0, d.c1, oldKey, noise, d.ids[k], p.n, BaseProduct(ExtensionModuli(p.moduli, p.ext.Size())), newKey[k], true, p.moduli[d.ids[k]])
    requires forall k: nat :: k < p.level + p.ext.Size() && KeyIds(p.level, p.ext.Size(), |p.moduli|)[k] !in d.ids ==>
      var id := KeyIds(p.level, p.ext.Size(), |p.moduli|)[k];
      KeyLimb(d.c0, d.c1, oldKey, noise, id, p.n, BaseProduct(ExtensionModuli(p.moduli, p.ext.Size())), [], false, p.moduli[id])
    ensures DigitFor(p, d) && KeyFor(p, d, s, t, e)
  {
    hide KeyLimb, KeyAt;
    forall id: nat, j: nat | p.Used(id) && j < p.n
      ensures KeyAt(p, d, s, t, e, id, j)
    {
      ParamsAt(p, id);
      assert p.ext.Total() == BaseProduct(ExtensionModuli(p.moduli, p.ext.Size()));
      if id in d.ids {
        var k: nat :| k < |d.ids| && d.ids[k] == id;
        assert NewLimb(p, id, newKey[k], t);
        GeneratedAt(p, d, oldKey, noise, s, t, e, id, j, newKey[k]);
      } else {
        var k := UsedKeyId(p, id);
        GeneratedAt(p, d, oldKey, noise, s, t, e, id, j, []);
      }
    }
  }

  lemma GeneratedAt(p: Params, d: Digit, oldKey: Limbs, noise: Limbs, s: Poly, t: Poly, e: Poly, id: nat, j: nat, target: seq<int>)
    requires p.Valid() && p.Used(id) && j < p.n && LimbsAre(p, oldKey, s) && LimbsAre(p, noise, e) && |t| == p.n
    requires id < |p.moduli| && |p.roots| == |p.moduli| && p.moduli[id] > 0
    requires KeyLimb(d.c0, d.c1, oldKey, noise, id, p.n, p.ext.Total(), target, id in d.ids, p.moduli[id])
    requires id in d.ids ==> target == p.Transform(t, id)
    ensures KeyAt(p, d, s, t, e, id, j)
  {
    assert oldKey[id] == p.Transform(s, id) && noise[id] == p.Transform(e, id);
    TransformLength(p, t, id);
    hide Params.Valid, Params.Used, Params.Transform, LimbsAre;
    assert KeySlot(d.c0[id][j], d.c1[id][j], oldKey[id][j], noise[id][j], p.ext.Total(), if id in d.ids then target[j] else 0, id in d.ids,
                   p.moduli[id]);
  }

  // ----- the division by P

  /** Any two inverses divide alike. */
  lemma InversesDivideAlike(x: int, r: int, p: int, u: int, v: int, q: int)
    requires q > 1 && IsInverse(p, u, q) && IsInverse(p, v, q)
    ensures DividedSlot(x, r, u, q) == DividedSlot(x, r, v, q)
  {
    var d := (x - r) % q;
    SmallMod(1, q);
    CongMul(v, v, p * u, 1, q);
    CongMul(u, u, p * v, 1, q);
    assert v * (p * u) == u * (p * v) by {
      Associate(v, p, u);
      Associate(u, p, v);
    }
    assert Cong(u, v, q);
    CongMul(d, d, u, v, q);
  }

  /** Dividing an accumulator by P gives the limb of the key switch. */
  method DivideLimb(ghost w: Switch, ghost second: bool, i: nat, acc: seq<int>, converted: seq<int>, q: Word, b: RnsBase, psi: int)
      returns (result: Outcome)
    requires w.Valid() && i < w.p.level <= |w.p.moduli| == |w.p.roots| && w.p.Used(i)
    requires q == w.p.moduli[i] && 1 < q < HALF_WORD && b == w.p.ext && b.Valid() && psi == w.p.roots[i].psi
    requires acc == w.Accumulated(second, i) && converted == w.ConvertedPart(second, i)
    ensures result == Done(w.Switched(second, i))
  {
    ghost var inverse;
    hide *;
    result, inverse := SubtractAndDivide(acc, converted, q, b, psi);
    DivisionPossible(w, i);
    forall j: nat | j < w.p.n && result.Done?
      ensures result.limb[j] == w.Switched(second, i)[j]
    {
      SwitchedAt(w, second, i, j);
      InversesDivideAlike(acc[j], w.p.Transform(converted, i)[j], b.Total(), inverse, w.p.inverses[i], q);
      TransformIs(w.p, converted, i);
    }
  }

  lemma TransformIs(p: Params, a: Poly, id: nat)
    requires id < |p.moduli| && |p.roots| == |p.moduli| && p.moduli[id] > 0
    ensures p.Transform(a, id) == Forward(a, p.roots[id].psi, p.moduli[id])
  {
  }

  lemma DivisionPossible(w: Switch, i: nat)
    requires w.Valid() && i < w.p.level
    ensures i < |w.p.moduli| && w.p.moduli[i] > 1 && exists x :: IsInverse(w.p.ext.Total() % w.p.moduli[i], x, w.p.moduli[i])
  {
    PValid(w);
    ParamsAt(w.p, i);
    var p, x, q := w.p.ext.Total(), w.p.inverses[i], w.p.moduli[i];
    hide Switch.Valid, Params.Valid;
    CongMod(p, q);
    CongMul(p % q, p, x, x, q);
    assert IsInverse(p % q, x, q);
  }

  lemma SwitchedAt(w: Switch, second: bool, i: nat, j: nat)
    requires w.Valid() && i < w.p.level && j < w.p.n
    ensures w.p.Used(i) && i < |w.p.moduli| == |w.p.roots| && w.p.moduli[i] > 1 && |w.p.inverses| == w.p.level
    ensures IsInverse(w.p.ext.Total(), w.p.inverses[i], w.p.moduli[i]) && |w.p.Transform(w.ConvertedPart(second, i), i)| == w.p.n
    ensures w.Switched(second, i)[j] == DividedSlot(w.Accumulated(second, i)[j], w.p.Transform(w.ConvertedPart(second, i), i)[j], w.p.inverses[i],
                                                    w.p.moduli[i])
  {
    PValid(w);
    ParamsAt(w.p, i);
    TransformLength(w.p, w.ConvertedPart(second, i), i);
    hide Switch.Valid, Params.Valid, Params.Transform, Switch.Accumulated, Switch.ConvertedPart;
  }
}

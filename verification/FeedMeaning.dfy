/** What a feeding instruction adds to which accumulators, in terms of what the tables held before it. */
module FeedMeaning {
  import opened Congruence
  import opened WordArithmetic
  import opened NttKernel
  import opened HandleMachine
  import opened OperandMeaning
  import opened HandleSteps
  import opened PayloadMeaning
  import Conv = ConversionAgreement
  import opened BaseConverters
  import FourStepStages

  /** Position pos is the last of the id among the sources. */
  ghost predicate LastSource(sources: seq<nat>, id: nat, pos: nat)
  {
    pos < |sources| && sources[pos] == id && forall k: nat :: pos < k < |sources| ==> sources[k] != id
  }

  lemma {:induction false} SourceIs(sources: seq<nat>, id: nat)
    ensures var p := SourcePosition(sources, id);
      if p < |sources| then LastSource(sources, id, p) else forall k: nat :: k < |sources| ==> sources[k] != id
  {
    if |sources| > 0 && sources[|sources| - 1] != id {
      SourceIs(sources[..|sources| - 1], id);
    }
  }

  /** The coefficients that an instruction feeds: those of the operand s, or its inverse transform where the operand comes
      in transform form and the instruction is one that takes it back. */
  ghost predicate Feeds(c: Config, i: Inst, s: Poly, x: seq<int>)
  {
    if i.op == Pl1 && s.ntt then exists q: Word, row: nat, rs: seq<int> :: TakenBack(c, i.rns, s, q, row, rs, x)
    else x == s.coeffs
  }

  ghost predicate TakenBack(c: Config, id: nat, s: Poly, q: Word, row: nat, rs: seq<int>, x: seq<int>)
  {
    && HasModulus(c, id, q) && FirstRow(c, id, row) && |rs| == |s.coeffs| && (forall k: nat :: k < |rs| ==> rs[k] == s.coeffs[k] % q)
    && x == Backward(rs, c.moduli[row].roots.psiInv, c.moduli[row].roots.omegaInv, q)
  }

  /** One accumulator: opened at 0 for its base if need be, it has gained x times the factor of its target and the source. */
  ghost predicate Gained(c: Config, e: BciEntry, pos: nat, index: nat, x: seq<int>, was: Option<Poly>, now: Option<Poly>)
  {
    && index < |e.targets| && |x| == c.n && pos * |e.targets| + index >= 0 && pos * |e.targets| + index < |e.factors|
    && now.Some? && now.value.base == e.targets[index] && |now.value.coeffs| == c.n
    && (was.Some? ==> was.value.base == e.targets[index] && now.value.ntt == was.value.ntt && |was.value.coeffs| == c.n)
    && (was.None? ==> !now.value.ntt)
    && exists q: Word :: HasModulus(c, e.targets[index], q) && forall k: nat :: k < c.n ==>
         SlotGained(now.value.coeffs[k], if was.Some? then was.value.coeffs[k] else 0, x[k], e.factors[pos * |e.targets| + index], q)
  }

  ghost predicate SlotGained(now: int, was: int, x: int, factor: int, q: int)
  {
    0 <= now < q && Cong(now, was + x * factor, q)
  }

  lemma StreamMeans(acc: int, x: int, factor: Word, q: Word)
    requires 0 < q < HALF_WORD
    ensures SlotGained(StreamSlot(acc, x, factor % q, q), acc, x, factor, q)
  {
    hide ModAdd, ModMul;
    CongMod(acc, q);
    CongMod(x, q);
    CongMod(factor, q);
    CongMod(acc % q, q);
    CongMod(x % q, q);
    CongMod(factor % q, q);
    var product := ModMul(x % q % q, factor % q % q, q);
    ModMulCorrect(x % q % q, factor % q % q, q);
    CongMul(x % q % q, x, factor % q % q, factor, q);
    CongMod((x % q % q) * (factor % q % q), q);
    ModAddRange(q);
    CongAdd(acc % q % q, acc, product, x * factor, q);
    CongMod(acc % q % q + product, q);
  }

  lemma FedGained(c: Config, f: Feed<Poly>, index: nat, was: Option<Poly>, now: Option<Poly>)
    requires c.Valid() && f.entry in c.entries && f.pos < |f.entry.sources| && Conv.Fed(c, f, index, was, now)
    ensures Gained(c, f.entry, f.pos, index, f.src.coeffs, was, now)
  {
    hide Config.Valid, HasModulus, StreamSlot, SlotGained, Config.Modulus;
    var base, q := f.entry.targets[index], c.Modulus(f.entry.targets[index]);
    ModulusIs(c, base);
    HalfModulus(c, base, q);
    FactorThere(c, f.entry, f.pos, index);
    forall k: nat | k < c.n
      ensures SlotGained(now.value.coeffs[k], if was.Some? then was.value.coeffs[k] else 0, f.src.coeffs[k],
                         f.entry.factors[f.pos * |f.entry.targets| + index], q)
    {
      StreamMeans(if was.Some? then was.value.coeffs[k] else 0, f.src.coeffs[k], f.entry.factors[f.pos * |f.entry.targets| + index], q);
    }
  }

  lemma FactorThere(c: Config, e: BciEntry, pos: nat, index: nat)
    requires c.Valid() && e in c.entries && pos < |e.sources| && index < |e.targets|
    ensures 0 <= pos * |e.targets| + index < |e.factors| && FactorAt(e, pos, index) == e.factors[pos * |e.targets| + index]
  {
    FourStepStages.FlatIndex(pos, index, |e.sources|, |e.targets|);
    EntryFits(c, e);
  }

  lemma EntryFits(c: Config, e: BciEntry)
    requires c.Valid() && e in c.entries
    ensures |e.factors| == |e.sources| * |e.targets|
  {
  }

  /** Accumulators beyond the targets of the configuration stay as they are. */
  lemma {:induction false} BeyondKept(c: Config, a: Abstract, f: Feed<Poly>, index: nat)
    requires TablesOk(c, a.tables) && f.unit < c.units && index <= |f.entry.targets| && index <= c.width
    requires PolysOk(c, a.tables) && |f.src.coeffs| == c.n && AbstractFeedFrom(c, a, f, index).1.Fine?
    ensures var t := AbstractFeedFrom(c, a, f, index).0.tables;
      |t.bcu| == |a.tables.bcu| && |t.bcu[f.unit]| == |a.tables.bcu[f.unit]|
      && forall x: nat :: |f.entry.targets| <= x < |a.tables.bcu[f.unit]| ==> t.bcu[f.unit][x] == a.tables.bcu[f.unit][x]
    decreases |f.entry.targets| - index
  {
    if index < |f.entry.targets| {
      var base, q := f.entry.targets[index], c.Modulus(f.entry.targets[index]);
      assert PolyOk(c, a.tables.bcu[f.unit][index]);
      var (open, verdict) := AbstractOpened(c, a, f.unit, index, base);
      var p := open.tables.bcu[f.unit][index].value;
      var sum := HandleMachine.Accumulated(p.coeffs, f.src.coeffs, FactorAt(f.entry, f.pos, index) % q, q);
      var next := open.(tables := SetAccumulator(open.tables, f.unit, index, p.(coeffs := sum)));
      Conv.FedHere(c, f, index, a, next);
      hide PolysOk;
      Conv.NextOk(c, a, next, f.unit, index);
      BeyondKept(c, next, f, index + 1);
    }
  }

  /** What a feed plan reads. */
  lemma PlanMeans(c: Config, t: Tables<Poly>, i: Inst) returns (e: nat)
    requires TablesOk(c, t) && PlanFeed(c, t, i).Got?
    ensures var f := PlanFeed(c, t, i).value;
      && NamesUnit(i.dst, f.unit) && f.unit < |t.active| && t.active[f.unit] != 0 && Configures(c, t.active[f.unit], f.unit, e)
      && f.entry == c.entries[e] && LastSource(f.entry.sources, i.rns, f.pos) && Names(c, t, i.src0, i.imm0, i.aux, false, f.src)
  {
    hide Resolve, Names, BcuUnit, NamesUnit, SourcePosition, Config.EntryFrom, LastSource;
    var unit := BcuUnit(i.dst);
    UnitBits(i.dst);
    e := c.EntryFrom(t.active[unit], 0);
    EntryIs(c, t.active[unit], 0);
    ResolveNames(c, t, i, false, false);
    SourceIs(c.entries[e].sources, i.rns);
  }

  lemma TakesBack(c: Config, id: nat, s: Poly)
    requires c.Modulus(id) > 0
    ensures exists q: Word, row: nat, rs: seq<int> :: TakenBack(c, id, s, q, row, rs, BackToCoefficients(c, id, s.coeffs))
  {
    hide Backward;
    ModulusIs(c, id);
    assert TakenBack(c, id, s, c.Modulus(id), c.RowFrom(id, 0), Reduced(s.coeffs, c.Modulus(id)), BackToCoefficients(c, id, s.coeffs));
  }

  /** The effect of a feeding instruction on the tables. */
  ghost predicate Fed(c: Config, before: Tables<Poly>, after: Tables<Poly>, unit: nat, e: BciEntry, pos: nat, x: seq<int>)
  {
    && after.regs == before.regs && after.tokens == before.tokens && after.outputs == before.outputs && after.active == before.active
    && |after.bcu| == |before.bcu| && unit < |before.bcu| && (forall u: nat :: u < |before.bcu| && u != unit ==> after.bcu[u] == before.bcu[u])
    && |e.targets| <= |after.bcu[unit]| == |before.bcu[unit]|
    && (forall k: nat :: k < |e.targets| ==> Gained(c, e, pos, k, x, before.bcu[unit][k], after.bcu[unit][k]))
    && forall k: nat :: |e.targets| <= k < |before.bcu[unit]| ==> after.bcu[unit][k] == before.bcu[unit][k]
  }

  /** A feeding instruction that succeeds reads s where its operand names it, finds its base as source number pos of the
      configuration that the unit of its destination runs, and adds s times the factors of that source to the accumulators
      of all targets; all else stays. */
  lemma FeedMeans(c: Config, a: Abstract, i: Inst) returns (s: Poly, x: seq<int>, unit: nat, e: nat, pos: nat)
    requires c.Valid() && TablesOk(c, a.tables) && PolysOk(c, a.tables) && i.op in {Pl1, Bcw}
    requires AbstractStep(c, BaseConversion, a, i).1.Fine?
    ensures Names(c, a.tables, i.src0, i.imm0, i.aux, false, s) && Feeds(c, i, s, x)
    ensures NamesUnit(i.dst, unit) && unit < |a.tables.active| && a.tables.active[unit] != 0 && Configures(c, a.tables.active[unit], unit, e)
    ensures LastSource(c.entries[e].sources, i.rns, pos)
    ensures Fed(c, a.tables, AbstractStep(c, BaseConversion, a, i).0.tables, unit, c.entries[e], pos, x)
  {
    hide *;
    var from, f := FeedForm(c, a, i);
    e := PlanMeans(c, a.tables, i);
    s, x, unit, pos := PlanFeed(c, a.tables, i).value.src, f.src.coeffs, f.unit, f.pos;
    FromPlan(c, from, f);
  }

  /** The step is a walk over the targets, from the plan with the operand as coefficients. */
  lemma FeedForm(c: Config, a: Abstract, i: Inst) returns (from: Abstract, f: Feed<Poly>)
    requires c.Valid() && TablesOk(c, a.tables) && PolysOk(c, a.tables) && i.op in {Pl1, Bcw}
    requires AbstractStep(c, BaseConversion, a, i).1.Fine?
    ensures PlanFeed(c, a.tables, i).Got? && from.tables == a.tables && f.unit < c.units && |f.src.coeffs| == c.n
    ensures var g := PlanFeed(c, a.tables, i).value;
      f.unit == g.unit && f.entry == g.entry && f.pos == g.pos && f.pos < |f.entry.sources| && f.entry in c.entries && Feeds(c, i, g.src, f.src.coeffs)
    ensures AbstractStep(c, BaseConversion, a, i) == AbstractFeedFrom(c, from, f, 0)
  {
    hide Config.Valid, TablesOk, PolysOk, AbstractFeedFrom, PlanFeed, MemoryStep, BciStep, AbstractCompute, BackToCoefficients, TakenBack,
         Config.Modulus;
    ResolveOk(c, a.tables, i, false, false);
    PlanSource(c, a.tables, i);
    f := PlanFeed(c, a.tables, i).value;
    if i.op == Pl1 && f.src.ntt {
      TakesBack(c, i.rns, f.src);
      from, f := a.(room := a.room - 1), f.(src := Poly(i.rns, false, BackToCoefficients(c, i.rns, f.src.coeffs)));
    } else {
      from := a;
    }
  }

  lemma PlanSource(c: Config, t: Tables<Poly>, i: Inst)
    requires TablesOk(c, t)
    ensures PlanFeed(c, t, i).Got? ==>
      var f := PlanFeed(c, t, i).value;
      Resolve(c, t, i, false, false) == Got(f.src) && f.pos < |f.entry.sources| && f.unit < c.units && f.entry in c.entries
  {
    hide Resolve, SourcePosition, Config.EntryFrom;
  }

  lemma FromPlan(c: Config, a: Abstract, f: Feed<Poly>)
    requires c.Valid() && TablesOk(c, a.tables) && PolysOk(c, a.tables) && f.unit < c.units && |f.src.coeffs| == c.n
    requires f.entry in c.entries && f.pos < |f.entry.sources| && AbstractFeedFrom(c, a, f, 0).1.Fine?
    ensures Fed(c, a.tables, AbstractFeedFrom(c, a, f, 0).0.tables, f.unit, f.entry, f.pos, f.src.coeffs)
  {
    hide Config.Valid, PolysOk, AbstractFeedFrom, Gained, Conv.Fed;
    Conv.FeedEffect(c, a, f, 0);
    BeyondKept(c, a, f, 0);
    var t := AbstractFeedFrom(c, a, f, 0).0.tables;
    forall k: nat | k < |f.entry.targets|
      ensures Gained(c, f.entry, f.pos, k, f.src.coeffs, a.tables.bcu[f.unit][k], t.bcu[f.unit][k])
    {
      assert Conv.Fed(c, f, k, a.tables.bcu[f.unit][k], t.bcu[f.unit][k]);
      FedGained(c, f, k, a.tables.bcu[f.unit][k], t.bcu[f.unit][k]);
    }
  }
}

/** The accumulators that an instruction stream builds up hold what a batch conversion delivers, whatever else the stream
    does to other units in between. */
module ConversionAgreement {
  import opened Congruence
  import opened WordArithmetic
  import opened Rns
  import opened BaseConversion
  import opened BaseConverters
  import opened HandleMachine
  import opened HandleSteps
  import opened HandleRefinement

  // ----- folding sources into one accumulator

  /** An accumulator after the sources of `order` have been folded into it, from zero. */
  function Folded(n: nat, xs: seq<seq<int>>, factors: seq<Word>, q: Word, order: seq<nat>): (r: seq<int>)
    requires q > 0 && |xs| == |factors| && forall t: nat :: t < |order| ==> order[t] < |xs|
    requires forall k: nat :: k < |xs| ==> |xs[k]| == n
    ensures |r| == n
  {
    if |order| == 0 then seq(n, k => 0)
    else
      var last := order[|order| - 1];
      HandleMachine.Accumulated(Folded(n, xs, factors, q, order[..|order| - 1]), xs[last], factors[last], q)
  }

  /** Coefficient k of every source. */
  function Slot(xs: seq<seq<int>>, k: nat): seq<int>
    requires forall j: nat :: j < |xs| ==> k < |xs[j]|
  {
    seq(|xs|, j requires 0 <= j < |xs| => xs[j][k])
  }

  function ReducedSlot(xs: seq<seq<int>>, k: nat, q: Word): (r: seq<Word>)
    requires q > 0 && forall j: nat :: j < |xs| ==> k < |xs[j]|
    ensures |r| == |xs|
  {
    seq(|xs|, j requires 0 <= j < |xs| => WordOf(xs[j][k], q))
  }

  function WordOf(x: int, q: Word): (r: Word)
    requires q > 0
  {
    var r := x % q;
    assert 0 <= r < q;
    r
  }

  lemma {:induction false} FoldedSlot(n: nat, xs: seq<seq<int>>, factors: seq<Word>, q: Word, order: seq<nat>, k: nat)
    requires q > 0 && |xs| == |factors| && k < n && forall t: nat :: t < |order| ==> order[t] < |xs|
    requires forall j: nat :: j < |xs| ==> |xs[j]| == n
    ensures Folded(n, xs, factors, q, order)[k] == Streamed(ReducedSlot(xs, k, q), factors, q, order)
  {
    if |order| > 0 {
      var last := order[|order| - 1];
      FoldedSlot(n, xs, factors, q, order[..|order| - 1], k);
      var acc := Streamed(ReducedSlot(xs, k, q), factors, q, order[..|order| - 1]);
      SlotReduced(acc, xs[last][k], factors[last], q);
      hide StreamSlot, StreamIn;
    }
  }

  lemma SlotReduced(acc: Word, x: int, factor: Word, q: Word)
    requires q > 0
    ensures StreamSlot(acc, x, factor, q) == StreamIn(acc, WordOf(x, q), factor, q)
  {
    SmallMod(acc % q, q);
  }

  /** Reducing the residues first changes no target residue. */
  lemma TargetReduced(b: RnsBase, xs: seq<seq<int>>, k: nat, q: Word)
    requires q > 0 && |xs| == b.Size() == |b.inverses| && forall j: nat :: j < |xs| ==> k < |xs[j]|
    ensures Target(b, ReducedSlot(xs, k, q), q) == Target(b, Slot(xs, k), q)
  {
    var f, g := FactorTerm(b, ReducedSlot(xs, k, q), q), FactorTerm(b, Slot(xs, k), q);
    forall j: nat | j < b.Size()
      ensures Cong(f(j), g(j), q)
    {
      CongMod(xs[j][k], q);
      CongMul(xs[j][k] % q, xs[j][k], Factor(b, j, q), Factor(b, j, q), q);
    }
    SumCong(f, g, b.Size(), q);
  }

  /** Sources folded in any order, each once, with the factors of the base: every slot of the accumulator is the target
      residue that the emulator's converter computes for that coefficient. */
  lemma FoldedDelivers(b: RnsBase, n: nat, xs: seq<seq<int>>, factors: seq<Word>, q: Word, order: seq<nat>, k: nat)
    requires 0 < q <= HALF_WORD && |xs| == |factors| == b.Size() == |b.inverses| && EachOnce(order, b.Size()) && k < n
    requires forall j: nat :: j < |xs| ==> |xs[j]| == n
    requires forall j: nat :: j < b.Size() ==> factors[j] == Factor(b, j, q)
    ensures Folded(n, xs, factors, q, order)[k] == Target(b, Slot(xs, k), q)
  {
    FoldedSlot(n, xs, factors, q, order, k);
    StreamAgrees(b, ReducedSlot(xs, k, q), factors, q, order);
    TargetReduced(b, xs, k, q);
  }

  // ----- one feeding instruction

  /** What an instruction feeds: the polynomial it names, as coefficients. */
  ghost function Source(c: Config, t: Tables<Poly>, i: Inst): seq<int>
  {
    match Resolve(c, t, i, false, false)
    case Missing(_) => []
    case Got(p) => if i.op == Pl1 && p.ntt && c.Modulus(i.rns) > 0 then BackToCoefficients(c, i.rns, p.coeffs) else p.coeffs
  }

  predicate SameShelves(t: Tables<Poly>, r: Tables<Poly>)
  {
    r.regs == t.regs && r.tokens == t.tokens && r.outputs == t.outputs
  }

  lemma SourceKept(c: Config, t: Tables<Poly>, r: Tables<Poly>, i: Inst)
    requires SameShelves(t, r)
    ensures Source(c, r, i) == Source(c, t, i) && Resolve(c, r, i, false, false) == Resolve(c, t, i, false, false)
  {
  }

  /** An accumulator that has been opened for the base, if need be, and had the source folded in. */
  ghost predicate Fed(c: Config, f: Feed<Poly>, index: nat, was: Option<Poly>, now: Option<Poly>)
  {
    && index < |f.entry.targets| && c.Modulus(f.entry.targets[index]) > 0 && |f.src.coeffs| == c.n
    && var base, q := f.entry.targets[index], c.Modulus(f.entry.targets[index]);
    && (was.Some? ==> was.value.base == base && |was.value.coeffs| == c.n)
    && var p := if was.Some? then was.value else Poly(base, false, seq(c.n, k => 0));
    && now == Some(p.(coeffs := HandleMachine.Accumulated(p.coeffs, f.src.coeffs, FactorAt(f.entry, f.pos, index) % q, q)))
  }

  /** Nothing but the accumulators of one unit from index on. */
  ghost predicate OnlyUnit(t: Tables<Poly>, r: Tables<Poly>, unit: nat, index: nat)
  {
    && SameShelves(t, r) && r.active == t.active && |r.bcu| == |t.bcu| && unit < |t.bcu|
    && (forall u: nat :: u < |t.bcu| && u != unit ==> r.bcu[u] == t.bcu[u])
    && |r.bcu[unit]| == |t.bcu[unit]| && forall x: nat :: x < index && x < |t.bcu[unit]| ==> r.bcu[unit][x] == t.bcu[unit][x]
  }

  ghost predicate AllFed(c: Config, f: Feed<Poly>, index: nat, t: Tables<Poly>, r: Tables<Poly>)
  {
    f.unit < |t.bcu| == |r.bcu| && |f.entry.targets| <= |t.bcu[f.unit]| == |r.bcu[f.unit]|
    && forall j: nat :: index <= j < |f.entry.targets| ==> Fed(c, f, j, t.bcu[f.unit][j], r.bcu[f.unit][j])
  }

  lemma {:induction false} FeedEffect(c: Config, a: Abstract, f: Feed<Poly>, index: nat)
    requires TablesOk(c, a.tables) && f.unit < c.units && index <= |f.entry.targets| && index <= c.width
    requires PolysOk(c, a.tables) && |f.src.coeffs| == c.n
    requires AbstractFeedFrom(c, a, f, index).1.Fine?
    ensures var t := AbstractFeedFrom(c, a, f, index).0.tables;
      OnlyUnit(a.tables, t, f.unit, index) && AllFed(c, f, index, a.tables, t) && TablesOk(c, t) && PolysOk(c, t)
    decreases |f.entry.targets| - index
  {
    hide Fed;
    if index < |f.entry.targets| {
      var base, q := f.entry.targets[index], c.Modulus(f.entry.targets[index]);
      assert PolyOk(c, a.tables.bcu[f.unit][index]);
      var (open, verdict) := AbstractOpened(c, a, f.unit, index, base);
      var p := open.tables.bcu[f.unit][index].value;
      var sum := HandleMachine.Accumulated(p.coeffs, f.src.coeffs, FactorAt(f.entry, f.pos, index) % q, q);
      var next := open.(tables := SetAccumulator(open.tables, f.unit, index, p.(coeffs := sum)));
      FedHere(c, f, index, a, next);
      hide PolysOk;
      NextOk(c, a, next, f.unit, index);
      FeedEffect(c, next, f, index + 1);
    }
  }

  lemma NextOk(c: Config, a: Abstract, next: Abstract, unit: nat, index: nat)
    requires PolysOk(c, a.tables) && TablesOk(c, a.tables) && unit < |a.tables.bcu| && index < |a.tables.bcu[unit]|
    requires next.tables.regs == a.tables.regs && next.tables.tokens == a.tables.tokens && next.tables.outputs == a.tables.outputs
    requires next.tables.active == a.tables.active && |next.tables.bcu| == |a.tables.bcu|
    requires forall u: nat :: u < |a.tables.bcu| && u != unit ==> next.tables.bcu[u] == a.tables.bcu[u]
    requires |next.tables.bcu[unit]| == |a.tables.bcu[unit]| && PolyOk(c, next.tables.bcu[unit][index])
    requires forall x: nat :: x < |a.tables.bcu[unit]| && x != index ==> next.tables.bcu[unit][x] == a.tables.bcu[unit][x]
    ensures PolysOk(c, next.tables) && TablesOk(c, next.tables)
  {
    forall u: nat, x: nat | u < |next.tables.bcu| && x < |next.tables.bcu[u]|
      ensures PolyOk(c, next.tables.bcu[u][x])
    {
      assert PolyOk(c, a.tables.bcu[u][x]);
    }
  }

  lemma FedHere(c: Config, f: Feed<Poly>, index: nat, a: Abstract, next: Abstract)
    requires TablesOk(c, a.tables) && f.unit < c.units && index < |f.entry.targets| && index < c.width && |f.src.coeffs| == c.n
    requires PolyOk(c, a.tables.bcu[f.unit][index]) && c.Modulus(f.entry.targets[index]) > 0
    requires AbstractOpened(c, a, f.unit, index, f.entry.targets[index]).1.Fine?
    requires var open := AbstractOpened(c, a, f.unit, index, f.entry.targets[index]).0;
      && open.tables.bcu[f.unit][index].Some? && |open.tables.bcu[f.unit][index].value.coeffs| == c.n
      && var p, q := open.tables.bcu[f.unit][index].value, c.Modulus(f.entry.targets[index]);
      next == open.(tables := SetAccumulator(open.tables, f.unit, index, p.(coeffs :=
        HandleMachine.Accumulated(p.coeffs, f.src.coeffs, FactorAt(f.entry, f.pos, index) % q, q))))
    ensures Fed(c, f, index, a.tables.bcu[f.unit][index], next.tables.bcu[f.unit][index])
    ensures OnlyUnit(a.tables, next.tables, f.unit, index)
    ensures forall x: nat :: x < |a.tables.bcu[f.unit]| && x != index ==> next.tables.bcu[f.unit][x] == a.tables.bcu[f.unit][x]
    ensures PolyOk(c, next.tables.bcu[f.unit][index])
  {
  }

  predicate Feeds(i: Inst, unit: nat)
  {
    (i.op == Pl1 || i.op == Bcw) && BcuUnit(i.dst) == unit
  }

  predicate Restarts(i: Inst, unit: nat)
  {
    i.op == Bci && BcuUnit(i.dst) == unit
  }

  /** The configuration a unit runs. */
  ghost predicate Runs(c: Config, t: Tables<Poly>, unit: nat, e: BciEntry)
  {
    && unit < |t.active| && unit < |t.bcu|
    && var k := c.EntryFrom(t.active[unit], 0); k < |c.entries| && c.entries[k] == e
  }

  /** What one feeding instruction does. */
  lemma FeedOf(c: Config, a: Abstract, i: Inst) returns (f: Feed<Poly>)
    requires TablesOk(c, a.tables) && PolysOk(c, a.tables) && AbstractFeed(c, a, i).1.Fine?
    ensures f.unit == BcuUnit(i.dst) < c.units && Runs(c, a.tables, f.unit, f.entry)
    ensures f.pos == SourcePosition(f.entry.sources, i.rns) < |f.entry.sources|
    ensures |f.src.coeffs| == c.n && f.src.coeffs == Source(c, a.tables, i)
    ensures var t := AbstractFeed(c, a, i).0.tables;
      OnlyUnit(a.tables, t, f.unit, 0) && AllFed(c, f, 0, a.tables, t) && TablesOk(c, t) && PolysOk(c, t)
  {
    hide PolysOk, AbstractFeedFrom, Resolve, AllFed, OnlyUnit, BackToCoefficients, SourcePosition, Config.EntryFrom, Config.Modulus;
    ResolveOk(c, a.tables, i, false, false);
    var g := PlanFeed(c, a.tables, i).value;
    if i.op == Pl1 && g.src.ntt {
      f := g.(src := Poly(i.rns, false, BackToCoefficients(c, i.rns, g.src.coeffs)));
      FeedEffect(c, a.(room := a.room - 1), f, 0);
    } else {
      f := g;
      FeedEffect(c, a, f, 0);
    }
  }

  lemma RestartOk(c: Config, t: Tables<Poly>, i: Inst)
    requires TablesOk(c, t) && PolysOk(c, t)
    ensures TablesOk(c, BciStep(c, t, i).0) && PolysOk(c, BciStep(c, t, i).0)
  {
    var r := BciStep(c, t, i).0;
    forall u: nat, x: nat | u < |r.bcu| && x < |r.bcu[u]|
      ensures PolyOk(c, r.bcu[u][x])
    {
      assert PolyOk(c, t.bcu[u][x]);
    }
  }

  lemma StepOk(c: Config, a: Abstract, i: Inst)
    requires c.Valid() && TablesOk(c, a.tables) && PolysOk(c, a.tables) && AbstractStep(c, BaseConversion, a, i).1.Fine?
    ensures TablesOk(c, AbstractStep(c, BaseConversion, a, i).0.tables) && PolysOk(c, AbstractStep(c, BaseConversion, a, i).0.tables)
  {
    hide Config.Valid, PolysOk, AbstractFeed, BciStep;
    if i.op == Bci {
      RestartOk(c, a.tables, i);
    } else {
      var f := FeedOf(c, a, i);
    }
  }

  // ----- the accumulators of a unit

  function Factors(e: BciEntry, index: nat, q: Word): (r: seq<Word>)
    requires q > 0
    ensures |r| == |e.sources|
  {
    seq(|e.sources|, k requires 0 <= k < |e.sources| => WordOf(FactorAt(e, k, index), q))
  }

  ghost predicate SourcesFit(c: Config, e: BciEntry, xs: seq<seq<int>>, done: seq<nat>)
  {
    && |xs| == |e.sources| && (forall k: nat :: k < |xs| ==> |xs[k]| == c.n)
    && forall t: nat :: t < |done| ==> done[t] < |xs|
  }

  /** Accumulator `index` holds the folded sources. */
  ghost predicate HeldAt(c: Config, e: BciEntry, xs: seq<seq<int>>, done: seq<nat>, index: nat, o: Option<Poly>)
  {
    && SourcesFit(c, e, xs, done) && index < |e.targets| && c.Modulus(e.targets[index]) > 0
    && var q := c.Modulus(e.targets[index]);
      o == Some(Poly(e.targets[index], false, Folded(c.n, xs, Factors(e, index, q), q, done)))
  }

  ghost predicate Holding(c: Config, t: Tables<Poly>, unit: nat, e: BciEntry, xs: seq<seq<int>>, done: seq<nat>)
  {
    && Runs(c, t, unit, e) && SourcesFit(c, e, xs, done)
    && (|done| == 0 ==> forall x: nat :: x < |t.bcu[unit]| ==> t.bcu[unit][x] == None)
    && (|done| > 0 ==> |e.targets| <= |t.bcu[unit]| && forall j: nat :: j < |e.targets| ==> HeldAt(c, e, xs, done, j, t.bcu[unit][j]))
  }

  lemma HeldNext(c: Config, f: Feed<Poly>, xs: seq<seq<int>>, done: seq<nat>, index: nat, was: Option<Poly>, now: Option<Poly>)
    requires Fed(c, f, index, was, now) && SourcesFit(c, f.entry, xs, done) && f.pos < |xs| && f.src.coeffs == xs[f.pos]
    requires if |done| == 0 then was == None else HeldAt(c, f.entry, xs, done, index, was)
    ensures HeldAt(c, f.entry, xs, done + [f.pos], index, now)
  {
    var q := c.Modulus(f.entry.targets[index]);
    var order := done + [f.pos];
    assert order[..|order| - 1] == done;
    assert Factors(f.entry, index, q)[f.pos] == FactorAt(f.entry, f.pos, index) % q;
    assert |done| == 0 ==> Folded(c.n, xs, Factors(f.entry, index, q), q, done) == seq(c.n, k => 0);
    hide HandleMachine.Accumulated, FactorAt;
  }

  /** The positions that the instructions of a program feed, in their order. */
  function OrderOf(e: BciEntry, unit: nat, program: seq<Inst>): seq<nat>
  {
    if |program| == 0 then []
    else (if Feeds(program[0], unit) then [SourcePosition(e.sources, program[0].rns)] else []) + OrderOf(e, unit, program[1..])
  }

  ghost predicate SuppliesAt(c: Config, t: Tables<Poly>, e: BciEntry, unit: nat, i: Inst, xs: seq<seq<int>>)
  {
    Feeds(i, unit) ==> SourcePosition(e.sources, i.rns) < |xs| && xs[SourcePosition(e.sources, i.rns)] == Source(c, t, i)
  }

  /** xs are the sources that the program feeds, and the unit is not started again. */
  ghost predicate Supplies(c: Config, t: Tables<Poly>, e: BciEntry, unit: nat, program: seq<Inst>, xs: seq<seq<int>>)
  {
    forall k: nat :: k < |program| ==> SuppliesAt(c, t, e, unit, program[k], xs) && !Restarts(program[k], unit)
  }

  lemma SuppliesRest(c: Config, t: Tables<Poly>, r: Tables<Poly>, e: BciEntry, unit: nat, program: seq<Inst>, xs: seq<seq<int>>)
    requires Supplies(c, t, e, unit, program, xs) && SameShelves(t, r) && |program| > 0
    ensures Supplies(c, r, e, unit, program[1..], xs)
  {
    hide Source, SourcePosition, Feeds, SameShelves;
    forall k: nat | k < |program[1..]|
      ensures SuppliesAt(c, r, e, unit, program[1..][k], xs) && !Restarts(program[1..][k], unit)
    {
      assert SuppliesAt(c, t, e, unit, program[k + 1], xs) && !Restarts(program[k + 1], unit);
      SourceKept(c, t, r, program[k + 1]);
    }
  }

  /** One instruction of the conversion module, seen from one unit. */
  lemma StepHolds(c: Config, a: Abstract, i: Inst, unit: nat, e: BciEntry, xs: seq<seq<int>>, done: seq<nat>)
    requires c.Valid() && TablesOk(c, a.tables) && PolysOk(c, a.tables) && Holding(c, a.tables, unit, e, xs, done)
    requires SuppliesAt(c, a.tables, e, unit, i, xs) && !Restarts(i, unit)
    requires AbstractStep(c, BaseConversion, a, i).1.Fine?
    ensures var t := AbstractStep(c, BaseConversion, a, i).0.tables;
      && SameShelves(a.tables, t)
      && Holding(c, t, unit, e, xs, done + if Feeds(i, unit) then [SourcePosition(e.sources, i.rns)] else [])
  {
    var t := AbstractStep(c, BaseConversion, a, i).0.tables;
    assert done + [] == done;
    if i.op == Bci {
      hide Source, Folded, Resolve, SourcePosition, Config.Valid, PolysOk;
      OtherRestart(c, a.tables, i, unit, e, xs, done);
    } else {
      assert i.op == Pl1 || i.op == Bcw;
      var f := FeedOf(c, a, i);
      hide Source, Folded, Resolve, SourcePosition, Config.Valid, PolysOk, AbstractFeed, AllFed;
      if Feeds(i, unit) {
        OwnFeed(c, a.tables, t, f, xs, done);
      } else {
        OtherFeed(c, a.tables, t, f, unit, e, xs, done);
      }
    }
  }

  lemma OtherRestart(c: Config, t: Tables<Poly>, i: Inst, unit: nat, e: BciEntry, xs: seq<seq<int>>, done: seq<nat>)
    requires TablesOk(c, t) && Holding(c, t, unit, e, xs, done) && i.op == Bci && !Restarts(i, unit)
    ensures SameShelves(t, BciStep(c, t, i).0) && Holding(c, BciStep(c, t, i).0, unit, e, xs, done)
  {
    hide HeldAt, SourcesFit;
  }

  lemma OtherFeed(c: Config, t: Tables<Poly>, r: Tables<Poly>, f: Feed<Poly>, unit: nat, e: BciEntry, xs: seq<seq<int>>, done: seq<nat>)
    requires OnlyUnit(t, r, f.unit, 0) && f.unit != unit && Holding(c, t, unit, e, xs, done)
    ensures SameShelves(t, r) && Holding(c, r, unit, e, xs, done)
  {
    hide HeldAt, SourcesFit;
  }

  lemma OwnFeed(c: Config, t: Tables<Poly>, r: Tables<Poly>, f: Feed<Poly>, xs: seq<seq<int>>, done: seq<nat>)
    requires OnlyUnit(t, r, f.unit, 0) && AllFed(c, f, 0, t, r) && Holding(c, t, f.unit, f.entry, xs, done)
    requires f.pos < |xs| && f.src.coeffs == xs[f.pos]
    ensures SameShelves(t, r) && Holding(c, r, f.unit, f.entry, xs, done + [f.pos])
  {
    hide HeldAt, Fed;
    var order := done + [f.pos];
    assert SourcesFit(c, f.entry, xs, order);
    forall j: nat | j < |f.entry.targets|
      ensures HeldAt(c, f.entry, xs, order, j, r.bcu[f.unit][j])
    {
      assert Fed(c, f, j, t.bcu[f.unit][j], r.bcu[f.unit][j]);
      HeldNext(c, f, xs, done, j, t.bcu[f.unit][j], r.bcu[f.unit][j]);
    }
  }

  /** Through a whole run. */
  lemma {:induction false} RunHolds(c: Config, a: Abstract, program: seq<Inst>, unit: nat, e: BciEntry, xs: seq<seq<int>>, done: seq<nat>)
    requires c.Valid() && TablesOk(c, a.tables) && PolysOk(c, a.tables) && Holding(c, a.tables, unit, e, xs, done)
    requires Supplies(c, a.tables, e, unit, program, xs) && RunAbstract(c, BaseConversion, a, program).1.Fine?
    ensures Holding(c, RunAbstract(c, BaseConversion, a, program).0.tables, unit, e, xs, done + OrderOf(e, unit, program))
    decreases |program|
  {
    hide Config.Valid, TablesOk, PolysOk, Holding, Supplies, AbstractStep, SameShelves, Feeds;
    if |program| == 0 {
      assert done + [] == done;
    } else {
      var i, rest := program[0], program[1..];
      var fed: seq<nat> := if Feeds(i, unit) then [SourcePosition(e.sources, i.rns)] else [];
      SuppliesFirst(c, a.tables, e, unit, program, xs);
      assert (done + fed) + OrderOf(e, unit, rest) == done + OrderOf(e, unit, program);
      if !Handles(BaseConversion, i.op) {
        FeedsHandled(i, unit);
        assert done + [] == done;
        SameSelf(a.tables);
        SuppliesRest(c, a.tables, a.tables, e, unit, program, xs);
        RunHolds(c, a, rest, unit, e, xs, done);
      } else {
        var (r, v) := AbstractStep(c, BaseConversion, a, i);
        StepHolds(c, a, i, unit, e, xs, done);
        SuppliesRest(c, a.tables, r.tables, e, unit, program, xs);
        StepOk(c, a, i);
        RunHolds(c, r, rest, unit, e, xs, done + fed);
      }
    }
  }

  lemma SameSelf(t: Tables<Poly>)
    ensures SameShelves(t, t)
  {
  }

  lemma FeedsHandled(i: Inst, unit: nat)
    ensures Feeds(i, unit) ==> Handles(BaseConversion, i.op)
  {
  }

  lemma SuppliesFirst(c: Config, t: Tables<Poly>, e: BciEntry, unit: nat, program: seq<Inst>, xs: seq<seq<int>>)
    requires Supplies(c, t, e, unit, program, xs) && |program| > 0
    ensures SuppliesAt(c, t, e, unit, program[0], xs) && !Restarts(program[0], unit)
  {
    hide SuppliesAt, Restarts;
  }

  /** The factor matrix of the configuration is that of the base. */
  ghost predicate FactorsOf(c: Config, e: BciEntry, b: RnsBase)
  {
    && b.Size() == |e.sources| == |b.inverses| && b.Size() >= 1
    && forall j: nat, k: nat :: j < |e.targets| && k < b.Size() && c.Modulus(e.targets[j]) > 0 ==> FactorOf(c, e, b, j, k)
  }

  ghost predicate FactorOf(c: Config, e: BciEntry, b: RnsBase, j: nat, k: nat)
    requires j < |e.targets| && k < b.Size() == |b.inverses| && c.Modulus(e.targets[j]) > 0
  {
    FactorAt(e, k, j) % c.Modulus(e.targets[j]) == Factor(b, k, c.Modulus(e.targets[j]))
  }

  /** An accumulator that holds, coefficient by coefficient, the target residue of the sources. */
  ghost predicate Delivered(c: Config, e: BciEntry, b: RnsBase, xs: seq<seq<int>>, j: nat, o: Option<Poly>)
  {
    && j < |e.targets| && c.Modulus(e.targets[j]) > 0 && b.Size() == |xs| == |b.inverses| && (forall k: nat :: k < |xs| ==> |xs[k]| == c.n)
    && o.Some? && o.value.base == e.targets[j] && !o.value.ntt && |o.value.coeffs| == c.n
    && forall k: nat :: k < c.n ==> o.value.coeffs[k] == Target(b, Slot(xs, k), c.Modulus(e.targets[j]))
  }

  lemma HeldDelivers(c: Config, e: BciEntry, b: RnsBase, xs: seq<seq<int>>, order: seq<nat>, j: nat, o: Option<Poly>)
    requires c.Valid() && HeldAt(c, e, xs, order, j, o) && FactorsOf(c, e, b) && EachOnce(order, b.Size())
    ensures Delivered(c, e, b, xs, j, o)
  {
    var q := c.Modulus(e.targets[j]);
    assert q <= HALF_WORD;
    forall k: nat | k < b.Size()
      ensures Factors(e, j, q)[k] == Factor(b, k, q)
    {
      assert FactorOf(c, e, b, j, k);
    }
    hide Config.Valid, Target, Slot, EachOnce, Factor, FactorAt, FactorOf;
    forall k: nat | k < c.n
      ensures o.value.coeffs[k] == Target(b, Slot(xs, k), q)
    {
      FoldedDelivers(b, c.n, xs, Factors(e, j, q), q, order, k);
    }
  }

  /** A program that starts a unit and then feeds it each source once, in any order, by `pl1` or `bcw`, with anything else
      for other units in between. */
  ghost predicate Converts(c: Config, t: Tables<Poly>, start: Inst, program: seq<Inst>, e: BciEntry, xs: seq<seq<int>>)
  {
    && start.op == Bci && c.EntryFrom(start.crc, 0) < |c.entries| && e == c.entries[c.EntryFrom(start.crc, 0)]
    && |xs| == |e.sources| && (forall k: nat :: k < |xs| ==> |xs[k]| == c.n)
    && Supplies(c, t, e, BcuUnit(start.dst), program, xs)
    && EachOnce(OrderOf(e, BcuUnit(start.dst), program), |e.sources|)
  }

  /** When such a program runs without a fault, the unit's accumulators hold what the emulator's converter computes from the
      same sources: the residues of the lifted integers in the target moduli. */
  lemma AccumulatorDelivers(c: Config, a: Abstract, start: Inst, program: seq<Inst>, e: BciEntry, b: RnsBase, xs: seq<seq<int>>)
    requires c.Valid() && TablesOk(c, a.tables) && PolysOk(c, a.tables) && Converts(c, a.tables, start, program, e, xs) && FactorsOf(c, e, b)
    requires RunAbstract(c, BaseConversion, a, [start] + program).1.Fine?
    ensures var t, unit := RunAbstract(c, BaseConversion, a, [start] + program).0.tables, BcuUnit(start.dst);
      unit < |t.bcu| && |e.targets| <= |t.bcu[unit]| && forall j: nat :: j < |e.targets| ==> Delivered(c, e, b, xs, j, t.bcu[unit][j])
  {
    var unit := BcuUnit(start.dst);
    var order := OrderOf(e, unit, program);
    assert ([start] + program)[0] == start && ([start] + program)[1..] == program;
    var (r, v) := AbstractStep(c, BaseConversion, a, start);
    assert Handles(BaseConversion, start.op);
    StartHolds(c, a, start, e, xs);
    StepOk(c, a, start);
    SuppliesAfter(c, a.tables, r.tables, e, unit, program, xs);
    hide Config.Valid, TablesOk, PolysOk, AbstractStep, Supplies, SameShelves, HeldAt;
    RunHolds(c, r, program, unit, e, xs, []);
    assert [] + order == order;
    NotEmpty(order, b.Size());
    var t := RunAbstract(c, BaseConversion, r, program).0.tables;
    forall j: nat | j < |e.targets|
      ensures Delivered(c, e, b, xs, j, t.bcu[unit][j])
    {
      HeldDelivers(c, e, b, xs, order, j, t.bcu[unit][j]);
    }
  }

  lemma NotEmpty(order: seq<nat>, n: nat)
    requires EachOnce(order, n) && n >= 1
    ensures |order| > 0
  {
    assert 0 in order;
  }

  lemma SuppliesAfter(c: Config, t: Tables<Poly>, r: Tables<Poly>, e: BciEntry, unit: nat, program: seq<Inst>, xs: seq<seq<int>>)
    requires Supplies(c, t, e, unit, program, xs) && SameShelves(t, r)
    ensures Supplies(c, r, e, unit, program, xs)
  {
    hide Source, SourcePosition, Feeds, SameShelves;
    forall k: nat | k < |program|
      ensures SuppliesAt(c, r, e, unit, program[k], xs) && !Restarts(program[k], unit)
    {
      assert SuppliesAt(c, t, e, unit, program[k], xs) && !Restarts(program[k], unit);
      SourceKept(c, t, r, program[k]);
    }
  }

  lemma StartHolds(c: Config, a: Abstract, start: Inst, e: BciEntry, xs: seq<seq<int>>)
    requires c.Valid() && TablesOk(c, a.tables) && PolysOk(c, a.tables) && start.op == Bci
    requires c.EntryFrom(start.crc, 0) < |c.entries| && e == c.entries[c.EntryFrom(start.crc, 0)]
    requires |xs| == |e.sources| && forall k: nat :: k < |xs| ==> |xs[k]| == c.n
    requires AbstractStep(c, BaseConversion, a, start).1.Fine?
    ensures var t := AbstractStep(c, BaseConversion, a, start).0.tables;
      SameShelves(a.tables, t) && Holding(c, t, BcuUnit(start.dst), e, xs, [])
  {
    hide Config.Valid, PolysOk;
  }

  /** On the accelerator itself: read through the directory of the unit, the ranges in the payload hold those residues. */
  lemma PayloadDelivers(c: Config, m: Machine, start: Inst, program: seq<Inst>, e: BciEntry, b: RnsBase, xs: seq<seq<int>>)
    requires Inv(c, m) && Converts(c, Abs(c, m).tables, start, program, e, xs) && FactorsOf(c, e, b)
    requires RunModule(c, BaseConversion, m, [start] + program).1.Fine?
    ensures var r, unit := RunModule(c, BaseConversion, m, [start] + program).0, BcuUnit(start.dst);
      HandleSteps.Sound(c, r) && unit < |r.tables.bcu| && |e.targets| <= |r.tables.bcu[unit]|
      && forall j: nat :: j < |e.targets| ==> HandleDelivers(c, r, e, b, xs, j, r.tables.bcu[unit][j])
  {
    ModuleRefines(c, BaseConversion, m, [start] + program);
    var r, unit := RunModule(c, BaseConversion, m, [start] + program).0, BcuUnit(start.dst);
    hide TablesOk, PolysOk, View, AllLive, Separate, RunModule, RunAbstract, Converts, FactorsOf, Delivered;
    AccumulatorDelivers(c, Abs(c, m), start, program, e, b, xs);
    assert HandleSteps.Sound(c, r);
    forall j: nat | j < |e.targets|
      ensures HandleDelivers(c, r, e, b, xs, j, r.tables.bcu[unit][j])
    {
      assert Delivered(c, e, b, xs, j, Abs(c, r).tables.bcu[unit][j]);
      HandleOf(c, r, e, b, xs, j, r.tables.bcu[unit][j]);
    }
  }

  ghost predicate HandleDelivers(c: Config, m: Machine, e: BciEntry, b: RnsBase, xs: seq<seq<int>>, j: nat, o: Option<nat>)
    requires HandleSteps.Sound(c, m)
  {
    o.Some? && 1 <= o.value <= c.capacity && Delivered(c, e, b, xs, j, Some(View(c, m.heap, o.value)))
  }

  lemma HandleOf(c: Config, m: Machine, e: BciEntry, b: RnsBase, xs: seq<seq<int>>, j: nat, o: Option<nat>)
    requires HandleSteps.Sound(c, m) && Delivered(c, e, b, xs, j, ViewOption(c, m.heap, o))
    ensures HandleDelivers(c, m, e, b, xs, j, o)
  {
    hide View, AllLive;
  }
}

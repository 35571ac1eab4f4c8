/** One instruction on either machine: over handles with a bump allocator and a shared payload, and over polynomials. */
module HandleSteps {
  import opened WordArithmetic
  import opened NttKernel
  import opened HandleMachine

  datatype Verdict = Fine | Fault(status: Status)

  // ----- steps that only move what the tables hold

  function SetRegister<T>(t: Tables<T>, dst: nat, v: Option<T>): Tables<T>
  {
    if |t.regs| == 0 then t else t.(regs := t.regs[dst % |t.regs| := v])
  }

  /** Loads and moves copy what a token or register holds, even nothing; stores bind an output token to a register. */
  function MemoryStep<T>(t: Tables<T>, i: Inst): (Tables<T>, Verdict)
  {
    if i.op in {Store, Spill, Snd} then
      if |t.regs| == 0 || RegisterAt(t.regs, i.src0).None? then (t, Fault(InvalidHandle))
      else
        var at := Position(t.outputs, i.aux, 0);
        if at == |t.outputs| then (t, Fault(MissingOutputToken))
        else (t.(outputs := t.outputs[at := Entry(i.aux, RegisterAt(t.regs, i.src0))]), Fine)
    else if i.imm0 || i.src0 == IMM_OPERAND then (t, Fault(UnsupportedImmediate))
    else if i.src0 == TOKEN_OPERAND then
      var held := Lookup(t.tokens, i.aux);
      if held.None? then (t, Fault(MissingToken)) else (SetRegister(t, i.dst, held), Fine)
    else (SetRegister(t, i.dst, if |t.regs| == 0 then None else RegisterAt(t.regs, i.src0)), Fine)
  }

  ghost predicate TablesOk<T>(c: Config, t: Tables<T>)
  {
    |t.bcu| == c.units && |t.active| == MAX_UNITS && forall u: nat :: u < |t.bcu| ==> |t.bcu[u]| == c.width
  }

  /** Starts a conversion on a unit: its accumulators are dropped. */
  function BciStep<T>(c: Config, t: Tables<T>, i: Inst): (Tables<T>, Verdict)
    requires TablesOk(c, t)
  {
    var unit, e := BcuUnit(i.dst), c.EntryFrom(i.crc, 0);
    if e == |c.entries| || c.entries[e].unit != unit || unit >= c.units || unit >= MAX_UNITS then (t, Fault(MissingBciConfig))
    else (t.(active := t.active[unit := i.crc], bcu := t.bcu[unit := seq(c.width, k => None)]), Fine)
  }

  /** A source on its way into the accumulators of a conversion. */
  datatype Feed<T> = Feed(unit: nat, entry: BciEntry, pos: nat, src: T)

  function PlanFeed<T>(c: Config, t: Tables<T>, i: Inst): (r: Found<Feed<T>>)
    requires TablesOk(c, t)
    ensures r.Got? ==> r.value.unit < c.units && r.value.entry in c.entries && r.value.pos < |r.value.entry.sources|
  {
    var unit := BcuUnit(i.dst);
    if unit >= c.units || unit >= MAX_UNITS || t.active[unit] == 0 then Missing(MissingBciConfig)
    else
      var e := c.EntryFrom(t.active[unit], 0);
      if e == |c.entries| || c.entries[e].unit != unit then Missing(MissingBciConfig)
      else
        match Resolve(c, t, i, false, false)
        case Missing(s) => Missing(s)
        case Got(src) =>
          var pos := SourcePosition(c.entries[e].sources, i.rns);
          if pos == |c.entries[e].sources| then Missing(MissingBciConfig) else Got(Feed(unit, c.entries[e], pos, src))
  }

  function FactorAt(e: BciEntry, pos: nat, index: nat): Word
  {
    var k := pos * |e.targets| + index;
    if k < |e.factors| then e.factors[k] else 0
  }

  function SetAccumulator<T>(t: Tables<T>, unit: nat, index: nat, v: T): Tables<T>
    requires unit < |t.bcu| && index < |t.bcu[unit]|
  {
    t.(bcu := t.bcu[unit := t.bcu[unit][index := Some(v)]])
  }

  // ----- the handle machine

  /** Handles are numbered from 1; handle h owns n words of the payload. */
  datatype Heap = Heap(count: nat, base: seq<nat>, ntt: seq<bool>, payload: seq<int>)

  datatype Machine = Machine(tables: Tables<nat>, heap: Heap)

  function Offset(n: nat, handle: nat): nat
  {
    if handle == 0 then 0 else (handle - 1) * n
  }

  ghost predicate HeapOk(c: Config, h: Heap)
  {
    h.count <= c.capacity == |h.base| == |h.ntt| && |h.payload| >= c.capacity * c.n
  }

  lemma RangeFits(c: Config, h: Heap, handle: nat)
    requires HeapOk(c, h) && 1 <= handle <= c.capacity
    ensures Offset(c.n, handle) + c.n <= |h.payload|
  {
    MulNonNegative(c.capacity - handle, c.n);
    assert (c.capacity - handle) * c.n == c.capacity * c.n - Offset(c.n, handle) - c.n;
  }

  function Slice(p: seq<int>, at: nat, n: nat): (r: seq<int>)
    requires at + n <= |p|
    ensures |r| == n
  {
    p[at..at + n]
  }

  function Spliced(p: seq<int>, at: nat, values: seq<int>): (r: seq<int>)
    requires at + |values| <= |p|
    ensures |r| == |p|
  {
    p[..at] + values + p[at + |values|..]
  }

  ghost function View(c: Config, h: Heap, handle: nat): (p: Poly)
    requires HeapOk(c, h) && 1 <= handle <= c.capacity
    ensures |p.coeffs| == c.n
  {
    RangeFits(c, h, handle);
    Poly(h.base[handle - 1], h.ntt[handle - 1], Slice(h.payload, Offset(c.n, handle), c.n))
  }

  function Allocate(h: Heap, base: nat, ntt: bool): Heap
    requires h.count < |h.base| == |h.ntt|
  {
    h.(count := h.count + 1, base := h.base[h.count := base], ntt := h.ntt[h.count := ntt])
  }

  ghost function Fill(c: Config, h: Heap, handle: nat, values: seq<int>): (r: Heap)
    requires HeapOk(c, h) && 1 <= handle <= c.capacity && |values| == c.n
    ensures HeapOk(c, r)
  {
    RangeFits(c, h, handle);
    h.(payload := Spliced(h.payload, Offset(c.n, handle), values))
  }

  ghost predicate LiveIn(o: Option<nat>, count: nat)
  {
    o.Some? ==> 1 <= o.value <= count
  }

  ghost predicate RegsLive(regs: seq<Option<nat>>, count: nat)
  {
    forall r: nat :: r < |regs| ==> LiveIn(regs[r], count)
  }

  ghost predicate EntriesLive(dir: seq<Entry<nat>>, count: nat)
  {
    forall k: nat :: k < |dir| ==> LiveIn(dir[k].held, count)
  }

  ghost predicate BcuLive(bcu: seq<seq<Option<nat>>>, count: nat)
  {
    forall u: nat, x: nat :: u < |bcu| && x < |bcu[u]| ==> LiveIn(bcu[u][x], count)
  }

  /** Every handle in the tables is allocated. */
  ghost predicate AllLive(t: Tables<nat>, count: nat)
  {
    RegsLive(t.regs, count) && EntriesLive(t.tokens, count) && EntriesLive(t.outputs, count) && BcuLive(t.bcu, count)
  }

  /** Machine in good order: tables of the right shape, and every handle in them allocated. */
  ghost predicate Sound(c: Config, m: Machine)
  {
    c.Valid() && TablesOk(c, m.tables) && HeapOk(c, m.heap) && AllLive(m.tables, m.heap.count)
  }

  ghost predicate FoundLive(r: Found<nat>, count: nat)
  {
    r.Got? ==> 1 <= r.value <= count
  }

  ghost predicate OperandsLive(r: Found<Operands<nat>>, count: nat)
  {
    r.Got? ==> 1 <= r.value.first <= count && 1 <= r.value.second <= count
  }

  ghost predicate PlanLive(r: Found<Feed<nat>>, count: nat)
  {
    r.Got? ==> 1 <= r.value.src <= count
  }

  lemma ResolveLive(c: Config, t: Tables<nat>, i: Inst, second: bool, bcu: bool, count: nat)
    requires AllLive(t, count)
    ensures FoundLive(Resolve(c, t, i, second, bcu), count)
  {
    var src := if second then i.src1 else i.src0;
    if |t.regs| > 0 {
      assert LiveIn(t.regs[src % |t.regs|], count);
    }
    var k := Position(t.tokens, i.aux, 0);
    if k < |t.tokens| {
      assert LiveIn(t.tokens[k].held, count);
    }
    var u, x := BcuOutputUnit(src), BcuOutputIndex(src);
    if u < |t.bcu| && x < |t.bcu[u]| {
      assert LiveIn(t.bcu[u][x], count);
    }
  }

  lemma FetchLive(c: Config, t: Tables<nat>, kind: Module, i: Inst, count: nat)
    requires AllLive(t, count)
    ensures OperandsLive(Fetch(c, t, kind, i), count)
  {
    ResolveLive(c, t, i, false, kind == Arithmetic || kind == Transform, count);
    ResolveLive(c, t, i, true, false, count);
    ResolveLive(c, t, i, true, true, count);
    hide Resolve, AllLive;
  }

  predicate Computes(kind: Module)
  {
    kind != Memory && kind != BaseConversion
  }

  /** A computing instruction writes its result to a fresh handle and binds the destination register to it. */
  ghost function ComputeStep(c: Config, kind: Module, m: Machine, i: Inst): (Machine, Verdict)
    requires Sound(c, m) && Computes(kind)
  {
    FetchLive(c, m.tables, kind, i, m.heap.count);
    match Fetch(c, m.tables, kind, i)
    case Missing(s) => (m, Fault(s))
    case Got(o) =>
      if m.heap.count >= c.capacity then (m, Fault(HandleOverflow))
      else
        var heap := Allocate(m.heap, i.rns, ResultNtt(kind, i, m.heap.ntt[o.first - 1]));
        match Compute(c, m.tables.active, kind, i, Operands(View(c, heap, o.first), View(c, heap, o.second), o.q))
        case Stuck(s) => (m.(heap := heap), Fault(s))
        case Values(v) =>
          (Machine(SetRegister(m.tables, i.dst, Some(heap.count)), Fill(c, heap, heap.count, v)), Fine)
  }

  /** Accumulator `index` of a unit, allocated and zeroed on first use. */
  ghost function Opened(c: Config, m: Machine, unit: nat, index: nat, base: nat): (Machine, Verdict)
    requires HeapOk(c, m.heap) && unit < |m.tables.bcu| && index < |m.tables.bcu[unit]|
    requires BcuLive(m.tables.bcu, m.heap.count)
  {
    match m.tables.bcu[unit][index]
    case None =>
      if m.heap.count >= c.capacity then (m, Fault(HandleOverflow))
      else
        var heap := Allocate(m.heap, base, false);
        (Machine(SetAccumulator(m.tables, unit, index, heap.count), Fill(c, heap, heap.count, seq(c.n, k => 0))), Fine)
    case Some(h) =>
      assert LiveIn(m.tables.bcu[unit][index], m.heap.count);
      if m.heap.base[h - 1] != base then (m, Fault(InvalidHandle)) else (m, Fine)
  }

  /** Folds the source into the accumulators of the unit, one target after the other, in place. */
  ghost function FeedFrom(c: Config, m: Machine, f: Feed<nat>, index: nat): (Machine, Verdict)
    requires Sound(c, m) && f.unit < c.units && 1 <= f.src <= m.heap.count && index <= |f.entry.targets|
    decreases |f.entry.targets| - index
  {
    if index == |f.entry.targets| then (m, Fine)
    else if index >= c.width then (m, Fault(BadExtraLayout))
    else
      var base := f.entry.targets[index];
      var q := c.Modulus(base);
      if q == 0 then (m, Fault(MissingModulus))
      else
        OpenedSound(c, m, f.unit, index, base);
        var (open, verdict) := Opened(c, m, f.unit, index, base);
        if verdict.Fault? then (open, verdict)
        else
          var h := open.tables.bcu[f.unit][index].value;
          var sum := HandleMachine.Accumulated(View(c, open.heap, h).coeffs, View(c, open.heap, f.src).coeffs, FactorAt(f.entry, f.pos, index) % q, q);
          var next := open.(heap := Fill(c, open.heap, h, sum));
          FeedFrom(c, next, f, index + 1)
  }

  lemma OpenedSound(c: Config, m: Machine, unit: nat, index: nat, base: nat)
    requires Sound(c, m) && unit < c.units && index < c.width
    ensures Sound(c, Opened(c, m, unit, index, base).0) && Opened(c, m, unit, index, base).0.heap.count >= m.heap.count
    ensures Opened(c, m, unit, index, base).1.Fine? ==>
      var t := Opened(c, m, unit, index, base).0;
      t.tables.bcu[unit][index].Some? && 1 <= t.tables.bcu[unit][index].value <= t.heap.count
  {
    hide Config.Valid;
    assert LiveIn(m.tables.bcu[unit][index], m.heap.count);
  }

  /** A source that arrives in transform form is first taken back to coefficients, in a fresh handle. */
  ghost function FeedStep(c: Config, m: Machine, i: Inst): (Machine, Verdict)
    requires Sound(c, m)
  {
    ResolveLive(c, m.tables, i, false, false, m.heap.count);
    match PlanFeed(c, m.tables, i)
    case Missing(s) => (m, Fault(s))
    case Got(f) =>
      if i.op == Pl1 && m.heap.ntt[f.src - 1] then
        var q := c.Modulus(i.rns);
        if q == 0 then (m, Fault(MissingModulus))
        else if m.heap.count >= c.capacity then (m, Fault(HandleOverflow))
        else
          var heap := Allocate(m.heap, i.rns, false);
          var filled := Fill(c, heap, heap.count, BackToCoefficients(c, i.rns, View(c, heap, f.src).coeffs));
          LiveMore(m.tables, m.heap.count, heap.count);
          FeedFrom(c, m.(heap := filled), f.(src := heap.count), 0)
      else FeedFrom(c, m, f, 0)
  }

  ghost function BackToCoefficients(c: Config, id: nat, a: seq<int>): (r: seq<int>)
    requires c.Modulus(id) > 0
    ensures |r| == |a|
  {
    Backward(Reduced(a, c.Modulus(id)), c.Roots(id).psiInv, c.Roots(id).omegaInv, c.Modulus(id))
  }

  lemma LiveMore(t: Tables<nat>, count: nat, more: nat)
    requires AllLive(t, count) && count <= more
    ensures AllLive(t, more)
  {
    forall u: nat, x: nat | u < |t.bcu| && x < |t.bcu[u]|
      ensures LiveIn(t.bcu[u][x], more)
    {
      assert LiveIn(t.bcu[u][x], count);
    }
    forall r: nat | r < |t.regs|
      ensures LiveIn(t.regs[r], more)
    {
      assert LiveIn(t.regs[r], count);
    }
    forall k: nat | k < |t.tokens|
      ensures LiveIn(t.tokens[k].held, more)
    {
      assert LiveIn(t.tokens[k].held, count);
    }
    forall k: nat | k < |t.outputs|
      ensures LiveIn(t.outputs[k].held, more)
    {
      assert LiveIn(t.outputs[k].held, count);
    }
  }

  /** One instruction of a module; instructions of other modules are skipped by the caller. */
  ghost function Step(c: Config, kind: Module, m: Machine, i: Inst): (Machine, Verdict)
    requires Sound(c, m)
  {
    if kind == Memory then
      var (t, verdict) := MemoryStep(m.tables, i);
      (m.(tables := t), verdict)
    else if kind == BaseConversion then
      if i.op == Bci then
        var (t, verdict) := BciStep(c, m.tables, i);
        (m.(tables := t), verdict)
      else if i.op != Pl1 && i.op != Bcw then (m, Fault(UnsupportedOpcode))
      else FeedStep(c, m, i)
    else ComputeStep(c, kind, m, i)
  }

  // ----- the polynomial machine

  /** Tables that hold whole polynomials, and room for as many results as there are free handles. */
  datatype Abstract = Abstract(tables: Tables<Poly>, room: nat)

  ghost predicate PolysOk(c: Config, t: Tables<Poly>)
  {
    && (forall r: nat :: r < |t.regs| ==> PolyOk(c, t.regs[r]))
    && (forall k: nat :: k < |t.tokens| ==> PolyOk(c, t.tokens[k].held))
    && (forall k: nat :: k < |t.outputs| ==> PolyOk(c, t.outputs[k].held))
    && (forall u: nat, x: nat :: u < |t.bcu| && x < |t.bcu[u]| ==> PolyOk(c, t.bcu[u][x]))
  }

  ghost predicate PolyOk(c: Config, o: Option<Poly>)
  {
    o.Some? ==> |o.value.coeffs| == c.n
  }

  /** The same instruction without handles: results are new polynomials, and only accumulators change in place. */
  ghost function AbstractStep(c: Config, kind: Module, a: Abstract, i: Inst): (Abstract, Verdict)
    requires c.Valid() && TablesOk(c, a.tables) && PolysOk(c, a.tables)
  {
    if kind == Memory then
      var (t, verdict) := MemoryStep(a.tables, i);
      (a.(tables := t), verdict)
    else if kind == BaseConversion then
      if i.op == Bci then
        var (t, verdict) := BciStep(c, a.tables, i);
        (a.(tables := t), verdict)
      else if i.op != Pl1 && i.op != Bcw then (a, Fault(UnsupportedOpcode))
      else AbstractFeed(c, a, i)
    else AbstractCompute(c, kind, a, i)
  }

  ghost function AbstractCompute(c: Config, kind: Module, a: Abstract, i: Inst): (Abstract, Verdict)
    requires Computes(kind) && PolysOk(c, a.tables)
  {
    match Fetch(c, a.tables, kind, i)
    case Missing(s) => (a, Fault(s))
    case Got(o) =>
      FetchOk(c, a.tables, kind, i);
      if a.room == 0 then (a, Fault(HandleOverflow))
      else
        match Compute(c, a.tables.active, kind, i, o)
        case Stuck(s) => (a, Fault(s))
        case Values(v) =>
          (Abstract(SetRegister(a.tables, i.dst, Some(Poly(i.rns, ResultNtt(kind, i, o.first.ntt), v))), a.room - 1), Fine)
  }

  lemma ResolveOk(c: Config, t: Tables<Poly>, i: Inst, second: bool, bcu: bool)
    requires PolysOk(c, t)
    ensures Resolve(c, t, i, second, bcu).Got? ==> |Resolve(c, t, i, second, bcu).value.coeffs| == c.n
  {
    var src := if second then i.src1 else i.src0;
    if |t.regs| > 0 {
      assert PolyOk(c, t.regs[src % |t.regs|]);
    }
    var k := Position(t.tokens, i.aux, 0);
    if k < |t.tokens| {
      assert PolyOk(c, t.tokens[k].held);
    }
    var u, x := BcuOutputUnit(src), BcuOutputIndex(src);
    if u < |t.bcu| && x < |t.bcu[u]| {
      assert PolyOk(c, t.bcu[u][x]);
    }
  }

  lemma FetchOk(c: Config, t: Tables<Poly>, kind: Module, i: Inst)
    requires PolysOk(c, t)
    ensures Fetch(c, t, kind, i).Got? ==>
      |Fetch(c, t, kind, i).value.first.coeffs| == c.n == |Fetch(c, t, kind, i).value.second.coeffs|
  {
    ResolveOk(c, t, i, false, kind == Arithmetic || kind == Transform);
    ResolveOk(c, t, i, true, false);
    ResolveOk(c, t, i, true, true);
    hide Resolve, PolysOk;
  }

  ghost function AbstractOpened(c: Config, a: Abstract, unit: nat, index: nat, base: nat): (Abstract, Verdict)
    requires unit < |a.tables.bcu| && index < |a.tables.bcu[unit]|
  {
    match a.tables.bcu[unit][index]
    case None =>
      if a.room == 0 then (a, Fault(HandleOverflow))
      else (Abstract(SetAccumulator(a.tables, unit, index, Poly(base, false, seq(c.n, k => 0))), a.room - 1), Fine)
    case Some(p) => if p.base != base then (a, Fault(InvalidHandle)) else (a, Fine)
  }

  ghost function AbstractFeedFrom(c: Config, a: Abstract, f: Feed<Poly>, index: nat): (Abstract, Verdict)
    requires TablesOk(c, a.tables) && f.unit < c.units && index <= |f.entry.targets|
    requires PolysOk(c, a.tables) && |f.src.coeffs| == c.n
    decreases |f.entry.targets| - index
  {
    if index == |f.entry.targets| then (a, Fine)
    else if index >= c.width then (a, Fault(BadExtraLayout))
    else
      var base := f.entry.targets[index];
      var q := c.Modulus(base);
      if q == 0 then (a, Fault(MissingModulus))
      else
        assert PolyOk(c, a.tables.bcu[f.unit][index]);
        var (open, verdict) := AbstractOpened(c, a, f.unit, index, base);
        if verdict.Fault? then (open, verdict)
        else
          var p := open.tables.bcu[f.unit][index].value;
          var sum := HandleMachine.Accumulated(p.coeffs, f.src.coeffs, FactorAt(f.entry, f.pos, index) % q, q);
          var next := open.(tables := SetAccumulator(open.tables, f.unit, index, p.(coeffs := sum)));
          AbstractFeedFrom(c, next, f, index + 1)
  }

  ghost function AbstractFeed(c: Config, a: Abstract, i: Inst): (Abstract, Verdict)
    requires TablesOk(c, a.tables) && PolysOk(c, a.tables)
  {
    match PlanFeed(c, a.tables, i)
    case Missing(s) => (a, Fault(s))
    case Got(f) =>
      ResolveOk(c, a.tables, i, false, false);
      if i.op == Pl1 && f.src.ntt then
        if c.Modulus(i.rns) == 0 then (a, Fault(MissingModulus))
        else if a.room == 0 then (a, Fault(HandleOverflow))
        else
          var plain := Poly(i.rns, false, BackToCoefficients(c, i.rns, f.src.coeffs));
          AbstractFeedFrom(c, a.(room := a.room - 1), f.(src := plain), 0)
      else AbstractFeedFrom(c, a, f, 0)
  }
}

/** The handle machine refines the polynomial machine: aliasing by loads, moves and stores cannot be observed, and only
    the accumulators of the conversion units change in place. */
module HandleRefinement {
  import opened WordArithmetic
  import opened HandleMachine
  import opened HandleSteps

  // ----- the polynomials behind the handles

  ghost function ViewOption(c: Config, h: Heap, o: Option<nat>): Option<Poly>
  {
    if o.Some? && HeapOk(c, h) && 1 <= o.value <= c.capacity then Some(View(c, h, o.value)) else None
  }

  ghost function ViewEntry(c: Config, h: Heap, e: Entry<nat>): Entry<Poly>
  {
    Entry(e.key, ViewOption(c, h, e.held))
  }

  ghost function ViewRegs(c: Config, h: Heap, regs: seq<Option<nat>>): (r: seq<Option<Poly>>)
    ensures |r| == |regs|
  {
    seq(|regs|, k requires 0 <= k < |regs| => ViewOption(c, h, regs[k]))
  }

  ghost function ViewEntries(c: Config, h: Heap, dir: seq<Entry<nat>>): (r: seq<Entry<Poly>>)
    ensures |r| == |dir|
  {
    seq(|dir|, k requires 0 <= k < |dir| => ViewEntry(c, h, dir[k]))
  }

  ghost function ViewBcu(c: Config, h: Heap, bcu: seq<seq<Option<nat>>>): (r: seq<seq<Option<Poly>>>)
    ensures |r| == |bcu|
  {
    seq(|bcu|, u requires 0 <= u < |bcu| => ViewRegs(c, h, bcu[u]))
  }

  ghost function ViewTables(c: Config, h: Heap, t: Tables<nat>): Tables<Poly>
  {
    Tables(ViewRegs(c, h, t.regs), ViewEntries(c, h, t.tokens), ViewEntries(c, h, t.outputs), ViewBcu(c, h, t.bcu), t.active)
  }

  ghost function Abs(c: Config, m: Machine): Abstract
    requires HeapOk(c, m.heap)
  {
    Abstract(ViewTables(c, m.heap, m.tables), c.capacity - m.heap.count)
  }

  /** Nothing but accumulator (unit, index) holds handle h. */
  ghost predicate OnlyAt(t: Tables<nat>, h: nat, unit: nat, index: nat)
  {
    && (forall r: nat :: r < |t.regs| ==> t.regs[r] != Some(h))
    && (forall k: nat :: k < |t.tokens| ==> t.tokens[k].held != Some(h))
    && (forall k: nat :: k < |t.outputs| ==> t.outputs[k].held != Some(h))
    && (forall u: nat, x: nat :: u < |t.bcu| && x < |t.bcu[u]| && t.bcu[u][x] == Some(h) ==> u == unit && x == index)
  }

  /** Accumulators are shared with nothing. */
  ghost predicate Separate(t: Tables<nat>)
  {
    forall u: nat, x: nat :: u < |t.bcu| && x < |t.bcu[u]| ==> Alone(t, u, x)
  }

  ghost predicate Alone(t: Tables<nat>, u: nat, x: nat)
  {
    u < |t.bcu| && x < |t.bcu[u]| && (t.bcu[u][x].Some? ==> OnlyAt(t, t.bcu[u][x].value, u, x))
  }

  ghost predicate Inv(c: Config, m: Machine)
  {
    Sound(c, m) && Separate(m.tables)
  }

  lemma ViewsOk(c: Config, h: Heap, t: Tables<nat>)
    requires TablesOk(c, t)
    ensures TablesOk(c, ViewTables(c, h, t)) && PolysOk(c, ViewTables(c, h, t))
  {
    var v := ViewTables(c, h, t);
    hide View, HeapOk;
    forall o | true
      ensures PolyOk(c, ViewOption(c, h, o))
    {
      ViewOk(c, h, o);
    }
    forall u: nat, x: nat | u < |v.bcu| && x < |v.bcu[u]|
      ensures PolyOk(c, v.bcu[u][x])
    {
      assert v.bcu[u][x] == ViewOption(c, h, t.bcu[u][x]);
    }
  }

  lemma ViewOk(c: Config, h: Heap, o: Option<nat>)
    ensures PolyOk(c, ViewOption(c, h, o))
  {
  }

  // ----- resolution sees the same thing

  ghost predicate SameFound(c: Config, h: Heap, concrete: Found<nat>, poly: Found<Poly>)
    requires HeapOk(c, h)
  {
    match concrete
    case Missing(s) => poly == Missing(s)
    case Got(x) => 1 <= x <= c.capacity && poly == Got(View(c, h, x))
  }

  lemma {:induction false} PositionSame(c: Config, h: Heap, dir: seq<Entry<nat>>, key: nat, k: nat)
    requires k <= |dir|
    ensures HandleMachine.Position(ViewEntries(c, h, dir), key, k) == HandleMachine.Position(dir, key, k)
    decreases |dir| - k
  {
    hide ViewOption;
    if k < |dir| {
      assert ViewEntries(c, h, dir)[k].key == dir[k].key;
      if dir[k].key != key {
        PositionSame(c, h, dir, key, k + 1);
      }
    }
  }

  lemma OrElseSame(c: Config, h: Heap, o: Option<nat>, s: Status)
    requires HeapOk(c, h) && LiveIn(o, h.count)
    ensures SameFound(c, h, OrElse(o, s), OrElse(ViewOption(c, h, o), s))
  {
  }

  lemma ResolveSame(c: Config, h: Heap, t: Tables<nat>, i: Inst, second: bool, bcu: bool)
    requires HeapOk(c, h) && AllLive(t, h.count)
    ensures SameFound(c, h, Resolve(c, t, i, second, bcu), Resolve(c, ViewTables(c, h, t), i, second, bcu))
  {
    var src, imm := if second then i.src1 else i.src0, if second then i.imm1 else i.imm0;
    var v := ViewTables(c, h, t);
    hide ViewOption, HeapOk, IsBcuOutput, BcuOutputUnit, BcuOutputIndex;
    if imm || src == IMM_OPERAND {
    } else if src == TOKEN_OPERAND {
      PositionSame(c, h, t.tokens, i.aux, 0);
      var k := HandleMachine.Position(t.tokens, i.aux, 0);
      if k < |t.tokens| {
        assert LiveIn(t.tokens[k].held, h.count);
        OrElseSame(c, h, t.tokens[k].held, MissingToken);
      }
    } else if bcu && IsBcuOutput(src) {
      var u, x := BcuOutputUnit(src), BcuOutputIndex(src);
      if u < |t.bcu| && x < |t.bcu[u]| {
        assert LiveIn(t.bcu[u][x], h.count);
        assert v.bcu[u][x] == ViewOption(c, h, t.bcu[u][x]);
        OrElseSame(c, h, t.bcu[u][x], MissingBcuValue);
      }
    } else if |t.regs| > 0 {
      assert LiveIn(t.regs[src % |t.regs|], h.count);
      OrElseSame(c, h, t.regs[src % |t.regs|], InvalidHandle);
    }
  }

  ghost predicate SameOperands(c: Config, h: Heap, concrete: Found<Operands<nat>>, poly: Found<Operands<Poly>>)
    requires HeapOk(c, h)
  {
    match concrete
    case Missing(s) => poly == Missing(s)
    case Got(o) =>
      && 1 <= o.first <= c.capacity && 1 <= o.second <= c.capacity
      && poly == Got(Operands(View(c, h, o.first), View(c, h, o.second), o.q))
  }

  lemma FetchSame(c: Config, h: Heap, t: Tables<nat>, kind: Module, i: Inst)
    requires HeapOk(c, h) && AllLive(t, h.count)
    ensures SameOperands(c, h, Fetch(c, t, kind, i), Fetch(c, ViewTables(c, h, t), kind, i))
  {
    hide Resolve, ViewTables, AllLive, HeapOk, View;
    ResolveSame(c, h, t, i, false, kind == Arithmetic || kind == Transform);
    ResolveSame(c, h, t, i, true, false);
    ResolveSame(c, h, t, i, true, true);
  }

  // ----- frames of the heap

  /** Every allocated handle but one shows the same polynomial. */
  ghost predicate SameBut(c: Config, h: Heap, r: Heap, but: nat)
    requires HeapOk(c, h) && HeapOk(c, r)
  {
    forall x: nat :: 1 <= x <= h.count && x != but ==> SameView(c, h, r, x)
  }

  ghost predicate SameView(c: Config, h: Heap, r: Heap, x: nat)
    requires HeapOk(c, h) && HeapOk(c, r)
  {
    1 <= x <= c.capacity && View(c, r, x) == View(c, h, x)
  }

  lemma OffsetApart(n: nat, x: nat, y: nat)
    requires 1 <= x < y
    ensures Offset(n, x) + n <= Offset(n, y)
  {
    MulNonNegative(y - x - 1, n);
    assert Offset(n, y) == Offset(n, x) + n + (y - x - 1) * n;
  }

  lemma FillView(c: Config, h: Heap, handle: nat, values: seq<int>, x: nat)
    requires HeapOk(c, h) && 1 <= handle <= c.capacity && |values| == c.n && 1 <= x <= c.capacity
    ensures View(c, Fill(c, h, handle, values), x)
         == if x == handle then Poly(h.base[x - 1], h.ntt[x - 1], values) else View(c, h, x)
  {
    RangeFits(c, h, handle);
    RangeFits(c, h, x);
    var at, from, n := Offset(c.n, handle), Offset(c.n, x), c.n;
    if x < handle {
      OffsetApart(n, x, handle);
    } else if handle < x {
      OffsetApart(n, handle, x);
    }
    Splice(h.payload, at, values, from, n);
  }

  lemma Splice(p: seq<int>, at: nat, values: seq<int>, from: nat, n: nat)
    requires |values| == n && at + n <= |p| && from + n <= |p|
    ensures from == at ==> Slice(Spliced(p, at, values), from, n) == values
    ensures from + n <= at || at + n <= from ==> Slice(Spliced(p, at, values), from, n) == Slice(p, from, n)
  {
  }

  lemma AllocateView(c: Config, h: Heap, base: nat, ntt: bool)
    requires HeapOk(c, h) && h.count < c.capacity
    ensures HeapOk(c, Allocate(h, base, ntt)) && SameBut(c, h, Allocate(h, base, ntt), 0)
  {
  }

  /** A result in a fresh handle leaves every other polynomial alone. */
  lemma FreshResult(c: Config, h: Heap, base: nat, ntt: bool, values: seq<int>)
    requires HeapOk(c, h) && h.count < c.capacity && |values| == c.n
    ensures var a := Allocate(h, base, ntt);
      && HeapOk(c, a) && a.count == h.count + 1
      && SameBut(c, h, Fill(c, a, a.count, values), 0)
      && Fill(c, a, a.count, values).count == a.count
      && View(c, Fill(c, a, a.count, values), a.count) == Poly(base, ntt, values)
  {
    AllocateView(c, h, base, ntt);
    var a := Allocate(h, base, ntt);
    FillView(c, a, a.count, values, a.count);
    forall x: nat | 1 <= x <= h.count
      ensures SameView(c, h, Fill(c, a, a.count, values), x)
    {
      assert SameView(c, h, a, x);
      FillView(c, a, a.count, values, x);
    }
  }

  lemma OverwriteView(c: Config, h: Heap, handle: nat, values: seq<int>)
    requires HeapOk(c, h) && 1 <= handle <= h.count && |values| == c.n
    ensures SameBut(c, h, Fill(c, h, handle, values), handle) && Fill(c, h, handle, values).count == h.count
    ensures View(c, Fill(c, h, handle, values), handle) == View(c, h, handle).(coeffs := values)
  {
    FillView(c, h, handle, values, handle);
    forall x: nat | 1 <= x <= h.count && x != handle
      ensures SameView(c, h, Fill(c, h, handle, values), x)
    {
      FillView(c, h, handle, values, x);
    }
  }

  lemma OptionKept(c: Config, h: Heap, r: Heap, but: nat, o: Option<nat>)
    requires HeapOk(c, h) && HeapOk(c, r) && SameBut(c, h, r, but) && LiveIn(o, h.count) && o != Some(but)
    ensures ViewOption(c, r, o) == ViewOption(c, h, o)
  {
    if o.Some? {
      assert SameView(c, h, r, o.value);
    }
  }

  /** Tables that do not hold the changed handle look the same. */
  lemma TablesKept(c: Config, h: Heap, r: Heap, but: nat, t: Tables<nat>)
    requires HeapOk(c, h) && HeapOk(c, r) && SameBut(c, h, r, but) && AllLive(t, h.count)
    requires forall k: nat :: k < |t.regs| ==> t.regs[k] != Some(but)
    requires forall k: nat :: k < |t.tokens| ==> t.tokens[k].held != Some(but)
    requires forall k: nat :: k < |t.outputs| ==> t.outputs[k].held != Some(but)
    ensures ViewRegs(c, r, t.regs) == ViewRegs(c, h, t.regs)
    ensures ViewEntries(c, r, t.tokens) == ViewEntries(c, h, t.tokens)
    ensures ViewEntries(c, r, t.outputs) == ViewEntries(c, h, t.outputs)
    ensures forall u: nat, x: nat :: u < |t.bcu| && x < |t.bcu[u]| && t.bcu[u][x] != Some(but) ==>
      ViewBcu(c, r, t.bcu)[u][x] == ViewBcu(c, h, t.bcu)[u][x]
  {
    hide ViewOption, SameBut, HeapOk;
    forall k: nat | k < |t.regs|
      ensures ViewOption(c, r, t.regs[k]) == ViewOption(c, h, t.regs[k])
    {
      assert LiveIn(t.regs[k], h.count);
      OptionKept(c, h, r, but, t.regs[k]);
    }
    forall k: nat | k < |t.tokens|
      ensures ViewOption(c, r, t.tokens[k].held) == ViewOption(c, h, t.tokens[k].held)
    {
      assert LiveIn(t.tokens[k].held, h.count);
      OptionKept(c, h, r, but, t.tokens[k].held);
    }
    forall k: nat | k < |t.outputs|
      ensures ViewOption(c, r, t.outputs[k].held) == ViewOption(c, h, t.outputs[k].held)
    {
      assert LiveIn(t.outputs[k].held, h.count);
      OptionKept(c, h, r, but, t.outputs[k].held);
    }
    forall u: nat, x: nat | u < |t.bcu| && x < |t.bcu[u]| && t.bcu[u][x] != Some(but)
      ensures ViewOption(c, r, t.bcu[u][x]) == ViewOption(c, h, t.bcu[u][x])
    {
      assert LiveIn(t.bcu[u][x], h.count);
      OptionKept(c, h, r, but, t.bcu[u][x]);
    }
  }

  /** Nothing is held at handle 0, so a fresh result changes no table. */
  lemma AllTablesKept(c: Config, h: Heap, r: Heap, t: Tables<nat>)
    requires HeapOk(c, h) && HeapOk(c, r) && SameBut(c, h, r, 0) && AllLive(t, h.count)
    ensures ViewTables(c, r, t) == ViewTables(c, h, t)
  {
    hide ViewOption, SameBut, HeapOk;
    NeverZero(t, h.count);
    TablesKept(c, h, r, 0, t);
    forall u: nat | u < |t.bcu|
      ensures ViewBcu(c, r, t.bcu)[u] == ViewBcu(c, h, t.bcu)[u]
    {
      forall x: nat | x < |t.bcu[u]|
        ensures ViewBcu(c, r, t.bcu)[u][x] == ViewBcu(c, h, t.bcu)[u][x]
      {
        assert t.bcu[u][x] != Some(0);
      }
    }
    assert ViewBcu(c, r, t.bcu) == ViewBcu(c, h, t.bcu);
  }

  lemma NeverZero(t: Tables<nat>, count: nat)
    requires AllLive(t, count)
    ensures forall k: nat :: k < |t.regs| ==> t.regs[k] != Some(0)
    ensures forall k: nat :: k < |t.tokens| ==> t.tokens[k].held != Some(0)
    ensures forall k: nat :: k < |t.outputs| ==> t.outputs[k].held != Some(0)
    ensures forall u: nat, x: nat :: u < |t.bcu| && x < |t.bcu[u]| ==> t.bcu[u][x] != Some(0)
  {
    forall k: nat | k < |t.regs|
      ensures t.regs[k] != Some(0)
    {
      assert LiveIn(t.regs[k], count);
    }
    forall k: nat | k < |t.tokens|
      ensures t.tokens[k].held != Some(0)
    {
      assert LiveIn(t.tokens[k].held, count);
    }
    forall k: nat | k < |t.outputs|
      ensures t.outputs[k].held != Some(0)
    {
      assert LiveIn(t.outputs[k].held, count);
    }
    forall u: nat, x: nat | u < |t.bcu| && x < |t.bcu[u]|
      ensures t.bcu[u][x] != Some(0)
    {
      assert LiveIn(t.bcu[u][x], count);
    }
  }

  // ----- table updates commute with viewing

  lemma SetRegisterSame(c: Config, h: Heap, t: Tables<nat>, dst: nat, o: Option<nat>)
    ensures ViewTables(c, h, SetRegister(t, dst, o)) == SetRegister(ViewTables(c, h, t), dst, ViewOption(c, h, o))
  {
    hide ViewOption;
    var t', v := SetRegister(t, dst, o), SetRegister(ViewTables(c, h, t), dst, ViewOption(c, h, o));
    assert ViewRegs(c, h, t'.regs) == v.regs;
  }

  /** Binding a register keeps the accumulators private, as long as the handle is none of theirs. */
  lemma SetRegisterInv(c: Config, t: Tables<nat>, dst: nat, o: Option<nat>, count: nat)
    requires TablesOk(c, t) && AllLive(t, count) && Separate(t) && LiveIn(o, count)
    requires o.Some? ==> forall u: nat, x: nat :: u < |t.bcu| && x < |t.bcu[u]| ==> t.bcu[u][x] != o
    ensures var r := SetRegister(t, dst, o); TablesOk(c, r) && AllLive(r, count) && Separate(r)
  {
    var r := SetRegister(t, dst, o);
    assert RegsLive(t.regs, count);
    forall u: nat, x: nat | u < |r.bcu| && x < |r.bcu[u]|
      ensures Alone(r, u, x)
    {
      assert Alone(t, u, x);
    }
  }

  /** A handle held by a register or a directory is no accumulator. */
  lemma HeldElsewhere(t: Tables<nat>, o: Option<nat>)
    requires Separate(t) && o.Some?
    requires (exists r: nat :: r < |t.regs| && t.regs[r] == o) || (exists k: nat :: k < |t.tokens| && t.tokens[k].held == o)
    ensures forall u: nat, x: nat :: u < |t.bcu| && x < |t.bcu[u]| ==> t.bcu[u][x] != o
  {
    forall u: nat, x: nat | u < |t.bcu| && x < |t.bcu[u]|
      ensures t.bcu[u][x] != o
    {
      assert Alone(t, u, x);
    }
  }

  lemma SetAccumulatorSame(c: Config, h: Heap, t: Tables<nat>, unit: nat, index: nat, x: nat)
    requires unit < |t.bcu| && index < |t.bcu[unit]| && HeapOk(c, h) && 1 <= x <= c.capacity
    ensures ViewTables(c, h, SetAccumulator(t, unit, index, x)) == SetAccumulator(ViewTables(c, h, t), unit, index, View(c, h, x))
  {
    hide HeapOk, View;
    var r, v := SetAccumulator(t, unit, index, x), SetAccumulator(ViewTables(c, h, t), unit, index, View(c, h, x));
    assert ViewOption(c, h, Some(x)) == Some(View(c, h, x));
    hide ViewOption;
    forall u: nat | u < |t.bcu|
      ensures ViewBcu(c, h, r.bcu)[u] == v.bcu[u]
    {
      assert ViewRegs(c, h, r.bcu[u]) == v.bcu[u];
    }
    assert ViewBcu(c, h, r.bcu) == v.bcu;
  }

  lemma SetAccumulatorInv(c: Config, t: Tables<nat>, unit: nat, index: nat, count: nat)
    requires TablesOk(c, t) && AllLive(t, count) && Separate(t) && unit < |t.bcu| && index < |t.bcu[unit]|
    ensures var r := SetAccumulator(t, unit, index, count + 1); TablesOk(c, r) && AllLive(r, count + 1) && Separate(r)
  {
    var r := SetAccumulator(t, unit, index, count + 1);
    LiveMore(t, count, count + 1);
    assert BcuLive(t.bcu, count + 1);
    forall u: nat, x: nat | u < |r.bcu| && x < |r.bcu[u]|
      ensures Alone(r, u, x)
    {
      assert Alone(t, u, x);
      if u == unit && x == index {
        NewIsAlone(t, unit, index, count);
      } else {
        assert r.bcu[u][x] == t.bcu[u][x];
        assert LiveIn(t.bcu[u][x], count);
      }
    }
  }

  lemma NewIsAlone(t: Tables<nat>, unit: nat, index: nat, count: nat)
    requires AllLive(t, count) && unit < |t.bcu| && index < |t.bcu[unit]|
    ensures OnlyAt(SetAccumulator(t, unit, index, count + 1), count + 1, unit, index)
  {
    var r := SetAccumulator(t, unit, index, count + 1);
    forall k: nat | k < |t.regs|
      ensures t.regs[k] != Some(count + 1)
    {
      assert LiveIn(t.regs[k], count);
    }
    forall k: nat | k < |t.tokens|
      ensures t.tokens[k].held != Some(count + 1)
    {
      assert LiveIn(t.tokens[k].held, count);
    }
    forall k: nat | k < |t.outputs|
      ensures t.outputs[k].held != Some(count + 1)
    {
      assert LiveIn(t.outputs[k].held, count);
    }
    forall u: nat, x: nat | u < |r.bcu| && x < |r.bcu[u]| && !(u == unit && x == index)
      ensures r.bcu[u][x] != Some(count + 1)
    {
      assert r.bcu[u][x] == t.bcu[u][x];
      assert LiveIn(t.bcu[u][x], count);
    }
  }

  // ----- the steps

  /** What refinement means for one instruction: the same verdict, on success the same polynomials everywhere, and on a
      fault the same polynomials in registers and directories as before. */
  ghost predicate Refines(c: Config, m: Machine, r: Machine, verdict: Verdict, a: Abstract, averdict: Verdict)
    requires HeapOk(c, m.heap) && HeapOk(c, r.heap)
  {
    && verdict == averdict
    && (verdict.Fine? ==> Abs(c, r) == a)
    && (verdict.Fault? ==> SameShown(Abs(c, r).tables, Abs(c, m).tables))
  }

  ghost predicate SameShown(t: Tables<Poly>, u: Tables<Poly>)
  {
    t.regs == u.regs && t.tokens == u.tokens && t.outputs == u.outputs
  }

  lemma LookupLive(c: Config, h: Heap, dir: seq<Entry<nat>>, key: nat)
    requires HeapOk(c, h) && EntriesLive(dir, h.count)
    ensures Lookup(ViewEntries(c, h, dir), key) == ViewOption(c, h, Lookup(dir, key))
    ensures LiveIn(Lookup(dir, key), h.count) && (Lookup(dir, key).Some? <==> ViewOption(c, h, Lookup(dir, key)).Some?)
  {
    PositionSame(c, h, dir, key, 0);
    var k := HandleMachine.Position(dir, key, 0);
    if k < |dir| {
      assert LiveIn(dir[k].held, h.count);
    }
  }

  lemma LookupHeld(t: Tables<nat>, key: nat)
    ensures Lookup(t.tokens, key).Some? ==> exists k: nat :: k < |t.tokens| && t.tokens[k].held == Lookup(t.tokens, key)
  {
    var k := HandleMachine.Position(t.tokens, key, 0);
    if k < |t.tokens| {
      assert t.tokens[k].held == Lookup(t.tokens, key);
    }
  }

  lemma {:induction false} PositionHits<T>(dir: seq<Entry<T>>, key: nat, k: nat)
    requires k <= |dir|
    ensures HandleMachine.Position(dir, key, k) < |dir| ==> dir[HandleMachine.Position(dir, key, k)].key == key
    decreases |dir| - k
  {
    if k < |dir| && dir[k].key != key {
      PositionHits(dir, key, k + 1);
    }
  }

  lemma StoreSafe(c: Config, m: Machine, i: Inst)
    requires Inv(c, m) && i.op in {Store, Spill, Snd}
    ensures var s, a := Step(c, Memory, m, i), MemoryStep(Abs(c, m).tables, i);
      && Inv(c, s.0) && s.0.heap == m.heap && s.1 == a.1 && Abs(c, s.0).tables == a.0
  {
    var t, h := m.tables, m.heap;
    hide Config.Valid, View, HeapOk;
    if |t.regs| > 0 {
      var o := RegisterAt(t.regs, i.src0);
      assert LiveIn(o, h.count);
      SomeSame(c, h, o);
      PositionSame(c, h, t.outputs, i.aux, 0);
      var at := HandleMachine.Position(t.outputs, i.aux, 0);
      if o.Some? && at < |t.outputs| {
        StoreInv(c, t, at, i.aux, o, i.src0 % |t.regs|, h.count);
        hide ViewOption;
        assert ViewEntries(c, h, t.outputs[at := Entry(i.aux, o)]) == ViewEntries(c, h, t.outputs)[at := Entry(i.aux, ViewOption(c, h, o))];
      }
    }
  }

  lemma SomeSame(c: Config, h: Heap, o: Option<nat>)
    requires HeapOk(c, h) && LiveIn(o, h.count)
    ensures ViewOption(c, h, o).Some? <==> o.Some?
  {
  }

  lemma StoreInv(c: Config, t: Tables<nat>, at: nat, key: nat, o: Option<nat>, r: nat, count: nat)
    requires TablesOk(c, t) && AllLive(t, count) && Separate(t) && at < |t.outputs| && r < |t.regs| && t.regs[r] == o && o.Some?
    ensures var u := t.(outputs := t.outputs[at := Entry(key, o)]); TablesOk(c, u) && AllLive(u, count) && Separate(u)
  {
    var n := t.(outputs := t.outputs[at := Entry(key, o)]);
    HeldElsewhere(t, o);
    assert LiveIn(t.regs[r], count);
    assert EntriesLive(t.outputs, count);
    forall u: nat, x: nat | u < |n.bcu| && x < |n.bcu[u]|
      ensures Alone(n, u, x)
    {
      assert Alone(t, u, x);
    }
  }

  lemma LoadSafe(c: Config, m: Machine, i: Inst)
    requires Inv(c, m) && i.op !in {Store, Spill, Snd}
    ensures var s, a := Step(c, Memory, m, i), MemoryStep(Abs(c, m).tables, i);
      && Inv(c, s.0) && s.0.heap == m.heap && s.1 == a.1 && Abs(c, s.0).tables == a.0
  {
    var t, h := m.tables, m.heap;
    hide Config.Valid, View, HeapOk;
    if i.imm0 || i.src0 == IMM_OPERAND {
    } else if i.src0 == TOKEN_OPERAND {
      LookupLive(c, h, t.tokens, i.aux);
      LookupHeld(t, i.aux);
      var o := Lookup(t.tokens, i.aux);
      if o.Some? {
        HeldElsewhere(t, o);
        SetRegisterInv(c, t, i.dst, o, h.count);
      }
      SetRegisterSame(c, h, t, i.dst, o);
      hide ViewOption, SetRegister, Lookup, Separate, AllLive;
    } else {
      var o: Option<nat> := if |t.regs| == 0 then None else RegisterAt(t.regs, i.src0);
      if |t.regs| > 0 {
        assert LiveIn(t.regs[i.src0 % |t.regs|], h.count);
      }
      if o.Some? {
        HeldElsewhere(t, o);
      }
      SetRegisterInv(c, t, i.dst, o, h.count);
      SetRegisterSame(c, h, t, i.dst, o);
      hide SetRegister, Separate, AllLive;
    }
  }

  /** Conversion units start over with private, empty accumulators. */
  lemma BciSafe(c: Config, m: Machine, i: Inst)
    requires Inv(c, m) && i.op == Bci
    ensures TablesOk(c, Abs(c, m).tables)
    ensures var s, a := Step(c, BaseConversion, m, i), BciStep(c, Abs(c, m).tables, i);
      && Inv(c, s.0) && s.0.heap == m.heap && s.1 == a.1 && Abs(c, s.0).tables == a.0
  {
    ViewsOk(c, m.heap, m.tables);
    var t, h := m.tables, m.heap;
    var r := BciStep(c, t, i).0;
    hide Config.Valid, View, HeapOk;
    var unit := BcuUnit(i.dst);
    if BciStep(c, t, i).1.Fine? {
      forall u: nat, x: nat | u < |r.bcu| && x < |r.bcu[u]|
        ensures Alone(r, u, x) && LiveIn(r.bcu[u][x], h.count)
      {
        if u != unit {
          assert Alone(t, u, x) && LiveIn(t.bcu[u][x], h.count);
        }
      }
      forall u: nat | u < |r.bcu|
        ensures ViewBcu(c, h, r.bcu)[u] == BciStep(c, ViewTables(c, h, t), i).0.bcu[u]
      {
        assert ViewRegs(c, h, r.bcu[u]) == BciStep(c, ViewTables(c, h, t), i).0.bcu[u];
      }
      assert ViewBcu(c, h, r.bcu) == BciStep(c, ViewTables(c, h, t), i).0.bcu;
    }
  }

  lemma AbsOk(c: Config, m: Machine)
    requires Inv(c, m)
    ensures TablesOk(c, Abs(c, m).tables) && PolysOk(c, Abs(c, m).tables)
  {
    ViewsOk(c, m.heap, m.tables);
  }

  /** A computing instruction: the result goes to a fresh handle, so nothing else changes. */
  lemma ComputeSafe(c: Config, kind: Module, m: Machine, i: Inst)
    requires Inv(c, m) && Computes(kind)
    ensures PolysOk(c, Abs(c, m).tables)
    ensures var s, a := ComputeStep(c, kind, m, i), AbstractCompute(c, kind, Abs(c, m), i);
      Inv(c, s.0) && Refines(c, m, s.0, s.1, a.0, a.1)
  {
    AbsOk(c, m);
    var t, h := m.tables, m.heap;
    FetchSame(c, h, t, kind, i);
    FetchLive(c, t, kind, i, h.count);
    hide Config.Valid, View, HeapOk, Fetch, Compute, AllLive, TablesOk, PolysOk, ViewTables, Separate, Fill;
    match Fetch(c, t, kind, i)
    case Missing(s) =>
    case Got(o) =>
      if h.count < c.capacity {
        ComputeInto(c, kind, m, i, o);
      }
  }

  lemma ComputeInto(c: Config, kind: Module, m: Machine, i: Inst, o: Operands<nat>)
    requires Inv(c, m) && Computes(kind) && m.heap.count < c.capacity && Fetch(c, m.tables, kind, i) == Got(o)
    requires 1 <= o.first <= m.heap.count && 1 <= o.second <= m.heap.count
    requires PolysOk(c, Abs(c, m).tables)
    requires Fetch(c, Abs(c, m).tables, kind, i) == Got(Operands(View(c, m.heap, o.first), View(c, m.heap, o.second), o.q))
    ensures var s, a := ComputeStep(c, kind, m, i), AbstractCompute(c, kind, Abs(c, m), i);
      Inv(c, s.0) && Refines(c, m, s.0, s.1, a.0, a.1)
  {
    var t, h := m.tables, m.heap;
    var ntt := ResultNtt(kind, i, h.ntt[o.first - 1]);
    hide Config.Valid, View, Fetch, Compute, TablesOk, PolysOk, ViewTables, Fill, AllLive, Separate, ComputeStep, AbstractCompute;
    ComputeStepIs(c, kind, m, i, o);
    AbstractComputeIs(c, kind, Abs(c, m), i, Operands(View(c, h, o.first), View(c, h, o.second), o.q));
    OperandsKept(c, h, i.rns, ntt, o);
    AllTablesKept(c, h, Allocate(h, i.rns, ntt), t);
    LiveMore(t, h.count, h.count + 1);
    FetchOk(c, Abs(c, m).tables, kind, i);
    match Compute(c, t.active, kind, i, Operands(View(c, h, o.first), View(c, h, o.second), o.q))
    case Stuck(s) =>
    case Values(v) => ResultBound(c, m, i, ntt, v);
  }

  lemma ComputeStepIs(c: Config, kind: Module, m: Machine, i: Inst, o: Operands<nat>)
    requires Sound(c, m) && Computes(kind) && m.heap.count < c.capacity && Fetch(c, m.tables, kind, i) == Got(o)
    requires 1 <= o.first <= m.heap.count && 1 <= o.second <= m.heap.count
    ensures var heap := Allocate(m.heap, i.rns, ResultNtt(kind, i, m.heap.ntt[o.first - 1]));
      ComputeStep(c, kind, m, i) ==
      match Compute(c, m.tables.active, kind, i, Operands(View(c, heap, o.first), View(c, heap, o.second), o.q))
      case Stuck(s) => (m.(heap := heap), Fault(s))
      case Values(v) => (Machine(SetRegister(m.tables, i.dst, Some(heap.count)), Fill(c, heap, heap.count, v)), Fine)
  {
    hide Config.Valid, View, Fetch, Compute, TablesOk, Fill, AllLive;
  }

  lemma AbstractComputeIs(c: Config, kind: Module, a: Abstract, i: Inst, o: Operands<Poly>)
    requires Computes(kind) && PolysOk(c, a.tables) && a.room > 0 && Fetch(c, a.tables, kind, i) == Got(o)
    requires |o.first.coeffs| == c.n == |o.second.coeffs|
    ensures AbstractCompute(c, kind, a, i) ==
      match Compute(c, a.tables.active, kind, i, o)
      case Stuck(s) => (a, Fault(s))
      case Values(v) =>
        (Abstract(SetRegister(a.tables, i.dst, Some(Poly(i.rns, ResultNtt(kind, i, o.first.ntt), v))), a.room - 1), Fine)
  {
    hide Fetch, Compute, PolysOk;
  }

  lemma OperandsKept(c: Config, h: Heap, base: nat, ntt: bool, o: Operands<nat>)
    requires HeapOk(c, h) && h.count < c.capacity && 1 <= o.first <= h.count && 1 <= o.second <= h.count
    ensures HeapOk(c, Allocate(h, base, ntt)) && SameBut(c, h, Allocate(h, base, ntt), 0)
    ensures View(c, Allocate(h, base, ntt), o.first) == View(c, h, o.first)
    ensures View(c, Allocate(h, base, ntt), o.second) == View(c, h, o.second)
    ensures View(c, h, o.first).ntt == h.ntt[o.first - 1]
  {
    AllocateView(c, h, base, ntt);
    assert SameView(c, h, Allocate(h, base, ntt), o.first) && SameView(c, h, Allocate(h, base, ntt), o.second);
  }

  /** Binding a register to a fresh result. */
  lemma ResultBound(c: Config, m: Machine, i: Inst, ntt: bool, v: seq<int>)
    requires Inv(c, m) && m.heap.count < c.capacity && |v| == c.n
    ensures HeapOk(c, Allocate(m.heap, i.rns, ntt))
    ensures var heap := Allocate(m.heap, i.rns, ntt);
      var r := Machine(SetRegister(m.tables, i.dst, Some(heap.count)), Fill(c, heap, heap.count, v));
      && Inv(c, r) && r.heap.count == m.heap.count + 1
      && ViewTables(c, r.heap, r.tables) == SetRegister(ViewTables(c, m.heap, m.tables), i.dst, Some(Poly(i.rns, ntt, v)))
  {
    var t, h := m.tables, m.heap;
    FreshResult(c, h, i.rns, ntt, v);
    var heap := Allocate(h, i.rns, ntt);
    var filled := Fill(c, heap, heap.count, v);
    AllTablesKept(c, h, filled, t);
    LiveMore(t, h.count, heap.count);
    NotYetHeld(t, h.count);
    SetRegisterSame(c, filled, t, i.dst, Some(heap.count));
    SetRegisterInv(c, t, i.dst, Some(heap.count), heap.count);
    assert ViewOption(c, filled, Some(heap.count)) == Some(View(c, filled, heap.count));
    hide ViewTables, AllLive, Separate, View, SetRegister;
  }

  lemma NotYetHeld(t: Tables<nat>, count: nat)
    requires AllLive(t, count)
    ensures forall u: nat, x: nat :: u < |t.bcu| && x < |t.bcu[u]| ==> t.bcu[u][x] != Some(count + 1)
  {
    forall u: nat, x: nat | u < |t.bcu| && x < |t.bcu[u]|
      ensures t.bcu[u][x] != Some(count + 1)
    {
      assert LiveIn(t.bcu[u][x], count);
    }
  }

  // ----- feeding a conversion

  /** A source that no accumulator shares. */
  ghost predicate Apart(t: Tables<nat>, src: nat)
  {
    forall u: nat, x: nat :: u < |t.bcu| && x < |t.bcu[u]| ==> t.bcu[u][x] != Some(src)
  }

  lemma OpenedSafe(c: Config, m: Machine, unit: nat, index: nat, base: nat, src: nat)
    requires Inv(c, m) && unit < c.units && index < c.width && 1 <= src <= m.heap.count && Apart(m.tables, src)
    ensures TablesOk(c, Abs(c, m).tables)
    ensures var (r, v) := Opened(c, m, unit, index, base);
      var (a, av) := AbstractOpened(c, Abs(c, m), unit, index, base);
      && Inv(c, r) && v == av && (v.Fine? ==> Abs(c, r) == a) && SameShown(Abs(c, r).tables, Abs(c, m).tables)
      && 1 <= src <= r.heap.count && Apart(r.tables, src) && View(c, r.heap, src) == View(c, m.heap, src)
      && (v.Fine? ==> r.tables.bcu[unit][index].Some?)
  {
    AbsOk(c, m);
    var t, h := m.tables, m.heap;
    assert LiveIn(t.bcu[unit][index], h.count);
    assert ViewBcu(c, h, t.bcu)[unit][index] == ViewOption(c, h, t.bcu[unit][index]);
    hide Config.Valid, HeapOk, TablesOk, PolysOk, AllLive, Separate, Fill;
    match t.bcu[unit][index]
    case Some(x) =>
    case None =>
      if h.count < c.capacity {
        OpenedFresh(c, m, unit, index, base, src);
      }
  }

  lemma OpenedFresh(c: Config, m: Machine, unit: nat, index: nat, base: nat, src: nat)
    requires Inv(c, m) && unit < c.units && index < c.width && 1 <= src <= m.heap.count && Apart(m.tables, src)
    requires m.heap.count < c.capacity
    ensures HeapOk(c, Allocate(m.heap, base, false))
    ensures var heap := Allocate(m.heap, base, false);
      var r := Machine(SetAccumulator(m.tables, unit, index, heap.count), Fill(c, heap, heap.count, seq(c.n, k => 0)));
      && Inv(c, r) && r.heap.count == heap.count && Apart(r.tables, src) && View(c, r.heap, src) == View(c, m.heap, src)
      && ViewTables(c, r.heap, r.tables) == SetAccumulator(ViewTables(c, m.heap, m.tables), unit, index, Poly(base, false, seq(c.n, k => 0)))
  {
    var t, h, zeros := m.tables, m.heap, seq(c.n, k => 0);
    FreshResult(c, h, base, false, zeros);
    var heap := Allocate(h, base, false);
    var filled := Fill(c, heap, heap.count, zeros);
    AllTablesKept(c, h, filled, t);
    assert SameView(c, h, filled, src);
    SetAccumulatorInv(c, t, unit, index, h.count);
    SetAccumulatorSame(c, filled, t, unit, index, heap.count);
    hide ViewTables, AllLive, Separate, View;
  }

  /** Overwriting an accumulator shows only there. */
  lemma AccumulateSafe(c: Config, m: Machine, unit: nat, index: nat, sum: seq<int>, src: nat)
    requires Inv(c, m) && unit < c.units && index < c.width && m.tables.bcu[unit][index].Some? && |sum| == c.n
    requires 1 <= src <= m.heap.count && Apart(m.tables, src)
    ensures 1 <= m.tables.bcu[unit][index].value <= m.heap.count
    ensures var x := m.tables.bcu[unit][index].value;
      var r := m.(heap := Fill(c, m.heap, x, sum));
      && Inv(c, r) && r.heap.count == m.heap.count && View(c, r.heap, src) == View(c, m.heap, src)
      && ViewTables(c, m.heap, m.tables).bcu[unit][index] == Some(View(c, m.heap, x))
      && ViewTables(c, r.heap, r.tables)
           == SetAccumulator(ViewTables(c, m.heap, m.tables), unit, index, View(c, m.heap, x).(coeffs := sum))
  {
    var t, h := m.tables, m.heap;
    assert LiveIn(t.bcu[unit][index], h.count) && Alone(t, unit, index);
    var x := t.bcu[unit][index].value;
    OverwriteView(c, h, x, sum);
    var filled := Fill(c, h, x, sum);
    assert src != x;
    assert SameView(c, h, filled, src);
    TablesKept(c, h, filled, x, t);
    BcuOverwritten(c, h, filled, t, unit, index, x, sum);
    hide Fill, AllLive, Separate, View;
  }

  lemma BcuOverwritten(c: Config, h: Heap, r: Heap, t: Tables<nat>, unit: nat, index: nat, x: nat, sum: seq<int>)
    requires HeapOk(c, h) && HeapOk(c, r) && unit < |t.bcu| && index < |t.bcu[unit]| && t.bcu[unit][index] == Some(x)
    requires 1 <= x <= c.capacity && OnlyAt(t, x, unit, index) && View(c, r, x) == View(c, h, x).(coeffs := sum)
    requires forall u: nat, y: nat :: u < |t.bcu| && y < |t.bcu[u]| && t.bcu[u][y] != Some(x) ==>
      ViewBcu(c, r, t.bcu)[u][y] == ViewBcu(c, h, t.bcu)[u][y]
    ensures ViewBcu(c, h, t.bcu)[unit][index] == Some(View(c, h, x))
    ensures ViewBcu(c, r, t.bcu) == ViewBcu(c, h, t.bcu)[unit := ViewBcu(c, h, t.bcu)[unit][index := Some(View(c, h, x).(coeffs := sum))]]
  {
    assert ViewOption(c, h, Some(x)) == Some(View(c, h, x)) && ViewOption(c, r, Some(x)) == Some(View(c, r, x));
    hide ViewOption, HeapOk, View;
    var v, w := ViewBcu(c, h, t.bcu), ViewBcu(c, r, t.bcu);
    var goal := v[unit := v[unit][index := Some(View(c, h, x).(coeffs := sum))]];
    forall u: nat | u < |t.bcu|
      ensures w[u] == goal[u]
    {
      forall y: nat | y < |t.bcu[u]|
        ensures w[u][y] == goal[u][y]
      {
        if u == unit && y == index {
          assert w[u][y] == ViewOption(c, r, t.bcu[u][y]);
        } else {
          assert t.bcu[u][y] != Some(x);
        }
      }
    }
    assert w == goal;
  }

  function WithSource(f: Feed<nat>, p: Poly): Feed<Poly>
  {
    Feed(f.unit, f.entry, f.pos, p)
  }

  lemma {:induction false} FeedFromSafe(c: Config, m: Machine, f: Feed<nat>, index: nat)
    requires Inv(c, m) && f.unit < c.units && 1 <= f.src <= m.heap.count && index <= |f.entry.targets| && Apart(m.tables, f.src)
    ensures TablesOk(c, Abs(c, m).tables) && PolysOk(c, Abs(c, m).tables)
    ensures var (r, v) := FeedFrom(c, m, f, index);
      var (a, av) := AbstractFeedFrom(c, Abs(c, m), WithSource(f, View(c, m.heap, f.src)), index);
      Inv(c, r) && v == av && (v.Fine? ==> Abs(c, r) == a) && SameShown(Abs(c, r).tables, Abs(c, m).tables)
    decreases |f.entry.targets| - index
  {
    AbsOk(c, m);
    if index < |f.entry.targets| && index < c.width && c.Modulus(f.entry.targets[index]) > 0 {
      FeedOne(c, m, f, index);
    }
  }

  lemma {:induction false} FeedOne(c: Config, m: Machine, f: Feed<nat>, index: nat)
    requires Inv(c, m) && f.unit < c.units && 1 <= f.src <= m.heap.count && index < |f.entry.targets| && Apart(m.tables, f.src)
    requires index < c.width && c.Modulus(f.entry.targets[index]) > 0
    requires TablesOk(c, Abs(c, m).tables) && PolysOk(c, Abs(c, m).tables)
    ensures var (r, v) := FeedFrom(c, m, f, index);
      var (a, av) := AbstractFeedFrom(c, Abs(c, m), WithSource(f, View(c, m.heap, f.src)), index);
      Inv(c, r) && v == av && (v.Fine? ==> Abs(c, r) == a) && SameShown(Abs(c, r).tables, Abs(c, m).tables)
    decreases |f.entry.targets| - index, 0
  {
    var base := f.entry.targets[index];
    var q := c.Modulus(base);
    OpenedSound(c, m, f.unit, index, base);
    OpenedSafe(c, m, f.unit, index, base, f.src);
    var (open, verdict) := Opened(c, m, f.unit, index, base);
    if verdict.Fine? {
      var x := open.tables.bcu[f.unit][index].value;
      assert LiveIn(open.tables.bcu[f.unit][index], open.heap.count);
      var sum := HandleMachine.Accumulated(View(c, open.heap, x).coeffs, View(c, open.heap, f.src).coeffs, FactorAt(f.entry, f.pos, index) % q, q);
      AccumulateSafe(c, open, f.unit, index, sum, f.src);
      var next := open.(heap := Fill(c, open.heap, x, sum));
      FeedFromSafe(c, next, f, index + 1);
    }
  }

  lemma PlanSame(c: Config, m: Machine, i: Inst)
    requires Inv(c, m)
    ensures TablesOk(c, Abs(c, m).tables) && PlanLive(PlanFeed(c, m.tables, i), m.heap.count)
    ensures match PlanFeed(c, m.tables, i)
      case Missing(s) => PlanFeed(c, Abs(c, m).tables, i) == Missing(s)
      case Got(f) =>
        PlanLive(Got(f), m.heap.count) && PlanFeed(c, Abs(c, m).tables, i) == Got(WithSource(f, View(c, m.heap, f.src)))
        && Apart(m.tables, f.src)
  {
    AbsOk(c, m);
    ResolveSame(c, m.heap, m.tables, i, false, false);
    ResolveLive(c, m.tables, i, false, false, m.heap.count);
    ResolvedApart(c, m.tables, i);
    hide Config.Valid, Resolve, View, HeapOk, AllLive, Separate, Apart;
  }

  /** Registers and tokens never name an accumulator. */
  lemma ResolvedApart(c: Config, t: Tables<nat>, i: Inst)
    requires Separate(t)
    ensures var r := Resolve(c, t, i, false, false); r.Got? ==> Apart(t, r.value)
  {
    var r := Resolve(c, t, i, false, false);
    if r.Got? {
      if i.src0 == TOKEN_OPERAND {
        LookupHeld(t, i.aux);
      } else {
        assert t.regs[i.src0 % |t.regs|] == Some(r.value);
      }
      HeldElsewhere(t, Some(r.value));
    }
  }

  lemma FeedSafe(c: Config, m: Machine, i: Inst)
    requires Inv(c, m)
    ensures TablesOk(c, Abs(c, m).tables) && PolysOk(c, Abs(c, m).tables)
    ensures var (r, v) := FeedStep(c, m, i);
      var (a, av) := AbstractFeed(c, Abs(c, m), i);
      Inv(c, r) && Refines(c, m, r, v, a, av)
  {
    hide Config.Valid, View, AllLive, Separate, TablesOk, PolysOk, ViewTables, Fill, PlanFeed, FeedFrom, AbstractFeedFrom, Apart;
    hide BackToCoefficients, Config.Modulus, LiveIn;
    AbsOk(c, m);
    PlanSame(c, m, i);
    match PlanFeed(c, m.tables, i)
    case Missing(s) =>
    case Got(f) =>
      FlagSeen(c, m.heap, f.src);
      if i.op == Pl1 && m.heap.ntt[f.src - 1] {
        if c.Modulus(i.rns) > 0 && m.heap.count < c.capacity {
          PlainSource(c, m, i, f);
        }
      } else {
        FeedFromSafe(c, m, f, 0);
      }
  }

  lemma FlagSeen(c: Config, h: Heap, x: nat)
    requires HeapOk(c, h) && 1 <= x <= h.count
    ensures View(c, h, x).ntt == h.ntt[x - 1]
  {
  }

  /** The normalised source sits in a fresh handle that no table holds. */
  lemma PlainSource(c: Config, m: Machine, i: Inst, f: Feed<nat>)
    requires Inv(c, m) && c.Modulus(i.rns) > 0 && m.heap.count < c.capacity && f.unit < c.units && 1 <= f.src <= m.heap.count
    ensures HeapOk(c, Allocate(m.heap, i.rns, false))
    ensures View(c, Allocate(m.heap, i.rns, false), f.src) == View(c, m.heap, f.src)
    ensures TablesOk(c, Abs(c, m).tables) && PolysOk(c, Abs(c, m).tables)
    ensures var heap := Allocate(m.heap, i.rns, false);
      var x := BackToCoefficients(c, i.rns, View(c, m.heap, f.src).coeffs);
      var plain := m.(heap := Fill(c, heap, heap.count, x));
      var (r, v) := FeedFrom(c, plain, f.(src := heap.count), 0);
      var (a, av) := AbstractFeedFrom(c, Abstract(Abs(c, m).tables, Abs(c, m).room - 1), WithSource(f, Poly(i.rns, false, x)), 0);
      && Inv(c, plain) && Abs(c, plain) == Abstract(Abs(c, m).tables, Abs(c, m).room - 1)
      && Inv(c, r) && v == av && (v.Fine? ==> Abs(c, r) == a) && SameShown(Abs(c, r).tables, Abs(c, m).tables)
  {
    AbsOk(c, m);
    OperandsKept(c, m.heap, i.rns, false, Operands(f.src, f.src, 0));
    var x := BackToCoefficients(c, i.rns, View(c, m.heap, f.src).coeffs);
    FreshResult(c, m.heap, i.rns, false, x);
    var heap := Allocate(m.heap, i.rns, false);
    var plain := m.(heap := Fill(c, heap, heap.count, x));
    AllTablesKept(c, m.heap, plain.heap, m.tables);
    LiveMore(m.tables, m.heap.count, heap.count);
    NotYetHeld(m.tables, m.heap.count);
    hide Config.Valid, View, AllLive, Separate, TablesOk, PolysOk, ViewTables, Fill, FeedFrom, AbstractFeedFrom;
    FeedFromSafe(c, plain, f.(src := heap.count), 0);
  }

  /** Every instruction of every module: the same verdict as on whole polynomials; on success the same polynomials
      everywhere, on a fault registers and directories as before. */
  lemma StepRefines(c: Config, kind: Module, m: Machine, i: Inst)
    requires Inv(c, m)
    ensures TablesOk(c, Abs(c, m).tables) && PolysOk(c, Abs(c, m).tables)
    ensures var (r, v) := Step(c, kind, m, i);
      var (a, av) := AbstractStep(c, kind, Abs(c, m), i);
      Inv(c, r) && Refines(c, m, r, v, a, av)
  {
    AbsOk(c, m);
    match kind
    case Memory =>
      if i.op in {Store, Spill, Snd} {
        StoreSafe(c, m, i);
      } else {
        LoadSafe(c, m, i);
      }
      MemoryFault(Abs(c, m).tables, i);
      hide Config.Valid, View, AllLive, Separate, TablesOk, PolysOk, ViewTables, MemoryStep;
    case BaseConversion =>
      if i.op == Bci {
        BciSafe(c, m, i);
        hide Config.Valid, View, AllLive, Separate, PolysOk, ViewTables;
      } else if i.op == Pl1 || i.op == Bcw {
        FeedSafe(c, m, i);
        hide *;
      }
    case _ => ComputeSafe(c, kind, m, i);
  }

  lemma MemoryFault<T>(t: Tables<T>, i: Inst)
    ensures MemoryStep(t, i).1.Fault? ==> MemoryStep(t, i).0 == t
  {
  }

  // ----- whole modules

  /** A module call walks the instructions, executes its own, and stops at the first fault. */
  ghost function RunModule(c: Config, kind: Module, m: Machine, program: seq<Inst>): (Machine, Verdict)
    requires Inv(c, m)
    decreases |program|
  {
    if |program| == 0 then (m, Fine)
    else if !Handles(kind, program[0].op) then RunModule(c, kind, m, program[1..])
    else
      StepRefines(c, kind, m, program[0]);
      var (r, v) := Step(c, kind, m, program[0]);
      if v.Fault? then (r, v) else RunModule(c, kind, r, program[1..])
  }

  /** The same on polynomials. A fault leaves the state before the instruction that caused it. */
  ghost function RunAbstract(c: Config, kind: Module, a: Abstract, program: seq<Inst>): (Abstract, Verdict)
    requires c.Valid() && TablesOk(c, a.tables) && PolysOk(c, a.tables)
    decreases |program|
  {
    if |program| == 0 then (a, Fine)
    else if !Handles(kind, program[0].op) then RunAbstract(c, kind, a, program[1..])
    else
      var (r, v) := AbstractStep(c, kind, a, program[0]);
      if v.Fault? then (a, v)
      else if TablesOk(c, r.tables) && PolysOk(c, r.tables) then RunAbstract(c, kind, r, program[1..])
      else (r, v)
  }

  /** A whole module call refines the polynomial machine: up to the first faulting instruction, and with it, every
      register and directory entry holds the polynomial that the machine without handles has there. */
  lemma {:induction false} ModuleRefines(c: Config, kind: Module, m: Machine, program: seq<Inst>)
    requires Inv(c, m)
    ensures TablesOk(c, Abs(c, m).tables) && PolysOk(c, Abs(c, m).tables)
    ensures var (r, v) := RunModule(c, kind, m, program);
      var (a, av) := RunAbstract(c, kind, Abs(c, m), program);
      && Inv(c, r) && v == av && SameShown(Abs(c, r).tables, a.tables)
      && (v.Fine? ==> Abs(c, r) == a)
    decreases |program|
  {
    AbsOk(c, m);
    hide Config.Valid, View, HeapOk, AllLive, Separate, TablesOk, PolysOk, ViewTables, Step, AbstractStep;
    if |program| == 0 {
    } else if !Handles(kind, program[0].op) {
      ModuleRefines(c, kind, m, program[1..]);
    } else {
      StepRefines(c, kind, m, program[0]);
      var (r, v) := Step(c, kind, m, program[0]);
      if v.Fine? {
        AbsOk(c, r);
        ModuleRefines(c, kind, r, program[1..]);
      }
    }
  }
}

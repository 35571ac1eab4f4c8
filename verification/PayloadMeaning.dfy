/** What one instruction of a module leaves behind, in terms of what the tables held before it: which operands it reads,
    what the destination register holds after it, what stays as it was, and why it stops when it does. */
module PayloadMeaning {
  import opened WordArithmetic
  import opened NttKernel
  import opened HandleMachine
  import opened OperandMeaning
  import opened HandleSteps
  import Galois
  import Rotation
  import SudDivision

  // ----- tables

  /** Register dst holds v now, and nothing else has changed. */
  ghost predicate RegisterSet<T>(before: Tables<T>, after: Tables<T>, dst: nat, v: Option<T>)
  {
    && after.tokens == before.tokens && after.outputs == before.outputs && after.bcu == before.bcu && after.active == before.active
    && |after.regs| == |before.regs|
    && forall r: nat :: r < |before.regs| ==> after.regs[r] == if r == dst % |before.regs| then v else before.regs[r]
  }

  lemma SetRegisterIs<T>(t: Tables<T>, dst: nat, v: Option<T>)
    ensures RegisterSet(t, SetRegister(t, dst, v), dst, v)
  {
  }

  // ----- the operands of a computing instruction

  predicate Binary(op: Opcode)
  {
    op in {Add, Ads, Sub, Sus, Sud, Mul, Mup, Mus}
  }

  /** The modules whose first operand may be an output of a conversion unit; the second may be in the arithmetic module. */
  predicate ReadsOutputs(kind: Module)
  {
    kind == Arithmetic || kind == Transform
  }

  ghost predicate FirstNamed<T>(c: Config, t: Tables<T>, kind: Module, i: Inst, v: T)
  {
    Names(c, t, i.src0, i.imm0, i.aux, ReadsOutputs(kind), v)
  }

  ghost predicate SecondNamed<T>(c: Config, t: Tables<T>, kind: Module, i: Inst, v: T)
  {
    Names(c, t, i.src1, i.imm1, i.aux, kind == Arithmetic, v)
  }

  /** Why the operands cannot be read: the first is checked first, the modulus before the second operand in the arithmetic
      module and after it in the Montgomery module. */
  ghost predicate FetchRefused<T(!new)>(c: Config, t: Tables<T>, kind: Module, i: Inst, s: Status)
  {
    || Refused(c, t, i.src0, i.imm0, i.aux, ReadsOutputs(kind), s)
    || ((exists v: T :: FirstNamed(c, t, kind, i, v))
        && (|| (kind == Montgomery && Refused(c, t, i.src1, i.imm1, i.aux, false, s))
            || (s == MissingModulus && kind != Automorphism && NoModulus(c, i.rns)
                && (kind == Montgomery ==> exists w: T :: SecondNamed(c, t, kind, i, w)))
            || (kind == Arithmetic && Binary(i.op) && (exists q: Word :: HasModulus(c, i.rns, q)) && Refused(c, t, i.src1, i.imm1, i.aux, true, s))))
  }

  lemma FetchMeans<T(!new)>(c: Config, t: Tables<T>, kind: Module, i: Inst)
    requires Computes(kind) && Handles(kind, i.op)
    ensures var r := Fetch(c, t, kind, i);
      && (r.Got? ==>
            && FirstNamed(c, t, kind, i, r.value.first) && (Binary(i.op) ==> SecondNamed(c, t, kind, i, r.value.second))
            && (kind != Automorphism ==> HasModulus(c, i.rns, r.value.q)))
      && (r.Missing? ==> FetchRefused(c, t, kind, i, r.status))
  {
    hide Resolve, Names, Refused, HasModulus, NoModulus, Config.Modulus;
    ResolveNames(c, t, i, false, ReadsOutputs(kind));
    ResolveNames(c, t, i, true, false);
    ResolveNames(c, t, i, true, true);
    ModulusIs(c, i.rns);
    if Resolve(c, t, i, false, ReadsOutputs(kind)).Got? {
      assert FirstNamed(c, t, kind, i, Resolve(c, t, i, false, ReadsOutputs(kind)).value);
    }
    if kind == Montgomery && Resolve(c, t, i, true, false).Got? {
      assert SecondNamed(c, t, kind, i, Resolve(c, t, i, true, false).value);
    }
  }

  // ----- computing

  /** What an instruction makes of its operands x and y modulo q. */
  ghost predicate ResultRight(c: Config, active: seq<nat>, kind: Module, i: Inst, x: Poly, y: Poly, q: Word, p: Poly)
  {
    && p.base == i.rns && |p.coeffs| == |x.coeffs| == |y.coeffs| == c.n
    && (kind == Montgomery || (kind == Arithmetic && i.op != Sud) ==>
          p.ntt == x.ntt && forall k: nat :: k < c.n ==> SlotRight(i.op, p.coeffs[k], x.coeffs[k], y.coeffs[k], q))
    && (kind == Transform ==> Transformed(c, i, x, q, p))
    && (kind == Automorphism ==>
          p.ntt == x.ntt && p.coeffs == Galois.GaloisPermuted(x.coeffs, Rotation.KernelElement(c.n, if i.amount == 0 then i.rns else i.amount)))
  }

  /** Ntt leaves the forward transform and Int the inverse one, both of the residues and with the roots of the base. */
  ghost predicate Transformed(c: Config, i: Inst, x: Poly, q: Word, p: Poly)
  {
    && q > 0 && (p.ntt <==> i.op == Ntt)
    && exists row: nat, rs: seq<int> :: TransformedBy(c, i, x, q, p, row, rs)
  }

  ghost predicate TransformedBy(c: Config, i: Inst, x: Poly, q: Word, p: Poly, row: nat, rs: seq<int>)
    requires q > 0
  {
    && FirstRow(c, i.rns, row) && |rs| == |x.coeffs| && (forall k: nat :: k < |rs| ==> rs[k] == x.coeffs[k] % q)
    && (i.op == Ntt ==> p.coeffs == Forward(rs, c.moduli[row].roots.psi, q))
    && (i.op == Int ==> p.coeffs == Backward(rs, c.moduli[row].roots.psiInv, c.moduli[row].roots.omegaInv, q))
  }

  lemma HalfModulus(c: Config, id: nat, q: Word)
    requires c.Valid() && HasModulus(c, id, q)
    ensures q < HALF_WORD
  {
  }

  lemma TransformMeans(c: Config, active: seq<nat>, i: Inst, o: Operands<Poly>)
    requires c.Valid() && i.op in {Ntt, Int} && o.q == c.Modulus(i.rns) > 0 && |o.first.coeffs| == |o.second.coeffs|
    ensures var r := Compute(c, active, Transform, i, o);
      r.Values? && Transformed(c, i, o.first, o.q, Poly(i.rns, ResultNtt(Transform, i, o.first.ntt), r.coeffs))
  {
    hide Config.Valid, Forward, Backward, FirstRow;
    ModulusIs(c, i.rns);
    var p := Poly(i.rns, ResultNtt(Transform, i, o.first.ntt), Compute(c, active, Transform, i, o).coeffs);
    assert TransformedBy(c, i, o.first, o.q, p, c.RowFrom(i.rns, 0), Reduced(o.first.coeffs, o.q));
  }

  lemma ComputeMeans(c: Config, active: seq<nat>, kind: Module, i: Inst, o: Operands<Poly>)
    requires c.Valid() && Computes(kind) && Handles(kind, i.op)
    requires o.q == (if kind == Automorphism then 0 else c.Modulus(i.rns)) && (kind != Automorphism ==> o.q > 0 && HasModulus(c, i.rns, o.q))
    requires |o.first.coeffs| == |o.second.coeffs| == c.n
    ensures var r := Compute(c, active, kind, i, o);
      r.Values? ==> ResultRight(c, active, kind, i, o.first, o.second, o.q, Poly(i.rns, ResultNtt(kind, i, o.first.ntt), r.coeffs))
  {
    hide Config.Valid, HasModulus, SlotRight, Slotwise, Transformed, SudSlots, SudDivisor, Forward, Backward, Config.Modulus, Config.Roots;
    if kind == Transform {
      TransformMeans(c, active, i, o);
    } else if kind != Automorphism {
      HalfModulus(c, i.rns, o.q);
      SlotsRight(i.op, o.first.coeffs, o.second.coeffs, o.q);
    }
  }

  /** A computing instruction that succeeds reads x, and y if it has two operands, from where its operands name them, and
      leaves the result p of its operation modulo the modulus of its base in the destination register; all else stays. */
  lemma StepComputes(c: Config, kind: Module, a: Abstract, i: Inst) returns (x: Poly, y: Poly, q: Word, p: Poly)
    requires c.Valid() && TablesOk(c, a.tables) && PolysOk(c, a.tables) && Computes(kind) && Handles(kind, i.op)
    requires AbstractStep(c, kind, a, i).1.Fine?
    ensures var r := AbstractStep(c, kind, a, i).0;
      && a.room > 0 && r.room == a.room - 1 && RegisterSet(a.tables, r.tables, i.dst, Some(p))
    ensures FirstNamed(c, a.tables, kind, i, x) && (Binary(i.op) ==> SecondNamed(c, a.tables, kind, i, y))
    ensures kind != Automorphism ==> HasModulus(c, i.rns, q)
    ensures ResultRight(c, a.tables.active, kind, i, x, y, q, p)
    ensures i.op == Sud ==>
      q == c.Modulus(i.rns) && p.ntt == x.ntt && Compute(c, a.tables.active, kind, i, Operands(x, y, q)) == Values(p.coeffs)
  {
    hide Config.Valid, TablesOk, PolysOk, HasModulus, FirstNamed, SecondNamed, ResultRight, RegisterSet, Compute, Fetch, SetRegister, Config.Modulus;
    FetchMeans(c, a.tables, kind, i);
    FetchOk(c, a.tables, kind, i);
    var o := Fetch(c, a.tables, kind, i).value;
    ComputeMeans(c, a.tables.active, kind, i, o);
    x, y, q := o.first, o.second, o.q;
    p := Poly(i.rns, ResultNtt(kind, i, o.first.ntt), Compute(c, a.tables.active, kind, i, o).coeffs);
    SetRegisterIs(a.tables, i.dst, Some(p));
  }

  /** A computing instruction that stops leaves everything as it was; the reasons are an operand or a modulus that cannot
      be read, a full payload, and a rotation without Galois element. */
  lemma StepStops(c: Config, kind: Module, a: Abstract, i: Inst)
    requires c.Valid() && TablesOk(c, a.tables) && PolysOk(c, a.tables) && Computes(kind) && Handles(kind, i.op)
    ensures var (r, v) := AbstractStep(c, kind, a, i);
      v.Fault? ==>
        && r == a
        && (|| FetchRefused(c, a.tables, kind, i, v.status)
            || ((exists x: Poly :: FirstNamed(c, a.tables, kind, i, x))
                && (Binary(i.op) ==> exists y: Poly :: SecondNamed(c, a.tables, kind, i, y))
                && (kind != Automorphism ==> exists q: Word :: HasModulus(c, i.rns, q))
                && (|| (a.room == 0 && v.status == HandleOverflow)
                    || (a.room > 0 && i.op == Rot && v.status == UnsupportedOpcode
                        && Rotation.KernelElement(c.n, if i.amount == 0 then i.rns else i.amount) == 0)
                    || (a.room > 0 && i.op == Sud))))
  {
    hide Config.Valid, TablesOk, PolysOk, HasModulus, FirstNamed, SecondNamed, Fetch, SetRegister, Config.Modulus, FetchRefused, SudDivisor,
         SudSlots, Slotwise, Forward, Backward;
    FetchMeans(c, a.tables, kind, i);
    FetchOk(c, a.tables, kind, i);
  }

  // ----- loads, moves and stores

  predicate Stores(op: Opcode)
  {
    op in {Store, Spill, Snd}
  }

  /** Entry k of the output directory holds v now, and nothing else has changed. */
  ghost predicate OutputSet<T>(before: Tables<T>, after: Tables<T>, k: nat, key: nat, v: Option<T>)
  {
    && after.regs == before.regs && after.tokens == before.tokens && after.bcu == before.bcu && after.active == before.active
    && |after.outputs| == |before.outputs|
    && forall j: nat :: j < |before.outputs| ==> after.outputs[j] == if j == k then Entry(key, v) else before.outputs[j]
  }

  /** What a load or move copies: what the token is bound to, or whatever the register holds, even nothing. */
  ghost predicate Copied<T>(t: Tables<T>, i: Inst, held: Option<T>)
  {
    && !i.imm0 && i.src0 != 0xFFF
    && (i.src0 == 0xFFE ==> held.Some? && exists k: nat :: FirstWith(t.tokens, i.aux, k) && t.tokens[k].held == held)
    && (i.src0 != 0xFFE && |t.regs| > 0 ==> held == t.regs[i.src0 % |t.regs|])
  }

  ghost predicate MemoryRefused<T>(t: Tables<T>, i: Inst, s: Status)
  {
    if Stores(i.op) then
      || (s == InvalidHandle && (|t.regs| > 0 ==> t.regs[i.src0 % |t.regs|] == None))
      || (s == MissingOutputToken && |t.regs| > 0 && t.regs[i.src0 % |t.regs|].Some? && NoneWith(t.outputs, i.aux))
    else if i.imm0 || i.src0 == 0xFFF then s == UnsupportedImmediate
    else s == MissingToken && i.src0 == 0xFFE && forall k: nat :: FirstWith(t.tokens, i.aux, k) ==> t.tokens[k].held == None
  }

  /** Loads and moves bind the destination register to what their source holds; stores bind their output token to what
      their register holds; nothing else changes, and on a fault nothing does. */
  lemma MemoryMeans<T>(t: Tables<T>, i: Inst) returns (held: Option<T>, k: nat)
    requires Handles(Memory, i.op)
    ensures var (r, v) := MemoryStep(t, i);
      && (v.Fine? && !Stores(i.op) ==> Copied(t, i, held) && RegisterSet(t, r, i.dst, held))
      && (v.Fine? && Stores(i.op) ==>
            |t.regs| > 0 && held.Some? && held == t.regs[i.src0 % |t.regs|] && FirstWith(t.outputs, i.aux, k) && OutputSet(t, r, k, i.aux, held))
      && (v.Fault? ==> r == t && MemoryRefused(t, i, v.status))
  {
    hide Lookup, Position, SetRegister, RegisterSet;
    LookupIs(t.tokens, i.aux);
    PositionIs(t.outputs, i.aux, 0);
    if Stores(i.op) {
      held := if |t.regs| == 0 then None else RegisterAt(t.regs, i.src0);
      k := Position(t.outputs, i.aux, 0);
    } else {
      k := 0;
      held := if i.src0 == TOKEN_OPERAND then Lookup(t.tokens, i.aux) else if |t.regs| == 0 then None else RegisterAt(t.regs, i.src0);
      SetRegisterIs(t, i.dst, held);
    }
  }

  /** The memory module's step on polynomials is that, and needs no room. */
  lemma MemoryStepMeans(c: Config, a: Abstract, i: Inst) returns (held: Option<Poly>, k: nat)
    requires c.Valid() && TablesOk(c, a.tables) && PolysOk(c, a.tables) && Handles(Memory, i.op)
    ensures var (r, v) := AbstractStep(c, Memory, a, i);
      && r.room == a.room
      && (v.Fine? && !Stores(i.op) ==> Copied(a.tables, i, held) && RegisterSet(a.tables, r.tables, i.dst, held))
      && (v.Fine? && Stores(i.op) ==>
            |a.tables.regs| > 0 && held.Some? && held == a.tables.regs[i.src0 % |a.tables.regs|]
            && FirstWith(a.tables.outputs, i.aux, k) && OutputSet(a.tables, r.tables, k, i.aux, held))
      && (v.Fault? ==> r == a && MemoryRefused(a.tables, i, v.status))
  {
    hide Config.Valid, TablesOk, PolysOk, MemoryStep, Copied, RegisterSet, OutputSet, MemoryRefused, FirstWith;
    held, k := MemoryMeans(a.tables, i);
  }

  // ----- starting a conversion

  /** Destinations 0xA00 to 0xAFF name a unit by their lower bits, all others by themselves. */
  ghost predicate NamesUnit(dst: nat, unit: nat)
  {
    unit == if 0xA00 <= dst % 0x1000 < 0xB00 then dst % 0x100 else dst
  }

  lemma UnitBits(dst: nat)
    ensures NamesUnit(dst, BcuUnit(dst))
  {
    var d, h, l := dst / 0x1000, (dst / 0x100) % 16, dst % 0x100;
    assert dst == 0x100 * (dst / 0x100) + l;
    assert dst / 0x100 == 16 * (dst / 0x100 / 16) + h;
    Parts(dst, 0x1000, dst / 0x100 / 16, 0x100 * h + l);
  }

  ghost predicate FirstConversion(c: Config, crc: nat, e: nat)
  {
    e < |c.entries| && c.entries[e].crc == crc && forall j: nat :: j < e ==> c.entries[j].crc != crc
  }

  lemma {:induction false} EntryIs(c: Config, crc: nat, k: nat)
    requires k <= |c.entries| && forall j: nat :: j < k ==> c.entries[j].crc != crc
    ensures var e := c.EntryFrom(crc, k);
      if e < |c.entries| then FirstConversion(c, crc, e) else forall j: nat :: j < |c.entries| ==> c.entries[j].crc != crc
    decreases |c.entries| - k
  {
    if k < |c.entries| && c.entries[k].crc != crc {
      EntryIs(c, crc, k + 1);
    }
  }

  /** The configuration that a conversion on a unit runs by. */
  ghost predicate Configures(c: Config, crc: nat, unit: nat, e: nat)
  {
    FirstConversion(c, crc, e) && c.entries[e].unit == unit && unit < c.units && unit < 8
  }

  /** The unit runs the configuration now and has no accumulators; nothing else has changed. */
  ghost predicate UnitStarted<T>(before: Tables<T>, after: Tables<T>, unit: nat, crc: nat, width: nat)
  {
    && after.regs == before.regs && after.tokens == before.tokens && after.outputs == before.outputs
    && |after.bcu| == |before.bcu| && |after.active| == |before.active|
    && (forall u: nat :: u < |before.active| ==> after.active[u] == if u == unit then crc else before.active[u])
    && (forall u: nat :: u < |before.bcu| && u != unit ==> after.bcu[u] == before.bcu[u])
    && (unit < |after.bcu| ==> |after.bcu[unit]| == width && forall x: nat :: x < width ==> after.bcu[unit][x] == None)
  }

  /** A conversion starts on the unit that its destination names, exactly if the first configuration with its checksum is
      one of that unit. */
  lemma ConversionStarts(c: Config, a: Abstract, i: Inst, unit: nat)
    requires c.Valid() && TablesOk(c, a.tables) && PolysOk(c, a.tables) && i.op == Bci && NamesUnit(i.dst, unit)
    ensures var (r, v) := AbstractStep(c, BaseConversion, a, i);
      && (v.Fine? <==> exists e: nat :: Configures(c, i.crc, unit, e))
      && (v.Fine? ==> r.room == a.room && UnitStarted(a.tables, r.tables, unit, i.crc, c.width))
      && (v.Fault? ==> r == a && v.status == MissingBciConfig)
  {
    hide Config.Valid, PolysOk, BcuUnit, NamesUnit;
    UnitBits(i.dst);
    SameUnit(i.dst, unit, BcuUnit(i.dst));
    EntryIs(c, i.crc, 0);
    var e := c.EntryFrom(i.crc, 0);
    if e < |c.entries| {
      assert Configures(c, i.crc, unit, e) <==> c.entries[e].unit == unit && unit < c.units && unit < 8;
    }
    hide Config.EntryFrom;
  }

  lemma SameUnit(dst: nat, unit: nat, other: nat)
    requires NamesUnit(dst, unit) && NamesUnit(dst, other)
    ensures unit == other
  {
  }

  /** Every opcode but the unknown ones belongs to one module. */
  lemma HandledOnce(op: Opcode)
    ensures op == Other <==> forall kind: Module :: !Handles(kind, op)
    ensures forall kind: Module, other: Module :: Handles(kind, op) && Handles(other, op) ==> kind == other
  {
    if op != Other {
      var kind := if op in {Add, Sub, Ads, Sus, Sud, Con, Neg} then Arithmetic
                  else if op in {Mul, Mup, Mus} then Montgomery
                  else if op in {Ntt, Int} then Transform
                  else if op == Rot then Automorphism
                  else if op in {Bci, Pl1, Bcw, Rsi, Rsv, Mod} then BaseConversion
                  else Memory;
      assert Handles(kind, op);
    }
  }

  // ----- what a division by the source moduli divides by

  /** Entry e is the first configuration with the checksum on that unit. */
  ghost predicate FirstOnUnit(c: Config, crc: nat, unit: nat, e: nat)
  {
    e < |c.entries| && c.entries[e].crc == crc && c.entries[e].unit == unit
    && forall j: nat :: j < e ==> !(c.entries[j].crc == crc && c.entries[j].unit == unit)
  }

  lemma {:induction false} UnitEntryIs(c: Config, crc: nat, unit: nat, k: nat)
    requires k <= |c.entries| && forall j: nat :: j < k ==> !(c.entries[j].crc == crc && c.entries[j].unit == unit)
    ensures c.UnitEntryFrom(crc, unit, k) < |c.entries| ==> FirstOnUnit(c, crc, unit, c.UnitEntryFrom(crc, unit, k))
    decreases |c.entries| - k
  {
    if k < |c.entries| && !(c.entries[k].crc == crc && c.entries[k].unit == unit) {
      UnitEntryIs(c, crc, unit, k + 1);
    }
  }

  /** The divisor comes from the sources of the configuration that runs on the unit whose output is the second operand. */
  lemma SudSourcesNamed(c: Config, active: seq<nat>, i: Inst) returns (e: nat)
    requires SudDivision.SudSources(c, active, i).Some?
    ensures var unit := (i.src1 / 0x80) % 16;
      && c.extraValid && unit < 8 && unit < c.units && unit < |active| && active[unit] != 0
      && FirstOnUnit(c, active[unit], unit, e) && |c.entries[e].sources| > 0
      && SudDivision.SudSources(c, active, i) == Some(c.entries[e].sources)
  {
    OutputBits(i.src1);
    var unit := BcuOutputUnit(i.src1);
    UnitEntryIs(c, ActiveCrc(active, unit), unit, 0);
    e := c.UnitEntryFrom(ActiveCrc(active, unit), unit, 0);
  }
}

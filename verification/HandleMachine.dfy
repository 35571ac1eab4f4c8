/** The accelerator's instruction modules, once over handles into a payload and once over whole polynomials. Tables are
    generic in what they hold, so operand resolution is written once for both machines. */
module HandleMachine {
  import opened WordArithmetic
  import opened NttKernel
  import opened BaseConverters
  import Galois
  import Rotation

  datatype Option<T> = None | Some(value: T)

  datatype Status =
    | HandleOverflow | InvalidHandle | MissingToken | MissingOutputToken | UnsupportedOpcode | UnsupportedImmediate
    | MissingModulus | BadExtraLayout | LayoutOverflow | MissingBciConfig | MissingBcuValue

  datatype Module = Memory | Arithmetic | Montgomery | Transform | Automorphism | BaseConversion

  datatype Opcode =
    | Load | Loas | Evg | Rec | Mov | Store | Spill | Snd | Add | Ads | Sub | Sus | Sud | Con | Neg | Mul | Mup | Mus
    | Ntt | Int | Rot | Bci | Pl1 | Bcw | Rsi | Rsv | Mod | Other

  datatype Inst = Inst(op: Opcode, dst: nat, src0: nat, src1: nat, rns: nat, imm0: bool, imm1: bool, aux: nat, amount: int, crc: nat)

  const IMM_OPERAND := 0xFFF
  const TOKEN_OPERAND := 0xFFE
  const MAX_UNITS := 8
  const MAX_COEFF := 2048

  predicate Handles(kind: Module, op: Opcode)
  {
    match kind
    case Memory => op in {Load, Loas, Store, Spill, Mov, Evg, Rec, Snd}
    case Arithmetic => op in {Add, Sub, Ads, Sus, Sud, Con, Neg}
    case Montgomery => op in {Mul, Mup, Mus}
    case Transform => op in {Ntt, Int}
    case Automorphism => op == Rot
    case BaseConversion => op in {Bci, Pl1, Bcw, Rsi, Rsv, Mod}
  }

  /** Output index of a conversion unit: bit 11 set, but not the range that names a unit. */
  predicate IsBcuOutput(operand: nat)
  {
    (operand / 0x800) % 2 == 1 && (operand / 0x100) % 16 != 0xA
  }

  function BcuOutputUnit(operand: nat): nat
  {
    (operand % 0x800) / 0x80
  }

  function BcuOutputIndex(operand: nat): nat
  {
    operand % 0x80
  }

  function BcuUnit(operand: nat): nat
  {
    if (operand / 0x100) % 16 == 0xA then operand % 0x100 else operand
  }

  // ----- tables

  datatype Entry<T> = Entry(key: nat, held: Option<T>)

  /** Registers, token and output directories, the accumulators of the conversion units, and their configurations. */
  datatype Tables<T> = Tables(regs: seq<Option<T>>, tokens: seq<Entry<T>>, outputs: seq<Entry<T>>, bcu: seq<seq<Option<T>>>,
                              active: seq<nat>)

  datatype ModulusRow = ModulusRow(id: nat, value: Word, roots: NegacyclicRoots)

  datatype BciEntry = BciEntry(crc: nat, unit: nat, sources: seq<nat>, targets: seq<nat>, factors: seq<Word>)

  datatype Config = Config(n: nat, capacity: nat, moduli: seq<ModulusRow>, entries: seq<BciEntry>, extraValid: bool,
                           units: nat, width: nat, activeCount: nat) {
    ghost predicate Valid() {
      && TransformSpan(n)
      && (forall k: nat :: k < |moduli| ==> moduli[k].value < HALF_WORD && (moduli[k].value > 0 ==> RootsFor(moduli[k].roots, n, moduli[k].value)))
      && (forall k: nat :: k < |entries| ==> |entries[k].factors| == |entries[k].sources| * |entries[k].targets|)
    }

    /** First row with the id. */
    function RowFrom(id: nat, k: nat): (r: nat)
      requires k <= |moduli|
      ensures k <= r <= |moduli|
      decreases |moduli| - k
    {
      if k == |moduli| || moduli[k].id == id then k else RowFrom(id, k + 1)
    }

    /** Modulus of a base, 0 when it is not in the table. */
    function Modulus(id: nat): (q: Word) {
      var r := RowFrom(id, 0);
      if r < |moduli| then moduli[r].value else 0
    }

    function Roots(id: nat): NegacyclicRoots
      requires Modulus(id) > 0
    {
      moduli[RowFrom(id, 0)].roots
    }

    function EntryFrom(crc: nat, k: nat): (r: nat)
      requires k <= |entries|
      ensures k <= r <= |entries|
      decreases |entries| - k
    {
      if k == |entries| || entries[k].crc == crc then k else EntryFrom(crc, k + 1)
    }

    function UnitEntryFrom(crc: nat, unit: nat, k: nat): (r: nat)
      requires k <= |entries|
      ensures k <= r <= |entries|
      decreases |entries| - k
    {
      if k == |entries| || (entries[k].crc == crc && entries[k].unit == unit) then k else UnitEntryFrom(crc, unit, k + 1)
    }
  }

  // ----- operand resolution, for handles and polynomials alike

  datatype Found<T> = Got(value: T) | Missing(status: Status)

  function Position<T>(dir: seq<Entry<T>>, key: nat, k: nat): (r: nat)
    requires k <= |dir|
    ensures k <= r <= |dir|
    decreases |dir| - k
  {
    if k == |dir| || dir[k].key == key then k else Position(dir, key, k + 1)
  }

  function Lookup<T>(dir: seq<Entry<T>>, key: nat): Option<T>
  {
    var r := Position(dir, key, 0);
    if r < |dir| then dir[r].held else None
  }

  function OrElse<T>(o: Option<T>, status: Status): Found<T>
  {
    match o case Some(v) => Got(v) case None => Missing(status)
  }

  function RegisterAt<T>(regs: seq<Option<T>>, r: nat): Option<T>
    requires |regs| > 0
  {
    regs[r % |regs|]
  }

  function BcuAt<T>(c: Config, t: Tables<T>, unit: nat, index: nat): Option<T>
  {
    if c.extraValid && unit < c.units && index < c.width && unit < |t.bcu| && index < |t.bcu[unit]| then t.bcu[unit][index] else None
  }

  function Resolve<T>(c: Config, t: Tables<T>, i: Inst, second: bool, bcu: bool): Found<T>
  {
    var src, imm := if second then i.src1 else i.src0, if second then i.imm1 else i.imm0;
    if imm || src == IMM_OPERAND then Missing(UnsupportedImmediate)
    else if src == TOKEN_OPERAND then OrElse(Lookup(t.tokens, i.aux), MissingToken)
    else if bcu && IsBcuOutput(src) then OrElse(BcuAt(c, t, BcuOutputUnit(src), BcuOutputIndex(src)), MissingBcuValue)
    else if |t.regs| == 0 then Missing(InvalidHandle)
    else OrElse(RegisterAt(t.regs, src), InvalidHandle)
  }

  datatype Operands<T> = Operands(first: T, second: T, q: Word)

  predicate TwoOperands(op: Opcode)
  {
    op in {Add, Ads, Sub, Sus, Sud}
  }

  /** Operands and modulus of a computing instruction, checked in the order of its module. */
  function Fetch<T>(c: Config, t: Tables<T>, kind: Module, i: Inst): (r: Found<Operands<T>>)
    ensures r.Got? ==> r.value.q == (if kind == Automorphism then 0 else c.Modulus(i.rns))
    ensures r.Got? && kind != Automorphism ==> r.value.q > 0
  {
    match Resolve(c, t, i, false, kind == Arithmetic || kind == Transform)
    case Missing(s) => Missing(s)
    case Got(a) =>
      if kind == Automorphism then Got(Operands(a, a, 0))
      else if kind == Montgomery then
        match Resolve(c, t, i, true, false)
        case Missing(s) => Missing(s)
        case Got(b) => if c.Modulus(i.rns) == 0 then Missing(MissingModulus) else Got(Operands(a, b, c.Modulus(i.rns)))
      else if c.Modulus(i.rns) == 0 then Missing(MissingModulus)
      else if kind == Arithmetic && TwoOperands(i.op) then
        match Resolve(c, t, i, true, true)
        case Missing(s) => Missing(s)
        case Got(b) => Got(Operands(a, b, c.Modulus(i.rns)))
      else Got(Operands(a, a, c.Modulus(i.rns)))
  }

  // ----- values

  datatype Poly = Poly(base: nat, ntt: bool, coeffs: seq<int>)

  function Reduced(a: seq<int>, q: Word): seq<int>
    requires q > 0
  {
    seq(|a|, k requires 0 <= k < |a| => a[k] % q)
  }

  function SlotOp(op: Opcode, a: int, b: int, q: Word): int
    requires q > 0
  {
    match op
    case Add => ModAdd(a % q, b % q, q)
    case Ads => ModAdd(a % q, b % q, q)
    case Sub => ModSub(a % q, b % q, q)
    case Sus => ModSub(a % q, b % q, q)
    case Neg => if a % q == 0 then 0 else q - a % q
    case Mul => ModMul(a % q, b % q, q)
    case Mup => ModMul(a % q, b % q, q)
    case Mus => ModMul(a % q, b % q, q)
    case _ => a % q
  }

  function Slotwise(op: Opcode, a: seq<int>, b: seq<int>, q: Word): seq<int>
    requires q > 0 && |a| == |b|
  {
    seq(|a|, k requires 0 <= k < |a| => SlotOp(op, a[k], b[k], q))
  }

  datatype Computed = Values(coeffs: seq<int>) | Stuck(status: Status)

  /** Product of the source moduli of a conversion, modulo q; 0 moduli are missing. */
  function Divisor(c: Config, sources: seq<nat>, q: Word, acc: Word): Option<Word>
    requires q > 0
    decreases |sources|
  {
    if |sources| == 0 then Some(acc)
    else if c.Modulus(sources[0]) == 0 then None
    else Divisor(c, sources[1..], q, ModMul(acc, c.Modulus(sources[0]) % q, q))
  }

  function ActiveCrc(active: seq<nat>, unit: nat): nat
  {
    if unit < |active| then active[unit] else 0
  }

  /** What `sud` divides by: the bases of the conversion that produced its operand. A register operand names its own
      modulus, which is 0 modulo itself. */
  function SudDivisor(c: Config, active: seq<nat>, i: Inst, q: Word): Found<Word>
    requires q > 0
  {
    if IsBcuOutput(i.src1) then
      var unit := BcuOutputUnit(i.src1);
      if !c.extraValid || unit >= MAX_UNITS || unit >= c.units then Missing(MissingBcuValue)
      else if ActiveCrc(active, unit) == 0 then Missing(MissingBciConfig)
      else
        var e := c.UnitEntryFrom(ActiveCrc(active, unit), unit, 0);
        if e == |c.entries| || |c.entries[e].sources| == 0 then Missing(MissingBciConfig)
        else OrElse(Divisor(c, c.entries[e].sources, q, 1), MissingModulus)
    else Got(c.Modulus(i.rns) % q)
  }

  ghost function SudSlots(a: seq<int>, b: Poly, inverse: Word, psi: Word, q: Word): seq<int>
    requires q > 0 && |a| == |b.coeffs|
  {
    var r := if b.ntt then Reduced(b.coeffs, q) else Forward(Reduced(b.coeffs, q), psi, q);
    seq(|a|, k requires 0 <= k < |a| => ModMul(ModSub(a[k] % q, r[k] % q, q), inverse, q))
  }

  /** Result of a computing instruction on whole polynomials. */
  ghost function Compute(c: Config, active: seq<nat>, kind: Module, i: Inst, o: Operands<Poly>): (r: Computed)
    requires o.q == if kind == Automorphism then 0 else c.Modulus(i.rns)
    requires kind != Automorphism ==> o.q > 0
    requires |o.first.coeffs| == |o.second.coeffs|
    ensures r.Values? ==> |r.coeffs| == |o.first.coeffs|
  {
    match kind
    case Arithmetic =>
      if i.op == Sud then
        if c.n > MAX_COEFF then Stuck(LayoutOverflow)
        else
          match SudDivisor(c, active, i, o.q)
          case Missing(s) => Stuck(s)
          case Got(d) =>
            if InverseOf(d, o.q) == 0 then Stuck(MissingModulus)
            else Values(SudSlots(o.first.coeffs, o.second, InverseOf(d, o.q), c.Roots(i.rns).psi, o.q))
      else Values(Slotwise(i.op, o.first.coeffs, o.second.coeffs, o.q))
    case Transform =>
      var roots := c.Roots(i.rns);
      if i.op == Int then Values(Backward(Reduced(o.first.coeffs, o.q), roots.psiInv, roots.omegaInv, o.q))
      else Values(Forward(Reduced(o.first.coeffs, o.q), roots.psi, o.q))
    case Automorphism =>
      var g := Rotation.KernelElement(c.n, if i.amount == 0 then i.rns else i.amount);
      if g == 0 then Stuck(UnsupportedOpcode) else Values(Galois.GaloisPermuted(o.first.coeffs, g))
    case _ => Values(Slotwise(i.op, o.first.coeffs, o.second.coeffs, o.q))
  }

  function ResultNtt(kind: Module, i: Inst, first: bool): bool
  {
    if kind == Transform then i.op == Ntt else first
  }

  /** A source polynomial folded into an accumulator. */
  function Accumulated(acc: seq<int>, x: seq<int>, factor: Word, q: Word): seq<int>
    requires q > 0 && |acc| == |x|
  {
    seq(|acc|, k requires 0 <= k < |acc| => StreamSlot(acc[k], x[k], factor, q))
  }

  function StreamSlot(acc: int, x: int, factor: Word, q: Word): int
    requires q > 0
  {
    StreamIn(acc % q, x % q, factor, q)
  }

  /** Last position of an id among the sources of a conversion. */
  function SourcePosition(sources: seq<nat>, id: nat): (p: nat)
    ensures p <= |sources|
  {
    if |sources| == 0 then 0
    else if sources[|sources| - 1] == id then |sources| - 1
    else
      var p := SourcePosition(sources[..|sources| - 1], id);
      if p == |sources| - 1 then |sources| else p
  }
}

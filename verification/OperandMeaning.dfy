/** What the operands and moduli of an instruction name, in terms of what the tables hold, and what an instruction computes
    in each slot. */
module OperandMeaning {
  import opened Congruence
  import opened WordArithmetic
  import opened HandleMachine

  // ----- directories

  /** Entry k is the first of the directory with the key. */
  ghost predicate FirstWith<T>(dir: seq<Entry<T>>, key: nat, k: nat)
  {
    k < |dir| && dir[k].key == key && forall j: nat :: j < k ==> dir[j].key != key
  }

  ghost predicate NoneWith<T>(dir: seq<Entry<T>>, key: nat)
  {
    forall j: nat :: j < |dir| ==> dir[j].key != key
  }

  lemma {:induction false} PositionIs<T>(dir: seq<Entry<T>>, key: nat, k: nat)
    requires k <= |dir| && forall j: nat :: j < k ==> dir[j].key != key
    ensures var r := Position(dir, key, k); if r < |dir| then FirstWith(dir, key, r) else NoneWith(dir, key)
    decreases |dir| - k
  {
    if k < |dir| && dir[k].key != key {
      PositionIs(dir, key, k + 1);
    }
  }

  // ----- moduli

  ghost predicate FirstRow(c: Config, id: nat, k: nat)
  {
    k < |c.moduli| && c.moduli[k].id == id && forall j: nat :: j < k ==> c.moduli[j].id != id
  }

  lemma {:induction false} RowIs(c: Config, id: nat, k: nat)
    requires k <= |c.moduli| && forall j: nat :: j < k ==> c.moduli[j].id != id
    ensures var r := c.RowFrom(id, k); if r < |c.moduli| then FirstRow(c, id, r) else forall j: nat :: j < |c.moduli| ==> c.moduli[j].id != id
    decreases |c.moduli| - k
  {
    if k < |c.moduli| && c.moduli[k].id != id {
      RowIs(c, id, k + 1);
    }
  }

  /** The base has a modulus: the value, not 0, of the first row with its id. */
  ghost predicate HasModulus(c: Config, id: nat, q: Word)
  {
    q > 0 && exists k: nat :: FirstRow(c, id, k) && c.moduli[k].value == q
  }

  ghost predicate NoModulus(c: Config, id: nat)
  {
    forall k: nat :: FirstRow(c, id, k) ==> c.moduli[k].value == 0
  }

  lemma ModulusIs(c: Config, id: nat)
    ensures if c.Modulus(id) > 0 then HasModulus(c, id, c.Modulus(id)) else NoModulus(c, id)
    ensures c.Modulus(id) > 0 ==> FirstRow(c, id, c.RowFrom(id, 0))
  {
    RowIs(c, id, 0);
  }

  // ----- operands

  /** Operands 0x800 to 0xFFF but for 0xA00 to 0xAFF, in the lower 12 bits, name outputs of conversion units: bits 7 to 10
      the unit, bits 0 to 6 its output. */
  ghost predicate NamesOutput(src: nat)
  {
    0x800 <= src % 0x1000 && !(0xA00 <= src % 0x1000 < 0xB00)
  }

  /** v is what the operand names: under a token, at an output of a unit where the module knows these, or in a register. */
  ghost predicate Names<T>(c: Config, t: Tables<T>, src: nat, imm: bool, key: nat, bcu: bool, v: T)
  {
    && !imm && src != 0xFFF
    && (src == 0xFFE ==> exists k: nat :: FirstWith(t.tokens, key, k) && t.tokens[k].held == Some(v))
    && (src != 0xFFE && bcu && NamesOutput(src) ==>
          var unit, index := (src / 0x80) % 16, src % 0x80;
          c.extraValid && unit < c.units && index < c.width && unit < |t.bcu| && index < |t.bcu[unit]| && t.bcu[unit][index] == Some(v))
    && (src != 0xFFE && !(bcu && NamesOutput(src)) ==> |t.regs| > 0 && t.regs[src % |t.regs|] == Some(v))
  }

  /** Why an operand names nothing. */
  ghost predicate Refused<T>(c: Config, t: Tables<T>, src: nat, imm: bool, key: nat, bcu: bool, s: Status)
  {
    if imm || src == 0xFFF then s == UnsupportedImmediate
    else if src == 0xFFE then s == MissingToken && forall k: nat :: FirstWith(t.tokens, key, k) ==> t.tokens[k].held == None
    else if bcu && NamesOutput(src) then
      var unit, index := (src / 0x80) % 16, src % 0x80;
      s == MissingBcuValue
      && (c.extraValid && unit < c.units && index < c.width && unit < |t.bcu| && index < |t.bcu[unit]| ==> t.bcu[unit][index] == None)
    else s == InvalidHandle && (|t.regs| > 0 ==> t.regs[src % |t.regs|] == None)
  }

  lemma OutputBits(src: nat)
    ensures IsBcuOutput(src) <==> NamesOutput(src)
    ensures BcuOutputUnit(src) == (src / 0x80) % 16 && BcuOutputIndex(src) == src % 0x80
  {
    var i, u, e, d := src % 0x80, (src / 0x80) % 16, (src / 0x800) % 2, src / 0x1000;
    Digits(src, i, u, e, d);
    OutputDigits(src, i, u, e, d);
    RangeDigits(src, i, u, e, d);
  }

  /** An operand is made of its index, its unit, bit 11 and the bits above. */
  lemma Digits(src: nat, i: nat, u: nat, e: nat, d: nat)
    requires i == src % 0x80 && u == (src / 0x80) % 16 && e == (src / 0x800) % 2 && d == src / 0x1000
    ensures i < 0x80 && u < 16 && e < 2 && src == 0x1000 * d + 0x800 * e + 0x80 * u + i
  {
    var a := src / 0x80;
    assert src == 0x80 * a + i;
    assert a / 16 == src / 0x800;
    assert a == 16 * (src / 0x800) + u;
    assert src / 0x800 == 2 * d + e;
  }

  lemma OutputDigits(src: nat, i: nat, u: nat, e: nat, d: nat)
    requires i < 0x80 && u < 16 && e < 2 && src == 0x1000 * d + 0x800 * e + 0x80 * u + i
    ensures src % 0x800 == 0x80 * u + i && (src % 0x800) / 0x80 == u
    ensures (src / 0x800) % 2 == e && (src / 0x100) % 16 == 8 * e + u / 2
  {
    Parts(src, 0x800, 2 * d + e, 0x80 * u + i);
    Parts(0x80 * u + i, 0x80, u, i);
    Parts(2 * d + e, 2, d, e);
    Parts(src, 0x100, 16 * d + 8 * e + u / 2, 0x80 * (u % 2) + i);
    Parts(16 * d + 8 * e + u / 2, 16, d, 8 * e + u / 2);
  }

  lemma Parts(a: nat, b: nat, q: nat, r: nat)
    requires r < b && a == b * q + r
    ensures a / b == q && a % b == r
  {
    CongFrom(a, r, q, b);
    SmallMod(r, b);
    Cancel(b, q, a / b, a, r);
  }

  lemma Cancel(b: nat, q: int, p: int, a: int, r: int)
    requires b > 0 && a == b * q + r && a == b * p + r
    ensures p == q
  {
    var d := p - q;
    assert b * d == 0;
  }

  lemma RangeDigits(src: nat, i: nat, u: nat, e: nat, d: nat)
    requires i < 0x80 && u < 16 && e < 2 && src == 0x1000 * d + 0x800 * e + 0x80 * u + i
    ensures NamesOutput(src) <==> e == 1 && 8 * e + u / 2 != 0xA
  {
    Parts(src, 0x1000, d, 0x800 * e + 0x80 * u + i);
  }

  lemma LookupIs<T>(dir: seq<Entry<T>>, key: nat)
    ensures Lookup(dir, key).None? ==> forall k: nat :: FirstWith(dir, key, k) ==> dir[k].held == None
    ensures Lookup(dir, key).Some? ==> exists k: nat :: FirstWith(dir, key, k) && dir[k].held == Lookup(dir, key)
  {
    PositionIs(dir, key, 0);
  }

  /** Resolution finds exactly what the operand names. */
  lemma ResolveNames<T>(c: Config, t: Tables<T>, i: Inst, second: bool, bcu: bool)
    ensures var r, src, imm := Resolve(c, t, i, second, bcu), if second then i.src1 else i.src0, if second then i.imm1 else i.imm0;
      && (r.Got? ==> Names(c, t, src, imm, i.aux, bcu, r.value))
      && (r.Missing? ==> Refused(c, t, src, imm, i.aux, bcu, r.status))
  {
    hide Lookup, IsBcuOutput, BcuOutputUnit, BcuOutputIndex, NamesOutput;
    var src := if second then i.src1 else i.src0;
    OutputBits(src);
    LookupIs(t.tokens, i.aux);
  }

  // ----- slots

  /** r is what the instruction computes from a and b modulo q. */
  ghost predicate SlotRight(op: Opcode, r: int, a: int, b: int, q: int)
  {
    && 0 <= r < q
    && (op in {Add, Ads} ==> Cong(r, a + b, q))
    && (op in {Sub, Sus} ==> Cong(r, a - b, q))
    && (op == Neg ==> Cong(r, -a, q))
    && (op == Con ==> Cong(r, a, q))
    && (op in {Mul, Mup, Mus} ==> Cong(r, a * b, q))
  }

  lemma SlotOpRight(op: Opcode, a: int, b: int, q: Word)
    requires 0 < q < HALF_WORD
    ensures SlotRight(op, SlotOp(op, a, b, q), a, b, q)
  {
    hide ModAdd, ModSub, ModMul;
    var x, y := a % q, b % q;
    CongMod(a, q);
    CongMod(b, q);
    match op
    case Add => SumRight(a, b, q);
    case Ads => SumRight(a, b, q);
    case Sub => DifferenceRight(a, b, q);
    case Sus => DifferenceRight(a, b, q);
    case Neg => NegativeRight(a, q);
    case Mul => ProductRight(a, b, q);
    case Mup => ProductRight(a, b, q);
    case Mus => ProductRight(a, b, q);
    case _ =>
  }

  lemma SumRight(a: int, b: int, q: Word)
    requires 0 < q < HALF_WORD
    ensures 0 <= a % q < q && 0 <= b % q < q && 0 <= ModAdd(a % q, b % q, q) < q && Cong(ModAdd(a % q, b % q, q), a + b, q)
  {
    hide ModAdd;
    ModAddRange(q);
    CongMod(a, q);
    CongMod(b, q);
    CongAdd(a % q, a, b % q, b, q);
    CongMod(a + b, q);
  }

  lemma DifferenceRight(a: int, b: int, q: Word)
    requires q > 0
    ensures 0 <= a % q < q && 0 <= b % q < q && 0 <= ModSub(a % q, b % q, q) < q && Cong(ModSub(a % q, b % q, q), a - b, q)
  {
    hide ModSub;
    ModSubCorrect(a % q, b % q, q);
    CongMod(a, q);
    CongMod(b, q);
    CongSub(a % q, a, b % q, b, q);
    CongMod(a - b, q);
  }

  lemma ProductRight(a: int, b: int, q: Word)
    requires q > 0
    ensures 0 <= a % q < q && 0 <= b % q < q && 0 <= ModMul(a % q, b % q, q) < q && Cong(ModMul(a % q, b % q, q), a * b, q)
  {
    hide ModMul;
    ModMulCorrect(a % q, b % q, q);
    CongMod(a, q);
    CongMod(b, q);
    CongMul(a % q, a, b % q, b, q);
    CongMod(a * b, q);
  }

  lemma NegativeRight(a: int, q: Word)
    requires q > 0
    ensures 0 <= a % q < q
    ensures var r := if a % q == 0 then 0 else q - a % q; 0 <= r < q && Cong(r, -a, q)
  {
    var r := if a % q == 0 then 0 else q - a % q;
    CongMod(a, q);
    CongSub(0, 0, a % q, a, q);
    CongFrom(r, -(a % q), if a % q == 0 then 0 else 1, q);
  }

  lemma SlotsRight(op: Opcode, a: seq<int>, b: seq<int>, q: Word)
    requires 0 < q < HALF_WORD && |a| == |b|
    ensures |Slotwise(op, a, b, q)| == |a|
    ensures forall k: nat :: k < |a| ==> SlotRight(op, Slotwise(op, a, b, q)[k], a[k], b[k], q)
  {
    forall k: nat | k < |a|
      ensures SlotRight(op, Slotwise(op, a, b, q)[k], a[k], b[k], q)
    {
      SlotOpRight(op, a[k], b[k], q);
    }
  }
}

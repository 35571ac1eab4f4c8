/** The payload buffers of the accelerator: binary-searched directories, a bump allocator over coefficient ranges of one
    array, and the module loops that write them in place. Every method is tied to the step it implements. */
module PayloadKernel {
  import opened Congruence
  import opened Bits
  import opened WordArithmetic
  import opened NttKernel
  import opened HandleMachine
  import opened HandleSteps
  import opened HandleRefinement
  import opened SudDivision
  import opened OperandMeaning
  import Rns
  import Galois
  import Rotation

  // ----- directories

  ghost predicate Sorted<T>(dir: seq<Entry<T>>)
  {
    forall j: nat, k: nat :: j < k < |dir| ==> dir[j].key < dir[k].key
  }

  lemma {:induction false} PositionMisses<T>(dir: seq<Entry<T>>, key: nat, k: nat)
    requires k <= |dir| && forall j: nat :: k <= j < |dir| ==> dir[j].key != key
    ensures HandleMachine.Position(dir, key, k) == |dir|
    decreases |dir| - k
  {
    if k < |dir| {
      PositionMisses(dir, key, k + 1);
    }
  }

  lemma {:induction false} PositionIs<T>(dir: seq<Entry<T>>, key: nat, k: nat, at: nat)
    requires k <= at < |dir| && dir[at].key == key && forall j: nat :: k <= j < at ==> dir[j].key != key
    ensures HandleMachine.Position(dir, key, k) == at
    decreases |dir| - k
  {
    if k < at {
      PositionIs(dir, key, k + 1, at);
    }
  }

  /** Binary search of a sorted directory; the length when the key is not there. */
  method PairPosition(dir: seq<Entry<nat>>, key: nat) returns (at: nat)
    requires Sorted(dir)
    ensures at == HandleMachine.Position(dir, key, 0)
  {
    var lo: nat, hi: nat := 0, |dir|;
    while lo < hi
      invariant lo <= hi <= |dir|
      invariant forall j: nat :: j < lo ==> dir[j].key < key
      invariant forall j: nat :: hi <= j < |dir| ==> dir[j].key > key
    {
      var mid := lo + (hi - lo) / 2;
      if dir[mid].key == key {
        PositionIs(dir, key, 0, mid);
        return mid;
      }
      if dir[mid].key < key {
        lo := mid + 1;
      } else {
        hi := mid;
      }
    }
    PositionMisses(dir, key, 0);
    return |dir|;
  }

  /** Looks a token up; nothing when the key is missing or bound to nothing. */
  method PairLookup(dir: seq<Entry<nat>>, key: nat) returns (held: Option<nat>)
    requires Sorted(dir)
    ensures held == Lookup(dir, key)
  {
    var at := PairPosition(dir, key);
    held := if at < |dir| then dir[at].held else None;
  }

  // ----- slot values fit their words

  lemma SlotOpFits(op: Opcode, a: int, b: int, q: Word)
    requires 0 < q < HALF_WORD
    ensures 0 <= SlotOp(op, a, b, q) < q
  {
    SmallMod(a % q, q);
    SmallMod(b % q, q);
    ModAddExact(a % q, b % q, q);
    ModSubCorrect(a % q, b % q, q);
    ModMulCorrect(a % q, b % q, q);
    hide ModAdd, ModSub, ModMul;
  }

  lemma StreamSlotFits(acc: int, x: int, factor: Word, q: Word)
    requires 0 < q < HALF_WORD
    ensures 0 <= StreamSlot(acc, x, factor, q) < q
  {
    BaseConverters.StreamInRight(acc % q, x % q, factor, q, acc % q);
  }

  /** A range filled up to k, and nothing else changed. */
  ghost predicate FilledTo(was: seq<int>, now: seq<int>, at: nat, values: seq<int>, k: nat)
  {
    && |now| == |was| && at + |values| <= |was| && k <= |values|
    && (forall i: nat :: i < |was| && !(at <= i < at + k) ==> now[i] == was[i])
    && forall i: nat :: at <= i < at + k ==> now[i] == values[i - at]
  }

  lemma NothingFilled(was: seq<int>, at: nat, values: seq<int>)
    requires at + |values| <= |was|
    ensures FilledTo(was, was, at, values, 0)
  {
  }

  lemma NotFilled(was: seq<int>, now: seq<int>, at: nat, values: seq<int>, k: nat, i: nat)
    requires FilledTo(was, now, at, values, k) && i < |was| && (i < at || at + k <= i)
    ensures |now| == |was| && now[i] == was[i]
  {
  }

  lemma OneFilled(was: seq<int>, now: seq<int>, after: seq<int>, at: nat, values: seq<int>, k: nat)
    requires FilledTo(was, now, at, values, k) && k < |values| && |after| == |now| && after[at + k] == values[k]
    requires forall i: nat :: i < |now| && i != at + k ==> after[i] == now[i]
    ensures FilledTo(was, after, at, values, k + 1)
  {
  }

  lemma AllFilled(was: seq<int>, now: seq<int>, at: nat, values: seq<int>)
    requires FilledTo(was, now, at, values, |values|)
    ensures now == Spliced(was, at, values)
  {
    forall i: nat | i < |was|
      ensures now[i] == Spliced(was, at, values)[i]
    {
    }
  }

  function SlotWord(op: Opcode, a: int, b: int, q: Word): (r: Word)
    requires 0 < q < HALF_WORD
    ensures r == SlotOp(op, a, b, q)
  {
    SlotOpFits(op, a, b, q);
    SlotOp(op, a, b, q)
  }

  function StreamWord(acc: int, x: int, factor: Word, q: Word): (r: Word)
    requires 0 < q < HALF_WORD
    ensures r == StreamSlot(acc, x, factor, q)
  {
    StreamSlotFits(acc, x, factor, q);
    StreamSlot(acc, x, factor, q)
  }

  lemma SlotwiseAt(p: seq<int>, op: Opcode, from: nat, second: nat, n: nat, q: Word, k: nat)
    requires 0 < q && from + n <= |p| && second + n <= |p| && k < n
    ensures |Slotwise(op, Slice(p, from, n), Slice(p, second, n), q)| == n
    ensures Slotwise(op, Slice(p, from, n), Slice(p, second, n), q)[k] == SlotOp(op, p[from + k], p[second + k], q)
  {
    hide SlotOp;
  }

  lemma AccumulatedAt(p: seq<int>, from: nat, at: nat, n: nat, factor: Word, q: Word, k: nat)
    requires 0 < q && from + n <= |p| && at + n <= |p| && k < n
    ensures |HandleMachine.Accumulated(Slice(p, at, n), Slice(p, from, n), factor, q)| == n
    ensures HandleMachine.Accumulated(Slice(p, at, n), Slice(p, from, n), factor, q)[k] == StreamSlot(p[at + k], p[from + k], factor, q)
  {
    hide StreamSlot;
  }

  lemma SudAt(p: seq<int>, r: seq<int>, from: nat, n: nat, inverse: Word, q: Word, k: nat)
    requires 0 < q && from + n <= |p| && |r| == n && k < n
    ensures |SudValues(Slice(p, from, n), r, inverse, q)| == n
    ensures SudValues(Slice(p, from, n), r, inverse, q)[k] == SudValue(p[from + k], r[k], inverse, q)
  {
    hide SudValue;
  }

  ghost predicate Disjoint(x: nat, y: nat, n: nat)
  {
    x + n <= y || y + n <= x
  }

  /** Slots of two ranges combined into a third. */
  method SlotRange(payload: array<Word>, op: Opcode, from: nat, second: nat, at: nat, n: nat, q: Word)
    requires 0 < q < HALF_WORD && from + n <= payload.Length && second + n <= payload.Length && at + n <= payload.Length
    requires Disjoint(from, at, n) && Disjoint(second, at, n)
    modifies payload
    ensures payload[..]
         == Spliced(old(payload[..]), at, Slotwise(op, Slice(old(payload[..]), from, n), Slice(old(payload[..]), second, n), q))
  {
    ghost var was := payload[..];
    ghost var values := Slotwise(op, Slice(was, from, n), Slice(was, second, n), q);
    hide FilledTo, SlotOp, Spliced, Slice, Slotwise, SlotWord;
    NothingFilled(was, at, values);
    var k: nat := 0;
    while k < n
      invariant k <= n && FilledTo(was, payload[..], at, values, k)
    {
      ghost var before: seq<int> := payload[..];
      NotFilled(was, before, at, values, k, from + k);
      NotFilled(was, before, at, values, k, second + k);
      var value := SlotWord(op, payload[from + k], payload[second + k], q);
      SlotwiseAt(was, op, from, second, n, q, k);
      payload[at + k] := value;
      OneFilled(was, before, payload[..], at, values, k);
      k := k + 1;
    }
    AllFilled(was, payload[..], at, values);
  }

  /** Read back, the combined slots are what the instruction computes from the operands. */
  lemma SlotsFilled(c: Config, h: Heap, op: Opcode, a: nat, b: nat, out: nat, q: Word)
    requires HeapOk(c, h) && 0 < q < HALF_WORD && 1 <= a <= c.capacity && 1 <= b <= c.capacity && 1 <= out <= c.capacity
    ensures var x, y := View(c, h, a).coeffs, View(c, h, b).coeffs;
      var r := Fill(c, h, out, Slotwise(op, x, y, q));
      forall k: nat :: k < c.n ==> SlotRight(op, View(c, r, out).coeffs[k], x[k], y[k], q)
  {
    hide Slotwise, SlotRight;
    var x, y := View(c, h, a).coeffs, View(c, h, b).coeffs;
    SlotsRight(op, x, y, q);
    FillView(c, h, out, Slotwise(op, x, y, q), out);
  }

  function SudValues(a: seq<int>, r: seq<int>, inverse: Word, q: Word): seq<int>
    requires q > 0 && |a| == |r|
  {
    seq(|a|, k requires 0 <= k < |a| => SudValue(a[k], r[k], inverse, q))
  }

  function SudValue(a: int, r: int, inverse: Word, q: Word): int
    requires q > 0
  {
    ModMul(ModSub(a % q, r % q, q), inverse, q)
  }

  lemma SudFits(a: int, r: int, inverse: Word, q: Word)
    requires q > 0
    ensures 0 <= SudValue(a, r, inverse, q) < q
  {
  }

  /** A buffer into a range. */
  method StoreRange(buffer: array<Word>, payload: array<Word>, at: nat)
    requires buffer != payload && at + buffer.Length <= payload.Length
    modifies payload
    ensures payload[..] == Spliced(old(payload[..]), at, buffer[..]) && buffer[..] == old(buffer[..])
  {
    ghost var was := payload[..];
    ghost var values: seq<int> := buffer[..];
    var n := buffer.Length;
    hide FilledTo, Spliced;
    NothingFilled(was, at, values);
    var k: nat := 0;
    while k < n
      invariant k <= n && buffer[..] == values == old(buffer[..]) && FilledTo(was, payload[..], at, values, k)
    {
      ghost var before: seq<int> := payload[..];
      payload[at + k] := buffer[k];
      OneFilled(was, before, payload[..], at, values, k);
      k := k + 1;
    }
    AllFilled(was, payload[..], at, values);
  }

  /** One range minus a buffer, times an inverse, into another range. */
  method SudRange(payload: array<Word>, from: nat, buffer: array<Word>, at: nat, inverse: Word, q: Word)
    requires buffer != payload && q > 0
    requires from + buffer.Length <= payload.Length && at + buffer.Length <= payload.Length && Disjoint(from, at, buffer.Length)
    modifies payload
    ensures payload[..]
         == Spliced(old(payload[..]), at, SudValues(Slice(old(payload[..]), from, buffer.Length), old(buffer[..]), inverse, q))
  {
    var n := buffer.Length;
    ghost var was := payload[..];
    ghost var values := SudValues(Slice(was, from, n), buffer[..], inverse, q);
    hide FilledTo, SudValue, Spliced, Slice, SudValues;
    NothingFilled(was, at, values);
    var k: nat := 0;
    while k < n
      invariant k <= n && buffer[..] == old(buffer[..]) && FilledTo(was, payload[..], at, values, k)
    {
      ghost var before: seq<int> := payload[..];
      NotFilled(was, before, at, values, k, from + k);
      SudFits(payload[from + k], buffer[k], inverse, q);
      SudAt(was, old(buffer[..]), from, n, inverse, q, k);
      payload[at + k] := SudValue(payload[from + k], buffer[k], inverse, q);
      OneFilled(was, before, payload[..], at, values, k);
      k := k + 1;
    }
    AllFilled(was, payload[..], at, values);
  }

  /** A range folded into another, in place. */
  method AccumulateRange(payload: array<Word>, from: nat, at: nat, n: nat, factor: Word, q: Word)
    requires 0 < q < HALF_WORD && from + n <= payload.Length && at + n <= payload.Length && Disjoint(from, at, n)
    modifies payload
    ensures payload[..]
         == Spliced(old(payload[..]), at, HandleMachine.Accumulated(Slice(old(payload[..]), at, n), Slice(old(payload[..]), from, n), factor, q))
  {
    ghost var was := payload[..];
    ghost var values := HandleMachine.Accumulated(Slice(was, at, n), Slice(was, from, n), factor, q);
    hide FilledTo, StreamSlot, Spliced, Slice, HandleMachine.Accumulated, StreamWord;
    NothingFilled(was, at, values);
    var k: nat := 0;
    while k < n
      invariant k <= n && FilledTo(was, payload[..], at, values, k)
    {
      ghost var before: seq<int> := payload[..];
      NotFilled(was, before, at, values, k, from + k);
      NotFilled(was, before, at, values, k, at + k);
      var sum := StreamWord(payload[at + k], payload[from + k], factor, q);
      AccumulatedAt(was, from, at, n, factor, q, k);
      payload[at + k] := sum;
      OneFilled(was, before, payload[..], at, values, k);
      k := k + 1;
    }
    AllFilled(was, payload[..], at, values);
  }

  /** Last position of an id among the sources. */
  method FindSource(sources: seq<nat>, id: nat) returns (pos: nat)
    ensures pos == SourcePosition(sources, id)
  {
    pos := |sources|;
    var k: nat := 0;
    while k < |sources|
      invariant k <= |sources|
      invariant pos == if SourcePosition(sources[..k], id) == k then |sources| else SourcePosition(sources[..k], id)
    {
      assert sources[..k + 1][..k] == sources[..k];
      if sources[k] == id {
        pos := k;
      }
      k := k + 1;
    }
    assert sources[..k] == sources;
  }

  class Payload {
    const c: Config
    const tokens: seq<Entry<nat>>
    const payload: array<Word>
    var regs: seq<Option<nat>>
    var outputs: seq<Entry<nat>>
    var bcu: seq<seq<Option<nat>>>
    var active: seq<nat>
    var count: nat
    var base: seq<nat>
    var ntt: seq<bool>

    ghost function State(): Machine
      reads this, payload
    {
      Machine(Tables(regs, tokens, outputs, bcu, active), Heap(count, base, ntt, payload[..]))
    }

    ghost predicate Valid()
      reads this, payload
    {
      Inv(c, State()) && Sorted(tokens) && Sorted(outputs)
    }

    /** The buffers as the host hands them over: tokens bound to handles it has filled, registers and outputs empty, and
        no conversion started. */
    constructor (c: Config, tokens: seq<Entry<nat>>, outputKeys: seq<nat>, registers: nat, count: nat, base: seq<nat>, ntt: seq<bool>,
                 payload: array<Word>)
      requires c.Valid() && Sorted(tokens) && EntriesLive(tokens, count)
      requires forall j: nat, k: nat :: j < k < |outputKeys| ==> outputKeys[j] < outputKeys[k]
      requires count <= c.capacity == |base| == |ntt| && c.capacity * c.n <= payload.Length
      ensures Valid() && this.c == c && this.tokens == tokens && this.payload == payload
      ensures regs == seq(registers, r => None) && outputs == Unbound(outputKeys)
      ensures bcu == NoAccumulators(c) && active == seq(MAX_UNITS, u => 0)
      ensures this.count == count && this.base == base && this.ntt == ntt
    {
      this.c, this.tokens, this.payload := c, tokens, payload;
      regs, outputs := seq(registers, r => None), Unbound(outputKeys);
      bcu, active := NoAccumulators(c), seq(MAX_UNITS, u => 0);
      this.count, this.base, this.ntt := count, base, ntt;
      new;
      FirstState(c, State(), outputKeys, registers);
    }

    method ResolveOperand(i: Inst, second: bool, withBcu: bool) returns (r: Found<nat>)
      requires Valid()
      ensures r == Resolve(c, State().tables, i, second, withBcu)
    {
      var src, imm := if second then i.src1 else i.src0, if second then i.imm1 else i.imm0;
      if imm || src == IMM_OPERAND {
        return Missing(UnsupportedImmediate);
      }
      if src == TOKEN_OPERAND {
        var held := PairLookup(tokens, i.aux);
        return OrElse(held, MissingToken);
      }
      if withBcu && IsBcuOutput(src) {
        var unit, index := BcuOutputUnit(src), BcuOutputIndex(src);
        if !c.extraValid || unit >= c.units || index >= c.width {
          return Missing(MissingBcuValue);
        }
        return OrElse(bcu[unit][index], MissingBcuValue);
      }
      if |regs| == 0 {
        return Missing(InvalidHandle);
      }
      return OrElse(regs[src % |regs|], InvalidHandle);
    }

    /** Operands and modulus, in the order in which each module checks them. */
    method FetchOperands(kind: Module, i: Inst) returns (r: Found<Operands<nat>>)
      requires Valid() && Computes(kind)
      ensures r == Fetch(c, State().tables, kind, i)
    {
      var first := ResolveOperand(i, false, kind == Arithmetic || kind == Transform);
      if first.Missing? {
        return Missing(first.status);
      }
      if kind == Automorphism {
        return Got(Operands(first.value, first.value, 0));
      }
      var second := first;
      if kind == Montgomery {
        second := ResolveOperand(i, true, false);
        if second.Missing? {
          return Missing(second.status);
        }
      }
      var q := c.Modulus(i.rns);
      if q == 0 {
        return Missing(MissingModulus);
      }
      if kind == Arithmetic && TwoOperands(i.op) {
        second := ResolveOperand(i, true, true);
        if second.Missing? {
          return Missing(second.status);
        }
      }
      return Got(Operands(first.value, second.value, q));
    }

    /** The next handle, with its base and form recorded. */
    method AllocateHandle(id: nat, form: bool) returns (handle: nat)
      requires HeapOk(c, State().heap) && count < c.capacity
      modifies this`count, this`base, this`ntt
      ensures State().heap == Allocate(old(State().heap), id, form) && handle == count
    {
      base := base[count := id];
      ntt := ntt[count := form];
      count := count + 1;
      handle := count;
    }

    /** Range of a handle, disjoint from those of all others. */
    lemma Range(handle: nat, other: nat)
      requires HeapOk(c, State().heap) && 1 <= handle <= c.capacity && 1 <= other <= c.capacity
      ensures Offset(c.n, handle) + c.n <= payload.Length
      ensures handle < other ==> Offset(c.n, handle) + c.n <= Offset(c.n, other)
      ensures other < handle ==> Offset(c.n, other) + c.n <= Offset(c.n, handle)
    {
      RangeFits(c, State().heap, handle);
      if handle < other {
        OffsetApart(c.n, handle, other);
      } else if other < handle {
        OffsetApart(c.n, other, handle);
      }
    }

    /** The coefficient loop of the arithmetic and Montgomery modules. */
    method SlotLoop(op: Opcode, a: nat, b: nat, out: nat, q: Word)
      requires HeapOk(c, State().heap) && 0 < q < HALF_WORD
      requires 1 <= a <= c.capacity && 1 <= b <= c.capacity && 1 <= out <= c.capacity && out != a && out != b
      modifies payload
      ensures State().heap
           == Fill(c, old(State().heap), out, Slotwise(op, View(c, old(State().heap), a).coeffs, View(c, old(State().heap), b).coeffs, q))
      ensures forall k: nat :: k < c.n ==>
        SlotRight(op, View(c, State().heap, out).coeffs[k], View(c, old(State().heap), a).coeffs[k], View(c, old(State().heap), b).coeffs[k], q)
    {
      SlotsFilled(c, State().heap, op, a, b, out, q);
      Range(a, out);
      Range(b, out);
      Range(out, out);
      hide Slotwise, HeapOk, Offset, Slice, Spliced;
      SlotRange(payload, op, Offset(c.n, a), Offset(c.n, b), Offset(c.n, out), c.n, q);
    }

    /** The accumulation loop of a base conversion. */
    method AccumulateLoop(src: nat, out: nat, factor: Word, q: Word)
      requires HeapOk(c, State().heap) && 0 < q < HALF_WORD
      requires 1 <= src <= c.capacity && 1 <= out <= c.capacity && out != src
      modifies payload
      ensures State().heap
           == Fill(c, old(State().heap), out,
                   HandleMachine.Accumulated(View(c, old(State().heap), out).coeffs, View(c, old(State().heap), src).coeffs, factor, q))
    {
      Range(src, out);
      Range(out, out);
      hide HandleMachine.Accumulated, HeapOk, Offset, Slice, Spliced;
      AccumulateRange(payload, Offset(c.n, src), Offset(c.n, out), c.n, factor, q);
    }

    /** Copies a range, reduced, into a buffer. */
    method LoadReduced(src: nat, q: Word) returns (buffer: array<Word>)
      requires HeapOk(c, State().heap) && q > 0 && 1 <= src <= c.capacity
      ensures fresh(buffer) && buffer.Length == c.n && buffer[..] == Reduced(View(c, State().heap, src).coeffs, q)
    {
      Range(src, src);
      var from := Offset(c.n, src);
      buffer := new Word[c.n];
      var k: nat := 0;
      while k < c.n
        invariant k <= c.n && forall j: nat :: j < k ==> buffer[j] == payload[from + j] % q
      {
        buffer[k] := payload[from + k] % q;
        k := k + 1;
      }
      assert buffer[..] == Reduced(payload[from..from + c.n], q);
    }

    /** Writes a buffer into the range of a handle. */
    method StoreBuffer(buffer: array<Word>, out: nat)
      requires HeapOk(c, State().heap) && 1 <= out <= c.capacity && buffer != payload && buffer.Length == c.n
      modifies payload
      ensures State().heap == Fill(c, old(State().heap), out, buffer[..]) && buffer[..] == old(buffer[..])
    {
      Range(out, out);
      StoreRange(buffer, payload, Offset(c.n, out));
      hide HeapOk, Offset, Spliced;
    }

    // ----- the modules

    lemma StateOk()
      requires Valid()
      ensures HeapOk(c, State().heap) && TablesOk(c, State().tables) && Sound(c, State()) && c.Valid()
    {
    }

    /** Loads, moves and stores. */
    method ExecuteMemory(i: Inst) returns (verdict: Verdict)
      requires Valid()
      modifies this`regs, this`outputs
      ensures (State(), verdict) == Step(c, Memory, old(State()), i)
    {
      hide Inv;
      if i.op in {Store, Spill, Snd} {
        if |regs| == 0 {
          return Fault(InvalidHandle);
        }
        var handle := regs[i.src0 % |regs|];
        if handle.None? {
          return Fault(InvalidHandle);
        }
        var at := PairPosition(outputs, i.aux);
        if at == |outputs| {
          return Fault(MissingOutputToken);
        }
        outputs := outputs[at := Entry(i.aux, handle)];
        return Fine;
      }
      if i.imm0 || i.src0 == IMM_OPERAND {
        return Fault(UnsupportedImmediate);
      }
      var handle: Option<nat> := None;
      if i.src0 == TOKEN_OPERAND {
        handle := PairLookup(tokens, i.aux);
        if handle.None? {
          return Fault(MissingToken);
        }
      } else if |regs| != 0 {
        handle := regs[i.src0 % |regs|];
      }
      if |regs| != 0 {
        regs := regs[i.dst % |regs| := handle];
      }
      return Fine;
    }

    method BindRegister(dst: nat, handle: nat)
      modifies this`regs
      ensures State() == old(State()).(tables := SetRegister(old(State()).tables, dst, Some(handle)))
    {
      if |regs| != 0 {
        regs := regs[dst % |regs| := Some(handle)];
      }
    }

    /** Product of the source moduli of a conversion. */
    method DivisorOf(sources: seq<nat>, q: Word) returns (d: Option<Word>)
      requires q > 0
      ensures d == Divisor(c, sources, q, 1)
    {
      var acc: Word := 1;
      var k: nat := 0;
      while k < |sources|
        invariant k <= |sources| && Divisor(c, sources[k..], q, acc) == Divisor(c, sources, q, 1)
      {
        assert sources[k..][1..] == sources[k + 1..];
        var m := c.Modulus(sources[k]);
        if m == 0 {
          return None;
        }
        acc := ModMul(acc, m % q, q);
        k := k + 1;
      }
      return Some(acc);
    }

    /** The divisor of `sud`: on a conversion output, if that is configured with known moduli, the product of the source
        moduli; on a register 0. */
    method FindSudDivisor(i: Inst, q: Word) returns (d: Found<Word>)
      requires q > 0
      ensures d == SudDivisor(c, active, i, q)
      ensures q > 1 && IsBcuOutput(i.src1) ==> (d.Got? <==> SudSources(c, active, i).Some? && AllKnown(c, SudSources(c, active, i).value))
      ensures q > 1 && IsBcuOutput(i.src1) && d.Got? ==>
        d.value == Rns.BaseProduct(SourceModuli(c, SudSources(c, active, i).value)) % q
      ensures q > 1 && !IsBcuOutput(i.src1) && c.Modulus(i.rns) == q ==> d == Got(0)
    {
      if q > 1 {
        SudDivides(c, active, i, q);
      }
      if !IsBcuOutput(i.src1) {
        return Got(c.Modulus(i.rns) % q);
      }
      var unit := BcuOutputUnit(i.src1);
      if !c.extraValid || unit >= MAX_UNITS || unit >= c.units {
        return Missing(MissingBcuValue);
      }
      var crc := ActiveCrc(active, unit);
      if crc == 0 {
        return Missing(MissingBciConfig);
      }
      var e := c.UnitEntryFrom(crc, unit, 0);
      if e == |c.entries| || |c.entries[e].sources| == 0 {
        return Missing(MissingBciConfig);
      }
      var product := DivisorOf(c.entries[e].sources, q);
      return OrElse(product, MissingModulus);
    }

    /** Transforms a buffer of one polynomial in place. */
    method TransformBuffer(buffer: array<Word>, id: nat, inverse: bool)
      requires c.Valid() && buffer.Length == c.n && 0 < c.Modulus(id)
      modifies buffer
      ensures buffer[..] == if inverse then Backward(old(buffer[..]), c.Roots(id).psiInv, c.Roots(id).omegaInv, c.Modulus(id))
                            else Forward(old(buffer[..]), c.Roots(id).psi, c.Modulus(id))
    {
      ModulusRight(c, id);
      NttApplyNegacyclic(buffer, c.Modulus(id), c.Roots(id), inverse);
    }

    /** Subtract-and-divide against an operand already brought to transform form. */
    method SudLoop(a: nat, buffer: array<Word>, out: nat, inverse: Word, q: Word)
      requires HeapOk(c, State().heap) && 0 < q < HALF_WORD && buffer != payload && buffer.Length == c.n
      requires 1 <= a <= c.capacity && 1 <= out <= c.capacity && out != a
      modifies payload
      ensures State().heap
           == Fill(c, old(State().heap), out, SudValues(View(c, old(State().heap), a).coeffs, old(buffer[..]), inverse, q))
    {
      Range(a, out);
      Range(out, out);
      hide SudValues, HeapOk, Offset, Slice, Spliced;
      SudRange(payload, Offset(c.n, a), buffer, Offset(c.n, out), inverse, q);
    }

    /** The divisor, its inverse and the operand of `sud`, and the loop. */
    method Sud(i: Inst, o: Operands<nat>, out: nat) returns (verdict: Verdict)
      requires c.Valid() && HeapOk(c, State().heap) && o.q == c.Modulus(i.rns) > 0
      requires 1 <= o.first <= c.capacity && 1 <= o.second <= c.capacity && 1 <= out <= c.capacity && out != o.first
      requires i.op == Opcode.Sud
      modifies payload
      ensures match Compute(c, active, Arithmetic, i, Operands(View(c, old(State().heap), o.first), View(c, old(State().heap), o.second), o.q))
        case Stuck(s) => verdict == Fault(s) && payload[..] == old(payload[..])
        case Values(v) => verdict == Fine && State().heap == Fill(c, old(State().heap), out, v)
    {
      hide Config.Valid, View, HeapOk, Fill, SudDivisor, Forward, RootsFor, SudSlots, Reduced;
      ModulusRight(c, i.rns);
      if c.n > MAX_COEFF {
        return Fault(LayoutOverflow);
      }
      var d := FindSudDivisor(i, o.q);
      if d.Missing? {
        return Fault(d.status);
      }
      var inverse := ModInv(d.value, o.q);
      if inverse == 0 {
        return Fault(MissingModulus);
      }
      var buffer := SudOperand(i, o.second);
      SudSlotsAre(View(c, State().heap, o.first).coeffs, View(c, State().heap, o.second), buffer[..], inverse, c.Roots(i.rns).psi, o.q);
      SudLoop(o.first, buffer, out, inverse, o.q);
      return Fine;
    }

    /** The subtrahend of `sud` in transform form. */
    method SudOperand(i: Inst, src: nat) returns (buffer: array<Word>)
      requires c.Valid() && HeapOk(c, State().heap) && c.Modulus(i.rns) > 0 && 1 <= src <= c.capacity
      ensures fresh(buffer) && buffer.Length == c.n
      ensures buffer[..] == SudSlotsOf(View(c, State().heap, src), c.Roots(i.rns).psi, c.Modulus(i.rns))
    {
      hide Config.Valid, View, Forward, RootsFor;
      buffer := LoadReduced(src, c.Modulus(i.rns));
      FlagAt(c, State().heap, src);
      if !ntt[src - 1] {
        TransformBuffer(buffer, i.rns, false);
      }
    }

    /** A rotation permutes the source range into the fresh one. */
    method Rotate(i: Inst, src: nat, out: nat) returns (verdict: Verdict)
      requires c.Valid() && HeapOk(c, State().heap) && 1 <= src <= c.capacity && 1 <= out <= c.capacity
      modifies payload
      ensures match Compute(c, active, Automorphism, i, Operands(View(c, old(State().heap), src), View(c, old(State().heap), src), 0))
        case Stuck(s) => verdict == Fault(s) && payload[..] == old(payload[..])
        case Values(v) => verdict == Fine && State().heap == Fill(c, old(State().heap), out, v)
    {
      hide Config.Valid, Fill, View, HeapOk, Galois.GaloisPermuted, Rotation.KernelElement;
      var amount: int := if i.amount == 0 then i.rns else i.amount;
      var g := Rotation.GaloisEltFromStep(c.n, amount);
      if g == 0 {
        return Fault(UnsupportedOpcode);
      }
      SpanFits(c, amount);
      var operand := LoadRange(src);
      var result := new Word[c.n];
      Galois.ApplyGaloisNttPermutation(operand, result, g);
      StoreBuffer(result, out);
      return Fine;
    }

    /** Copies a range into a buffer. */
    method LoadRange(src: nat) returns (buffer: array<Word>)
      requires HeapOk(c, State().heap) && 1 <= src <= c.capacity
      ensures fresh(buffer) && buffer[..] == View(c, State().heap, src).coeffs
    {
      Range(src, src);
      var from := Offset(c.n, src);
      buffer := new Word[c.n];
      var k: nat := 0;
      while k < c.n
        invariant k <= c.n && forall j: nat :: j < k ==> buffer[j] == payload[from + j]
      {
        buffer[k] := payload[from + k];
        k := k + 1;
      }
      assert buffer[..] == payload[from..from + c.n];
    }

    /** Computing instructions of the arithmetic, Montgomery, transform and automorphism modules. */
    method ExecuteCompute(kind: Module, i: Inst) returns (verdict: Verdict)
      requires Valid() && Computes(kind) && (kind == Arithmetic || i.op != Opcode.Sud)
      modifies this, payload
      ensures (State(), verdict) == ComputeStep(c, kind, old(State()), i)
    {
      StateOk();
      hide Inv, Fetch, Compute, Fill, View, Config.Valid;
      FetchLive(c, State().tables, kind, i, count);
      var fetched := FetchOperands(kind, i);
      if fetched.Missing? {
        return Fault(fetched.status);
      }
      var o := fetched.value;
      if count >= c.capacity {
        return Fault(HandleOverflow);
      }
      ghost var before := State();
      var form := ResultNtt(kind, i, ntt[o.first - 1]);
      AllocateView(c, State().heap, i.rns, form);
      var out := AllocateHandle(i.rns, form);
      ComputeStepIs(c, kind, before, i, o);
      hide ComputeStep, HeapOk, Sound;
      verdict := ComputeResult(kind, i, o, out);
      if verdict.Fine? {
        BindRegister(i.dst, out);
      }
    }

    method ComputeResult(kind: Module, i: Inst, o: Operands<nat>, out: nat) returns (verdict: Verdict)
      requires c.Valid() && HeapOk(c, State().heap) && Computes(kind) && (kind == Arithmetic || i.op != Opcode.Sud)
      requires o.q == (if kind == Automorphism then 0 else c.Modulus(i.rns)) && (kind != Automorphism ==> o.q > 0)
      requires 1 <= o.first <= c.capacity && 1 <= o.second <= c.capacity && 1 <= out <= c.capacity && out != o.first && out != o.second
      modifies payload
      ensures match Compute(c, active, kind, i, Operands(View(c, old(State().heap), o.first), View(c, old(State().heap), o.second), o.q))
        case Stuck(s) => verdict == Fault(s) && payload[..] == old(payload[..])
        case Values(v) => verdict == Fine && State().heap == Fill(c, old(State().heap), out, v)
    {
      hide Fill, View, Config.Valid, Forward, RootsFor, SudDivisor;
      if kind == Arithmetic && i.op == Opcode.Sud {
        verdict := Sud(i, o, out);
      } else if kind == Transform {
        var buffer := LoadReduced(o.first, o.q);
        TransformBuffer(buffer, i.rns, i.op == Opcode.Int);
        StoreBuffer(buffer, out);
        verdict := Fine;
      } else if kind == Automorphism {
        verdict := Rotate(i, o.first, out);
      } else {
        ModulusRight(c, i.rns);
        SlotLoop(i.op, o.first, o.second, out, o.q);
        verdict := Fine;
      }
    }

    // ----- base conversion

    /** Starts a conversion: the configuration becomes active and the accumulators are dropped. */
    method StartConversion(i: Inst) returns (verdict: Verdict)
      requires Valid() && i.op == Opcode.Bci
      modifies this`active, this`bcu
      ensures (State(), verdict) == Step(c, BaseConversion, old(State()), i)
    {
      StateOk();
      hide Inv, Config.Valid;
      var unit := BcuUnit(i.dst);
      var e := c.EntryFrom(i.crc, 0);
      if e == |c.entries| || c.entries[e].unit != unit || unit >= c.units || unit >= MAX_UNITS {
        return Fault(MissingBciConfig);
      }
      active := active[unit := i.crc];
      var row: seq<Option<nat>> := seq(c.width, k => None);
      bcu := bcu[unit := row];
      return Fine;
    }

    /** Finds the source, the conversion and the position of the source in it. */
    method PlanSource(i: Inst) returns (r: Found<Feed<nat>>)
      requires Valid()
      ensures TablesOk(c, State().tables) && r == PlanFeed(c, State().tables, i)
    {
      StateOk();
      var unit := BcuUnit(i.dst);
      if unit >= c.units || unit >= MAX_UNITS || active[unit] == 0 {
        return Missing(MissingBciConfig);
      }
      var e := c.EntryFrom(active[unit], 0);
      if e == |c.entries| || c.entries[e].unit != unit {
        return Missing(MissingBciConfig);
      }
      var src := ResolveOperand(i, false, false);
      if src.Missing? {
        return Missing(src.status);
      }
      var pos := FindSource(c.entries[e].sources, i.rns);
      if pos == |c.entries[e].sources| {
        return Missing(MissingBciConfig);
      }
      return Got(Feed(unit, c.entries[e], pos, src.value));
    }

    /** The accumulator for one target, allocated and zeroed when it is not there yet. */
    method OpenAccumulator(unit: nat, index: nat, id: nat) returns (verdict: Verdict)
      requires Valid() && unit < c.units && index < c.width
      modifies this, payload
      ensures HeapOk(c, old(State().heap)) && TablesOk(c, old(State().tables)) && BcuLive(old(bcu), old(count))
      ensures (State(), verdict) == Opened(c, old(State()), unit, index, id)
    {
      StateOk();
      hide Inv, Config.Valid, Fill, HeapOk;
      var slot := bcu[unit][index];
      if slot.Some? {
        assert LiveIn(slot, count);
        FlagAt(c, State().heap, slot.value);
        return if base[slot.value - 1] != id then Fault(InvalidHandle) else Fine;
      }
      if count >= c.capacity {
        return Fault(HandleOverflow);
      }
      AllocateView(c, State().heap, id, false);
      var out := AllocateHandle(id, false);
      bcu := bcu[unit := bcu[unit][index := Some(out)]];
      var zeros := new Word[c.n](k => 0);
      assert zeros[..] == seq(c.n, k => 0);
      StoreBuffer(zeros, out);
      return Fine;
    }

    /** One target: its accumulator is opened and the source folded in. */
    method FeedTarget(f: Feed<nat>, index: nat) returns (verdict: Verdict)
      requires Valid() && f.unit < c.units && 1 <= f.src <= count && Apart(State().tables, f.src) && index < |f.entry.targets|
      modifies this, payload
      ensures Sorted(tokens) && Sorted(outputs) && Goes(c, old(State()), f, index, State(), verdict)
    {
      hide Inv, Config.Valid, Fill, HeapOk, View, Apart, Sound, TablesOk, FeedFrom, Goes, Config.Modulus, Opened;
      StateOk();
      ghost var now := State();
      if index >= c.width {
        GoesNowhere(c, now, f, index, BadExtraLayout);
        return Fault(BadExtraLayout);
      }
      var id := f.entry.targets[index];
      var q := c.Modulus(id);
      if q == 0 {
        GoesNowhere(c, now, f, index, MissingModulus);
        return Fault(MissingModulus);
      }
      OpenedSound(c, now, f.unit, index, id);
      OpenedSafe(c, now, f.unit, index, id, f.src);
      OpenedOutputs(c, now, f.unit, index, id);
      verdict := OpenAccumulator(f.unit, index, id);
      ghost var open := State();
      if verdict.Fault? {
        GoesUnopened(c, now, f, index, open, verdict);
        return verdict;
      }
      TableSizes(c, open, f.unit);
      AccumulatorOf(c, open, f.unit, index, f.src);
      var out := bcu[f.unit][index].value;
      ModulusRight(c, id);
      AccumulateLoop(f.src, out, FactorAt(f.entry, f.pos, index) % q, q);
      GoesOn(c, now, f, index, open, State(), out);
      return Fine;
    }

    /** Folds the source into every accumulator of the conversion. */
    method FeedTargets(f: Feed<nat>) returns (verdict: Verdict)
      requires Valid() && f.unit < c.units && 1 <= f.src <= count && Apart(State().tables, f.src)
      modifies this, payload
      ensures Sound(c, old(State())) && (State(), verdict) == FeedFrom(c, old(State()), f, 0)
    {
      hide Inv, Config.Valid, HeapOk, Apart, Sound, TablesOk, FeedFrom, Goes;
      StateOk();
      ghost var before := State();
      var index: nat := 0;
      while index < |f.entry.targets|
        invariant index <= |f.entry.targets| && Inv(c, State()) && Sorted(tokens) && Sorted(outputs) && Sound(c, State())
        invariant 1 <= f.src <= count && Apart(State().tables, f.src)
        invariant FeedFrom(c, State(), f, index) == FeedFrom(c, before, f, 0)
      {
        ghost var now := State();
        verdict := FeedTarget(f, index);
        Gone(c, now, f, index, State(), verdict);
        if verdict.Fault? {
          return verdict;
        }
        index := index + 1;
      }
      NoMoreTargets(c, State(), f);
      return Fine;
    }

    /** One base-conversion instruction. */
    method ExecuteBaseConv(i: Inst) returns (verdict: Verdict)
      requires Valid()
      modifies this, payload
      ensures (State(), verdict) == Step(c, BaseConversion, old(State()), i)
    {
      StateOk();
      hide Inv, Config.Valid, FeedStep, BciStep, Sound, HeapOk, TablesOk;
      if i.op == Opcode.Bci {
        verdict := StartConversion(i);
      } else if i.op != Opcode.Pl1 && i.op != Opcode.Bcw {
        verdict := Fault(UnsupportedOpcode);
      } else {
        verdict := FeedSource(i);
      }
    }

    /** Plans the source, normalises it if need be, and feeds it. */
    method FeedSource(i: Inst) returns (verdict: Verdict)
      requires Valid()
      modifies this, payload
      ensures Sound(c, old(State())) && (State(), verdict) == FeedStep(c, old(State()), i)
    {
      hide Inv, Config.Valid, Sound, HeapOk, TablesOk, FeedFrom, FeedStep, PlanFeed, PlannedStep, FeedsNormalised, Normalised, Apart,
           Config.Modulus, Sorted;
      StateOk();
      ghost var before := State();
      PlanShape(c, before, i);
      var plan := PlanSource(i);
      if plan.Missing? {
        return Fault(plan.status);
      }
      var f := plan.value;
      Planned(c, before, i, f);
      if i.op == Opcode.Pl1 && ntt[f.src - 1] {
        if c.Modulus(i.rns) == 0 {
          return Fault(MissingModulus);
        }
        if count >= c.capacity {
          return Fault(HandleOverflow);
        }
        verdict := FeedNormalised(i, f);
        NormalisedStep(c, before, i, f, State(), verdict);
      } else {
        verdict := FeedTargets(f);
      }
    }

    method FeedNormalised(i: Inst, f: Feed<nat>) returns (verdict: Verdict)
      requires Valid() && f.unit < c.units && 1 <= f.src <= count && c.Modulus(i.rns) > 0 && count < c.capacity
      modifies this, payload
      ensures FeedsNormalised(c, old(State()), i, f, State(), verdict)
    {
      hide Inv, Config.Valid, Sound, HeapOk, TablesOk, FeedFrom, FeedStep, PlanFeed, PlannedStep, FeedsNormalised, Normalised, Apart,
           Config.Modulus, Sorted;
      StateOk();
      ghost var before := State();
      var out := NormaliseSource(i, f);
      ghost var plain := State();
      StateOk();
      verdict := FeedTargets(f.(src := out));
      MakeNormalised(c, before, i, f, plain, State(), verdict);
    }

    /** The source in coefficient form, in a fresh range. */
    method NormaliseSource(i: Inst, f: Feed<nat>) returns (out: nat)
      requires Valid() && f.unit < c.units && 1 <= f.src <= count && c.Modulus(i.rns) > 0 && count < c.capacity
      modifies this`count, this`base, this`ntt, payload
      ensures HeapOk(c, old(State().heap)) && out == old(count) + 1 == count
      ensures State() == Normalised(c, old(State()), i, f)
      ensures Valid() && Apart(State().tables, out)
    {
      StateOk();
      ghost var before := State();
      PlainSource(c, before, i, f);
      NormalisedApart(c, before);
      hide Inv, Config.Valid, Fill, View, Apart, Sound, TablesOk, FeedFrom, HeapOk, AbstractFeedFrom;
      out := AllocateHandle(i.rns, false);
      var buffer := LoadReduced(f.src, c.Modulus(i.rns));
      TransformBuffer(buffer, i.rns, true);
      StoreBuffer(buffer, out);
    }

    /** The instruction loop of one module call. */
    method ExecuteModule(kind: Module, program: seq<Inst>) returns (verdict: Verdict, executed: nat)
      requires Valid()
      modifies this, payload
      ensures (State(), verdict) == RunModule(c, kind, old(State()), program)
      ensures Valid()
    {
      hide Inv, Step, Handles, Sound, RunModule;
      verdict, executed := Fine, 0;
      assert program[0..] == program;
      var k: nat := 0;
      while k < |program|
        invariant k <= |program| && Valid() && verdict.Fine?
        invariant RunModule(c, kind, State(), program[k..]) == RunModule(c, kind, old(State()), program)
      {
        var i := program[k];
        RunsOn(c, kind, State(), program, k);
        if Handles(kind, i.op) {
          StateOk();
          DirectoriesKept(c, kind, State(), i);
          verdict := ExecuteOne(kind, i);
          if verdict.Fault? {
            return verdict, executed;
          }
          executed := executed + 1;
        }
        k := k + 1;
      }
      RunsOut(c, kind, State(), program);
    }

    method ExecuteOne(kind: Module, i: Inst) returns (verdict: Verdict)
      requires Valid() && Handles(kind, i.op)
      modifies this, payload
      ensures Sound(c, old(State())) && (State(), verdict) == Step(c, kind, old(State()), i)
    {
      StateOk();
      match kind
      case Memory => verdict := ExecuteMemory(i);
      case BaseConversion => verdict := ExecuteBaseConv(i);
      case _ => verdict := ExecuteCompute(kind, i);
    }

  }

  /** One target from m to r: the rest goes on from r, or ends there. */
  ghost predicate Goes(c: Config, m: Machine, f: Feed<nat>, index: nat, r: Machine, v: Verdict)
  {
    && Sound(c, m) && f.unit < c.units && 1 <= f.src <= m.heap.count && index < |f.entry.targets| && Inv(c, r)
    && if v.Fine? then 1 <= f.src <= r.heap.count && Apart(r.tables, f.src) && FeedFrom(c, m, f, index) == FeedFrom(c, r, f, index + 1)
       else FeedFrom(c, m, f, index) == (r, v)
  }

  lemma Gone(c: Config, m: Machine, f: Feed<nat>, index: nat, r: Machine, v: Verdict)
    requires Goes(c, m, f, index, r, v)
    ensures Sound(c, m) && f.unit < c.units && 1 <= f.src <= m.heap.count && index < |f.entry.targets| && Inv(c, r) && Sound(c, r)
    ensures v.Fine? ==> 1 <= f.src <= r.heap.count && Apart(r.tables, f.src) && FeedFrom(c, m, f, index) == FeedFrom(c, r, f, index + 1)
    ensures v.Fault? ==> FeedFrom(c, m, f, index) == (r, v)
  {
    hide Sound, Apart, FeedFrom, Separate;
  }

  lemma NoMoreTargets(c: Config, m: Machine, f: Feed<nat>)
    requires Sound(c, m) && f.unit < c.units && 1 <= f.src <= m.heap.count
    ensures FeedFrom(c, m, f, |f.entry.targets|) == (m, Fine)
  {
    hide Sound;
  }

  lemma TableSizes(c: Config, m: Machine, unit: nat)
    requires Inv(c, m) && unit < c.units
    ensures TablesOk(c, m.tables) && unit < |m.tables.bcu| && |m.tables.bcu[unit]| == c.width
  {
    hide Config.Valid, HeapOk, AllLive, Separate;
  }

  /** An opened accumulator has a range of its own. */
  lemma AccumulatorOf(c: Config, m: Machine, unit: nat, index: nat, src: nat)
    requires Inv(c, m) && unit < c.units && index < c.width && unit < |m.tables.bcu| && index < |m.tables.bcu[unit]| && m.tables.bcu[unit][index].Some?
    requires Apart(m.tables, src)
    ensures HeapOk(c, m.heap) && m.heap.count <= c.capacity
    ensures 1 <= m.tables.bcu[unit][index].value <= m.heap.count && m.tables.bcu[unit][index].value != src
  {
    assert LiveIn(m.tables.bcu[unit][index], m.heap.count);
    hide Config.Valid, Separate;
  }

  /** A target beyond the outputs, or without a modulus. */
  lemma GoesNowhere(c: Config, m: Machine, f: Feed<nat>, index: nat, status: Status)
    requires Inv(c, m) && f.unit < c.units && 1 <= f.src <= m.heap.count && index < |f.entry.targets|
    requires status == if index >= c.width then BadExtraLayout else MissingModulus
    requires index >= c.width || c.Modulus(f.entry.targets[index]) == 0
    ensures Goes(c, m, f, index, m, Fault(status))
  {
    hide Sound, Separate, Config.Modulus;
  }

  lemma GoesUnopened(c: Config, m: Machine, f: Feed<nat>, index: nat, open: Machine, v: Verdict)
    requires Inv(c, m) && Inv(c, open) && f.unit < c.units && 1 <= f.src <= m.heap.count && index < |f.entry.targets| && index < c.width
    requires c.Modulus(f.entry.targets[index]) > 0 && v.Fault? && HeapOk(c, m.heap) && TablesOk(c, m.tables) && BcuLive(m.tables.bcu, m.heap.count)
    requires Opened(c, m, f.unit, index, f.entry.targets[index]) == (open, v)
    ensures Goes(c, m, f, index, open, v)
  {
    hide Sound, Separate, Config.Modulus, Opened, HeapOk, BcuLive;
  }

  lemma GoesOn(c: Config, m: Machine, f: Feed<nat>, index: nat, open: Machine, r: Machine, out: nat)
    requires Inv(c, m) && Inv(c, open) && f.unit < c.units && 1 <= f.src <= m.heap.count && 1 <= f.src <= open.heap.count
    requires Apart(m.tables, f.src) && Apart(open.tables, f.src) && HeapOk(c, m.heap) && HeapOk(c, open.heap) && open.heap.count <= c.capacity
    requires TablesOk(c, m.tables) && TablesOk(c, open.tables) && BcuLive(m.tables.bcu, m.heap.count)
    requires index < |f.entry.targets| && index < c.width && c.Modulus(f.entry.targets[index]) > 0
    requires Opened(c, m, f.unit, index, f.entry.targets[index]) == (open, Fine)
    requires open.tables.bcu[f.unit][index] == Some(out) && 1 <= out <= open.heap.count && out != f.src
    requires var q := c.Modulus(f.entry.targets[index]);
      r == open.(heap := Fill(c, open.heap, out, HandleMachine.Accumulated(View(c, open.heap, out).coeffs, View(c, open.heap, f.src).coeffs,
                                                                         FactorAt(f.entry, f.pos, index) % q, q)))
    ensures Goes(c, m, f, index, r, Fine) && Inv(c, r)
  {
    hide Inv, FeedFrom, Apart, Opened, View, Fill, HeapOk, TablesOk, BcuLive, Sound;
    SoundOf(c, m);
    OneFed(c, m, f, index, open);
  }

  lemma SoundOf(c: Config, m: Machine)
    requires Inv(c, m)
    ensures Sound(c, m)
  {
    hide Sound, Separate;
  }

  lemma OneFed(c: Config, m: Machine, f: Feed<nat>, index: nat, open: Machine)
    requires Inv(c, m) && f.unit < c.units && 1 <= f.src <= m.heap.count && Apart(m.tables, f.src)
    requires index < |f.entry.targets| && index < c.width && c.Modulus(f.entry.targets[index]) > 0
    requires Opened(c, m, f.unit, index, f.entry.targets[index]) == (open, Fine)
    requires Inv(c, open) && Apart(open.tables, f.src) && 1 <= f.src <= open.heap.count && open.tables.bcu[f.unit][index].Some?
    ensures 1 <= open.tables.bcu[f.unit][index].value <= open.heap.count && open.tables.bcu[f.unit][index].value != f.src
    ensures var x, q := open.tables.bcu[f.unit][index].value, c.Modulus(f.entry.targets[index]);
      var sum := HandleMachine.Accumulated(View(c, open.heap, x).coeffs, View(c, open.heap, f.src).coeffs, FactorAt(f.entry, f.pos, index) % q, q);
      var next := open.(heap := Fill(c, open.heap, x, sum));
      && Inv(c, next) && next.heap.count == open.heap.count && FeedFrom(c, next, f, index + 1) == FeedFrom(c, m, f, index)
  {
    assert LiveIn(open.tables.bcu[f.unit][index], open.heap.count);
    var x, q := open.tables.bcu[f.unit][index].value, c.Modulus(f.entry.targets[index]);
    var sum := HandleMachine.Accumulated(View(c, open.heap, x).coeffs, View(c, open.heap, f.src).coeffs, FactorAt(f.entry, f.pos, index) % q, q);
    AccumulateSafe(c, open, f.unit, index, sum, f.src);
    hide Config.Valid, View, Fill, Opened, HeapOk, TablesOk, AllLive, Separate, Apart;
  }

  /** The machine after a source has been taken back to coefficients. */
  ghost function Normalised(c: Config, m: Machine, i: Inst, f: Feed<nat>): (r: Machine)
    requires HeapOk(c, m.heap) && m.heap.count < c.capacity && 1 <= f.src <= m.heap.count && c.Modulus(i.rns) > 0
  {
    var heap := Allocate(m.heap, i.rns, false);
    m.(heap := Fill(c, heap, heap.count, BackToCoefficients(c, i.rns, View(c, heap, f.src).coeffs)))
  }

  /** Feeding such a source. */
  ghost predicate FeedsNormalised(c: Config, m: Machine, i: Inst, f: Feed<nat>, r: Machine, v: Verdict)
  {
    && HeapOk(c, m.heap) && m.heap.count < c.capacity && 1 <= f.src <= m.heap.count && c.Modulus(i.rns) > 0 && f.unit < c.units
    && var plain := Normalised(c, m, i, f);
    Sound(c, plain) && plain.heap.count == m.heap.count + 1 && (r, v) == FeedFrom(c, plain, f.(src := m.heap.count + 1), 0)
  }

  lemma MakeNormalised(c: Config, m: Machine, i: Inst, f: Feed<nat>, plain: Machine, r: Machine, v: Verdict)
    requires HeapOk(c, m.heap) && m.heap.count < c.capacity && 1 <= f.src <= m.heap.count && c.Modulus(i.rns) > 0 && f.unit < c.units
    requires plain == Normalised(c, m, i, f) && Sound(c, plain) && plain.heap.count == m.heap.count + 1
    requires (r, v) == FeedFrom(c, plain, f.(src := m.heap.count + 1), 0)
    ensures FeedsNormalised(c, m, i, f, r, v)
  {
    hide HeapOk, Sound, Normalised, FeedFrom, Config.Modulus;
  }

  lemma NormalisedStep(c: Config, m: Machine, i: Inst, f: Feed<nat>, r: Machine, v: Verdict)
    requires Sound(c, m) && TablesOk(c, m.tables) && PlanFeed(c, m.tables, i) == Got(f) && i.op == Pl1
    requires 1 <= f.src <= m.heap.count <= |m.heap.ntt| && m.heap.ntt[f.src - 1] && FeedsNormalised(c, m, i, f, r, v)
    ensures (r, v) == FeedStep(c, m, i)
  {
    hide FeedFrom, PlanFeed, BackToCoefficients, AllLive, Config.Valid, Slice, Spliced, Config.Modulus;
  }

  ghost predicate PlannedStep(c: Config, m: Machine, i: Inst, f: Feed<nat>)
    requires Sound(c, m)
  {
    && f.unit < c.units && 1 <= f.src <= m.heap.count <= |m.heap.ntt| && Apart(m.tables, f.src)
    && if i.op == Pl1 && m.heap.ntt[f.src - 1] then
         && (c.Modulus(i.rns) == 0 ==> FeedStep(c, m, i) == (m, Fault(MissingModulus)))
         && (c.Modulus(i.rns) > 0 && m.heap.count >= c.capacity ==> FeedStep(c, m, i) == (m, Fault(HandleOverflow)))
       else FeedStep(c, m, i) == FeedFrom(c, m, f, 0)
  }

  lemma Planned(c: Config, m: Machine, i: Inst, f: Feed<nat>)
    requires Sound(c, m) && PlannedStep(c, m, i, f)
    ensures f.unit < c.units && 1 <= f.src <= m.heap.count <= |m.heap.ntt| && Apart(m.tables, f.src)
    ensures i.op == Pl1 && m.heap.ntt[f.src - 1] && c.Modulus(i.rns) == 0 ==> FeedStep(c, m, i) == (m, Fault(MissingModulus))
    ensures i.op == Pl1 && m.heap.ntt[f.src - 1] && c.Modulus(i.rns) > 0 && m.heap.count >= c.capacity ==>
      FeedStep(c, m, i) == (m, Fault(HandleOverflow))
    ensures !(i.op == Pl1 && m.heap.ntt[f.src - 1]) ==> FeedStep(c, m, i) == FeedFrom(c, m, f, 0)
  {
    hide Sound, FeedStep, FeedFrom, Apart, Config.Modulus;
  }

  /** What is known of a planned source, and of the step without one, or with one that needs no normalising. */
  lemma PlanShape(c: Config, m: Machine, i: Inst)
    requires Inv(c, m)
    ensures Sound(c, m) && TablesOk(c, m.tables)
    ensures PlanFeed(c, m.tables, i).Missing? ==> FeedStep(c, m, i) == (m, Fault(PlanFeed(c, m.tables, i).status))
    ensures PlanFeed(c, m.tables, i).Got? ==> PlannedStep(c, m, i, PlanFeed(c, m.tables, i).value)
  {
    PlanSame(c, m, i);
    hide FeedFrom, PlanFeed, BackToCoefficients, AllLive, Config.Valid, Fill, View, Config.Modulus, Apart, Separate;
  }

  lemma NormalisedApart(c: Config, m: Machine)
    requires Sound(c, m)
    ensures Apart(m.tables, m.heap.count + 1)
  {
    NotYetHeld(m.tables, m.heap.count);
  }

  ghost predicate SameKeys(a: seq<Entry<nat>>, b: seq<Entry<nat>>)
  {
    |a| == |b| && forall k: nat :: k < |a| ==> a[k].key == b[k].key
  }

  lemma OpenedOutputs(c: Config, m: Machine, unit: nat, index: nat, id: nat)
    requires Sound(c, m) && unit < c.units && index < c.width
    ensures Opened(c, m, unit, index, id).0.tables.outputs == m.tables.outputs
  {
  }

  lemma {:induction false} FeedOutputs(c: Config, m: Machine, f: Feed<nat>, index: nat)
    requires Sound(c, m) && f.unit < c.units && 1 <= f.src <= m.heap.count && index <= |f.entry.targets|
    ensures FeedFrom(c, m, f, index).0.tables.outputs == m.tables.outputs
    decreases |f.entry.targets| - index
  {
    if index < |f.entry.targets| && index < c.width && c.Modulus(f.entry.targets[index]) > 0 {
      var id := f.entry.targets[index];
      OpenedSound(c, m, f.unit, index, id);
      OpenedOutputs(c, m, f.unit, index, id);
      var (open, verdict) := Opened(c, m, f.unit, index, id);
      hide Config.Valid, View, Opened, HeapOk, AllLive;
      if verdict.Fine? {
        var x, q := open.tables.bcu[f.unit][index].value, c.Modulus(id);
        var sum := HandleMachine.Accumulated(View(c, open.heap, x).coeffs, View(c, open.heap, f.src).coeffs, FactorAt(f.entry, f.pos, index) % q, q);
        FeedOutputs(c, open.(heap := Fill(c, open.heap, x, sum)), f, index + 1);
      }
    }
  }

  lemma FeedStepOutputs(c: Config, m: Machine, i: Inst)
    requires Sound(c, m)
    ensures FeedStep(c, m, i).0.tables.outputs == m.tables.outputs
  {
    hide Config.Valid, View, AllLive, FeedFrom, PlanFeed;
    PlanLives(c, m, i);
    match PlanFeed(c, m.tables, i)
    case Missing(_) =>
    case Got(f) =>
      if i.op == Opcode.Pl1 && m.heap.ntt[f.src - 1] {
        if c.Modulus(i.rns) > 0 && m.heap.count < c.capacity {
          AllocateView(c, m.heap, i.rns, false);
          var heap := Allocate(m.heap, i.rns, false);
          LiveMore(m.tables, m.heap.count, heap.count);
          FeedOutputs(c, m.(heap := Fill(c, heap, heap.count, BackToCoefficients(c, i.rns, View(c, heap, f.src).coeffs))),
                      f.(src := heap.count), 0);
        }
      } else {
        FeedOutputs(c, m, f, 0);
      }
  }

  lemma PlanLives(c: Config, m: Machine, i: Inst)
    requires Sound(c, m)
    ensures PlanLive(PlanFeed(c, m.tables, i), m.heap.count)
  {
    ResolveLive(c, m.tables, i, false, false, m.heap.count);
    hide Resolve, AllLive, HeapOk, Config.Valid;
  }

  /** No instruction changes the keys of the output directory. */
  lemma DirectoriesKept(c: Config, kind: Module, m: Machine, i: Inst)
    requires Inv(c, m)
    ensures SameKeys(Step(c, kind, m, i).0.tables.outputs, m.tables.outputs)
  {
    hide Config.Valid, View, AllLive, Separate, HeapOk, FeedStep, ComputeStep;
    match kind
    case Memory =>
      StoreKeys(m.tables, i);
    case BaseConversion =>
      if i.op == Opcode.Pl1 || i.op == Opcode.Bcw {
        FeedStepOutputs(c, m, i);
      }
    case _ => ComputeOutputs(c, kind, m, i);
  }

  lemma ComputeOutputs(c: Config, kind: Module, m: Machine, i: Inst)
    requires Sound(c, m) && Computes(kind)
    ensures ComputeStep(c, kind, m, i).0.tables.outputs == m.tables.outputs
  {
    hide Config.Valid, View, HeapOk, Fetch, Compute, Fill;
  }

  lemma StoreKeys(t: Tables<nat>, i: Inst)
    ensures SameKeys(MemoryStep(t, i).0.outputs, t.outputs)
  {
    PositionHits(t.outputs, i.aux, 0);
  }

  /** On a power of two between 2 and 128 the Galois element of any step is an odd word. */
  lemma SpanFits(c: Config, amount: int)
    requires c.Valid()
    ensures IsPowerOfTwo(c.n) && 2 <= c.n
    ensures Rotation.KernelElement(c.n, amount) % 2 == 1 && Rotation.KernelElement(c.n, amount) < WORD
  {
    Rotation.KernelElementOdd(c.n, amount);
  }

  /** A directory whose keys are bound to nothing. */
  function Unbound(keys: seq<nat>): (dir: seq<Entry<nat>>)
    ensures |dir| == |keys|
  {
    seq(|keys|, k requires 0 <= k < |keys| => Entry(keys[k], None))
  }

  function NoAccumulators(c: Config): (bcu: seq<seq<Option<nat>>>)
    ensures |bcu| == c.units
  {
    seq(c.units, u => seq(c.width, x => None))
  }

  lemma FirstState(c: Config, m: Machine, outputKeys: seq<nat>, registers: nat)
    requires c.Valid() && HeapOk(c, m.heap) && EntriesLive(m.tables.tokens, m.heap.count)
    requires m.tables.regs == seq(registers, r => None) && m.tables.outputs == Unbound(outputKeys)
    requires m.tables.bcu == NoAccumulators(c) && m.tables.active == seq(MAX_UNITS, u => 0)
    requires forall j: nat, k: nat :: j < k < |outputKeys| ==> outputKeys[j] < outputKeys[k]
    ensures Inv(c, m) && Sorted(m.tables.outputs)
  {
    hide Config.Valid, HeapOk, EntriesLive;
    assert TablesOk(c, m.tables);
    assert RegsLive(m.tables.regs, m.heap.count) && BcuLive(m.tables.bcu, m.heap.count);
    UnboundLive(outputKeys, m.heap.count);
  }

  lemma UnboundLive(keys: seq<nat>, count: nat)
    ensures EntriesLive(Unbound(keys), count)
  {
  }

  /** A module call, one instruction further. */
  lemma RunsOn(c: Config, kind: Module, m: Machine, program: seq<Inst>, k: nat)
    requires Inv(c, m) && k < |program|
    ensures Sound(c, m) && Inv(c, Step(c, kind, m, program[k]).0)
    ensures !Handles(kind, program[k].op) ==> RunModule(c, kind, m, program[k..]) == RunModule(c, kind, m, program[k + 1..])
    ensures Handles(kind, program[k].op) && Step(c, kind, m, program[k]).1.Fault? ==>
      RunModule(c, kind, m, program[k..]) == Step(c, kind, m, program[k])
    ensures Handles(kind, program[k].op) && Step(c, kind, m, program[k]).1.Fine? ==>
      RunModule(c, kind, m, program[k..]) == RunModule(c, kind, Step(c, kind, m, program[k]).0, program[k + 1..])
  {
    StepRefines(c, kind, m, program[k]);
    assert program[k..][0] == program[k] && program[k..][1..] == program[k + 1..];
    hide Step, Handles, AbstractStep, Separate, Sound;
  }

  lemma RunsOut(c: Config, kind: Module, m: Machine, program: seq<Inst>)
    requires Inv(c, m)
    ensures RunModule(c, kind, m, program[|program|..]) == (m, Fine)
  {
    hide Inv;
  }

  ghost function SudSlotsOf(b: Poly, psi: int, q: Word): (r: seq<int>)
    requires q > 0
    ensures |r| == |b.coeffs|
  {
    if b.ntt then Reduced(b.coeffs, q) else Forward(Reduced(b.coeffs, q), psi, q)
  }

  lemma SudSlotsAre(a: seq<int>, b: Poly, r: seq<int>, inverse: Word, psi: Word, q: Word)
    requires q > 0 && |a| == |b.coeffs| && r == SudSlotsOf(b, psi, q)
    ensures SudSlots(a, b, inverse, psi, q) == SudValues(a, r, inverse, q)
  {
    hide ModMul, ModSub, Forward;
  }

  lemma FlagAt(c: Config, h: Heap, x: nat)
    requires HeapOk(c, h) && 1 <= x <= c.capacity
    ensures View(c, h, x).ntt == h.ntt[x - 1]
  {
  }

  lemma ModulusRight(c: Config, id: nat)
    requires c.Valid() && c.Modulus(id) > 0
    ensures c.Modulus(id) < HALF_WORD && RootsFor(c.Roots(id), c.n, c.Modulus(id))
  {
  }
}

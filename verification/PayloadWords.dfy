/** The control words stand for the tables and the heap of the handle machine: what the machine reads is what the words say,
    and the updates of the words are the machine's. */
module PayloadWords {
  import opened WordArithmetic
  import opened HandleMachine
  import opened HandleSteps
  import opened PayloadControl

  function RegistersAt(control: seq<Word>, l: Layout): (regs: seq<Option<nat>>)
    requires Fits(l, |control|)
    ensures |regs| == l.registers
  {
    seq(l.registers, r requires 0 <= r < l.registers => PayloadControl.HeldAt(control[l.registersAt + r]))
  }

  /** The form flag of a handle. */
  predicate IsNtt(word: Word)
  {
    Low(word) % 2 == 1
  }

  ghost predicate MetaFor(control: seq<Word>, l: Layout, h: Heap, handle: nat)
    requires Fits(l, |control|) && 1 <= handle <= l.capacity == |h.base| == |h.ntt|
  {
    h.base[handle - 1] == Low(MetaAt(control, l, handle).0) && h.ntt[handle - 1] == IsNtt(MetaAt(control, l, handle).1)
  }

  ghost predicate RowsFor(control: seq<Word>, l: Layout, c: Config)
    requires Fits(l, |control|)
  {
    |c.moduli| == l.moduli && forall k: nat :: k < l.moduli ==> RowFor(control, l, c, k)
  }

  ghost predicate RowFor(control: seq<Word>, l: Layout, c: Config, k: nat)
    requires Fits(l, |control|) && k < l.moduli == |c.moduli|
  {
    c.moduli[k].id == Low(control[l.moduliAt + 2 * k]) && c.moduli[k].value == control[l.moduliAt + 2 * k + 1]
  }

  /** The words of the control buffer, read as tables, heap and moduli. */
  ghost predicate Represents(control: seq<Word>, l: Layout, c: Config, m: Machine)
  {
    && Fits(l, |control|) && l == LayoutOf(control) && l.coeffs == c.n && l.capacity == c.capacity && RowsFor(control, l, c)
    && m.tables.regs == RegistersAt(control, l)
    && m.tables.tokens == DirectoryAt(control, l.tokensAt, l.tokens)
    && m.tables.outputs == DirectoryAt(control, l.outputsAt, l.outputs)
    && m.heap.count == Low(control[5]) && |m.heap.base| == |m.heap.ntt| == l.capacity
    && forall handle: nat :: 1 <= handle <= l.capacity ==> MetaFor(control, l, m.heap, handle)
  }

  lemma RepresentsParts(control: seq<Word>, l: Layout, c: Config, m: Machine)
    requires Represents(control, l, c, m)
    ensures Fits(l, |control|) && l == LayoutOf(control) && |control| >= HEADER_WORDS && l.capacity == c.capacity && l.coeffs == c.n
    ensures RowsFor(control, l, c) && m.tables.regs == RegistersAt(control, l)
    ensures m.tables.tokens == DirectoryAt(control, l.tokensAt, l.tokens) && m.tables.outputs == DirectoryAt(control, l.outputsAt, l.outputs)
    ensures m.heap.count == Low(control[5]) && |m.heap.base| == |m.heap.ntt| == l.capacity < HALF
  {
    hide Low, DirectoryAt, RowFor, MetaFor;
    CapacitySmall(control);
  }

  lemma CapacitySmall(control: seq<Word>)
    requires |control| >= HEADER_WORDS
    ensures LayoutOf(control).capacity < HALF
  {
    hide Low;
  }

  lemma RepresentsMeta(control: seq<Word>, l: Layout, c: Config, m: Machine, handle: nat)
    requires Represents(control, l, c, m) && 1 <= handle <= l.capacity
    ensures Fits(l, |control|) && |m.heap.base| == |m.heap.ntt| == l.capacity && MetaFor(control, l, m.heap, handle)
  {
    hide Low, DirectoryAt, RowFor, MetaFor;
  }

  lemma MakeRepresents(control: seq<Word>, l: Layout, c: Config, m: Machine)
    requires Fits(l, |control|) && l == LayoutOf(control) && l.coeffs == c.n && l.capacity == c.capacity && RowsFor(control, l, c)
    requires m.tables.regs == RegistersAt(control, l)
    requires m.tables.tokens == DirectoryAt(control, l.tokensAt, l.tokens) && m.tables.outputs == DirectoryAt(control, l.outputsAt, l.outputs)
    requires m.heap.count == Low(control[5]) && |m.heap.base| == |m.heap.ntt| == l.capacity
    requires forall handle: nat :: 1 <= handle <= l.capacity ==> MetaFor(control, l, m.heap, handle)
    ensures Represents(control, l, c, m)
  {
    hide Low, DirectoryAt, RowFor, MetaFor;
  }

  /** Looking a modulus up in the words finds the machine's. */
  lemma ModulusRepresents(control: seq<Word>, l: Layout, c: Config, m: Machine, id: nat)
    requires Represents(control, l, c, m)
    ensures Fits(l, |control|) && ModulusFrom(control, l.moduliAt, l.moduli, id, 0) == c.Modulus(id)
  {
    RepresentsParts(control, l, c, m);
    forall k: nat | k < |c.moduli|
      ensures c.moduli[k].id == Low(control[l.moduliAt + 2 * k]) && c.moduli[k].value == control[l.moduliAt + 2 * k + 1]
    {
      assert RowFor(control, l, c, k);
    }
    SameModulus(c, control, l.moduliAt, id, 0);
  }

  lemma RowsKept(control: seq<Word>, after: seq<Word>, l: Layout, c: Config)
    requires Fits(l, |control|) && |after| == |control| && RowsFor(control, l, c)
    requires after[l.moduliAt..l.metaAt] == control[l.moduliAt..l.metaAt]
    ensures RowsFor(after, l, c) && RegistersAt(after, l) == RegistersAt(control, l)
  {
    hide Low, PayloadControl.HeldAt;
    forall k: nat | l.moduliAt <= k < l.metaAt
      ensures after[k] == control[k]
    {
      assert after[l.moduliAt..l.metaAt][k - l.moduliAt] == control[l.moduliAt..l.metaAt][k - l.moduliAt];
    }
    forall k: nat | k < l.moduli
      ensures RowFor(after, l, c, k)
    {
      assert RowFor(control, l, c, k);
    }
  }

  /** Allocating in the words is allocating in the machine. */
  lemma AllocationRepresents(control: seq<Word>, l: Layout, c: Config, m: Machine, id: nat, ntt: bool)
    requires Represents(control, l, c, m) && id < HALF && m.heap.count < c.capacity
    ensures Fits(l, |control|) && Low(control[5]) < l.capacity < HALF && m.heap.count < |m.heap.base| == |m.heap.ntt|
    ensures Represents(Allocated(control, l, id, ntt), l, c, m.(heap := Allocate(m.heap, id, ntt)))
  {
    hide Represents, Allocated, LayoutOf, DirectoryAt, MetaAt, Low, Fits, RowsFor, IsNtt, RegistersAt;
    RepresentsParts(control, l, c, m);
    AllocationApart(control, l, id, ntt);
    var after, heap := Allocated(control, l, id, ntt), Allocate(m.heap, id, ntt);
    RowsKept(control, after, l, c);
    LowSmall(id);
    FlagWord(ntt);
    forall handle: nat | 1 <= handle <= l.capacity
      ensures MetaFor(after, l, heap, handle)
    {
      RepresentsMeta(control, l, c, m, handle);
    }
    hide MetaFor;
    MakeRepresents(after, l, c, m.(heap := heap));
  }

  lemma FlagWord(ntt: bool)
    ensures IsNtt(if ntt then 1 else 0) == ntt
  {
  }

  /** Binding an output token in the words is the machine's store. */
  lemma StoreRepresents(control: seq<Word>, l: Layout, c: Config, m: Machine, key: nat, handle: nat)
    requires Represents(control, l, c, m) && handle < HALF
    requires Fits(l, |control|) && KeysSorted(control, l.outputsAt, l.outputs) && Position(m.tables.outputs, key, 0) < |m.tables.outputs|
    ensures var pos := Position(m.tables.outputs, key, 0);
      l.outputsAt + 2 * pos + 1 < |control|
      && Represents(control[l.outputsAt + 2 * pos + 1 := handle], l, c,
                    m.(tables := m.tables.(outputs := m.tables.outputs[pos := Entry(key, PayloadControl.HeldAt(handle))])))
  {
    hide *;
    RepresentsParts(control, l, c, m);
    var pos := Position(m.tables.outputs, key, 0);
    OutputWord(control, l, pos);
    SmallWord(handle);
    var after := control[l.outputsAt + 2 * pos + 1 := handle];
    UpdateBinds(control, l.outputsAt, l.outputs, key, handle);
    OutputsApart(control, after, l, c, m, l.outputsAt + 2 * pos + 1, handle);
    var outputs := m.tables.outputs[pos := Entry(key, PayloadControl.HeldAt(handle))];
    MakeRepresents(after, l, c, m.(tables := m.tables.(outputs := outputs)));
  }

  lemma OutputWord(control: seq<Word>, l: Layout, pos: nat)
    requires Fits(l, |control|) && pos < l.outputs
    ensures l.outputsAt <= l.outputsAt + 2 * pos + 1 < l.outputsAt + 2 * l.outputs <= |control|
  {
  }

  /** A word of the output directory is neither header, modulus, register, handle nor token. */
  lemma OutputsApart(control: seq<Word>, after: seq<Word>, l: Layout, c: Config, m: Machine, at: nat, handle: nat)
    requires Represents(control, l, c, m) && handle < HALF
    requires Fits(l, |control|) && l.outputsAt <= at < |control| && after == control[at := handle]
    ensures Fits(l, |after|) && LayoutOf(after) == LayoutOf(control) && RowsFor(after, l, c) && after[5] == control[5]
    ensures RegistersAt(after, l) == RegistersAt(control, l)
    ensures DirectoryAt(after, l.tokensAt, l.tokens) == DirectoryAt(control, l.tokensAt, l.tokens)
    ensures |m.heap.base| == |m.heap.ntt| == l.capacity
    ensures forall other: nat :: 1 <= other <= l.capacity ==> MetaFor(after, l, m.heap, other)
  {
    RepresentsParts(control, l, c, m);
    DirectoryKept(control, after, l.tokensAt, l.tokens);
    LayoutKept(control, after);
    hide Represents, LayoutOf, DirectoryAt, Low, RowsFor, IsNtt;
    assert after[l.moduliAt..l.metaAt] == control[l.moduliAt..l.metaAt];
    RowsKept(control, after, l, c);
    forall other: nat | 1 <= other <= l.capacity
      ensures MetaFor(after, l, m.heap, other)
    {
      RepresentsMeta(control, l, c, m, other);
      assert MetaAt(after, l, other) == MetaAt(control, l, other);
    }
  }

  // ----- registers

  /** The registers, copied out of the words when a module starts. */
  method ReadRegisters(control: array<Word>, l: Layout) returns (regs: seq<Option<nat>>)
    requires Fits(l, control.Length)
    ensures regs == RegistersAt(control[..], l)
  {
    regs := [];
    for r := 0 to l.registers
      invariant |regs| == r && regs == RegistersAt(control[..], l)[..r]
    {
      regs := regs + [PayloadControl.HeldAt(control[l.registersAt + r])];
    }
  }

  predicate SmallHandles(regs: seq<Option<nat>>)
  {
    forall r: nat :: r < |regs| ==> regs[r].Some? ==> 0 < regs[r].value < HALF
  }

  function HandleWord(o: Option<nat>): nat
  {
    match o case None => 0 case Some(h) => h
  }

  /** And copied back when it ends: the words then say what the registers are, and nothing else has changed. */
  method WriteRegisters(control: array<Word>, l: Layout, regs: seq<Option<nat>>)
    requires Fits(l, control.Length) && |regs| == l.registers && SmallHandles(regs)
    modifies control
    ensures RegistersAt(control[..], l) == regs
    ensures forall k: nat :: k < control.Length && !(l.registersAt <= k < l.metaAt) ==> control[k] == old(control[k])
  {
    for r := 0 to l.registers
      invariant forall s: nat :: s < r ==> PayloadControl.HeldAt(control[l.registersAt + s]) == regs[s]
      invariant forall k: nat :: k < control.Length && !(l.registersAt <= k < l.metaAt) ==> control[k] == old(control[k])
    {
      HandleWordRight(regs[r]);
      control[l.registersAt + r] := HandleWord(regs[r]);
    }
  }

  lemma HandleWordRight(o: Option<nat>)
    requires o.Some? ==> 0 < o.value < HALF
    ensures HandleWord(o) < HALF && PayloadControl.HeldAt(HandleWord(o)) == o
  {
  }

  /** What WriteRegisters leaves represents the machine with those registers. */
  lemma RegistersRepresent(control: seq<Word>, after: seq<Word>, l: Layout, c: Config, m: Machine, regs: seq<Option<nat>>)
    requires Represents(control, l, c, m) && Fits(l, |control|) && |after| == |control| && RegistersAt(after, l) == regs
    requires forall k: nat :: k < |control| && !(l.registersAt <= k < l.metaAt) ==> after[k] == control[k]
    ensures Represents(after, l, c, m.(tables := m.tables.(regs := regs)))
  {
    RepresentsParts(control, l, c, m);
    DirectoryKept(control, after, l.tokensAt, l.tokens);
    DirectoryKept(control, after, l.outputsAt, l.outputs);
    LayoutKept(control, after);
    forall k: nat | k < l.moduli
      ensures RowFor(after, l, c, k)
    {
      assert RowFor(control, l, c, k);
    }
    hide Represents, LayoutOf, DirectoryAt, Low, RowFor, IsNtt, RegistersAt;
    forall handle: nat | 1 <= handle <= l.capacity
      ensures MetaFor(after, l, m.heap, handle)
    {
      RepresentsMeta(control, l, c, m, handle);
      assert MetaAt(after, l, handle) == MetaAt(control, l, handle);
    }
    hide MetaFor;
    MakeRepresents(after, l, c, m.(tables := m.tables.(regs := regs)));
  }
}

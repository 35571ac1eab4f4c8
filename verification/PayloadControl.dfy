/** The control words of the accelerator: a header of counts, and regions behind it whose offsets are added up in 32 bits.
    Directories are searched and updated in place, and handles are allocated by bumping a header word. */
module PayloadControl {
  import opened WordArithmetic
  import opened HandleMachine

  const HEADER_WORDS := 9
  const MAGIC: Word := 0x43494E4E5041594C
  const VERSION: Word := 1
  const HALF: nat := 0x1_0000_0000

  /** Truncation to 32 bits. */
  function Low(x: nat): (r: nat)
    ensures r < HALF
  {
    x % HALF
  }

  datatype Layout = Layout(registers: nat, coeffs: nat, moduli: nat, capacity: nat, tokens: nat, outputs: nat,
                           moduliAt: nat, registersAt: nat, metaAt: nat, tokensAt: nat, outputsAt: nat, end: nat)

  datatype Parsed = Accepted(layout: Layout) | BadMagic | BadVersion | Overflow

  /** The regions in order, offsets truncated after every addition. */
  function LayoutOf(control: seq<Word>): Layout
    requires |control| >= HEADER_WORDS
  {
    var registers, coeffs, moduli := Low(control[2]), Low(control[3]), Low(control[4]);
    var capacity, tokens, outputs := Low(control[6]), Low(control[7]), Low(control[8]);
    var registersAt := Low(HEADER_WORDS + Low(moduli * 2));
    var metaAt := Low(registersAt + registers);
    var tokensAt := Low(metaAt + Low(capacity * 2));
    var outputsAt := Low(tokensAt + Low(tokens * 2));
    Layout(registers, coeffs, moduli, capacity, tokens, outputs, HEADER_WORDS, registersAt, metaAt, tokensAt, outputsAt,
           Low(outputsAt + Low(outputs * 2)))
  }

  method ParseLayout(control: array<Word>) returns (parsed: Parsed)
    ensures control.Length < HEADER_WORDS ==> parsed == Overflow
    ensures control.Length >= HEADER_WORDS ==>
      parsed == if control[0] != MAGIC then BadMagic else if control[1] != VERSION then BadVersion
                else if LayoutOf(control[..]).end > control.Length then Overflow else Accepted(LayoutOf(control[..]))
  {
    hide Low;
    if control.Length < HEADER_WORDS {
      return Overflow;
    }
    if control[0] != MAGIC {
      return BadMagic;
    }
    if control[1] != VERSION {
      return BadVersion;
    }
    var l := Layout(Low(control[2]), Low(control[3]), Low(control[4]), Low(control[6]), Low(control[7]), Low(control[8]), 0, 0, 0, 0, 0, 0);
    var offset := HEADER_WORDS;
    l := l.(moduliAt := offset);
    offset := Low(offset + Low(l.moduli * 2));
    l := l.(registersAt := offset);
    offset := Low(offset + l.registers);
    l := l.(metaAt := offset);
    offset := Low(offset + Low(l.capacity * 2));
    l := l.(tokensAt := offset);
    offset := Low(offset + Low(l.tokens * 2));
    l := l.(outputsAt := offset);
    offset := Low(offset + Low(l.outputs * 2));
    l := l.(end := offset);
    if offset > control.Length {
      return Overflow;
    }
    return Accepted(l);
  }

  /** The five regions lie one behind the other, within the control words. */
  predicate Fits(l: Layout, length: nat)
  {
    && l.moduliAt == HEADER_WORDS && l.registersAt == l.moduliAt + 2 * l.moduli && l.metaAt == l.registersAt + l.registers
    && l.tokensAt == l.metaAt + 2 * l.capacity && l.outputsAt == l.tokensAt + 2 * l.tokens && l.outputsAt + 2 * l.outputs <= length
  }

  /** Words that the counts of a header ask for. */
  function Needed(l: Layout): nat
  {
    HEADER_WORDS + 2 * l.moduli + l.registers + 2 * l.capacity + 2 * l.tokens + 2 * l.outputs
  }

  lemma LowSmall(x: nat)
    ensures x < HALF ==> Low(x) == x
    ensures Low(x) <= x
  {
  }

  /** The regions of an accepted header fit exactly when the counts ask for less than 2^32 words. Beyond that the
      truncated end is accepted although the regions overlap or run past the control words. */
  lemma AcceptedFits(control: seq<Word>)
    requires HEADER_WORDS <= |control| < HALF && LayoutOf(control).end <= |control|
    ensures Fits(LayoutOf(control), |control|) <==> Needed(LayoutOf(control)) < HALF
  {
    hide *;
    var l := LayoutOf(control);
    if Fits(l, |control|) {
      FitsNeeded(l, |control|);
    }
    if Needed(l) < HALF {
      NeededFits(control);
    }
  }

  lemma FitsNeeded(l: Layout, length: nat)
    requires Fits(l, length) && length < HALF
    ensures Needed(l) < HALF
  {
  }

  lemma NeededFits(control: seq<Word>)
    requires HEADER_WORDS <= |control| && Needed(LayoutOf(control)) < HALF && LayoutOf(control).end <= |control|
    ensures Fits(LayoutOf(control), |control|)
  {
    hide Low;
    var l := LayoutOf(control);
    LowSmall(l.moduli * 2);
    LowSmall(l.capacity * 2);
    LowSmall(l.tokens * 2);
    LowSmall(l.outputs * 2);
    LowSmall(HEADER_WORDS + l.moduli * 2);
    LowSmall(l.registersAt + l.registers);
    LowSmall(l.metaAt + l.capacity * 2);
    LowSmall(l.tokensAt + l.tokens * 2);
    LowSmall(l.outputsAt + l.outputs * 2);
  }

  /** A bare header that asks for 2^31 outputs is such a header: the doubled count wraps to 0. */
  lemma AcceptedBeyond(control: seq<Word>)
    requires control == [MAGIC, VERSION, 0, 0, 0, 0, 0, 0, 0x8000_0000]
    ensures LayoutOf(control).end <= |control| && Needed(LayoutOf(control)) >= HALF && !Fits(LayoutOf(control), |control|)
  {
    assert control[8] == 0x8000_0000 && control[7] == 0 && control[6] == 0 && control[4] == 0 && control[2] == 0;
    assert Low(0x8000_0000) == 0x8000_0000 && Low(0x8000_0000 * 2) == 0 && Low(0) == 0 && Low(HEADER_WORDS) == HEADER_WORDS;
  }

  lemma SmallWord(x: nat)
    requires x < HALF
    ensures x < WORD
  {
  }

  // ----- directories

  function HeldAt(word: Word): Option<nat>
  {
    if Low(word) == 0 then None else Some(Low(word))
  }

  /** A directory: pairs of a key and a handle, 0 standing for none. */
  function DirectoryAt(control: seq<Word>, at: nat, count: nat): (dir: seq<Entry<nat>>)
    requires at + 2 * count <= |control|
    ensures |dir| == count
  {
    seq(count, k requires 0 <= k < count => Entry(control[at + 2 * k], HeldAt(control[at + 2 * k + 1])))
  }

  ghost predicate KeysSorted(control: seq<Word>, at: nat, count: nat)
    requires at + 2 * count <= |control|
  {
    forall j: nat, k: nat :: j < k < count ==> DirectoryAt(control, at, count)[j].key < DirectoryAt(control, at, count)[k].key
  }

  lemma {:induction false} FirstAt(dir: seq<Entry<nat>>, key: nat, from: nat, k: nat)
    requires from <= k <= |dir| && (forall j: nat :: from <= j < k ==> dir[j].key != key) && (k < |dir| ==> dir[k].key == key)
    ensures Position(dir, key, from) == k
    decreases k - from
  {
    if from < k {
      FirstAt(dir, key, from + 1, k);
    }
  }

  /** Binary search for a key; the number of pairs when there is none. */
  method PairSearch(control: array<Word>, at: nat, count: nat, key: nat) returns (pos: nat)
    requires at + 2 * count <= control.Length && KeysSorted(control[..], at, count)
    ensures pos == Position(DirectoryAt(control[..], at, count), key, 0)
  {
    ghost var dir := DirectoryAt(control[..], at, count);
    var lo: nat, hi: nat := 0, count;
    while lo < hi
      invariant lo <= hi <= count
      invariant forall j: nat :: j < lo ==> dir[j].key < key
      invariant forall j: nat :: hi <= j < count ==> dir[j].key > key
    {
      var mid := lo + (hi - lo) / 2;
      assert control[at + 2 * mid] == dir[mid].key;
      if control[at + 2 * mid] == key {
        FirstAt(dir, key, 0, mid);
        return mid;
      }
      if control[at + 2 * mid] < key {
        lo := mid + 1;
      } else {
        hi := mid;
      }
    }
    FirstAt(dir, key, 0, count);
    return count;
  }

  /** The handle bound to a key, 0 if there is none. */
  method PairLookup(control: array<Word>, at: nat, count: nat, key: nat) returns (handle: nat)
    requires at + 2 * count <= control.Length && KeysSorted(control[..], at, count)
    ensures (if handle == 0 then None else Some(handle)) == Lookup(DirectoryAt(control[..], at, count), key)
  {
    var pos := PairSearch(control, at, count, key);
    handle := if pos < count then Low(control[at + 2 * pos + 1]) else 0;
  }

  /** Binds a key that is already in the directory; nothing else changes. */
  method PairUpdate(control: array<Word>, at: nat, count: nat, key: nat, handle: nat) returns (found: bool)
    requires at + 2 * count <= control.Length && KeysSorted(control[..], at, count) && handle < HALF
    modifies control
    ensures var pos := Position(DirectoryAt(old(control[..]), at, count), key, 0);
      found == (pos < count) && control[..] == if found then old(control[..])[at + 2 * pos + 1 := handle] else old(control[..])
  {
    var pos := PairSearch(control, at, count, key);
    found := pos < count;
    if found {
      control[at + 2 * pos + 1] := handle;
    }
  }

  lemma PositionFinds(dir: seq<Entry<nat>>, key: nat, from: nat)
    requires from <= |dir|
    ensures Position(dir, key, from) < |dir| ==> dir[Position(dir, key, from)].key == key
    ensures forall j: nat :: from <= j < Position(dir, key, from) ==> dir[j].key != key
    decreases |dir| - from
  {
    if from < |dir| && dir[from].key != key {
      PositionFinds(dir, key, from + 1);
    }
  }

  /** An update is what the machine's store does to its output directory: the key is bound to the handle, all other keys
      are bound as before, and the order of the keys stays. */
  lemma UpdateBinds(control: seq<Word>, at: nat, count: nat, key: nat, handle: nat)
    requires at + 2 * count <= |control| && handle < HALF && KeysSorted(control, at, count)
    requires Position(DirectoryAt(control, at, count), key, 0) < count
    ensures var dir, pos := DirectoryAt(control, at, count), Position(DirectoryAt(control, at, count), key, 0);
      var after := control[at + 2 * pos + 1 := handle];
      && DirectoryAt(after, at, count) == dir[pos := Entry(key, HeldAt(handle))]
      && KeysSorted(after, at, count)
      && Lookup(DirectoryAt(after, at, count), key) == HeldAt(handle)
      && forall other: nat :: other != key ==> Lookup(DirectoryAt(after, at, count), other) == Lookup(dir, other)
  {
    hide *;
    var dir, pos := DirectoryAt(control, at, count), Position(DirectoryAt(control, at, count), key, 0);
    PositionFinds(dir, key, 0);
    SmallWord(handle);
    DirectoryUpdated(control, at, count, pos, handle);
    BoundAlone(dir, pos, key, HeldAt(handle));
    SortedUpdated(control, control[at + 2 * pos + 1 := handle], at, count, key, HeldAt(handle), pos);
  }

  lemma DirectoryUpdated(control: seq<Word>, at: nat, count: nat, pos: nat, handle: nat)
    requires at + 2 * count <= |control| && handle < HALF && pos < count
    ensures DirectoryAt(control[at + 2 * pos + 1 := handle], at, count)
         == DirectoryAt(control, at, count)[pos := Entry(DirectoryAt(control, at, count)[pos].key, HeldAt(handle))]
  {
    var dir, after := DirectoryAt(control, at, count), control[at + 2 * pos + 1 := handle];
    hide HeldAt;
    forall k: nat | k < count
      ensures DirectoryAt(after, at, count)[k] == if k == pos then Entry(dir[pos].key, HeldAt(handle)) else dir[k]
    {
      PairApart(at, k, pos);
    }
  }

  lemma BoundAlone(dir: seq<Entry<nat>>, pos: nat, key: nat, held: Option<nat>)
    requires pos == Position(dir, key, 0) < |dir|
    ensures var now := dir[pos := Entry(key, held)];
      Lookup(now, key) == held && forall other: nat :: other != key ==> Lookup(now, other) == Lookup(dir, other)
  {
    hide Position;
    var now := dir[pos := Entry(key, held)];
    PositionFinds(dir, key, 0);
    forall other: nat
      ensures Lookup(now, other) == if other == key then held else Lookup(dir, other)
    {
      PositionFinds(dir, other, 0);
      FirstAt(now, other, 0, Position(dir, other, 0));
    }
  }

  lemma SortedUpdated(control: seq<Word>, after: seq<Word>, at: nat, count: nat, key: nat, held: Option<nat>, pos: nat)
    requires at + 2 * count <= |control| == |after| && KeysSorted(control, at, count) && pos < count
    requires DirectoryAt(control, at, count)[pos].key == key
    requires DirectoryAt(after, at, count) == DirectoryAt(control, at, count)[pos := Entry(key, held)]
    ensures KeysSorted(after, at, count)
  {
    hide DirectoryAt;
  }

  lemma PairApart(at: nat, j: nat, k: nat)
    ensures at + 2 * j != at + 2 * k + 1
    ensures j != k ==> at + 2 * j + 1 != at + 2 * k + 1
  {
  }

  // ----- moduli

  /** The modulus of the first row with the id, 0 if there is none. */
  function ModulusFrom(control: seq<Word>, at: nat, count: nat, id: nat, k: nat): (q: Word)
    requires k <= count && at + 2 * count <= |control|
    decreases count - k
  {
    if k == count then 0 else if Low(control[at + 2 * k]) == id then control[at + 2 * k + 1] else ModulusFrom(control, at, count, id, k + 1)
  }

  method LookupModulus(control: array<Word>, l: Layout, id: nat) returns (q: Word)
    requires Fits(l, control.Length)
    ensures q == ModulusFrom(control[..], l.moduliAt, l.moduli, id, 0)
  {
    var i: nat := 0;
    while i < l.moduli
      invariant i <= l.moduli
      invariant ModulusFrom(control[..], l.moduliAt, l.moduli, id, i) == ModulusFrom(control[..], l.moduliAt, l.moduli, id, 0)
    {
      if Low(control[l.moduliAt + 2 * i]) == id {
        return control[l.moduliAt + 2 * i + 1];
      }
      i := i + 1;
    }
    return 0;
  }

  /** The moduli of a configuration are those of the control words when its rows are. */
  lemma {:induction false} SameModulus(c: Config, control: seq<Word>, at: nat, id: nat, k: nat)
    requires k <= |c.moduli| && at + 2 * |c.moduli| <= |control|
    requires forall j: nat :: j < |c.moduli| ==> c.moduli[j].id == Low(control[at + 2 * j]) && c.moduli[j].value == control[at + 2 * j + 1]
    ensures ModulusFrom(control, at, |c.moduli|, id, k) == if c.RowFrom(id, k) < |c.moduli| then c.moduli[c.RowFrom(id, k)].value else 0
    decreases |c.moduli| - k
  {
    if k < |c.moduli| && c.moduli[k].id != id {
      SameModulus(c, control, at, id, k + 1);
    }
  }

  // ----- handles

  /** Base and form words of a handle. */
  function MetaAt(control: seq<Word>, l: Layout, handle: nat): (Word, Word)
    requires Fits(l, |control|) && 1 <= handle <= l.capacity
  {
    (control[l.metaAt + 2 * (handle - 1)], control[l.metaAt + 2 * (handle - 1) + 1])
  }

  /** The next handle, 0 when all are taken. */
  method AllocateHandle(control: array<Word>, l: Layout, id: nat, ntt: bool) returns (handle: nat)
    requires Fits(l, control.Length) && id < HALF && l.capacity < HALF
    modifies control
    ensures (handle == 0) == (Low(old(control[5])) >= l.capacity)
    ensures handle == 0 ==> control[..] == old(control[..])
    ensures handle != 0 ==> handle == Low(old(control[5])) + 1 && control[..] == Allocated(old(control[..]), l, id, ntt)
  {
    var count := Low(control[5]);
    if count >= l.capacity {
      return 0;
    }
    handle := count + 1;
    control[5] := handle;
    var cursor := l.metaAt + 2 * (handle - 1);
    control[cursor] := id;
    control[cursor + 1] := if ntt then 1 else 0;
  }

  function Allocated(control: seq<Word>, l: Layout, id: nat, ntt: bool): (after: seq<Word>)
    requires Fits(l, |control|) && id < HALF && Low(control[5]) < l.capacity < HALF
    ensures |after| == |control|
  {
    var cursor := l.metaAt + 2 * Low(control[5]);
    control[5 := Low(control[5]) + 1][cursor := id][cursor + 1 := if ntt then 1 else 0]
  }

  /** Allocation binds the base and form of a handle nobody had, and leaves the moduli, registers, directories and all
      other handles as they were. */
  lemma AllocationApart(control: seq<Word>, l: Layout, id: nat, ntt: bool)
    requires Fits(l, |control|) && id < HALF && Low(control[5]) < l.capacity < HALF
    ensures var after := Allocated(control, l, id, ntt);
      && Low(after[5]) == Low(control[5]) + 1 && MetaAt(after, l, Low(after[5])) == (id, if ntt then 1 else 0)
      && (forall other: nat :: 1 <= other <= l.capacity && other != Low(after[5]) ==> MetaAt(after, l, other) == MetaAt(control, l, other))
      && after[l.moduliAt..l.metaAt] == control[l.moduliAt..l.metaAt]
      && DirectoryAt(after, l.tokensAt, l.tokens) == DirectoryAt(control, l.tokensAt, l.tokens)
      && DirectoryAt(after, l.outputsAt, l.outputs) == DirectoryAt(control, l.outputsAt, l.outputs)
      && LayoutOf(after) == LayoutOf(control) && after[..2] == control[..2]
  {
    hide Allocated, LayoutOf, DirectoryAt, MetaAt;
    AllocatedWords(control, l, id, ntt);
    var after := Allocated(control, l, id, ntt);
    AllocatedMeta(control, after, l, id, ntt);
    DirectoryKept(control, after, l.tokensAt, l.tokens);
    DirectoryKept(control, after, l.outputsAt, l.outputs);
    LayoutKept(control, after);
  }

  ghost predicate WordsAllocated(control: seq<Word>, after: seq<Word>, at: nat, handle: nat, id: nat, ntt: bool)
  {
    && 5 < at && at + 1 < |control| == |after| && after[5] == handle && after[at] == id && after[at + 1] == (if ntt then 1 else 0)
    && forall k: nat :: k < |control| && k != 5 && k != at && k != at + 1 ==> after[k] == control[k]
  }

  lemma AllocatedWords(control: seq<Word>, l: Layout, id: nat, ntt: bool)
    requires Fits(l, |control|) && id < HALF && Low(control[5]) < l.capacity < HALF
    ensures var after := Allocated(control, l, id, ntt);
      && WordsAllocated(control, after, l.metaAt + 2 * Low(control[5]), Low(control[5]) + 1, id, ntt)
      && Low(after[5]) == Low(control[5]) + 1
  {
    LowSmall(Low(control[5]) + 1);
    hide Low;
  }

  lemma AllocatedMeta(control: seq<Word>, after: seq<Word>, l: Layout, id: nat, ntt: bool)
    requires Fits(l, |control|) && id < HALF && Low(control[5]) < l.capacity < HALF && |after| == |control|
    requires WordsAllocated(control, after, l.metaAt + 2 * Low(control[5]), Low(control[5]) + 1, id, ntt)
    ensures MetaAt(after, l, Low(control[5]) + 1) == (id, if ntt then 1 else 0)
    ensures forall other: nat :: 1 <= other <= l.capacity && other != Low(control[5]) + 1 ==> MetaAt(after, l, other) == MetaAt(control, l, other)
    ensures after[l.moduliAt..l.metaAt] == control[l.moduliAt..l.metaAt]
  {
    hide Low;
    forall other: nat | 1 <= other <= l.capacity && other != Low(control[5]) + 1
      ensures MetaAt(after, l, other) == MetaAt(control, l, other)
    {
      PairApart(l.metaAt, other - 1, Low(control[5]));
    }
  }

  lemma DirectoryKept(control: seq<Word>, after: seq<Word>, at: nat, count: nat)
    requires at + 2 * count <= |control| == |after|
    requires forall k: nat :: at <= k < at + 2 * count ==> after[k] == control[k]
    ensures DirectoryAt(after, at, count) == DirectoryAt(control, at, count)
  {
    hide HeldAt;
  }

  lemma LayoutKept(control: seq<Word>, after: seq<Word>)
    requires HEADER_WORDS <= |control| == |after| && forall k: nat :: k < HEADER_WORDS && k != 5 ==> after[k] == control[k]
    ensures LayoutOf(after) == LayoutOf(control) && after[..2] == control[..2]
  {
    hide Low;
  }

  /** Start of a handle's coefficients, multiplied in 32 bits. */
  function CoeffOffset(l: Layout, handle: nat): nat
    requires handle >= 1
  {
    Low((handle - 1) * l.coeffs)
  }

  lemma OffsetBound(capacity: nat, handle: nat, n: nat)
    requires 1 <= handle <= capacity
    ensures (handle - 1) * n + n <= capacity * n
  {
    assert (handle - 1) * n + n == handle * n;
    assert handle * n <= capacity * n;
  }

  lemma OffsetOrder(handle: nat, other: nat, n: nat)
    requires 1 <= handle < other
    ensures (handle - 1) * n + n <= (other - 1) * n
  {
    assert handle * n <= (other - 1) * n;
  }

  /** Handles up to the capacity have disjoint ranges in a payload that holds all of them, below 2^32 words. */
  lemma RangesApart(l: Layout, payload: nat, handle: nat, other: nat)
    requires 1 <= handle < other <= l.capacity && l.capacity * l.coeffs <= payload < HALF
    ensures CoeffOffset(l, handle) == (handle - 1) * l.coeffs && CoeffOffset(l, other) == (other - 1) * l.coeffs
    ensures CoeffOffset(l, handle) + l.coeffs <= CoeffOffset(l, other) && CoeffOffset(l, other) + l.coeffs <= payload
  {
    OffsetBound(l.capacity, handle, l.coeffs);
    OffsetBound(l.capacity, other, l.coeffs);
    OffsetOrder(handle, other, l.coeffs);
    LowSmall((handle - 1) * l.coeffs);
    LowSmall((other - 1) * l.coeffs);
    hide Low;
  }
}

/** The in-place network of the accelerator, driven by a 64-bit control word. */
module BenesKernel {
  import opened Congruence
  import opened Polynomials
  import opened Bits
  import opened WordArithmetic
  import opened FourStepStages
  import opened Benes
  import opened BenesRouting

  const MAX_BENES_SIZE := 16

  // ----- bits of a word

  predicate Bit(w: nat, i: nat)
  {
    if i == 0 then w % 2 == 1 else Bit(w / 2, i - 1)
  }

  lemma {:induction false} BitShift(w: nat, s: nat, i: nat)
    ensures w / Pow2(s) >= 0 && Bit(w / Pow2(s), i) == Bit(w, s + i)
  {
    if s == 0 {
    } else {
      DivideTwice(w, Pow2(s - 1));
      BitShift(w / 2, s - 1, i);
    }
  }

  lemma DivideTwice(w: nat, m: nat)
    requires m > 0
    ensures w / (2 * m) == (w / 2) / m
  {
    var q, r := (w / 2) / m, (w / 2) % m;
    assert w / 2 == m * q + r;
    assert w == (2 * m) * q + (2 * r + w % 2);
    QuotientOf(w, 2 * m, q, 2 * r + w % 2);
  }

  lemma QuotientOf(a: nat, b: nat, q: int, r: nat)
    requires b > 0 && r < b && a == b * q + r
    ensures a / b == q && a % b == r
  {
    CongFrom(a, r, q, b);
    SmallMod(r, b);
    assert a == b * (a / b) + a % b;
    assert q * b == b * (a / b);
    EqualFactors(q, a / b, b);
  }

  lemma {:induction false} BitMask(w: nat, n: nat, i: nat)
    requires i < n
    ensures w % Pow2(n) >= 0 && Bit(w % Pow2(n), i) == Bit(w, i)
  {
    HalveRemainder(w, Pow2(n - 1));
    if i > 0 {
      BitMask(w / 2, n - 1, i - 1);
    }
  }

  lemma HalveRemainder(w: nat, m: nat)
    requires m > 0
    ensures 0 <= w % (2 * m) && (w % (2 * m)) % 2 == w % 2 && (w % (2 * m)) / 2 == (w / 2) % m
  {
    var q, r := (w / 2) / m, (w / 2) % m;
    assert w / 2 == m * q + r;
    assert w == (2 * m) * q + (2 * r + w % 2);
    QuotientOf(w, 2 * m, q, 2 * r + w % 2);
  }

  /** The word whose first n bits are f(0), f(1), ... */
  function WordOf(f: nat -> bool, n: nat): (w: nat)
    ensures w < Pow2(n)
  {
    if n == 0 then 0 else (if f(0) then 1 else 0) + 2 * WordOf(Offset(f, 1), n - 1)
  }

  lemma {:induction false} BitOfWord(f: nat -> bool, n: nat, i: nat)
    requires i < n
    ensures Bit(WordOf(f, n), i) == f(i)
  {
    if i > 0 {
      BitOfWord(Offset(f, 1), n - 1, i - 1);
    }
  }

  // ----- controls as words

  /** Switch k of layer `level` is bit level * half + k. */
  function WordControl(w: nat, half: nat): Control
  {
    (level: nat, k: nat) => Bit(w, Flat(level, k, half))
  }

  function FlatBits(c: Control, half: nat): nat -> bool
    requires half > 0
  {
    (i: nat) => c(i / half, i % half)
  }

  function ControlWord(c: Control, levels: nat): nat
    requires levels >= 1
  {
    WordOf(FlatBits(c, Pow2(levels - 1)), 2 * levels * Pow2(levels - 1))
  }

  lemma ControlWordBits(c: Control, levels: nat, level: nat, k: nat)
    requires levels >= 1 && level < 2 * levels && k < Pow2(levels - 1)
    ensures WordControl(ControlWord(c, levels), Pow2(levels - 1))(level, k) == c(level, k)
  {
    var half := Pow2(levels - 1);
    FlatIndex(level, k, 2 * levels, half);
    BitOfWord(FlatBits(c, half), 2 * levels * half, Flat(level, k, half));
  }

  /** Up to 16 values the control fits a machine word. */
  lemma ControlWordFits(c: Control, levels: nat)
    requires 1 <= levels <= 4
    ensures ControlWord(c, levels) < WORD
  {
    assert Pow2(1) == 2 && Pow2(2) == 4 && Pow2(3) == 8;
    var n := 2 * levels * Pow2(levels - 1);
    assert n <= 64;
    Pow2Increasing(n, 64);
    Pow2Of64();
  }

  lemma Pow2Doubles(n: nat)
    requires n >= 1
    ensures Pow2(n) == 2 * Pow2(n - 1)
  {
  }

  lemma Pow2Of64()
    ensures Pow2(64) == WORD
  {
    assert Pow2(4) == 16;
    hide Pow2;
    Pow2Add(4, 4);
    Pow2Add(8, 8);
    Pow2Add(16, 16);
    Pow2Add(32, 32);
  }

  /** Every permutation of up to 16 values has a control word. */
  lemma EveryPermutationHasWord(pi: seq<nat>, levels: nat) returns (w: Word)
    requires 1 <= levels <= 4 && |pi| == Pow2(levels) && IsPermutation(pi)
    ensures Routing(levels, WordControl(w, Pow2(levels - 1))) == pi
  {
    var c := EveryPermutationRouted(pi, levels);
    ControlWordFits(c, levels);
    w := ControlWord(c, levels);
    SameNetwork(Iota(|pi|), levels, WordControl(w, Pow2(levels - 1)), c) by {
      forall level: nat, k: nat | level < 2 * levels && k < Pow2(levels - 1)
        ensures WordControl(w, Pow2(levels - 1))(level, k) == c(level, k)
      {
        ControlWordBits(c, levels, level, k);
      }
    }
  }

  lemma SameNetwork<T>(a: seq<T>, levels: nat, c: Control, d: Control)
    requires levels >= 1 && |a| == Pow2(levels)
    requires forall level: nat, k: nat :: level < 2 * levels && k < Pow2(levels - 1) ==> c(level, k) == d(level, k)
    ensures Network(a, levels, c) == Network(a, levels, d)
  {
    ControlExt(a, levels, c, d, 2 * levels);
  }

  /** Word with the layers of w in reverse order. */
  function ReversedWord(w: nat, levels: nat): nat
    requires levels >= 1
  {
    ControlWord(Reversed(WordControl(w, Pow2(levels - 1)), levels), levels)
  }

  /** The reversed word undoes the network of the word. */
  lemma ReversedWordUndoes<T>(a: seq<T>, levels: nat, w: Word)
    requires 1 <= levels <= 4 && |a| == Pow2(levels)
    ensures ReversedWord(w, levels) < WORD
    ensures var half := Pow2(levels - 1);
      Network(Network(a, levels, WordControl(w, half)), levels, WordControl(ReversedWord(w, levels), half)) == a
  {
    var half := Pow2(levels - 1);
    var c := WordControl(w, half);
    ControlWordFits(Reversed(c, levels), levels);
    forall level: nat, k: nat | level < 2 * levels && k < half
      ensures WordControl(ReversedWord(w, levels), half)(level, k) == Reversed(c, levels)(level, k)
    {
      ControlWordBits(Reversed(c, levels), levels, level, k);
    }
    SameNetwork(Network(a, levels, c), levels, WordControl(ReversedWord(w, levels), half), Reversed(c, levels));
    NetworkReverses(a, levels, c);
  }

  // ----- the kernel

  function LayerSwitches(layer: nat): nat -> bool
  {
    (k: nat) => Bit(layer, k)
  }

  /** Positions p and p + half of r hold those of a, exchanged when `swap`. */
  ghost predicate PairRight<T(!new)>(r: seq<T>, a: seq<T>, p: nat, half: nat, swap: bool)
  {
    && p + half < |a| && |r| == |a|
    && r[p] == (if swap then a[p + half] else a[p])
    && r[p + half] == (if swap then a[p] else a[p + half])
  }

  /** Start of block id when blocks have side 2^b: the sum id times over, which keeps the arithmetic linear. */
  function BlockStart(id: nat, b: nat): nat
  {
    if id == 0 then 0 else BlockStart(id - 1, b) + Pow2(b)
  }

  lemma {:induction false} BlockStartProduct(id: nat, b: nat)
    ensures BlockStart(id, b) == id * Pow2(b)
  {
    if id > 0 {
      BlockStartProduct(id - 1, b);
      assert id * Pow2(b) == (id - 1) * Pow2(b) + Pow2(b);
    }
  }

  lemma {:induction false} BlockStartAdd(i: nat, j: nat, b: nat)
    ensures BlockStart(i + j, b) == BlockStart(i, b) + BlockStart(j, b)
  {
    if j > 0 {
      BlockStartAdd(i, j - 1, b);
    }
  }

  lemma {:induction false} BlockStartPow2(x: nat, b: nat)
    ensures BlockStart(Pow2(x), b) == Pow2(x + b)
  {
    if x == 0 {
      assert Pow2(0) == 1 && BlockStart(1, b) == BlockStart(0, b) + Pow2(b);
    } else {
      BlockStartPow2(x - 1, b);
      BlockStartAdd(Pow2(x - 1), Pow2(x - 1), b);
    }
  }

  lemma BlockStartFirst(b: nat)
    ensures BlockStart(0, b) == 0
  {
  }

  lemma BlockStartNext(id: nat, b: nat)
    ensures BlockStart(id + 1, b) == BlockStart(id, b) + Pow2(b)
  {
  }

  lemma BlockStartIncreasing(i: nat, j: nat, b: nat)
    requires i < j
    ensures BlockStart(i, b) + Pow2(b) <= BlockStart(j, b)
  {
    BlockStartAdd(i + 1, j - i - 1, b);
  }

  /** Switch i of the block at `base` has been set by bit first + i of the layer. */
  ghost predicate SwitchRight(r: seq<Word>, a: seq<Word>, base: nat, first: nat, i: nat, half: nat, layer: nat)
  {
    PairRight(r, a, base + i, half, Bit(layer, first + i))
  }

  /** The two outputs of switch i in block id of a layer. */
  lemma {:induction false} BlockEntry(a: seq<Word>, levels: nat, b: nat, f: nat -> bool, id: nat, i: nat, p: nat, k: nat)
    requires |a| == Pow2(levels) && 1 <= b <= levels && id < Pow2(levels - b) && i < Pow2(b - 1)
    requires p == BlockStart(id, b) + i && k == BlockStart(id, b - 1) + i
    ensures PairRight(ApplyLayer(a, levels, b, f), a, p, Pow2(b - 1), f(k))
    decreases levels
  {
    hide *;
    var hb := Pow2(b - 1);
    var half := Pow2(levels - 1);
    if b == levels {
      TopEntry(a, levels, f, id, i, p, k);
    } else {
      var m := Pow2(levels - 1 - b);
      var n := Pow2(levels - 2);
      Pow2Doubles(levels - b);
      Pow2Doubles(levels - 1);
      Pow2Doubles(levels);
      LayerHalves(a, levels, b, f);
      var lower := ApplyLayer(a[..half], levels - 1, b, f);
      var upper := ApplyLayer(a[half..], levels - 1, b, Offset(f, n));
      if id < m {
        BlockEntry(a[..half], levels - 1, b, f, id, i, p, k);
        PairInLower(lower, upper, a, half, p, hb, f(k));
      } else {
        UpperBlock(levels - 1 - b, b, id, i, p, k);
        BlockEntry(a[half..], levels - 1, b, Offset(f, n), id - m, i, p - half, k - n);
        OffsetAt(f, n, k);
        PairInUpper(lower, upper, a, half, p, hb, f(k));
      }
    }
  }

  lemma OffsetAt(f: nat -> bool, n: nat, k: nat)
    requires n <= k
    ensures Offset(f, n)(k - n) == f(k)
  {
  }

  lemma TopEntry(a: seq<Word>, levels: nat, f: nat -> bool, id: nat, i: nat, p: nat, k: nat)
    requires levels >= 1 && |a| == Pow2(levels) && id < Pow2(0) && i < Pow2(levels - 1)
    requires p == BlockStart(id, levels) + i && k == BlockStart(id, levels - 1) + i
    ensures PairRight(ApplyLayer(a, levels, levels, f), a, p, Pow2(levels - 1), f(k))
  {
    assert id == 0 && p == i && k == i;
    ExchangePair(a, Pow2(levels - 1), f, i);
  }

  lemma LayerHalves<T>(a: seq<T>, levels: nat, b: nat, f: nat -> bool)
    requires |a| == Pow2(levels) && 1 <= b < levels
    ensures var half := Pow2(levels - 1);
      ApplyLayer(a, levels, b, f) == ApplyLayer(a[..half], levels - 1, b, f)
        + ApplyLayer(a[half..], levels - 1, b, Offset(f, Pow2(levels - 2)))
  {
  }

  lemma ExchangePair(a: seq<Word>, half: nat, f: nat -> bool, i: nat)
    requires |a| == 2 * half && i < half
    ensures PairRight(Exchange(a, half, f), a, i, half, f(i))
  {
    var r := Exchange(a, half, f);
    assert r[i] == if f(i) then a[i + half] else a[i];
    assert r[i + half] == if f(i) then a[i] else a[i + half];
  }

  /** A block of the upper half, counted from the middle; the halves have side 2^(x + b). */
  lemma UpperBlock(x: nat, b: nat, id: nat, i: nat, p: nat, k: nat)
    requires b >= 1 && Pow2(x) <= id < 2 * Pow2(x)
    requires p == BlockStart(id, b) + i && k == BlockStart(id, b - 1) + i
    ensures p >= Pow2(x + b) && p - Pow2(x + b) == BlockStart(id - Pow2(x), b) + i
    ensures k >= Pow2(x + b - 1) && k - Pow2(x + b - 1) == BlockStart(id - Pow2(x), b - 1) + i
  {
    hide *;
    BlockStartAdd(id - Pow2(x), Pow2(x), b);
    BlockStartAdd(id - Pow2(x), Pow2(x), b - 1);
    BlockStartPow2(x, b);
    BlockStartPow2(x, b - 1);
  }

  lemma PairInLower(lower: seq<Word>, upper: seq<Word>, a: seq<Word>, half: nat, p: nat, hb: nat, swap: bool)
    requires |a| == 2 * half && |lower| == |upper| == half && PairRight(lower, a[..half], p, hb, swap)
    ensures PairRight(lower + upper, a, p, hb, swap)
  {
  }

  lemma PairInUpper(lower: seq<Word>, upper: seq<Word>, a: seq<Word>, half: nat, p: nat, hb: nat, swap: bool)
    requires |a| == 2 * half && |lower| == |upper| == half && half <= p && PairRight(upper, a[half..], p - half, hb, swap)
    ensures PairRight(lower + upper, a, p, hb, swap)
  {
    assert (lower + upper)[p] == upper[p - half];
    assert (lower + upper)[p + hb] == upper[p - half + hb];
  }

  method SwitchLayer(values: array<Word>, scratch: array<Word>, levels: nat, b: nat, layer: nat)
    requires values != scratch && values.Length == Pow2(levels) && values.Length <= scratch.Length && 1 <= b <= levels
    modifies values, scratch
    ensures values[..] == ApplyLayer(old(values[..]), levels, b, LayerSwitches(layer))
  {
    hide *;
    Pow2Doubles(b);
    BlockStartFirst(b);
    BlockStartFirst(b - 1);
    ghost var a := values[..];
    ghost var target := ApplyLayer(a, levels, b, LayerSwitches(layer));
    CopyInto(values, scratch);
    var halfBlock, blockNum := Pow2(b - 1), Pow2(levels - b);
    BlockStartPow2(levels - b, b);
    var id: nat, base: nat, first: nat := 0, 0, 0;
    while id < blockNum
      invariant id <= blockNum && base == BlockStart(id, b) <= values.Length && first == BlockStart(id, b - 1)
      invariant scratch[..values.Length] == a
      invariant values[..base] == target[..base]
    {
      BlockStartIncreasing(id, blockNum, b);
      BlockStartNext(id, b);
      BlockStartNext(id, b - 1);
      SwitchBlock(values, scratch, base, first, halfBlock, layer);
      assert scratch[..values.Length] == a;
      BlockMatches(values[..], a, levels, b, halfBlock, layer, id, base, first);
      id, base, first := id + 1, base + 2 * halfBlock, first + halfBlock;
    }
    assert values[..] == target;
  }

  method CopyInto(values: array<Word>, scratch: array<Word>)
    requires values != scratch && values.Length <= scratch.Length
    modifies scratch
    ensures scratch[..values.Length] == values[..]
  {
    var i: nat := 0;
    while i < values.Length
      invariant i <= values.Length && scratch[..i] == values[..i]
    {
      scratch[i] := values[i];
      i := i + 1;
    }
  }

  lemma BlockMatches(now: seq<Word>, a: seq<Word>, levels: nat, b: nat, hb: nat, layer: nat, id: nat, base: nat, first: nat)
    requires |a| == |now| == Pow2(levels) && 1 <= b <= levels && id < Pow2(levels - b) && hb == Pow2(b - 1)
    requires base == BlockStart(id, b) && first == BlockStart(id, b - 1) && base + 2 * hb <= |a|
    requires forall i: nat :: i < hb ==> SwitchRight(now, a, base, first, i, hb, layer)
    requires now[..base] == ApplyLayer(a, levels, b, LayerSwitches(layer))[..base]
    ensures now[..base + 2 * hb] == ApplyLayer(a, levels, b, LayerSwitches(layer))[..base + 2 * hb]
  {
    hide Pow2, ApplyLayer, BlockStart;
    var target := ApplyLayer(a, levels, b, LayerSwitches(layer));
    forall j: nat | base <= j < base + 2 * hb
      ensures now[j] == target[j]
    {
      var i := if j < base + hb then j - base else j - base - hb;
      assert SwitchRight(now, a, base, first, i, hb, layer);
      TargetRight(a, levels, b, hb, layer, id, i, base, first);
      PairsAgree(now, target, a, base + i, hb, Bit(layer, first + i));
    }
    ExtendPrefix(now, target, base, base + 2 * hb);
  }

  lemma TargetRight(a: seq<Word>, levels: nat, b: nat, hb: nat, layer: nat, id: nat, i: nat, base: nat, first: nat)
    requires |a| == Pow2(levels) && 1 <= b <= levels && id < Pow2(levels - b) && hb == Pow2(b - 1) && i < hb
    requires base == BlockStart(id, b) && first == BlockStart(id, b - 1)
    ensures SwitchRight(ApplyLayer(a, levels, b, LayerSwitches(layer)), a, base, first, i, hb, layer)
  {
    hide Pow2, ApplyLayer, BlockStart, PairRight;
    var p, k := base + i, first + i;
    BlockEntry(a, levels, b, LayerSwitches(layer), id, i, p, k);
  }

  lemma PairsAgree(r: seq<Word>, s: seq<Word>, a: seq<Word>, p: nat, half: nat, swap: bool)
    requires PairRight(r, a, p, half, swap) && PairRight(s, a, p, half, swap)
    ensures r[p] == s[p] && r[p + half] == s[p + half]
  {
  }

  lemma ExtendPrefix(r: seq<Word>, s: seq<Word>, m: nat, n: nat)
    requires m <= n <= |r| == |s| && r[..m] == s[..m]
    requires forall j: nat :: m <= j < n ==> r[j] == s[j]
    ensures r[..n] == s[..n]
  {
    assert r[..n] == r[..m] + r[m..n];
    assert s[..n] == s[..m] + s[m..n];
    assert r[m..n] == s[m..n];
  }

  lemma NextBlock(id: nat, count: nat, side: nat)
    requires id < count
    ensures (id + 1) * side == id * side + side <= count * side
  {
    assert (id + 1) * side <= count * side;
  }

  /** The switches of one block; the block starts at `base`, its switches at `first`. */
  method SwitchBlock(values: array<Word>, scratch: array<Word>, base: nat, first: nat, halfBlock: nat, layer: nat)
    requires values != scratch && base + 2 * halfBlock <= values.Length <= scratch.Length
    modifies values
    ensures forall j: nat :: j < values.Length && !(base <= j < base + 2 * halfBlock) ==> values[j] == old(values[j])
    ensures forall i: nat :: i < halfBlock ==>
      SwitchRight(values[..], scratch[..values.Length], base, first, i, halfBlock, layer)
  {
    var i: nat := 0;
    ghost var a := scratch[..values.Length];
    while i < halfBlock
      invariant i <= halfBlock && scratch[..values.Length] == a
      invariant forall j: nat :: j < values.Length && !(base <= j < base + 2 * halfBlock) ==> values[j] == old(values[j])
      invariant forall k: nat :: k < i ==> SwitchRight(values[..], a, base, first, k, halfBlock, layer)
    {
      ghost var was := values[..];
      var doSwap := Bit(layer, first + i);
      var idx1 := base + i;
      var idx2 := idx1 + halfBlock;
      values[idx1] := if doSwap then scratch[idx2] else scratch[idx1];
      values[idx2] := if doSwap then scratch[idx1] else scratch[idx2];
      forall k: nat | k < i
        ensures SwitchRight(values[..], a, base, first, k, halfBlock, layer)
      {
        assert SwitchRight(was, a, base, first, k, halfBlock, layer);
      }
      i := i + 1;
    }
  }

  /** Layer `level` of the word, by shift and mask. */
  function LayerOf(w: nat, width: nat, shift: nat, half: nat): nat
  {
    MaskedPart(MaskedPart(w, 0, width), shift, half)
  }

  function MaskedPart(w: nat, shift: nat, width: nat): (r: nat)
  {
    BitShift(w, shift, 0);
    BitMask(w / Pow2(shift), width + 1, 0);
    RemainderSign(w / Pow2(shift), Pow2(width));
    (w / Pow2(shift)) % Pow2(width)
  }

  lemma RemainderSign(a: int, m: int)
    requires m > 0
    ensures 0 <= a % m < m
  {
  }

  lemma MaskedBit(w: nat, shift: nat, width: nat, k: nat)
    requires k < width
    ensures Bit(MaskedPart(w, shift, width), k) == Bit(w, shift + k)
  {
    BitShift(w, shift, k);
    BitMask(w / Pow2(shift), width, k);
  }

  /** The extracted layer has the switches of the word's control. */
  lemma LayerOfWord(w: nat, levels: nat, level: nat, half: nat, k: nat)
    requires level < 2 * levels && k < half
    ensures level * half >= 0 && 2 * levels * half >= 0
    ensures Bit(LayerOf(w, 2 * levels * half, level * half, half), k) == Row(WordControl(w, half), level)(k)
  {
    FlatIndex(level, k, 2 * levels, half);
    MulNonNegative(level, half);
    MaskedBit(MaskedPart(w, 0, 2 * levels * half), level * half, half, k);
    MaskedBit(w, 0, 2 * levels * half, Flat(level, k, half));
  }

  lemma LayerStep(x: seq<Word>, w: nat, levels: nat, level: nat, layer: nat)
    requires levels >= 1 && level < 2 * levels && |x| == Pow2(levels)
    requires forall k: nat :: k < Pow2(levels - 1) ==> Bit(layer, k) == Row(WordControl(w, Pow2(levels - 1)), level)(k)
    ensures ApplyLayer(x, levels, BlockBits(levels, level), LayerSwitches(layer))
         == ApplyLayer(x, levels, BlockBits(levels, level), Row(WordControl(w, Pow2(levels - 1)), level))
  {
    LayerExt(x, levels, BlockBits(levels, level), LayerSwitches(layer), Row(WordControl(w, Pow2(levels - 1)), level));
  }

  // ----- how the network reads its word, in arithmetic

  /** Bit i of a word. */
  lemma {:induction false} BitIs(w: nat, i: nat)
    ensures Bit(w, i) <==> (w / Pow2(i)) % 2 == 1
  {
    if i > 0 {
      BitIs(w / 2, i - 1);
      DivideTwice(w, Pow2(i - 1));
    }
  }

  /** Side of the blocks of a layer. */
  function SideOf(levels: nat, level: nat): (side: nat)
    requires level < 2 * levels
    ensures side > 0
  {
    if level < levels then Pow2(levels - level) else Pow2(1 + level - levels)
  }

  /** Switch i of block id exchanges its two values if and only if its bit of the word is set. */
  ghost predicate SwitchSet(before: seq<Word>, after: seq<Word>, side: nat, level: nat, w: nat, id: nat, i: nat)
  {
    var size := |before|;
    var p, q, bit := id * side + i, id * side + i + side / 2, level * (size / 2) + id * (side / 2) + i;
    && |after| == size && 0 <= p <= q < size && bit >= 0
    && (if (w / Pow2(bit)) % 2 == 1 then after[p] == before[q] && after[q] == before[p] else after[p] == before[p] && after[q] == before[q])
  }

  /** All switches of a layer. */
  ghost predicate LayerSet(before: seq<Word>, after: seq<Word>, levels: nat, level: nat, w: nat)
    requires level < 2 * levels
  {
    var side := SideOf(levels, level);
    |before| == |after| == Pow2(levels)
    && forall id: nat, i: nat :: id < Pow2(levels) / side && i < side / 2 ==> SwitchSet(before, after, side, level, w, id, i)
  }

  /** The values before the first layer, between any two layers and after the last one. */
  ghost predicate Passes(states: seq<seq<Word>>, levels: nat, w: nat)
  {
    |states| == 2 * levels + 1 && |states[0]| == Pow2(levels)
    && forall level: nat :: level < 2 * levels ==> LayerSet(states[level], states[level + 1], levels, level, w)
  }

  // ----- the network passes through such states

  lemma SideIs(levels: nat, level: nat)
    requires level < 2 * levels
    ensures var b, side := BlockBits(levels, level), SideOf(levels, level);
      side == Pow2(b) && side / 2 == Pow2(b - 1) && Pow2(levels) / side == Pow2(levels - b)
  {
    var b := BlockBits(levels, level);
    Pow2Doubles(b);
    Pow2Add(levels - b, b);
    hide Pow2;
    MulDivides(Pow2(levels - b), Pow2(b));
  }

  lemma MulDivides(a: nat, b: nat)
    requires b > 0
    ensures a * b / b == a
  {
    QuotientOf(a * b, b, a, 0);
  }

  lemma LayerSwitch(before: seq<Word>, levels: nat, level: nat, w: nat, id: nat, i: nat)
    requires |before| == Pow2(levels) && level < 2 * levels
    requires id < Pow2(levels - BlockBits(levels, level)) && i < Pow2(BlockBits(levels, level) - 1)
    ensures SwitchSet(before, ApplyLayer(before, levels, BlockBits(levels, level), Row(WordControl(w, Pow2(levels - 1)), level)),
                      Pow2(BlockBits(levels, level)), level, w, id, i)
  {
    hide ApplyLayer, Bit, BlockStart;
    var b, f := BlockBits(levels, level), Row(WordControl(w, Pow2(levels - 1)), level);
    Pow2Doubles(b);
    Pow2Doubles(levels);
    BlockStartProduct(id, b);
    BlockStartProduct(id, b - 1);
    var k := BlockStart(id, b - 1) + i;
    BlockEntry(before, levels, b, f, id, i, BlockStart(id, b) + i, k);
    BitIs(w, Flat(level, k, Pow2(levels - 1)));
    RowBit(w, levels, level, k);
    hide Pow2;
    SwitchFrom(before, ApplyLayer(before, levels, b, f), Pow2(b), level, w, id, i, Pow2(levels - 1));
  }

  lemma RowBit(w: nat, levels: nat, level: nat, k: nat)
    requires levels >= 1
    ensures Row(WordControl(w, Pow2(levels - 1)), level)(k) == Bit(w, Flat(level, k, Pow2(levels - 1)))
  {
  }

  lemma SwitchFrom(before: seq<Word>, after: seq<Word>, side: nat, level: nat, w: nat, id: nat, i: nat, half: nat)
    requires |before| == 2 * half && id * side >= 0 && id * (side / 2) >= 0
    requires PairRight(after, before, id * side + i, side / 2, (w / Pow2(Flat(level, id * (side / 2) + i, half))) % 2 == 1)
    ensures SwitchSet(before, after, side, level, w, id, i)
  {
  }

  lemma LayerIsSet(before: seq<Word>, levels: nat, level: nat, w: nat)
    requires |before| == Pow2(levels) && level < 2 * levels
    ensures LayerSet(before, ApplyLayer(before, levels, BlockBits(levels, level), Row(WordControl(w, Pow2(levels - 1)), level)), levels, level, w)
  {
    hide SwitchSet, ApplyLayer, Row, WordControl;
    var side := SideOf(levels, level);
    SideIs(levels, level);
    var after := ApplyLayer(before, levels, BlockBits(levels, level), Row(WordControl(w, Pow2(levels - 1)), level));
    forall id: nat, i: nat | id < Pow2(levels) / side && i < side / 2
      ensures SwitchSet(before, after, side, level, w, id, i)
    {
      LayerSwitch(before, levels, level, w, id, i);
    }
  }

  /** The network of a word exchanges, layer after layer, exactly the pairs whose bit is set. */
  lemma WordPasses(a: seq<Word>, levels: nat, w: nat) returns (states: seq<seq<Word>>)
    requires levels >= 1 && |a| == Pow2(levels)
    ensures Passes(states, levels, w) && states[0] == a && states[2 * levels] == Network(a, levels, WordControl(w, Pow2(levels - 1)))
  {
    hide LayerSet, Pow2, ApplyLayer;
    var c := WordControl(w, Pow2(levels - 1));
    states := seq(2 * levels + 1, t requires 0 <= t < 2 * levels + 1 => Layers(a, levels, c, 0, t));
    forall level: nat | level < 2 * levels
      ensures LayerSet(states[level], states[level + 1], levels, level, w)
    {
      LayerIsSet(states[level], levels, level, w);
    }
  }

  // ----- and through no others

  /** Every position is one of the two of a switch. */
  lemma OwnSwitch(levels: nat, level: nat, x: nat) returns (id: nat, i: nat, upper: bool)
    requires level < 2 * levels && x < Pow2(levels)
    ensures var side := SideOf(levels, level);
      id < Pow2(levels) / side && i < side / 2 && x == id * side + i + if upper then side / 2 else 0
  {
    var b, side := BlockBits(levels, level), SideOf(levels, level);
    SideIs(levels, level);
    Pow2Doubles(b);
    Pow2Add(levels - b, b);
    hide Pow2, SideOf, BlockBits;
    RowIndex(x, Pow2(levels - b), side);
    id := x / side;
    upper := x % side >= side / 2;
    i := x % side - if upper then side / 2 else 0;
  }

  lemma RowBelow(q: int, r: nat, n: nat, m: nat)
    requires m > 0 && m * q + r < n * m
    ensures q < n
  {
    var d := q - n;
    assert m * q == m * d + n * m;
  }

  lemma RowIndex(x: nat, n: nat, m: nat)
    requires m > 0 && x < n * m
    ensures 0 <= x / m < n && 0 <= x % m < m && x == (x / m) * m + x % m
  {
    assert x == m * (x / m) + x % m;
    RowBelow(x / m, x % m, n, m);
  }

  /** A layer determines its outcome. */
  lemma LayerDetermined(before: seq<Word>, after: seq<Word>, other: seq<Word>, levels: nat, level: nat, w: nat)
    requires level < 2 * levels && LayerSet(before, after, levels, level, w) && LayerSet(before, other, levels, level, w)
    ensures after == other
  {
    forall x: nat | x < |after|
      ensures after[x] == other[x]
    {
      var id, i, upper := OwnSwitch(levels, level, x);
      var side := SideOf(levels, level);
      assert SwitchSet(before, after, side, level, w, id, i) && SwitchSet(before, other, side, level, w, id, i);
    }
  }

  /** So the word alone determines what any pass through the layers makes of the values. */
  lemma PassesAgree(states: seq<seq<Word>>, levels: nat, w: nat)
    requires levels >= 1 && Passes(states, levels, w)
    ensures states[2 * levels] == Network(states[0], levels, WordControl(w, Pow2(levels - 1)))
  {
    hide Pow2, LayerSet, Network;
    var others := WordPasses(states[0], levels, w);
    SameStates(states, others, levels, w, 2 * levels);
  }

  lemma {:induction false} SameStates(states: seq<seq<Word>>, others: seq<seq<Word>>, levels: nat, w: nat, t: nat)
    requires Passes(states, levels, w) && Passes(others, levels, w) && states[0] == others[0] && t <= 2 * levels
    ensures states[t] == others[t]
  {
    hide Pow2, LayerSet;
    if t > 0 {
      SameStates(states, others, levels, w, t - 1);
      assert LayerSet(states[t - 1], states[t - 1 + 1], levels, t - 1, w) && LayerSet(others[t - 1], others[t - 1 + 1], levels, t - 1, w);
      LayerDetermined(states[t - 1], states[t], others[t], levels, t - 1, w);
    }
  }

  // ----- the word 0

  /** The word 0 leaves the values alone, in every layer. */
  lemma {:induction false} ZeroStays(states: seq<seq<Word>>, levels: nat, t: nat)
    requires Passes(states, levels, 0) && t <= 2 * levels
    ensures states[t] == states[0]
  {
    hide Pow2, LayerSet;
    if t > 0 {
      ZeroStays(states, levels, t - 1);
      assert LayerSet(states[t - 1], states[t - 1 + 1], levels, t - 1, 0);
      ZeroLayer(states[t - 1], states[t], levels, t - 1);
    }
  }

  lemma ZeroLayer(before: seq<Word>, after: seq<Word>, levels: nat, level: nat)
    requires level < 2 * levels && LayerSet(before, after, levels, level, 0)
    ensures after == before
  {
    forall x: nat | x < |after|
      ensures after[x] == before[x]
    {
      var id, i, upper := OwnSwitch(levels, level, x);
      assert SwitchSet(before, after, SideOf(levels, level), level, 0, id, i);
    }
  }

  /** The values have passed through the layers that the word sets. */
  ghost predicate Passed(before: seq<Word>, after: seq<Word>, levels: nat, w: nat)
  {
    exists states: seq<seq<Word>> :: Passes(states, levels, w) && states[0] == before && states[2 * levels] == after
  }

  lemma NetworkPassed(a: seq<Word>, levels: nat, w: nat)
    requires levels >= 1 && |a| == Pow2(levels)
    ensures Passed(a, Network(a, levels, WordControl(w, Pow2(levels - 1))), levels, w)
  {
    hide Passes, Pow2, Network;
    var states := WordPasses(a, levels, w);
  }

  // ----- the kernel's network

  method ApplyBenesNetwork(values: array<Word>, permBits: Word)
    modifies values
    ensures !(2 <= values.Length <= MAX_BENES_SIZE && IsPowerOfTwo(values.Length)) ==> values[..] == old(values[..])
    ensures 2 <= values.Length <= MAX_BENES_SIZE && IsPowerOfTwo(values.Length) ==>
      && values[..] == Network(old(values[..]), TrailingZeros(values.Length), WordControl(permBits, values.Length / 2))
      && Passed(old(values[..]), values[..], TrailingZeros(values.Length), permBits)
  {
    var size := values.Length;
    if size < 2 || !IsPowerOfTwo(size) || size > MAX_BENES_SIZE {
      return;
    }
    var levels := Log2(size);
    HalfOfPower(size);
    NetworkPassed(values[..], levels, permBits);
    RunLayers(values, levels, permBits);
  }

  lemma HalfOfPower(size: nat)
    requires IsPowerOfTwo(size) && size >= 2
    ensures TrailingZeros(size) >= 1 && Pow2(TrailingZeros(size) - 1) == size / 2
  {
    assert Pow2(0) == 1;
  }

  method RunLayers(values: array<Word>, levels: nat, permBits: Word)
    requires levels >= 1 && values.Length == Pow2(levels) <= MAX_BENES_SIZE
    modifies values
    ensures values[..] == Network(old(values[..]), levels, WordControl(permBits, Pow2(levels - 1)))
  {
    var halfSize := Pow2(levels - 1);
    ghost var a := values[..];
    ghost var c := WordControl(permBits, halfSize);
    var scratch := new Word[MAX_BENES_SIZE];
    var level: nat, shift: nat := 0, 0;
    while level < 2 * levels
      invariant level <= 2 * levels && shift == level * halfSize
      invariant values[..] == Layers(a, levels, c, 0, level)
    {
      MulNonNegative(levels, halfSize);
      var layer := LayerOf(permBits, 2 * levels * halfSize, shift, halfSize);
      forall k: nat | k < halfSize
        ensures Bit(layer, k) == Row(c, level)(k)
      {
        LayerOfWord(permBits, levels, level, halfSize, k);
      }
      LayerStep(values[..], permBits, levels, level, layer);
      SwitchLayer(values, scratch, levels, BlockBits(levels, level), layer);
      NextBlock(level, 2 * levels, halfSize);
      level, shift := level + 1, shift + halfSize;
    }
  }
}

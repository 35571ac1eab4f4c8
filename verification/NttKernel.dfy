/** The in-place negacyclic number-theoretic transform of the accelerator: twist, cyclic four-step
    transform, bit reversal, and the inverse in the opposite order. */
module NttKernel {
  import opened Congruence
  import opened Polynomials
  import opened Bits
  import opened WordArithmetic
  import opened FourStepStages

  const MAX_SPAN := 128

  // ----- specification

  function BitReversed(a: seq<int>): seq<int>
  {
    seq(|a|, (j: nat) => At(a, Rev(j, TrailingZeros(|a|))))
  }

  function Scaled(a: seq<int>, c: int, m: int): seq<int>
    requires m > 0
  {
    seq(|a|, (k: nat) => (At(a, k) * c) % m)
  }

  function Twisted(a: seq<int>, psi: int, m: int): seq<int>
    requires m > 0
  {
    seq(|a|, (i: nat) => (At(a, i) * Pow(psi, i)) % m)
  }

  predicate TransformSpan(span: nat)
  {
    2 <= span <= MAX_SPAN && IsPowerOfTwo(span)
  }

  // ----- the cyclic transform

  /** The buffer after step 2: every entry is its twiddled row transform. */
  ghost predicate TwiddleDone(stage: seq<Word>, a: seq<int>, w: int, rowRoot: int, rows: nat, cols: nat, m: int)
    requires m > 0
  {
    && cols > 0 && |stage| == rows * cols
    && forall j: nat :: j < |stage| ==>
        TwiddledTo(stage[j], RowEntry(a, rowRoot, rows, cols, j, m), MiddleFactor(w, cols, j), m)
  }

  ghost predicate TurnDone(turned: seq<Word>, stage: seq<Word>, rows: nat, cols: nat)
  {
    |turned| == rows * cols && forall i: nat, j: nat :: i < rows && j < cols ==> Turned(turned, stage, i, j, rows, cols)
  }

  /** A column of the transposed buffer is the twiddled column of the specification. */
  lemma ColumnCongruent(a: seq<int>, stage: seq<Word>, turned: seq<Word>, w: int, rowRoot: int, rows: nat, cols: nat, c: nat, m: int)
    requires m > 0 && c < cols && Cong(rowRoot, Pow(w, rows), m)
    requires TwiddleDone(stage, a, w, rowRoot, rows, cols, m) && TurnDone(turned, stage, rows, cols)
    ensures SeqCong(Column(turned, c, rows), TwiddledColumn(a, w, rows, cols, c), m)
  {
    forall n: nat | n < rows
      ensures Cong(Column(turned, c, rows)[n], TwiddledColumn(a, w, rows, cols, c)[n], m)
    {
      FlatIndex(n, c, rows, cols);
      FlatIndex(c, n, cols, rows);
      assert Turned(turned, stage, n, c, rows, cols);
      assert Column(turned, c, rows)[n] == stage[Flat(n, c, cols)];
      TwiddledEntry(a, stage[Flat(n, c, cols)], w, rowRoot, rows, cols, n, c, m);
    }
  }

  /** The buffers after the four steps determine every output: entry c + cols * r is the value at w^(c + cols * r). */
  lemma StagesAssemble(a: seq<int>, stage: seq<Word>, turned: seq<Word>, out: seq<Word>, w: int, rowRoot: int, colRoot: int,
                       rows: nat, cols: nat, r: nat, c: nat, m: int)
    requires m > 0 && r < rows && c < cols && |a| == rows * cols && Cong(Pow(w, rows * cols), 1, m)
    requires Cong(rowRoot, Pow(w, rows), m) && Cong(colRoot, Pow(w, cols), m)
    requires TwiddleDone(stage, a, w, rowRoot, rows, cols, m) && TurnDone(turned, stage, rows, cols)
    requires ColumnDone(out, turned, r, c, rows, cols, colRoot, m)
    ensures out[Flat(r, c, cols)] == PointValue(a, w, c + cols * r, m)
  {
    ColumnCongruent(a, stage, turned, w, rowRoot, rows, cols, c, m);
    PointValueCong(Column(turned, c, rows), TwiddledColumn(a, w, rows, cols, c), colRoot, Pow(w, cols), r, m);
    FourStep(a, w, rows, cols, r, c, m);
  }

  lemma TwiddledEntry(a: seq<int>, v: int, w: int, rowRoot: int, rows: nat, cols: nat, n: nat, c: nat, m: int)
    requires m > 0 && n < rows && c < cols && Cong(rowRoot, Pow(w, rows), m)
    requires var j := Flat(n, c, cols);
      TwiddledTo(v, RowEntry(a, rowRoot, rows, cols, j, m), MiddleFactor(w, cols, j), m)
    ensures Cong(v, Twiddled(a, w, rows, cols, n, c), m)
  {
    FlatIndex(n, c, rows, cols);
    var lane := Lane(a, n, rows, cols);
    SelfCong(lane, m);
    PointValueCong(lane, lane, rowRoot, Pow(w, rows), c, m);
    CongMod(Eval(lane, Pow(Pow(w, rows), c)), m);
    var factor := Pow(Pow(w, n), c);
    CongMul(PointValue(lane, rowRoot, c, m), Eval(lane, Pow(Pow(w, rows), c)), factor, factor, m);
  }

  /** Side lengths: the row count takes the smaller half of the bits. */
  method ChooseFourStepShape(span: nat) returns (rows: nat, cols: nat)
    ensures rows == Pow2(TrailingZeros(span) / 2) && cols == Pow2(TrailingZeros(span) - TrailingZeros(span) / 2)
  {
    var levels := TrailingZeros(span);
    rows := Pow2(levels / 2);
    cols := Pow2(levels - levels / 2);
  }

  lemma ShapeFits(span: nat)
    requires span > 0
    ensures var t := TrailingZeros(span);
      && (Pow2(t / 2) * Pow2(t - t / 2) == span <==> IsPowerOfTwo(span))
      && (span <= MAX_SPAN ==> Pow2(t / 2) <= MAX_SIDE && (IsPowerOfTwo(span) ==> Pow2(t - t / 2) <= MAX_SIDE))
  {
    var t := TrailingZeros(span);
    Pow2Add(t / 2, t - t / 2);
    ZerosBound(span);
    if span <= MAX_SPAN {
      assert Pow2(8) == 256;
      if t >= 8 {
        Pow2Increasing(8, t);
      }
      assert Pow2(4) == 16;
      Pow2Increasing(t - t / 2, 4);
      Pow2Increasing(t / 2, 4);
    }
  }

  lemma {:induction false} ZerosBound(v: nat)
    requires v > 0
    ensures Pow2(TrailingZeros(v)) <= v
    decreases v
  {
    if v % 2 == 0 {
      ZerosBound(v / 2);
    }
  }

  method CyclicFourStep(values: array<Word>, omega: Word, m: Word, inverseCyclic: bool)
    requires m < HALF_WORD
    modifies values
    ensures !(TransformSpan(values.Length) && m > 0) ==> values[..] == old(values[..])
    ensures TransformSpan(values.Length) && m > 0 && Cong(Pow(omega, values.Length), 1, m) ==>
      values[..] == if inverseCyclic then Normalized(Cyclic(old(values[..]), omega, m), m) else Cyclic(old(values[..]), omega, m)
  {
    var span := values.Length;
    if span < 2 || span > MAX_SPAN || m == 0 {
      return;
    }
    var rows, cols := ChooseFourStepShape(span);
    ShapeFits(span);
    if rows * cols != span || rows > MAX_SIDE || cols > MAX_SIDE {
      return;
    }
    FourSteps(values, rows, cols, omega, m);
    if inverseCyclic {
      var spanInv := ModInv(span, m);
      if spanInv != 0 {
        ScaleAll(values, spanInv, m);
      }
    }
  }

  /** Division by the length, skipped when the length has no inverse. */
  ghost function Normalized(a: seq<int>, m: int): seq<int>
    requires m > 0
  {
    if InverseOf(|a|, m) == 0 then a else Scaled(a, InverseOf(|a|, m), m)
  }

  method ScaleAll(values: array<Word>, c: Word, m: Word)
    requires 0 < m
    modifies values
    ensures values[..] == Scaled(old(values[..]), c, m)
  {
    var i: nat := 0;
    while i < values.Length
      invariant i <= values.Length
      invariant forall j: nat :: i <= j < values.Length ==> values[j] == old(values[j])
      invariant forall j: nat :: j < i ==> values[j] == (old(values[j]) * c) % m
    {
      ModMulCorrect(values[i], c, m);
      values[i] := ModMul(values[i], c, m);
      i := i + 1;
    }
  }

  method FourSteps(values: array<Word>, rows: nat, cols: nat, omega: Word, m: Word)
    requires values.Length == rows * cols && 0 < rows <= MAX_SIDE && 0 < cols <= MAX_SIDE && 0 < m < HALF_WORD
    modifies values
    ensures Cong(Pow(omega, values.Length), 1, m) ==> values[..] == Cyclic(old(values[..]), omega, m)
  {
    ghost var a := values[..];
    var stage, turned := new Word[rows * cols], new Word[rows * cols];
    var rowRoot := ModPow(omega, rows, m);
    var colRoot := ModPow(omega, cols, m);
    RowTransforms(values, stage, rows, cols, rowRoot, m);
    MiddleTwiddle(stage, rows, cols, omega, m);
    assert TwiddleDone(stage[..], a, omega, rowRoot, rows, cols, m);
    TransposeStage(stage, turned, rows, cols);
    assert TurnDone(turned[..], stage[..], rows, cols);
    ColumnTransforms(turned, values, rows, cols, colRoot, m);
    if Cong(Pow(omega, rows * cols), 1, m) {
      StagesGiveCyclic(a, stage[..], turned[..], values[..], omega, rowRoot, colRoot, rows, cols, m);
    }
  }

  lemma StagesGiveCyclic(a: seq<int>, stage: seq<Word>, turned: seq<Word>, out: seq<Word>, w: int, rowRoot: int, colRoot: int,
                         rows: nat, cols: nat, m: int)
    requires m > 0 && |a| == |out| == rows * cols && Cong(Pow(w, rows * cols), 1, m)
    requires Cong(rowRoot, Pow(w, rows), m) && Cong(colRoot, Pow(w, cols), m)
    requires TwiddleDone(stage, a, w, rowRoot, rows, cols, m) && TurnDone(turned, stage, rows, cols)
    requires forall r: nat, c: nat :: r < rows && c < cols ==> ColumnDone(out, turned, r, c, rows, cols, colRoot, m)
    ensures out == Cyclic(a, w, m)
  {
    forall k: nat | k < |out|
      ensures out[k] == PointValue(a, w, k, m)
    {
      var r, c := SplitIndex(k, rows, cols);
      assert ColumnDone(out, turned, r, c, rows, cols, colRoot, m);
      StagesAssemble(a, stage, turned, out, w, rowRoot, colRoot, rows, cols, r, c, m);
    }
  }

  /** Row and column of a flat index. */
  lemma SplitIndex(k: nat, rows: nat, cols: nat) returns (r: nat, c: nat)
    requires k < rows * cols
    ensures r < rows && c < cols && k == Flat(r, c, cols) && k == c + cols * r
  {
    assert cols == 0 ==> rows * cols == 0;
    Unflatten(k, rows, cols);
    r, c := k / cols, k % cols;
    SwapFactors(r, cols);
  }

  lemma SwapFactors(a: int, b: int)
    ensures a * b == b * a
  {
  }

  // ----- the negacyclic transform

  method BitReversePermute(values: array<Word>)
    modifies values
    ensures values[..] == if TransformSpan(values.Length) then BitReversed(old(values[..])) else old(values[..])
  {
    hide Rev, Pow2, TrailingZeros;
    var span := values.Length;
    if span < 2 || span > MAX_SPAN || !IsPowerOfTwo(span) {
      return;
    }
    var scratch := new Word[span];
    var bitCount := Log2(span);
    ReverseInto(values, scratch, bitCount);
    CopyBack(values, scratch);
  }

  method ReverseInto(values: array<Word>, scratch: array<Word>, bitCount: nat)
    requires values != scratch && values.Length == scratch.Length == Pow2(bitCount)
    modifies scratch
    ensures forall j: nat :: j < scratch.Length ==> scratch[j] == values[Rev(j, bitCount)]
  {
    hide Rev, Pow2;
    var i: nat := 0;
    while i < values.Length
      invariant i <= values.Length
      invariant forall j: nat :: j < values.Length && Rev(j, bitCount) < i ==> scratch[j] == values[Rev(j, bitCount)]
    {
      var reversed := ReverseBits(i, bitCount);
      scratch[reversed] := values[i];
      RevInvolution(i, bitCount);
      forall j: nat | j < values.Length && Rev(j, bitCount) == i
        ensures j == reversed
      {
        RevInjective(j, reversed, bitCount);
      }
      i := i + 1;
    }
  }

  method CopyBack(values: array<Word>, scratch: array<Word>)
    requires values != scratch && values.Length == scratch.Length
    modifies values
    ensures values[..] == scratch[..] && scratch[..] == old(scratch[..])
  {
    var i: nat := 0;
    while i < values.Length
      invariant i <= values.Length && values[..i] == scratch[..i]
    {
      values[i] := scratch[i];
      i := i + 1;
    }
  }

  method TwistAll(values: array<Word>, psi: Word, m: Word)
    requires 0 < m
    modifies values
    ensures values[..] == Twisted(old(values[..]), psi, m)
  {
    var twist: Word := 1;
    var i: nat := 0;
    while i < values.Length
      invariant i <= values.Length && Cong(twist, Pow(psi, i), m)
      invariant forall j: nat :: i <= j < values.Length ==> values[j] == old(values[j])
      invariant forall j: nat :: j < i ==> values[j] == (old(values[j]) * Pow(psi, j)) % m
    {
      TwistEntry(values[i], twist, Pow(psi, i), m);
      values[i] := ModMul(values[i] % m, twist, m);
      NextPower(twist, psi, i, m);
      twist := ModMul(twist, psi, m);
      i := i + 1;
    }
  }

  lemma TwistEntry(v: Word, twist: Word, e: int, m: Word)
    requires m > 0 && Cong(twist, e, m)
    ensures 0 <= v % m < m && ModMul(v % m, twist, m) == (v * e) % m
  {
    ModMulCorrect(v % m, twist, m);
    CongMod(v, m);
    CongMul(v % m, v, twist, e, m);
  }

  datatype NegacyclicRoots = NegacyclicRoots(psi: Word, psiInv: Word, omega: Word, omegaInv: Word)

  /** What the table generator establishes before it emits an entry. */
  ghost predicate RootsFor(roots: NegacyclicRoots, span: nat, m: int)
  {
    && span > 0 && m > 1 && (m - 1) % (2 * span) == 0
    && Pow(roots.psi, span) % m == m - 1
    && (roots.psi * roots.psiInv) % m == 1
    && roots.omega == (roots.psi * roots.psi) % m
    && (roots.omega * roots.omegaInv) % m == 1
  }

  /** Entry bitrev(k) is the polynomial at psi^(2k + 1). */
  function Forward(a: seq<int>, psi: int, m: int): seq<int>
    requires m > 0
  {
    seq(|a|, (j: nat) => PointValue(a, psi, 2 * Rev(j, TrailingZeros(|a|)) + 1, m))
  }

  ghost function Backward(y: seq<int>, psiInv: int, omegaInv: int, m: int): seq<int>
    requires m > 0
  {
    Twisted(Normalized(Cyclic(BitReversed(y), omegaInv, m), m), psiInv, m)
  }

  /** The transform applied in place. Spans beyond MAX_SPAN are only twisted. */
  method NttApplyNegacyclic(values: array<Word>, m: Word, roots: NegacyclicRoots, inverse: bool)
    requires m < HALF_WORD
    modifies values
    ensures values.Length < 2 || m == 0 || !IsPowerOfTwo(values.Length) ==> values[..] == old(values[..])
    ensures TransformSpan(values.Length) && RootsFor(roots, values.Length, m) ==>
      values[..] == if inverse then Backward(old(values[..]), roots.psiInv, roots.omegaInv, m) else Forward(old(values[..]), roots.psi, m)
    ensures IsPowerOfTwo(values.Length) && values.Length > MAX_SPAN && m > 0 ==>
      values[..] == Twisted(old(values[..]), if inverse then roots.psiInv else roots.psi, m)
  {
    if values.Length < 2 || m == 0 || !IsPowerOfTwo(values.Length) {
      return;
    }
    ghost var a := values[..];
    if !inverse {
      TwistAll(values, roots.psi, m);
      CyclicFourStep(values, roots.omega, m, false);
      BitReversePermute(values);
      if TransformSpan(values.Length) && RootsFor(roots, values.Length, m) {
        RootPeriod(roots, values.Length, m);
        TwistedCyclicIsForward(a, roots, m);
      }
      return;
    }
    BitReversePermute(values);
    CyclicFourStep(values, roots.omegaInv, m, true);
    TwistAll(values, roots.psiInv, m);
    if TransformSpan(values.Length) && RootsFor(roots, values.Length, m) {
      RootPeriod(roots, values.Length, m);
    }
  }

  /** psi is a primitive 2*span-th root: its square and the inverse of its square have period span. */
  lemma RootPeriod(roots: NegacyclicRoots, span: nat, m: int)
    requires span % 2 == 0 && RootsFor(roots, span, m)
    ensures Cong(Pow(roots.psi, span), -1, m)
    ensures Cong(roots.omega, Pow(roots.psi, 2), m) && Cong(roots.omega * roots.omegaInv, 1, m)
    ensures Cong(Pow(roots.omega, span / 2), -1, m) && Cong(Pow(roots.omegaInv, span / 2), -1, m)
    ensures Cong(Pow(roots.omega, span), 1, m) && Cong(Pow(roots.omegaInv, span), 1, m)
  {
    var h := span / 2;
    CongFrom(-1, m - 1, -1, m);
    SmallMod(m - 1, m);
    SmallMod(1, m);
    assert Pow(roots.psi, 2) == roots.psi * Pow(roots.psi, 1) == roots.psi * roots.psi;
    CongMod(roots.psi * roots.psi, m);
    PowCong(roots.omega, Pow(roots.psi, 2), h, m);
    PowMul(roots.psi, 2, h);
    InversePower(roots.omega, roots.omegaInv, h, m);
    NegateInverse(Pow(roots.omega, h), Pow(roots.omegaInv, h), m);
    SquarePeriod(roots.omega, h, m);
    SquarePeriod(roots.omegaInv, h, m);
  }

  lemma NegateInverse(x: int, y: int, m: int)
    requires m > 0 && Cong(x, -1, m) && Cong(x * y, 1, m)
    ensures Cong(y, -1, m)
  {
    CongMul(x, -1, y, y, m);
    CongSub(0, 0, -1 * y, 1, m);
    assert 0 - (-1 * y) == y;
  }

  lemma SquarePeriod(x: int, h: nat, m: int)
    requires m > 0 && Cong(Pow(x, h), -1, m)
    ensures Cong(Pow(x, 2 * h), 1, m)
  {
    PowAdd(x, h, h);
    CongMul(Pow(x, h), -1, Pow(x, h), -1, m);
  }

  lemma TwistedCyclicIsForward(a: seq<int>, roots: NegacyclicRoots, m: int)
    requires |a| % 2 == 0 && IsPowerOfTwo(|a|) && RootsFor(roots, |a|, m)
    ensures BitReversed(Cyclic(Twisted(a, roots.psi, m), roots.omega, m)) == Forward(a, roots.psi, m)
  {
    RootPeriod(roots, |a|, m);
    forall j: nat | j < |a|
      ensures BitReversed(Cyclic(Twisted(a, roots.psi, m), roots.omega, m))[j] == Forward(a, roots.psi, m)[j]
    {
      TwistedPoint(a, roots, Rev(j, TrailingZeros(|a|)), m);
    }
  }

  lemma TwistedPoint(a: seq<int>, roots: NegacyclicRoots, k: nat, m: int)
    requires m > 0 && Cong(roots.omega, Pow(roots.psi, 2), m)
    ensures PointValue(Twisted(a, roots.psi, m), roots.omega, k, m) == PointValue(a, roots.psi, 2 * k + 1, m)
  {
    var x := Pow(Pow(roots.psi, 2), k);
    forall i | 0 <= i < |a|
      ensures Cong(Twisted(a, roots.psi, m)[i], Twist(a, roots.psi)[i], m)
    {
      CongMod(At(a, i) * Pow(roots.psi, i), m);
    }
    PointValueCong(Twisted(a, roots.psi, m), Twist(a, roots.psi), roots.omega, Pow(roots.psi, 2), k, m);
    EvalTwist(a, roots.psi, x);
    PowMul(roots.psi, 2, k);
  }
}

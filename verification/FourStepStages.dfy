/** The stages of the accelerator's four-step cyclic transform (row transforms, middle twiddle, transpose,
    column transforms) on flat buffers, and the identity that makes them one transform. */
module FourStepStages {
  import opened Congruence
  import opened Polynomials
  import opened WordArithmetic

  // ----- specification

  /** The polynomial at w^k, reduced. */
  function PointValue(a: seq<int>, w: int, k: nat, m: int): int
    requires m > 0
  {
    Eval(a, Pow(w, k)) % m
  }

  /** The cyclic transform: entry k is the polynomial at w^k. */
  function Cyclic(a: seq<int>, w: int, m: int): seq<int>
    requires m > 0
  {
    seq(|a|, (k: nat) => PointValue(a, w, k, m))
  }

  // ----- the four-step identity

  /** What the middle of the four-step scheme holds at (r, c): the row transform of lane r, twiddled. */
  function Twiddled(a: seq<int>, w: int, rows: nat, cols: nat, r: nat, c: nat): int
  {
    Eval(Lane(a, r, rows, cols), Pow(Pow(w, rows), c)) * Pow(Pow(w, r), c)
  }

  function TwiddledColumn(a: seq<int>, w: int, rows: nat, cols: nat, c: nat): seq<int>
  {
    seq(rows, (r: nat) => Twiddled(a, w, rows, cols, r, c))
  }

  /** Column transforms of the twiddled row transforms give the whole transform. */
  lemma FourStep(a: seq<int>, w: int, rows: nat, cols: nat, r: nat, c: nat, q: int)
    requires q > 0 && |a| == rows * cols && Cong(Pow(w, rows * cols), 1, q)
    ensures Cong(Eval(TwiddledColumn(a, w, rows, cols, c), Pow(Pow(w, cols), r)), Eval(a, Pow(w, c + cols * r)), q)
  {
    FourStepAt(a, w, rows, cols, r, c, c + cols * r, q);
  }

  lemma FourStepAt(a: seq<int>, w: int, rows: nat, cols: nat, r: nat, c: nat, k: nat, q: int)
    requires q > 0 && |a| == rows * cols && k == c + cols * r && Cong(Pow(w, rows * cols), 1, q)
    ensures Cong(Eval(TwiddledColumn(a, w, rows, cols, c), Pow(Pow(w, cols), r)), Eval(a, Pow(w, k)), q)
  {
    var f := Term(TwiddledColumn(a, w, rows, cols, c), Pow(Pow(w, cols), r));
    var g := LaneTerm(a, Pow(w, k), rows, cols);
    EvalLanes(a, Pow(w, k), rows, cols);
    forall n: nat | n < rows
      ensures Cong(f(n), g(n), q)
    {
      FourStepTerm(a, w, rows, cols, r, c, k, n, q);
    }
    SumCong(f, g, rows, q);
  }

  lemma FourStepTerm(a: seq<int>, w: int, rows: nat, cols: nat, r: nat, c: nat, k: nat, n: nat, q: int)
    requires q > 0 && n < rows && k == c + cols * r && Cong(Pow(w, rows * cols), 1, q)
    ensures Cong(Term(TwiddledColumn(a, w, rows, cols, c), Pow(Pow(w, cols), r))(n), LaneTerm(a, Pow(w, k), rows, cols)(n), q)
  {
    var x := Pow(w, k);
    var lane := Lane(a, n, rows, cols);
    var e := Eval(lane, Pow(Pow(w, rows), c));
    PointPower(w, rows, cols, r, c, q);
    SelfCong(lane, q);
    EvalCong(lane, lane, Pow(Pow(w, rows), c), Pow(x, rows), q);
    CongMul(Pow(x, n), Pow(x, n), e, Eval(lane, Pow(x, rows)), q);
    TwiddlePower(w, cols, r, c, n);
    RegroupTerm(e, Pow(Pow(w, n), c), Pow(Pow(Pow(w, cols), r), n), Pow(x, n));
    assert At(TwiddledColumn(a, w, rows, cols, c), n) == e * Pow(Pow(w, n), c);
  }

  lemma RegroupTerm(e: int, f: int, g: int, h: int)
    requires f * g == h
    ensures (e * f) * g == h * e
  {
    Associate(e, f, g);
  }

  lemma SelfCong(a: seq<int>, q: int)
    requires q > 0
    ensures SeqCong(a, a, q)
  {
  }

  /** (w^(c + cols * r))^rows is (w^rows)^c: the multiple of the span drops out. */
  lemma PointPower(w: int, rows: nat, cols: nat, r: nat, c: nat, q: int)
    requires q > 0 && Cong(Pow(w, rows * cols), 1, q)
    ensures Cong(Pow(Pow(w, rows), c), Pow(Pow(w, c + cols * r), rows), q)
  {
    SwapPowers(w, c + cols * r, rows);
    PowAdd(Pow(w, rows), c, cols * r);
    PowMul(Pow(w, rows), cols, r);
    PowMul(w, rows, cols);
    PowCong(Pow(w, rows * cols), 1, r, q);
    PowOne(r);
    CongMul(Pow(Pow(w, rows), c), Pow(Pow(w, rows), c), Pow(Pow(Pow(w, rows), cols), r), 1, q);
  }

  /** (w^n)^c * ((w^cols)^r)^n == (w^(c + cols * r))^n */
  lemma TwiddlePower(w: int, cols: nat, r: nat, c: nat, n: nat)
    ensures Pow(Pow(w, n), c) * Pow(Pow(Pow(w, cols), r), n) == Pow(Pow(w, c + cols * r), n)
  {
    SwapPowers(w, n, c);
    PowMul(w, cols, r);
    PowAdd(w, c, cols * r);
    PowBase(Pow(w, c), Pow(w, cols * r), n);
  }

  // ----- lane transform

  method SmallCyclicDft(input: array<Word>, output: array<Word>, length: nat, root: Word, m: Word)
    requires length <= input.Length && length <= output.Length && input != output
    requires length < WORD && 0 < m < HALF_WORD
    modifies output
    ensures forall k: nat :: k < length ==> output[k] == PointValue(input[..length], root, k, m)
  {
    ghost var lane := input[..length];
    var k: nat := 0;
    while k < length
      invariant k <= length
      invariant input[..length] == lane
      invariant forall j: nat :: j < k ==> output[j] == PointValue(lane, root, j, m)
    {
      var step := ModPow(root, k, m);
      var acc := LaneSum(input, length, step, m);
      CanonicalEval(lane, acc, step, root, k, m);
      output[k] := acc;
      k := k + 1;
    }
  }

  lemma CanonicalEval(lane: seq<int>, acc: int, x: int, root: int, k: nat, m: int)
    requires m > 0 && 0 <= acc < m && Cong(acc, Eval(lane, x), m) && Cong(x, Pow(root, k), m)
    ensures acc == PointValue(lane, root, k, m)
  {
    SelfCong(lane, m);
    EvalCong(lane, lane, x, Pow(root, k), m);
    CongCanonical(acc, Eval(lane, Pow(root, k)), m);
  }

  /** The inner accumulation of one output of the lane transform. */
  method LaneSum(input: array<Word>, length: nat, step: Word, m: Word) returns (acc: Word)
    requires length <= input.Length && 0 < m < HALF_WORD
    ensures acc < m && Cong(acc, Eval(input[..length], step), m)
  {
    var tw: Word := 1;
    acc := 0;
    ghost var term := Term(input[..length], step);
    var n: nat := 0;
    while n < length
      invariant n <= length
      invariant acc < m && Cong(acc, Sum(term, n), m) && Cong(tw, Pow(step, n), m)
    {
      var product := ModMul(input[n], tw, m);
      LaneStep(acc, input[n], tw, Sum(term, n), Pow(step, n), product, m);
      acc := ModAdd(acc, product, m);
      NextPower(tw, step, n, m);
      tw := ModMul(tw, step, m);
      n := n + 1;
    }
  }

  lemma LaneStep(acc: Word, v: Word, tw: Word, sum: int, power: int, product: Word, m: Word)
    requires 0 < m < HALF_WORD && acc < m && Cong(acc, sum, m) && Cong(tw, power, m) && product == ModMul(v, tw, m)
    ensures ModAdd(acc, product, m) < m && Cong(ModAdd(acc, product, m), sum + v * power, m)
  {
    MulCong(v, tw, power, m);
    CongAdd(acc, sum, product, v * power, m);
    AddCong(acc, product, m);
  }

  lemma AddCong(a: Word, b: Word, m: Word)
    requires 0 < m < HALF_WORD && a < m && b < m
    ensures ModAdd(a, b, m) < m && Cong(ModAdd(a, b, m), a + b, m)
  {
    ModAddExact(a, b, m);
    SmallMod(a, m);
    SmallMod(b, m);
    CongMod(a + b, m);
  }

  lemma MulCong(a: Word, b: Word, e: int, m: Word)
    requires m > 0 && Cong(b, e, m)
    ensures TwiddledTo(ModMul(a, b, m), a, e, m)
  {
    ModMulCorrect(a, b, m);
    CongMod(a * b, m);
    CongMul(a, a, b, e, m);
  }

  lemma NextPower(tw: Word, step: Word, c: nat, m: Word)
    requires m > 0 && Cong(tw, Pow(step, c), m)
    ensures Cong(ModMul(tw, step, m), Pow(step, c + 1), m)
  {
    MulCong(tw, step, step, m);
    CongMul(tw, Pow(step, c), step, step, m);
    assert Pow(step, c + 1) == step * Pow(step, c) == Pow(step, c) * step;
  }

  /** now is before times the factor, reduced. */
  ghost predicate TwiddledTo(now: int, before: int, factor: int, m: int)
    requires m > 0
  {
    0 <= now < m && Cong(now, before * factor, m)
  }

  // ----- the stages of the cyclic transform

  lemma FlatIndex(a: nat, b: nat, n: nat, m: nat)
    requires a < n && b < m
    ensures a * m + b < n * m && (a * m + b) / m == a && (a * m + b) % m == b
  {
    RowFits(a, b, n, m);
    DivideFlat(a, b, m);
  }

  lemma RowFits(a: nat, b: nat, n: nat, m: nat)
    requires a < n && b < m
    ensures a * m + b < n * m
  {
    assert (a + 1) * m <= n * m;
    assert (a + 1) * m == a * m + m;
  }

  lemma DivideFlat(a: nat, b: nat, m: nat)
    requires b < m
    ensures (a * m + b) / m == a && (a * m + b) % m == b
  {
    var j := a * m + b;
    CongFrom(j, b, a, m);
    SmallMod(b, m);
    assert j == m * (j / m) + j % m;
    EqualFactors(a, j / m, m);
  }

  lemma EqualFactors(a: int, b: int, m: int)
    requires m > 0 && a * m == m * b
    ensures a == b
  {
    assert (a - b) * m == 0;
  }

  lemma Unflatten(j: nat, n: nat, m: nat)
    requires m > 0 && j < n * m
    ensures j / m < n && j % m < m && j == (j / m) * m + j % m
  {
    var d := j / m;
    assert j == m * d + j % m;
    assert d >= n ==> m * d >= m * n;
  }

  const MAX_SIDE := 16

  /** Copies lane r of the values, reduced, into the lane buffer. */
  method LoadLane(values: array<Word>, lane: array<Word>, r: nat, rows: nat, cols: nat, m: Word)
    requires values != lane && values.Length == rows * cols && r < rows && cols <= lane.Length && m > 0
    modifies lane
    ensures SeqCong(lane[..cols], Lane(values[..], r, rows, cols), m)
  {
    hide Lane, Cong;
    LaneLength(values[..], r, rows, cols);
    var c: nat := 0;
    while c < cols
      invariant c <= cols
      invariant forall j: nat :: j < c ==> Cong(lane[j], Lane(values[..], r, rows, cols)[j], m)
    {
      LaneAt(values[..], r, rows, cols, c);
      CongMod(values[r + rows * c], m);
      lane[c] := Residue(values[r + rows * c], m);
      c := c + 1;
    }
  }

  function Residue(x: Word, m: Word): (r: Word)
    requires m > 0
    ensures r == x % m
  {
    assert 0 <= x % m < m;
    x % m
  }

  lemma LaneLength(a: seq<int>, r: nat, rows: nat, cols: nat)
    ensures |Lane(a, r, rows, cols)| == cols
  {
  }

  lemma LaneAt(a: seq<int>, r: nat, rows: nat, cols: nat, c: nat)
    requires |a| == rows * cols && r < rows && c < cols
    ensures |Lane(a, r, rows, cols)| == cols && 0 <= r + rows * c < |a| && Lane(a, r, rows, cols)[c] == a[r + rows * c]
  {
    FlatIndex(c, r, cols, rows);
  }

  lemma PointValueCong(a: seq<int>, b: seq<int>, v: int, w: int, k: nat, m: int)
    requires m > 0 && SeqCong(a, b, m) && Cong(v, w, m)
    ensures PointValue(a, v, k, m) == PointValue(b, w, k, m)
  {
    PowCong(v, w, k, m);
    EvalCong(a, b, Pow(v, k), Pow(w, k), m);
  }

  function RowEntry(a: seq<int>, root: int, rows: nat, cols: nat, j: nat, m: int): int
    requires m > 0 && cols > 0
  {
    PointValue(Lane(a, j / cols, rows, cols), root, j % cols, m)
  }

  /** Step 1: a transform of length cols over every lane, stored row by row. */
  method RowTransforms(values: array<Word>, stage: array<Word>, rows: nat, cols: nat, root: Word, m: Word)
    requires values != stage && values.Length == stage.Length == rows * cols
    requires 0 < rows <= MAX_SIDE && 0 < cols <= MAX_SIDE && 0 < m < HALF_WORD
    modifies stage
    ensures forall j: nat :: j < rows * cols ==> stage[j] == RowEntry(values[..], root, rows, cols, j, m)
  {
    var laneIn, laneOut := new Word[MAX_SIDE], new Word[MAX_SIDE];
    ghost var a := values[..];
    var r: nat := 0;
    while r < rows
      invariant r <= rows && values[..] == a
      invariant forall j: nat :: j < r * cols && j < rows * cols ==> stage[j] == RowEntry(a, root, rows, cols, j, m)
    {
      LoadLane(values, laneIn, r, rows, cols, m);
      SmallCyclicDft(laneIn, laneOut, cols, root, m);
      forall c: nat | c < cols
        ensures laneOut[c] == PointValue(Lane(a, r, rows, cols), root, c, m)
      {
        PointValueCong(laneIn[..cols], Lane(a, r, rows, cols), root, root, c, m);
      }
      StoreRow(laneOut, stage, r, rows, cols);
      forall j: nat | j < (r + 1) * cols && j < rows * cols
        ensures stage[j] == RowEntry(a, root, rows, cols, j, m)
      {
        if j >= r * cols {
          RowOf(j, r, cols);
        }
      }
      r := r + 1;
    }
  }

  lemma RowOf(j: nat, r: nat, cols: nat)
    requires cols > 0 && r * cols <= j < (r + 1) * cols
    ensures j / cols == r && j % cols == j - r * cols
  {
    assert (r + 1) * cols == r * cols + cols;
    FlatIndex(r, j - r * cols, r + 1, cols);
  }

  method StoreRow(lane: array<Word>, stage: array<Word>, r: nat, rows: nat, cols: nat)
    requires lane != stage && cols <= lane.Length && stage.Length == rows * cols && r < rows
    modifies stage
    ensures forall j: nat :: j < rows * cols && !(r * cols <= j < (r + 1) * cols) ==> stage[j] == old(stage[j])
    ensures forall j: nat :: j < rows * cols && r * cols <= j < (r + 1) * cols && j - r * cols < cols ==> stage[j] == lane[j - r * cols]
  {
    var c: nat := 0;
    assert (r + 1) * cols == r * cols + cols;
    while c < cols
      invariant c <= cols
      invariant forall j: nat :: j < rows * cols && !(r * cols <= j < r * cols + c) ==> stage[j] == old(stage[j])
      invariant forall j: nat :: j < rows * cols && r * cols <= j < r * cols + c ==> stage[j] == lane[j - r * cols]
    {
      FlatIndex(r, c, rows, cols);
      stage[r * cols + c] := lane[c];
      c := c + 1;
    }
  }

  /** The middle twiddle of the flat index j: w^(row * column). */
  function MiddleFactor(w: int, cols: nat, j: nat): int
    requires cols > 0
  {
    Pow(Pow(w, j / cols), j % cols)
  }

  /** Step 2: entry (r, c) is multiplied by omega^(r * c). */
  method MiddleTwiddle(stage: array<Word>, rows: nat, cols: nat, omega: Word, m: Word)
    requires stage.Length == rows * cols && 0 < cols && rows <= MAX_SIDE && 0 < m < HALF_WORD
    modifies stage
    ensures forall j: nat :: j < rows * cols ==>
      TwiddledTo(stage[j], old(stage[j]), MiddleFactor(omega, cols, j), m)
  {
    var r: nat, base: nat := 0, 0;
    while r < rows
      invariant r <= rows && base == r * cols <= stage.Length
      invariant forall j: nat :: base <= j < stage.Length ==> stage[j] == old(stage[j])
      invariant forall j: nat :: j < base ==>
        TwiddledTo(stage[j], old(stage[j]), MiddleFactor(omega, cols, j), m)
    {
      var step := ModPow(omega, r, m);
      NextRow(r, rows, cols);
      TwiddleRow(stage, base, cols, step, m);
      forall j: nat | base <= j < base + cols
        ensures TwiddledTo(stage[j], old(stage[j]), MiddleFactor(omega, cols, j), m)
      {
        RowFactor(stage[j], old(stage[j]), j, r, cols, step, omega, m);
      }
      r, base := r + 1, base + cols;
    }
  }

  lemma RowFactor(now: int, before: int, j: nat, r: nat, cols: nat, step: int, omega: int, m: int)
    requires m > 0 && cols > 0 && r * cols <= j < (r + 1) * cols && Cong(step, Pow(omega, r), m)
    requires TwiddledTo(now, before, Pow(step, j - r * cols), m)
    ensures TwiddledTo(now, before, MiddleFactor(omega, cols, j), m)
  {
    RowOf(j, r, cols);
    PowCong(step, Pow(omega, r), j % cols, m);
    CongMul(before, before, Pow(step, j % cols), Pow(Pow(omega, r), j % cols), m);
  }

  lemma NextRow(r: nat, rows: nat, cols: nat)
    requires r < rows
    ensures (r + 1) * cols == r * cols + cols <= rows * cols
  {
    assert (r + 1) * cols <= rows * cols;
  }

  /** One row of step 2; the row starts at index `base`. */
  method TwiddleRow(stage: array<Word>, base: nat, cols: nat, step: Word, m: Word)
    requires base + cols <= stage.Length && 0 < m < HALF_WORD
    modifies stage
    ensures forall j: nat :: j < stage.Length && !(base <= j < base + cols) ==> stage[j] == old(stage[j])
    ensures forall j: nat :: base <= j < base + cols ==> TwiddledTo(stage[j], old(stage[j]), Pow(step, j - base), m)
  {
    var c: nat := 0;
    var tw: Word := 1;
    while c < cols
      invariant c <= cols && Cong(tw, Pow(step, c), m)
      invariant forall j: nat :: j < stage.Length && !(base <= j < base + c) ==> stage[j] == old(stage[j])
      invariant forall j: nat :: base <= j < base + c ==> TwiddledTo(stage[j], old(stage[j]), Pow(step, j - base), m)
    {
      MulCong(stage[base + c], tw, Pow(step, c), m);
      stage[base + c] := ModMul(stage[base + c], tw, m);
      NextPower(tw, step, c, m);
      tw := ModMul(tw, step, m);
      c := c + 1;
    }
  }

  /** Index of entry (a, b) in a table with rows of length m. */
  function Flat(a: nat, b: nat, m: nat): nat
  {
    a * m + b
  }

  lemma FlatDistinct(a: nat, b: nat, c: nat, d: nat, n: nat, m: nat)
    requires a < n && c < n && b < m && d < m && Flat(a, b, m) == Flat(c, d, m)
    ensures a == c && b == d
  {
    FlatIndex(a, b, n, m);
    FlatIndex(c, d, n, m);
  }

  ghost predicate Turned(turned: seq<Word>, stage: seq<Word>, r: nat, c: nat, rows: nat, cols: nat)
  {
    && Flat(c, r, rows) < |turned| && Flat(r, c, cols) < |stage|
    && turned[Flat(c, r, rows)] == stage[Flat(r, c, cols)]
  }

  /** Step 3: the explicit transpose. */
  method TransposeStage(stage: array<Word>, turned: array<Word>, rows: nat, cols: nat)
    requires stage != turned && stage.Length == turned.Length == rows * cols
    modifies turned
    ensures forall r: nat, c: nat :: r < rows && c < cols ==> Turned(turned[..], stage[..], r, c, rows, cols)
  {
    var r: nat := 0;
    while r < rows
      invariant r <= rows
      invariant forall i: nat, c: nat :: i < r && c < cols ==> Turned(turned[..], stage[..], i, c, rows, cols)
    {
      var c: nat := 0;
      while c < cols
        invariant c <= cols
        invariant forall i: nat, j: nat :: i < r && j < cols ==> Turned(turned[..], stage[..], i, j, rows, cols)
        invariant forall j: nat :: j < c ==> Turned(turned[..], stage[..], r, j, rows, cols)
      {
        FlatIndex(r, c, rows, cols);
        FlatIndex(c, r, cols, rows);
        ghost var was := turned[..];
        turned[c * rows + r] := stage[r * cols + c];
        TurnedUpdate(was, stage[..], r, c, rows, cols);
        assert turned[..] == was[Flat(c, r, rows) := stage[Flat(r, c, cols)]];
        c := c + 1;
      }
      r := r + 1;
    }
  }

  lemma TurnedUpdate(turned: seq<Word>, stage: seq<Word>, r: nat, c: nat, rows: nat, cols: nat)
    requires r < rows && c < cols && |turned| == |stage| == rows * cols
    requires Flat(c, r, rows) < |turned| && Flat(r, c, cols) < |stage|
    ensures var now := turned[Flat(c, r, rows) := stage[Flat(r, c, cols)]];
      && Turned(now, stage, r, c, rows, cols)
      && forall i: nat, j: nat :: i < rows && j < cols && Turned(turned, stage, i, j, rows, cols) ==> Turned(now, stage, i, j, rows, cols)
  {
    var now := turned[Flat(c, r, rows) := stage[Flat(r, c, cols)]];
    forall i: nat, j: nat | i < rows && j < cols && Turned(turned, stage, i, j, rows, cols)
      ensures Turned(now, stage, i, j, rows, cols)
    {
      if Flat(j, i, rows) == Flat(c, r, rows) {
        FlatDistinct(j, i, c, r, cols, rows);
      }
    }
  }

  function Column(turned: seq<int>, c: nat, rows: nat): seq<int>
  {
    seq(rows, (r: nat) => At(turned, Flat(c, r, rows)))
  }

  ghost predicate ColumnDone(values: seq<Word>, turned: seq<Word>, r: nat, c: nat, rows: nat, cols: nat, root: int, m: int)
    requires m > 0
  {
    Flat(r, c, cols) < |values| && values[Flat(r, c, cols)] == PointValue(Column(turned, c, rows), root, r, m)
  }

  /** Step 4: a transform of length rows over every column, stored with stride cols. */
  method ColumnTransforms(turned: array<Word>, values: array<Word>, rows: nat, cols: nat, root: Word, m: Word)
    requires turned != values && turned.Length == values.Length == rows * cols
    requires 0 < rows <= MAX_SIDE && 0 < cols <= MAX_SIDE && 0 < m < HALF_WORD
    modifies values
    ensures forall r: nat, c: nat :: r < rows && c < cols ==> ColumnDone(values[..], turned[..], r, c, rows, cols, root, m)
  {
    var laneIn, laneOut := new Word[MAX_SIDE], new Word[MAX_SIDE];
    ghost var source := turned[..];
    var c: nat := 0;
    while c < cols
      invariant c <= cols && turned[..] == source
      invariant forall r: nat, j: nat :: r < rows && j < c ==> ColumnDone(values[..], source, r, j, rows, cols, root, m)
    {
      LoadColumn(turned, laneIn, c, rows, cols);
      SmallCyclicDft(laneIn, laneOut, rows, root, m);
      ghost var was := values[..];
      StoreColumn(laneOut, values, c, rows, cols);
      forall r: nat, j: nat | r < rows && j < c + 1
        ensures ColumnDone(values[..], source, r, j, rows, cols, root, m)
      {
        assert Stored(values[..], was, laneOut[..], r, j, c, cols);
        if j < c {
          assert ColumnDone(was, source, r, j, rows, cols, root, m);
        }
      }
      c := c + 1;
    }
  }

  method LoadColumn(turned: array<Word>, lane: array<Word>, c: nat, rows: nat, cols: nat)
    requires turned != lane && turned.Length == rows * cols && rows <= lane.Length && c < cols
    modifies lane
    ensures lane[..rows] == Column(turned[..], c, rows)
  {
    var r: nat := 0;
    while r < rows
      invariant r <= rows
      invariant forall i: nat :: i < r ==> lane[i] == At(turned[..], Flat(c, i, rows))
    {
      FlatIndex(c, r, cols, rows);
      lane[r] := turned[c * rows + r];
      r := r + 1;
    }
  }

  /** Entry (r, j) after column c has been stored: the lane value in column c, untouched elsewhere. */
  ghost predicate Stored(now: seq<Word>, was: seq<Word>, lane: seq<Word>, r: nat, j: nat, c: nat, cols: nat)
  {
    && r < |lane| && Flat(r, j, cols) < |now| == |was|
    && now[Flat(r, j, cols)] == if j == c then lane[r] else was[Flat(r, j, cols)]
  }

  method StoreColumn(lane: array<Word>, values: array<Word>, c: nat, rows: nat, cols: nat)
    requires lane != values && rows <= lane.Length && values.Length == rows * cols && c < cols
    modifies values
    ensures forall r: nat, j: nat :: r < rows && j < cols ==> Stored(values[..], old(values[..]), lane[..], r, j, c, cols)
  {
    ghost var first := values[..];
    ghost var source := lane[..];
    StoreInit(first, source, c, rows, cols);
    var r: nat := 0;
    while r < rows
      invariant r <= rows && lane[..] == source
      invariant StoredUpTo(values[..], first, source, r, c, rows, cols)
    {
      FlatIndex(r, c, rows, cols);
      ghost var was := values[..];
      values[r * cols + c] := lane[r];
      StoreStep(was, first, source, r, c, rows, cols);
      assert values[..] == was[Flat(r, c, cols) := source[r]];
      r := r + 1;
    }
    forall i: nat, j: nat | i < rows && j < cols
      ensures Stored(values[..], first, source, i, j, c, cols)
    {
      assert EntryUpTo(values[..], first, source, rows, c, i, j, cols);
    }
  }

  ghost predicate EntryUpTo(now: seq<Word>, was: seq<Word>, lane: seq<Word>, r: nat, c: nat, i: nat, j: nat, cols: nat)
  {
    && i < |lane| && Flat(i, j, cols) < |now| == |was|
    && now[Flat(i, j, cols)] == if j == c && i < r then lane[i] else was[Flat(i, j, cols)]
  }

  ghost predicate StoredUpTo(now: seq<Word>, was: seq<Word>, lane: seq<Word>, r: nat, c: nat, rows: nat, cols: nat)
  {
    forall i: nat, j: nat :: i < rows && j < cols ==> EntryUpTo(now, was, lane, r, c, i, j, cols)
  }

  lemma StoreInit(was: seq<Word>, lane: seq<Word>, c: nat, rows: nat, cols: nat)
    requires |was| == rows * cols && rows <= |lane|
    ensures StoredUpTo(was, was, lane, 0, c, rows, cols)
  {
    forall i: nat, j: nat | i < rows && j < cols
      ensures EntryUpTo(was, was, lane, 0, c, i, j, cols)
    {
      FlatIndex(i, j, rows, cols);
    }
  }

  lemma StoreStep(was: seq<Word>, first: seq<Word>, lane: seq<Word>, r: nat, c: nat, rows: nat, cols: nat)
    requires |was| == rows * cols && r < rows <= |lane| && c < cols && StoredUpTo(was, first, lane, r, c, rows, cols)
    ensures Flat(r, c, cols) < |was| && StoredUpTo(was[Flat(r, c, cols) := lane[r]], first, lane, r + 1, c, rows, cols)
  {
    FlatIndex(r, c, rows, cols);
    var now, next := was[Flat(r, c, cols) := lane[r]], r + 1;
    forall i: nat, j: nat | i < rows && j < cols
      ensures EntryUpTo(now, first, lane, next, c, i, j, cols)
    {
      assert EntryUpTo(was, first, lane, r, c, i, j, cols);
      if (i, j) != (r, c) {
        KeepEntry(was, r, c, i, j, rows, cols, lane[r]);
      }
    }
  }

  lemma KeepEntry(was: seq<Word>, r: nat, c: nat, i: nat, j: nat, rows: nat, cols: nat, v: Word)
    requires r < rows && c < cols && i < rows && j < cols && |was| == rows * cols && (i, j) != (r, c)
    ensures Flat(r, c, cols) < |was| && Flat(i, j, cols) < |was|
    ensures was[Flat(r, c, cols) := v][Flat(i, j, cols)] == was[Flat(i, j, cols)]
  {
    FlatIndex(r, c, rows, cols);
    FlatIndex(i, j, rows, cols);
    if Flat(r, c, cols) == Flat(i, j, cols) {
      FlatDistinct(r, c, i, j, rows, cols);
    }
  }
}

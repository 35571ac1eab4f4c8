/** The emulator's base converter: tiled batch loops, the same loops spread over worker threads, and the streaming
    form of the accelerator. All of them deliver the residues of BaseConversion.Target. */
module BaseConverters {
  import opened Congruence
  import opened WordArithmetic
  import opened Rns
  import opened BaseConversion

  // ----- one conversion

  /** Sources, factors by source and target, target moduli, coefficient count and tile. */
  datatype Job = Job(inputs: seq<seq<Element>>, matrix: seq<seq<nat>>, outputs: seq<nat>, n: nat, tile: nat) {
    ghost predicate Valid() {
      && |matrix| == |inputs|
      && (forall k: nat :: k < |inputs| ==> |inputs[k]| == n && |matrix[k]| == |outputs|)
      && (forall j: nat :: j < |outputs| ==> 0 < outputs[j] <= LIMB)
      && tile > 0 && n % tile == 0
    }

    /** What a cell holds after the first k sources: they are folded in one at a time, reduced each time. */
    function Partial(k: nat, j: nat, c: nat): (v: nat)
      requires Valid() && k <= |inputs| && j < |outputs| && c < n
      ensures v < LIMB
    {
      if k == 0 then 0 else FoldedIn(k - 1, j, c, Partial(k - 1, j, c))
    }

    /** The cell after source k: the first source overwrites, later ones multiply and add. */
    function FoldedIn(k: nat, j: nat, c: nat, was: int): (v: nat)
      requires Valid() && k < |inputs| && j < |outputs| && c < n
      ensures v < LIMB
    {
      if k == 0 then (inputs[k][c] * matrix[k][j]) % outputs[j]
      else (inputs[k][c] * matrix[k][j] + was) % outputs[j]
    }
  }

  /** The factor matrix of a base. */
  ghost predicate HasFactors(job: Job, b: RnsBase)
  {
    && job.Valid() && |b.inverses| == b.Size() == |job.inputs|
    && forall k: nat, j: nat :: k < b.Size() && j < |job.outputs| ==> job.matrix[k][j] == Factor(b, k, job.outputs[j])
  }

  function Coefficients(inputs: seq<seq<Element>>, c: nat): seq<int>
    requires forall k: nat :: k < |inputs| ==> c < |inputs[k]|
  {
    seq(|inputs|, k requires 0 <= k < |inputs| => inputs[k][c])
  }

  lemma {:induction false} PartialIsSum(job: Job, b: RnsBase, k: nat, j: nat, c: nat)
    requires HasFactors(job, b) && k <= b.Size() && j < |job.outputs| && c < job.n
    ensures job.Partial(k, j, c) == Sum(FactorTerm(b, Coefficients(job.inputs, c), job.outputs[j]), k) % job.outputs[j]
  {
    var p, f := job.outputs[j], FactorTerm(b, Coefficients(job.inputs, c), job.outputs[j]);
    if k == 0 {
      SmallMod(0, p);
    } else {
      PartialIsSum(job, b, k - 1, j, c);
      assert f(k - 1) == job.inputs[k - 1][c] * job.matrix[k - 1][j];
      hide Factor, FactorTerm;
      CongMod(Sum(f, k - 1), p);
      CongAdd(f(k - 1), f(k - 1), job.Partial(k - 1, j, c), Sum(f, k - 1), p);
    }
  }

  /** Every cell of a finished conversion holds its target residue. */
  lemma PartialIsTarget(job: Job, b: RnsBase, j: nat, c: nat)
    requires HasFactors(job, b) && j < |job.outputs| && c < job.n
    ensures job.Partial(|job.inputs|, j, c) == Target(b, Coefficients(job.inputs, c), job.outputs[j])
  {
    PartialIsSum(job, b, b.Size(), j, c);
  }

  // ----- positions in the loop nest

  /** About to fold source k into cell i + ii of target j; i is the start of a tile. */
  datatype Position = Position(k: nat, i: nat, j: nat, ii: nat)

  /** Sources already folded into cell c of target j when a loop nest stands at a position. */
  function Held(p: Position, tile: nat, j: nat, c: nat): nat
  {
    if c < p.i || (c < p.i + tile && (j < p.j || (j == p.j && c < p.i + p.ii))) then p.k + 1 else p.k
  }

  ghost predicate CellRight(job: Job, v: int, held: nat, j: nat, c: nat)
    requires job.Valid() && j < |job.outputs| && c < job.n
  {
    held <= |job.inputs| && (held > 0 ==> v == job.Partial(held, j, c))
  }

  lemma FoldedRight(job: Job, v: int, k: nat, j: nat, c: nat)
    requires job.Valid() && k < |job.inputs| && j < |job.outputs| && c < job.n && CellRight(job, v, k, j, c)
    ensures CellRight(job, job.FoldedIn(k, j, c, v), k + 1, j, c)
  {
  }

  // ----- worker threads

  datatype Threads = Threads(buffer: seq<seq<int>>, at: seq<Position>)

  function ThreadCount(job: Job): (t: nat)
    ensures t > 0
  {
    |job.outputs| / 4 + 1
  }

  predicate Finished(job: Job, p: Position)
  {
    p.k >= |job.inputs|
  }

  /** Thread t owns the targets j with j % T == t, and walks sources, tiles, own targets, coefficients. */
  function First(job: Job, t: nat): Position
  {
    if t < |job.outputs| && job.n > 0 then Position(0, 0, t, 0) else Position(|job.inputs|, 0, 0, 0)
  }

  function Next(job: Job, t: nat, p: Position): Position
  {
    if p.ii + 1 < job.tile then p.(ii := p.ii + 1)
    else if p.j + ThreadCount(job) < |job.outputs| then p.(j := p.j + ThreadCount(job), ii := 0)
    else if p.i + job.tile < job.n then p.(i := p.i + job.tile, j := t, ii := 0)
    else Position(p.k + 1, 0, t, 0)
  }

  ghost predicate PositionRight(job: Job, t: nat, p: Position)
    requires job.Valid()
  {
    Finished(job, p) ||
    (p.j < |job.outputs| && p.j % ThreadCount(job) == t && p.ii < job.tile && p.i % job.tile == 0 && p.i + job.tile <= job.n)
  }

  /** Folded sources at a position, finished or not. */
  function HeldAt(job: Job, p: Position, j: nat, c: nat): nat
  {
    if Finished(job, p) then |job.inputs| else Held(p, job.tile, j, c)
  }

  /** Every own cell of a thread holds what its position says. */
  ghost predicate CellsRight(job: Job, buffer: seq<seq<int>>, t: nat, p: Position)
    requires job.Valid() && Shaped(job, buffer)
  {
    forall j: nat, c: nat :: j < |job.outputs| && c < job.n && j % ThreadCount(job) == t ==>
      CellRight(job, buffer[j][c], HeldAt(job, p, j, c), j, c)
  }

  predicate Shaped(job: Job, buffer: seq<seq<int>>)
  {
    |buffer| == |job.outputs| && forall j: nat :: j < |buffer| ==> |buffer[j]| == job.n
  }

  ghost predicate Sound(job: Job, m: Threads)
  {
    && job.Valid() && Shaped(job, m.buffer) && |m.at| == ThreadCount(job)
    && (forall t: nat :: t < |m.at| ==> PositionRight(job, t, m.at[t]))
    && (forall t: nat :: t < |m.at| ==> CellsRight(job, m.buffer, t, m.at[t]))
  }

  function Write(buffer: seq<seq<int>>, j: nat, c: nat, v: int): (r: seq<seq<int>>)
    requires j < |buffer| && c < |buffer[j]|
    ensures |r| == |buffer| && forall l: nat :: l < |r| ==> |r[l]| == |buffer[l]|
    ensures forall l: nat, d: nat :: l < |r| && d < |r[l]| ==> r[l][d] == if l == j && d == c then v else buffer[l][d]
  {
    buffer[j := buffer[j][c := v]]
  }

  /** One inner iteration of thread t; a finished thread does nothing. */
  function Step(job: Job, m: Threads, t: nat): Threads
    requires job.Valid() && Sound(job, m) && t < |m.at|
  {
    var p := m.at[t];
    if Finished(job, p) then m
    else
      var c := p.i + p.ii;
      Threads(Write(m.buffer, p.j, c, job.FoldedIn(p.k, p.j, c, m.buffer[p.j][c])), m.at[t := Next(job, t, p)])
  }

  /** Own targets are a multiple of the thread count apart. */
  lemma OwnLanes(j: nat, l: nat, count: nat)
    requires count > 0 && j % count == l % count && l < j + count
    ensures l <= j && l % count <= l
  {
    if l > j {
      var k := CongQuotient(l, j, count);
      assert 0 < k * count < count;
      if k >= 1 {
        MulAtLeast(k - 1, count);
      } else {
        MulAtLeast(-k, count);
      }
      assert false;
    }
    LaneAtLeast(l, count);
  }

  lemma LaneAtLeast(l: nat, count: nat)
    requires count > 0
    ensures l % count <= l
  {
    var q := l / count;
    assert l == count * q + l % count;
    MulNonNegative(count, q);
  }

  lemma NextTile(i: nat, tile: nat, n: nat)
    requires tile > 0 && i % tile == 0 && n % tile == 0 && i + tile < n
    ensures (i + tile) % tile == 0 && i + 2 * tile <= n
  {
    CongFrom(i + tile, i, 1, tile);
    var q := CongQuotient(n, i + tile, tile);
    if q <= 0 {
      MulNonNegative(-q, tile);
      assert false;
    }
    MulAtLeast(tile, q);
  }

  lemma NextRight(job: Job, t: nat, p: Position)
    requires job.Valid() && PositionRight(job, t, p) && !Finished(job, p)
    ensures PositionRight(job, t, Next(job, t, p))
  {
    var count := ThreadCount(job);
    CongFrom(p.j + count, p.j, 1, count);
    LaneAtLeast(p.j, count);
    SmallMod(t, count);
    SmallMod(0, job.tile);
    if p.i + job.tile < job.n {
      NextTile(p.i, job.tile, job.n);
    }
    FirstTile(job.n, job.tile);
  }

  lemma FirstTile(n: nat, tile: nat)
    requires tile > 0 && n % tile == 0
    ensures n > 0 ==> tile <= n
  {
    if 0 < n < tile {
      SmallMod(n, tile);
    }
  }

  /** One step folds exactly one source into exactly one cell. */
  lemma HeldNext(job: Job, t: nat, p: Position, j: nat, c: nat)
    requires job.Valid() && PositionRight(job, t, p) && !Finished(job, p)
    requires j < |job.outputs| && c < job.n && j % ThreadCount(job) == t
    ensures HeldAt(job, Next(job, t, p), j, c) == if j == p.j && c == p.i + p.ii then p.k + 1 else Held(p, job.tile, j, c)
    ensures j == p.j && c == p.i + p.ii ==> Held(p, job.tile, j, c) == p.k
  {
    var count := ThreadCount(job);
    hide ThreadCount;
    LaneAtLeast(j, count);
    if j < p.j + count {
      OwnLanes(p.j, j, count);
    }
  }

  lemma StepSound(job: Job, m: Threads, t: nat)
    requires job.Valid() && Sound(job, m) && t < |m.at|
    ensures Sound(job, Step(job, m, t))
  {
    var p := m.at[t];
    if !Finished(job, p) {
      NextRight(job, t, p);
      var r := Step(job, m, t);
      OwnCells(job, m.buffer, t, p);
      forall u: nat | u < |m.at| && u != t
        ensures CellsRight(job, r.buffer, u, r.at[u])
      {
        OtherCells(job, m.buffer, p.j, p.i + p.ii, job.FoldedIn(p.k, p.j, p.i + p.ii, m.buffer[p.j][p.i + p.ii]), t, u, m.at[u]);
      }
    }
  }

  lemma OwnCells(job: Job, buffer: seq<seq<int>>, t: nat, p: Position)
    requires job.Valid() && Shaped(job, buffer) && PositionRight(job, t, p) && !Finished(job, p) && CellsRight(job, buffer, t, p)
    ensures var c := p.i + p.ii;
      CellsRight(job, Write(buffer, p.j, c, job.FoldedIn(p.k, p.j, c, buffer[p.j][c])), t, Next(job, t, p))
  {
    var e := p.i + p.ii;
    var v := job.FoldedIn(p.k, p.j, e, buffer[p.j][e]);
    var r := Write(buffer, p.j, e, v);
    forall j: nat, c: nat | j < |job.outputs| && c < job.n && j % ThreadCount(job) == t
      ensures CellRight(job, r[j][c], HeldAt(job, Next(job, t, p), j, c), j, c)
    {
      HeldNext(job, t, p, j, c);
      hide Next, ThreadCount, Held;
      assert CellRight(job, buffer[j][c], HeldAt(job, p, j, c), j, c);
      if j == p.j && c == e {
        FoldedRight(job, buffer[j][c], p.k, j, c);
      }
    }
  }

  lemma OtherCells(job: Job, buffer: seq<seq<int>>, l: nat, e: nat, v: int, t: nat, u: nat, q: Position)
    requires job.Valid() && Shaped(job, buffer) && l < |job.outputs| && e < job.n
    requires l % ThreadCount(job) == t != u && CellsRight(job, buffer, u, q)
    ensures CellsRight(job, Write(buffer, l, e, v), u, q)
  {
    var r := Write(buffer, l, e, v);
    forall j: nat, c: nat | j < |job.outputs| && c < job.n && j % ThreadCount(job) == u
      ensures CellRight(job, r[j][c], HeldAt(job, q, j, c), j, c)
    {
      assert r[j][c] == buffer[j][c];
    }
  }

  /** Any interleaving: the schedule names the thread that runs at each step. */
  ghost function Run(job: Job, m: Threads, schedule: seq<nat>): (r: Threads)
    requires job.Valid() && Sound(job, m) && forall s: nat :: s < |schedule| ==> schedule[s] < ThreadCount(job)
    ensures Sound(job, r)
  {
    if |schedule| == 0 then m
    else
      var last := |schedule| - 1;
      var before := Run(job, m, schedule[..last]);
      StepSound(job, before, schedule[last]);
      Step(job, before, schedule[last])
  }

  /** Threads about to start on a buffer of any content. */
  function Started(job: Job, buffer: seq<seq<int>>): Threads
  {
    Threads(buffer, seq(ThreadCount(job), t requires 0 <= t < ThreadCount(job) => First(job, t)))
  }

  lemma StartedSound(job: Job, buffer: seq<seq<int>>)
    requires job.Valid() && Shaped(job, buffer)
    ensures Sound(job, Started(job, buffer))
  {
    FirstTile(job.n, job.tile);
    var m := Started(job, buffer);
    forall t: nat | t < |m.at|
      ensures PositionRight(job, t, m.at[t]) && CellsRight(job, buffer, t, m.at[t])
    {
      FirstRight(job, buffer, t);
    }
  }

  lemma FirstRight(job: Job, buffer: seq<seq<int>>, t: nat)
    requires job.Valid() && Shaped(job, buffer) && t < ThreadCount(job) && (job.n > 0 ==> job.tile <= job.n)
    ensures PositionRight(job, t, First(job, t)) && CellsRight(job, buffer, t, First(job, t))
  {
    SmallMod(t, ThreadCount(job));
    SmallMod(0, job.tile);
    forall j: nat, c: nat | j < |job.outputs| && c < job.n && j % ThreadCount(job) == t
      ensures CellRight(job, buffer[j][c], HeldAt(job, First(job, t), j, c), j, c)
    {
      LaneAtLeast(j, ThreadCount(job));
    }
  }

  /** Iterations a thread still has to do: its loops terminate. */
  ghost function StepsLeft(job: Job, t: nat, p: Position): nat
    requires job.Valid() && PositionRight(job, t, p)
    decreases |job.inputs| - p.k, job.n - p.i, |job.outputs| - p.j, job.tile - p.ii
  {
    if Finished(job, p) then 0
    else
      NextRight(job, t, p);
      1 + StepsLeft(job, t, Next(job, t, p))
  }

  function Less(a: nat, b: nat): nat
  {
    if a <= b then 0 else a - b
  }

  /** Each turn of a thread takes one iteration off its own count and leaves the others alone. */
  lemma {:induction false} CountDown(job: Job, m: Threads, schedule: seq<nat>, t: nat)
    requires job.Valid() && Sound(job, m) && t < |m.at|
    requires forall s: nat :: s < |schedule| ==> schedule[s] < ThreadCount(job)
    ensures StepsLeft(job, t, Run(job, m, schedule).at[t]) == Less(StepsLeft(job, t, m.at[t]), multiset(schedule)[t])
  {
    hide Job.Valid, CellsRight, Shaped, PositionRight, Step;
    if |schedule| == 0 {
    } else {
      var last := |schedule| - 1;
      CountDown(job, m, schedule[..last], t);
      assert schedule == schedule[..last] + [schedule[last]];
      OneTurn(job, Run(job, m, schedule[..last]), schedule[last], t);
    }
  }

  /** A turn of one thread. */
  lemma OneTurn(job: Job, m: Threads, u: nat, t: nat)
    requires job.Valid() && Sound(job, m) && t < |m.at| && u < ThreadCount(job)
    ensures |m.at| == ThreadCount(job) && Sound(job, Step(job, m, u)) && |Step(job, m, u).at| == |m.at|
    ensures StepsLeft(job, t, Step(job, m, u).at[t]) == Less(StepsLeft(job, t, m.at[t]), if u == t then 1 else 0)
  {
    StepSound(job, m, u);
    hide Job.Valid;
  }

  /** The iterations of a thread, counted where it starts. */
  ghost function StepsAtStart(job: Job, buffer: seq<seq<int>>, t: nat): nat
    requires job.Valid() && Shaped(job, buffer) && t < ThreadCount(job)
  {
    StartedSound(job, buffer);
    StepsLeft(job, t, Started(job, buffer).at[t])
  }

  ghost function RunFromStart(job: Job, buffer: seq<seq<int>>, schedule: seq<nat>): (r: Threads)
    requires job.Valid() && Shaped(job, buffer) && forall s: nat :: s < |schedule| ==> schedule[s] < ThreadCount(job)
    ensures Sound(job, r)
  {
    StartedSound(job, buffer);
    Run(job, Started(job, buffer), schedule)
  }

  /** Whatever the interleaving, as soon as every thread has had its iterations each cell holds its target residue,
      whatever the buffer held before. */
  lemma ThreadsAgree(job: Job, b: RnsBase, buffer: seq<seq<int>>, schedule: seq<nat>, j: nat, c: nat)
    requires HasFactors(job, b) && b.Size() >= 1 && Shaped(job, buffer) && j < |job.outputs| && c < job.n
    requires forall s: nat :: s < |schedule| ==> schedule[s] < ThreadCount(job)
    requires forall t: nat :: t < ThreadCount(job) ==> multiset(schedule)[t] >= StepsAtStart(job, buffer, t)
    ensures RunFromStart(job, buffer, schedule).buffer[j][c]
         == Target(b, Coefficients(job.inputs, c), job.outputs[j])
  {
    StartedSound(job, buffer);
    var m := Started(job, buffer);
    var r := Run(job, m, schedule);
    var t := j % ThreadCount(job);
    CountDown(job, m, schedule, t);
    assert Finished(job, r.at[t]);
    assert CellsRight(job, r.buffer, t, r.at[t]);
    assert CellRight(job, r.buffer[j][c], HeldAt(job, r.at[t], j, c), j, c);
    PartialIsTarget(job, b, j, c);
  }

  // ----- the converter object

  predicate Stored(ids: seq<nat>, id: nat, k: nat)
  {
    k < |ids| && ids[k] == id && id !in ids[k + 1..]
  }

  /** The factor matrix, source by source. */
  method FactorRows(base: RnsBase, outputs: seq<nat>) returns (matrix: seq<seq<nat>>)
    requires base.Size() == |base.inverses| && forall j: nat :: j < |outputs| ==> outputs[j] > 0
    ensures |matrix| == base.Size() && forall k: nat :: k < |matrix| ==> |matrix[k]| == |outputs|
    ensures forall k: nat, j: nat :: k < |matrix| && j < |outputs| ==> matrix[k][j] == Factor(base, k, outputs[j])
  {
    hide Factor;
    matrix := [];
    var k: nat := 0;
    while k < base.Size()
      invariant k <= base.Size() && |matrix| == k && forall l: nat :: l < k ==> |matrix[l]| == |outputs|
      invariant forall l: nat, j: nat :: l < k && j < |outputs| ==> matrix[l][j] == Factor(base, l, outputs[j])
    {
      var row := FactorRow(base, k, outputs);
      matrix := matrix + [row];
      k := k + 1;
    }
  }

  method FactorRow(base: RnsBase, k: nat, outputs: seq<nat>) returns (row: seq<nat>)
    requires k < base.Size() == |base.inverses|
    requires forall j: nat :: j < |outputs| ==> outputs[j] > 0
    ensures |row| == |outputs| && forall j: nat :: j < |outputs| ==> row[j] == Factor(base, k, outputs[j])
  {
    row := [];
    var j: nat := 0;
    while j < |outputs|
      invariant j <= |outputs| && |row| == j
      invariant forall l: nat :: l < j ==> row[l] == Factor(base, k, outputs[l])
    {
      var x := base.Punctured(k) % outputs[j];
      row := row + [(x * base.inverses[k]) % outputs[j]];
      j := j + 1;
    }
  }

  ghost predicate AllCells(job: Job, buffer: array2<Element>, p: Position)
    requires job.Valid() && buffer.Length0 == |job.outputs| && buffer.Length1 == job.n
    reads buffer
  {
    forall j: nat, c: nat :: j < |job.outputs| && c < job.n ==> CellRight(job, buffer[j, c], Held(p, job.tile, j, c), j, c)
  }

  /** The innermost loop: source k into one tile of one target. */
  method FoldTile(job: Job, buffer: array2<Element>, k: nat, i: nat, j: nat)
    requires job.Valid() && buffer.Length0 == |job.outputs| && buffer.Length1 == job.n
    requires k < |job.inputs| && i + job.tile <= job.n && j < |job.outputs| && AllCells(job, buffer, Position(k, i, j, 0))
    modifies buffer
    ensures AllCells(job, buffer, Position(k, i, j + 1, 0))
  {
    hide Job.Valid, Job.FoldedIn, Job.Partial, CellRight;
    var ii: nat := 0;
    while ii < job.tile
      invariant ii <= job.tile
      invariant AllCells(job, buffer, Position(k, i, j, ii))
    {
      assert CellRight(job, buffer[j, i + ii], Held(Position(k, i, j, ii), job.tile, j, i + ii), j, i + ii);
      FoldedRight(job, buffer[j, i + ii], k, j, i + ii);
      label Before:
      FoldCell(job, buffer, k, j, i + ii);
      forall l: nat, c: nat | l < |job.outputs| && c < job.n
        ensures CellRight(job, buffer[l, c], Held(Position(k, i, j, ii + 1), job.tile, l, c), l, c)
      {
        assert CellRight(job, old@Before(buffer[l, c]), Held(Position(k, i, j, ii), job.tile, l, c), l, c);
      }
      ii := ii + 1;
    }
    Regroup(job, buffer, Position(k, i, j, ii), Position(k, i, j + 1, 0));
  }

  /** The first source is written over whatever is there, the others are added. */
  method FoldCell(job: Job, buffer: array2<Element>, k: nat, j: nat, c: nat)
    requires job.Valid() && buffer.Length0 == |job.outputs| && buffer.Length1 == job.n
    requires k < |job.inputs| && j < |job.outputs| && c < job.n
    modifies buffer
    ensures buffer[j, c] == job.FoldedIn(k, j, c, old(buffer[j, c]))
    ensures forall l: nat, d: nat :: l < |job.outputs| && d < job.n && !(l == j && d == c) ==> buffer[l, d] == old(buffer[l, d])
  {
    if k == 0 {
      buffer[j, c] := (job.inputs[k][c] * job.matrix[k][j]) % job.outputs[j];
    } else {
      buffer[j, c] := (job.inputs[k][c] * job.matrix[k][j] + buffer[j, c]) % job.outputs[j];
    }
  }

  /** Positions that hold the same everywhere. */
  lemma Regroup(job: Job, buffer: array2<Element>, p: Position, q: Position)
    requires job.Valid() && buffer.Length0 == |job.outputs| && buffer.Length1 == job.n && AllCells(job, buffer, p)
    requires forall j: nat, c: nat :: j < |job.outputs| && c < job.n ==> Held(p, job.tile, j, c) == Held(q, job.tile, j, c)
    ensures AllCells(job, buffer, q)
  {
  }

  /** Source k into every target, tile by tile. */
  method FoldSource(job: Job, buffer: array2<Element>, k: nat)
    requires job.Valid() && buffer.Length0 == |job.outputs| && buffer.Length1 == job.n
    requires k < |job.inputs| && AllCells(job, buffer, Position(k, 0, 0, 0))
    modifies buffer
    ensures AllCells(job, buffer, Position(k + 1, 0, 0, 0))
  {
    SmallMod(0, job.tile);
    var i: nat := 0;
    while i < job.n
      invariant i <= job.n && i % job.tile == 0
      invariant AllCells(job, buffer, Position(k, i, 0, 0))
    {
      TileFits(i, job.tile, job.n);
      var j: nat := 0;
      while j < |job.outputs|
        invariant j <= |job.outputs|
        invariant AllCells(job, buffer, Position(k, i, j, 0))
      {
        FoldTile(job, buffer, k, i, j);
        j := j + 1;
      }
      Regroup(job, buffer, Position(k, i, j, 0), Position(k, i + job.tile, 0, 0));
      i := i + job.tile;
    }
    Regroup(job, buffer, Position(k, i, 0, 0), Position(k + 1, 0, 0, 0));
  }

  lemma TileFits(i: nat, tile: nat, n: nat)
    requires tile > 0 && i % tile == 0 && n % tile == 0 && i < n
    ensures i + tile <= n && (i + tile) % tile == 0
  {
    CongFrom(i + tile, i, 1, tile);
    var q := CongQuotient(n, i, tile);
    if q <= 0 {
      MulNonNegative(-q, tile);
      assert false;
    }
    MulAtLeast(tile, q);
  }

  /** All sources into all targets. */
  method FoldSources(job: Job, ghost b: RnsBase, buffer: array2<Element>)
    requires HasFactors(job, b) && b.Size() >= 1 && buffer.Length0 == |job.outputs| && buffer.Length1 == job.n
    modifies buffer
    ensures forall j: nat, c: nat :: j < |job.outputs| && c < job.n ==>
      buffer[j, c] == Target(b, Coefficients(job.inputs, c), job.outputs[j])
  {
    hide HasFactors, Job.Valid, AllCells, Target, RnsBase.Valid;
    JobFacts(job, b);
    NothingFolded(job, buffer);
    var k: nat := 0;
    while k < |job.inputs|
      invariant k <= |job.inputs| && AllCells(job, buffer, Position(k, 0, 0, 0))
    {
      FoldSource(job, buffer, k);
      k := k + 1;
    }
    forall j: nat, c: nat | j < |job.outputs| && c < job.n
      ensures buffer[j, c] == Target(b, Coefficients(job.inputs, c), job.outputs[j])
    {
      CellFolded(job, b, buffer, j, c);
    }
  }

  lemma JobFacts(job: Job, b: RnsBase)
    requires HasFactors(job, b)
    ensures job.Valid() && |b.inverses| == b.Size() == |job.inputs|
    ensures forall k: nat :: k < |job.inputs| ==> |job.inputs[k]| == job.n
    ensures forall j: nat :: j < |job.outputs| ==> job.outputs[j] > 0
  {
  }

  lemma NothingFolded(job: Job, buffer: array2<Element>)
    requires job.Valid() && buffer.Length0 == |job.outputs| && buffer.Length1 == job.n
    ensures AllCells(job, buffer, Position(0, 0, 0, 0))
  {
  }

  lemma CellFolded(job: Job, b: RnsBase, buffer: array2<Element>, j: nat, c: nat)
    requires HasFactors(job, b) && b.Size() >= 1 && buffer.Length0 == |job.outputs| && buffer.Length1 == job.n
    requires AllCells(job, buffer, Position(|job.inputs|, 0, 0, 0)) && j < |job.outputs| && c < job.n
    ensures buffer[j, c] == Target(b, Coefficients(job.inputs, c), job.outputs[j])
  {
    assert CellRight(job, buffer[j, c], Held(Position(|job.inputs|, 0, 0, 0), job.tile, j, c), j, c);
    PartialIsTarget(job, b, j, c);
    hide Target, Coefficients, Job.Partial;
  }

  class BaseConverter {
    const base: RnsBase
    const inputIds: seq<nat>
    const outputs: seq<nat>
    const n: nat
    var matrix: seq<seq<nat>>
    var inputs: seq<seq<Element>>
    var buffer: array2<Element>
    var writes: nat
    var converted: bool

    ghost predicate Valid()
      reads this
    {
      && base.Valid() && |inputIds| == base.Size() == |matrix|
      && (forall j: nat :: j < |outputs| ==> 0 < outputs[j] <= LIMB)
      && (forall k: nat :: k < base.Size() ==> |matrix[k]| == |outputs|)
      && (forall k: nat, j: nat :: k < base.Size() && j < |outputs| ==> matrix[k][j] == Factor(base, k, outputs[j]))
      && (!converted ==> |inputs| == |inputIds|)
      && (converted ==> inputs == [] && buffer.Length0 == |outputs| && buffer.Length1 == n)
    }

    /** Factor matrix of the base; no source written yet. */
    constructor (base: RnsBase, inputIds: seq<nat>, outputs: seq<nat>, n: nat)
      requires base.Valid() && |inputIds| == base.Size()
      requires forall j: nat :: j < |outputs| ==> 0 < outputs[j] <= LIMB
      ensures Valid() && !converted && writes == 0
      ensures this.base == base && this.inputIds == inputIds && this.outputs == outputs && this.n == n
      ensures forall k: nat :: k < |inputs| ==> inputs[k] == []
    {
      this.base, this.inputIds, this.outputs, this.n := base, inputIds, outputs, n;
      writes, converted := 0, false;
      inputs := seq(|inputIds|, k => []);
      buffer := new Element[0, 0];
      var rows := FactorRows(base, outputs);
      matrix := rows;
    }

    /** Stores a source limb by base id; the last position with that id takes it. Fails on an id that is not a source. */
    method WriteInplace(id: nat, limb: seq<Element>) returns (ok: bool)
      requires Valid() && !converted
      modifies this`inputs, this`writes
      ensures Valid()
      ensures ok <==> id in inputIds
      ensures !ok ==> inputs == old(inputs) && writes == old(writes)
      ensures ok ==> writes == old(writes) + 1
      ensures ok ==> exists k: nat :: Stored(inputIds, id, k) && inputs == old(inputs)[k := limb]
    {
      var index := -1;
      var i: nat := 0;
      while i < |inputIds|
        invariant i <= |inputIds| && -1 <= index < i
        invariant index == -1 ==> id !in inputIds[..i]
        invariant index >= 0 ==> inputIds[index] == id && id !in inputIds[index + 1..i]
      {
        if inputIds[i] == id {
          index := i;
        }
        i := i + 1;
      }
      assert inputIds[..i] == inputIds;
      if index == -1 {
        return false;
      }
      assert inputIds[index + 1..i] == inputIds[index + 1..];
      inputs := inputs[index := limb];
      writes := writes + 1;
      assert Stored(inputIds, id, index);
      return true;
    }

    /** Converts once; later calls leave everything as it is. Sources must have been written, and the tiles must
        cover the coefficients, as they do for ring degrees that are powers of two. */
    method Convert()
      requires Valid() && n > 0 && n % Tile(n) == 0 && base.Size() >= 1
      requires !converted ==> forall k: nat :: k < |inputs| ==> |inputs[k]| == n
      modifies this`buffer, this`inputs, this`converted
      ensures Valid() && converted
      ensures old(converted) ==> buffer == old(buffer)
      ensures !old(converted) ==> fresh(buffer) && forall j: nat, c: nat :: j < |outputs| && c < n ==>
        buffer[j, c] == Target(base, Coefficients(old(inputs), c), outputs[j])
    {
      if converted {
        return;
      }
      var job := Job(inputs, matrix, outputs, n, Tile(n));
      assert HasFactors(job, base);
      hide HasFactors, Job.Valid, Target, Coefficients, Factor, RnsBase.Valid;
      var cells := new Element[|outputs|, n];
      FoldSources(job, base, cells);
      buffer := cells;
      inputs := [];
      converted := true;
    }
  }

  function Tile(n: nat): nat
  {
    if n < 64 then n else 64
  }

  // ----- streaming accumulation

  /** One accumulator cell after one source arrives: everything is reduced first, sums are modular additions. */
  function StreamIn(acc: Word, x: Word, factor: Word, p: Word): Word
    requires p > 0
  {
    ModAdd(acc % p, ModMul(x % p, factor % p, p), p)
  }

  /** Accumulator cell after the sources of `order`, from zero. */
  function Streamed(xs: seq<Word>, factors: seq<Word>, p: Word, order: seq<nat>): Word
    requires p > 0 && |xs| == |factors| && forall t: nat :: t < |order| ==> order[t] < |xs|
  {
    if |order| == 0 then 0
    else
      var last := |order| - 1;
      StreamIn(Streamed(xs, factors, p, order[..last]), xs[order[last]], factors[order[last]], p)
  }

  function Products(xs: seq<int>, factors: seq<int>): nat -> int
    requires |xs| == |factors|
  {
    (k: nat) => if k < |xs| then xs[k] * factors[k] else 0
  }

  function SumOver(f: nat -> int, order: seq<nat>): int
  {
    if |order| == 0 then 0 else SumOver(f, order[..|order| - 1]) + f(order[|order| - 1])
  }

  lemma {:induction false} SumOverAppend(f: nat -> int, s: seq<nat>, t: seq<nat>)
    ensures SumOver(f, s + t) == SumOver(f, s) + SumOver(f, t)
  {
    if |t| == 0 {
      assert s + t == s;
    } else {
      var n := |t| - 1;
      assert (s + t)[..|s| + n] == s + t[..n];
      SumOverAppend(f, s, t[..n]);
    }
  }

  /** Each of 0 to n - 1 exactly once. */
  ghost predicate EachOnce(order: seq<nat>, n: nat)
  {
    && (forall t: nat :: t < |order| ==> order[t] < n)
    && (forall s: nat, t: nat :: s < t < |order| ==> order[s] != order[t])
    && (forall k: nat :: k < n ==> k in order)
  }

  lemma {:induction false} SumAnyOrder(f: nat -> int, order: seq<nat>, n: nat)
    requires EachOnce(order, n)
    ensures SumOver(f, order) == Sum(f, n)
    decreases n
  {
    if n == 0 {
      NothingLeft(order);
    } else {
      var top: nat := n - 1;
      assert top in order;
      var t: nat :| t < |order| && order[t] == top;
      hide EachOnce, SumOver;
      Without(order, n, t);
      SumWithout(f, order, t);
      SumAnyOrder(f, order[..t] + order[t + 1..], n - 1);
    }
  }

  lemma NothingLeft(order: seq<nat>)
    requires EachOnce(order, 0)
    ensures order == []
  {
    hide EachOnce;
    if |order| > 0 {
      HeadBelow(order, 0);
    }
  }

  lemma HeadBelow(order: seq<nat>, n: nat)
    requires EachOnce(order, n) && |order| > 0
    ensures order[0] < n
  {
  }

  lemma SumWithout(f: nat -> int, order: seq<nat>, t: nat)
    requires t < |order|
    ensures SumOver(f, order) == SumOver(f, order[..t] + order[t + 1..]) + f(order[t])
  {
    hide *;
    var left, right, x := order[..t], order[t + 1..], order[t];
    assert order == (left + [x]) + right;
    SumOverOne(f, x);
    SumOverAppend(f, left + [x], right);
    SumOverAppend(f, left, [x]);
    SumOverAppend(f, left, right);
  }

  lemma SumOverOne(f: nat -> int, x: nat)
    ensures SumOver(f, [x]) == f(x)
  {
    assert SumOver(f, [x][..0]) == 0;
  }

  lemma Without(order: seq<nat>, n: nat, t: nat)
    requires EachOnce(order, n) && n > 0 && t < |order| && order[t] == n - 1
    ensures EachOnce(order[..t] + order[t + 1..], n - 1)
  {
    var rest := order[..t] + order[t + 1..];
    forall k: nat | k < n - 1
      ensures k in rest
    {
      assert k in order;
      var s: nat :| s < |order| && order[s] == k;
      assert rest[if s < t then s else s - 1] == k;
    }
    forall s: nat | s < |rest|
      ensures rest[s] < n - 1 && rest[s] == order[if s < t then s else s + 1]
    {
      assert order[if s < t then s else s + 1] != order[t];
    }
  }

  lemma {:induction false} StreamedIsSum(xs: seq<Word>, factors: seq<Word>, p: Word, order: seq<nat>)
    requires 0 < p <= HALF_WORD && |xs| == |factors| && forall t: nat :: t < |order| ==> order[t] < |xs|
    ensures Cong(Streamed(xs, factors, p, order), SumOver(Products(xs, factors), order), p)
    ensures 0 <= Streamed(xs, factors, p, order) < p
  {
    if |order| == 0 {
    } else {
      var last := |order| - 1;
      StreamedIsSum(xs, factors, p, order[..last]);
      StreamInRight(Streamed(xs, factors, p, order[..last]), xs[order[last]], factors[order[last]], p,
                    SumOver(Products(xs, factors), order[..last]));
    }
  }

  lemma StreamInRight(acc: Word, x: Word, factor: Word, p: Word, sum: int)
    requires 0 < p <= HALF_WORD && Cong(acc, sum, p)
    ensures Cong(StreamIn(acc, x, factor, p), sum + x * factor, p)
    ensures 0 <= StreamIn(acc, x, factor, p) < p
  {
    CongMod(x, p);
    CongMod(factor, p);
    CongMod(acc, p);
    CongMul(x % p, x, factor % p, factor, p);
    ModMulCorrect(x % p, factor % p, p);
    CongMod((x % p) * (factor % p), p);
    var w := ModMul(x % p, factor % p, p);
    CongAdd(acc % p, sum, w, x * factor, p);
    SmallMod(acc % p, p);
    SmallMod(w, p);
    ModAddExact(acc % p, w, p);
    CongMod(acc % p + w, p);
  }

  /** Sources streamed in any order, each once, with the factors of the base: the accumulator ends at the same target
      residue that the batch conversion delivers. */
  lemma StreamAgrees(b: RnsBase, xs: seq<Word>, factors: seq<Word>, p: Word, order: seq<nat>)
    requires 0 < p <= HALF_WORD && |xs| == |factors| == b.Size() == |b.inverses| && EachOnce(order, b.Size())
    requires forall k: nat :: k < b.Size() ==> factors[k] == Factor(b, k, p)
    ensures Streamed(xs, factors, p, order) == Target(b, xs, p)
  {
    StreamedIsSum(xs, factors, p, order);
    SumAnyOrder(Products(xs, factors), order, b.Size());
    SumExt(Products(xs, factors), FactorTerm(b, xs, p), b.Size());
    CongCanonical(Streamed(xs, factors, p, order), Sum(FactorTerm(b, xs, p), b.Size()), p);
  }
}

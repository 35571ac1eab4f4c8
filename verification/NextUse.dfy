/** Next-use analysis: one backward walk over the limb instructions marks every operand with its next use, or dead. */
module NextUse {

  datatype Def = Def(limb: nat, output: bool)

  datatype Instr = Instr(srcs: seq<nat>, dests: seq<Def>)

  /** What an operand learns: no later use, the instruction that uses it next, or, for an unused output, none. */
  datatype Mark = Dead | Next(at: nat) | OutputOnly

  predicate Defines(i: Instr, limb: nat)
  {
    exists j :: 0 <= j < |i.dests| && i.dests[j].limb == limb
  }

  // ----- what the walk knows before instruction i, looking ahead

  datatype Look = Nothing | At(i: nat)

  /** First use at or after instruction i, cut off by a definition. */
  function Ahead(stream: seq<Instr>, limb: nat, i: nat): Look
    requires i <= |stream|
    decreases |stream| - i
  {
    if i == |stream| then Nothing
    else if Defines(stream[i], limb) then Nothing
    else if limb in stream[i].srcs then At(i)
    else Ahead(stream, limb, i + 1)
  }

  /** Mark of source operand j of instruction i. */
  function SrcMark(stream: seq<Instr>, i: nat, j: nat): Mark
    requires i < |stream| && j < |stream[i].srcs|
  {
    var limb := stream[i].srcs[j];
    if limb in stream[i].srcs[j + 1..] then Next(i)
    else match Ahead(stream, limb, i + 1) case Nothing => Dead case At(n) => Next(n)
  }

  /** Mark of destination operand j of instruction i. */
  function DestMark(stream: seq<Instr>, i: nat, j: nat): Mark
    requires i < |stream| && j < |stream[i].dests|
  {
    var d := stream[i].dests[j];
    var found :=
      if Defines(Instr([], stream[i].dests[j + 1..]), d.limb) then Nothing
      else if d.limb in stream[i].srcs then At(i)
      else Ahead(stream, d.limb, i + 1);
    match found case At(n) => Next(n) case Nothing => if d.output then OutputOnly else Dead
  }

  // ----- the analysis

  ghost predicate SrcsMarked(stream: seq<Instr>, marks: seq<seq<Mark>>, i: nat)
  {
    && i < |stream| && i < |marks| && |marks[i]| == |stream[i].srcs|
    && forall j: nat :: j < |marks[i]| ==> marks[i][j] == SrcMark(stream, i, j)
  }

  ghost predicate DestsMarked(stream: seq<Instr>, marks: seq<seq<Mark>>, i: nat)
  {
    && i < |stream| && i < |marks| && |marks[i]| == |stream[i].dests|
    && forall j: nat :: j < |marks[i]| ==> marks[i][j] == DestMark(stream, i, j)
  }

  ghost predicate MapRight(nextUse: map<nat, nat>, stream: seq<Instr>, i: nat)
    requires i <= |stream|
  {
    forall limb: nat :: Knows(nextUse, limb, Ahead(stream, limb, i))
  }

  ghost predicate Knows(nextUse: map<nat, nat>, limb: nat, look: Look)
  {
    match look case Nothing => limb !in nextUse case At(n) => limb in nextUse && nextUse[limb] == n
  }

  /** What is known after the sources from j on have been walked. */
  function AheadOfSrcs(stream: seq<Instr>, limb: nat, i: nat, j: nat): Look
    requires i < |stream| && j <= |stream[i].srcs|
  {
    if limb in stream[i].srcs[j..] then At(i) else Ahead(stream, limb, i + 1)
  }

  /** And after the destinations from j on. */
  function AheadOfDests(stream: seq<Instr>, limb: nat, i: nat, j: nat): Look
    requires i < |stream| && j <= |stream[i].dests|
  {
    if Defines(Instr([], stream[i].dests[j..]), limb) then Nothing else AheadOfSrcs(stream, limb, i, 0)
  }

  ghost predicate SrcsKnown(nextUse: map<nat, nat>, stream: seq<Instr>, i: nat, j: nat)
    requires i < |stream| && j <= |stream[i].srcs|
  {
    forall limb: nat :: Knows(nextUse, limb, AheadOfSrcs(stream, limb, i, j))
  }

  ghost predicate DestsKnown(nextUse: map<nat, nat>, stream: seq<Instr>, i: nat, j: nat)
    requires i < |stream| && j <= |stream[i].dests|
  {
    forall limb: nat :: Knows(nextUse, limb, AheadOfDests(stream, limb, i, j))
  }

  method MarkSrcs(stream: seq<Instr>, i: nat, nextUse0: map<nat, nat>) returns (marks: seq<Mark>, nextUse: map<nat, nat>)
    requires i < |stream| && MapRight(nextUse0, stream, i + 1)
    ensures |marks| == |stream[i].srcs| && forall j: nat :: j < |marks| ==> marks[j] == SrcMark(stream, i, j)
    ensures SrcsKnown(nextUse, stream, i, 0)
  {
    var srcs := stream[i].srcs;
    marks, nextUse := seq(|srcs|, j => Dead), nextUse0;
    var j: nat := |srcs|;
    while j > 0
      invariant j <= |srcs| == |marks|
      invariant forall k: nat :: j <= k < |srcs| ==> marks[k] == SrcMark(stream, i, k)
      invariant SrcsKnown(nextUse, stream, i, j)
    {
      hide SrcsKnown, SrcMark;
      j := j - 1;
      var key := srcs[j];
      SrcStep(nextUse, stream, i, j);
      marks := marks[j := if key !in nextUse then Dead else Next(nextUse[key])];
      nextUse := nextUse[key := i];
    }
  }

  lemma SrcStep(nextUse: map<nat, nat>, stream: seq<Instr>, i: nat, j: nat)
    requires i < |stream| && j < |stream[i].srcs| && SrcsKnown(nextUse, stream, i, j + 1)
    ensures var key := stream[i].srcs[j];
      && SrcMark(stream, i, j) == (if key !in nextUse then Dead else Next(nextUse[key]))
      && SrcsKnown(nextUse[key := i], stream, i, j)
  {
    var srcs, key := stream[i].srcs, stream[i].srcs[j];
    assert Knows(nextUse, key, AheadOfSrcs(stream, key, i, j + 1));
    assert srcs[j..] == [key] + srcs[j + 1..];
    forall limb: nat
      ensures Knows(nextUse[key := i], limb, AheadOfSrcs(stream, limb, i, j))
    {
      assert Knows(nextUse, limb, AheadOfSrcs(stream, limb, i, j + 1));
      hide Ahead;
    }
  }

  method MarkDests(stream: seq<Instr>, i: nat, nextUse0: map<nat, nat>) returns (marks: seq<Mark>, nextUse: map<nat, nat>)
    requires i < |stream| && SrcsKnown(nextUse0, stream, i, 0)
    ensures |marks| == |stream[i].dests| && forall j: nat :: j < |marks| ==> marks[j] == DestMark(stream, i, j)
    ensures DestsKnown(nextUse, stream, i, 0)
  {
    var dests := stream[i].dests;
    marks, nextUse := seq(|dests|, j => Dead), nextUse0;
    NoDestYet(nextUse, stream, i);
    var j: nat := |dests|;
    while j > 0
      invariant j <= |dests| == |marks|
      invariant forall k: nat :: j <= k < |dests| ==> marks[k] == DestMark(stream, i, k)
      invariant DestsKnown(nextUse, stream, i, j)
    {
      hide DestsKnown, DestMark;
      j := j - 1;
      var key := dests[j].limb;
      DestStep(nextUse, stream, i, j);
      if key !in nextUse {
        marks := marks[j := if dests[j].output then OutputOnly else Dead];
      } else {
        marks := marks[j := Next(nextUse[key])];
        nextUse := nextUse - {key};
      }
    }
  }

  lemma NoDestYet(nextUse: map<nat, nat>, stream: seq<Instr>, i: nat)
    requires i < |stream| && SrcsKnown(nextUse, stream, i, 0)
    ensures DestsKnown(nextUse, stream, i, |stream[i].dests|)
  {
    forall limb: nat
      ensures Knows(nextUse, limb, AheadOfDests(stream, limb, i, |stream[i].dests|))
    {
      assert Knows(nextUse, limb, AheadOfSrcs(stream, limb, i, 0));
      hide Ahead;
    }
  }

  lemma DestStep(nextUse: map<nat, nat>, stream: seq<Instr>, i: nat, j: nat)
    requires i < |stream| && j < |stream[i].dests| && DestsKnown(nextUse, stream, i, j + 1)
    ensures var d := stream[i].dests[j];
      DestMark(stream, i, j) == if d.limb in nextUse then Next(nextUse[d.limb]) else if d.output then OutputOnly else Dead
    ensures DestsKnown(nextUse - {stream[i].dests[j].limb}, stream, i, j)
  {
    var dests, key := stream[i].dests, stream[i].dests[j].limb;
    assert stream[i].srcs[0..] == stream[i].srcs;
    assert Knows(nextUse, key, AheadOfDests(stream, key, i, j + 1));
    forall limb: nat
      ensures Knows(nextUse - {key}, limb, AheadOfDests(stream, limb, i, j))
    {
      assert Knows(nextUse, limb, AheadOfDests(stream, limb, i, j + 1));
      DefinesMore(dests, j, limb);
      hide AheadOfSrcs, Defines;
    }
  }

  lemma DefinesMore(dests: seq<Def>, j: nat, limb: nat)
    requires j < |dests|
    ensures Defines(Instr([], dests[j..]), limb) <==> dests[j].limb == limb || Defines(Instr([], dests[j + 1..]), limb)
  {
    if Defines(Instr([], dests[j + 1..]), limb) {
      var k :| 0 <= k < |dests[j + 1..]| && dests[j + 1..][k].limb == limb;
      assert dests[j..][k + 1].limb == limb;
    }
    assert dests[j..][0] == dests[j];
  }

  /** The whole walk, from the last instruction to the first. */
  method Analyse(stream: seq<Instr>) returns (srcMarks: seq<seq<Mark>>, destMarks: seq<seq<Mark>>)
    ensures |srcMarks| == |destMarks| == |stream|
    ensures forall i: nat :: i < |stream| ==> SrcsMarked(stream, srcMarks, i) && DestsMarked(stream, destMarks, i)
  {
    srcMarks, destMarks := seq(|stream|, i => []), seq(|stream|, i => []);
    var nextUse: map<nat, nat> := map[];
    var i: nat := |stream|;
    while i > 0
      invariant i <= |stream| == |srcMarks| == |destMarks|
      invariant MapRight(nextUse, stream, i)
      invariant forall k: nat :: i <= k < |stream| ==> SrcsMarked(stream, srcMarks, k) && DestsMarked(stream, destMarks, k)
    {
      hide MapRight, SrcMark, DestMark, SrcsKnown, DestsKnown;
      i := i - 1;
      var srcs, dests: seq<Mark>;
      srcs, nextUse := MarkSrcs(stream, i, nextUse);
      dests, nextUse := MarkDests(stream, i, nextUse);
      ghost var srcsWere, destsWere := srcMarks, destMarks;
      srcMarks := srcMarks[i := srcs];
      destMarks := destMarks[i := dests];
      forall k: nat | i < k < |stream|
        ensures SrcsMarked(stream, srcMarks, k) && DestsMarked(stream, destMarks, k)
      {
        assert SrcsMarked(stream, srcsWere, k) && DestsMarked(stream, destsWere, k);
      }
      assert SrcsMarked(stream, srcMarks, i) && DestsMarked(stream, destMarks, i);
      InstrWalked(stream, i, nextUse);
    }
  }

  lemma InstrWalked(stream: seq<Instr>, i: nat, nextUse: map<nat, nat>)
    requires i < |stream| && DestsKnown(nextUse, stream, i, 0)
    ensures MapRight(nextUse, stream, i)
  {
    assert stream[i].dests[0..] == stream[i].dests && stream[i].srcs[0..] == stream[i].srcs;
    forall limb: nat
      ensures Knows(nextUse, limb, Ahead(stream, limb, i))
    {
      assert Knows(nextUse, limb, AheadOfDests(stream, limb, i, 0));
    }
  }

  // ----- what the marks mean on a stream in single-assignment form

  ghost predicate DefinedAt(stream: seq<Instr>, limb: nat, i: nat)
  {
    i < |stream| && Defines(stream[i], limb)
  }

  ghost predicate UsedAt(stream: seq<Instr>, limb: nat, i: nat)
  {
    i < |stream| && limb in stream[i].srcs
  }

  /** Every limb is defined at most once, and only used after that. */
  ghost predicate SingleAssignment(stream: seq<Instr>)
  {
    && (forall limb: nat, i: nat, k: nat :: DefinedAt(stream, limb, i) && DefinedAt(stream, limb, k) ==> i == k)
    && (forall limb: nat, i: nat, k: nat :: DefinedAt(stream, limb, i) && UsedAt(stream, limb, k) ==> i < k)
    && (forall i: nat :: i < |stream| ==> DistinctDests(stream[i].dests))
  }

  ghost predicate DistinctDests(dests: seq<Def>)
  {
    forall j: nat, k: nat :: j < k < |dests| ==> dests[j].limb != dests[k].limb
  }

  /** n is the first use of the limb at or after instruction i. */
  ghost predicate FirstUse(stream: seq<Instr>, limb: nat, i: nat, n: nat)
  {
    i <= n && UsedAt(stream, limb, n) && forall k: nat :: i <= k < n ==> !UsedAt(stream, limb, k)
  }

  ghost predicate Unused(stream: seq<Instr>, limb: nat, i: nat)
  {
    forall k: nat :: k >= i ==> !UsedAt(stream, limb, k)
  }

  /** Without a definition ahead, the walk looks at the first use ahead. */
  lemma {:induction false} AheadIsFirstUse(stream: seq<Instr>, limb: nat, i: nat)
    requires i <= |stream| && forall k: nat :: k >= i ==> !DefinedAt(stream, limb, k)
    ensures match Ahead(stream, limb, i) case At(n) => FirstUse(stream, limb, i, n) case Nothing => Unused(stream, limb, i)
    decreases |stream| - i
  {
    if i < |stream| {
      assert !DefinedAt(stream, limb, i);
      if limb !in stream[i].srcs {
        AheadIsFirstUse(stream, limb, i + 1);
        assert !UsedAt(stream, limb, i);
      } else {
        assert UsedAt(stream, limb, i);
      }
    }
  }

  /** The next use of a source operand is the next occurrence of its limb, in operand order; it is dead exactly when
      there is none, and then the limb is never read again. */
  lemma SrcMarkMeans(stream: seq<Instr>, i: nat, j: nat)
    requires SingleAssignment(stream) && i < |stream| && j < |stream[i].srcs|
    ensures var limb, later := stream[i].srcs[j], stream[i].srcs[j] in stream[i].srcs[j + 1..];
      match SrcMark(stream, i, j)
      case Next(n) => if later then n == i else FirstUse(stream, limb, i + 1, n)
      case Dead => !later && Unused(stream, limb, i + 1)
      case OutputOnly => false
  {
    var limb := stream[i].srcs[j];
    assert UsedAt(stream, limb, i);
    AheadIsFirstUse(stream, limb, i + 1);
  }

  /** The next use of a destination is the first use of its limb; without one it is dead unless it is an output. */
  lemma DestMarkMeans(stream: seq<Instr>, i: nat, j: nat)
    requires SingleAssignment(stream) && i < |stream| && j < |stream[i].dests|
    ensures var d := stream[i].dests[j];
      match DestMark(stream, i, j)
      case Next(n) => FirstUse(stream, d.limb, i + 1, n)
      case Dead => !d.output && Unused(stream, d.limb, 0)
      case OutputOnly => d.output && Unused(stream, d.limb, 0)
  {
    var d := stream[i].dests[j];
    assert DefinedAt(stream, d.limb, i);
    assert !UsedAt(stream, d.limb, i);
    NotTwice(stream[i].dests, j);
    AheadIsFirstUse(stream, d.limb, i + 1);
  }

  lemma NotTwice(dests: seq<Def>, j: nat)
    requires DistinctDests(dests) && j < |dests|
    ensures !Defines(Instr([], dests[j + 1..]), dests[j].limb)
  {
    var rest := dests[j + 1..];
    forall k: nat | k < |rest|
      ensures rest[k].limb != dests[j].limb
    {
      assert rest[k] == dests[j + 1 + k];
    }
  }

  // ----- dead marks are unique

  /** Dead marks that the first n source operands of instruction i put on a limb. */
  function DeadSrcs(stream: seq<Instr>, limb: nat, i: nat, n: nat): nat
    requires i < |stream| && n <= |stream[i].srcs|
  {
    if n == 0 then 0
    else DeadSrcs(stream, limb, i, n - 1) + if stream[i].srcs[n - 1] == limb && SrcMark(stream, i, n - 1).Dead? then 1 else 0
  }

  function DeadDests(stream: seq<Instr>, limb: nat, i: nat, n: nat): nat
    requires i < |stream| && n <= |stream[i].dests|
  {
    if n == 0 then 0
    else DeadDests(stream, limb, i, n - 1) + if stream[i].dests[n - 1].limb == limb && DestMark(stream, i, n - 1).Dead? then 1 else 0
  }

  /** Dead marks on a limb from instruction i on. */
  function DeadFrom(stream: seq<Instr>, limb: nat, i: nat): nat
    requires i <= |stream|
    decreases |stream| - i
  {
    if i == |stream| then 0
    else DeadSrcs(stream, limb, i, |stream[i].srcs|) + DeadDests(stream, limb, i, |stream[i].dests|) + DeadFrom(stream, limb, i + 1)
  }

  /** Among the sources of one instruction only the last occurrence can be dead, and it is when no use is ahead. */
  lemma {:induction false} DeadSrcsCount(stream: seq<Instr>, limb: nat, i: nat, n: nat)
    requires i < |stream| && n <= |stream[i].srcs|
    ensures DeadSrcs(stream, limb, i, n) ==
      if limb in stream[i].srcs[..n] && limb !in stream[i].srcs[n..] && Ahead(stream, limb, i + 1).Nothing? then 1 else 0
  {
    if n > 0 {
      DeadSrcsCount(stream, limb, i, n - 1);
      MemberSplit(stream[i].srcs, limb, n);
      hide Ahead;
    }
  }

  lemma MemberSplit(srcs: seq<nat>, x: nat, n: nat)
    requires 0 < n <= |srcs|
    ensures x in srcs[..n] <==> x in srcs[..n - 1] || x == srcs[n - 1]
    ensures x in srcs[n - 1..] <==> x == srcs[n - 1] || x in srcs[n..]
  {
    assert srcs[..n] == srcs[..n - 1] + [srcs[n - 1]];
    assert srcs[n - 1..] == [srcs[n - 1]] + srcs[n..];
  }

  lemma {:induction false} DeadDestsNone(stream: seq<Instr>, limb: nat, i: nat, n: nat)
    requires i < |stream| && n <= |stream[i].dests|
    requires forall j: nat :: j < n && stream[i].dests[j].limb == limb ==> !DestMark(stream, i, j).Dead?
    ensures DeadDests(stream, limb, i, n) == 0
  {
    if n > 0 {
      DeadDestsNone(stream, limb, i, n - 1);
    }
  }

  lemma {:induction false} DeadDestsOne(stream: seq<Instr>, limb: nat, i: nat, j: nat, n: nat)
    requires i < |stream| && j < n <= |stream[i].dests| && stream[i].dests[j].limb == limb && DistinctDests(stream[i].dests)
    ensures DeadDests(stream, limb, i, n) == if DestMark(stream, i, j).Dead? then 1 else 0
  {
    if j == n - 1 {
      DeadDestsNone(stream, limb, i, j);
    } else {
      DeadDestsOne(stream, limb, i, j, n - 1);
    }
  }

  ghost predicate Read(stream: seq<Instr>, limb: nat, i: nat)
  {
    exists k: nat :: k >= i && UsedAt(stream, limb, k)
  }

  ghost predicate DefinedInner(stream: seq<Instr>, limb: nat, i: nat)
  {
    exists k: nat, j: nat :: DefinesInner(stream, limb, k, j) && k >= i
  }

  /** Destination j of instruction k defines the limb, and it is no output. */
  ghost predicate DefinesInner(stream: seq<Instr>, limb: nat, k: nat, j: nat)
  {
    k < |stream| && j < |stream[k].dests| && stream[k].dests[j].limb == limb && !stream[k].dests[j].output
  }

  /** From instruction i on, a limb gets exactly one dead mark if it is read or defined as no output there, else none. */
  lemma {:induction false} DeadOnce(stream: seq<Instr>, limb: nat, i: nat)
    requires SingleAssignment(stream) && i <= |stream|
    ensures DeadFrom(stream, limb, i) == if Read(stream, limb, i) || DefinedInner(stream, limb, i) then 1 else 0
    decreases |stream| - i
  {
    if i < |stream| {
      DeadOnce(stream, limb, i + 1);
      hide DeadFrom, SingleAssignment, Ahead;
      if UsedAt(stream, limb, i) {
        DeadAtUse(stream, limb, i);
      } else if DefinedAt(stream, limb, i) {
        DeadAtDef(stream, limb, i);
      } else {
        DeadElsewhere(stream, limb, i);
      }
    }
  }

  lemma InnerDefines(stream: seq<Instr>, limb: nat, k: nat, j: nat)
    ensures DefinesInner(stream, limb, k, j) ==> DefinedAt(stream, limb, k)
  {
  }

  lemma DestDefines(stream: seq<Instr>, i: nat, j: nat)
    requires i < |stream| && j < |stream[i].dests|
    ensures DefinedAt(stream, stream[i].dests[j].limb, i)
  {
  }

  lemma DeadAtUse(stream: seq<Instr>, limb: nat, i: nat)
    requires SingleAssignment(stream) && UsedAt(stream, limb, i)
    ensures Read(stream, limb, i) && !DefinedInner(stream, limb, i + 1)
    ensures DeadFrom(stream, limb, i) == (if Read(stream, limb, i + 1) then 0 else 1) + DeadFrom(stream, limb, i + 1)
  {
    var srcs := stream[i].srcs;
    forall k: nat | k >= i
      ensures !DefinedAt(stream, limb, k)
    {
    }
    AheadIsFirstUse(stream, limb, i + 1);
    assert srcs[..|srcs|] == srcs && srcs[|srcs|..] == [];
    DeadSrcsCount(stream, limb, i, |srcs|);
    forall k: nat, j: nat | k >= i
      ensures !DefinesInner(stream, limb, k, j)
    {
      InnerDefines(stream, limb, k, j);
    }
    forall j: nat | j < |stream[i].dests|
      ensures stream[i].dests[j].limb != limb
    {
      DestDefines(stream, i, j);
    }
    DeadDestsNone(stream, limb, i, |stream[i].dests|);
    hide Ahead, SrcMark, DestMark, SingleAssignment;
  }

  lemma DeadAtDef(stream: seq<Instr>, limb: nat, i: nat)
    requires SingleAssignment(stream) && DefinedAt(stream, limb, i) && !UsedAt(stream, limb, i)
    ensures !DefinedInner(stream, limb, i + 1) && (Read(stream, limb, i) <==> Read(stream, limb, i + 1))
    ensures DeadFrom(stream, limb, i)
         == (if !Read(stream, limb, i) && DefinedInner(stream, limb, i) then 1 else 0) + DeadFrom(stream, limb, i + 1)
  {
    var srcs, dests := stream[i].srcs, stream[i].dests;
    assert srcs[..|srcs|] == srcs && srcs[|srcs|..] == [];
    DeadSrcsCount(stream, limb, i, |srcs|);
    var j: nat :| j < |dests| && dests[j].limb == limb;
    DestMarkMeans(stream, i, j);
    DeadDestsOne(stream, limb, i, j, |dests|);
    forall k: nat, l: nat | DefinesInner(stream, limb, k, l)
      ensures k == i && l == j
    {
      assert DefinedAt(stream, limb, k);
      assert DistinctDests(dests);
    }
    assert DefinesInner(stream, limb, i, j) <==> !dests[j].output;
    hide Ahead, SrcMark, DestMark, SingleAssignment, DeadSrcs, DeadDests;
  }

  lemma DeadElsewhere(stream: seq<Instr>, limb: nat, i: nat)
    requires i < |stream| && !UsedAt(stream, limb, i) && !DefinedAt(stream, limb, i)
    ensures Read(stream, limb, i) <==> Read(stream, limb, i + 1)
    ensures DefinedInner(stream, limb, i) <==> DefinedInner(stream, limb, i + 1)
    ensures DeadFrom(stream, limb, i) == DeadFrom(stream, limb, i + 1)
  {
    var srcs := stream[i].srcs;
    assert srcs[..|srcs|] == srcs && srcs[|srcs|..] == [];
    DeadSrcsCount(stream, limb, i, |srcs|);
    DeadDestsNone(stream, limb, i, |stream[i].dests|);
    if DefinedInner(stream, limb, i) {
      var k: nat, j: nat :| DefinesInner(stream, limb, k, j) && k >= i;
      InnerDefines(stream, limb, k, j);
    }
    hide Ahead, SrcMark, DestMark, DeadSrcs, DeadDests;
  }

  /** Each limb that is read, or defined as no output, is marked dead exactly once; any other never. */
  lemma DeadExactlyOnce(stream: seq<Instr>, limb: nat)
    requires SingleAssignment(stream)
    ensures DeadFrom(stream, limb, 0) == if Read(stream, limb, 0) || DefinedInner(stream, limb, 0) then 1 else 0
  {
    DeadOnce(stream, limb, 0);
  }
}

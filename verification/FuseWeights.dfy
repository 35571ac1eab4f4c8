/** One reading in which everything is positive: every input and every other operation gives 1, in one slot. Pulling a
    rotation out of an addition makes that addition, and everything that adds it up, strictly smaller. */
module FuseWeights {
  import opened TermGraph
  import opened KeyswitchPasses
  import opened AdditionTrees
  import opened FuseAggregation
  import opened FuseReadings

  // ----- kinds

  /** A term that reads as a single vector. */
  ghost predicate Scalar(g: Graph, x: nat)
  {
    x in g && !g[x].op.HoistInpBroadcast?
  }

  ghost predicate Scalars(g: Graph, t: Term, count: nat)
  {
    |t.operands| == count && forall x: nat :: x in t.operands ==> Scalar(g, x)
  }

  /** Operand counts and kinds that fit the operation. */
  ghost predicate TypedTerm(g: Graph, t: Term)
  {
    match t.op
    case Add => Scalars(g, t, 2)
    case RotateLeft(_) => Scalars(g, t, 1)
    case RotateRight(_) => Scalars(g, t, 1)
    case RotAcc(amounts) => |amounts| > 0 && Scalars(g, t, |amounts|)
    case HoistInpBroadcast(_) => Scalars(g, t, 1)
    case TermInVec(i) =>
      |t.operands| == 1 && t.operands[0] in g && g[t.operands[0]].op.HoistInpBroadcast? && i < |g[t.operands[0]].op.amounts|
    case Receive(_, _) => Scalars(g, t, 1)
    case _ => true
  }

  ghost predicate Typed(g: Graph)
  {
    forall t: nat :: t in g ==> TypedTerm(g, g[t])
  }

  predicate IsLeaf(op: Op)
  {
    op.Input? || op.Other? || op.Nop?
  }

  lemma TypedCounts(g: Graph)
    requires Typed(g)
    ensures OneOperandRotates(g) && TwoOperandAdds(g)
    ensures forall t: nat :: t in g && !IsLeaf(g[t].op) ==> |g[t].operands| > 0
  {
    forall t: nat | t in g
      ensures (IsRotate(g[t].op) ==> |g[t].operands| == 1) && (g[t].op.Add? ==> |g[t].operands| == 2)
      ensures !IsLeaf(g[t].op) ==> |g[t].operands| > 0
    {
      assert TypedTerm(g, g[t]);
    }
  }

  // ----- weights

  ghost predicate OperandsIn(g: Graph, rank: map<nat, nat>, bound: nat, operands: seq<nat>)
    requires Ranked(g, rank)
  {
    forall x: nat :: x in operands ==> x in g && rank[x] < bound
  }

  /** Leaves weigh 1, everything else as much as its operands together. */
  ghost function Weight(g: Graph, rank: map<nat, nat>, t: nat): nat
    requires Ranked(g, rank) && t in g
    decreases rank[t], |g[t].operands| + 1
  {
    if IsLeaf(g[t].op) then 1
    else
      OperandsBelow(g, rank, t);
      WeightSum(g, rank, rank[t], g[t].operands)
  }

  ghost function WeightSum(g: Graph, rank: map<nat, nat>, bound: nat, operands: seq<nat>): nat
    requires Ranked(g, rank) && OperandsIn(g, rank, bound, operands)
    decreases bound, |operands|
  {
    if |operands| == 0 then 0
    else
      var last := |operands| - 1;
      assert operands[last] in operands;
      WeightSum(g, rank, bound, operands[..last]) + Weight(g, rank, operands[last])
  }

  lemma OperandsBelow(g: Graph, rank: map<nat, nat>, t: nat)
    requires Ranked(g, rank) && t in g
    ensures OperandsIn(g, rank, rank[t], g[t].operands)
  {
    assert t in rank;
    forall x: nat | x in g[t].operands
      ensures x in g && rank[x] < rank[t]
    {
      OperandBelow(g, rank, t, x);
    }
  }

  ghost predicate Fed(g: Graph)
  {
    forall t: nat :: t in g && !IsLeaf(g[t].op) ==> |g[t].operands| > 0
  }

  lemma {:induction false} WeightPositive(g: Graph, rank: map<nat, nat>, t: nat)
    requires Ranked(g, rank) && Fed(g) && t in g
    ensures Weight(g, rank, t) >= 1
    decreases rank[t]
  {
    if !IsLeaf(g[t].op) {
      OperandsBelow(g, rank, t);
      var last := |g[t].operands| - 1;
      var x := g[t].operands[last];
      assert x in g[t].operands;
      OperandBelow(g, rank, t, x);
      WeightPositive(g, rank, x);
    }
  }

  // ----- weights and values

  /** The reading: one slot, everything 1. */
  function Ones(): Reading
  {
    Reading((t: nat) => [1], (t: nat) => ((vs: seq<Val>) => One([1])))
  }

  ghost function ValueOf(g: Graph, rank: map<nat, nat>, t: nat): Val
    requires Ranked(g, rank) && t in g
  {
    var w := Weight(g, rank, t);
    match g[t].op
    case HoistInpBroadcast(amounts) => Many(seq(|amounts|, i => [w]))
    case _ => One([w])
  }

  ghost function Values(g: Graph, rank: map<nat, nat>): Valuation
    requires Ranked(g, rank)
  {
    map t | t in g :: ValueOf(g, rank, t)
  }

  lemma OneSlot(w: int, k: int)
    ensures Rotated([w], k, 1) == [w]
  {
    assert |Rotated([w], k, 1)| == 1;
    assert Rotated([w], k, 1)[0] == At([w], (0 + k) % 1);
    NoRemainder(0 + k);
    assert At([w], 0) == w;
  }

  lemma NoRemainder(k: int)
    ensures k % 1 == 0
  {
  }

  lemma ScalarValue(g: Graph, rank: map<nat, nat>, x: nat)
    requires Ranked(g, rank) && Scalar(g, x)
    ensures x in Values(g, rank) && Values(g, rank)[x] == One([Weight(g, rank, x)]) && VecOf(Values(g, rank), x) == [Weight(g, rank, x)]
  {
    hide Ranked, Weight;
  }

  lemma {:induction false} RotSumWeight(g: Graph, rank: map<nat, nat>, bound: nat, operands: seq<nat>, amounts: seq<int>)
    requires Ranked(g, rank) && OperandsIn(g, rank, bound, operands) && |amounts| == |operands|
    requires forall x: nat :: x in operands ==> Scalar(g, x)
    ensures RotSum(operands, amounts, Values(g, rank), 1) == [WeightSum(g, rank, bound, operands)]
  {
    hide Ranked, Weight, Values, Rotated;
    if |operands| > 0 {
      var last := |operands| - 1;
      assert operands[last] in operands;
      RotSumWeight(g, rank, bound, operands[..last], amounts[..last]);
      ScalarValue(g, rank, operands[last]);
      OneSlot(Weight(g, rank, operands[last]), amounts[last]);
    }
  }

  /** The weights are the values of this reading. */
  lemma ValuesRight(g: Graph, rank: map<nat, nat>)
    requires Ranked(g, rank) && Typed(g)
    ensures Consistent(Reread(g, Ones()), Values(g, rank), 1)
  {
    var r, val := Reread(g, Ones()), Values(g, rank);
    hide Ranked, Typed, Weight, Reread, Values, TermRight;
    ValuesKeys(g, rank);
    forall t: nat | t in r
      ensures TermRight(r[t], val[t], val, 1)
    {
      ValueRight(g, rank, t);
    }
    MakeConsistent(r, val, 1);
  }

  lemma ValuesKeys(g: Graph, rank: map<nat, nat>)
    requires Ranked(g, rank)
    ensures Values(g, rank).Keys == g.Keys
  {
  }

  lemma ValueRight(g: Graph, rank: map<nat, nat>, t: nat)
    requires Ranked(g, rank) && Typed(g) && t in g
    ensures RightHere(g, rank, t)
  {
    hide *;
    var op := g[t].op;
    RightCases(g, t);
    if IsLeaf(op) {
      LeafRight(g, rank, t);
    } else if op.Add? {
      AddRight(g, rank, t);
    } else if IsRotate(op) {
      TurnRight(g, rank, t);
    } else if op.RotAcc? {
      SumRight(g, rank, t);
    } else if op.HoistInpBroadcast? {
      HoistRight(g, rank, t);
    } else if op.TermInVec? {
      ExtractRight(g, rank, t);
    } else {
      ReceiveRight(g, rank, t);
    }
  }

  lemma RightCases(g: Graph, t: nat)
    requires t in g && Typed(g)
    ensures TypedTerm(g, g[t])
    ensures IsLeaf(g[t].op) || g[t].op.Add? || IsRotate(g[t].op) || g[t].op.RotAcc? || g[t].op.HoistInpBroadcast? || g[t].op.TermInVec?
         || g[t].op.Receive?
  {
    hide TypedTerm;
  }

  ghost predicate RightHere(g: Graph, rank: map<nat, nat>, t: nat)
    requires Ranked(g, rank)
  {
    t in g && t in Values(g, rank) && TermRight(Reread(g, Ones())[t], Values(g, rank)[t], Values(g, rank), 1)
  }

  lemma OperandsValued(g: Graph, rank: map<nat, nat>, t: nat)
    requires Ranked(g, rank) && t in g
    ensures OperandsKnown(g[t], Values(g, rank)) && t in Values(g, rank) && Values(g, rank)[t] == ValueOf(g, rank, t)
  {
    OperandsBelow(g, rank, t);
    hide Weight, Ranked;
    ValuesKeys(g, rank);
    forall j: nat | j < |g[t].operands|
      ensures g[t].operands[j] in Values(g, rank)
    {
      assert g[t].operands[j] in g[t].operands;
    }
  }

  lemma LeafRight(g: Graph, rank: map<nat, nat>, t: nat)
    requires Ranked(g, rank) && t in g && IsLeaf(g[t].op)
    ensures RightHere(g, rank, t)
  {
    OperandsValued(g, rank, t);
    hide Ranked, Values, RotSum, Rotated, Plus, OperandsKnown;
  }

  lemma AddRight(g: Graph, rank: map<nat, nat>, t: nat)
    requires Ranked(g, rank) && t in g && g[t].op.Add? && TypedTerm(g, g[t])
    ensures RightHere(g, rank, t)
  {
    hide Ranked, Values, RotSum, Rotated, Plus, OperandsKnown, Weight;
    OperandsValued(g, rank, t);
    AddValue(g, rank, t);
  }

  lemma TurnRight(g: Graph, rank: map<nat, nat>, t: nat)
    requires Ranked(g, rank) && t in g && IsRotate(g[t].op) && TypedTerm(g, g[t])
    ensures RightHere(g, rank, t)
  {
    hide Ranked, Values, RotSum, Rotated, Plus, OperandsKnown, Weight;
    OperandsValued(g, rank, t);
    OneOperand(g, rank, t);
    var k := if g[t].op.RotateLeft? then g[t].op.k else -g[t].op.k;
    OneSlot(Weight(g, rank, g[t].operands[0]), k);
  }

  lemma SumRight(g: Graph, rank: map<nat, nat>, t: nat)
    requires Ranked(g, rank) && t in g && g[t].op.RotAcc? && TypedTerm(g, g[t])
    ensures RightHere(g, rank, t)
  {
    OperandsBelow(g, rank, t);
    UnfoldSum(g, rank, t);
    hide Ranked, Values, RotSum, Rotated, Plus, OperandsKnown, Weight, WeightSum;
    OperandsValued(g, rank, t);
    RotSumWeight(g, rank, rank[t], g[t].operands, g[t].op.amounts);
    AllScalar(g, rank, t);
  }

  lemma UnfoldSum(g: Graph, rank: map<nat, nat>, t: nat)
    requires Ranked(g, rank) && t in g && !IsLeaf(g[t].op)
    ensures OperandsIn(g, rank, rank[t], g[t].operands) && Weight(g, rank, t) == WeightSum(g, rank, rank[t], g[t].operands)
  {
    OperandsBelow(g, rank, t);
  }

  lemma HoistRight(g: Graph, rank: map<nat, nat>, t: nat)
    requires Ranked(g, rank) && t in g && g[t].op.HoistInpBroadcast? && TypedTerm(g, g[t])
    ensures RightHere(g, rank, t)
  {
    hide Ranked, Values, RotSum, Rotated, Plus, OperandsKnown, Weight;
    OperandsValued(g, rank, t);
    OneOperand(g, rank, t);
    HoistValue(Weight(g, rank, t), g[t].op.amounts);
  }

  lemma ExtractRight(g: Graph, rank: map<nat, nat>, t: nat)
    requires Ranked(g, rank) && t in g && g[t].op.TermInVec? && TypedTerm(g, g[t])
    ensures RightHere(g, rank, t)
  {
    hide Ranked, Values, RotSum, Rotated, Plus, OperandsKnown, Weight;
    OperandsValued(g, rank, t);
    ExtractValue(g, rank, t);
  }

  lemma ReceiveRight(g: Graph, rank: map<nat, nat>, t: nat)
    requires Ranked(g, rank) && t in g && g[t].op.Receive? && TypedTerm(g, g[t])
    ensures RightHere(g, rank, t)
  {
    hide Ranked, Values, RotSum, Rotated, Plus, OperandsKnown, Weight;
    OperandsValued(g, rank, t);
    OneOperand(g, rank, t);
  }

  lemma OneOperand(g: Graph, rank: map<nat, nat>, t: nat)
    requires Ranked(g, rank) && t in g && !IsLeaf(g[t].op) && Scalars(g, g[t], 1)
    ensures var x := g[t].operands[0];
      && x in g && Weight(g, rank, t) == Weight(g, rank, x)
      && x in Values(g, rank) && Values(g, rank)[x] == One([Weight(g, rank, x)]) && VecOf(Values(g, rank), x) == [Weight(g, rank, x)]
  {
    var x := g[t].operands[0];
    assert x in g[t].operands;
    OperandsBelow(g, rank, t);
    hide Ranked, Values;
    ScalarValue(g, rank, x);
    assert WeightSum(g, rank, rank[t], g[t].operands[..0]) == 0;
  }

  lemma AddValue(g: Graph, rank: map<nat, nat>, t: nat)
    requires Ranked(g, rank) && t in g && g[t].op.Add? && Scalars(g, g[t], 2)
    ensures |g[t].operands| == 2
    ensures var x, y, val := g[t].operands[0], g[t].operands[1], Values(g, rank);
      && x in val && y in val && val[x].One? && val[y].One? && [Weight(g, rank, t)] == Plus(VecOf(val, x), VecOf(val, y), 1)
  {
    hide *;
    AddWeight(g, rank, t);
    var x, y := g[t].operands[0], g[t].operands[1];
    ScalarValue(g, rank, x);
    ScalarValue(g, rank, y);
    PlusOne(Weight(g, rank, x), Weight(g, rank, y));
  }

  lemma PlusOne(a: int, b: int)
    ensures Plus([a], [b], 1) == [a + b]
  {
  }

  lemma AddWeight(g: Graph, rank: map<nat, nat>, t: nat)
    requires Ranked(g, rank) && t in g && g[t].op.Add? && Scalars(g, g[t], 2)
    ensures |g[t].operands| == 2
    ensures var x, y := g[t].operands[0], g[t].operands[1];
      Scalar(g, x) && Scalar(g, y) && x in g && y in g && Weight(g, rank, t) == Weight(g, rank, x) + Weight(g, rank, y)
  {
    hide Ranked, Weight;
    TwoWeights(g, rank, t);
  }

  lemma TwoWeights(g: Graph, rank: map<nat, nat>, t: nat)
    requires Ranked(g, rank) && t in g && g[t].op.Add? && |g[t].operands| == 2
    ensures var x, y := g[t].operands[0], g[t].operands[1];
      x in g && y in g && Weight(g, rank, t) == Weight(g, rank, x) + Weight(g, rank, y)
  {
    var operands := g[t].operands;
    assert operands[0] in operands && operands[1] in operands;
    OperandsBelow(g, rank, t);
    assert operands[..1] == [operands[0]];
    OneWeight(g, rank, rank[t], operands[0]);
    hide Ranked;
    assert Weight(g, rank, t) == WeightSum(g, rank, rank[t], operands);
  }

  lemma OneWeight(g: Graph, rank: map<nat, nat>, bound: nat, x: nat)
    requires Ranked(g, rank) && x in g && OperandsIn(g, rank, bound, [x])
    ensures WeightSum(g, rank, bound, [x]) == Weight(g, rank, x)
  {
    hide Ranked;
    assert [x][..0] == [];
  }

  lemma AllScalar(g: Graph, rank: map<nat, nat>, t: nat)
    requires Ranked(g, rank) && t in g && Scalars(g, g[t], |g[t].operands|)
    ensures Single(g[t], Values(g, rank), |g[t].operands|)
  {
    hide Ranked, Values;
    forall j: nat | j < |g[t].operands|
      ensures g[t].operands[j] in Values(g, rank) && Values(g, rank)[g[t].operands[j]].One?
    {
      assert g[t].operands[j] in g[t].operands;
      ScalarValue(g, rank, g[t].operands[j]);
    }
  }

  lemma HoistValue(w: int, amounts: seq<int>)
    ensures Many(seq(|amounts|, i => [w])) == Many(Rotations([w], amounts, 1))
  {
    forall i: nat | i < |amounts|
      ensures Rotations([w], amounts, 1)[i] == [w]
    {
      OneSlot(w, amounts[i]);
    }
    assert seq(|amounts|, i => [w]) == Rotations([w], amounts, 1);
  }

  lemma ExtractValue(g: Graph, rank: map<nat, nat>, t: nat)
    requires Ranked(g, rank) && t in g && g[t].op.TermInVec? && TypedTerm(g, g[t])
    ensures var y, i, val := g[t].operands[0], g[t].op.index, Values(g, rank);
      y in val && val[y].Many? && i < |val[y].vs| && val[y].vs[i] == [Weight(g, rank, t)]
  {
    var y := g[t].operands[0];
    assert y in g[t].operands;
    OperandsBelow(g, rank, t);
    hide Ranked;
    assert WeightSum(g, rank, rank[t], g[t].operands[..0]) == 0;
    assert Values(g, rank)[y] == ValueOf(g, rank, y);
  }
}

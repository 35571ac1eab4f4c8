/** The term graph of the frontend as an abstract DAG: operations with operand lists, and valuations that make every
    term right. On an acyclic graph there is at most one, so rewrites that extend valuations preserve meaning. */
module TermGraph {

  type Vec = seq<int>

  datatype Val = One(v: Vec) | Many(vs: seq<Vec>)

  datatype Op =
    | Input(v: Vec)
    | Add
    | RotateLeft(k: int)
    | RotateRight(k: int)
    | RotAcc(amounts: seq<int>)
    | HoistInpBroadcast(amounts: seq<int>)
    | TermInVec(index: nat)
    | Receive(size: nat, partition: nat)
    | Nop
    | Other(f: seq<Val> -> Val)

  datatype Term = Term(op: Op, operands: seq<nat>)

  type Graph = map<nat, Term>

  type Valuation = map<nat, Val>

  // ----- vectors

  function At(v: Vec, i: int): int
  {
    if 0 <= i < |v| then v[i] else 0
  }

  function Plus(a: Vec, b: Vec, n: nat): Vec
  {
    seq(n, i => At(a, i) + At(b, i))
  }

  function Minus(a: Vec, b: Vec, n: nat): Vec
  {
    seq(n, i => At(a, i) - At(b, i))
  }

  /** Cyclic rotation of the n slots to the left. */
  function Rotated(v: Vec, k: int, n: nat): Vec
  {
    seq(n, i => if n == 0 then 0 else At(v, (i + k) % n))
  }

  lemma RotatedByZero(v: Vec, n: nat)
    requires |v| == n
    ensures Rotated(v, 0, n) == v
  {
    forall i: nat | i < n
      ensures Rotated(v, 0, n)[i] == v[i]
    {
      SmallIndex(i, n);
    }
  }

  lemma SmallIndex(i: nat, n: nat)
    requires i < n
    ensures (i + 0) % n == i
  {
  }

  // ----- meaning

  ghost predicate VecsOk(x: Val, n: nat)
  {
    match x case One(v) => |v| == n case Many(vs) => forall i: nat :: i < |vs| ==> |vs[i]| == n
  }

  function Zero(n: nat): Vec
  {
    seq(n, i => 0)
  }

  /** Sum of rotated operands. */
  ghost function RotSum(operands: seq<nat>, amounts: seq<int>, val: Valuation, n: nat): (r: Vec)
    requires |amounts| == |operands|
    ensures |r| == n
  {
    if |operands| == 0 then Zero(n)
    else
      var last := |operands| - 1;
      Plus(RotSum(operands[..last], amounts[..last], val, n), Rotated(VecOf(val, operands[last]), amounts[last], n), n)
  }

  function VecOf(val: Valuation, t: nat): Vec
  {
    if t in val && val[t].One? then val[t].v else []
  }

  /** All rotations of one vector. */
  function Rotations(v: Vec, amounts: seq<int>, n: nat): (r: seq<Vec>)
    ensures |r| == |amounts| && forall i: nat :: i < |r| ==> r[i] == Rotated(v, amounts[i], n) && |r[i]| == n
  {
    seq(|amounts|, i requires 0 <= i < |amounts| => Rotated(v, amounts[i], n))
  }

  function ValuesOf(operands: seq<nat>, val: Valuation): (r: seq<Val>)
    ensures |r| == |operands|
  {
    seq(|operands|, j requires 0 <= j < |operands| => if operands[j] in val then val[operands[j]] else One([]))
  }

  ghost predicate OperandsKnown(t: Term, val: Valuation)
  {
    forall j: nat :: j < |t.operands| ==> t.operands[j] in val
  }

  ghost predicate Single(t: Term, val: Valuation, count: nat)
  {
    |t.operands| == count && forall j: nat :: j < count ==> t.operands[j] in val && val[t.operands[j]].One?
  }

  /** The value of a term agrees with its operation on the values of its operands. */
  ghost predicate TermRight(t: Term, own: Val, val: Valuation, n: nat)
  {
    && VecsOk(own, n) && OperandsKnown(t, val)
    && match t.op
       case Input(v) => own == One(v)
       case Add => Single(t, val, 2) && own == One(Plus(VecOf(val, t.operands[0]), VecOf(val, t.operands[1]), n))
       case RotateLeft(k) => Single(t, val, 1) && own == One(Rotated(VecOf(val, t.operands[0]), k, n))
       case RotateRight(k) => Single(t, val, 1) && own == One(Rotated(VecOf(val, t.operands[0]), -k, n))
       case RotAcc(amounts) => Single(t, val, |amounts|) && own == One(RotSum(t.operands, amounts, val, n))
       case HoistInpBroadcast(amounts) =>
         Single(t, val, 1) && own == Many(Rotations(VecOf(val, t.operands[0]), amounts, n))
       case TermInVec(i) => |t.operands| == 1 && val[t.operands[0]].Many? && i < |val[t.operands[0]].vs| && own == One(val[t.operands[0]].vs[i])
       case Receive(_, _) => |t.operands| == 1 && own == val[t.operands[0]]
       case Nop => true
       case Other(f) => own == f(ValuesOf(t.operands, val))
  }

  /** A valuation of the whole graph. Dropped terms carry no meaning. */
  ghost predicate Consistent(g: Graph, val: Valuation, n: nat)
  {
    && val.Keys == g.Keys
    && forall t: nat :: t in g ==> TermRight(g[t], val[t], val, n)
  }

  ghost predicate Ranked(g: Graph, rank: map<nat, nat>)
  {
    && g.Keys <= rank.Keys
    && forall t: nat, j: nat :: Uses(g, t, j) ==> g[t].operands[j] in g && rank[g[t].operands[j]] < rank[t]
  }

  ghost predicate Uses(g: Graph, t: nat, j: nat)
  {
    t in g && j < |g[t].operands|
  }

  /** Only operand values matter. */
  lemma {:induction false} RotSumExt(operands: seq<nat>, amounts: seq<int>, val: Valuation, other: Valuation, n: nat)
    requires |amounts| == |operands| && forall j: nat :: j < |operands| ==> VecOf(val, operands[j]) == VecOf(other, operands[j])
    ensures RotSum(operands, amounts, val, n) == RotSum(operands, amounts, other, n)
  {
    if |operands| > 0 {
      var last := |operands| - 1;
      RotSumExt(operands[..last], amounts[..last], val, other, n);
    }
  }

  lemma TermRightExt(t: Term, own: Val, val: Valuation, other: Valuation, n: nat)
    requires TermRight(t, own, val, n)
    requires forall j: nat :: j < |t.operands| ==> t.operands[j] in other && other[t.operands[j]] == val[t.operands[j]]
    ensures TermRight(t, own, other, n)
  {
    match t.op
    case RotAcc(amounts) => RotSumExt(t.operands, amounts, val, other, n);
    case Other(f) =>
      assert ValuesOf(t.operands, val) == ValuesOf(t.operands, other);
    case _ =>
  }

  // ----- dropped terms

  ghost predicate Live(g: Graph, t: nat)
  {
    t in g && !g[t].op.Nop?
  }

  /** No live term reads a dropped one. */
  ghost predicate Clean(g: Graph)
  {
    forall t: nat, x: nat :: Live(g, t) && x in g[t].operands ==> Live(g, x)
  }

  /** On an acyclic graph whose live terms read live terms only, every live term has at most one value. */
  lemma {:induction false} ValueUnique(g: Graph, rank: map<nat, nat>, val: Valuation, other: Valuation, n: nat, t: nat)
    requires Ranked(g, rank) && Clean(g) && Consistent(g, val, n) && Consistent(g, other, n) && Live(g, t)
    ensures val[t] == other[t]
    decreases rank[t]
  {
    forall j: nat | j < |g[t].operands|
      ensures val[g[t].operands[j]] == other[g[t].operands[j]]
    {
      assert Uses(g, t, j);
      assert g[t].operands[j] in g[t].operands;
      ValueUnique(g, rank, val, other, n, g[t].operands[j]);
    }
    SameRight(g[t], val[t], other[t], val, other, n);
  }

  // ----- rewrites

  ghost predicate Agree(h: Graph, changed: set<nat>, val: Valuation, after: Valuation)
  {
    forall t: nat :: Live(h, t) && t !in changed && t in val ==> t in after && after[t] == val[t]
  }

  /** Whatever values g and h have, they agree on the live terms of h that did not change. */
  ghost predicate SameMeaning(g: Graph, h: Graph, changed: set<nat>)
  {
    forall val: Valuation, after: Valuation, n: nat :: Consistent(g, val, n) && Consistent(h, after, n) ==> Agree(h, changed, val, after)
  }

  ghost predicate Outside(changed: set<nat>, val: Valuation, after: Valuation)
  {
    after.Keys == val.Keys && forall t: nat :: t in val && t !in changed ==> after[t] == val[t]
  }

  ghost predicate SameFor(h: Graph, changed: set<nat>, val: Valuation, n: nat)
  {
    exists after: Valuation :: Consistent(h, after, n) && Outside(changed, val, after)
  }

  /** Every valuation of g has one of h that agrees with it on the terms that did not change. */
  ghost predicate SameOutside(g: Graph, h: Graph, changed: set<nat>)
  {
    h.Keys == g.Keys && forall val: Valuation, n: nat :: Consistent(g, val, n) ==> SameFor(h, changed, val, n)
  }

  /** On acyclic graphs without reads of dropped terms, some agreeing valuation means that all agree. */
  lemma MeaningKept(g: Graph, h: Graph, rank: map<nat, nat>, changed: set<nat>)
    requires SameOutside(g, h, changed) && Ranked(h, rank) && Clean(h)
    ensures SameMeaning(g, h, changed)
  {
    hide Consistent, Ranked, Clean, Live;
    forall val: Valuation, after: Valuation, n: nat | Consistent(g, val, n) && Consistent(h, after, n)
      ensures Agree(h, changed, val, after)
    {
      assert SameFor(h, changed, val, n);
      var same: Valuation :| Consistent(h, same, n) && Outside(changed, val, same);
      AgreeWith(h, rank, changed, val, same, after, n);
    }
  }

  lemma AgreeWith(h: Graph, rank: map<nat, nat>, changed: set<nat>, val: Valuation, same: Valuation, after: Valuation, n: nat)
    requires Ranked(h, rank) && Clean(h) && Consistent(h, same, n) && Consistent(h, after, n) && Outside(changed, val, same)
    ensures Agree(h, changed, val, after)
  {
    KeysOf(h, after, n);
    hide Consistent, Ranked, Clean;
    forall t: nat | Live(h, t) && t !in changed && t in val
      ensures t in after && after[t] == val[t]
    {
      ValueUnique(h, rank, same, after, n, t);
    }
  }

  lemma KeysOf(g: Graph, val: Valuation, n: nat)
    requires Consistent(g, val, n)
    ensures val.Keys == g.Keys
  {
  }

  lemma SameRight(t: Term, own: Val, its: Val, val: Valuation, other: Valuation, n: nat)
    requires TermRight(t, own, val, n) && TermRight(t, its, other, n) && (t.op.Nop? ==> own == its)
    requires forall j: nat :: j < |t.operands| ==> val[t.operands[j]] == other[t.operands[j]]
    ensures own == its
  {
    match t.op
    case RotAcc(amounts) => RotSumExt(t.operands, amounts, val, other, n);
    case Other(f) =>
      assert ValuesOf(t.operands, val) == ValuesOf(t.operands, other);
    case _ =>
  }
}

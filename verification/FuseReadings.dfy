/** Fusing looks only at additions, rotations and who reads what: it commutes with giving inputs and other operations
    another meaning. So under the condition it keeps values for all of them. */
module FuseReadings {
  import opened TermGraph
  import opened KeyswitchPasses
  import opened AdditionTrees
  import opened PullRotations
  import opened FuseWalk
  import opened FuseAggregation
  import opened FusePass
  import opened FuseMeaning
  import opened FuseCondition

  /** What the inputs hold, and what the operations that the pass does not know compute. */
  datatype Reading = Reading(input: nat -> Vec, other: nat -> (seq<Val> -> Val))

  function ReadOp(op: Op, t: nat, m: Reading): Op
  {
    match op
    case Input(_) => Input(m.input(t))
    case Other(_) => Other(m.other(t))
    case _ => op
  }

  /** The graph with other contents and meanings. */
  function Reread(g: Graph, m: Reading): (r: Graph)
    ensures r.Keys == g.Keys
  {
    map t | t in g :: Term(ReadOp(g[t].op, t, m), g[t].operands)
  }

  lemma ReadKeepsOp(op: Op, t: nat, m: Reading)
    ensures var r := ReadOp(op, t, m);
      && (r.Add? <==> op.Add?) && (r.Nop? <==> op.Nop?) && (IsRotate(r) <==> IsRotate(op)) && Amount(r) == Amount(op)
      && (r.Receive? <==> op.Receive?) && (op.RotAcc? ==> r == op) && (r.RotAcc? ==> r == op)
  {
  }

  // ----- the same structure

  lemma RereadSole(g: Graph, m: Reading, x: nat, t: nat)
    ensures SoleUser(Reread(g, m), x, t) <==> SoleUser(g, x, t)
  {
    var r := Reread(g, m);
    assert forall s: nat :: s in g ==> r[s].operands == g[s].operands;
    hide Reread;
  }

  lemma RereadRotate(g: Graph, m: Reading, x: nat)
    ensures SingleUse(Reread(g, m), x) <==> SingleUse(g, x)
    ensures SingleUseRotate(Reread(g, m), x) <==> SingleUseRotate(g, x)
  {
    forall t: nat
      ensures SoleUser(Reread(g, m), x, t) <==> SoleUser(g, x, t)
    {
      RereadSole(g, m, x, t);
    }
    if x in g {
      ReadKeepsOp(g[x].op, x, m);
    }
    hide SoleUser;
  }

  lemma RereadUser(g: Graph, m: Reading, x: nat)
    requires SingleUse(g, x)
    ensures SingleUse(Reread(g, m), x) && UserOf(Reread(g, m), x) == UserOf(g, x)
  {
    RereadRotate(g, m, x);
    RereadSole(g, m, x, UserOf(g, x));
    SoleUnique(Reread(g, m), x, UserOf(g, x), UserOf(Reread(g, m), x));
  }

  lemma RereadShape(g: Graph, m: Reading, rank: map<nat, nat>)
    ensures Ranked(g, rank) ==> Ranked(Reread(g, m), rank)
    ensures OneOperandRotates(g) ==> OneOperandRotates(Reread(g, m))
    ensures TwoOperandAdds(g) ==> TwoOperandAdds(Reread(g, m))
    ensures Clean(g) ==> Clean(Reread(g, m))
    ensures forall t: nat :: Live(Reread(g, m), t) <==> Live(g, t)
  {
    var r := Reread(g, m);
    forall t: nat | t in g
      ensures r[t].operands == g[t].operands && (r[t].op.Add? <==> g[t].op.Add?) && (r[t].op.Nop? <==> g[t].op.Nop?)
      ensures IsRotate(r[t].op) <==> IsRotate(g[t].op)
    {
      ReadKeepsOp(g[t].op, t, m);
    }
    hide Reread;
    if Ranked(g, rank) {
      forall t: nat, j: nat | Uses(r, t, j)
        ensures r[t].operands[j] in r && rank[r[t].operands[j]] < rank[t]
      {
        assert Uses(g, t, j);
      }
    }
    if Clean(g) {
      forall t: nat, x: nat | Live(r, t) && x in r[t].operands
        ensures Live(r, x)
      {
        assert Live(g, t) && Live(g, x);
      }
    }
  }

  lemma RereadInner(g: Graph, m: Reading, root: nat, tree: set<nat>, a: nat)
    requires InnerUsed(g, root, tree, a)
    ensures InnerUsed(Reread(g, m), root, tree, a)
  {
    var t: nat :| Inner(root, tree, t) && SoleUser(g, a, t);
    RereadSole(g, m, a, t);
  }

  lemma RereadTree(g: Graph, m: Reading, root: nat, tree: set<nat>, cold: set<nat>)
    requires IsTree(g, root, tree, cold)
    ensures IsTree(Reread(g, m), root, tree, cold)
  {
    var r := Reread(g, m);
    hide SingleUse, SoleUser, InnerUsed;
    forall t: nat | t in g
      ensures r[t].operands == g[t].operands && (r[t].op.Add? <==> g[t].op.Add?)
    {
      ReadKeepsOp(g[t].op, t, m);
    }
    hide Reread;
    forall a: nat | a in tree
      ensures a in r && r[a].op.Add? && |r[a].operands| == 2 && InnerUsed(r, root, tree, a)
    {
      RereadInner(g, m, root, tree, a);
    }
    forall t: nat, x: nat | Inner(root, tree, t) && t in r && x in r[t].operands
      ensures Covered(r, tree, cold, x)
    {
      assert Covered(g, tree, cold, x);
    }
    forall t: nat, x: nat | t in cold && t in r && x in r[t].operands
      ensures Cold(r, cold, x)
    {
      assert Cold(g, cold, x);
      RereadRotate(g, m, x);
    }
    MakeTree(r, root, tree, cold);
  }

  // ----- the same walk

  lemma RereadReplace(g: Graph, m: Reading, a: nat, b: nat)
    ensures ReplaceAllUses(Reread(g, m), a, b) == Reread(ReplaceAllUses(g, a, b), m)
  {
    hide Redirect;
  }

  lemma RereadTake(g: Graph, m: Reading, root: nat, x: nat)
    requires root in g && x in g
    ensures Take(Reread(g, m), root, x) == Reread(Take(g, root, x), m)
  {
    RereadRotate(g, m, x);
    if SingleUseRotate(g, x) {
      RereadUser(g, m, x);
      var use := UserOf(g, x);
      if use == root {
        RereadMoved(g, m, root, x);
      } else {
        RereadPulled(g, m, root, use, x, OtherOf(g[use].operands, x));
      }
    }
    hide SingleUse, Moved, Pulled;
  }

  lemma RereadMoved(g: Graph, m: Reading, root: nat, x: nat)
    requires root in g
    ensures Moved(Reread(g, m), root, x) == Reread(Moved(g, root, x), m)
  {
    hide Erase;
  }

  lemma RereadPulled(g: Graph, m: Reading, root: nat, u: nat, r: nat, other: nat)
    requires root in g && u in g
    ensures Pulled(Reread(g, m), root, u, r, other) == Reread(Pulled(g, root, u, r, other), m)
  {
    var operands := g[root].operands + [r];
    var before := g[root := Term(RotAcc(Zeros(|operands|)), operands)][u := Term(Nop, [])];
    assert Reread(g, m)[root := Term(RotAcc(Zeros(|operands|)), operands)][u := Term(Nop, [])] == Reread(before, m);
    RereadReplace(before, m, u, other);
    hide ReplaceAllUses, Reread;
  }

  lemma RereadPushed(g: Graph, m: Reading, x: nat)
    requires x in g
    ensures x in Reread(g, m) && Pushed(Reread(g, m), x) == Pushed(g, x)
  {
    ReadKeepsOp(g[x].op, x, m);
  }

  lemma {:induction false} RereadWalk(g: Graph, m: Reading, root: nat, visited: set<nat>, checklist: seq<nat>)
    requires root in g
    ensures WalkFrom(Reread(g, m), root, visited, checklist) == Reread(WalkFrom(g, root, visited, checklist), m)
    decreases g.Keys - visited, |checklist|
  {
    hide Take, Reread, Pushed;
    if |checklist| > 0 {
      var last := |checklist| - 1;
      var x := checklist[last];
      if x in visited || x !in g {
        RereadWalk(g, m, root, visited, checklist[..last]);
      } else {
        RereadTake(g, m, root, x);
        RereadPushed(g, m, x);
        RereadWalk(Take(g, root, x), m, root, visited + {x}, checklist[..last] + Pushed(g, x));
      }
    }
  }

  lemma RereadFinishedRoot(g: Graph, m: Reading, operands: seq<nat>)
    ensures FinishedOperands(Reread(g, m), operands) == FinishedOperands(g, operands)
    ensures FinishedAmounts(Reread(g, m), operands) == FinishedAmounts(g, operands)
  {
    forall k: nat | k < |operands|
      ensures FinishedOperands(Reread(g, m), operands)[k] == FinishedOperands(g, operands)[k]
      ensures FinishedAmounts(Reread(g, m), operands)[k] == FinishedAmounts(g, operands)[k]
    {
      RereadRotate(g, m, operands[k]);
      if operands[k] in g {
        ReadKeepsOp(g[operands[k]].op, operands[k], m);
      }
      hide SingleUse;
    }
  }

  lemma RereadFinished(g: Graph, m: Reading, root: nat)
    requires root in g
    ensures Finished(Reread(g, m), root) == Reread(Finished(g, root), m)
  {
    RereadFinishedRoot(g, m, g[root].operands);
    hide FinishedOperands, FinishedAmounts;
    forall t: nat | t in g
      ensures Finished(Reread(g, m), root)[t] == Reread(Finished(g, root), m)[t]
    {
      RereadRotate(g, m, t);
      hide SingleUseRotate;
    }
  }

  /** Fusing commutes with rereading. */
  lemma RereadFuse(g: Graph, m: Reading, root: nat)
    requires root in g
    ensures root in Reread(g, m) && (Acts(Reread(g, m), root) <==> Acts(g, root))
    ensures FuseResult(Reread(g, m), root) == Reread(FuseResult(g, root), m)
  {
    var r := Reread(g, m);
    ReadKeepsOp(g[root].op, root, m);
    forall x: nat
      ensures SingleUseRotate(r, x) <==> SingleUseRotate(g, x)
    {
      RereadRotate(g, m, x);
    }
    assert Started(r, root) == Reread(Started(g, root), m);
    RereadWalk(Started(g, root), m, root, {}, g[root].operands);
    RereadFinished(Walked(g, root), m, root);
    hide SingleUseRotate, Finished, WalkFrom;
  }

  // ----- keeping values for all readings

  /** Terms whose values the pass has to keep: all live ones but the additions of the tree and the rotations it absorbs. */
  ghost predicate ToKeep(g: Graph, rank: map<nat, nat>, root: nat, t: nat)
    requires Ranked(g, rank) && root in g
  {
    Live(g, t) && t !in TreeOf(g, rank, root) && !(SingleUseRotate(g, t) && Met(g, rank, root, t))
  }

  ghost predicate AllKept(g: Graph, h: Graph, rank: map<nat, nat>, root: nat, val: Valuation, after: Valuation)
    requires Ranked(g, rank) && root in g
  {
    forall t: nat :: ToKeep(g, rank, root, t) ==> Live(h, t) && t in val && t in after && after[t] == val[t]
  }

  /** For all inputs, and whatever the other operations compute. */
  ghost predicate KeepsAll(g: Graph, h: Graph, rank: map<nat, nat>, root: nat)
    requires Ranked(g, rank) && root in g
  {
    forall m: Reading, val: Valuation, after: Valuation, n: nat ::
      Consistent(Reread(g, m), val, n) && Consistent(Reread(h, m), after, n) ==> AllKept(g, h, rank, root, val, after)
  }

  /** What has to be kept stays live. */
  lemma KeptLive(g: Graph, rank: map<nat, nat>, root: nat, t: nat)
    requires Ranked(g, rank) && OneOperandRotates(g) && TwoOperandAdds(g) && root in g && Acts(g, root) && Fits(g, rank, root)
    requires ToKeep(g, rank, root, t)
    ensures Live(FuseResult(g, root), t)
  {
    hide *;
    FitsTree(g, rank, root);
    TreeResult(g, rank, root, TreeOf(g, rank, root), ColdOf(g, rank, root));
    WalkedInside(g, rank, root);
    ResultIs(g, root);
    WalkedIs(g, root);
    StartedKeys(g, root);
    AbsorbOps(Walked(g, root), root);
    FinishedRootLive(Walked(g, root), root);
    NotDropped(g, Walked(g, root), rank, root, t);
  }

  lemma FinishedRootLive(g: Graph, root: nat)
    requires root in g
    ensures Live(Finished(g, root), root)
  {
    hide FinishedOperands, FinishedAmounts, SingleUseRotate;
  }

  lemma NotDropped(g: Graph, w: Graph, rank: map<nat, nat>, root: nat, t: nat)
    requires Ranked(g, rank) && root in g && ToKeep(g, rank, root, t) && root in w
    requires OpsKept(g, w, root, TreeOf(g, rank, root)) && Inside(g, w, rank, root, {})
    requires Finished(w, root).Keys == w.Keys && Live(Finished(w, root), root)
    requires forall x: nat :: x in w && x != root ==>
      Finished(w, root)[x].op == if x in w[root].operands && SingleUseRotate(w, x) then Nop else w[x].op
    ensures Live(Finished(w, root), t)
  {
    hide Finished, TreeOf, SingleUseRotate, Met, Ranked, Reaches;
    assert InWalk(g, rank, root, root);
    if t in w[root].operands {
      assert Met(g, rank, root, t);
    }
  }

  /** Under the condition the pass keeps all these values, for all readings. */
  lemma FitsKeeps(g: Graph, rank: map<nat, nat>, root: nat)
    requires Ranked(g, rank) && OneOperandRotates(g) && TwoOperandAdds(g) && Clean(g) && root in g && Acts(g, root) && Fits(g, rank, root)
    ensures KeepsAll(g, FuseResult(g, root), rank, root)
  {
    hide *;
    var h := FuseResult(g, root);
    FitsTree(g, rank, root);
    forall m: Reading, val: Valuation, after: Valuation, n: nat | Consistent(Reread(g, m), val, n) && Consistent(Reread(h, m), after, n)
      ensures AllKept(g, h, rank, root, val, after)
    {
      ReadingKept(g, rank, root, m, val, after, n);
    }
    MakeKeeps(g, h, rank, root);
  }

  lemma MakeKeeps(g: Graph, h: Graph, rank: map<nat, nat>, root: nat)
    requires Ranked(g, rank) && root in g
    requires forall m: Reading, val: Valuation, after: Valuation, n: nat ::
      Consistent(Reread(g, m), val, n) && Consistent(Reread(h, m), after, n) ==> AllKept(g, h, rank, root, val, after)
    ensures KeepsAll(g, h, rank, root)
  {
    hide AllKept, Reread, Consistent, Ranked;
  }

  lemma ReadingKept(g: Graph, rank: map<nat, nat>, root: nat, m: Reading, val: Valuation, after: Valuation, n: nat)
    requires Ranked(g, rank) && OneOperandRotates(g) && TwoOperandAdds(g) && Clean(g) && root in g && Acts(g, root) && Fits(g, rank, root)
    requires Consistent(Reread(g, m), val, n) && Consistent(Reread(FuseResult(g, root), m), after, n)
    ensures AllKept(g, FuseResult(g, root), rank, root, val, after)
  {
    hide *;
    var h, tree, cold := FuseResult(g, root), TreeOf(g, rank, root), ColdOf(g, rank, root);
    FitsTree(g, rank, root);
    RereadShape(g, m, rank);
    RereadShape(h, m, rank);
    RereadTree(g, m, root, tree, cold);
    RereadFuse(g, m, root);
    TreeResult(Reread(g, m), rank, root, tree, cold);
    MeaningOf(Reread(g, m), Reread(h, m), tree, val, after, n);
    KeysOf(Reread(g, m), val, n);
    forall t: nat | ToKeep(g, rank, root, t)
      ensures Live(h, t) && t in val && t in after && after[t] == val[t]
    {
      KeptLive(g, rank, root, t);
      KeepFacts(g, rank, root, t);
      AgreeAt(Reread(h, m), tree, val, after, t);
    }
    MakeAllKept(g, h, rank, root, val, after);
  }

  lemma MakeAllKept(g: Graph, h: Graph, rank: map<nat, nat>, root: nat, val: Valuation, after: Valuation)
    requires Ranked(g, rank) && root in g
    requires forall t: nat :: ToKeep(g, rank, root, t) ==> Live(h, t) && t in val && t in after && after[t] == val[t]
    ensures AllKept(g, h, rank, root, val, after)
  {
    hide Ranked, ToKeep, Live;
  }

  lemma MeaningOf(g: Graph, h: Graph, changed: set<nat>, val: Valuation, after: Valuation, n: nat)
    requires SameMeaning(g, h, changed) && Consistent(g, val, n) && Consistent(h, after, n)
    ensures Agree(h, changed, val, after)
  {
    hide Agree, Consistent;
  }

  lemma AgreeAt(h: Graph, changed: set<nat>, val: Valuation, after: Valuation, t: nat)
    requires Agree(h, changed, val, after) && Live(h, t) && t !in changed && t in val
    ensures t in after && after[t] == val[t]
  {
  }

  lemma KeepFacts(g: Graph, rank: map<nat, nat>, root: nat, t: nat)
    requires Ranked(g, rank) && root in g && ToKeep(g, rank, root, t)
    ensures t in g && Live(g, t) && t !in TreeOf(g, rank, root)
  {
    hide Ranked, TreeOf, Met, SingleUseRotate;
  }
}

/** One step of fusing additions: a rotation with a single use leaves the addition that uses it and joins the root, and
    the other operand takes the place of that addition. */
module PullRotations {
  import opened TermGraph
  import opened KeyswitchPasses
  import opened AdditionTrees

  // ----- what a rewrite of the tree keeps

  lemma SameOutsideTrans(g: Graph, h: Graph, k: Graph, tree: set<nat>, less: set<nat>)
    requires SameOutside(g, h, tree) && SameOutside(h, k, less) && less <= tree
    ensures SameOutside(g, k, tree)
  {
    hide Consistent;
    forall val: Valuation, n: nat | Consistent(g, val, n)
      ensures SameFor(k, tree, val, n)
    {
      assert SameFor(h, tree, val, n);
      var mid: Valuation :| Consistent(h, mid, n) && Outside(tree, val, mid);
      assert SameFor(k, less, mid, n);
      var after: Valuation :| Consistent(k, after, n) && Outside(less, mid, after);
      assert Outside(tree, val, after);
    }
  }

  // ----- pulling

  ghost predicate PairOf(operands: seq<nat>, r: nat, other: nat)
  {
    r != other && (operands == [r, other] || operands == [other, r])
  }

  /** The root takes r, the addition u loses its operands, its users take the other operand, and u is dropped. */
  function Pulled(g: Graph, root: nat, u: nat, r: nat, other: nat): Graph
    requires root in g
  {
    var operands := g[root].operands + [r];
    ReplaceAllUses(g[root := Term(RotAcc(Zeros(|operands|)), operands)][u := Term(Nop, [])], u, other)
  }

  /** What pulling needs: an addition u with operands r and other. */
  ghost predicate Pullable(g: Graph, root: nat, u: nat, r: nat, other: nat)
  {
    root in g && u in g && u != root && g[u].op.Add? && PairOf(g[u].operands, r, other) && r != u && other != u
  }

  lemma PulledTerm(g: Graph, root: nat, u: nat, r: nat, other: nat, t: nat)
    requires Pullable(g, root, u, r, other) && t in g
    ensures t == u ==> Pulled(g, root, u, r, other)[t] == Term(Nop, [])
    ensures t == root ==>
      Pulled(g, root, u, r, other)[t] == Term(RotAcc(Zeros(|g[root].operands| + 1)), Redirect(g[root].operands, u, other) + [r])
    ensures t != u && t != root ==> Pulled(g, root, u, r, other)[t] == Term(g[t].op, Redirect(g[t].operands, u, other))
  {
    assert Redirect(g[root].operands + [r], u, other) == Redirect(g[root].operands, u, other) + [r];
    assert Redirect([], u, other) == [];
  }

  lemma TakenBack(a: Vec, b: Vec, n: nat)
    requires |a| == |b| == n
    ensures Minus(Plus(a, b, n), a, n) == b && Minus(Plus(b, a, n), a, n) == b && Plus(Minus(a, b, n), b, n) == a
  {
  }

  lemma AdditionSplits(g: Graph, u: nat, r: nat, other: nat, val: Valuation, n: nat)
    requires Consistent(g, val, n) && u in g && g[u].op.Add? && PairOf(g[u].operands, r, other)
    ensures IsVec(val, u, n) && IsVec(val, r, n) && IsVec(val, other, n)
    ensures Minus(VecOf(val, u), VecOf(val, r), n) == VecOf(val, other)
  {
    assert TermRight(g[u], val[u], val, n);
    assert forall x :: x in g[u].operands ==> x == r || x == other;
    assert TermRight(g[r], val[r], val, n) && TermRight(g[other], val[other], val, n);
    TakenBack(VecOf(val, r), VecOf(val, other), n);
  }

  lemma CollectedSum(g: Graph, root: nat, val: Valuation, n: nat) returns (sum: Vec)
    requires Consistent(g, val, n) && Collecting(g, root)
    ensures RootSum(g, root, val, n, sum) && |sum| == n && val[root] == One(sum)
  {
    var operands := g[root].operands;
    assert TermRight(g[root], val[root], val, n);
    sum := PlainSum(operands, val, n);
    forall j: nat | j < |operands|
      ensures operands[j] in val && val[operands[j]].One? && |val[operands[j]].v| == n
    {
      assert TermRight(g[operands[j]], val[operands[j]], val, n);
    }
    RotSumPlain(operands, val, n);
  }

  lemma StartsRight(g: Graph, rank: map<nat, nat>, root: nat, x: nat, val: Valuation, n: nat)
    requires Consistent(g, val, n) && Ranked(g, rank) && x in g
    ensures val.Keys == g.Keys && RightAbove(g, rank, root, x, val, n)
  {
  }

  /** Pulling keeps every value outside the tree. */
  lemma PullKeeps(g: Graph, rank: map<nat, nat>, top: nat, root: nat, tree: set<nat>, cold: set<nat>, u: nat, r: nat, other: nat,
                  val: Valuation, n: nat)
    requires Bounded(g, rank, top) && IsTree(g, root, tree, cold) && Collecting(g, root) && Consistent(g, val, n)
    requires Pullable(g, root, u, r, other) && u in tree
    ensures SameFor(Pulled(g, root, u, r, other), tree, val, n)
  {
    hide *;
    var sum := CollectedSum(g, root, val, n);
    PullFacts(g, rank, top, root, tree, cold, u, r, other);
    AdditionSplits(g, u, r, other, val, n);
    StartsRight(g, rank, root, u, val, n);
    var d := VecOf(val, r);
    VecLength(val, r, n);
    var after := Lower(g, rank, top, root, tree, cold, val, u, d, n, sum);
    LoweredFacts(g, rank, root, tree, u, r, other, val, after, n);
    var h := Pulled(g, root, u, r, other);
    SameKeys(g, root, u, r, other);
    forall t: nat | t in g
      ensures TermRight(h[t], after[t], after, n)
    {
      PulledTerm(g, root, u, r, other, t);
      if t == u {
        DroppedRight(after[t], after, n);
      } else if t == root {
        RootPulled(g, root, u, r, other, sum, after, n);
      } else {
        UnchangedRight(g, rank, root, tree, u, t, val, after, n);
        RedirectRight(g[t], after[t], u, other, after, n);
      }
    }
    MadeSame(h, tree, val, after, n);
  }

  lemma MadeSame(h: Graph, tree: set<nat>, val: Valuation, after: Valuation, n: nat)
    requires after.Keys == h.Keys && Outside(tree, val, after) && forall t: nat :: t in h ==> TermRight(h[t], after[t], after, n)
    ensures SameFor(h, tree, val, n)
  {
  }

  lemma VecLength(val: Valuation, x: nat, n: nat)
    requires IsVec(val, x, n)
    ensures |VecOf(val, x)| == n
  {
  }

  lemma SameKeys(g: Graph, root: nat, u: nat, r: nat, other: nat)
    requires Pullable(g, root, u, r, other)
    ensures Pulled(g, root, u, r, other).Keys == g.Keys
  {
  }

  lemma DroppedRight(own: Val, val: Valuation, n: nat)
    requires VecsOk(own, n)
    ensures TermRight(Term(Nop, []), own, val, n)
  {
  }

  lemma PullFacts(g: Graph, rank: map<nat, nat>, top: nat, root: nat, tree: set<nat>, cold: set<nat>, u: nat, r: nat, other: nat)
    requires Bounded(g, rank, top) && IsTree(g, root, tree, cold) && Pullable(g, root, u, r, other) && u in tree
    ensures Ranked(g, rank) && r in g && other in g && rank[r] < rank[u] && rank[other] < rank[u] && rank[u] < rank[root]
    ensures u in tree && u in g && root in g && root !in tree
    ensures g[u].op.Add? && PairOf(g[u].operands, r, other)
  {
    assert r in g[u].operands && other in g[u].operands;
    OperandBelow(g, rank, u, r);
    OperandBelow(g, rank, u, other);
    BelowRoot(g, rank, top, root, tree, cold, u);
  }

  lemma LoweredFacts(g: Graph, rank: map<nat, nat>, root: nat, tree: set<nat>, u: nat, r: nat, other: nat, val: Valuation,
                     after: Valuation, n: nat)
    requires Ranked(g, rank) && u in g && r in g && other in g && rank[r] < rank[u] && rank[other] < rank[u]
    requires val.Keys == g.Keys && root in g && root !in tree
    requires IsVec(val, r, n) && IsVec(val, other, n) && ChangedAbove(g, rank, tree, u, val, after)
    requires after[u] == One(Minus(VecOf(val, u), VecOf(val, r), n)) && Minus(VecOf(val, u), VecOf(val, r), n) == VecOf(val, other)
    ensures after.Keys == g.Keys && after[other] == after[u] == val[other] && after[r] == val[r] && after[root] == val[root]
    ensures Outside(tree, val, after) && IsVec(after, r, n) && VecsOk(after[u], n) && VecOf(after, r) == VecOf(val, r)
  {
    hide Ranked;
  }

  lemma RootPulled(g: Graph, root: nat, u: nat, r: nat, other: nat, sum: Vec, after: Valuation, n: nat)
    requires root in after && u in after && other in after && after[other] == after[u] && after[root] == One(sum) && |sum| == n && IsVec(after, r, n)
    requires RootSum(g, root, after, n, Minus(sum, VecOf(after, r), n))
    ensures TermRight(Term(RotAcc(Zeros(|g[root].operands| + 1)), Redirect(g[root].operands, u, other) + [r]), after[root], after, n)
  {
    hide RotSum, PlainSum, Plus, Minus, Rotated, TermRight;
    var operands, moved := g[root].operands, Redirect(g[root].operands, u, other);
    var k := |operands|;
    RotSumSnoc(moved, r, after, n);
    RotSumRedirect(operands, Zeros(k), u, other, after, n);
    RotSumPlain(operands, after, n);
    TakenBack(sum, VecOf(after, r), n);
    RotAccRight(moved + [r], Zeros(k + 1), sum, after, n);
  }

  lemma RotSumSnoc(operands: seq<nat>, r: nat, val: Valuation, n: nat)
    requires |VecOf(val, r)| == n
    ensures RotSum(operands + [r], Zeros(|operands| + 1), val, n) == Plus(RotSum(operands, Zeros(|operands|), val, n), VecOf(val, r), n)
  {
    var k := |operands|;
    assert Zeros(k + 1)[..k] == Zeros(k) && (operands + [r])[..k] == operands;
    RotatedByZero(VecOf(val, r), n);
  }

  lemma RotAccRight(operands: seq<nat>, amounts: seq<int>, sum: Vec, val: Valuation, n: nat)
    requires |amounts| == |operands| && AllVecs(operands, val, n) && RotSum(operands, amounts, val, n) == sum
    ensures TermRight(Term(RotAcc(amounts), operands), One(sum), val, n)
  {
  }

  lemma UnchangedRight(g: Graph, rank: map<nat, nat>, root: nat, tree: set<nat>, u: nat, t: nat, val: Valuation, after: Valuation, n: nat)
    requires Ranked(g, rank) && u in g && t in g && t != u && t != root && Consistent(g, val, n)
    requires after.Keys == g.Keys && ChangedAbove(g, rank, tree, u, val, after) && RightAbove(g, rank, root, u, after, n)
    ensures TermRight(g[t], after[t], after, n)
  {
    hide TermRight;
    if rank[t] <= rank[u] {
      BelowRight(g, rank, tree, u, t, val, after, n);
    }
  }

  lemma PullSame(g: Graph, rank: map<nat, nat>, top: nat, root: nat, tree: set<nat>, cold: set<nat>, u: nat, r: nat, other: nat)
    requires Bounded(g, rank, top) && IsTree(g, root, tree, cold) && Collecting(g, root) && Pullable(g, root, u, r, other) && u in tree
    ensures SameOutside(g, Pulled(g, root, u, r, other), tree)
  {
    SameKeys(g, root, u, r, other);
    hide *;
    forall val: Valuation, n: nat | Consistent(g, val, n)
      ensures SameFor(Pulled(g, root, u, r, other), tree, val, n)
    {
      PullKeeps(g, rank, top, root, tree, cold, u, r, other, val, n);
    }
    MadeOutside(g, Pulled(g, root, u, r, other), tree);
  }

  lemma MadeOutside(g: Graph, h: Graph, tree: set<nat>)
    requires h.Keys == g.Keys && forall val: Valuation, n: nat :: Consistent(g, val, n) ==> SameFor(h, tree, val, n)
    ensures SameOutside(g, h, tree)
  {
  }
}

/** When fusing keeps all values, exactly: an addition that a rotation is pulled from below becomes smaller, and so does
    everything that adds it up, so every shared one among them shows the change to its other users. */
module FuseExact {
  import opened TermGraph
  import opened KeyswitchPasses
  import opened AdditionTrees
  import opened PullRotations
  import opened FuseWalk
  import opened FuseAggregation
  import opened FusePass
  import opened FuseMeaning
  import opened FuseCondition
  import opened FuseReadings
  import opened FuseWeights

  // ----- weights from graph to graph

  ghost predicate SameWeights(g: Graph, h: Graph, rank: map<nat, nat>, operands: seq<nat>)
    requires Ranked(g, rank) && Ranked(h, rank)
  {
    forall x: nat :: x in operands ==> x in g && x in h && Weight(h, rank, x) == Weight(g, rank, x)
  }

  ghost predicate LighterAt(g: Graph, h: Graph, rank: map<nat, nat>, t: nat)
    requires Ranked(g, rank) && Ranked(h, rank) && t in g && t in h
  {
    && Weight(h, rank, t) <= Weight(g, rank, t) && (IsLeaf(h[t].op) <==> IsLeaf(g[t].op))
    && (Weight(h, rank, t) == Weight(g, rank, t) && !IsLeaf(h[t].op) ==>
        h[t].operands == g[t].operands && SameWeights(g, h, rank, h[t].operands))
  }

  /** Below the root nothing gains weight, and what keeps its weight keeps its operands with theirs. */
  ghost predicate Lighter(g: Graph, h: Graph, rank: map<nat, nat>, root: nat)
    requires Ranked(g, rank) && Ranked(h, rank)
  {
    && h.Keys == g.Keys && root in g
    && forall t: nat :: Live(h, t) && rank[t] < rank[root] ==> Live(g, t) && LighterAt(g, h, rank, t)
  }

  lemma LighterTrans(g: Graph, h: Graph, k: Graph, rank: map<nat, nat>, root: nat)
    requires Ranked(g, rank) && Ranked(h, rank) && Ranked(k, rank) && Lighter(g, h, rank, root) && Lighter(h, k, rank, root) && Clean(k)
    ensures Lighter(g, k, rank, root)
  {
    forall t: nat | Live(k, t) && rank[t] < rank[root]
      ensures Live(g, t) && LighterAt(g, k, rank, t)
    {
      assert Live(h, t) && LighterAt(h, k, rank, t) && LighterAt(g, h, rank, t);
      hide Weight, Ranked;
    }
  }

  ghost predicate NoHeavier(g: Graph, h: Graph, rank: map<nat, nat>, was: seq<nat>, now: seq<nat>, j: nat)
    requires Ranked(g, rank) && Ranked(h, rank) && j < |was| && j < |now|
  {
    was[j] in g && now[j] in h && Weight(h, rank, now[j]) <= Weight(g, rank, was[j])
  }

  /** A sum of operands none of which gained; if the sum is kept, so is each weight. */
  lemma {:induction false} SumNoHeavier(g: Graph, h: Graph, rank: map<nat, nat>, bound: nat, was: seq<nat>, now: seq<nat>)
    requires Ranked(g, rank) && Ranked(h, rank) && |was| == |now|
    requires OperandsIn(g, rank, bound, was) && OperandsIn(h, rank, bound, now)
    requires forall j: nat :: j < |was| ==> NoHeavier(g, h, rank, was, now, j)
    ensures WeightSum(h, rank, bound, now) <= WeightSum(g, rank, bound, was)
    ensures WeightSum(h, rank, bound, now) == WeightSum(g, rank, bound, was) ==>
      forall j: nat :: j < |was| ==> Weight(h, rank, now[j]) == Weight(g, rank, was[j])
  {
    hide Ranked, Weight;
    if |was| > 0 {
      var last := |was| - 1;
      forall j: nat | j < last
        ensures NoHeavier(g, h, rank, was[..last], now[..last], j)
      {
        assert NoHeavier(g, h, rank, was, now, j);
      }
      SumNoHeavier(g, h, rank, bound, was[..last], now[..last]);
      assert NoHeavier(g, h, rank, was, now, last);
      if WeightSum(h, rank, bound, now) == WeightSum(g, rank, bound, was) {
        forall j: nat | j < |was|
          ensures Weight(h, rank, now[j]) == Weight(g, rank, was[j])
        {
          if j < last {
            assert was[..last][j] == was[j] && now[..last][j] == now[j];
          }
        }
      }
    }
  }

  lemma UnfoldWeight(g: Graph, rank: map<nat, nat>, t: nat)
    requires Ranked(g, rank) && t in g
    ensures IsLeaf(g[t].op) ==> Weight(g, rank, t) == 1
    ensures OperandsIn(g, rank, rank[t], g[t].operands)
    ensures !IsLeaf(g[t].op) ==> Weight(g, rank, t) == WeightSum(g, rank, rank[t], g[t].operands)
  {
    OperandsBelow(g, rank, t);
  }

  /** Terms below the root that did not change weigh what they did. */
  lemma {:induction false} Unchanged(g: Graph, h: Graph, rank: map<nat, nat>, root: nat, t: nat)
    requires Ranked(g, rank) && Ranked(h, rank) && h.Keys == g.Keys && root in g && Clean(h)
    requires forall x: nat :: Live(h, x) && rank[x] < rank[root] ==> h[x] == g[x]
    requires Live(h, t) && rank[t] < rank[root]
    ensures Weight(h, rank, t) == Weight(g, rank, t) && SameWeights(g, h, rank, h[t].operands)
    decreases rank[t]
  {
    hide Weight;
    UnfoldWeight(g, rank, t);
    UnfoldWeight(h, rank, t);
    forall x: nat | x in h[t].operands
      ensures x in g && x in h && Weight(h, rank, x) == Weight(g, rank, x)
    {
      OperandBelow(h, rank, t, x);
      Unchanged(g, h, rank, root, x);
    }
    hide Ranked;
    if !IsLeaf(h[t].op) {
      forall j: nat | j < |h[t].operands|
        ensures NoHeavier(g, h, rank, g[t].operands, h[t].operands, j) && NoHeavier(h, g, rank, h[t].operands, g[t].operands, j)
      {
        assert h[t].operands[j] in h[t].operands;
      }
      SumNoHeavier(g, h, rank, rank[t], g[t].operands, h[t].operands);
      SumNoHeavier(h, g, rank, rank[t], h[t].operands, g[t].operands);
    }
  }

  lemma UnchangedLighter(g: Graph, h: Graph, rank: map<nat, nat>, root: nat)
    requires Ranked(g, rank) && Ranked(h, rank) && h.Keys == g.Keys && root in g && Clean(h)
    requires forall x: nat :: Live(h, x) && rank[x] < rank[root] ==> h[x] == g[x]
    ensures Lighter(g, h, rank, root)
  {
    hide Weight;
    forall t: nat | Live(h, t) && rank[t] < rank[root]
      ensures Live(g, t) && LighterAt(g, h, rank, t)
    {
      Unchanged(g, h, rank, root, t);
    }
  }

  /** Pulling a rotation out of u: what reads u gets lighter. */
  lemma {:induction false} PulledLighterAt(g: Graph, rank: map<nat, nat>, root: nat, u: nat, r: nat, other: nat, t: nat)
    requires PullSpot(g, root, u, r, other) && root in g && Ranked(g, rank) && Fed(g) && Clean(g)
    requires Ranked(Pulled(g, root, u, r, other), rank) && Clean(Pulled(g, root, u, r, other))
    requires Live(Pulled(g, root, u, r, other), t) && t in g && rank[t] < rank[root]
    ensures Live(g, t) && LighterAt(g, Pulled(g, root, u, r, other), rank, t)
    decreases rank[t]
  {
    var h := Pulled(g, root, u, r, other);
    PulledUnder(g, rank, root, u, r, other, t);
    var was, now := g[t].operands, h[t].operands;
    hide *;
    forall j: nat | j < |was|
      ensures NoHeavier(g, h, rank, was, now, j)
      ensures was[j] == u ==> Weight(h, rank, now[j]) < Weight(g, rank, was[j])
    {
      PulledOperandAt(g, rank, root, u, r, other, t, j);
      PulledLighterAt(g, rank, root, u, r, other, now[j]);
      LighterFact(g, h, rank, now[j]);
      MakeNoHeavier(g, h, rank, was, now, j);
    }
    PulledSums(g, h, rank, t, u, other);
  }

  lemma LighterFact(g: Graph, h: Graph, rank: map<nat, nat>, t: nat)
    requires Ranked(g, rank) && Ranked(h, rank) && t in g && t in h && LighterAt(g, h, rank, t)
    ensures Weight(h, rank, t) <= Weight(g, rank, t)
    ensures Weight(h, rank, t) == Weight(g, rank, t) && !IsLeaf(h[t].op) ==> h[t].operands == g[t].operands && SameWeights(g, h, rank, h[t].operands)
  {
    hide Weight, Ranked;
  }

  lemma MakeNoHeavier(g: Graph, h: Graph, rank: map<nat, nat>, was: seq<nat>, now: seq<nat>, j: nat)
    requires Ranked(g, rank) && Ranked(h, rank) && j < |was| && j < |now|
    requires was[j] in g && now[j] in h && Weight(h, rank, now[j]) <= Weight(g, rank, was[j])
    ensures NoHeavier(g, h, rank, was, now, j)
  {
    hide Weight, Ranked;
  }

  lemma PulledUnder(g: Graph, rank: map<nat, nat>, root: nat, u: nat, r: nat, other: nat, t: nat)
    requires PullSpot(g, root, u, r, other) && root in g && Ranked(g, rank) && t in g && rank[t] < rank[root]
    requires Live(Pulled(g, root, u, r, other), t)
    ensures t != u && t != root && Live(g, t)
    ensures Pulled(g, root, u, r, other).Keys == g.Keys && Pulled(g, root, u, r, other)[t] == Term(g[t].op, Redirect(g[t].operands, u, other))
  {
    SpotFacts(g, root, u, r, other);
    SameKeys(g, root, u, r, other);
    PulledTerm(g, root, u, r, other, t);
    hide Pulled, PullSpot, Ranked;
  }

  /** One operand of a term below the root, before and after. */
  lemma PulledOperandAt(g: Graph, rank: map<nat, nat>, root: nat, u: nat, r: nat, other: nat, t: nat, j: nat)
    requires PullSpot(g, root, u, r, other) && root in g && Ranked(g, rank) && Fed(g) && Clean(g) && t in g && j < |g[t].operands|
    requires Ranked(Pulled(g, root, u, r, other), rank) && Clean(Pulled(g, root, u, r, other))
    requires Live(Pulled(g, root, u, r, other), t) && rank[t] < rank[root]
    ensures var h, x := Pulled(g, root, u, r, other), g[t].operands[j];
      && t in h && h.Keys == g.Keys && j < |h[t].operands| && x in g && h[t].operands[j] == (if x == u then other else x)
      && var y := h[t].operands[j];
      && y in g && Live(h, y) && rank[y] < rank[t]
      && (x == u ==> Weight(g, rank, y) < Weight(g, rank, u))
  {
    var h, x := Pulled(g, root, u, r, other), g[t].operands[j];
    SpotFacts(g, root, u, r, other);
    PulledUnder(g, rank, root, u, r, other, t);
    assert x in g[t].operands;
    OperandBelow(g, rank, t, x);
    assert Live(g, u) && u in g;
    assert other in g[u].operands && r in g[u].operands by {
      assert Count(g, u, other) == 1 && Count(g, u, r) == 1;
    }
    assert h[t].operands[j] in h[t].operands;
    OperandBelow(h, rank, t, h[t].operands[j]);
    hide Pulled, Weight, Ranked, SoleUser;
    PairWeights(g, rank, root, u, r, other);
    WeightPositive(g, rank, r);
  }

  lemma PairWeights(g: Graph, rank: map<nat, nat>, root: nat, u: nat, r: nat, other: nat)
    requires PullSpot(g, root, u, r, other) && Ranked(g, rank)
    ensures u in g && r in g && other in g && Weight(g, rank, u) == Weight(g, rank, r) + Weight(g, rank, other)
  {
    SpotFacts(g, root, u, r, other);
    hide Ranked, Weight, SoleUser;
    TwoWeights(g, rank, u);
  }

  lemma PulledSums(g: Graph, h: Graph, rank: map<nat, nat>, t: nat, u: nat, other: nat)
    requires Ranked(g, rank) && Ranked(h, rank) && t in g && t in h && h[t] == Term(g[t].op, Redirect(g[t].operands, u, other))
    requires forall j: nat :: j < |g[t].operands| ==> NoHeavier(g, h, rank, g[t].operands, h[t].operands, j)
    requires forall j: nat :: j < |g[t].operands| && g[t].operands[j] == u ==>
      NoHeavier(g, h, rank, g[t].operands, h[t].operands, j) && Weight(h, rank, h[t].operands[j]) < Weight(g, rank, g[t].operands[j])
    ensures LighterAt(g, h, rank, t)
  {
    var was, now := g[t].operands, h[t].operands;
    UnfoldWeight(g, rank, t);
    UnfoldWeight(h, rank, t);
    hide Weight, Ranked;
    if !IsLeaf(g[t].op) {
      SumNoHeavier(g, h, rank, rank[t], was, now);
      if Weight(h, rank, t) == Weight(g, rank, t) {
        assert forall j: nat :: j < |was| ==> was[j] != u && now[j] == was[j];
        assert now == was;
        forall x: nat | x in now
          ensures x in g && x in h && Weight(h, rank, x) == Weight(g, rank, x)
        {
          var j: nat :| j < |now| && now[j] == x;
          assert NoHeavier(g, h, rank, was, now, j);
        }
      }
    }
  }

  lemma MovedLighter(g: Graph, rank: map<nat, nat>, root: nat, r: nat)
    requires Ranked(g, rank) && root in g && Ranked(Moved(g, root, r), rank) && Clean(Moved(g, root, r))
    ensures Lighter(g, Moved(g, root, r), rank, root)
  {
    UnchangedLighter(g, Moved(g, root, r), rank, root);
  }

  lemma PulledLighter(g: Graph, rank: map<nat, nat>, root: nat, u: nat, r: nat, other: nat)
    requires PullSpot(g, root, u, r, other) && root in g && Ranked(g, rank) && Fed(g) && Clean(g)
    requires Ranked(Pulled(g, root, u, r, other), rank) && Clean(Pulled(g, root, u, r, other))
    ensures Lighter(g, Pulled(g, root, u, r, other), rank, root)
  {
    var h := Pulled(g, root, u, r, other);
    SpotFacts(g, root, u, r, other);
    SameKeys(g, root, u, r, other);
    hide Pulled, PullSpot, Pullable, Weight, Ranked, LighterAt, SoleUser;
    forall t: nat | Live(h, t) && rank[t] < rank[root]
      ensures Live(g, t) && LighterAt(g, h, rank, t)
    {
      PulledLighterAt(g, rank, root, u, r, other, t);
    }
  }

  // ----- kinds are kept

  /** Vectors of vectors are kept, and there are no new ones. */
  ghost predicate KindsKept(g: Graph, h: Graph)
  {
    h.Keys == g.Keys && forall x: nat :: x in g && (g[x].op.HoistInpBroadcast? || h[x].op.HoistInpBroadcast?) ==> h[x].op == g[x].op
  }

  lemma TypedKept(g: Graph, h: Graph, t: nat)
    requires KindsKept(g, h) && t in g && TypedTerm(g, g[t]) && h[t] == g[t]
    ensures TypedTerm(h, h[t])
  {
  }

  lemma TypedRedirected(g: Graph, h: Graph, t: nat, u: nat, other: nat)
    requires KindsKept(g, h) && t in g && TypedTerm(g, g[t]) && h[t] == Term(g[t].op, Redirect(g[t].operands, u, other))
    requires Scalar(g, u) && Scalar(g, other)
    ensures TypedTerm(h, h[t])
  {
    var was, now := g[t].operands, h[t].operands;
    forall x: nat | x in now
      ensures x == other || x in was
    {
      var j: nat :| j < |now| && now[j] == x;
      assert was[j] in was;
    }
    if g[t].op.TermInVec? {
      assert was[0] != u;
    }
  }

  lemma TypedRoot(g: Graph, h: Graph, root: nat)
    requires KindsKept(g, h) && root in h && h[root].op == RotAcc(Zeros(|h[root].operands|)) && |h[root].operands| > 0
    requires forall x: nat :: x in h[root].operands ==> Scalar(g, x)
    ensures TypedTerm(h, h[root])
  {
  }

  lemma StartTyped(g: Graph, root: nat)
    requires Typed(g) && root in g && g[root].op.Add?
    ensures Typed(Started(g, root))
  {
    var h := Started(g, root);
    assert TypedTerm(g, g[root]);
    forall t: nat | t in h
      ensures TypedTerm(h, h[t])
    {
      if t == root {
        TypedRoot(g, h, root);
      } else {
        TypedKept(g, h, t);
      }
    }
  }

  lemma MovedTyped(g: Graph, root: nat, r: nat)
    requires Typed(g) && Collecting(g, root) && r in g[root].operands
    ensures Typed(Moved(g, root, r))
  {
    var h := Moved(g, root, r);
    MovedSame(g, root, r);
    SameOperands(g, h, root);
    assert TypedTerm(g, g[root]);
    forall t: nat | t in h
      ensures TypedTerm(h, h[t])
    {
      if t == root {
        TypedRoot(g, h, root);
      } else {
        assert h[t] == g[t];
        hide Moved;
        TypedKept(g, h, t);
      }
    }
  }

  lemma PulledTyped(g: Graph, root: nat, u: nat, r: nat, other: nat)
    requires Typed(g) && PullSpot(g, root, u, r, other) && Collecting(g, root)
    ensures Typed(Pulled(g, root, u, r, other))
  {
    hide Pulled, PullSpot, SoleUser, TypedTerm, Scalar;
    var h := Pulled(g, root, u, r, other);
    SpotFacts(g, root, u, r, other);
    SameKeys(g, root, u, r, other);
    SpotScalars(g, root, u, r, other);
    forall t: nat | t in g
      ensures t != root && t != u ==> h[t] == Term(g[t].op, Redirect(g[t].operands, u, other))
      ensures t == root ==> h[t] == Term(RotAcc(Zeros(|g[root].operands| + 1)), Redirect(g[root].operands, u, other) + [r])
      ensures t == u ==> h[t] == Term(Nop, [])
    {
      PulledTerm(g, root, u, r, other, t);
    }
    assert KindsKept(g, h);
    forall x: nat | x in h[root].operands
      ensures Scalar(g, x)
    {
      RedirectedFrom(g[root].operands, u, other, r, x);
    }
    forall t: nat | t in h
      ensures TypedTerm(h, h[t])
    {
      if t == root {
        TypedRoot(g, h, root);
      } else if t == u {
        NopTyped(h, u);
      } else {
        TypedRedirected(g, h, t, u, other);
      }
    }
  }

  lemma NopTyped(g: Graph, t: nat)
    requires t in g && g[t].op.Nop?
    ensures TypedTerm(g, g[t])
  {
  }

  lemma SpotScalars(g: Graph, root: nat, u: nat, r: nat, other: nat)
    requires Typed(g) && PullSpot(g, root, u, r, other) && Collecting(g, root)
    ensures Scalar(g, other) && Scalar(g, u) && Scalar(g, r) && forall x: nat :: x in g[root].operands ==> Scalar(g, x)
  {
    hide PullSpot, SoleUser;
    SpotFacts(g, root, u, r, other);
    assert other in g[u].operands by {
      assert Count(g, u, other) == 1;
    }
    assert TypedTerm(g, g[u]) && TypedTerm(g, g[root]);
  }

  lemma RedirectedFrom(operands: seq<nat>, u: nat, other: nat, r: nat, x: nat)
    requires x in Redirect(operands, u, other) + [r]
    ensures x == other || x == r || x in operands
  {
  }

  lemma FinishedTyped(g: Graph, root: nat)
    requires Typed(g) && Collecting(g, root)
    ensures Typed(Finished(g, root))
  {
    var h, operands := Finished(g, root), g[root].operands;
    assert TypedTerm(g, g[root]);
    forall k: nat | k < |operands|
      ensures Scalar(g, FinishedOperands(g, operands)[k])
    {
      assert operands[k] in operands && Scalar(g, operands[k]);
      assert TypedTerm(g, g[operands[k]]);
      hide SingleUse;
    }
    assert |FinishedOperands(g, operands)| == |FinishedAmounts(g, operands)| == |operands| > 0;
    hide SingleUseRotate, FinishedOperands, FinishedAmounts;
    forall t: nat | t in g
      ensures h[t].op.HoistInpBroadcast? || g[t].op.HoistInpBroadcast? ==> h[t].op == g[t].op
    {
      FinishedKind(g, root, t);
    }
    forall t: nat | t in h
      ensures TypedTerm(h, h[t])
    {
      if t != root && h[t] == g[t] {
        TypedKept(g, h, t);
      }
    }
  }

  lemma FinishedKind(g: Graph, root: nat, t: nat)
    requires root in g && t in g && g[root].op.RotAcc?
    ensures Finished(g, root)[t].op.HoistInpBroadcast? || g[t].op.HoistInpBroadcast? ==> Finished(g, root)[t].op == g[t].op
  {
    hide SingleUse, FinishedOperands, FinishedAmounts;
  }

  // ----- one visit

  /** What the walk keeps between the first graph and the one reached: weights only fall, a rotation keeps its only user
      while that is live, a reached addition that is live is still read by the root or by a reached one, and only
      reached additions are dropped. */
  ghost predicate Follows(g: Graph, cur: Graph, rank: map<nat, nat>, root: nat)
    requires Ranked(g, rank) && root in g
  {
    && cur.Keys == g.Keys
    && (forall t: nat :: t in g && t != root ==> OpFollows(g, cur, rank, root, t))
    && (forall x: nat, t: nat :: SoleUser(g, x, t) && x in g && IsRotate(g[x].op) && Live(cur, t) && t != root ==> SoleUser(cur, x, t))
    && (forall t: nat :: Reaches(g, rank, root, t) && Live(cur, t) ==> StillRead(g, cur, rank, root, t))
  }

  ghost predicate OpFollows(g: Graph, cur: Graph, rank: map<nat, nat>, root: nat, t: nat)
    requires Ranked(g, rank) && root in g && t in g && t in cur
  {
    cur[t].op == g[t].op || (cur[t].op.Nop? && Reaches(g, rank, root, t))
  }

  ghost predicate StillRead(g: Graph, cur: Graph, rank: map<nat, nat>, root: nat, t: nat)
    requires Ranked(g, rank) && root in g
  {
    exists s: nat :: InWalk(g, rank, root, s) && Live(cur, s) && t in cur[s].operands
  }

  ghost predicate Fit(cur: Graph, rank: map<nat, nat>, root: nat)
  {
    Sane(cur, rank, root) && Typed(cur) && Clean(cur)
  }

  lemma StartFollows(g: Graph, rank: map<nat, nat>, root: nat)
    requires Ranked(g, rank) && root in g && g[root].op.Add?
    ensures Follows(g, Started(g, root), rank, root)
  {
    var h := Started(g, root);
    forall x: nat, t: nat
      ensures SoleUser(h, x, t) <==> SoleUser(g, x, t)
    {
      StartUses(g, root, x);
    }
    hide SoleUser, Reaches;
    forall t: nat | Reaches(g, rank, root, t)
      ensures StillRead(g, h, rank, root, t)
    {
      var s := ReachUser(g, rank, root, t);
      if s != root {
        ReachBelow(g, rank, root, s);
      }
      hide Ranked;
      assert InWalk(g, rank, root, s) && Live(h, s);
    }
  }

  lemma MovedFollows(g: Graph, cur: Graph, rank: map<nat, nat>, root: nat, r: nat)
    requires Ranked(g, rank) && root in g && Follows(g, cur, rank, root) && Collecting(cur, root) && r in cur[root].operands
    ensures Follows(g, Moved(cur, root, r), rank, root)
  {
    var h := Moved(cur, root, r);
    MovedSame(cur, root, r);
    hide Moved, Reaches, Ranked, Collecting, SameUses;
    forall t: nat | t in cur
      ensures t in h && h[t].op == cur[t].op && forall y: nat :: y in h[t].operands <==> y in cur[t].operands
    {
      SameOp(cur, h, t);
      SameOperands(cur, h, t);
    }
    SameOp(cur, h, root);
    forall x: nat, t: nat
      ensures SoleUser(h, x, t) <==> SoleUser(cur, x, t)
    {
      SameSole(cur, h, x, t);
    }
    hide SoleUser;
    assert h.Keys == cur.Keys by {
      SameUsesKeys(cur, h);
    }
    forall t: nat | Reaches(g, rank, root, t) && Live(h, t)
      ensures StillRead(g, h, rank, root, t)
    {
      assert Live(cur, t);
      var s: nat :| InWalk(g, rank, root, s) && Live(cur, s) && t in cur[s].operands;
      assert Live(h, s);
    }
  }

  lemma SameUsesKeys(g: Graph, h: Graph)
    requires SameUses(g, h)
    ensures h.Keys == g.Keys
  {
  }

  lemma PulledFollows(g: Graph, cur: Graph, rank: map<nat, nat>, root: nat, u: nat, r: nat, other: nat)
    requires Ranked(g, rank) && root in g && Follows(g, cur, rank, root) && Ranked(cur, rank) && PullSpot(cur, root, u, r, other)
    requires Reaches(g, rank, root, u)
    ensures root in cur && Follows(g, Pulled(cur, root, u, r, other), rank, root)
  {
    var h := Pulled(cur, root, u, r, other);
    SpotFacts(cur, root, u, r, other);
    SameKeys(cur, root, u, r, other);
    PulledTerm(cur, root, u, r, other, u);
    hide *;
    forall t: nat | t in g && t != root
      ensures OpFollows(g, h, rank, root, t)
    {
      PulledOps(g, cur, rank, root, u, r, other, t);
    }
    forall x: nat, t: nat | SoleUser(g, x, t) && x in g && IsRotate(g[x].op) && Live(h, t) && t != root
      ensures SoleUser(h, x, t)
    {
      PulledKeepsUser(g, cur, rank, root, u, r, other, x, t);
    }
    forall t: nat | Reaches(g, rank, root, t) && Live(h, t)
      ensures StillRead(g, h, rank, root, t)
    {
      PulledKeepsRead(g, cur, rank, root, u, r, other, t);
    }
    MakeFollows(g, h, rank, root);
  }

  lemma MakeFollows(g: Graph, cur: Graph, rank: map<nat, nat>, root: nat)
    requires Ranked(g, rank) && root in g && cur.Keys == g.Keys
    requires forall t: nat :: t in g && t != root ==> OpFollows(g, cur, rank, root, t)
    requires forall x: nat, t: nat :: SoleUser(g, x, t) && x in g && IsRotate(g[x].op) && Live(cur, t) && t != root ==> SoleUser(cur, x, t)
    requires forall t: nat :: Reaches(g, rank, root, t) && Live(cur, t) ==> StillRead(g, cur, rank, root, t)
    ensures Follows(g, cur, rank, root)
  {
    hide OpFollows, SoleUser, IsRotate, Live, Reaches, StillRead, Ranked;
  }

  lemma FollowsAt(g: Graph, cur: Graph, rank: map<nat, nat>, root: nat, t: nat)
    requires Ranked(g, rank) && root in g && Follows(g, cur, rank, root) && t in g
    ensures cur.Keys == g.Keys && (t != root ==> OpFollows(g, cur, rank, root, t))
    ensures Reaches(g, rank, root, t) && Live(cur, t) ==> StillRead(g, cur, rank, root, t)
  {
    hide OpFollows, SoleUser, IsRotate, Live, Reaches, StillRead, Ranked;
  }

  lemma FollowsSole(g: Graph, cur: Graph, rank: map<nat, nat>, root: nat, x: nat, t: nat)
    requires Ranked(g, rank) && root in g && Follows(g, cur, rank, root) && SoleUser(g, x, t) && x in g && IsRotate(g[x].op)
    requires Live(cur, t) && t != root
    ensures SoleUser(cur, x, t)
  {
    hide OpFollows, SoleUser, IsRotate, Live, Reaches, StillRead, Ranked;
  }

  lemma PulledOps(g: Graph, cur: Graph, rank: map<nat, nat>, root: nat, u: nat, r: nat, other: nat, t: nat)
    requires Ranked(g, rank) && root in g && Follows(g, cur, rank, root) && PullSpot(cur, root, u, r, other) && Reaches(g, rank, root, u)
    requires t in g && t != root
    ensures root in cur && Pulled(cur, root, u, r, other).Keys == g.Keys && OpFollows(g, Pulled(cur, root, u, r, other), rank, root, t)
  {
    FollowsAt(g, cur, rank, root, t);
    SpotFacts(cur, root, u, r, other);
    SameKeys(cur, root, u, r, other);
    PulledTerm(cur, root, u, r, other, t);
    hide Pulled, PullSpot, Follows, Reaches, Ranked, SoleUser;
  }

  /** A rotation used only by a live addition is not the other operand of the pull. */
  lemma PulledKeepsUser(g: Graph, cur: Graph, rank: map<nat, nat>, root: nat, u: nat, r: nat, other: nat, x: nat, t: nat)
    requires Ranked(g, rank) && root in g && Follows(g, cur, rank, root) && PullSpot(cur, root, u, r, other) && Reaches(g, rank, root, u)
    requires root in cur && Live(Pulled(cur, root, u, r, other), t) && t != root
    requires SoleUser(g, x, t) && x in g && IsRotate(g[x].op)
    ensures SoleUser(Pulled(cur, root, u, r, other), x, t)
  {
    var h := Pulled(cur, root, u, r, other);
    SpotFacts(cur, root, u, r, other);
    SameKeys(cur, root, u, r, other);
    ReachBelow(g, rank, root, u);
    PulledTerm(cur, root, u, r, other, t);
    assert Live(cur, t) && t != u;
    FollowsSole(g, cur, rank, root, x, t);
    hide Pulled, PullSpot, Follows, Reaches, Ranked;
    assert x != r by {
      SoleElsewhere(cur, r, u, t);
    }
    assert x != other by {
      assert Count(cur, u, other) == 1;
      SoleElsewhere(cur, other, t, u);
    }
    PulledUser(cur, root, u, r, other, x, t);
  }

  lemma SoleElsewhere(g: Graph, x: nat, t: nat, s: nat)
    requires t in g && s in g && s != t
    ensures SoleUser(g, x, t) ==> Count(g, s, x) == 0 && !SoleUser(g, x, s)
  {
  }

  /** A reached addition that read the dropped one's operand is read by a user of the dropped one. */
  lemma PulledKeepsRead(g: Graph, cur: Graph, rank: map<nat, nat>, root: nat, u: nat, r: nat, other: nat, t: nat)
    requires Ranked(g, rank) && root in g && Follows(g, cur, rank, root) && Ranked(cur, rank) && PullSpot(cur, root, u, r, other)
    requires root in cur && Reaches(g, rank, root, u) && Reaches(g, rank, root, t) && Live(Pulled(cur, root, u, r, other), t)
    ensures StillRead(g, Pulled(cur, root, u, r, other), rank, root, t)
  {
    var h := Pulled(cur, root, u, r, other);
    SpotFacts(cur, root, u, r, other);
    SameKeys(cur, root, u, r, other);
    ReachBelow(g, rank, root, t);
    PulledTerm(cur, root, u, r, other, t);
    FollowsAt(g, cur, rank, root, t);
    FollowsAt(g, cur, rank, root, u);
    assert t != u && Live(cur, u);
    hide Pulled, PullSpot, Follows, Reaches, SoleUser;
    var s: nat :| InWalk(g, rank, root, s) && Live(cur, s) && t in cur[s].operands;
    var v: nat := s;
    if s == u {
      v :| InWalk(g, rank, root, v) && Live(cur, v) && u in cur[v].operands;
      OperandBelow(cur, rank, v, u);
      assert t != r;
      assert Count(cur, u, t) > 0;
    }
    PulledOperand(cur, root, u, r, other, v, t);
    PulledLive(cur, root, u, r, other, v);
    assert Live(h, v);
  }

  lemma PulledLive(g: Graph, root: nat, u: nat, r: nat, other: nat, t: nat)
    requires PullSpot(g, root, u, r, other) && Live(g, t) && t != u && root in g
    ensures Live(Pulled(g, root, u, r, other), t)
  {
    SpotFacts(g, root, u, r, other);
    PulledTerm(g, root, u, r, other, t);
    SameKeys(g, root, u, r, other);
    hide Pulled, PullSpot, SoleUser;
  }

  ghost predicate Stepped(g: Graph, cur: Graph, rank: map<nat, nat>, root: nat)
  {
    Ranked(g, rank) && root in g && Fit(cur, rank, root) && Lighter(g, cur, rank, root) && Follows(g, cur, rank, root)
  }

  lemma UnfoldFit(cur: Graph, rank: map<nat, nat>, root: nat)
    requires Fit(cur, rank, root)
    ensures Sane(cur, rank, root) && Typed(cur) && Clean(cur) && Fed(cur) && Ranked(cur, rank) && Collecting(cur, root) && root in cur
  {
    TypedCounts(cur);
    hide Typed, Clean, Ranked;
  }

  lemma UnfoldStepped(g: Graph, cur: Graph, rank: map<nat, nat>, root: nat)
    requires Stepped(g, cur, rank, root)
    ensures Ranked(g, rank) && root in g && Fit(cur, rank, root) && Ranked(cur, rank)
    ensures Lighter(g, cur, rank, root) && Follows(g, cur, rank, root) && cur.Keys == g.Keys
  {
    hide Typed, Clean, Ranked, Follows, LighterAt;
  }

  lemma MakeStepped(g: Graph, cur: Graph, next: Graph, rank: map<nat, nat>, root: nat)
    requires Stepped(g, cur, rank, root) && Sane(next, rank, root) && Typed(next) && Clean(next) && Ranked(next, rank) && Ranked(cur, rank)
    requires Lighter(cur, next, rank, root) && Follows(g, next, rank, root)
    ensures Stepped(g, next, rank, root)
  {
    UnfoldStepped(g, cur, rank, root);
    LighterTrans(g, cur, next, rank, root);
    hide Typed, Clean, Ranked, Follows, Lighter, Sane;
  }

  lemma TakeStepped(g: Graph, cur: Graph, rank: map<nat, nat>, root: nat, visited: set<nat>, known: set<nat>, tail: nat, x: nat)
    requires Stepped(g, cur, rank, root) && Ranked(g, rank) && root in g && Inside(g, cur, rank, root, known)
    requires Walk(cur, root, visited, known, tail) && x in known && x !in visited && root in cur && x in cur
    ensures Stepped(g, Take(cur, root, x), rank, root)
  {
    hide *;
    UnfoldStepped(g, cur, rank, root);
    UnfoldFit(cur, rank, root);
    StepKeeps(cur, rank, root, visited, known, tail, x);
    UnfoldSane(Take(cur, root, x), rank, root);
    UnfoldWalk(cur, root, visited, known, tail, x);
    if !SingleUseRotate(cur, x) {
      TakeNothing(cur, root, x);
    } else {
      SureSingle(cur, x);
      if UserOf(cur, x) == root {
        TakeMoves(cur, root, x);
        MovedTyped(cur, root, x);
        MovedLighter(cur, rank, root, x);
        MovedFollows(g, cur, rank, root, x);
      } else {
        var u, other, s := PullPlace(cur, rank, root, visited, known, tail, x);
        TakePulls(cur, root, x);
        VisitedAttached(cur, root, visited, known, u);
        SpotFacts(cur, root, u, x, other);
        InsideKnown(g, cur, rank, root, known, u);
        PulledTyped(cur, root, u, x, other);
        PulledLighter(cur, rank, root, u, x, other);
        PulledFollows(g, cur, rank, root, u, x, other);
      }
      MakeStepped(g, cur, Take(cur, root, x), rank, root);
    }
  }

  lemma InsideKnown(g: Graph, cur: Graph, rank: map<nat, nat>, root: nat, known: set<nat>, u: nat)
    requires Ranked(g, rank) && root in g && Inside(g, cur, rank, root, known) && u in known && u in cur && cur[u].op.Add?
    ensures Reaches(g, rank, root, u)
  {
    hide Ranked, Reaches, Met, SingleUseRotate;
    MetReaches(g, rank, root, u);
  }

  lemma {:induction false} WalkStepped(g: Graph, cur: Graph, rank: map<nat, nat>, root: nat, visited: set<nat>, checklist: seq<nat>, tail: nat)
      returns (all: set<nat>, collected: nat)
    requires Stepped(g, cur, rank, root) && Ranked(g, rank) && root in g && Inside(g, cur, rank, root, Known(visited, checklist))
    requires Walk(cur, root, visited, Known(visited, checklist), tail) && root in cur
    ensures Stepped(g, WalkFrom(cur, root, visited, checklist), rank, root)
    ensures Walk(WalkFrom(cur, root, visited, checklist), root, all, all, collected)
    decreases cur.Keys - visited, |checklist|
  {
    hide *;
    UnfoldStepped(g, cur, rank, root);
    UnfoldFit(cur, rank, root);
    if |checklist| == 0 {
      WalkNothing(cur, root, visited, checklist);
      all, collected := visited, tail;
    } else {
      var last := |checklist| - 1;
      var x := checklist[last];
      if x in visited {
        WalkSkip(cur, root, visited, checklist);
        all, collected := WalkStepped(g, cur, rank, root, visited, checklist[..last], tail);
      } else {
        var known := Known(visited, checklist);
        KnownPop(visited, checklist);
        StepKeeps(cur, rank, root, visited, known, tail, x);
        WalkStep(cur, root, visited, checklist);
        InsideTake(g, cur, rank, root, visited, known, tail, x);
        TakeStepped(g, cur, rank, root, visited, known, tail, x);
        all, collected :=
          WalkStepped(g, Take(cur, root, x), rank, root, visited + {x}, checklist[..last] + Pushed(cur, x), TailAfter(cur, tail, x));
      }
    }
  }

  lemma WalkedStepped(g: Graph, rank: map<nat, nat>, root: nat) returns (all: set<nat>, collected: nat)
    requires Ranked(g, rank) && Typed(g) && Clean(g) && root in g && Acts(g, root)
    ensures Stepped(g, Walked(g, root), rank, root) && Walk(Walked(g, root), root, all, all, collected)
  {
    hide *;
    TypedCounts(g);
    ActsFacts(g, root);
    WalkedIs(g, root);
    StartSane(g, rank, root);
    StartInside(g, rank, root);
    StartTyped(g, root);
    StartFollows(g, rank, root);
    UnfoldSane(Started(g, root), rank, root);
    StartLighter(g, rank, root);
    MakeFirst(g, rank, root);
    all, collected := WalkStepped(g, Started(g, root), rank, root, {}, g[root].operands, 0);
  }

  lemma StartLighter(g: Graph, rank: map<nat, nat>, root: nat)
    requires Ranked(g, rank) && root in g && Ranked(Started(g, root), rank) && Clean(Started(g, root))
    ensures Lighter(g, Started(g, root), rank, root)
  {
    UnchangedLighter(g, Started(g, root), rank, root);
  }

  lemma MakeFirst(g: Graph, rank: map<nat, nat>, root: nat)
    requires Ranked(g, rank) && root in g && Sane(Started(g, root), rank, root) && Typed(Started(g, root)) && Clean(Started(g, root))
    requires Ranked(Started(g, root), rank) && Lighter(g, Started(g, root), rank, root) && Follows(g, Started(g, root), rank, root)
    ensures Stepped(g, Started(g, root), rank, root)
  {
    hide Typed, Clean, Ranked, Follows, Lighter, Sane;
  }

  // ----- when the walk is over

  /** Every reached addition that is still live has been visited. */
  lemma {:induction false} ReachedVisited(g: Graph, w: Graph, rank: map<nat, nat>, root: nat, all: set<nat>, tail: nat, t: nat, top: nat)
    requires Ranked(g, rank) && root in g && Follows(g, w, rank, root) && Ranked(w, rank) && Walk(w, root, all, all, tail)
    requires Reaches(g, rank, root, t) && Live(w, t) && t in rank && forall x: nat :: x in g ==> rank[x] <= top
    ensures t in all && t in w && w[t].op.Add?
    decreases top - rank[t]
  {
    assert g.Keys <= rank.Keys;
    hide Follows, Ranked, Reaches, Walk;
    ReachBelow(g, rank, root, t);
    FollowsAt(g, w, rank, root, t);
    var s: nat :| InWalk(g, rank, root, s) && Live(w, s) && t in w[s].operands;
    OperandBelow(w, rank, s, t);
    if s != root {
      ReachedVisited(g, w, rank, root, all, tail, s, top);
    }
    WalkOpen(w, root, all, tail, s, t);
  }

  lemma WalkOpen(w: Graph, root: nat, all: set<nat>, tail: nat, s: nat, t: nat)
    requires Walk(w, root, all, all, tail) && s in w && (s == root || (s in all && w[s].op.Add?)) && t in w[s].operands
    ensures t in all
  {
    assert OpenUser(w, root, all, t, s);
    hide KnownAttached, TailFits;
  }

  /** A rotation whose only user is a reached addition other than the root does not leave that addition live. */
  lemma RotationPulled(g: Graph, w: Graph, rank: map<nat, nat>, root: nat, all: set<nat>, tail: nat, t: nat, x: nat)
    requires Ranked(g, rank) && root in g && Follows(g, w, rank, root) && Ranked(w, rank) && Walk(w, root, all, all, tail)
    requires Reaches(g, rank, root, t) && SoleUser(g, x, t) && x in g && IsRotate(g[x].op)
    ensures !Live(w, t)
  {
    if Live(w, t) {
      hide Follows, Ranked, Reaches, Walk;
      ReachBelow(g, rank, root, t);
      var top := TopOf(rank, g.Keys);
      ReachedVisited(g, w, rank, root, all, tail, t, top);
      FollowsSole(g, w, rank, root, x, t);
      FollowsAt(g, w, rank, root, x);
      if x == root {
        ReachBelow(g, rank, root, t);
        OperandBelow(g, rank, t, x);
        assert false;
      } else {
        hide SoleUser;
        StillRotates(g, w, rank, root, x);
        UserReads(w, x, t);
        WalkOpen(w, root, all, tail, t, x);
        VisitedRotation(w, root, all, tail, x, t);
      }
    }
  }

  lemma UserReads(w: Graph, x: nat, t: nat)
    requires SoleUser(w, x, t)
    ensures t in w && x in w[t].operands && SingleUse(w, x)
  {
  }

  lemma StillRotates(g: Graph, w: Graph, rank: map<nat, nat>, root: nat, x: nat)
    requires Ranked(g, rank) && root in g && x in g && w.Keys == g.Keys && OpFollows(g, w, rank, root, x) && IsRotate(g[x].op)
    ensures w[x].op == g[x].op
  {
    hide Reaches, Ranked;
    if Reaches(g, rank, root, x) {
      ReachBelow(g, rank, root, x);
    }
  }

  /** A visited rotation with a single use is one of the collected ones, so the root reads it. */
  lemma VisitedRotation(w: Graph, root: nat, all: set<nat>, tail: nat, x: nat, t: nat)
    requires Walk(w, root, all, all, tail) && x in all && x in w && IsRotate(w[x].op) && SoleUser(w, x, t)
    ensures t == root
  {
    assert SingleUse(w, x);
    hide KnownAttached, OpenKnown;
    assert x in Tail(w, root, tail);
    assert x in w[root].operands;
  }

  /** Every reached addition with a single-use rotation below is dropped or gets lighter. */
  lemma {:induction false} WarmLosesAt(g: Graph, w: Graph, rank: map<nat, nat>, root: nat, all: set<nat>, tail: nat, a: nat)
    requires Stepped(g, w, rank, root) && Ranked(g, rank) && Ranked(w, rank) && root in g && Walk(w, root, all, all, tail)
    requires Reaches(g, rank, root, a) && a in g && Warm(g, rank, a) && Live(w, a) && a in w
    ensures Weight(w, rank, a) < Weight(g, rank, a)
    decreases rank[a]
  {
    UnfoldStepped(g, w, rank, root);
    UnfoldFit(w, rank, root);
    ReachBelow(g, rank, root, a);
    LighterHere(g, w, rank, root, a);
    FollowsAt(g, w, rank, root, a);
    var x: nat :| x in g[a].operands && WarmBy(g, rank, a, x);
    OperandBelow(g, rank, a, x);
    if Weight(w, rank, a) >= Weight(g, rank, a) {
      LighterFact(g, w, rank, a);
      if SingleUseRotate(g, x) {
        SoleIs(g, x, a);
        RotationPulled(g, w, rank, root, all, tail, a, x);
      } else {
        ReachOn(g, rank, root, a, x);
        WarmLosesAt(g, w, rank, root, all, tail, x);
      }
    }
  }

  lemma LighterHere(g: Graph, h: Graph, rank: map<nat, nat>, root: nat, t: nat)
    requires Ranked(g, rank) && Ranked(h, rank) && Lighter(g, h, rank, root) && Live(h, t) && t in g && root in g && rank[t] < rank[root]
    ensures Live(g, t) && t in h && LighterAt(g, h, rank, t)
  {
    hide Weight, Ranked;
  }

  // ----- the result

  lemma FinishedLighter(w: Graph, rank: map<nat, nat>, root: nat)
    requires Ranked(w, rank) && root in w && Ranked(Finished(w, root), rank) && Clean(Finished(w, root))
    ensures Lighter(w, Finished(w, root), rank, root)
  {
    hide FinishedOperands, FinishedAmounts, SingleUseRotate, Weight, Ranked;
    UnchangedLighter(w, Finished(w, root), rank, root);
  }

  /** What the result is for a caller who looks at weights and kinds. */
  lemma ResultStepped(g: Graph, rank: map<nat, nat>, root: nat) returns (all: set<nat>, tail: nat)
    requires Ranked(g, rank) && Typed(g) && Clean(g) && root in g && Acts(g, root)
    ensures Stepped(g, Walked(g, root), rank, root) && Walk(Walked(g, root), root, all, all, tail) && Ranked(Walked(g, root), rank)
    ensures Ranked(FuseResult(g, root), rank) && Typed(FuseResult(g, root)) && Clean(FuseResult(g, root))
    ensures Lighter(Walked(g, root), FuseResult(g, root), rank, root) && Lighter(g, FuseResult(g, root), rank, root)
  {
    hide *;
    TypedCounts(g);
    all, tail := WalkedStepped(g, rank, root);
    var w := Walked(g, root);
    UnfoldStepped(g, w, rank, root);
    UnfoldFit(w, rank, root);
    AllCollected(w, rank, root, all, tail);
    FinishKeeps(w, rank, root, |w[root].operands| - tail, {});
    FinishedTyped(w, root);
    FinishedLighter(w, rank, root);
    ResultIs(g, root);
    LighterTrans(g, w, Finished(w, root), rank, root);
  }

  /** Every reached addition with a single-use rotation below is dropped or loses weight. */
  lemma WarmLoses(g: Graph, rank: map<nat, nat>, root: nat, a: nat)
    requires Ranked(g, rank) && Typed(g) && Clean(g) && root in g && Acts(g, root)
    requires Reaches(g, rank, root, a) && a in g && Warm(g, rank, a) && Live(FuseResult(g, root), a)
    ensures Ranked(FuseResult(g, root), rank) && Weight(FuseResult(g, root), rank, a) < Weight(g, rank, a)
  {
    hide *;
    ReachBelow(g, rank, root, a);
    var all, tail := ResultStepped(g, rank, root);
    var w, h := Walked(g, root), FuseResult(g, root);
    LighterHere(w, h, rank, root, a);
    LighterFact(w, h, rank, a);
    WarmLosesAt(g, w, rank, root, all, tail, a);
  }

  /** So does everything that reads one. */
  lemma ReaderLoses(g: Graph, rank: map<nat, nat>, root: nat, a: nat, q: nat)
    requires Ranked(g, rank) && Typed(g) && Clean(g) && root in g && Acts(g, root)
    requires Reaches(g, rank, root, a) && a in g && Warm(g, rank, a) && q in g && a in g[q].operands && rank[q] < rank[root]
    requires Live(FuseResult(g, root), q) && !IsLeaf(FuseResult(g, root)[q].op)
    ensures Ranked(FuseResult(g, root), rank) && Weight(FuseResult(g, root), rank, q) < Weight(g, rank, q)
  {
    hide *;
    var all, tail := ResultStepped(g, rank, root);
    var h := FuseResult(g, root);
    LighterHere(g, h, rank, root, q);
    LighterFact(g, h, rank, q);
    if Weight(h, rank, q) == Weight(g, rank, q) {
      SameWeightOf(g, h, rank, h[q].operands, a);
      CleanAt(h, q, a);
      WarmLoses(g, rank, root, a);
    }
  }

  lemma SameWeightOf(g: Graph, h: Graph, rank: map<nat, nat>, operands: seq<nat>, x: nat)
    requires Ranked(g, rank) && Ranked(h, rank) && SameWeights(g, h, rank, operands) && x in operands
    ensures x in g && x in h && Weight(h, rank, x) == Weight(g, rank, x)
  {
    hide Weight, Ranked;
  }

  lemma CleanAt(g: Graph, t: nat, x: nat)
    requires Clean(g) && Live(g, t) && x in g[t].operands
    ensures Live(g, x)
  {
  }

  /** The two readings of all ones. */
  lemma OnesKept(g: Graph, h: Graph, rank: map<nat, nat>, root: nat)
    requires Ranked(g, rank) && Ranked(h, rank) && Typed(g) && Typed(h) && root in g && KeepsAll(g, h, rank, root)
    ensures AllKept(g, h, rank, root, Values(g, rank), Values(h, rank))
  {
    hide *;
    ValuesRight(g, rank);
    ValuesRight(h, rank);
    KeepsAllAt(g, h, rank, root, Ones(), Values(g, rank), Values(h, rank), 1);
  }

  lemma KeepsAllAt(g: Graph, h: Graph, rank: map<nat, nat>, root: nat, m: Reading, val: Valuation, after: Valuation, n: nat)
    requires Ranked(g, rank) && root in g && KeepsAll(g, h, rank, root)
    requires Consistent(Reread(g, m), val, n) && Consistent(Reread(h, m), after, n)
    ensures AllKept(g, h, rank, root, val, after)
  {
    hide AllKept, Reread, Consistent, Ranked;
  }

  /** A shared addition with a single-use rotation below shows the change. */
  lemma KeepsFits(g: Graph, rank: map<nat, nat>, root: nat)
    requires Ranked(g, rank) && Typed(g) && Clean(g) && root in g && Acts(g, root)
    requires KeepsAll(g, FuseResult(g, root), rank, root)
    ensures Fits(g, rank, root)
  {
    hide *;
    var h := FuseResult(g, root);
    var all, tail := ResultStepped(g, rank, root);
    OnesKept(g, h, rank, root);
    forall a: nat | a in g.Keys && Reaches(g, rank, root, a) && Warm(g, rank, a)
      ensures SingleUse(g, a)
    {
      if !SingleUse(g, a) {
        ReachBelow(g, rank, root, a);
        SharedToKeep(g, rank, root, a);
        KeptWeight(g, h, rank, root, a);
        WarmLoses(g, rank, root, a);
      }
    }
    MakeFits(g, rank, root);
  }

  lemma MakeFits(g: Graph, rank: map<nat, nat>, root: nat)
    requires Ranked(g, rank) && root in g
    requires forall a: nat :: a in g.Keys && Reaches(g, rank, root, a) && Warm(g, rank, a) ==> SingleUse(g, a)
    ensures Fits(g, rank, root)
  {
    hide Ranked, Reaches, Warm, SingleUse;
  }

  lemma SharedToKeep(g: Graph, rank: map<nat, nat>, root: nat, a: nat)
    requires Ranked(g, rank) && root in g && a in g && g[a].op.Add? && !SingleUse(g, a)
    ensures ToKeep(g, rank, root, a)
  {
    hide Ranked, Reaches, Warm, SingleUse, Met;
  }

  lemma KeptWeight(g: Graph, h: Graph, rank: map<nat, nat>, root: nat, a: nat)
    requires Ranked(g, rank) && Ranked(h, rank) && root in g && ToKeep(g, rank, root, a) && a in g && g[a].op.Add?
    requires AllKept(g, h, rank, root, Values(g, rank), Values(h, rank))
    ensures Live(h, a) && Weight(h, rank, a) == Weight(g, rank, a)
  {
    hide Ranked, ToKeep, Weight;
    assert Live(h, a) && a in Values(g, rank) && Values(h, rank)[a] == Values(g, rank)[a];
  }

  /** A pass that does not act changes nothing. */
  lemma IdleKeeps(g: Graph, rank: map<nat, nat>, root: nat)
    requires Ranked(g, rank) && Clean(g) && root in g
    ensures KeepsAll(g, g, rank, root)
  {
    hide *;
    forall m: Reading, val: Valuation, after: Valuation, n: nat | Consistent(Reread(g, m), val, n) && Consistent(Reread(g, m), after, n)
      ensures AllKept(g, g, rank, root, val, after)
    {
      var r := Reread(g, m);
      RereadShape(g, m, rank);
      KeysOf(r, val, n);
      KeysOf(r, after, n);
      forall t: nat | ToKeep(g, rank, root, t)
        ensures Live(g, t) && t in val && t in after && after[t] == val[t]
      {
        KeepFacts(g, rank, root, t);
        ValueUnique(r, rank, after, val, n, t);
      }
      MakeAllKept(g, g, rank, root, val, after);
    }
    MakeKeeps(g, g, rank, root);
  }

  /** Fusing keeps every value it has to keep, for all inputs and whatever the other operations compute, exactly when it
      does nothing or every reached addition with a single-use rotation below is used once. */
  lemma FuseKeepsExactly(g: Graph, rank: map<nat, nat>, root: nat)
    requires Ranked(g, rank) && Typed(g) && Clean(g) && root in g
    ensures KeepsAll(g, FuseResult(g, root), rank, root) <==> (Acts(g, root) ==> Fits(g, rank, root))
  {
    hide *;
    if !Acts(g, root) {
      IdleResult(g, root);
      IdleKeeps(g, rank, root);
    } else {
      TypedCounts(g);
      if Fits(g, rank, root) {
        FitsKeeps(g, rank, root);
      }
      if KeepsAll(g, FuseResult(g, root), rank, root) {
        KeepsFits(g, rank, root);
      }
    }
  }

  lemma IdleResult(g: Graph, root: nat)
    requires root in g && !Acts(g, root)
    ensures FuseResult(g, root) == g
  {
  }

  // ----- what is dropped

  /** Only reached additions and single-use rotations that reached additions or the root read are dropped. */
  lemma DroppedOnly(g: Graph, rank: map<nat, nat>, root: nat, t: nat)
    requires Ranked(g, rank) && Typed(g) && Clean(g) && root in g && Acts(g, root) && t in g && t != root
    ensures t in FuseResult(g, root)
    ensures var op := FuseResult(g, root)[t].op;
      op == g[t].op || (op.Nop? && (Reaches(g, rank, root, t) || (SingleUseRotate(g, t) && Met(g, rank, root, t))))
  {
    hide *;
    var w := Walked(g, root);
    TypedCounts(g);
    var all, tail := WalkedStepped(g, rank, root);
    UnfoldStepped(g, w, rank, root);
    WalkedInside(g, rank, root);
    ResultIs(g, root);
    AbsorbOps(w, root);
    FollowsAt(g, w, rank, root, t);
    OpFollowsIs(g, w, rank, root, t);
    if t in w[root].operands && SingleUseRotate(w, t) {
      InsideRotate(g, w, rank, root, t);
    }
  }

  lemma OpFollowsIs(g: Graph, cur: Graph, rank: map<nat, nat>, root: nat, t: nat)
    requires Ranked(g, rank) && root in g && t in g && t in cur && OpFollows(g, cur, rank, root, t)
    ensures cur[t].op == g[t].op || (cur[t].op.Nop? && Reaches(g, rank, root, t))
  {
    hide Reaches, Ranked;
  }

  lemma InsideRotate(g: Graph, w: Graph, rank: map<nat, nat>, root: nat, t: nat)
    requires Ranked(g, rank) && root in g && Inside(g, w, rank, root, {}) && root in w && t in w[root].operands && SingleUseRotate(w, t)
    ensures SingleUseRotate(g, t) && Met(g, rank, root, t)
  {
    hide Ranked, Reaches, Met, SingleUseRotate;
    assert InWalk(g, rank, root, root);
  }

  /** Under the condition all those rotations are absorbed. */
  lemma AllAbsorbed(g: Graph, rank: map<nat, nat>, root: nat, x: nat)
    requires Ranked(g, rank) && Typed(g) && Clean(g) && root in g && Acts(g, root) && Fits(g, rank, root)
    requires SingleUseRotate(g, x) && Met(g, rank, root, x)
    ensures x in FuseResult(g, root) && FuseResult(g, root)[x].op == Nop
  {
    hide *;
    var w, tree, cold := Walked(g, root), TreeOf(g, rank, root), ColdOf(g, rank, root);
    TypedCounts(g);
    FitsTree(g, rank, root);
    var rest := TreeWalked(g, rank, root, tree, cold);
    IsKept(g, w, root, tree, rest, cold);
    SureSingle(g, x);
    MetInner(g, rank, root, x);
    var s := InnerAfter(g, w, root, tree, rest, cold, x);
    var all, tail := WalkedStepped(g, rank, root);
    UnfoldStepped(g, w, rank, root);
    if s != root {
      TreeReached(g, rank, root, s);
      LiveAdd(w, s);
      RankKnown(g, rank, s);
      var top := TopOf(rank, g.Keys);
      ReachedVisited(g, w, rank, root, all, tail, s, top);
    }
    UserReads(w, x, s);
    WalkOpen(w, root, all, tail, s, x);
    VisitedRotation(w, root, all, tail, x, s);
    ResultIs(g, root);
    AbsorbOps(w, root);
    NowSingle(w, x, root);
    RootIsSum(w, rank, root, x);
  }

  lemma RankKnown(g: Graph, rank: map<nat, nat>, t: nat)
    requires Ranked(g, rank) && t in g
    ensures t in rank && g.Keys <= rank.Keys
  {
  }

  lemma RootIsSum(w: Graph, rank: map<nat, nat>, root: nat, x: nat)
    requires Fit(w, rank, root) && x in w && IsRotate(w[x].op)
    ensures x != root
  {
    hide Typed, Clean, Ranked;
  }

  lemma LiveAdd(g: Graph, t: nat)
    requires t in g && g[t].op.Add?
    ensures Live(g, t)
  {
  }

  lemma NowSingle(g: Graph, x: nat, t: nat)
    requires SoleUser(g, x, t) && x in g && IsRotate(g[x].op)
    ensures SingleUseRotate(g, x)
  {
  }

  lemma TreeReached(g: Graph, rank: map<nat, nat>, root: nat, a: nat)
    requires Ranked(g, rank) && root in g && a in TreeOf(g, rank, root)
    ensures Reaches(g, rank, root, a)
  {
    hide Ranked, Reaches, Warm, SingleUse;
  }

  lemma MetInner(g: Graph, rank: map<nat, nat>, root: nat, x: nat)
    requires Ranked(g, rank) && root in g && Fits(g, rank, root) && SingleUseRotate(g, x) && Met(g, rank, root, x)
    ensures InnerUsed(g, root, TreeOf(g, rank, root), x)
  {
    hide Ranked, Reaches, SoleUser, SingleUse;
    var t: nat :| t in g && InWalk(g, rank, root, t) && x in g[t].operands;
    SoleIs(g, x, t);
    if t != root {
      WarmByRotate(g, rank, t, x);
      hide Warm;
      assert t in TreeOf(g, rank, root);
    }
    assert Inner(root, TreeOf(g, rank, root), t);
  }

  lemma WarmByRotate(g: Graph, rank: map<nat, nat>, t: nat, x: nat)
    requires Ranked(g, rank) && t in g && x in g[t].operands && SingleUseRotate(g, x)
    ensures Warm(g, rank, t)
  {
    assert WarmBy(g, rank, t, x);
  }

  /** The only user after the walk: the root, or an addition that is left. */
  lemma InnerAfter(g: Graph, w: Graph, root: nat, tree: set<nat>, rest: set<nat>, cold: set<nat>, x: nat) returns (s: nat)
    requires RotationsInner(g, w, root, tree, rest) && IsTree(w, root, rest, cold) && rest <= tree
    requires x in g && IsRotate(g[x].op) && InnerUsed(g, root, tree, x)
    ensures SoleUser(w, x, s) && s in w && (s == root || (s in tree && w[s].op.Add?)) && x in w && IsRotate(w[x].op)
  {
    hide SoleUser, SingleUse, IsRotate;
    assert InnerUsed(w, root, rest, x);
    s :| Inner(root, rest, s) && SoleUser(w, x, s);
  }
}

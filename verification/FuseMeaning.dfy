/** What fusing means: when every addition above a reached single-use rotation is itself used once, all values outside those
    additions are kept, for all inputs and whatever the other operations compute. */
module FuseMeaning {
  import opened TermGraph
  import opened KeyswitchPasses
  import opened AdditionTrees
  import opened PullRotations
  import opened FuseWalk
  import opened FuseAggregation
  import opened FusePass

  // ----- values, given the tree

  /** The additions on the checklist belong to the tree or are cold. */
  ghost predicate KnownCovered(g: Graph, tree: set<nat>, cold: set<nat>, known: set<nat>)
  {
    forall a: nat :: a in known && a in g && g[a].op.Add? ==> a in tree || a in cold
  }

  /** Operations are kept except at the root and at dropped additions of the tree. */
  ghost predicate OpsKept(g: Graph, h: Graph, root: nat, tree: set<nat>)
  {
    h.Keys == g.Keys && forall t: nat :: t in g && t != root ==> h[t].op == g[t].op || (h[t].op.Nop? && t in tree)
  }

  /** Rotations used in the tree are used in what is left of it. */
  ghost predicate RotationsInner(g: Graph, h: Graph, root: nat, tree: set<nat>, rest: set<nat>)
  {
    forall x: nat :: x in g && IsRotate(g[x].op) && InnerUsed(g, root, tree, x) ==> x in h && IsRotate(h[x].op) && InnerUsed(h, root, rest, x)
  }

  /** What a walk from g to h keeps. */
  ghost predicate TreeKept(g: Graph, h: Graph, root: nat, tree: set<nat>, rest: set<nat>, cold: set<nat>)
  {
    && rest <= tree && IsTree(h, root, rest, cold) && SameOutside(g, h, tree) && OpsKept(g, h, root, tree)
    && RotationsInner(g, h, root, tree, rest)
  }

  lemma TreeAfterTake(g: Graph, rank: map<nat, nat>, root: nat, tree: set<nat>, cold: set<nat>, visited: set<nat>, known: set<nat>,
                      tail: nat, x: nat)
      returns (rest: set<nat>)
    requires Sane(g, rank, root) && Walk(g, root, visited, known, tail) && x in known && x !in visited && root in g && x in g
    requires IsTree(g, root, tree, cold) && KnownCovered(g, tree, cold, known)
    ensures TreeKept(g, Take(g, root, x), root, tree, rest, cold)
    ensures KnownCovered(Take(g, root, x), rest, cold, KnownAfter(g, known, x))
  {
    hide *;
    UnfoldSane(g, rank, root);
    UnfoldWalk(g, root, visited, known, tail, x);
    if !SingleUseRotate(g, x) {
      TakeNothing(g, root, x);
      rest := tree;
      NothingKept(g, root, tree, cold);
      PushedCovered(g, root, tree, cold, known, x);
      AfterOther(g, known, tail, x);
    } else {
      SureSingle(g, x);
      AfterRotate(g, known, tail, x);
      if UserOf(g, x) == root {
        TakeMoves(g, root, x);
        rest := tree;
        MovedKept(g, root, tree, cold, known, x);
      } else {
        var u, other, s := PullPlace(g, rank, root, visited, known, tail, x);
        TakePulls(g, root, x);
        VisitedAttached(g, root, visited, known, u);
        SpotFacts(g, root, u, x, other);
        PullSiteHere(g, root, tree, cold, known, u, x, other, s);
        rest := tree - {u};
        PulledKept(g, rank, root, tree, cold, known, u, x, other, s);
      }
    }
  }

  lemma NothingKept(g: Graph, root: nat, tree: set<nat>, cold: set<nat>)
    requires IsTree(g, root, tree, cold)
    ensures TreeKept(g, g, root, tree, tree, cold)
  {
    hide IsTree, Consistent;
    forall val: Valuation, n: nat | Consistent(g, val, n)
      ensures SameFor(g, tree, val, n)
    {
      assert Outside(tree, val, val);
    }
  }

  lemma PushedCovered(g: Graph, root: nat, tree: set<nat>, cold: set<nat>, known: set<nat>, x: nat)
    requires IsTree(g, root, tree, cold) && KnownCovered(g, tree, cold, known) && x in known && x in g
    ensures KnownCovered(g, tree, cold, if g[x].op.Add? then known + (set y | y in g[x].operands) else known)
  {
    hide InnerUsed, SingleUseRotate;
    if g[x].op.Add? {
      forall y: nat | y in g[x].operands && y in g && g[y].op.Add?
        ensures y in tree || y in cold
      {
        assert x in cold ==> Cold(g, cold, y);
        assert Inner(root, tree, x) ==> Covered(g, tree, cold, y);
      }
    }
  }

  lemma MovedKept(g: Graph, root: nat, tree: set<nat>, cold: set<nat>, known: set<nat>, x: nat)
    requires IsTree(g, root, tree, cold) && KnownCovered(g, tree, cold, known) && Collecting(g, root) && x in g[root].operands
    ensures TreeKept(g, Moved(g, root, x), root, tree, tree, cold) && KnownCovered(Moved(g, root, x), tree, cold, known)
  {
    hide IsTree, SameOutside, InnerUsed;
    var h := Moved(g, root, x);
    MovedSame(g, root, x);
    SameTree(g, h, root, tree, cold);
    MoveKeeps(g, root, x, tree);
    hide Moved, Collecting;
    forall y: nat | y in g && IsRotate(g[y].op) && InnerUsed(g, root, tree, y)
      ensures InnerUsed(h, root, tree, y)
    {
      SameInner(g, h, root, tree, y);
    }
  }

  /** Under the tree the user of the addition is its only one, so this is a pull within the tree. */
  lemma PullSiteHere(g: Graph, root: nat, tree: set<nat>, cold: set<nat>, known: set<nat>, u: nat, r: nat, other: nat, s: nat)
    requires IsTree(g, root, tree, cold) && KnownCovered(g, tree, cold, known) && u in known && PullSpot(g, root, u, r, other)
    requires SingleUseRotate(g, r) && s in g && u in g[s].operands
    ensures PullSite(g, root, tree, cold, u, r, other, s)
  {
    SpotFacts(g, root, u, r, other);
    assert r in g[u].operands by {
      assert Count(g, u, r) == 1;
    }
    assert u in cold ==> Cold(g, cold, r);
    assert InnerUsed(g, root, tree, u);
    hide PullSpot, IsTree, SingleUse, Pullable;
    var t: nat :| Inner(root, tree, t) && SoleUser(g, u, t);
    assert s == t;
    assert u !in g[u].operands by {
      assert Count(g, u, u) == 0;
    }
  }

  lemma PulledKept(g: Graph, rank: map<nat, nat>, root: nat, tree: set<nat>, cold: set<nat>, known: set<nat>, u: nat, r: nat, other: nat, s: nat)
    requires Ranked(g, rank) && g.Keys <= rank.Keys && Collecting(g, root) && IsTree(g, root, tree, cold) && KnownCovered(g, tree, cold, known)
    requires PullSite(g, root, tree, cold, u, r, other, s)
    ensures root in g && TreeKept(g, Pulled(g, root, u, r, other), root, tree, tree - {u}, cold)
    ensures KnownCovered(Pulled(g, root, u, r, other), tree - {u}, cold, known)
  {
    hide *;
    SiteSpot(g, root, tree, cold, u, r, other, s);
    SpotFacts(g, root, u, r, other);
    PulledTree(g, root, tree, cold, u, r, other, s);
    var top := TopOf(rank, g.Keys);
    MakeBounded(g, rank, top);
    PullSame(g, rank, top, root, tree, cold, u, r, other);
    PulledOpsKept(g, root, tree, u, r, other);
    PulledKnown(g, root, tree, cold, known, u, r, other);
    PulledRotations(g, root, tree, cold, u, r, other, s);
    MakeKept(g, Pulled(g, root, u, r, other), root, tree, tree - {u}, cold);
  }

  lemma MakeBounded(g: Graph, rank: map<nat, nat>, top: nat)
    requires Ranked(g, rank) && g.Keys <= rank.Keys && forall x: nat :: x in g.Keys ==> rank[x] <= top
    ensures Bounded(g, rank, top)
  {
    hide Ranked;
  }

  lemma MakeKept(g: Graph, h: Graph, root: nat, tree: set<nat>, rest: set<nat>, cold: set<nat>)
    requires rest <= tree && IsTree(h, root, rest, cold) && SameOutside(g, h, tree) && OpsKept(g, h, root, tree)
    requires RotationsInner(g, h, root, tree, rest)
    ensures TreeKept(g, h, root, tree, rest, cold)
  {
    hide IsTree, SameOutside, OpsKept, RotationsInner;
  }

  lemma PulledOpsKept(g: Graph, root: nat, tree: set<nat>, u: nat, r: nat, other: nat)
    requires PullSpot(g, root, u, r, other) && u in tree
    ensures root in g && OpsKept(g, Pulled(g, root, u, r, other), root, tree)
  {
    SpotFacts(g, root, u, r, other);
    SameKeys(g, root, u, r, other);
    var h := Pulled(g, root, u, r, other);
    hide Pulled, PullSpot, SoleUser;
    forall t: nat | t in g && t != root
      ensures h[t].op == g[t].op || (h[t].op.Nop? && t in tree)
    {
      PulledTerm(g, root, u, r, other, t);
    }
  }

  lemma PulledKnown(g: Graph, root: nat, tree: set<nat>, cold: set<nat>, known: set<nat>, u: nat, r: nat, other: nat)
    requires PullSpot(g, root, u, r, other) && KnownCovered(g, tree, cold, known)
    ensures root in g && KnownCovered(Pulled(g, root, u, r, other), tree - {u}, cold, known)
  {
    SpotFacts(g, root, u, r, other);
    SameKeys(g, root, u, r, other);
    var h := Pulled(g, root, u, r, other);
    hide Pulled, PullSpot, SoleUser;
    forall t: nat | t in g
      ensures h[t].op.Add? ==> g[t].op.Add? && t != u
    {
      PulledTerm(g, root, u, r, other, t);
    }
  }

  lemma PulledRotations(g: Graph, root: nat, tree: set<nat>, cold: set<nat>, u: nat, r: nat, other: nat, s: nat)
    requires PullSite(g, root, tree, cold, u, r, other, s)
    ensures root in g && RotationsInner(g, Pulled(g, root, u, r, other), root, tree, tree - {u})
  {
    SiteSpot(g, root, tree, cold, u, r, other, s);
    SpotFacts(g, root, u, r, other);
    var h := Pulled(g, root, u, r, other);
    hide Pulled, PullSpot, PullSite, InnerUsed, SoleUser;
    forall y: nat | y in g && IsRotate(g[y].op) && InnerUsed(g, root, tree, y)
      ensures y in h && IsRotate(h[y].op) && InnerUsed(h, root, tree - {u}, y)
    {
      PulledInner(g, root, tree, cold, u, r, other, s, y);
      RotatesStay(g, root, u, r, other, y);
    }
  }

  lemma OpsTrans(g: Graph, h: Graph, k: Graph, root: nat, tree: set<nat>, rest: set<nat>)
    requires OpsKept(g, h, root, tree) && OpsKept(h, k, root, rest) && rest <= tree
    ensures OpsKept(g, k, root, tree)
  {
  }

  lemma KeptTrans(g: Graph, h: Graph, k: Graph, root: nat, tree: set<nat>, rest: set<nat>, less: set<nat>, cold: set<nat>)
    requires TreeKept(g, h, root, tree, rest, cold) && TreeKept(h, k, root, rest, less, cold)
    ensures TreeKept(g, k, root, tree, less, cold)
  {
    hide SameOutside, OpsKept, IsTree, InnerUsed;
    SameOutsideTrans(g, h, k, tree, rest);
    OpsTrans(g, h, k, root, tree, rest);
  }

  lemma {:induction false} WalkTree(g: Graph, rank: map<nat, nat>, root: nat, tree: set<nat>, cold: set<nat>, visited: set<nat>,
                                    checklist: seq<nat>, tail: nat)
      returns (rest: set<nat>)
    requires Sane(g, rank, root) && Walk(g, root, visited, Known(visited, checklist), tail) && root in g
    requires IsTree(g, root, tree, cold) && KnownCovered(g, tree, cold, Known(visited, checklist))
    ensures TreeKept(g, WalkFrom(g, root, visited, checklist), root, tree, rest, cold)
    decreases g.Keys - visited, |checklist|
  {
    hide *;
    if |checklist| == 0 {
      WalkNothing(g, root, visited, checklist);
      rest := tree;
      NothingKept(g, root, tree, cold);
    } else {
      var last := |checklist| - 1;
      var x := checklist[last];
      if x in visited {
        WalkSkip(g, root, visited, checklist);
        rest := WalkTree(g, rank, root, tree, cold, visited, checklist[..last], tail);
      } else {
        KnownPop(visited, checklist);
        StepKeeps(g, rank, root, visited, Known(visited, checklist), tail, x);
        WalkStep(g, root, visited, checklist);
        var less := TreeAfterTake(g, rank, root, tree, cold, visited, Known(visited, checklist), tail, x);
        IsKept(g, Take(g, root, x), root, tree, less, cold);
        rest := WalkTree(Take(g, root, x), rank, root, less, cold, visited + {x}, checklist[..last] + Pushed(g, x), TailAfter(g, tail, x));
        KeptTrans(g, Take(g, root, x), WalkFrom(g, root, visited, checklist), root, tree, less, rest, cold);
      }
    }
  }

  lemma IsKept(g: Graph, h: Graph, root: nat, tree: set<nat>, rest: set<nat>, cold: set<nat>)
    requires TreeKept(g, h, root, tree, rest, cold)
    ensures IsTree(h, root, rest, cold) && rest <= tree && SameOutside(g, h, tree) && OpsKept(g, h, root, tree)
    ensures RotationsInner(g, h, root, tree, rest)
  {
    hide IsTree, SameOutside, OpsKept, InnerUsed;
  }

  lemma StartSum(operands: seq<nat>, val: Valuation, n: nat)
    requires |operands| == 2 && AllVecs(operands, val, n)
    ensures PlainSum(operands, val, n) == Plus(VecOf(val, operands[0]), VecOf(val, operands[1]), n)
  {
    assert operands[..1] == [operands[0]];
    PlainSumOne(operands[0], val, n);
  }

  lemma StartKeeps(g: Graph, root: nat, tree: set<nat>)
    requires root in g && g[root].op.Add? && |g[root].operands| == 2
    ensures SameOutside(g, Started(g, root), tree)
  {
    var operands := g[root].operands;
    hide Consistent;
    forall val: Valuation, n: nat | Consistent(g, val, n)
      ensures SameFor(Started(g, root), tree, val, n)
    {
      StartRight(g, root, val, n);
      ReplacedRoot(g, root, Term(RotAcc(Zeros(|operands|)), operands), tree, val, n);
    }
  }

  lemma StartRight(g: Graph, root: nat, val: Valuation, n: nat)
    requires Consistent(g, val, n) && root in g && g[root].op.Add? && |g[root].operands| == 2
    ensures TermRight(Term(RotAcc(Zeros(|g[root].operands|)), g[root].operands), val[root], val, n)
  {
    var operands := g[root].operands;
    assert TermRight(g[root], val[root], val, n);
    assert operands[0] in val && operands[1] in val;
    assert TermRight(g[operands[0]], val[operands[0]], val, n) && TermRight(g[operands[1]], val[operands[1]], val, n);
    hide TermRight, PlainSum, RotSum;
    StartSum(operands, val, n);
    RotSumPlain(operands, val, n);
    RotAccRight(operands, Zeros(|operands|), val[root].v, val, n);
  }

  lemma StartUses(g: Graph, root: nat, x: nat)
    requires root in g && g[root].op.Add?
    ensures forall t: nat :: SoleUser(Started(g, root), x, t) <==> SoleUser(g, x, t)
    ensures SingleUseRotate(Started(g, root), x) <==> SingleUseRotate(g, x)
  {
    var h := Started(g, root);
    assert h.Keys == g.Keys && forall s: nat :: s in g ==> h[s].operands == g[s].operands;
    forall t: nat
      ensures SoleUser(h, x, t) <==> SoleUser(g, x, t)
    {
      hide Started;
    }
  }

  lemma StartInner(g: Graph, root: nat, tree: set<nat>, x: nat)
    requires root in g && g[root].op.Add?
    ensures InnerUsed(g, root, tree, x) ==> InnerUsed(Started(g, root), root, tree, x)
  {
    StartUses(g, root, x);
    hide SoleUser, Started;
    if InnerUsed(g, root, tree, x) {
      var t: nat :| Inner(root, tree, t) && SoleUser(g, x, t);
      assert SoleUser(Started(g, root), x, t);
    }
  }

  lemma StartTree(g: Graph, root: nat, tree: set<nat>, cold: set<nat>)
    requires IsTree(g, root, tree, cold) && g[root].op.Add?
    ensures IsTree(Started(g, root), root, tree, cold)
  {
    hide SoleUser, SingleUse, InnerUsed;
    var h := Started(g, root);
    forall x: nat
      ensures SingleUseRotate(h, x) <==> SingleUseRotate(g, x)
      ensures InnerUsed(g, root, tree, x) ==> InnerUsed(h, root, tree, x)
    {
      StartUses(g, root, x);
      StartInner(g, root, tree, x);
    }
    hide SingleUseRotate;
    forall t: nat, x: nat | Inner(root, tree, t) && x in h[t].operands
      ensures Covered(h, tree, cold, x)
    {
      assert Covered(g, tree, cold, x);
    }
    forall t: nat, x: nat | t in cold && x in h[t].operands
      ensures Cold(h, cold, x)
    {
      assert Cold(g, cold, x);
    }
  }

  lemma StartCovered(g: Graph, root: nat, tree: set<nat>, cold: set<nat>)
    requires IsTree(g, root, tree, cold) && g[root].op.Add?
    ensures KnownCovered(Started(g, root), tree, cold, Known({}, g[root].operands))
  {
    hide InnerUsed, SingleUseRotate;
    forall a: nat | a in g[root].operands && a in g && Started(g, root)[a].op.Add?
      ensures a in tree || a in cold
    {
      assert Inner(root, tree, root);
      assert Covered(g, tree, cold, a);
    }
  }

  lemma ActsFacts(g: Graph, root: nat)
    requires root in g && Acts(g, root)
    ensures g[root].op.Add? && |g[root].operands| == 2
  {
    hide SingleUseRotate;
  }

  /** What the collected graph hands on to the last phase. */
  lemma WalkedCollected(g: Graph, rank: map<nat, nat>, root: nat) returns (all: set<nat>, front: nat)
    requires Ranked(g, rank) && OneOperandRotates(g) && TwoOperandAdds(g) && root in g && Acts(g, root)
    ensures Sane(Walked(g, root), rank, root) && (Clean(g) ==> Clean(Walked(g, root)))
    ensures root in Walked(g, root) && Collected(Walked(g, root), root, front)
    ensures exists tail: nat :: Walk(Walked(g, root), root, all, all, tail)
  {
    ActsFacts(g, root);
    StartSane(g, rank, root);
    hide *;
    WalkedIs(g, root);
    var tail;
    StartedKeys(g, root);
    all, tail := WalkEnds(Started(g, root), rank, root, {}, g[root].operands, 0);
    AllCollected(Walked(g, root), rank, root, all, tail);
    front := |Walked(g, root)[root].operands| - tail;
  }

  lemma StartedKeys(g: Graph, root: nat)
    requires root in g
    ensures root in Started(g, root) && Started(g, root).Keys == g.Keys
  {
  }

  lemma WalkedIs(g: Graph, root: nat)
    requires root in g
    ensures root in Started(g, root) && Walked(g, root) == WalkFrom(Started(g, root), root, {}, g[root].operands)
  {
    hide WalkFrom;
  }

  /** The last phase, as what Absorb does. */
  lemma FinishedIsFused(g: Graph, root: nat, front: nat)
    requires Collected(g, root, front)
    ensures root in g && Fused(g, Finished(g, root), root, front)
  {
    CollectedRoot(g, root, front);
    var operands, h := g[root].operands, Finished(g, root);
    forall k: nat | k < |operands|
      ensures Entry(g, root, front, |operands|, k, FinishedOperands(g, operands)[k], FinishedAmounts(g, operands)[k])
    {
      if front <= k {
        assert AbsorbableAt(g, root, k);
        assert SingleUse(g, operands[k]);
      }
    }
    hide FinishedOperands, FinishedAmounts;
    forall t: nat | t in g && t != root
      ensures Absorbed(operands, front, |operands|, t) <==> t in operands && SingleUseRotate(g, t)
    {
      CollectedAre(g, root, front, t);
    }
    hide SingleUseRotate, Absorbed, Collected;
  }

  lemma AbsorbOps(g: Graph, root: nat)
    requires root in g
    ensures Finished(g, root).Keys == g.Keys
    ensures forall t: nat :: t in g && t != root ==>
      Finished(g, root)[t].op == if t in g[root].operands && SingleUseRotate(g, t) then Nop else g[t].op
  {
    hide SingleUseRotate, FinishedOperands, FinishedAmounts;
  }

  /** The last phase keeps all values, and what the graph may rely on. */
  lemma FinishKeeps(g: Graph, rank: map<nat, nat>, root: nat, front: nat, tree: set<nat>)
    requires Ranked(g, rank) && Collected(g, root, front)
    ensures root in g && SameOutside(g, Finished(g, root), tree) && Ranked(Finished(g, root), rank)
    ensures Clean(g) ==> Clean(Finished(g, root))
  {
    FinishedIsFused(g, root, front);
    AbsorbKeeps(g, Finished(g, root), root, front, tree);
    AbsorbRanked(g, Finished(g, root), root, front, rank);
    if Clean(g) {
      AbsorbClean(g, Finished(g, root), root, front);
    }
  }

  /** What the whole walk keeps, given the tree. */
  lemma TreeWalked(g: Graph, rank: map<nat, nat>, root: nat, tree: set<nat>, cold: set<nat>) returns (rest: set<nat>)
    requires Ranked(g, rank) && OneOperandRotates(g) && TwoOperandAdds(g) && root in g && Acts(g, root) && IsTree(g, root, tree, cold)
    ensures TreeKept(g, Walked(g, root), root, tree, rest, cold)
  {
    hide *;
    ActsFacts(g, root);
    WalkedIs(g, root);
    StartSane(g, rank, root);
    StartTree(g, root, tree, cold);
    StartCovered(g, root, tree, cold);
    StartKept(g, root, tree, cold);
    rest := WalkTree(Started(g, root), rank, root, tree, cold, {}, g[root].operands, 0);
    KeptTrans(g, Started(g, root), Walked(g, root), root, tree, tree, rest, cold);
  }

  lemma StartKept(g: Graph, root: nat, tree: set<nat>, cold: set<nat>)
    requires root in g && g[root].op.Add? && |g[root].operands| == 2 && IsTree(g, root, tree, cold)
    ensures TreeKept(g, Started(g, root), root, tree, tree, cold)
  {
    StartKeeps(g, root, tree);
    StartTree(g, root, tree, cold);
    StartOps(g, root, tree);
    hide IsTree, SameOutside, OpsKept, InnerUsed;
    forall x: nat | x in g && IsRotate(g[x].op) && InnerUsed(g, root, tree, x)
      ensures IsRotate(Started(g, root)[x].op) && InnerUsed(Started(g, root), root, tree, x)
    {
      StartInner(g, root, tree, x);
    }
  }

  /** With a tree below the root, every valuation carries over outside the tree, and on graphs whose live terms read live
      terms no live term outside the tree has any other value. */
  lemma TreeResult(g: Graph, rank: map<nat, nat>, root: nat, tree: set<nat>, cold: set<nat>)
    requires Ranked(g, rank) && OneOperandRotates(g) && TwoOperandAdds(g) && root in g && Acts(g, root) && IsTree(g, root, tree, cold)
    ensures SameOutside(g, FuseResult(g, root), tree) && Ranked(FuseResult(g, root), rank)
    ensures Clean(g) ==> Clean(FuseResult(g, root)) && SameMeaning(g, FuseResult(g, root), tree)
    ensures OpsKept(g, Walked(g, root), root, tree)
  {
    hide *;
    ResultIs(g, root);
    var all, front := WalkedCollected(g, rank, root);
    var w := Walked(g, root);
    var rest := TreeWalked(g, rank, root, tree, cold);
    IsKept(g, w, root, tree, rest, cold);
    UnfoldSane(w, rank, root);
    FinishKeeps(w, rank, root, front, tree);
    SameOutsideTrans(g, w, Finished(w, root), tree, tree);
    if Clean(g) {
      MeaningKept(g, Finished(w, root), rank, tree);
    }
  }

  lemma StartOps(g: Graph, root: nat, tree: set<nat>)
    requires root in g
    ensures OpsKept(g, Started(g, root), root, tree)
  {
  }
}

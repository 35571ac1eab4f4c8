/** Who uses what after a rotation has been pulled: use counts, operands, and what stays a single-use rotation. */
module FuseWalk {
  import opened TermGraph
  import opened KeyswitchPasses
  import opened AdditionTrees
  import opened PullRotations

  function Count(g: Graph, t: nat, x: nat): nat
    requires t in g
  {
    multiset(g[t].operands)[x]
  }

  lemma {:induction false} RedirectCount(operands: seq<nat>, a: nat, b: nat, x: nat)
    requires a != b
    ensures multiset(Redirect(operands, a, b))[a] == 0
    ensures multiset(Redirect(operands, a, b))[b] == multiset(operands)[a] + multiset(operands)[b]
    ensures x != a && x != b ==> multiset(Redirect(operands, a, b))[x] == multiset(operands)[x]
  {
    if |operands| > 0 {
      hide Redirect;
      RedirectCount(operands[..|operands| - 1], a, b, x);
      RedirectSnoc(operands, a, b);
    }
  }

  lemma RedirectSnoc(operands: seq<nat>, a: nat, b: nat)
    requires |operands| > 0
    ensures var last := |operands| - 1;
      && operands == operands[..last] + [operands[last]]
      && Redirect(operands, a, b) == Redirect(operands[..last], a, b) + [if operands[last] == a then b else operands[last]]
  {
  }

  // ----- any graph

  /** The place of a pull: r is a rotation used only by the addition u, whose other operand takes its place. */
  ghost predicate PullSpot(g: Graph, root: nat, u: nat, r: nat, other: nat)
  {
    && Pullable(g, root, u, r, other) && SoleUser(g, r, u) && r in g && IsRotate(g[r].op) && other in g && r != root && other != root
    && g[root].op.RotAcc?
  }

  lemma SpotFacts(g: Graph, root: nat, u: nat, r: nat, other: nat)
    requires PullSpot(g, root, u, r, other)
    ensures Pullable(g, root, u, r, other) && u in g && root in g && r in g && other in g && u != root && r != u && other != u && r != other
    ensures SoleUser(g, r, u) && IsRotate(g[r].op) && g[root].op.RotAcc? && g[u].op.Add? && r != root && other != root
    ensures Count(g, u, r) == 1 && Count(g, u, other) == 1
    ensures forall t: nat :: t in g && t != u ==> Count(g, t, r) == 0
    ensures forall x: nat :: x != r && x != other ==> Count(g, u, x) == 0
  {
  }

  lemma PulledCount(g: Graph, root: nat, u: nat, r: nat, other: nat, t: nat, x: nat)
    requires PullSpot(g, root, u, r, other) && t in g
    ensures var h := Pulled(g, root, u, r, other);
      h.Keys == g.Keys && Count(h, t, x) ==
        if t == u || x == u then 0
        else Count(g, t, x) + (if x == other then Count(g, t, u) else 0) + (if x == r && t == root then 1 else 0)
  {
    PulledTerm(g, root, u, r, other, t);
    SameKeys(g, root, u, r, other);
    hide Pulled;
    RedirectCount(g[t].operands, u, other, x);
  }

  lemma SoleCounts(g: Graph, x: nat, t: nat)
    requires t in g
    ensures SoleUser(g, x, t) <==> (forall s: nat :: s in g ==> Count(g, s, x) == if s == t then 1 else 0)
  {
    if forall s: nat :: s in g ==> Count(g, s, x) == if s == t then 1 else 0 {
      assert Count(g, t, x) == 1;
      forall s: nat | s in g && s != t
        ensures x !in g[s].operands
      {
        assert Count(g, s, x) == 0;
      }
    }
  }

  /** Operands after a pull. */
  lemma PulledOperand(g: Graph, root: nat, u: nat, r: nat, other: nat, t: nat, x: nat)
    requires PullSpot(g, root, u, r, other) && t in g
    ensures var h := Pulled(g, root, u, r, other);
      t in h && (x in h[t].operands <==>
        t != u && x != u && (x in g[t].operands || (x == other && u in g[t].operands) || (t == root && x == r)))
  {
    PulledCount(g, root, u, r, other, t, x);
    hide Pulled, PullSpot;
    var h := Pulled(g, root, u, r, other);
    assert x in h[t].operands <==> Count(h, t, x) > 0;
    assert x in g[t].operands <==> Count(g, t, x) > 0;
    assert u in g[t].operands <==> Count(g, t, u) > 0;
  }

  /** A user of a term other than the two operands is the same before and after. */
  lemma PulledUser(g: Graph, root: nat, u: nat, r: nat, other: nat, x: nat, t: nat)
    requires PullSpot(g, root, u, r, other) && x != u && t in g
    ensures var h := Pulled(g, root, u, r, other);
      && h.Keys == g.Keys
      && (x == r ==> SoleUser(h, x, root))
      && (x != r && x != other ==> (SoleUser(h, x, t) <==> SoleUser(g, x, t)))
  {
    SpotFacts(g, root, u, r, other);
    SameKeys(g, root, u, r, other);
    var h := Pulled(g, root, u, r, other);
    hide Pulled, SoleUser, PullSpot, Count, SingleUse;
    forall y: nat | y in g
      ensures Count(h, y, x) ==
        if y == u then 0 else Count(g, y, x) + (if x == other then Count(g, y, u) else 0) + (if x == r && y == root then 1 else 0)
    {
      PulledCount(g, root, u, r, other, y, x);
    }
    SoleCounts(h, x, root);
    SoleCounts(h, x, t);
    SoleCounts(g, x, t);
  }

  /** A term that is used once after the pull was used once before, if the dropped addition has a user. */
  lemma OtherUsedOnce(g: Graph, root: nat, u: nat, r: nat, other: nat, s: nat, t: nat)
    requires PullSpot(g, root, u, r, other) && s in g && u in g[s].operands && t in g && SoleUser(Pulled(g, root, u, r, other), other, t)
    ensures SoleUser(g, other, u) && SoleUser(g, u, s)
  {
    SpotFacts(g, root, u, r, other);
    SameKeys(g, root, u, r, other);
    var h := Pulled(g, root, u, r, other);
    SoleCounts(h, other, t);
    assert Count(g, s, u) > 0;
    hide Pulled, SoleUser, PullSpot, Count, SingleUse;
    forall y: nat | y in g
      ensures y == u ==> Count(h, y, other) == 0
      ensures y != u ==> Count(h, y, other) == Count(g, y, other) + Count(g, y, u)
    {
      PulledCount(g, root, u, r, other, y, other);
    }
    PulledCount(g, root, u, r, other, s, u);
    OwnOperand(g, u);
    SoleCounts(g, other, u);
    SoleCounts(g, u, s);
    assert s == t by {
      assert Count(h, s, other) > 0;
    }
    assert forall y: nat :: y in g ==> Count(g, y, u) == if y == s then 1 else 0;
  }

  /** An addition of two other terms does not read itself. */
  lemma OwnOperand(g: Graph, u: nat)
    requires u in g
    ensures u !in g[u].operands ==> Count(g, u, u) == 0
  {
  }

  lemma UsedOnceBefore(g: Graph, root: nat, u: nat, r: nat, other: nat, s: nat, x: nat)
    requires PullSpot(g, root, u, r, other) && s in g && u in g[s].operands && u !in g[u].operands && x != u
    requires SingleUse(Pulled(g, root, u, r, other), x)
    ensures SingleUse(g, x) && (x == other ==> SoleUser(g, other, u))
  {
    SpotFacts(g, root, u, r, other);
    SameKeys(g, root, u, r, other);
    var h := Pulled(g, root, u, r, other);
    hide Pulled, SoleUser, PullSpot, Pullable, Count;
    var t: nat :| t in h.Keys && SoleUser(h, x, t);
    PulledUser(g, root, u, r, other, x, t);
    if x == other {
      OtherUsedOnce(g, root, u, r, other, s, t);
    }
  }

  lemma UsedOnceAfter(g: Graph, root: nat, u: nat, r: nat, other: nat, x: nat)
    requires PullSpot(g, root, u, r, other) && x != u && x != other && SingleUse(g, x)
    ensures SingleUse(Pulled(g, root, u, r, other), x)
  {
    SpotFacts(g, root, u, r, other);
    SameKeys(g, root, u, r, other);
    hide Pulled, SoleUser, PullSpot, Pullable, Count;
    var t: nat :| t in g.Keys && SoleUser(g, x, t);
    PulledUser(g, root, u, r, other, x, t);
  }

  lemma RotatesStay(g: Graph, root: nat, u: nat, r: nat, other: nat, x: nat)
    requires PullSpot(g, root, u, r, other)
    ensures var h := Pulled(g, root, u, r, other);
      h.Keys == g.Keys && (x in g ==> (IsRotate(h[x].op) <==> IsRotate(g[x].op))) && (x == u ==> !IsRotate(g[x].op))
  {
    SpotFacts(g, root, u, r, other);
    SameKeys(g, root, u, r, other);
    if x in g {
      PulledTerm(g, root, u, r, other, x);
    }
    hide Pulled, SoleUser, PullSpot;
  }

  /** Single-use rotations after the pull were such before; r is one; only the other operand may stop being one. */
  lemma PulledRotate(g: Graph, root: nat, u: nat, r: nat, other: nat, s: nat, x: nat)
    requires PullSpot(g, root, u, r, other) && s in g && u in g[s].operands && u !in g[u].operands
    ensures SingleUseRotate(Pulled(g, root, u, r, other), x) ==> SingleUseRotate(g, x)
    ensures x != other && SingleUseRotate(g, x) ==> SingleUseRotate(Pulled(g, root, u, r, other), x)
    ensures SingleUseRotate(Pulled(g, root, u, r, other), other) ==> SoleUser(g, other, u)
  {
    var h := Pulled(g, root, u, r, other);
    RotatesStay(g, root, u, r, other, x);
    SpotFacts(g, root, u, r, other);
    hide Pulled, SingleUse, PullSpot, SoleUser, Pullable, Count;
    if SingleUse(h, x) && x != u {
      UsedOnceBefore(g, root, u, r, other, s, x);
    }
    if SingleUse(g, x) && x != u && x != other {
      UsedOnceAfter(g, root, u, r, other, x);
    }
    if SingleUse(h, other) {
      UsedOnceBefore(g, root, u, r, other, s, other);
    }
  }

  /** The rank still rises from operands to users. */
  lemma PulledRanked(g: Graph, rank: map<nat, nat>, root: nat, u: nat, r: nat, other: nat)
    requires Ranked(g, rank) && PullSpot(g, root, u, r, other) && rank[r] < rank[root]
    ensures Ranked(Pulled(g, root, u, r, other), rank)
  {
    var h := Pulled(g, root, u, r, other);
    SameKeys(g, root, u, r, other);
    assert other in g[u].operands;
    OperandBelow(g, rank, u, other);
    assert g.Keys <= rank.Keys;
    hide Pulled, PullSpot;
    forall t: nat, j: nat | Uses(h, t, j)
      ensures h[t].operands[j] in h && rank[h[t].operands[j]] < rank[t]
    {
      var x := h[t].operands[j];
      assert x in h[t].operands;
      PulledOperand(g, root, u, r, other, t, x);
      if x in g[t].operands {
        OperandBelow(g, rank, t, x);
      } else if u in g[t].operands {
        OperandBelow(g, rank, t, u);
      }
    }
  }

  /** Live terms read live terms as before. */
  lemma PulledClean(g: Graph, root: nat, u: nat, r: nat, other: nat)
    requires PullSpot(g, root, u, r, other) && Clean(g)
    ensures Clean(Pulled(g, root, u, r, other))
    ensures forall t: nat :: t in g && t != root ==> t in Pulled(g, root, u, r, other)
    ensures forall t: nat :: t in g && t != root ==> Pulled(g, root, u, r, other)[t].op == if t == u then Nop else g[t].op
  {
    var h := Pulled(g, root, u, r, other);
    SameKeys(g, root, u, r, other);
    SpotFacts(g, root, u, r, other);
    assert r in g[u].operands && other in g[u].operands;
    forall t: nat | t in g
      ensures h[t].op == if t == u then Nop else if t == root then h[root].op else g[t].op
      ensures h[root].op.RotAcc?
    {
      PulledTerm(g, root, u, r, other, t);
      PulledTerm(g, root, u, r, other, root);
    }
    hide Pulled, PullSpot, SoleUser, Pullable;
    forall t: nat, x: nat | Live(h, t) && x in h[t].operands
      ensures Live(h, x)
    {
      PulledOperand(g, root, u, r, other, t, x);
      assert Live(g, t) && Live(g, u);
      assert x in g[t].operands ==> Live(g, x);
      assert Live(g, r) && Live(g, other);
    }
  }

  // ----- the tree of additions

  /** A pull within the tree: the addition u is used only by s, which belongs to the tree or is the root. */
  ghost predicate PullSite(g: Graph, root: nat, tree: set<nat>, cold: set<nat>, u: nat, r: nat, other: nat, s: nat)
  {
    && PullSpot(g, root, u, r, other) && u in tree && Inner(root, tree, s) && s != u && s in g && SoleUser(g, u, s) && u !in cold
  }

  lemma SiteSpot(g: Graph, root: nat, tree: set<nat>, cold: set<nat>, u: nat, r: nat, other: nat, s: nat)
    requires PullSite(g, root, tree, cold, u, r, other, s)
    ensures PullSpot(g, root, u, r, other) && s in g && u in g[s].operands && u !in g[u].operands && s != u
    ensures u in tree && u !in cold && Inner(root, tree, s) && SoleUser(g, u, s)
  {
    SpotFacts(g, root, u, r, other);
    hide PullSpot;
    assert multiset(g[s].operands)[u] == 1 && multiset(g[u].operands)[u] == 0;
  }

  /** Use counts are kept: r moves to the root, the other operand to the user of u. */
  lemma PulledSole(g: Graph, root: nat, tree: set<nat>, cold: set<nat>, u: nat, r: nat, other: nat, s: nat, x: nat, t: nat)
    requires PullSite(g, root, tree, cold, u, r, other, s) && x != u && t in g
    ensures var h := Pulled(g, root, u, r, other);
      && h.Keys == g.Keys
      && (x == r ==> SoleUser(h, x, root))
      && (x != r && x != other ==> (SoleUser(h, x, t) <==> SoleUser(g, x, t)))
      && (x == other && SoleUser(g, x, t) ==> t == u && SoleUser(h, x, s))
  {
    SiteSpot(g, root, tree, cold, u, r, other, s);
    PulledUser(g, root, u, r, other, x, t);
    SpotFacts(g, root, u, r, other);
    var h := Pulled(g, root, u, r, other);
    hide Pulled, SoleUser, PullSite, PullSpot, Count;
    if x == other && SoleUser(g, x, t) {
      SoleCounts(g, other, t);
      SoleCounts(g, u, s);
      SoleCounts(h, other, s);
      forall y: nat | y in g
        ensures Count(h, y, other) == if y == s then 1 else 0
      {
        PulledCount(g, root, u, r, other, y, other);
      }
    }
  }

  /** What is used inside the tree still is. */
  lemma PulledInner(g: Graph, root: nat, tree: set<nat>, cold: set<nat>, u: nat, r: nat, other: nat, s: nat, x: nat)
    requires PullSite(g, root, tree, cold, u, r, other, s) && x != u && InnerUsed(g, root, tree, x)
    ensures InnerUsed(Pulled(g, root, u, r, other), root, tree - {u}, x)
  {
    var h := Pulled(g, root, u, r, other);
    InnerUserKnown(g, root, tree, x);
    var t: nat :| t in g && Inner(root, tree, t) && SoleUser(g, x, t);
    SiteSpot(g, root, tree, cold, u, r, other, s);
    SpotFacts(g, root, u, r, other);
    PulledSole(g, root, tree, cold, u, r, other, s, x, t);
    if x != r && x != other {
      assert Count(g, t, x) == 1;
    }
    hide Pulled, SoleUser, PullSite, PullSpot;
    if x == r {
      assert Inner(root, tree - {u}, root);
    } else if x == other {
      assert Inner(root, tree - {u}, s);
    } else {
      assert Inner(root, tree - {u}, t);
    }
  }

  lemma InnerUserKnown(g: Graph, root: nat, tree: set<nat>, x: nat)
    requires InnerUsed(g, root, tree, x)
    ensures exists t: nat :: t in g && Inner(root, tree, t) && SoleUser(g, x, t)
  {
  }

  lemma PulledTree(g: Graph, root: nat, tree: set<nat>, cold: set<nat>, u: nat, r: nat, other: nat, s: nat)
    requires IsTree(g, root, tree, cold) && PullSite(g, root, tree, cold, u, r, other, s)
    ensures IsTree(Pulled(g, root, u, r, other), root, tree - {u}, cold)
  {
    hide *;
    SiteSpot(g, root, tree, cold, u, r, other, s);
    SpotFacts(g, root, u, r, other);
    var h, rest := Pulled(g, root, u, r, other), tree - {u};
    PulledSets(g, root, tree, cold, u, r, other, s);
    forall a: nat | a in rest
      ensures a in h && h[a].op.Add? && |h[a].operands| == 2 && InnerUsed(h, root, rest, a)
    {
      PulledMember(g, root, tree, cold, u, r, other, s, a);
    }
    forall a: nat | a in cold
      ensures a in h && h[a].op.Add? && |h[a].operands| == 2
    {
      PulledColdMember(g, root, tree, cold, u, r, other, s, a);
    }
    forall t: nat, x: nat | Inner(root, rest, t) && t in h && x in h[t].operands
      ensures Covered(h, rest, cold, x)
    {
      PulledCovered(g, root, tree, cold, u, r, other, s, t, x);
    }
    forall t: nat, x: nat | t in cold && t in h && x in h[t].operands
      ensures Cold(h, cold, x)
    {
      PulledCold(g, root, tree, cold, u, r, other, s, t, x);
    }
    MakeTree(h, root, rest, cold);
  }

  lemma MakeTree(g: Graph, root: nat, tree: set<nat>, cold: set<nat>)
    requires root in g && root !in tree && root !in cold && tree <= g.Keys && cold <= g.Keys
    requires forall a: nat :: a in tree ==> a in g && g[a].op.Add? && |g[a].operands| == 2 && InnerUsed(g, root, tree, a)
    requires forall a: nat :: a in cold ==> a in g && g[a].op.Add? && |g[a].operands| == 2
    requires forall t: nat, x: nat :: Inner(root, tree, t) && t in g && x in g[t].operands ==> Covered(g, tree, cold, x)
    requires forall t: nat, x: nat :: t in cold && t in g && x in g[t].operands ==> Cold(g, cold, x)
    ensures IsTree(g, root, tree, cold)
  {
    hide InnerUsed, Covered, Cold;
  }

  lemma PulledSets(g: Graph, root: nat, tree: set<nat>, cold: set<nat>, u: nat, r: nat, other: nat, s: nat)
    requires IsTree(g, root, tree, cold) && PullSite(g, root, tree, cold, u, r, other, s)
    ensures root in g && root in Pulled(g, root, u, r, other) && root !in tree - {u} && root !in cold
    ensures tree - {u} <= Pulled(g, root, u, r, other).Keys && cold <= Pulled(g, root, u, r, other).Keys
  {
    SiteSpot(g, root, tree, cold, u, r, other, s);
    SpotFacts(g, root, u, r, other);
    SameKeys(g, root, u, r, other);
    hide Pulled, PullSite, PullSpot, Pullable, InnerUsed, Covered, Cold;
  }

  lemma PulledMember(g: Graph, root: nat, tree: set<nat>, cold: set<nat>, u: nat, r: nat, other: nat, s: nat, a: nat)
    requires IsTree(g, root, tree, cold) && PullSite(g, root, tree, cold, u, r, other, s) && a in tree - {u}
    ensures var h := Pulled(g, root, u, r, other);
      a in h && h[a].op.Add? && |h[a].operands| == 2 && InnerUsed(h, root, tree - {u}, a)
  {
    SiteSpot(g, root, tree, cold, u, r, other, s);
    SpotFacts(g, root, u, r, other);
    SameKeys(g, root, u, r, other);
    PulledTerm(g, root, u, r, other, a);
    PulledInner(g, root, tree, cold, u, r, other, s, a);
    hide Pulled, PullSite, PullSpot, Pullable, InnerUsed, Covered, Cold;
  }

  lemma PulledColdMember(g: Graph, root: nat, tree: set<nat>, cold: set<nat>, u: nat, r: nat, other: nat, s: nat, a: nat)
    requires IsTree(g, root, tree, cold) && PullSite(g, root, tree, cold, u, r, other, s) && a in cold
    ensures var h := Pulled(g, root, u, r, other); a in h && h[a].op.Add? && |h[a].operands| == 2
  {
    SiteSpot(g, root, tree, cold, u, r, other, s);
    SpotFacts(g, root, u, r, other);
    SameKeys(g, root, u, r, other);
    PulledTerm(g, root, u, r, other, a);
    hide Pulled, PullSite, PullSpot, Pullable, InnerUsed, Covered, Cold;
  }

  lemma PulledCovered(g: Graph, root: nat, tree: set<nat>, cold: set<nat>, u: nat, r: nat, other: nat, s: nat, t: nat, x: nat)
    requires IsTree(g, root, tree, cold) && PullSite(g, root, tree, cold, u, r, other, s)
    requires Inner(root, tree - {u}, t) && t in Pulled(g, root, u, r, other) && x in Pulled(g, root, u, r, other)[t].operands
    ensures Covered(Pulled(g, root, u, r, other), tree - {u}, cold, x)
  {
    SiteSpot(g, root, tree, cold, u, r, other, s);
    SpotFacts(g, root, u, r, other);
    SameKeys(g, root, u, r, other);
    PulledOperand(g, root, u, r, other, t, x);
    assert Inner(root, tree, t) && Inner(root, tree, u) && other in g[u].operands;
    assert x == r || Covered(g, tree, cold, x);
    PulledTerm(g, root, u, r, other, x);
  }

  lemma PulledCold(g: Graph, root: nat, tree: set<nat>, cold: set<nat>, u: nat, r: nat, other: nat, s: nat, t: nat, x: nat)
    requires IsTree(g, root, tree, cold) && PullSite(g, root, tree, cold, u, r, other, s)
    requires t in cold && t in Pulled(g, root, u, r, other) && x in Pulled(g, root, u, r, other)[t].operands
    ensures Cold(Pulled(g, root, u, r, other), cold, x)
  {
    SiteSpot(g, root, tree, cold, u, r, other, s);
    SpotFacts(g, root, u, r, other);
    SameKeys(g, root, u, r, other);
    PulledOperand(g, root, u, r, other, t, x);
    assert u in g[t].operands ==> Cold(g, cold, u);
    assert x in g[t].operands && Cold(g, cold, x);
    PulledTerm(g, root, u, r, other, x);
    PulledRotate(g, root, u, r, other, s, x);
  }
}

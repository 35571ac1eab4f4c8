/** The condition under which fusing keeps the meaning, as a caller can compute it: which additions the walk reaches, which
    of them have a single-use rotation below, and whether each of those is used once. */
module FuseCondition {
  import opened TermGraph
  import opened AdditionTrees
  import opened PullRotations
  import opened FuseWalk
  import opened FuseAggregation
  import opened FusePass
  import opened FuseMeaning

  /** Addition a is reached from t through additions. */
  predicate Reaches(g: Graph, rank: map<nat, nat>, t: nat, a: nat)
    requires Ranked(g, rank) && t in g
    decreases rank[t]
  {
    exists x: nat | x in g[t].operands :: ReachesBy(g, rank, t, x, a)
  }

  predicate ReachesBy(g: Graph, rank: map<nat, nat>, t: nat, x: nat, a: nat)
    requires Ranked(g, rank) && t in g && x in g[t].operands
    decreases rank[t], 0
  {
    OperandBelow(g, rank, t, x);
    g[x].op.Add? && (x == a || Reaches(g, rank, x, a))
  }

  /** A rotation with a single use is reached from t through additions. */
  predicate Warm(g: Graph, rank: map<nat, nat>, t: nat)
    requires Ranked(g, rank) && t in g
    decreases rank[t]
  {
    exists x: nat | x in g[t].operands :: WarmBy(g, rank, t, x)
  }

  predicate WarmBy(g: Graph, rank: map<nat, nat>, t: nat, x: nat)
    requires Ranked(g, rank) && t in g && x in g[t].operands
    decreases rank[t], 0
  {
    OperandBelow(g, rank, t, x);
    SingleUseRotate(g, x) || (g[x].op.Add? && Warm(g, rank, x))
  }

  /** Every reached addition with a single-use rotation below has a single use. */
  predicate Fits(g: Graph, rank: map<nat, nat>, root: nat)
    requires Ranked(g, rank) && root in g
  {
    forall a: nat :: a in g.Keys && Reaches(g, rank, root, a) && Warm(g, rank, a) ==> SingleUse(g, a)
  }

  /** The additions that may change: reached, with a single-use rotation below, and used once. */
  function TreeOf(g: Graph, rank: map<nat, nat>, root: nat): (tree: set<nat>)
    requires Ranked(g, rank) && root in g
    ensures tree <= g.Keys
  {
    set a: nat | a in g.Keys && Reaches(g, rank, root, a) && Warm(g, rank, a) && SingleUse(g, a)
  }

  function ColdOf(g: Graph, rank: map<nat, nat>, root: nat): (cold: set<nat>)
    requires Ranked(g, rank) && root in g
    ensures cold <= g.Keys
  {
    set a: nat | a in g.Keys && Reaches(g, rank, root, a) && !Warm(g, rank, a)
  }

  // ----- reaching

  lemma {:induction false} ReachBelow(g: Graph, rank: map<nat, nat>, t: nat, a: nat)
    requires Ranked(g, rank) && t in g && Reaches(g, rank, t, a)
    ensures a in g && g[a].op.Add? && rank[a] < rank[t]
    decreases rank[t]
  {
    var x: nat :| x in g[t].operands && ReachesBy(g, rank, t, x, a);
    OperandBelow(g, rank, t, x);
    if x != a {
      ReachBelow(g, rank, x, a);
    }
  }

  /** One more addition at the end. */
  lemma {:induction false} ReachOn(g: Graph, rank: map<nat, nat>, t: nat, a: nat, x: nat)
    requires Ranked(g, rank) && t in g && a in g && (a == t || Reaches(g, rank, t, a)) && x in g[a].operands && x in g && g[x].op.Add?
    ensures Reaches(g, rank, t, x)
    decreases rank[t]
  {
    if a == t {
      assert ReachesBy(g, rank, t, x, x);
    } else {
      var y: nat :| y in g[t].operands && ReachesBy(g, rank, t, y, a);
      OperandBelow(g, rank, t, y);
      ReachOn(g, rank, y, a, x);
      assert ReachesBy(g, rank, t, y, x);
    }
  }

  /** A reached addition has a user that is reached, or is where the walk starts. */
  lemma {:induction false} ReachUser(g: Graph, rank: map<nat, nat>, t: nat, a: nat) returns (s: nat)
    requires Ranked(g, rank) && t in g && Reaches(g, rank, t, a)
    ensures s in g && (s == t || Reaches(g, rank, t, s)) && a in g[s].operands
    decreases rank[t]
  {
    var x: nat :| x in g[t].operands && ReachesBy(g, rank, t, x, a);
    OperandBelow(g, rank, t, x);
    if x == a {
      s := t;
    } else {
      s := ReachUser(g, rank, x, a);
      if s == x {
        ReachOn(g, rank, t, t, x);
      } else {
        ReachBelow(g, rank, x, s);
        ReachThrough(g, rank, t, x, s);
      }
    }
  }

  lemma ReachThrough(g: Graph, rank: map<nat, nat>, t: nat, x: nat, a: nat)
    requires Ranked(g, rank) && t in g && x in g[t].operands && x in g && g[x].op.Add? && rank[x] < rank[t] && Reaches(g, rank, x, a)
    ensures Reaches(g, rank, t, a)
  {
    assert ReachesBy(g, rank, t, x, a);
  }

  lemma WarmOperand(g: Graph, rank: map<nat, nat>, t: nat, x: nat)
    requires Ranked(g, rank) && t in g && x in g[t].operands && !Warm(g, rank, t)
    ensures x in g && !SingleUseRotate(g, x) && (g[x].op.Add? ==> !Warm(g, rank, x))
  {
    OperandBelow(g, rank, t, x);
    assert !WarmBy(g, rank, t, x);
  }

  lemma WarmUser(g: Graph, rank: map<nat, nat>, t: nat, x: nat)
    requires Ranked(g, rank) && t in g && x in g[t].operands && x in g && g[x].op.Add? && Warm(g, rank, x)
    ensures Warm(g, rank, t)
  {
    assert WarmBy(g, rank, t, x);
  }

  /** The condition gives the walk its tree. */
  lemma FitsTree(g: Graph, rank: map<nat, nat>, root: nat)
    requires Ranked(g, rank) && TwoOperandAdds(g) && root in g && Fits(g, rank, root)
    ensures IsTree(g, root, TreeOf(g, rank, root), ColdOf(g, rank, root))
  {
    hide Ranked, SoleUser, SingleUseRotate, Reaches, Warm;
    var tree, cold := TreeOf(g, rank, root), ColdOf(g, rank, root);
    forall a: nat | a in tree
      ensures a in g && g[a].op.Add? && |g[a].operands| == 2 && InnerUsed(g, root, tree, a)
    {
      ReachBelow(g, rank, root, a);
      TreeMemberInner(g, rank, root, a);
    }
    forall a: nat | a in cold
      ensures a in g && g[a].op.Add? && |g[a].operands| == 2
    {
      ReachBelow(g, rank, root, a);
    }
    forall t: nat, x: nat | Inner(root, tree, t) && t in g && x in g[t].operands
      ensures Covered(g, tree, cold, x)
    {
      OperandBelow(g, rank, t, x);
      if g[x].op.Add? {
        ReachOn(g, rank, root, t, x);
      }
    }
    forall t: nat, x: nat | t in cold && t in g && x in g[t].operands
      ensures Cold(g, cold, x)
    {
      WarmOperand(g, rank, t, x);
      if g[x].op.Add? {
        ReachOn(g, rank, root, t, x);
      }
    }
    RootApart(g, rank, root);
    hide *;
    MakeTree(g, root, tree, cold);
  }

  lemma RootApart(g: Graph, rank: map<nat, nat>, root: nat)
    requires Ranked(g, rank) && root in g
    ensures root !in TreeOf(g, rank, root) && root !in ColdOf(g, rank, root)
  {
    hide Ranked, Reaches, Warm, SingleUse;
    if Reaches(g, rank, root, root) {
      ReachBelow(g, rank, root, root);
    }
  }

  lemma TreeMemberInner(g: Graph, rank: map<nat, nat>, root: nat, a: nat)
    requires Ranked(g, rank) && root in g && Fits(g, rank, root) && a in TreeOf(g, rank, root)
    ensures InnerUsed(g, root, TreeOf(g, rank, root), a)
  {
    hide Ranked, Reaches, Warm, SoleUser;
    ReachBelow(g, rank, root, a);
    var s := ReachUser(g, rank, root, a);
    SoleIs(g, a, s);
    if s != root {
      ReachBelow(g, rank, root, s);
      WarmUser(g, rank, s, a);
      assert s in TreeOf(g, rank, root);
    }
    assert Inner(root, TreeOf(g, rank, root), s);
  }

  lemma SoleIs(g: Graph, x: nat, s: nat)
    requires SingleUse(g, x) && s in g && x in g[s].operands
    ensures SoleUser(g, x, s)
  {
    ThenSole(g, x, s);
  }

  // ----- the walk meets only what is reached

  ghost predicate InWalk(g: Graph, rank: map<nat, nat>, root: nat, t: nat)
    requires Ranked(g, rank) && root in g
  {
    t == root || Reaches(g, rank, root, t)
  }

  /** An operand of the root or of a reached addition. */
  ghost predicate Met(g: Graph, rank: map<nat, nat>, root: nat, x: nat)
    requires Ranked(g, rank) && root in g
  {
    exists t: nat :: t in g && InWalk(g, rank, root, t) && x in g[t].operands
  }

  lemma MetReaches(g: Graph, rank: map<nat, nat>, root: nat, x: nat)
    requires Ranked(g, rank) && root in g && Met(g, rank, root, x)
    ensures x in g && (g[x].op.Add? ==> Reaches(g, rank, root, x))
  {
    hide Ranked, Reaches;
    var t: nat :| t in g && InWalk(g, rank, root, t) && x in g[t].operands;
    OperandBelow(g, rank, t, x);
    if g[x].op.Add? {
      ReachOn(g, rank, root, t, x);
    }
  }

  /** Everything in a changed graph was met in the first one: what reached additions read, what is known, what is an
      addition, and what is a single-use rotation. */
  ghost predicate Inside(g: Graph, cur: Graph, rank: map<nat, nat>, root: nat, known: set<nat>)
    requires Ranked(g, rank) && root in g
  {
    && cur.Keys == g.Keys
    && (forall t: nat, x: nat :: t in cur && InWalk(g, rank, root, t) && x in cur[t].operands ==> Met(g, rank, root, x))
    && (forall x: nat :: x in known ==> Met(g, rank, root, x))
    && (forall t: nat :: t in cur && cur[t].op.Add? ==> g[t].op.Add?)
    && (forall x: nat :: SingleUseRotate(cur, x) ==> SingleUseRotate(g, x))
  }

  lemma InsideTake(g: Graph, cur: Graph, rank: map<nat, nat>, root: nat, visited: set<nat>, known: set<nat>, tail: nat, x: nat)
    requires Ranked(g, rank) && root in g && Inside(g, cur, rank, root, known)
    requires Sane(cur, rank, root) && Walk(cur, root, visited, known, tail) && x in known && x !in visited && root in cur && x in cur
    ensures Inside(g, Take(cur, root, x), rank, root, KnownAfter(cur, known, x))
  {
    hide *;
    UnfoldSane(cur, rank, root);
    UnfoldWalk(cur, root, visited, known, tail, x);
    if !SingleUseRotate(cur, x) {
      TakeNothing(cur, root, x);
      InsidePushed(g, cur, rank, root, known, x);
      AfterOther(cur, known, tail, x);
    } else {
      SureSingle(cur, x);
      AfterRotate(cur, known, tail, x);
      if UserOf(cur, x) == root {
        TakeMoves(cur, root, x);
        InsideMoved(g, cur, rank, root, known, x);
      } else {
        var u, other, s := PullPlace(cur, rank, root, visited, known, tail, x);
        TakePulls(cur, root, x);
        VisitedAttached(cur, root, visited, known, u);
        InsidePulled(g, cur, rank, root, known, u, x, other, s);
      }
    }
  }

  lemma InsidePushed(g: Graph, cur: Graph, rank: map<nat, nat>, root: nat, known: set<nat>, x: nat)
    requires Ranked(g, rank) && root in g && Inside(g, cur, rank, root, known) && x in known && x in cur
    ensures Inside(g, cur, rank, root, if cur[x].op.Add? then known + (set y | y in cur[x].operands) else known)
  {
    hide Ranked, Reaches, SingleUseRotate, Met;
    MetReaches(g, rank, root, x);
  }

  lemma InsideMoved(g: Graph, cur: Graph, rank: map<nat, nat>, root: nat, known: set<nat>, x: nat)
    requires Ranked(g, rank) && root in g && Inside(g, cur, rank, root, known) && Collecting(cur, root) && x in cur[root].operands
    ensures Inside(g, Moved(cur, root, x), rank, root, known)
  {
    hide Ranked, Reaches, Met, SingleUseRotate;
    var h := Moved(cur, root, x);
    MovedSame(cur, root, x);
    SameRotates(cur, h);
    hide Moved, Collecting;
    forall t: nat | t in cur
      ensures h[t].op == cur[t].op && forall y: nat :: y in h[t].operands <==> y in cur[t].operands
    {
      SameOperands(cur, h, t);
    }
  }

  lemma InsidePulled(g: Graph, cur: Graph, rank: map<nat, nat>, root: nat, known: set<nat>, u: nat, r: nat, other: nat, s: nat)
    requires Ranked(g, rank) && root in g && Inside(g, cur, rank, root, known) && PullSpot(cur, root, u, r, other)
    requires u in known && r in known && s in cur && u in cur[s].operands && u !in cur[u].operands
    ensures root in cur && Inside(g, Pulled(cur, root, u, r, other), rank, root, known)
  {
    SpotFacts(cur, root, u, r, other);
    SameKeys(cur, root, u, r, other);
    MetReaches(g, rank, root, u);
    assert other in cur[u].operands by {
      assert Count(cur, u, other) == 1;
    }
    var h := Pulled(cur, root, u, r, other);
    hide Ranked, Reaches, Met, SingleUseRotate, Pulled, PullSpot, SoleUser, Pullable;
    forall t: nat, x: nat | t in h && InWalk(g, rank, root, t) && x in h[t].operands
      ensures Met(g, rank, root, x)
    {
      PulledOperand(cur, root, u, r, other, t, x);
      assert InWalk(g, rank, root, u);
    }
    forall t: nat | t in h && h[t].op.Add?
      ensures g[t].op.Add?
    {
      PulledTerm(cur, root, u, r, other, t);
    }
    forall x: nat | SingleUseRotate(h, x)
      ensures SingleUseRotate(g, x)
    {
      PulledRotate(cur, root, u, r, other, s, x);
    }
  }

  lemma {:induction false} WalkInside(g: Graph, cur: Graph, rank: map<nat, nat>, root: nat, visited: set<nat>, checklist: seq<nat>, tail: nat)
    requires Ranked(g, rank) && root in g && Inside(g, cur, rank, root, Known(visited, checklist))
    requires Sane(cur, rank, root) && Walk(cur, root, visited, Known(visited, checklist), tail) && root in cur
    ensures Inside(g, WalkFrom(cur, root, visited, checklist), rank, root, {})
    decreases cur.Keys - visited, |checklist|
  {
    hide *;
    if |checklist| == 0 {
      WalkNothing(cur, root, visited, checklist);
      InsideLess(g, cur, rank, root, Known(visited, checklist));
    } else {
      var last := |checklist| - 1;
      var x := checklist[last];
      if x in visited {
        WalkSkip(cur, root, visited, checklist);
        WalkInside(g, cur, rank, root, visited, checklist[..last], tail);
      } else {
        KnownPop(visited, checklist);
        StepKeeps(cur, rank, root, visited, Known(visited, checklist), tail, x);
        WalkStep(cur, root, visited, checklist);
        InsideTake(g, cur, rank, root, visited, Known(visited, checklist), tail, x);
        WalkInside(g, Take(cur, root, x), rank, root, visited + {x}, checklist[..last] + Pushed(cur, x), TailAfter(cur, tail, x));
      }
    }
  }

  lemma InsideLess(g: Graph, cur: Graph, rank: map<nat, nat>, root: nat, known: set<nat>)
    requires Ranked(g, rank) && root in g && Inside(g, cur, rank, root, known)
    ensures Inside(g, cur, rank, root, {})
  {
    hide Ranked, Reaches, SingleUseRotate, Met;
  }

  lemma StartInside(g: Graph, rank: map<nat, nat>, root: nat)
    requires Ranked(g, rank) && root in g && g[root].op.Add?
    ensures Inside(g, Started(g, root), rank, root, Known({}, g[root].operands))
  {
    forall x: nat
      ensures SingleUseRotate(Started(g, root), x) <==> SingleUseRotate(g, x)
    {
      StartUses(g, root, x);
    }
    hide Ranked, Reaches, SingleUseRotate;
    assert InWalk(g, rank, root, root);
    forall t: nat, x: nat | t in g && InWalk(g, rank, root, t) && x in g[t].operands
      ensures Met(g, rank, root, x)
    {
    }
  }

  /** What the whole walk leaves is inside. */
  lemma WalkedInside(g: Graph, rank: map<nat, nat>, root: nat)
    requires Ranked(g, rank) && OneOperandRotates(g) && TwoOperandAdds(g) && root in g && Acts(g, root)
    ensures Inside(g, Walked(g, root), rank, root, {})
  {
    hide *;
    ActsFacts(g, root);
    WalkedIs(g, root);
    StartSane(g, rank, root);
    StartInside(g, rank, root);
    WalkInside(g, Started(g, root), rank, root, {}, g[root].operands, 0);
  }
}

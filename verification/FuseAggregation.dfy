/** The walk over the additions below the root: what it does to the graph, and what holds of its checklist, on any graph. */
module FuseAggregation {
  import opened TermGraph
  import opened KeyswitchPasses
  import opened AdditionTrees
  import opened PullRotations
  import opened FuseWalk

  // ----- what the walk does

  lemma SoleUnique(g: Graph, x: nat, t: nat, s: nat)
    requires SoleUser(g, x, t) && SoleUser(g, x, s)
    ensures t == s
  {
    assert multiset(g[t].operands)[x] == 1;
  }

  /** The one user of a term. */
  ghost function UserOf(g: Graph, x: nat): (t: nat)
    requires SingleUse(g, x)
    ensures t in g && SoleUser(g, x, t)
  {
    var t: nat :| t in g.Keys && SoleUser(g, x, t);
    t
  }

  /** The operand beside x. */
  function OtherOf(operands: seq<nat>, x: nat): nat
  {
    if |operands| != 2 then 0 else if operands[0] == x then operands[1] else operands[0]
  }

  /** What visiting x does: a single-use rotation is collected, from the root itself or from the addition that uses it. */
  ghost function Take(g: Graph, root: nat, x: nat): (h: Graph)
    requires root in g
    ensures h.Keys == g.Keys
  {
    if !SingleUseRotate(g, x) then g
    else
      var use := UserOf(g, x);
      if use == root then Moved(g, root, x) else Pulled(g, root, use, x, OtherOf(g[use].operands, x))
  }

  /** The whole walk: the checklist is a stack, and additions put their operands on it. */
  ghost function WalkFrom(g: Graph, root: nat, visited: set<nat>, checklist: seq<nat>): (h: Graph)
    requires root in g
    ensures h.Keys == g.Keys
    decreases g.Keys - visited, |checklist|
  {
    if |checklist| == 0 then g
    else
      var last := |checklist| - 1;
      var visit, rest := checklist[last], checklist[..last];
      if visit in visited || visit !in g then WalkFrom(g, root, visited, rest)
      else WalkFrom(Take(g, root, visit), root, visited + {visit}, rest + Pushed(g, visit))
  }

  /** What a visited term puts on the checklist. */
  function Pushed(g: Graph, x: nat): seq<nat>
    requires x in g
  {
    if g[x].op.Add? then g[x].operands else []
  }

  // ----- the checklist

  /** Terms whose operands have been put on the checklist. */
  ghost predicate IsOpen(g: Graph, root: nat, visited: set<nat>, t: nat)
  {
    t == root || (t in visited && t in g && g[t].op.Add?)
  }

  ghost predicate OpenUser(g: Graph, root: nat, visited: set<nat>, x: nat, t: nat)
  {
    t in g && IsOpen(g, root, visited, t) && x in g[t].operands
  }

  ghost predicate HasOpenUser(g: Graph, root: nat, visited: set<nat>, x: nat)
  {
    exists t: nat :: OpenUser(g, root, visited, x, t)
  }

  ghost predicate Attached(g: Graph, root: nat, visited: set<nat>, x: nat)
  {
    x in g && (g[x].op.Add? || IsRotate(g[x].op) ==> HasOpenUser(g, root, visited, x))
  }

  /** Visited or on the checklist. */
  function Known(visited: set<nat>, checklist: seq<nat>): set<nat>
  {
    visited + set x | x in checklist
  }

  ghost predicate KnownAttached(g: Graph, root: nat, visited: set<nat>, known: set<nat>)
  {
    visited <= known && forall x: nat :: x in known ==> Attached(g, root, visited, x)
  }

  ghost predicate OpenKnown(g: Graph, root: nat, visited: set<nat>, known: set<nat>)
  {
    forall t: nat, x: nat :: OpenUser(g, root, visited, x, t) ==> x in known
  }

  /** The rotations collected so far: the last operands of the root. */
  function Tail(g: Graph, root: nat, tail: nat): seq<nat>
    requires root in g
  {
    if tail <= |g[root].operands| then g[root].operands[|g[root].operands| - tail..] else []
  }

  ghost predicate TailFits(g: Graph, root: nat, visited: set<nat>, tail: nat)
  {
    && root in g && tail <= |g[root].operands|
    && forall x: nat :: x in Tail(g, root, tail) <==> x in visited && SingleUseRotate(g, x)
  }

  ghost predicate Walk(g: Graph, root: nat, visited: set<nat>, known: set<nat>, tail: nat)
  {
    && KnownAttached(g, root, visited, known)
    && OpenKnown(g, root, visited, known)
    && TailFits(g, root, visited, tail)
  }

  ghost predicate OneOperandRotates(g: Graph)
  {
    forall x: nat :: x in g && IsRotate(g[x].op) ==> |g[x].operands| == 1
  }

  ghost predicate TwoOperandAdds(g: Graph)
  {
    forall x: nat :: x in g && g[x].op.Add? ==> |g[x].operands| == 2
  }

  /** What the pass may rely on: an acyclic graph with the operand counts that the code asserts. */
  ghost predicate Sane(g: Graph, rank: map<nat, nat>, root: nat)
  {
    Ranked(g, rank) && Collecting(g, root) && OneOperandRotates(g) && TwoOperandAdds(g)
  }

  lemma KnownPop(visited: set<nat>, checklist: seq<nat>)
    requires |checklist| > 0
    ensures checklist[|checklist| - 1] in Known(visited, checklist)
    ensures Known(visited + {checklist[|checklist| - 1]}, checklist[..|checklist| - 1]) == Known(visited, checklist)
  {
    var last := |checklist| - 1;
    assert checklist == checklist[..last] + [checklist[last]];
  }

  lemma KnownPush(visited: set<nat>, checklist: seq<nat>, operands: seq<nat>)
    ensures Known(visited, checklist + operands) == Known(visited, checklist) + set x | x in operands
  {
  }

  lemma UnfoldWalk(g: Graph, root: nat, visited: set<nat>, known: set<nat>, tail: nat, x: nat)
    requires Walk(g, root, visited, known, tail) && x in known
    ensures KnownAttached(g, root, visited, known) && OpenKnown(g, root, visited, known) && TailFits(g, root, visited, tail)
    ensures Attached(g, root, visited, x) && x in g && root in g
  {
    hide OpenKnown, HasOpenUser, SingleUseRotate;
  }

  lemma MakeWalk(g: Graph, root: nat, visited: set<nat>, known: set<nat>, tail: nat)
    requires KnownAttached(g, root, visited, known) && OpenKnown(g, root, visited, known) && TailFits(g, root, visited, tail)
    ensures Walk(g, root, visited, known, tail)
  {
  }

  // ----- visiting a term that is not a single-use rotation

  lemma VisitOther(g: Graph, root: nat, visited: set<nat>, known: set<nat>, tail: nat, x: nat)
    requires Walk(g, root, visited, known, tail) && x in known && !SingleUseRotate(g, x) && x in g && !g[x].op.Add?
    ensures Walk(g, root, visited + {x}, known, tail)
  {
    hide SingleUseRotate;
    OpenSame(g, root, visited, known, x);
  }

  lemma OpenSame(g: Graph, root: nat, visited: set<nat>, known: set<nat>, x: nat)
    requires KnownAttached(g, root, visited, known) && OpenKnown(g, root, visited, known) && x in known
    requires x in g ==> !g[x].op.Add?
    ensures KnownAttached(g, root, visited + {x}, known) && OpenKnown(g, root, visited + {x}, known)
  {
    forall t: nat
      ensures IsOpen(g, root, visited + {x}, t) <==> IsOpen(g, root, visited, t)
    {
    }
    hide IsOpen;
    forall y: nat | y in known
      ensures Attached(g, root, visited + {x}, y)
    {
      MoreOpen(g, root, visited, visited + {x}, y);
    }
    forall t: nat, y: nat | OpenUser(g, root, visited + {x}, y, t)
      ensures y in known
    {
      assert OpenUser(g, root, visited, y, t);
    }
  }

  lemma MoreOpen(g: Graph, root: nat, visited: set<nat>, more: set<nat>, y: nat)
    requires Attached(g, root, visited, y)
    requires forall t: nat :: IsOpen(g, root, visited, t) ==> IsOpen(g, root, more, t)
    ensures Attached(g, root, more, y)
  {
    hide IsOpen;
    if HasOpenUser(g, root, visited, y) {
      var t: nat :| OpenUser(g, root, visited, y, t);
      assert OpenUser(g, root, more, y, t);
    }
  }

  lemma VisitAdd(g: Graph, rank: map<nat, nat>, root: nat, visited: set<nat>, known: set<nat>, tail: nat, x: nat)
    requires Ranked(g, rank) && Walk(g, root, visited, known, tail) && x in known && x in g && g[x].op.Add?
    ensures Walk(g, root, visited + {x}, known + (set y | y in g[x].operands), tail)
  {
    hide *;
    UnfoldWalk(g, root, visited, known, tail, x);
    AddAttached(g, rank, root, visited, known, x);
    AddOpen(g, root, visited, known, x);
    AddTail(g, root, visited, tail, x);
    MakeWalk(g, root, visited + {x}, known + (set y | y in g[x].operands), tail);
  }

  lemma AddAttached(g: Graph, rank: map<nat, nat>, root: nat, visited: set<nat>, known: set<nat>, x: nat)
    requires Ranked(g, rank) && KnownAttached(g, root, visited, known) && x in known && x in g && g[x].op.Add?
    ensures KnownAttached(g, root, visited + {x}, known + set y | y in g[x].operands)
  {
    hide Ranked;
    var more, all := visited + {x}, known + (set y | y in g[x].operands);
    forall y: nat | y in all
      ensures Attached(g, root, more, y)
    {
      if y in known {
        MoreOpen(g, root, visited, more, y);
      } else {
        OperandBelow(g, rank, x, y);
        assert OpenUser(g, root, more, y, x);
      }
    }
  }

  lemma AddOpen(g: Graph, root: nat, visited: set<nat>, known: set<nat>, x: nat)
    requires OpenKnown(g, root, visited, known) && x in g
    ensures OpenKnown(g, root, visited + {x}, known + set y | y in g[x].operands)
  {
    var more, all := visited + {x}, known + (set y | y in g[x].operands);
    forall t: nat, y: nat | OpenUser(g, root, more, y, t)
      ensures y in all
    {
      if t != x {
        assert OpenUser(g, root, visited, y, t);
      }
    }
  }

  lemma AddTail(g: Graph, root: nat, visited: set<nat>, tail: nat, x: nat)
    requires TailFits(g, root, visited, tail) && x in g && g[x].op.Add?
    ensures TailFits(g, root, visited + {x}, tail)
  {
    hide SingleUse;
  }

  // ----- visiting a rotation used by an addition

  /** A single-use rotation on the checklist is used by the root or by a visited addition. */
  lemma RotationUser(g: Graph, root: nat, visited: set<nat>, r: nat, u: nat)
    requires Attached(g, root, visited, r) && SingleUseRotate(g, r) && SoleUser(g, r, u)
    ensures u == root || (u in visited && u in g && g[u].op.Add?)
    ensures r in g[u].operands && u in g && r in g && IsRotate(g[r].op)
  {
    var t: nat :| OpenUser(g, root, visited, r, t);
    assert t == u;
  }

  lemma OtherOperand(operands: seq<nat>, r: nat)
    requires |operands| == 2 && multiset(operands)[r] == 1
    ensures PairOf(operands, r, OtherOf(operands, r)) && OtherOf(operands, r) in operands && r in operands
  {
    var j := OnlyAt(operands, r);
  }

  lemma AdditionUser(g: Graph, root: nat, visited: set<nat>, u: nat) returns (s: nat)
    requires Attached(g, root, visited, u) && g[u].op.Add?
    ensures IsOpen(g, root, visited, s) && s in g && u in g[s].operands
  {
    s :| OpenUser(g, root, visited, u, s);
  }

  /** Where a rotation on the checklist is pulled: out of a visited addition that has an open user. */
  lemma PullPlace(g: Graph, rank: map<nat, nat>, root: nat, visited: set<nat>, known: set<nat>, tail: nat, r: nat)
      returns (u: nat, other: nat, s: nat)
    requires Sane(g, rank, root) && Walk(g, root, visited, known, tail) && r in known && SingleUseRotate(g, r) && UserOf(g, r) != root
    ensures u == UserOf(g, r) && u in g && other == OtherOf(g[u].operands, r) && PullSpot(g, root, u, r, other)
    ensures u in visited && IsOpen(g, root, visited, s) && s in g && u in g[s].operands && u !in g[u].operands
    ensures u in rank && r in rank && root in rank && rank[r] < rank[u]
  {
    hide *;
    UnfoldSane(g, rank, root);
    SureSingle(g, r);
    u := UserOf(g, r);
    UnfoldWalk(g, root, visited, known, tail, r);
    RotationUser(g, root, visited, r, u);
    VisitedAttached(g, root, visited, known, u);
    UsedOnce(g, r, u);
    OtherOperand(g[u].operands, r);
    other := OtherOf(g[u].operands, r);
    s := AdditionUser(g, root, visited, u);
    OperandBelow(g, rank, u, r);
    OperandBelow(g, rank, u, other);
    NoSelfUse(g, rank, u);
    RootAbove(g, rank, root, visited, known, tail, u);
    MakeSpot(g, root, u, r, other);
  }

  lemma SureSingle(g: Graph, r: nat)
    requires SingleUseRotate(g, r)
    ensures SingleUse(g, r) && r in g && IsRotate(g[r].op)
  {
  }

  lemma UnfoldSane(g: Graph, rank: map<nat, nat>, root: nat)
    requires Sane(g, rank, root)
    ensures Ranked(g, rank) && g.Keys <= rank.Keys && Collecting(g, root) && root in g && g[root].op.RotAcc?
    ensures forall x: nat :: x in g && g[x].op.Add? ==> |g[x].operands| == 2
    ensures forall x: nat :: x in g && IsRotate(g[x].op) ==> |g[x].operands| == 1
  {
  }

  lemma NoSelfUse(g: Graph, rank: map<nat, nat>, u: nat)
    requires Ranked(g, rank) && u in g
    ensures u !in g[u].operands
  {
    if u in g[u].operands {
      OperandBelow(g, rank, u, u);
    }
  }

  /** Everything attached lies below the root. */
  lemma {:induction false} BelowTheRoot(g: Graph, rank: map<nat, nat>, root: nat, visited: set<nat>, known: set<nat>, tail: nat, x: nat,
                                        top: nat)
    requires Ranked(g, rank) && g.Keys <= rank.Keys && Walk(g, root, visited, known, tail) && x in known
    requires x in g && (g[x].op.Add? || IsRotate(g[x].op)) && root in g && forall y: nat :: y in g ==> rank[y] <= top
    ensures rank[x] < rank[root]
    decreases top - rank[x]
  {
    hide Ranked;
    UnfoldWalk(g, root, visited, known, tail, x);
    var t: nat :| OpenUser(g, root, visited, x, t);
    OperandBelow(g, rank, t, x);
    hide Walk, OpenKnown, TailFits;
    if t != root {
      BelowTheRoot(g, rank, root, visited, known, tail, t, top);
    }
  }

  lemma RootAbove(g: Graph, rank: map<nat, nat>, root: nat, visited: set<nat>, known: set<nat>, tail: nat, x: nat)
    requires Ranked(g, rank) && g.Keys <= rank.Keys && Walk(g, root, visited, known, tail) && x in known
    requires x in g && (g[x].op.Add? || IsRotate(g[x].op)) && root in g
    ensures rank[x] < rank[root]
  {
    hide Ranked, Walk;
    var top := TopOf(rank, g.Keys);
    BelowTheRoot(g, rank, root, visited, known, tail, x, top);
  }

  lemma {:induction false} TopOf(rank: map<nat, nat>, keys: set<nat>) returns (top: nat)
    requires keys <= rank.Keys
    ensures forall x: nat :: x in keys ==> rank[x] <= top
    decreases |keys|
  {
    if keys == {} {
      top := 0;
    } else {
      var x: nat :| x in keys;
      var rest := TopOf(rank, keys - {x});
      top := if rank[x] > rest then rank[x] else rest;
    }
  }

  lemma VisitedAttached(g: Graph, root: nat, visited: set<nat>, known: set<nat>, x: nat)
    requires KnownAttached(g, root, visited, known) && (x in visited || x in known)
    ensures Attached(g, root, visited, x) && x in known
  {
    hide Attached;
  }

  lemma UsedOnce(g: Graph, r: nat, u: nat)
    requires SoleUser(g, r, u)
    ensures u in g && multiset(g[u].operands)[r] == 1
  {
  }

  lemma MakeSpot(g: Graph, root: nat, u: nat, r: nat, other: nat)
    requires root in g && u in g && u != root && g[u].op.Add? && PairOf(g[u].operands, r, other) && r != u && other != u
    requires SoleUser(g, r, u) && r in g && IsRotate(g[r].op) && other in g && r != root && other != root && g[root].op.RotAcc?
    ensures PullSpot(g, root, u, r, other)
  {
    hide SoleUser, PairOf;
  }

  /** What the walk keeps when r is pulled out of u. */
  lemma VisitPull(g: Graph, root: nat, visited: set<nat>, known: set<nat>, tail: nat, u: nat, r: nat, other: nat, s: nat)
    requires Walk(g, root, visited, known, tail) && r in known && SingleUseRotate(g, r) && r !in visited
    requires PullSpot(g, root, u, r, other) && u in visited && IsOpen(g, root, visited, s) && s in g && u in g[s].operands && u !in g[u].operands
    ensures root in g && Walk(Pulled(g, root, u, r, other), root, visited + {r}, known, tail + 1)
  {
    hide *;
    SpotFacts(g, root, u, r, other);
    UnfoldWalk(g, root, visited, known, tail, r);
    PullAttached(g, root, visited, known, u, r, other, s);
    PullOpen(g, root, visited, known, u, r, other);
    PullTail(g, root, visited, tail, u, r, other, s);
    MakeWalk(Pulled(g, root, u, r, other), root, visited + {r}, known, tail + 1);
  }

  lemma PullAttached(g: Graph, root: nat, visited: set<nat>, known: set<nat>, u: nat, r: nat, other: nat, s: nat)
    requires KnownAttached(g, root, visited, known) && PullSpot(g, root, u, r, other) && r in known
    requires IsOpen(g, root, visited, s) && s in g && u in g[s].operands && u !in g[u].operands
    ensures root in g && KnownAttached(Pulled(g, root, u, r, other), root, visited + {r}, known)
  {
    SpotFacts(g, root, u, r, other);
    var h := Pulled(g, root, u, r, other);
    hide Pulled, PullSpot;
    forall x: nat | x in known
      ensures Attached(h, root, visited + {r}, x)
    {
      VisitedAttached(g, root, visited, known, x);
      PullAttachedOne(g, root, visited, u, r, other, s, x);
    }
  }

  lemma StillOpen(g: Graph, root: nat, visited: set<nat>, u: nat, r: nat, other: nat, t: nat)
    requires PullSpot(g, root, u, r, other)
    ensures root in g
    ensures IsOpen(g, root, visited, t) && t != u ==> IsOpen(Pulled(g, root, u, r, other), root, visited + {r}, t)
    ensures IsOpen(Pulled(g, root, u, r, other), root, visited + {r}, t) ==> IsOpen(g, root, visited, t)
  {
    SpotFacts(g, root, u, r, other);
    SameKeys(g, root, u, r, other);
    if t in g {
      PulledTerm(g, root, u, r, other, t);
    }
    PulledTerm(g, root, u, r, other, r);
    hide Pulled, PullSpot, SoleUser;
  }

  lemma PullAttachedOne(g: Graph, root: nat, visited: set<nat>, u: nat, r: nat, other: nat, s: nat, x: nat)
    requires Attached(g, root, visited, x) && PullSpot(g, root, u, r, other)
    requires IsOpen(g, root, visited, s) && s in g && u in g[s].operands && u !in g[u].operands
    ensures root in g && Attached(Pulled(g, root, u, r, other), root, visited + {r}, x)
  {
    SpotFacts(g, root, u, r, other);
    SameKeys(g, root, u, r, other);
    PulledTerm(g, root, u, r, other, x);
    var h := Pulled(g, root, u, r, other);
    hide Pulled, PullSpot, SoleUser, IsOpen;
    if h[x].op.Add? || IsRotate(h[x].op) {
      assert x != u && x != root;
      var t: nat :| OpenUser(g, root, visited, x, t);
      var v := if x == r then root else if t == u then s else t;
      assert t == u ==> Count(g, u, x) > 0;
      assert IsOpen(g, root, visited, root) by {
        RootOpen(g, root, visited);
      }
      PulledOperand(g, root, u, r, other, v, x);
      StillOpen(g, root, visited, u, r, other, v);
      assert OpenUser(h, root, visited + {r}, x, v);
    }
  }

  lemma RootOpen(g: Graph, root: nat, visited: set<nat>)
    ensures IsOpen(g, root, visited, root)
  {
  }

  lemma PullOpen(g: Graph, root: nat, visited: set<nat>, known: set<nat>, u: nat, r: nat, other: nat)
    requires OpenKnown(g, root, visited, known) && PullSpot(g, root, u, r, other) && r in known && u in visited
    ensures root in g && OpenKnown(Pulled(g, root, u, r, other), root, visited + {r}, known)
  {
    SpotFacts(g, root, u, r, other);
    var h := Pulled(g, root, u, r, other);
    SameKeys(g, root, u, r, other);
    assert other in g[u].operands;
    assert OpenUser(g, root, visited, other, u);
    hide Pulled, PullSpot, SoleUser, IsOpen;
    forall t: nat, x: nat | OpenUser(h, root, visited + {r}, x, t)
      ensures x in known
    {
      StillOpen(g, root, visited, u, r, other, t);
      PulledOperand(g, root, u, r, other, t, x);
      if x in g[t].operands {
        assert OpenUser(g, root, visited, x, t);
      }
    }
  }

  lemma PullTail(g: Graph, root: nat, visited: set<nat>, tail: nat, u: nat, r: nat, other: nat, s: nat)
    requires TailFits(g, root, visited, tail) && PullSpot(g, root, u, r, other) && SingleUseRotate(g, r)
    requires s in g && u in g[s].operands && u !in g[u].operands
    ensures root in g && TailFits(Pulled(g, root, u, r, other), root, visited + {r}, tail + 1)
  {
    SpotFacts(g, root, u, r, other);
    var h := Pulled(g, root, u, r, other);
    SameKeys(g, root, u, r, other);
    hide Pulled, PullSpot, SingleUseRotate, Tail;
    TailPulled(g, root, visited, tail, u, r, other);
    OtherNotCollected(g, root, visited, tail, u, r, other);
    PulledRotate(g, root, u, r, other, s, r);
    forall x: nat
      ensures x in Tail(h, root, tail + 1) <==> x in visited + {r} && SingleUseRotate(h, x)
    {
      PulledRotate(g, root, u, r, other, s, x);
    }
  }

  /** The other operand is not among the collected rotations: those are used by the root only. */
  lemma OtherNotCollected(g: Graph, root: nat, visited: set<nat>, tail: nat, u: nat, r: nat, other: nat)
    requires TailFits(g, root, visited, tail) && PullSpot(g, root, u, r, other)
    ensures other !in Tail(g, root, tail) && !(other in visited && SingleUseRotate(g, other))
  {
    SpotFacts(g, root, u, r, other);
    hide PullSpot, Pullable;
    assert other in g[u].operands by {
      assert Count(g, u, other) == 1;
    }
    assert forall x: nat :: x in Tail(g, root, tail) ==> x in g[root].operands;
    if SingleUse(g, other) {
      ThenSole(g, other, u);
      assert other !in g[root].operands;
    }
  }

  lemma ThenSole(g: Graph, x: nat, u: nat)
    requires SingleUse(g, x) && u in g && x in g[u].operands
    ensures SoleUser(g, x, u)
  {
    var t: nat :| t in g.Keys && SoleUser(g, x, t);
    assert t == u;
  }

  lemma TailPulled(g: Graph, root: nat, visited: set<nat>, tail: nat, u: nat, r: nat, other: nat)
    requires TailFits(g, root, visited, tail) && PullSpot(g, root, u, r, other)
    ensures var h := Pulled(g, root, u, r, other);
      root in h && tail + 1 <= |h[root].operands| && Tail(h, root, tail + 1) == Tail(g, root, tail) + [r]
  {
    hide *;
    SpotFacts(g, root, u, r, other);
    SameKeys(g, root, u, r, other);
    PulledTerm(g, root, u, r, other, root);
    NotCollected(g, root, visited, tail, u);
    RedirectSize(g[root].operands, u, other);
    TailMoved(g[root].operands, Pulled(g, root, u, r, other)[root].operands, u, r, other, tail);
    TailIs(g, root, tail);
    TailIs(Pulled(g, root, u, r, other), root, tail + 1);
  }

  lemma RedirectSize(operands: seq<nat>, a: nat, b: nat)
    ensures |Redirect(operands, a, b)| == |operands|
  {
  }

  lemma TailIs(g: Graph, root: nat, tail: nat)
    requires root in g && tail <= |g[root].operands|
    ensures Tail(g, root, tail) == g[root].operands[|g[root].operands| - tail..]
  {
  }

  /** An addition is not among the collected rotations. */
  lemma NotCollected(g: Graph, root: nat, visited: set<nat>, tail: nat, u: nat)
    requires TailFits(g, root, visited, tail) && u in g && g[u].op.Add?
    ensures root in g && tail <= |g[root].operands| && u !in g[root].operands[|g[root].operands| - tail..]
  {
    hide SingleUse;
    assert !SingleUseRotate(g, u);
    assert u !in Tail(g, root, tail);
  }

  lemma TailMoved(was: seq<nat>, now: seq<nat>, u: nat, r: nat, other: nat, tail: nat)
    requires tail <= |was| && now == Redirect(was, u, other) + [r] && u !in was[|was| - tail..]
    ensures tail + 1 <= |now| && now[|now| - tail - 1..] == was[|was| - tail..] + [r]
  {
    forall k: nat | |was| - tail <= k < |was|
      ensures now[k] == was[k]
    {
      assert was[|was| - tail..][k - (|was| - tail)] != u;
    }
  }

  // ----- visiting a rotation the root already uses

  /** Removes the first occurrence. */
  function Erase(operands: seq<nat>, x: nat): (e: seq<nat>)
  {
    if |operands| == 0 then [] else if operands[0] == x then operands[1..] else [operands[0]] + Erase(operands[1..], x)
  }

  lemma {:induction false} EraseAt(operands: seq<nat>, x: nat) returns (j: nat)
    requires x in operands
    ensures j < |operands| && operands[j] == x && (forall k: nat :: k < j ==> operands[k] != x) && Erase(operands, x) == operands[..j] + operands[j + 1..]
  {
    if operands[0] == x {
      j := 0;
    } else {
      var i := EraseAt(operands[1..], x);
      j := i + 1;
      assert forall k: nat :: 0 < k < j ==> operands[k] == operands[1..][k - 1];
      assert operands[..j] == [operands[0]] + operands[1..][..i];
      assert operands[1..][i + 1..] == operands[j + 1..];
    }
  }

  /** The root with r as its last operand. */
  function Moved(g: Graph, root: nat, r: nat): Graph
    requires root in g
  {
    var operands := Erase(g[root].operands + [r], r);
    g[root := Term(RotAcc(Zeros(|operands|)), operands)]
  }

  lemma EraseEarlier(operands: seq<nat>, r: nat) returns (j: nat)
    requires r in operands
    ensures j < |operands| && operands[j] == r && Erase(operands + [r], r) == operands[..j] + operands[j + 1..] + [r]
  {
    j := EraseAt(operands + [r], r);
    hide Erase;
    var k: nat :| k < |operands| && operands[k] == r;
    assert (operands + [r])[k] == r;
    assert (operands + [r])[..j] == operands[..j] && (operands + [r])[j + 1..] == operands[j + 1..] + [r];
    assert operands[..j] + (operands[j + 1..] + [r]) == operands[..j] + operands[j + 1..] + [r];
  }

  lemma SameElements(operands: seq<nat>, j: nat)
    requires j < |operands|
    ensures multiset(operands[..j] + operands[j + 1..] + [operands[j]]) == multiset(operands)
    ensures |operands[..j] + operands[j + 1..] + [operands[j]]| == |operands|
  {
    assert operands == operands[..j] + [operands[j]] + operands[j + 1..];
  }

  lemma TailAfterMove(operands: seq<nat>, j: nat, tail: nat)
    requires j < |operands| && tail <= |operands|
    requires forall k: nat :: |operands| - tail <= k < |operands| ==> operands[k] != operands[j]
    ensures tail < |operands|
    ensures (operands[..j] + operands[j + 1..] + [operands[j]])[|operands| - tail - 1..] == operands[|operands| - tail..] + [operands[j]]
  {
  }

  ghost predicate SameUses(g: Graph, h: Graph)
  {
    h.Keys == g.Keys && forall t: nat :: t in g ==> h[t].op == g[t].op && multiset(h[t].operands) == multiset(g[t].operands)
  }

  lemma SameOperands(g: Graph, h: Graph, t: nat)
    requires SameUses(g, h) && t in g
    ensures |h[t].operands| == |g[t].operands| && forall x: nat :: x in h[t].operands <==> x in g[t].operands
  {
    assert |multiset(h[t].operands)| == |multiset(g[t].operands)|;
    forall x: nat
      ensures x in h[t].operands <==> x in g[t].operands
    {
      assert x in h[t].operands <==> x in multiset(h[t].operands);
    }
  }

  lemma SameSole(g: Graph, h: Graph, x: nat, t: nat)
    requires SameUses(g, h)
    ensures SoleUser(h, x, t) <==> SoleUser(g, x, t)
  {
    forall s: nat | s in g
      ensures x in h[s].operands <==> x in g[s].operands
    {
      SameOperands(g, h, s);
    }
  }

  lemma SameRotates(g: Graph, h: Graph)
    requires SameUses(g, h)
    ensures forall x: nat :: SingleUseRotate(h, x) <==> SingleUseRotate(g, x)
  {
    forall x: nat
      ensures SingleUse(h, x) <==> SingleUse(g, x)
    {
      forall t: nat
        ensures SoleUser(h, x, t) <==> SoleUser(g, x, t)
      {
        SameSole(g, h, x, t);
      }
      hide SoleUser;
    }
  }

  lemma SameInner(g: Graph, h: Graph, root: nat, tree: set<nat>, x: nat)
    requires SameUses(g, h) && InnerUsed(g, root, tree, x)
    ensures InnerUsed(h, root, tree, x)
  {
    var t: nat :| Inner(root, tree, t) && SoleUser(g, x, t);
    SameSole(g, h, x, t);
  }

  lemma SameTree(g: Graph, h: Graph, root: nat, tree: set<nat>, cold: set<nat>)
    requires SameUses(g, h) && IsTree(g, root, tree, cold)
    ensures IsTree(h, root, tree, cold)
  {
    SameRotates(g, h);
    hide SingleUseRotate;
    forall a: nat | a in tree
      ensures |h[a].operands| == 2 && InnerUsed(h, root, tree, a)
    {
      SameOperands(g, h, a);
      SameInner(g, h, root, tree, a);
    }
    forall a: nat | a in cold
      ensures |h[a].operands| == 2
    {
      SameOperands(g, h, a);
    }
    hide SameUses, InnerUsed;
    forall t: nat, x: nat | Inner(root, tree, t) && x in h[t].operands
      ensures Covered(h, tree, cold, x)
    {
      SameOperands(g, h, t);
      assert Covered(g, tree, cold, x);
      SameOp(g, h, x);
    }
    forall t: nat, x: nat | t in cold && x in h[t].operands
      ensures Cold(h, cold, x)
    {
      SameOperands(g, h, t);
      assert Cold(g, cold, x);
      SameOp(g, h, x);
    }
  }

  lemma SameOp(g: Graph, h: Graph, x: nat)
    requires SameUses(g, h) && x in g
    ensures x in h && h[x].op == g[x].op
  {
  }

  lemma SameOpenUser(g: Graph, h: Graph, root: nat, visited: set<nat>, x: nat, t: nat)
    requires SameUses(g, h)
    ensures OpenUser(h, root, visited, x, t) <==> OpenUser(g, root, visited, x, t)
  {
    if t in g {
      SameOperands(g, h, t);
    }
  }

  lemma SameAttached(g: Graph, h: Graph, root: nat, visited: set<nat>, known: set<nat>)
    requires SameUses(g, h) && KnownAttached(g, root, visited, known) && OpenKnown(g, root, visited, known)
    ensures KnownAttached(h, root, visited, known) && OpenKnown(h, root, visited, known)
  {
    hide OpenUser;
    forall x: nat | x in known
      ensures Attached(h, root, visited, x)
    {
      SameOp(g, h, x);
      if HasOpenUser(g, root, visited, x) {
        var t: nat :| OpenUser(g, root, visited, x, t);
        SameOpenUser(g, h, root, visited, x, t);
      }
    }
    forall t: nat, x: nat | OpenUser(h, root, visited, x, t)
      ensures x in known
    {
      SameOpenUser(g, h, root, visited, x, t);
    }
  }

  lemma SameRanked(g: Graph, h: Graph, rank: map<nat, nat>)
    requires SameUses(g, h) && Ranked(g, rank)
    ensures Ranked(h, rank)
  {
    forall t: nat, j: nat | Uses(h, t, j)
      ensures h[t].operands[j] in h && rank[h[t].operands[j]] < rank[t]
    {
      SameOperands(g, h, t);
      OperandBelow(g, rank, t, h[t].operands[j]);
    }
  }

  /** Moving changes no use, and the root is still a sum of its operands. */
  lemma MovedSame(g: Graph, root: nat, r: nat)
    requires Collecting(g, root) && r in g[root].operands
    ensures SameUses(g, Moved(g, root, r)) && Collecting(Moved(g, root, r), root)
  {
    var j := EraseEarlier(g[root].operands, r);
    SameElements(g[root].operands, j);
    hide Erase;
  }

  lemma MoveKeeps(g: Graph, root: nat, r: nat, tree: set<nat>)
    requires Collecting(g, root) && r in g[root].operands
    ensures SameOutside(g, Moved(g, root, r), tree)
  {
    var h, operands := Moved(g, root, r), g[root].operands;
    var j := EraseEarlier(operands, r);
    var now := operands[..j] + operands[j + 1..] + [r];
    assert h == g[root := Term(RotAcc(Zeros(|now|)), now)];
    assert h.Keys == g.Keys;
    hide *;
    forall val: Valuation, n: nat | Consistent(g, val, n)
      ensures SameFor(h, tree, val, n)
    {
      var sum := CollectedSum(g, root, val, n);
      SumOperands(g, root, val, n, sum);
      MovedRight(operands, j, sum, val, n);
      ReplacedRoot(g, root, Term(RotAcc(Zeros(|now|)), now), tree, val, n);
    }
    MadeOutside(g, h, tree);
  }

  lemma SumOperands(g: Graph, root: nat, val: Valuation, n: nat, sum: Vec)
    requires RootSum(g, root, val, n, sum)
    ensures root in g && AllVecs(g[root].operands, val, n) && PlainSum(g[root].operands, val, n) == sum
  {
  }

  /** A root that is right with the values it had needs no other values. */
  lemma ReplacedRoot(g: Graph, root: nat, t: Term, tree: set<nat>, val: Valuation, n: nat)
    requires Consistent(g, val, n) && root in g && TermRight(t, val[root], val, n)
    ensures SameFor(g[root := t], tree, val, n)
  {
    hide TermRight;
    assert Consistent(g[root := t], val, n) && Outside(tree, val, val);
  }

  lemma MovedRight(operands: seq<nat>, j: nat, sum: Vec, val: Valuation, n: nat)
    requires j < |operands| && AllVecs(operands, val, n) && PlainSum(operands, val, n) == sum
    ensures var now := operands[..j] + operands[j + 1..] + [operands[j]]; TermRight(Term(RotAcc(Zeros(|now|)), now), One(sum), val, n)
  {
    var now := operands[..j] + operands[j + 1..] + [operands[j]];
    hide TermRight, PlainSum, RotSum;
    PlainSumMoved(operands, j, val, n);
    RotSumPlain(now, val, n);
    RotAccRight(now, Zeros(|now|), sum, val, n);
  }

  /** What the walk keeps when r moves to the end of the root. */
  lemma VisitMove(g: Graph, root: nat, visited: set<nat>, known: set<nat>, tail: nat, r: nat)
    requires Walk(g, root, visited, known, tail) && r in known && SingleUseRotate(g, r) && r !in visited
    requires Collecting(g, root) && r in g[root].operands
    ensures root in g && Walk(Moved(g, root, r), root, visited + {r}, known, tail + 1)
  {
    hide *;
    UnfoldWalk(g, root, visited, known, tail, r);
    var h := Moved(g, root, r);
    MovedSame(g, root, r);
    SameAttached(g, h, root, visited, known);
    SureSingle(g, r);
    SameOp(g, h, r);
    RotateNoAdd(g[r].op);
    OpenSame(h, root, visited, known, r);
    MoveTail(g, root, visited, tail, r);
    MakeWalk(h, root, visited + {r}, known, tail + 1);
  }

  lemma RotateNoAdd(op: Op)
    requires IsRotate(op)
    ensures !op.Add?
  {
  }

  lemma MoveTail(g: Graph, root: nat, visited: set<nat>, tail: nat, r: nat)
    requires TailFits(g, root, visited, tail) && Collecting(g, root) && r in g[root].operands && r !in visited && SingleUseRotate(g, r)
    ensures TailFits(Moved(g, root, r), root, visited + {r}, tail + 1)
  {
    var h := Moved(g, root, r);
    MovedSame(g, root, r);
    SameRotates(g, h);
    hide SingleUseRotate, SameUses;
    NotInTail(g, root, tail, r);
    TailOfMoved(g, root, tail, r);
    hide Tail, Moved;
  }

  lemma NotInTail(g: Graph, root: nat, tail: nat, r: nat)
    requires root in g && tail <= |g[root].operands| && r !in Tail(g, root, tail)
    ensures forall k: nat :: |g[root].operands| - tail <= k < |g[root].operands| ==> g[root].operands[k] != r
  {
    forall k: nat | |g[root].operands| - tail <= k < |g[root].operands|
      ensures g[root].operands[k] != r
    {
      assert Tail(g, root, tail)[k - (|g[root].operands| - tail)] == g[root].operands[k];
    }
  }

  lemma TailOfMoved(g: Graph, root: nat, tail: nat, r: nat)
    requires root in g && r in g[root].operands && tail <= |g[root].operands|
    requires forall k: nat :: |g[root].operands| - tail <= k < |g[root].operands| ==> g[root].operands[k] != r
    ensures var h := Moved(g, root, r);
      root in h && tail + 1 <= |h[root].operands| && Tail(h, root, tail + 1) == Tail(g, root, tail) + [r]
  {
    hide Erase;
    var j := EraseEarlier(g[root].operands, r);
    SameElements(g[root].operands, j);
    TailAfterMove(g[root].operands, j, tail);
  }
}

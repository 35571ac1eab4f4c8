/** Two rewrites of the term graph around key switching: rotations of one term are hoisted into a shared broadcast and
    extracted again, and equal receives are merged. Both keep every value. */
module KeyswitchPasses {
  import opened TermGraph

  predicate IsRotate(op: Op)
  {
    op.RotateLeft? || op.RotateRight?
  }

  /** Rotation amount to the left. */
  function Amount(op: Op): int
  {
    match op case RotateLeft(k) => k case RotateRight(k) => -k case _ => 0
  }

  /** Users of a term, each listed once, in the order the term keeps them. */
  ghost predicate ListsUsers(g: Graph, t: nat, uses: seq<nat>)
  {
    && (forall i: nat, k: nat :: i < k < |uses| ==> uses[i] != uses[k])
    && (forall i: nat :: i < |uses| ==> uses[i] in g && t in g[uses[i]].operands)
  }

  // ----- hoisting

  /** Rotations among the users, in order. */
  method RotationUses(g: Graph, t: nat, uses: seq<nat>) returns (rots: seq<nat>)
    requires ListsUsers(g, t, uses)
    ensures ListsUsers(g, t, rots)
    ensures forall x :: x in rots <==> x in uses && IsRotate(g[x].op)
  {
    rots := [];
    for i := 0 to |uses|
      invariant ListsUsers(g, t, rots)
      invariant forall x :: x in rots <==> x in uses[..i] && IsRotate(g[x].op)
    {
      if IsRotate(g[uses[i]].op) {
        assert uses[i] !in uses[..i];
        rots := rots + [uses[i]];
      }
    }
    assert uses[..|uses|] == uses;
  }

  function Amounts(g: Graph, rots: seq<nat>): (r: seq<int>)
    requires forall i: nat :: i < |rots| ==> rots[i] in g
    ensures |r| == |rots|
  {
    seq(|rots|, i requires 0 <= i < |rots| => Amount(g[rots[i]].op))
  }

  /** The rewritten graph: a broadcast of all rotations, and extractions in place of the rotations. */
  ghost predicate Hoisted(g: Graph, h: Graph, t: nat, broadcast: nat, rots: seq<nat>)
  {
    && h.Keys == g.Keys + {broadcast} && broadcast in h && |rots| >= 2
    && (forall i: nat :: i < |rots| ==> rots[i] in g && rots[i] in h && h[rots[i]] == Term(TermInVec(i), [broadcast]))
    && h[broadcast] == Term(HoistInpBroadcast(Amounts(g, rots)), [t])
    && (forall x: nat :: x in g && x !in rots ==> h[x] == g[x])
  }

  /** The pass on one term. With fewer than two rotations nothing changes. */
  method HoistInputBroadcast(g: Graph, t: nat, broadcast: nat, uses: seq<nat>) returns (h: Graph, rots: seq<nat>)
    requires t in g && broadcast !in g && ListsUsers(g, t, uses)
    requires forall x :: x in g && IsRotate(g[x].op) ==> |g[x].operands| == 1
    ensures ListsUsers(g, t, rots) && forall x :: x in rots <==> x in uses && (g[x].op.RotateLeft? || g[x].op.RotateRight?)
    ensures if |rots| <= 1 then h == g else Hoisted(g, h, t, broadcast, rots)
  {
    hide ListsUsers, Hoisted, Amount, Extracting;
    rots := RotationUses(g, t, uses);
    UsersKnown(g, t, rots);
    if |rots| <= 1 {
      return g, rots;
    }
    var amounts: seq<int> := [];
    h := g[broadcast := Term(HoistInpBroadcast([]), [t])];
    StartExtracting(g, t, broadcast, rots);
    for i := 0 to |rots|
      invariant |amounts| == i && forall k: nat :: k < i ==> amounts[k] == Amount(g[rots[k]].op)
      invariant Extracting(g, h, t, broadcast, rots, i)
    {
      var use := rots[i];
      ExtractNext(g, h, t, broadcast, rots, i);
      amounts := amounts + [Amount(h[use].op)];
      var operands := h[use].operands + [broadcast];
      operands := operands[1..];
      assert operands == [broadcast];
      h := h[use := Term(TermInVec(i), operands)];
    }
    assert amounts == Amounts(g, rots);
    MakeHoisted(g, h, t, broadcast, rots);
    h := h[broadcast := Term(HoistInpBroadcast(amounts), [t])];
  }

  lemma UsersKnown(g: Graph, t: nat, uses: seq<nat>)
    requires ListsUsers(g, t, uses)
    ensures forall i: nat :: i < |uses| ==> uses[i] in g
  {
  }

  lemma NotBefore(g: Graph, t: nat, uses: seq<nat>, i: nat)
    requires ListsUsers(g, t, uses) && i < |uses|
    ensures uses[i] !in uses[..i]
  {
  }

  /** The first i rotations have become extractions. */
  ghost predicate Extracting(g: Graph, h: Graph, t: nat, broadcast: nat, rots: seq<nat>, i: nat)
  {
    && i <= |rots| && h.Keys == g.Keys + {broadcast} && h[broadcast] == Term(HoistInpBroadcast([]), [t])
    && (forall k: nat :: k < i ==> rots[k] in h && h[rots[k]] == Term(TermInVec(k), [broadcast]))
    && forall x: nat :: x in g && x !in rots[..i] ==> h[x] == g[x]
  }

  lemma StartExtracting(g: Graph, t: nat, broadcast: nat, rots: seq<nat>)
    requires broadcast !in g
    ensures Extracting(g, g[broadcast := Term(HoistInpBroadcast([]), [t])], t, broadcast, rots, 0)
  {
  }

  lemma ExtractNext(g: Graph, h: Graph, t: nat, broadcast: nat, rots: seq<nat>, i: nat)
    requires Extracting(g, h, t, broadcast, rots, i) && ListsUsers(g, t, rots) && broadcast !in g && i < |rots|
    ensures rots[i] in g && rots[i] in h && h[rots[i]] == g[rots[i]]
    ensures Extracting(g, h[rots[i] := Term(TermInVec(i), [broadcast])], t, broadcast, rots, i + 1)
  {
    NotBefore(g, t, rots, i);
    UsersKnown(g, t, rots);
    hide ListsUsers;
    assert rots[..i + 1] == rots[..i] + [rots[i]];
  }

  lemma MakeHoisted(g: Graph, h: Graph, t: nat, broadcast: nat, rots: seq<nat>)
    requires Extracting(g, h, t, broadcast, rots, |rots|) && broadcast !in g && |rots| >= 2 && forall i: nat :: i < |rots| ==> rots[i] in g
    ensures Hoisted(g, h[broadcast := Term(HoistInpBroadcast(Amounts(g, rots)), [t])], t, broadcast, rots)
  {
    hide Amounts;
    assert rots[..|rots|] == rots;
  }

  /** The valuation of the rewritten graph: the old one, and all rotated copies at the broadcast. */
  function HoistedValues(val: Valuation, g: Graph, t: nat, broadcast: nat, rots: seq<nat>, n: nat): Valuation
    requires forall i: nat :: i < |rots| ==> rots[i] in g
  {
    val[broadcast := Many(Rotations(VecOf(val, t), Amounts(g, rots), n))]
  }

  /** Hoisting preserves the value of every term, the rotations included. */
  lemma HoistPreserves(g: Graph, h: Graph, t: nat, broadcast: nat, rots: seq<nat>, val: Valuation, n: nat)
    requires Consistent(g, val, n) && Hoisted(g, h, t, broadcast, rots) && broadcast !in g && t in g && t !in rots
    requires ListsUsers(g, t, rots) && forall i: nat :: i < |rots| ==> IsRotate(g[rots[i]].op)
    ensures Consistent(h, HoistedValues(val, g, t, broadcast, rots, n), n)
    ensures forall x: nat :: x in g ==> HoistedValues(val, g, t, broadcast, rots, n)[x] == val[x]
  {
    HoistedKeys(val, g, h, t, broadcast, rots, n);
    hide *;
    var after := HoistedValues(val, g, t, broadcast, rots, n);
    forall x: nat | x in h
      ensures TermRight(h[x], after[x], after, n)
    {
      if x == broadcast {
        BroadcastRight(g, h, t, broadcast, rots, val, n);
      } else if x in rots {
        var i: nat :| i < |rots| && rots[i] == x;
        ExtractRight(g, h, t, broadcast, rots, i, val, n);
      } else {
        UntouchedRight(g, h, t, broadcast, rots, x, val, n);
      }
    }
    MakeConsistent(h, after, n);
  }

  lemma HoistedKeys(val: Valuation, g: Graph, h: Graph, t: nat, broadcast: nat, rots: seq<nat>, n: nat)
    requires Consistent(g, val, n) && Hoisted(g, h, t, broadcast, rots) && broadcast !in g
    ensures forall i: nat :: i < |rots| ==> rots[i] in g
    ensures var after := HoistedValues(val, g, t, broadcast, rots, n);
      h.Keys == after.Keys && forall x: nat :: x in g ==> x in val && x in after && after[x] == val[x]
    ensures forall x: nat :: x in h && x != broadcast ==> x in g
  {
    hide TermRight, Rotations;
  }

  lemma MakeConsistent(g: Graph, val: Valuation, n: nat)
    requires val.Keys == g.Keys && forall t: nat :: t in g ==> TermRight(g[t], val[t], val, n)
    ensures Consistent(g, val, n)
  {
    hide TermRight;
  }

  lemma BroadcastRight(g: Graph, h: Graph, t: nat, broadcast: nat, rots: seq<nat>, val: Valuation, n: nat)
    requires Consistent(g, val, n) && Hoisted(g, h, t, broadcast, rots) && broadcast !in g && t in g
    requires ListsUsers(g, t, rots) && forall i: nat :: i < |rots| ==> IsRotate(g[rots[i]].op)
    ensures var after := HoistedValues(val, g, t, broadcast, rots, n); TermRight(h[broadcast], after[broadcast], after, n)
  {
    RotationRight(g, t, rots, 0, val, n);
    hide *;
    BroadcastTerm(val, t, broadcast, Amounts(g, rots), n);
  }

  lemma BroadcastTerm(val: Valuation, t: nat, broadcast: nat, amounts: seq<int>, n: nat)
    requires t in val && val[t].One? && t != broadcast
    ensures var after := val[broadcast := Many(Rotations(VecOf(val, t), amounts, n))];
      TermRight(Term(HoistInpBroadcast(amounts), [t]), after[broadcast], after, n)
  {
  }

  lemma ExtractRight(g: Graph, h: Graph, t: nat, broadcast: nat, rots: seq<nat>, i: nat, val: Valuation, n: nat)
    requires Consistent(g, val, n) && Hoisted(g, h, t, broadcast, rots) && broadcast !in g && t in g && i < |rots|
    requires ListsUsers(g, t, rots) && forall i: nat :: i < |rots| ==> IsRotate(g[rots[i]].op)
    ensures var after := HoistedValues(val, g, t, broadcast, rots, n); TermRight(h[rots[i]], after[rots[i]], after, n)
  {
    RotationRight(g, t, rots, i, val, n);
    var after := HoistedValues(val, g, t, broadcast, rots, n);
    var vs := Rotations(VecOf(val, t), Amounts(g, rots), n);
    assert after[broadcast] == Many(vs) && after[rots[i]] == One(vs[i]);
    hide *;
    ExtractTerm(after, broadcast, vs, i, n);
  }

  lemma ExtractTerm(after: Valuation, broadcast: nat, vs: seq<Vec>, i: nat, n: nat)
    requires broadcast in after && after[broadcast] == Many(vs) && i < |vs| && |vs[i]| == n
    ensures TermRight(Term(TermInVec(i), [broadcast]), One(vs[i]), after, n)
  {
  }

  lemma UntouchedRight(g: Graph, h: Graph, t: nat, broadcast: nat, rots: seq<nat>, x: nat, val: Valuation, n: nat)
    requires Consistent(g, val, n) && Hoisted(g, h, t, broadcast, rots) && broadcast !in g && x in g && x !in rots
    requires ListsUsers(g, t, rots)
    ensures var after := HoistedValues(val, g, t, broadcast, rots, n); TermRight(h[x], after[x], after, n)
  {
    assert TermRight(g[x], val[x], val, n);
    assert OperandsKnown(g[x], val);
    var after := HoistedValues(val, g, t, broadcast, rots, n);
    hide TermRight, ListsUsers, Hoisted;
    TermRightExt(g[x], val[x], val, after, n);
  }

  lemma RotationRight(g: Graph, t: nat, rots: seq<nat>, i: nat, val: Valuation, n: nat)
    requires Consistent(g, val, n) && ListsUsers(g, t, rots) && i < |rots| && IsRotate(g[rots[i]].op)
    ensures t in val && val[t].One? && val[rots[i]] == One(Rotated(VecOf(val, t), Amount(g[rots[i]].op), n))
  {
    assert TermRight(g[rots[i]], val[rots[i]], val, n);
  }

  /** The rewritten graph is acyclic, so these are its only values. */
  lemma HoistAcyclic(g: Graph, h: Graph, t: nat, broadcast: nat, rots: seq<nat>, rank: map<nat, nat>) returns (after: map<nat, nat>)
    requires Ranked(g, rank) && Hoisted(g, h, t, broadcast, rots) && broadcast !in g && t in g && ListsUsers(g, t, rots)
    ensures Ranked(h, after)
  {
    after := (map x | x in g.Keys :: 2 * rank[x])[broadcast := 2 * rank[t] + 1];
    forall x: nat, j: nat | Uses(h, x, j)
      ensures h[x].operands[j] in h && after[h[x].operands[j]] < after[x]
    {
      if x != broadcast && x !in rots {
        assert Uses(g, x, j);
      } else if x in rots {
        var k: nat :| k < |g[x].operands| && g[x].operands[k] == t;
        assert Uses(g, x, k);
      }
    }
  }

  /** So on every graph whose live terms read live terms only, hoisting changes the value of no live term. */
  lemma HoistMeaning(g: Graph, h: Graph, t: nat, broadcast: nat, rots: seq<nat>, rank: map<nat, nat>)
    requires Ranked(g, rank) && Clean(g) && Hoisted(g, h, t, broadcast, rots) && broadcast !in g && Live(g, t) && t !in rots
    requires ListsUsers(g, t, rots) && forall i: nat :: i < |rots| ==> IsRotate(g[rots[i]].op)
    ensures Clean(h) && SameMeaning(g, h, {}) && forall x: nat :: Live(g, x) ==> Live(h, x)
  {
    hide Consistent, Ranked, Clean, ListsUsers, HoistedValues;
    var after := HoistAcyclic(g, h, t, broadcast, rots, rank);
    HoistClean(g, h, t, broadcast, rots);
    hide Hoisted;
    forall val: Valuation, other: Valuation, n: nat | Consistent(g, val, n) && Consistent(h, other, n)
      ensures Agree(h, {}, val, other)
    {
      HoistPreserves(g, h, t, broadcast, rots, val, n);
      var same := HoistedValues(val, g, t, broadcast, rots, n);
      KeysOf(g, val, n);
      KeysOf(h, other, n);
      forall x: nat | Live(h, x) && x in val
        ensures x in other && other[x] == val[x]
      {
        ValueUnique(h, after, same, other, n, x);
      }
    }
  }

  lemma HoistClean(g: Graph, h: Graph, t: nat, broadcast: nat, rots: seq<nat>)
    requires Clean(g) && Hoisted(g, h, t, broadcast, rots) && broadcast !in g && Live(g, t) && t !in rots
    ensures Clean(h) && forall x: nat :: Live(g, x) ==> Live(h, x)
  {
    forall x: nat, y: nat | Live(h, x) && y in h[x].operands
      ensures Live(h, y)
    {
      if x == broadcast {
        assert y == t;
      } else if x in rots {
        assert y == broadcast;
      } else {
        assert Live(g, x) && Live(g, y);
      }
    }
  }

  // ----- merging receives

  function Redirect(operands: seq<nat>, a: nat, b: nat): (r: seq<nat>)
    ensures |r| == |operands|
  {
    seq(|operands|, j requires 0 <= j < |operands| => if operands[j] == a then b else operands[j])
  }

  /** Every use of a becomes a use of b. */
  function ReplaceAllUses(g: Graph, a: nat, b: nat): (r: Graph)
    ensures r.Keys == g.Keys
  {
    map x | x in g :: Term(g[x].op, Redirect(g[x].operands, a, b))
  }

  function Drop(g: Graph, a: nat): Graph
    requires a in g
  {
    g[a := Term(Nop, g[a].operands)]
  }

  lemma {:induction false} RotSumRedirect(operands: seq<nat>, amounts: seq<int>, a: nat, b: nat, val: Valuation, n: nat)
    requires |amounts| == |operands| && VecOf(val, a) == VecOf(val, b)
    ensures RotSum(Redirect(operands, a, b), amounts, val, n) == RotSum(operands, amounts, val, n)
  {
    if |operands| > 0 {
      var last := |operands| - 1;
      assert Redirect(operands, a, b)[..last] == Redirect(operands[..last], a, b);
      RotSumRedirect(operands[..last], amounts[..last], a, b, val, n);
    }
  }

  lemma RedirectRight(t: Term, own: Val, a: nat, b: nat, val: Valuation, n: nat)
    requires TermRight(t, own, val, n) && a in val && b in val && val[a] == val[b]
    ensures TermRight(Term(t.op, Redirect(t.operands, a, b)), own, val, n)
  {
    match t.op
    case RotAcc(amounts) => RotSumRedirect(t.operands, amounts, a, b, val, n);
    case Other(f) =>
      assert ValuesOf(Redirect(t.operands, a, b), val) == ValuesOf(t.operands, val);
    case _ =>
  }

  lemma RedirectMembers(operands: seq<nat>, a: nat, b: nat, x: nat)
    requires a != b
    ensures x in Redirect(operands, a, b) <==> x != a && (x in operands || (x == b && a in operands))
  {
    var r := Redirect(operands, a, b);
    if x in r {
      var j: nat :| j < |r| && r[j] == x;
      assert operands[j] in operands;
    }
    if x in operands && x != a {
      var j: nat :| j < |operands| && operands[j] == x;
      assert r[j] == x;
    }
    if x == b && a in operands {
      var j: nat :| j < |operands| && operands[j] == a;
      assert r[j] == x;
    }
  }

  function Merged(g: Graph, a: nat, b: nat): (r: Graph)
    requires a in g
    ensures r.Keys == g.Keys
  {
    Drop(ReplaceAllUses(g, a, b), a)
  }

  lemma MergedIs(g: Graph, a: nat, b: nat)
    requires a in g
    ensures var r := ReplaceAllUses(g, a, b); a in r && Merged(g, a, b) == r[a := Term(Nop, r[a].operands)]
  {
  }

  /** Merging two terms of equal value changes no value. */
  lemma MergeKeeps(g: Graph, a: nat, b: nat, val: Valuation, n: nat)
    requires Consistent(g, val, n) && a in g && b in g && val[a] == val[b]
    ensures Consistent(Merged(g, a, b), val, n)
  {
    hide TermRight, ReplaceAllUses;
    MergedIs(g, a, b);
    var r := ReplaceAllUses(g, a, b);
    forall x: nat | x in g
      ensures TermRight(Merged(g, a, b)[x], val[x], val, n)
    {
      RedirectRight(g[x], val[x], a, b, val, n);
      RedirectedTerm(g, a, b, x);
      if x == a {
        DroppedStays(r[a], val[a], val, n);
      }
    }
  }

  lemma RedirectedTerm(g: Graph, a: nat, b: nat, x: nat)
    requires x in g
    ensures ReplaceAllUses(g, a, b)[x] == Term(g[x].op, Redirect(g[x].operands, a, b))
  {
  }

  lemma DroppedStays(t: Term, own: Val, val: Valuation, n: nat)
    requires TermRight(t, own, val, n)
    ensures TermRight(Term(Nop, t.operands), own, val, n)
  {
  }

  /** After merging, the dropped term has no users left; the graph is as acyclic as it was when the other one does not lie
      above, and live terms read live terms. */
  lemma MergeShape(g: Graph, rank: map<nat, nat>, a: nat, b: nat)
    requires Ranked(g, rank) && a in g && b in g && a != b && rank[b] <= rank[a]
    ensures Ranked(Merged(g, a, b), rank) && forall x: nat :: x in g ==> a !in Merged(g, a, b)[x].operands
    ensures forall x: nat :: x in g ==> Merged(g, a, b)[x].op == if x == a then Nop else g[x].op
    ensures Clean(g) && Live(g, b) ==> Clean(Merged(g, a, b))
  {
    var r := Merged(g, a, b);
    forall x: nat, y: nat | x in g
      ensures y in r[x].operands <==> y != a && (y in g[x].operands || (y == b && a in g[x].operands))
    {
      RedirectMembers(g[x].operands, a, b, y);
    }
    forall x: nat, j: nat | Uses(r, x, j)
      ensures r[x].operands[j] in r && rank[r[x].operands[j]] < rank[x]
    {
      assert Uses(g, x, j);
    }
    if Clean(g) && Live(g, b) {
      forall x: nat, y: nat | Live(r, x) && y in r[x].operands
        ensures Live(r, y)
      {
        assert Live(g, x);
        assert y in g[x].operands ==> Live(g, y);
      }
    }
  }

  lemma NotSelf(g: Graph, rank: map<nat, nat>, x: nat, t: nat)
    requires Ranked(g, rank) && x in g && g[x].operands == [t]
    ensures t != x
  {
    assert Uses(g, x, 0);
  }

  ghost predicate Keeps(g: Graph, h: Graph)
  {
    h.Keys == g.Keys && forall val: Valuation, n: nat :: Consistent(g, val, n) ==> Consistent(h, val, n)
  }

  ghost predicate EqualTerms(g: Graph, a: nat, b: nat)
  {
    a in g && b in g && forall val: Valuation, n: nat :: Consistent(g, val, n) ==> val[a] == val[b]
  }

  /** Merging two terms that always have equal values: every use of the dropped one is redirected, and all live terms keep
      their values, whatever valuation the result is given. */
  lemma MergePreserves(g: Graph, rank: map<nat, nat>, a: nat, b: nat)
    requires Ranked(g, rank) && Clean(g) && Live(g, b) && EqualTerms(g, a, b) && a != b && rank[b] <= rank[a]
    ensures var r := Merged(g, a, b);
      && Keeps(g, r) && Ranked(r, rank) && Clean(r) && SameMeaning(g, r, {})
      && forall x: nat :: x in g ==> r[x].op == (if x == a then Nop else g[x].op) && a !in r[x].operands
  {
    MergeShape(g, rank, a, b);
    MergeAll(g, a, b);
    KeepsMeaning(g, Merged(g, a, b), rank);
  }

  lemma MergeAll(g: Graph, a: nat, b: nat)
    requires EqualTerms(g, a, b)
    ensures Keeps(g, Merged(g, a, b))
  {
    hide Merged;
    forall val: Valuation, n: nat | Consistent(g, val, n)
      ensures Consistent(Merged(g, a, b), val, n)
    {
      MergeKeeps(g, a, b, val, n);
    }
  }

  lemma KeepsMeaning(g: Graph, h: Graph, rank: map<nat, nat>)
    requires Keeps(g, h) && Ranked(h, rank) && Clean(h)
    ensures SameMeaning(g, h, {})
  {
    hide Consistent, Ranked, Clean;
    forall val: Valuation, n: nat | Consistent(g, val, n)
      ensures SameFor(h, {}, val, n)
    {
      assert Consistent(h, val, n) && Outside({}, val, val);
    }
    MeaningKept(g, h, rank, {});
  }

  // ----- the pass on receives

  /** Receives of t lie on one level just above it. */
  lemma ReceiveLevel(g: Graph, t: nat, uses: seq<nat>, rank: map<nat, nat>) returns (level: map<nat, nat>)
    requires Ranked(g, rank) && ListsUsers(g, t, uses) && t in g
    requires forall x :: x in uses && g[x].op.Receive? ==> g[x].operands == [t]
    ensures Ranked(g, level) && forall x :: x in uses && g[x].op.Receive? ==> x in level && level[x] == 2 * rank[t] + 1
  {
    level := map x | x in g.Keys :: if x in uses && g[x].op.Receive? then 2 * rank[t] + 1 else 2 * rank[x];
    forall x: nat, j: nat | Uses(g, x, j)
      ensures g[x].operands[j] in g && level[g[x].operands[j]] < level[x]
    {
      var y := g[x].operands[j];
      if y in uses && g[y].op.Receive? {
        assert Uses(g, y, 0);
      }
    }
  }

  /** Receive number k of the list has the partition of an earlier one. */
  ghost predicate RepeatsAt(g: Graph, uses: seq<nat>, k: nat)
  {
    k < |uses| && uses[k] in g && g[uses[k]].op.Receive? && exists j: nat :: j < k && uses[j] in g && g[uses[j]].op == g[uses[k]].op
  }

  /** The receives of the list that have the partition of an earlier one. */
  ghost predicate Repeats(g: Graph, uses: seq<nat>, i: nat, x: nat)
  {
    exists k: nat :: k < i && RepeatsAt(g, uses, k) && uses[k] == x
  }

  /** The first receive of every partition among the first i users. */
  ghost predicate FirstsRight(g: Graph, h: Graph, t: nat, uses: seq<nat>, firsts: map<(nat, nat), nat>, i: nat)
  {
    && (forall key :: key in firsts ==> IsFirst(g, h, t, uses, i, firsts[key], key))
    && (forall k: nat :: k < i && k < |uses| && uses[k] in g && g[uses[k]].op.Receive? ==>
          (g[uses[k]].op.size, g[uses[k]].op.partition) in firsts)
  }

  ghost predicate IsFirst(g: Graph, h: Graph, t: nat, uses: seq<nat>, i: nat, x: nat, key: (nat, nat))
  {
    && x in g && x in h && g[x] == h[x] == Term(Receive(key.0, key.1), [t])
    && exists k: nat :: k < i && k < |uses| && uses[k] == x
  }

  /** Receives the pass has not come to are as they were. */
  ghost predicate Ahead(g: Graph, h: Graph, t: nat, uses: seq<nat>, i: nat)
  {
    forall k: nat :: i <= k < |uses| && uses[k] in g && g[uses[k]].op.Receive? ==>
      uses[k] in h && h[uses[k]] == g[uses[k]] && g[uses[k]].operands == [t]
  }

  /** Exactly the repeated receives among the first i users are dropped; all other terms keep their operations. */
  ghost predicate OpsAfter(g: Graph, h: Graph, uses: seq<nat>, i: nat)
  {
    h.Keys == g.Keys && forall x: nat :: x in g ==> h[x].op == if Repeats(g, uses, i, x) then Nop else g[x].op
  }

  ghost predicate Merging(g: Graph, h: Graph, level: map<nat, nat>, t: nat, uses: seq<nat>, firsts: map<(nat, nat), nat>, i: nat)
  {
    && Keeps(g, h) && Ranked(h, level) && (Clean(g) ==> Clean(h)) && i <= |uses|
    && OpsAfter(g, h, uses, i) && FirstsRight(g, h, t, uses, firsts, i) && Ahead(g, h, t, uses, i)
  }

  /** The pass on one term: exactly the receives whose partition an earlier one has are dropped, and their uses read the
      earlier one. Every valuation of the graph is one of the result, and no live term of the result has any other value. */
  method EliminateCommonReceives(g: Graph, t: nat, uses: seq<nat>, ghost rank: map<nat, nat>) returns (h: Graph, ghost level: map<nat, nat>)
    requires Ranked(g, rank) && t in g && ListsUsers(g, t, uses)
    requires forall x :: x in uses && g[x].op.Receive? ==> g[x].operands == [t]
    ensures Keeps(g, h) && Ranked(h, level)
    ensures Clean(g) ==> Clean(h) && SameMeaning(g, h, {})
    ensures forall x: nat :: x in g ==> x in h && h[x].op == if Repeats(g, uses, |uses|, x) then Nop else g[x].op
  {
    hide *;
    level := ReceiveLevel(g, t, uses, rank);
    h := g;
    var firsts: map<(nat, nat), nat> := map[];
    StartMerging(g, level, t, uses);
    for i := 0 to |uses|
      invariant Merging(g, h, level, t, uses, firsts, i)
    {
      var use := uses[i];
      UseAhead(g, h, level, t, uses, firsts, i);
      if h[use].op.Receive? {
        var key := (h[use].op.size, h[use].op.partition);
        if key !in firsts {
          NewFirst(g, h, level, t, uses, firsts, i, key);
          firsts := firsts[key := use];
        } else {
          MergeNext(g, h, level, t, uses, firsts, i, key);
          MergedIs(h, use, firsts[key]);
          h := ReplaceAllUses(h, use, firsts[key]);
          h := h[use := Term(Nop, h[use].operands)];
        }
      } else {
        OtherUser(g, h, level, t, uses, firsts, i);
      }
    }
    EndMerging(g, h, level, t, uses, firsts);
  }

  lemma StartMerging(g: Graph, level: map<nat, nat>, t: nat, uses: seq<nat>)
    requires Ranked(g, level) && ListsUsers(g, t, uses)
    requires forall x :: x in uses && g[x].op.Receive? ==> g[x].operands == [t]
    ensures Merging(g, g, level, t, uses, map[], 0)
  {
    hide Ranked, Clean, Consistent;
  }

  lemma EndMerging(g: Graph, h: Graph, level: map<nat, nat>, t: nat, uses: seq<nat>, firsts: map<(nat, nat), nat>)
    requires Merging(g, h, level, t, uses, firsts, |uses|)
    ensures Keeps(g, h) && Ranked(h, level) && (Clean(g) ==> Clean(h) && SameMeaning(g, h, {}))
    ensures forall x: nat :: x in g ==> x in h && h[x].op == if Repeats(g, uses, |uses|, x) then Nop else g[x].op
  {
    hide Repeats, Ranked, Clean, Keeps, FirstsRight, Ahead;
    if Clean(g) {
      KeepsMeaning(g, h, level);
    }
  }

  lemma UseAhead(g: Graph, h: Graph, level: map<nat, nat>, t: nat, uses: seq<nat>, firsts: map<(nat, nat), nat>, i: nat)
    requires Merging(g, h, level, t, uses, firsts, i) && ListsUsers(g, t, uses) && i < |uses|
    ensures uses[i] in g && uses[i] in h && h[uses[i]].op == g[uses[i]].op
    ensures g[uses[i]].op.Receive? ==> h[uses[i]] == g[uses[i]] && g[uses[i]].operands == [t]
    ensures forall key :: key in firsts ==> firsts[key] in h && firsts[key] != uses[i]
  {
    hide Keeps, Ranked, Clean;
    assert !Repeats(g, uses, i, uses[i]);
  }

  lemma RepeatsNext(g: Graph, uses: seq<nat>, i: nat, x: nat)
    requires i < |uses|
    ensures Repeats(g, uses, i + 1, x) <==> Repeats(g, uses, i, x) || (RepeatsAt(g, uses, i) && uses[i] == x)
  {
  }

  lemma OtherUser(g: Graph, h: Graph, level: map<nat, nat>, t: nat, uses: seq<nat>, firsts: map<(nat, nat), nat>, i: nat)
    requires Merging(g, h, level, t, uses, firsts, i) && i < |uses| && uses[i] in g && !g[uses[i]].op.Receive?
    ensures Merging(g, h, level, t, uses, firsts, i + 1)
  {
    hide Keeps, Ranked, Clean, Repeats;
    forall x: nat
      ensures Repeats(g, uses, i + 1, x) <==> Repeats(g, uses, i, x)
    {
      RepeatsNext(g, uses, i, x);
    }
    FirstsMore(g, h, t, uses, firsts, i);
  }

  lemma FirstsMore(g: Graph, h: Graph, t: nat, uses: seq<nat>, firsts: map<(nat, nat), nat>, i: nat)
    requires FirstsRight(g, h, t, uses, firsts, i) && i < |uses|
    ensures forall key :: key in firsts ==> IsFirst(g, h, t, uses, i + 1, firsts[key], key)
    ensures uses[i] in g && !g[uses[i]].op.Receive? ==> FirstsRight(g, h, t, uses, firsts, i + 1)
  {
    forall key | key in firsts
      ensures IsFirst(g, h, t, uses, i + 1, firsts[key], key)
    {
      assert IsFirst(g, h, t, uses, i, firsts[key], key);
    }
    hide IsFirst;
  }

  lemma NewFirst(g: Graph, h: Graph, level: map<nat, nat>, t: nat, uses: seq<nat>, firsts: map<(nat, nat), nat>, i: nat, key: (nat, nat))
    requires Merging(g, h, level, t, uses, firsts, i) && i < |uses| && key !in firsts
    requires uses[i] in g && uses[i] in h && h[uses[i]] == g[uses[i]] == Term(Receive(key.0, key.1), [t])
    ensures Merging(g, h, level, t, uses, firsts[key := uses[i]], i + 1)
  {
    hide Keeps, Ranked, Clean, Repeats;
    NoEarlier(g, h, t, uses, firsts, i, key);
    forall x: nat
      ensures Repeats(g, uses, i + 1, x) <==> Repeats(g, uses, i, x)
    {
      RepeatsNext(g, uses, i, x);
    }
    FirstsMore(g, h, t, uses, firsts, i);
    assert IsFirst(g, h, t, uses, i + 1, uses[i], key);
    hide IsFirst;
  }

  lemma NoEarlier(g: Graph, h: Graph, t: nat, uses: seq<nat>, firsts: map<(nat, nat), nat>, i: nat, key: (nat, nat))
    requires FirstsRight(g, h, t, uses, firsts, i) && i < |uses| && uses[i] in g && g[uses[i]].op == Receive(key.0, key.1)
    ensures RepeatsAt(g, uses, i) <==> key in firsts
  {
    if key in firsts {
      assert IsFirst(g, h, t, uses, i, firsts[key], key);
    }
  }

  lemma MergeNext(g: Graph, h: Graph, level: map<nat, nat>, t: nat, uses: seq<nat>, firsts: map<(nat, nat), nat>, i: nat, key: (nat, nat))
    requires Merging(g, h, level, t, uses, firsts, i) && ListsUsers(g, t, uses) && i < |uses| && key in firsts
    requires forall x :: x in uses && g[x].op.Receive? ==> x in level && level[x] == level[uses[i]]
    requires uses[i] in g && uses[i] in h && h[uses[i]] == g[uses[i]] == Term(Receive(key.0, key.1), [t])
    ensures Merging(g, Merged(h, uses[i], firsts[key]), level, t, uses, firsts, i + 1)
  {
    hide Keeps, Ranked, Clean, Repeats, Ahead, Merged, Consistent;
    var use, first := uses[i], firsts[key];
    assert IsFirst(g, h, t, uses, i, first, key);
    NotSelf(h, level, use, t);
    MergedReceives(g, h, t, use, first, key);
    MergeShape(h, level, use, first);
    NoEarlier(g, h, t, uses, firsts, i, key);
    OpsNext(g, h, uses, i, first, level);
    FirstsStand(g, h, t, uses, firsts, i, first);
    AheadStands(g, h, t, uses, i, first);
    assert Live(h, first);
  }

  lemma OpsNext(g: Graph, h: Graph, uses: seq<nat>, i: nat, first: nat, level: map<nat, nat>)
    requires OpsAfter(g, h, uses, i) && i < |uses| && uses[i] in h && RepeatsAt(g, uses, i)
    requires forall x: nat :: x in h ==> Merged(h, uses[i], first)[x].op == if x == uses[i] then Nop else h[x].op
    ensures OpsAfter(g, Merged(h, uses[i], first), uses, i + 1)
  {
    hide Merged, Repeats, RepeatsAt;
    forall x: nat
      ensures Repeats(g, uses, i + 1, x) <==> Repeats(g, uses, i, x) || x == uses[i]
    {
      RepeatsNext(g, uses, i, x);
    }
  }

  lemma Untouched(h: Graph, t: nat, use: nat, first: nat, x: nat)
    requires use in h && x in h && x != use && t != use && h[x].operands == [t]
    ensures Merged(h, use, first)[x] == h[x]
  {
    assert Redirect([t], use, first) == [t];
  }

  lemma FirstsStand(g: Graph, h: Graph, t: nat, uses: seq<nat>, firsts: map<(nat, nat), nat>, i: nat, first: nat)
    requires FirstsRight(g, h, t, uses, firsts, i) && ListsUsers(g, t, uses) && i < |uses| && uses[i] in h
    requires t != uses[i] && g[uses[i]].op.Receive? && (g[uses[i]].op.size, g[uses[i]].op.partition) in firsts
    ensures FirstsRight(g, Merged(h, uses[i], first), t, uses, firsts, i + 1)
  {
    hide Merged;
    forall key | key in firsts
      ensures IsFirst(g, Merged(h, uses[i], first), t, uses, i + 1, firsts[key], key)
    {
      assert IsFirst(g, h, t, uses, i, firsts[key], key);
      Untouched(h, t, uses[i], first, firsts[key]);
    }
    hide IsFirst;
  }

  lemma AheadStands(g: Graph, h: Graph, t: nat, uses: seq<nat>, i: nat, first: nat)
    requires Ahead(g, h, t, uses, i) && ListsUsers(g, t, uses) && i < |uses| && uses[i] in h && t != uses[i]
    ensures Ahead(g, Merged(h, uses[i], first), t, uses, i + 1)
  {
    hide Merged;
    forall k: nat | i + 1 <= k < |uses| && uses[k] in g && g[uses[k]].op.Receive?
      ensures uses[k] in Merged(h, uses[i], first) && Merged(h, uses[i], first)[uses[k]] == g[uses[k]]
    {
      Untouched(h, t, uses[i], first, uses[k]);
    }
  }

  lemma MergedReceives(g: Graph, h: Graph, t: nat, use: nat, first: nat, key: (nat, nat))
    requires Keeps(g, h) && use in h && first in h && h[use] == h[first] == Term(Receive(key.0, key.1), [t])
    ensures Keeps(g, Merged(h, use, first))
  {
    hide Merged;
    forall val: Valuation, n: nat | Consistent(g, val, n)
      ensures Consistent(Merged(h, use, first), val, n)
    {
      assert Consistent(h, val, n);
      assert TermRight(h[use], val[use], val, n) && TermRight(h[first], val[first], val, n);
      MergeKeeps(h, use, first, val, n);
    }
  }
}

/** Trees of additions whose members are each used once: lowering one member by a vector lowers everything above it, and
    the root's sum with it. */
module AdditionTrees {
  import opened TermGraph
  import opened KeyswitchPasses

  // ----- uses

  predicate SoleUser(g: Graph, x: nat, t: nat)
  {
    t in g && multiset(g[t].operands)[x] == 1 && forall s: nat :: s in g.Keys && s != t ==> x !in g[s].operands
  }

  predicate SingleUse(g: Graph, x: nat)
  {
    exists t: nat :: t in g.Keys && SoleUser(g, x, t)
  }

  /** Operand j of term t is x. */
  ghost predicate ReadsAt(g: Graph, t: nat, j: nat, x: nat)
  {
    t in g && j < |g[t].operands| && g[t].operands[j] == x
  }

  /** There is one place in the graph where x is read, and only one. */
  ghost predicate ReadOnce(g: Graph, x: nat)
  {
    exists t: nat, j: nat :: ReadsAt(g, t, j, x) && forall s: nat, k: nat :: ReadsAt(g, s, k, x) ==> s == t && k == j
  }

  lemma SingleUseMeans(g: Graph, x: nat)
    ensures SingleUse(g, x) <==> ReadOnce(g, x)
  {
    if SingleUse(g, x) {
      var t: nat :| t in g.Keys && SoleUser(g, x, t);
      var j := OnlyAt(g[t].operands, x);
      assert ReadsAt(g, t, j, x);
    }
    if ReadOnce(g, x) {
      var t: nat, j: nat :| ReadsAt(g, t, j, x) && forall s: nat, k: nat :: ReadsAt(g, s, k, x) ==> s == t && k == j;
      forall k: nat | k < |g[t].operands| && g[t].operands[k] == x
        ensures k == j
      {
        assert ReadsAt(g, t, k, x);
      }
      OnceAt(g[t].operands, x, j);
      forall s: nat | s in g.Keys && s != t
        ensures x !in g[s].operands
      {
        if x in g[s].operands {
          ReadSomewhere(g, s, x);
        }
      }
    }
  }

  lemma ReadSomewhere(g: Graph, s: nat, x: nat)
    requires s in g && x in g[s].operands
    ensures exists k: nat :: ReadsAt(g, s, k, x)
  {
    var k: nat :| k < |g[s].operands| && g[s].operands[k] == x;
    assert ReadsAt(g, s, k, x);
  }

  lemma OnceAt(operands: seq<nat>, x: nat, j: nat)
    requires j < |operands| && operands[j] == x && forall k: nat :: k < |operands| && operands[k] == x ==> k == j
    ensures multiset(operands)[x] == 1
  {
    assert operands == operands[..j] + [x] + operands[j + 1..];
    assert multiset(operands) == multiset(operands[..j]) + multiset{x} + multiset(operands[j + 1..]);
    assert x !in operands[..j] && x !in operands[j + 1..];
  }

  predicate SingleUseRotate(g: Graph, x: nat)
  {
    x in g && IsRotate(g[x].op) && SingleUse(g, x)
  }

  /** The one position of an operand. */
  lemma {:induction false} OnlyAt(operands: seq<nat>, x: nat) returns (j: nat)
    requires multiset(operands)[x] == 1
    ensures j < |operands| && operands[j] == x && forall k: nat :: k < |operands| && k != j ==> operands[k] != x
  {
    assert x in operands;
    j :| j < |operands| && operands[j] == x;
    assert operands == operands[..j] + [x] + operands[j + 1..];
    assert multiset(operands) == multiset(operands[..j]) + multiset{x} + multiset(operands[j + 1..]);
    forall k: nat | k < |operands| && k != j
      ensures operands[k] != x
    {
      if k < j {
        assert operands[k] == operands[..j][k] && operands[k] in multiset(operands[..j]);
      } else {
        assert operands[k] == operands[j + 1..][k - j - 1] && operands[k] in multiset(operands[j + 1..]);
      }
    }
  }

  // ----- plain sums

  function Zeros(k: nat): (z: seq<int>)
    ensures |z| == k && forall i: nat :: i < k ==> z[i] == 0
  {
    seq(k, i => 0)
  }

  ghost function PlainSum(operands: seq<nat>, val: Valuation, n: nat): (r: Vec)
    ensures |r| == n
  {
    if |operands| == 0 then Zero(n)
    else Plus(PlainSum(operands[..|operands| - 1], val, n), VecOf(val, operands[|operands| - 1]), n)
  }

  ghost predicate AllVecs(operands: seq<nat>, val: Valuation, n: nat)
  {
    forall j: nat :: j < |operands| ==> operands[j] in val && val[operands[j]].One? && |val[operands[j]].v| == n
  }

  lemma {:induction false} RotSumPlain(operands: seq<nat>, val: Valuation, n: nat)
    requires AllVecs(operands, val, n)
    ensures RotSum(operands, Zeros(|operands|), val, n) == PlainSum(operands, val, n)
  {
    if |operands| > 0 {
      var last := |operands| - 1;
      RotSumPlain(operands[..last], val, n);
      assert Zeros(|operands|)[..last] == Zeros(last);
      RotatedByZero(VecOf(val, operands[last]), n);
    }
  }

  lemma {:induction false} PlainSumConcat(a: seq<nat>, b: seq<nat>, val: Valuation, n: nat)
    ensures PlainSum(a + b, val, n) == Plus(PlainSum(a, val, n), PlainSum(b, val, n), n)
  {
    if |b| == 0 {
      assert a + b == a;
    } else {
      var last := |b| - 1;
      assert (a + b)[..|a| + last] == a + b[..last];
      PlainSumConcat(a, b[..last], val, n);
    }
  }

  lemma {:induction false} PlainSumExt(operands: seq<nat>, val: Valuation, other: Valuation, n: nat)
    requires forall j: nat :: j < |operands| ==> VecOf(val, operands[j]) == VecOf(other, operands[j])
    ensures PlainSum(operands, val, n) == PlainSum(operands, other, n)
  {
    if |operands| > 0 {
      PlainSumExt(operands[..|operands| - 1], val, other, n);
    }
  }

  lemma PlainSumOne(x: nat, val: Valuation, n: nat)
    requires |VecOf(val, x)| == n
    ensures PlainSum([x], val, n) == VecOf(val, x)
  {
    assert PlainSum([x], val, n) == Plus(PlainSum([], val, n), VecOf(val, x), n);
  }

  lemma LowerMiddle(l: Vec, x: Vec, r: Vec, d: Vec, n: nat)
    requires |l| == |x| == |r| == |d| == n
    ensures Plus(Plus(l, Minus(x, d, n), n), r, n) == Minus(Plus(Plus(l, x, n), r, n), d, n)
  {
  }

  lemma MoveMiddle(l: Vec, x: Vec, r: Vec, n: nat)
    requires |l| == |x| == |r| == n
    ensures Plus(Plus(l, r, n), x, n) == Plus(Plus(l, x, n), r, n)
  {
  }

  /** The sum around one operand. */
  lemma PlainSumAround(operands: seq<nat>, j: nat, val: Valuation, n: nat)
    requires j < |operands|
    ensures PlainSum(operands, val, n)
         == Plus(Plus(PlainSum(operands[..j], val, n), PlainSum([operands[j]], val, n), n), PlainSum(operands[j + 1..], val, n), n)
  {
    assert operands == (operands[..j] + [operands[j]]) + operands[j + 1..];
    PlainSumConcat(operands[..j] + [operands[j]], operands[j + 1..], val, n);
    PlainSumConcat(operands[..j], [operands[j]], val, n);
  }

  /** Taking a vector off one operand takes it off the sum. */
  lemma PlainSumLowered(operands: seq<nat>, j: nat, val: Valuation, after: Valuation, d: Vec, n: nat)
    requires j < |operands| && |d| == n && |VecOf(val, operands[j])| == n && VecOf(after, operands[j]) == Minus(VecOf(val, operands[j]), d, n)
    requires forall k: nat :: k < |operands| && k != j ==> VecOf(after, operands[k]) == VecOf(val, operands[k])
    ensures PlainSum(operands, after, n) == Minus(PlainSum(operands, val, n), d, n)
  {
    PlainSumAround(operands, j, val, n);
    PlainSumAround(operands, j, after, n);
    PlainSumExt(operands[..j], val, after, n);
    PlainSumExt(operands[j + 1..], val, after, n);
    PlainSumOne(operands[j], val, n);
    PlainSumOne(operands[j], after, n);
    LowerMiddle(PlainSum(operands[..j], val, n), VecOf(val, operands[j]), PlainSum(operands[j + 1..], val, n), d, n);
    hide PlainSum, Plus, Minus, VecOf;
  }

  /** Moving an operand to the end keeps the sum. */
  lemma PlainSumMoved(operands: seq<nat>, j: nat, val: Valuation, n: nat)
    requires j < |operands|
    ensures PlainSum(operands[..j] + operands[j + 1..] + [operands[j]], val, n) == PlainSum(operands, val, n)
  {
    var left, x, right := operands[..j], operands[j], operands[j + 1..];
    PlainSumAround(operands, j, val, n);
    PlainSumConcat(left + right, [x], val, n);
    PlainSumConcat(left, right, val, n);
    MoveMiddle(PlainSum(left, val, n), PlainSum([x], val, n), PlainSum(right, val, n), n);
    hide PlainSum, Plus;
  }

  // ----- the tree of additions below the root

  ghost predicate Inner(root: nat, tree: set<nat>, t: nat)
  {
    t == root || t in tree
  }

  ghost predicate InnerUsed(g: Graph, root: nat, tree: set<nat>, a: nat)
  {
    exists t: nat :: Inner(root, tree, t) && SoleUser(g, a, t)
  }

  /** The additions reached from the root through additions. Those of the tree have a single use, within the tree; the
      cold ones may be shared, but nothing reached from them is a rotation with a single use. */
  ghost predicate IsTree(g: Graph, root: nat, tree: set<nat>, cold: set<nat>)
  {
    && root in g && root !in tree && root !in cold && tree <= g.Keys && cold <= g.Keys
    && (forall a: nat :: a in tree ==> g[a].op.Add? && |g[a].operands| == 2 && InnerUsed(g, root, tree, a))
    && (forall a: nat :: a in cold ==> g[a].op.Add? && |g[a].operands| == 2)
    && (forall t: nat, x: nat :: Inner(root, tree, t) && x in g[t].operands ==> Covered(g, tree, cold, x))
    && (forall t: nat, x: nat :: t in cold && x in g[t].operands ==> Cold(g, cold, x))
  }

  ghost predicate Covered(g: Graph, tree: set<nat>, cold: set<nat>, x: nat)
  {
    x in g && (g[x].op.Add? ==> x in tree || x in cold)
  }

  ghost predicate Cold(g: Graph, cold: set<nat>, x: nat)
  {
    x in g && (g[x].op.Add? ==> x in cold) && !SingleUseRotate(g, x)
  }

  ghost predicate Bounded(g: Graph, rank: map<nat, nat>, top: nat)
  {
    Ranked(g, rank) && forall x: nat :: x in g ==> rank[x] <= top
  }

  lemma OperandBelow(g: Graph, rank: map<nat, nat>, t: nat, x: nat)
    requires Ranked(g, rank) && t in g && x in g[t].operands
    ensures x in g && rank[x] < rank[t]
  {
    var j: nat :| j < |g[t].operands| && g[t].operands[j] == x;
    assert Uses(g, t, j);
  }

  /** The tree lies below its root. */
  lemma {:induction false} BelowRoot(g: Graph, rank: map<nat, nat>, top: nat, root: nat, tree: set<nat>, cold: set<nat>, a: nat)
    requires Bounded(g, rank, top) && IsTree(g, root, tree, cold) && a in tree
    ensures rank[a] < rank[root]
    decreases top - rank[a]
  {
    assert InnerUsed(g, root, tree, a);
    var t: nat :| Inner(root, tree, t) && SoleUser(g, a, t);
    OperandBelow(g, rank, t, a);
    if t != root {
      BelowRoot(g, rank, top, root, tree, cold, t);
    }
  }

  /** The root while operands are being collected: a sum of operands as they are. */
  ghost predicate Collecting(g: Graph, root: nat)
  {
    root in g && g[root].op == RotAcc(Zeros(|g[root].operands|))
  }

  ghost predicate RightAbove(g: Graph, rank: map<nat, nat>, root: nat, x: nat, val: Valuation, n: nat)
    requires Ranked(g, rank) && val.Keys == g.Keys && x in g
  {
    forall t: nat :: t in g && t != root && t != x && rank[t] >= rank[x] ==> TermRight(g[t], val[t], val, n)
  }

  /** Valuations that differ only in the tree, at x and above it. */
  ghost predicate ChangedAbove(g: Graph, rank: map<nat, nat>, tree: set<nat>, x: nat, val: Valuation, after: Valuation)
    requires Ranked(g, rank) && x in g
  {
    && val.Keys == g.Keys == after.Keys
    && forall t: nat :: t in g && (t !in tree || (rank[t] <= rank[x] && t != x)) ==> after[t] == val[t]
  }

  ghost predicate RootSum(g: Graph, root: nat, val: Valuation, n: nat, sum: Vec)
  {
    root in g && AllVecs(g[root].operands, val, n) && PlainSum(g[root].operands, val, n) == sum
  }

  ghost predicate IsVec(val: Valuation, x: nat, n: nat)
  {
    x in val && val[x].One? && |val[x].v| == n
  }

  function LoweredAt(val: Valuation, x: nat, d: Vec, n: nat): Valuation
  {
    val[x := One(Minus(VecOf(val, x), d, n))]
  }

  /** Lowers an addition of the tree by d, and with it everything above, so that all terms above stay right and the
      root's sum falls by d. */
  lemma {:induction false} Lower(g: Graph, rank: map<nat, nat>, top: nat, root: nat, tree: set<nat>, cold: set<nat>, val: Valuation,
                                 x: nat, d: Vec, n: nat, sum: Vec)
      returns (after: Valuation)
    requires Bounded(g, rank, top) && IsTree(g, root, tree, cold) && x in tree && |d| == n && val.Keys == g.Keys
    requires IsVec(val, x, n) && RightAbove(g, rank, root, x, val, n) && RootSum(g, root, val, n, sum)
    ensures ChangedAbove(g, rank, tree, x, val, after) && RightAbove(g, rank, root, x, after, n)
    ensures after[x] == One(Minus(VecOf(val, x), d, n)) && RootSum(g, root, after, n, Minus(sum, d, n))
    decreases top - rank[x]
  {
    hide *;
    var t := TreeUser(g, rank, top, root, tree, cold, x);
    var lowered := StartLowered(g, rank, root, tree, cold, val, x, t, d, n);
    if t == root {
      RootLowered(g, root, x, val, d, n, sum);
      after := lowered;
      LoweredAtRoot(g, rank, root, tree, x, val, d, n);
    } else {
      UserFacts(g, rank, root, tree, cold, t, val, lowered, n, x);
      RootUnaffected(g, root, x, t, val, lowered, n, sum);
      after := Lower(g, rank, top, root, tree, cold, lowered, t, d, n, sum);
      ChangesCombine(g, rank, tree, x, t, val, lowered, after, d, n);
      UserRight(g, rank, tree, x, t, val, lowered, after, d, n);
      AboveRight(g, rank, root, tree, x, t, lowered, after, n);
    }
  }

  ghost predicate AboveUser(g: Graph, rank: map<nat, nat>, root: nat, x: nat, t: nat, val: Valuation, n: nat)
    requires Ranked(g, rank) && val.Keys == g.Keys && x in g
  {
    forall y: nat :: y in g && y != root && y != x && y != t && rank[y] >= rank[x] ==> TermRight(g[y], val[y], val, n)
  }

  lemma TreeUser(g: Graph, rank: map<nat, nat>, top: nat, root: nat, tree: set<nat>, cold: set<nat>, x: nat) returns (t: nat)
    requires Bounded(g, rank, top) && IsTree(g, root, tree, cold) && x in tree
    ensures t == root || t in tree
    ensures x in g && t in g && SoleUser(g, x, t) && x != t && rank[x] < rank[t] <= top && Ranked(g, rank)
    ensures t in tree ==> g[t].op.Add? && |g[t].operands| == 2
  {
    assert InnerUsed(g, root, tree, x);
    t :| Inner(root, tree, t) && SoleUser(g, x, t);
    OperandBelow(g, rank, t, x);
  }

  lemma StartLowered(g: Graph, rank: map<nat, nat>, root: nat, tree: set<nat>, cold: set<nat>, val: Valuation, x: nat, t: nat, d: Vec, n: nat)
      returns (lowered: Valuation)
    requires Ranked(g, rank) && val.Keys == g.Keys && x in g && SoleUser(g, x, t) && RightAbove(g, rank, root, x, val, n)
    ensures lowered == LoweredAt(val, x, d, n) && lowered.Keys == g.Keys && forall y: nat :: y in val && y != x ==> lowered[y] == val[y]
    ensures AboveUser(g, rank, root, x, t, lowered, n) && lowered[x] == One(Minus(VecOf(val, x), d, n))
  {
    lowered := LoweredAt(val, x, d, n);
    OthersRight(g, rank, root, x, t, val, lowered, n);
  }

  lemma LoweredAtRoot(g: Graph, rank: map<nat, nat>, root: nat, tree: set<nat>, x: nat, val: Valuation, d: Vec, n: nat)
    requires Ranked(g, rank) && val.Keys == g.Keys && x in g && x in tree
    requires AboveUser(g, rank, root, x, root, LoweredAt(val, x, d, n), n)
    ensures LoweredAt(val, x, d, n).Keys == g.Keys
    ensures ChangedAbove(g, rank, tree, x, val, LoweredAt(val, x, d, n)) && RightAbove(g, rank, root, x, LoweredAt(val, x, d, n), n)
  {
    hide TermRight;
  }

  lemma ChangesCombine(g: Graph, rank: map<nat, nat>, tree: set<nat>, x: nat, t: nat, val: Valuation, lowered: Valuation, after: Valuation,
                       d: Vec, n: nat)
    requires Ranked(g, rank) && val.Keys == g.Keys && x in g && x in tree && t in g && t != x && rank[x] < rank[t]
    requires lowered == LoweredAt(val, x, d, n) && ChangedAbove(g, rank, tree, t, lowered, after)
    ensures after.Keys == g.Keys && ChangedAbove(g, rank, tree, x, val, after) && after[x] == lowered[x]
  {
    hide Ranked;
  }

  /** Terms that do not use x are as right as before. */
  lemma OthersRight(g: Graph, rank: map<nat, nat>, root: nat, x: nat, t: nat, val: Valuation, lowered: Valuation, n: nat)
    requires Ranked(g, rank) && val.Keys == g.Keys && x in g && SoleUser(g, x, t)
    requires lowered.Keys == g.Keys && forall y: nat :: y in g && y != x ==> lowered[y] == val[y]
    requires RightAbove(g, rank, root, x, val, n)
    ensures AboveUser(g, rank, root, x, t, lowered, n)
  {
    forall y: nat | y in g && y != root && y != x && y != t && rank[y] >= rank[x]
      ensures TermRight(g[y], lowered[y], lowered, n)
    {
      assert TermRight(g[y], val[y], val, n);
      assert x !in g[y].operands;
      assert OperandsKnown(g[y], val);
      hide TermRight;
      TermRightExt(g[y], val[y], val, lowered, n);
    }
  }

  lemma RootLowered(g: Graph, root: nat, x: nat, val: Valuation, d: Vec, n: nat, sum: Vec)
    requires SoleUser(g, x, root) && IsVec(val, x, n) && RootSum(g, root, val, n, sum) && |d| == n
    ensures RootSum(g, root, LoweredAt(val, x, d, n), n, Minus(sum, d, n))
  {
    var operands, lowered := g[root].operands, LoweredAt(val, x, d, n);
    var j := OnlyAt(operands, x);
    hide PlainSum;
    PlainSumLowered(operands, j, val, lowered, d, n);
  }

  lemma RootUnaffected(g: Graph, root: nat, x: nat, t: nat, val: Valuation, lowered: Valuation, n: nat, sum: Vec)
    requires SoleUser(g, x, t) && t != root && RootSum(g, root, val, n, sum)
    requires lowered.Keys == val.Keys && forall y: nat :: y in val && y != x ==> lowered[y] == val[y]
    ensures RootSum(g, root, lowered, n, sum)
  {
    assert x !in g[root].operands;
    PlainSumExt(g[root].operands, val, lowered, n);
  }

  lemma UserFacts(g: Graph, rank: map<nat, nat>, root: nat, tree: set<nat>, cold: set<nat>, t: nat, val: Valuation, lowered: Valuation, n: nat, x: nat)
    requires Ranked(g, rank) && val.Keys == g.Keys && x in g && t in g && t != root && g[t].op.Add? && RightAbove(g, rank, root, x, val, n)
    requires rank[x] < rank[t] && lowered.Keys == g.Keys && AboveUser(g, rank, root, x, t, lowered, n)
    requires forall y: nat :: y in val && y != x ==> lowered[y] == val[y]
    ensures IsVec(lowered, t, n) && TermRight(g[t], val[t], val, n) && RightAbove(g, rank, root, t, lowered, n)
  {
    hide Ranked;
  }

  /** The addition above is right again once it has been lowered too. */
  lemma UserRight(g: Graph, rank: map<nat, nat>, tree: set<nat>, x: nat, t: nat, val: Valuation, lowered: Valuation,
                  after: Valuation, d: Vec, n: nat)
    requires Ranked(g, rank) && x in g && t in g && x != t && SoleUser(g, x, t) && g[t].op.Add? && |g[t].operands| == 2
    requires val.Keys == g.Keys && TermRight(g[t], val[t], val, n) && IsVec(val, x, n) && |d| == n
    requires lowered == LoweredAt(val, x, d, n) && ChangedAbove(g, rank, tree, t, lowered, after)
    requires after[t] == One(Minus(VecOf(lowered, t), d, n))
    ensures TermRight(g[t], after[t], after, n)
  {
    var j := OnlyAt(g[t].operands, x);
    var other := g[t].operands[1 - j];
    OperandBelow(g, rank, t, other);
    OperandBelow(g, rank, t, x);
    assert after[x] == lowered[x] && after[other] == val[other];
    SumLowered(g[t], j, val, after, d, n);
  }

  lemma SumLowered(t: Term, j: nat, val: Valuation, after: Valuation, d: Vec, n: nat)
    requires t.op.Add? && |t.operands| == 2 && j < 2 && |d| == n
    requires Single(t, val, 2) && Single(t, after, 2) && after[t.operands[1 - j]] == val[t.operands[1 - j]]
    requires after[t.operands[j]] == One(Minus(VecOf(val, t.operands[j]), d, n))
    ensures Plus(VecOf(after, t.operands[0]), VecOf(after, t.operands[1]), n)
         == Minus(Plus(VecOf(val, t.operands[0]), VecOf(val, t.operands[1]), n), d, n)
  {
  }

  lemma AboveRight(g: Graph, rank: map<nat, nat>, root: nat, tree: set<nat>, x: nat, t: nat, lowered: Valuation, after: Valuation, n: nat)
    requires Ranked(g, rank) && x in g && t in g && rank[x] < rank[t] && lowered.Keys == g.Keys
    requires AboveUser(g, rank, root, x, t, lowered, n) && after.Keys == g.Keys
    requires ChangedAbove(g, rank, tree, t, lowered, after) && RightAbove(g, rank, root, t, after, n)
    requires TermRight(g[t], after[t], after, n)
    ensures RightAbove(g, rank, root, x, after, n)
  {
    hide TermRight;
    forall y: nat | y in g && y != root && y != x && rank[y] >= rank[x]
      ensures TermRight(g[y], after[y], after, n)
    {
      if y != t && rank[y] < rank[t] {
        BelowRight(g, rank, tree, t, y, lowered, after, n);
      }
    }
  }

  /** Terms no higher than t do not see a change at t and above. */
  lemma BelowRight(g: Graph, rank: map<nat, nat>, tree: set<nat>, t: nat, y: nat, val: Valuation, after: Valuation, n: nat)
    requires Ranked(g, rank) && t in g && y in g && y != t && rank[y] <= rank[t]
    requires ChangedAbove(g, rank, tree, t, val, after) && TermRight(g[y], val[y], val, n)
    ensures TermRight(g[y], after[y], after, n)
  {
    assert OperandsKnown(g[y], val);
    hide TermRight;
    forall k: nat | k < |g[y].operands|
      ensures g[y].operands[k] in after && after[g[y].operands[k]] == val[g[y].operands[k]]
    {
      assert Uses(g, y, k);
    }
    TermRightExt(g[y], val[y], val, after, n);
  }
}

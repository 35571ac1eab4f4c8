/** The end of fusing: the collected rotations become amounts of the root, and the whole pass from the first addition to
    the fused root. */
module FusePass {
  import opened TermGraph
  import opened KeyswitchPasses
  import opened AdditionTrees
  import opened PullRotations
  import opened FuseWalk
  import opened FuseAggregation

  // ----- absorbing the collected rotations

  /** Operands from front on are rotations that only the root uses; those before are not single-use rotations. */
  ghost predicate Collected(g: Graph, root: nat, front: nat)
  {
    && Collecting(g, root) && front <= |g[root].operands|
    && (forall k: nat :: k < front ==> !SingleUseRotate(g, g[root].operands[k]))
    && (forall k: nat :: front <= k < |g[root].operands| ==> AbsorbableAt(g, root, k))
  }

  ghost predicate AbsorbableAt(g: Graph, root: nat, k: nat)
    requires root in g && k < |g[root].operands|
  {
    var x := g[root].operands[k];
    x in g && IsRotate(g[x].op) && SoleUser(g, x, root) && |g[x].operands| == 1
  }

  ghost predicate Absorbed(operands: seq<nat>, front: nat, i: nat, t: nat)
  {
    exists k: nat :: front <= k < i && k < |operands| && operands[k] == t
  }

  function Remaining(operands: seq<nat>, front: nat, i: nat): seq<nat>
    requires front <= |operands| && i <= |operands|
  {
    if i <= front then operands else operands[..front] + operands[i..]
  }

  ghost predicate Absorbing(g: Graph, h: Graph, root: nat, front: nat, i: nat)
    requires root in g && front <= |g[root].operands| && i <= |g[root].operands|
  {
    var operands := g[root].operands;
    && h.Keys == g.Keys && h[root] == Term(g[root].op, Remaining(operands, front, i))
    && (forall t: nat :: t in g && t != root && !Absorbed(operands, front, i, t) ==> h[t] == g[t])
    && (forall t: nat :: t in g && Absorbed(operands, front, i, t) ==> h[t] == Term(Nop, []))
  }

  /** Operand k of the fused root and its amount: the rotated term and the rotation to the left. */
  ghost predicate Entry(g: Graph, root: nat, front: nat, i: nat, k: nat, operand: nat, amount: int)
    requires root in g && k < |g[root].operands|
  {
    var x := g[root].operands[k];
    if front <= k < i then x in g && |g[x].operands| == 1 && operand == g[x].operands[0] && amount == Amount(g[x].op)
    else operand == x && amount == 0
  }

  ghost predicate Entries(g: Graph, root: nat, front: nat, i: nat, operands: seq<nat>, amounts: seq<int>)
    requires root in g
  {
    && |operands| == |amounts| == |g[root].operands|
    && forall k: nat :: k < |operands| ==> Entry(g, root, front, i, k, operands[k], amounts[k])
  }

  lemma {:induction false} CountOne(s: seq<nat>, j: nat)
    requires j < |s| && forall k: nat :: k < |s| && k != j ==> s[k] != s[j]
    ensures multiset(s)[s[j]] == 1
  {
    assert s == s[..j] + [s[j]] + s[j + 1..];
    assert s[j] !in s[..j] && s[j] !in s[j + 1..];
    assert s[j] !in multiset(s[..j]) && s[j] !in multiset(s[j + 1..]);
  }

  lemma OnlyHere(g: Graph, root: nat, k: nat)
    requires root in g && k < |g[root].operands| && SoleUser(g, g[root].operands[k], root)
    ensures forall m: nat :: m < |g[root].operands| && m != k ==> g[root].operands[m] != g[root].operands[k]
  {
    var j := OnlyAt(g[root].operands, g[root].operands[k]);
    assert j == k;
  }

  /** Until its turn a collected rotation is still used by the root alone. */
  lemma StillSole(g: Graph, h: Graph, root: nat, front: nat, i: nat)
    requires Collected(g, root, front) && front <= i < |g[root].operands| && Absorbing(g, h, root, front, i)
    ensures var x := g[root].operands[i]; x in g && x in h && x != root && h[x] == g[x] && SoleUser(h, x, root) && SingleUseRotate(h, x)
    ensures Remaining(g[root].operands, front, i)[front] == g[root].operands[i] && |Remaining(g[root].operands, front, i)| > front
    ensures |g[g[root].operands[i]].operands| == 1
  {
    var operands := g[root].operands;
    var x, rest := operands[i], Remaining(operands, front, i);
    assert AbsorbableAt(g, root, i);
    OnlyHere(g, root, i);
    assert rest[front] == x;
    CountOne(rest, front);
    hide SoleUser;
    assert SoleUser(h, x, root) by {
      SoleStays(g, h, root, front, i, x);
    }
    assert SingleUse(h, x);
  }

  lemma SoleStays(g: Graph, h: Graph, root: nat, front: nat, i: nat, x: nat)
    requires root in g && front <= |g[root].operands| && i <= |g[root].operands| && Absorbing(g, h, root, front, i)
    requires SoleUser(g, x, root) && multiset(Remaining(g[root].operands, front, i))[x] == 1
    ensures SoleUser(h, x, root)
  {
    forall s: nat | s in h.Keys && s != root
      ensures x !in h[s].operands
    {
      assert x !in g[s].operands;
      assert h[s] == g[s] || h[s] == Term(Nop, []);
    }
  }

  lemma AbsorbOne(g: Graph, h: Graph, root: nat, front: nat, i: nat)
    requires Collected(g, root, front) && front <= i < |g[root].operands| && Absorbing(g, h, root, front, i)
    ensures root in h && h[root].op == g[root].op
    ensures var x := g[root].operands[i];
      Absorbing(g, h[root := Term(g[root].op, Erase(h[root].operands, x))][x := Term(Nop, [])], root, front, i + 1)
  {
    hide Erase, SoleUser, SingleUse, Remaining, Absorbed, Collected;
    CollectedRoot(g, root, front);
    StillSole(g, h, root, front, i);
    AbsorbedNotRoot(g, root, front, i + 1);
    EraseFront(g, root, front, i);
    AbsorbedOneMore(g[root].operands, front, i);
  }

  lemma AbsorbedOneMore(operands: seq<nat>, front: nat, i: nat)
    requires front <= i < |operands|
    ensures forall t: nat :: Absorbed(operands, front, i + 1, t) <==> Absorbed(operands, front, i, t) || t == operands[i]
  {
    forall t: nat
      ensures Absorbed(operands, front, i + 1, t) <==> Absorbed(operands, front, i, t) || t == operands[i]
    {
      AbsorbedNext(operands, front, i, t);
    }
  }

  lemma AbsorbedNext(operands: seq<nat>, front: nat, i: nat, t: nat)
    requires front <= i < |operands|
    ensures Absorbed(operands, front, i + 1, t) <==> Absorbed(operands, front, i, t) || t == operands[i]
  {
    if t == operands[i] {
      assert front <= i < i + 1 && operands[i] == t;
    }
  }

  lemma AbsorbedNotRoot(g: Graph, root: nat, front: nat, i: nat)
    requires Collected(g, root, front)
    ensures !Absorbed(g[root].operands, front, i, root)
  {
    hide SingleUseRotate;
    forall k: nat | front <= k < |g[root].operands|
      ensures g[root].operands[k] != root
    {
      assert AbsorbableAt(g, root, k);
    }
  }

  /** Dropping the next rotation leaves the operands after it. */
  lemma EraseFront(g: Graph, root: nat, front: nat, i: nat)
    requires Collected(g, root, front) && front <= i < |g[root].operands|
    ensures var operands := g[root].operands; Erase(Remaining(operands, front, i), operands[i]) == Remaining(operands, front, i + 1)
  {
    var operands := g[root].operands;
    var rest := Remaining(operands, front, i);
    assert AbsorbableAt(g, root, i);
    OnlyHere(g, root, i);
    hide Collected, SingleUse, SoleUser;
    assert rest[front] == operands[i];
    var j := EraseAt(rest, operands[i]);
    assert rest[..front] + rest[front + 1..] == Remaining(operands, front, i + 1);
  }

  lemma EntryHere(g: Graph, root: nat, front: nat, i: nat, operands: seq<nat>, amounts: seq<int>)
    requires root in g && Entries(g, root, front, i, operands, amounts) && i < |g[root].operands|
    ensures i < |operands| == |amounts| && operands[i] == g[root].operands[i]
  {
    assert Entry(g, root, front, i, i, operands[i], amounts[i]);
  }

  lemma NotYet(g: Graph, root: nat, front: nat, i: nat, operands: seq<nat>, amounts: seq<int>)
    requires Collected(g, root, front) && i < front
    requires Absorbing(g, g, root, front, i) && Entries(g, root, front, i, operands, amounts)
    ensures Absorbing(g, g, root, front, i + 1) && Entries(g, root, front, i + 1, operands, amounts)
    ensures !SingleUseRotate(g, g[root].operands[i])
  {
    hide SingleUseRotate;
    forall t: nat
      ensures Absorbed(g[root].operands, front, i + 1, t) <==> Absorbed(g[root].operands, front, i, t)
    {
    }
    forall k: nat | k < |operands|
      ensures Entry(g, root, front, i + 1, k, operands[k], amounts[k])
    {
      assert Entry(g, root, front, i, k, operands[k], amounts[k]);
    }
  }

  lemma EntryNext(g: Graph, root: nat, front: nat, i: nat, operands: seq<nat>, amounts: seq<int>)
    requires root in g && front <= i < |g[root].operands| && Entries(g, root, front, i, operands, amounts)
    requires g[root].operands[i] in g && |g[g[root].operands[i]].operands| == 1
    ensures i < |operands| == |amounts|
    ensures var t := g[g[root].operands[i]];
      Entries(g, root, front, i + 1, operands[i := t.operands[0]], amounts[i := Amount(t.op)])
  {
    var t := g[g[root].operands[i]];
    var more, shifts := operands[i := t.operands[0]], amounts[i := Amount(t.op)];
    forall k: nat | k < |operands|
      ensures Entry(g, root, front, i + 1, k, more[k], shifts[k])
    {
      assert Entry(g, root, front, i, k, operands[k], amounts[k]);
    }
  }

  /** The fused root, and the rotations it has absorbed. */
  ghost predicate Fused(g: Graph, h: Graph, root: nat, front: nat)
    requires root in g
  {
    var operands := g[root].operands;
    && h.Keys == g.Keys && h[root].op.RotAcc?
    && Entries(g, root, front, |operands|, h[root].operands, h[root].op.amounts)
    && (forall t: nat :: t in g && t != root && !Absorbed(operands, front, |operands|, t) ==> h[t] == g[t])
    && (forall t: nat :: t in g && t != root && Absorbed(operands, front, |operands|, t) ==> h[t] == Term(Nop, []))
  }

  lemma MakeFused(g: Graph, h: Graph, root: nat, front: nat, operands: seq<nat>, amounts: seq<int>)
    requires root in g && front <= |g[root].operands| && Absorbing(g, h, root, front, |g[root].operands|)
    requires Entries(g, root, front, |g[root].operands|, operands, amounts)
    ensures Fused(g, h[root := Term(RotAcc(amounts), operands)], root, front)
  {
    hide Entries, Absorbed;
  }

  lemma StartAbsorbing(g: Graph, root: nat, front: nat)
    requires root in g && front <= |g[root].operands|
    ensures Absorbing(g, g, root, front, 0) && Entries(g, root, front, 0, g[root].operands, Zeros(|g[root].operands|))
  {
  }

  lemma CollectedRoot(g: Graph, root: nat, front: nat)
    requires Collected(g, root, front)
    ensures root in g && front <= |g[root].operands|
  {
  }

  /** The root takes the rotated terms themselves, with amounts; the rotations are dropped. */
  method Absorb(g: Graph, root: nat, ghost front: nat) returns (h: Graph)
    requires Collected(g, root, front)
    ensures Fused(g, h, root, front)
  {
    hide *;
    CollectedRoot(g, root, front);
    h := g;
    var operands := g[root].operands;
    var amounts := Zeros(|operands|);
    StartAbsorbing(g, root, front);
    for i := 0 to |operands|
      invariant |operands| == |g[root].operands|
      invariant Absorbing(g, h, root, front, i)
      invariant Entries(g, root, front, i, operands, amounts)
      invariant i <= front ==> h == g
    {
      var rotation := operands[i];
      EntryHere(g, root, front, i, operands, amounts);
      if i < front {
        NotYet(g, root, front, i, operands, amounts);
      } else {
        StillSole(g, h, root, front, i);
        AbsorbOne(g, h, root, front, i);
        EntryNext(g, root, front, i, operands, amounts);
      }
      if SingleUseRotate(h, rotation) {
        var amount := Amount(h[rotation].op);
        var operand := h[rotation].operands[0];
        h := h[root := Term(h[root].op, Erase(h[root].operands, rotation))];
        h := h[rotation := Term(Nop, [])];
        operands := operands[i := operand];
        amounts := amounts[i := amount];
      }
    }
    MakeFused(g, h, root, front, operands, amounts);
    h := h[root := Term(RotAcc(amounts), operands)];
  }

  // ----- absorbing keeps every value

  lemma {:induction false} SumsAgree(plain: seq<nat>, operands: seq<nat>, amounts: seq<int>, val: Valuation, n: nat)
    requires |operands| == |amounts| == |plain|
    requires forall k: nat :: k < |plain| ==> Rotated(VecOf(val, operands[k]), amounts[k], n) == VecOf(val, plain[k])
    ensures RotSum(operands, amounts, val, n) == PlainSum(plain, val, n)
  {
    if |plain| > 0 {
      var last := |plain| - 1;
      SumsAgree(plain[..last], operands[..last], amounts[..last], val, n);
      hide Rotated, VecOf, Plus;
    }
  }

  /** A rotation's vector is its operand's, rotated; other operands are rotated by zero. */
  lemma EntryRight(g: Graph, root: nat, front: nat, k: nat, operand: nat, amount: int, val: Valuation, n: nat)
    requires Consistent(g, val, n) && Collected(g, root, front) && k < |g[root].operands| && IsVec(val, g[root].operands[k], n)
    requires Entry(g, root, front, |g[root].operands|, k, operand, amount)
    ensures IsVec(val, operand, n) && Rotated(VecOf(val, operand), amount, n) == VecOf(val, g[root].operands[k])
  {
    var x := g[root].operands[k];
    if front <= k {
      assert AbsorbableAt(g, root, k);
      assert TermRight(g[x], val[x], val, n);
      assert TermRight(g[operand], val[operand], val, n);
    } else {
      RotatedByZero(VecOf(val, x), n);
    }
  }

  lemma FusedRootRight(g: Graph, h: Graph, root: nat, front: nat, val: Valuation, n: nat)
    requires Consistent(g, val, n) && Collected(g, root, front) && Fused(g, h, root, front)
    ensures TermRight(h[root], val[root], val, n)
  {
    var plain, operands, amounts := g[root].operands, h[root].operands, h[root].op.amounts;
    var sum := CollectedSum(g, root, val, n);
    assert h[root] == Term(RotAcc(amounts), operands);
    hide TermRight, Consistent, Rotated, PlainSum, RotSum, Collected;
    forall k: nat | k < |plain|
      ensures IsVec(val, operands[k], n) && Rotated(VecOf(val, operands[k]), amounts[k], n) == VecOf(val, plain[k])
    {
      assert Entry(g, root, front, |plain|, k, operands[k], amounts[k]);
      EntryRight(g, root, front, k, operands[k], amounts[k], val, n);
    }
    SumsAgree(plain, operands, amounts, val, n);
    RotAccRight(operands, amounts, sum, val, n);
  }

  lemma AbsorbKeeps(g: Graph, h: Graph, root: nat, front: nat, tree: set<nat>)
    requires Collected(g, root, front) && Fused(g, h, root, front)
    ensures SameOutside(g, h, tree)
  {
    CollectedRoot(g, root, front);
    hide Collected, Entries, SingleUse;
    forall val: Valuation, n: nat | Consistent(g, val, n)
      ensures SameFor(h, tree, val, n)
    {
      FusedRootRight(g, h, root, front, val, n);
      forall t: nat | t in h
        ensures TermRight(h[t], val[t], val, n)
      {
        if t != root {
          assert TermRight(g[t], val[t], val, n);
          OtherFused(g, h, root, front, t);
          DroppedRight(val[t], val, n);
        }
      }
      hide *;
      SameValuation(g, h, tree, val, n);
    }
  }

  lemma SameValuation(g: Graph, h: Graph, tree: set<nat>, val: Valuation, n: nat)
    requires Consistent(g, val, n) && h.Keys == g.Keys && forall t: nat :: t in h ==> TermRight(h[t], val[t], val, n)
    ensures SameFor(h, tree, val, n)
  {
    hide TermRight;
    MadeSame(h, tree, val, val, n);
  }

  lemma OtherFused(g: Graph, h: Graph, root: nat, front: nat, t: nat)
    requires root in g && Fused(g, h, root, front) && t in g && t != root
    ensures h[t] == g[t] || h[t] == Term(Nop, [])
  {
    hide Entries;
  }

  lemma AbsorbRanked(g: Graph, h: Graph, root: nat, front: nat, rank: map<nat, nat>)
    requires Ranked(g, rank) && Collected(g, root, front) && Fused(g, h, root, front)
    ensures Ranked(h, rank)
  {
    hide SingleUse;
    forall t: nat, j: nat | Uses(h, t, j)
      ensures h[t].operands[j] in h && rank[h[t].operands[j]] < rank[t]
    {
      if t == root {
        var x := g[root].operands[j];
        OperandBelow(g, rank, root, x);
        assert Entry(g, root, front, |g[root].operands|, j, h[root].operands[j], h[root].op.amounts[j]);
        if front <= j {
          OperandBelow(g, rank, x, h[root].operands[j]);
        }
      } else {
        OtherFused(g, h, root, front, t);
        assert Uses(g, t, j);
      }
    }
  }

  // ----- what is left after absorbing

  /** Live terms read live terms as before: an absorbed rotation is read by the root alone. */
  lemma AbsorbClean(g: Graph, h: Graph, root: nat, front: nat)
    requires Collected(g, root, front) && Fused(g, h, root, front) && Clean(g)
    ensures Clean(h)
  {
    CollectedRoot(g, root, front);
    var operands := g[root].operands;
    forall t: nat, x: nat | Live(h, t) && x in h[t].operands
      ensures Live(h, x)
    {
      if t == root {
        var k: nat :| k < |h[root].operands| && h[root].operands[k] == x;
        FusedOperandLive(g, h, root, front, k);
      } else {
        OtherFused(g, h, root, front, t);
        assert Live(g, t) && x in g[t].operands;
        StaysLive(g, h, root, front, t, x);
      }
    }
  }

  lemma StaysLive(g: Graph, h: Graph, root: nat, front: nat, t: nat, x: nat)
    requires Collected(g, root, front) && Fused(g, h, root, front) && Clean(g) && Live(g, t) && t != root && x in g[t].operands
    ensures Live(h, x)
  {
    hide Entries, SingleUse;
    assert Live(g, x);
    forall k: nat | front <= k < |g[root].operands|
      ensures g[root].operands[k] != x
    {
      assert AbsorbableAt(g, root, k);
    }
  }

  lemma FusedOperandLive(g: Graph, h: Graph, root: nat, front: nat, k: nat)
    requires Collected(g, root, front) && Fused(g, h, root, front) && Clean(g) && k < |h[root].operands|
    ensures Live(h, h[root].operands[k])
  {
    var operands, y := g[root].operands, h[root].operands[k];
    assert Entry(g, root, front, |operands|, k, y, h[root].op.amounts[k]);
    assert Live(g, root) && operands[k] in operands && Live(g, operands[k]);
    if front <= k {
      assert AbsorbableAt(g, root, k);
      StaysLive(g, h, root, front, operands[k], y);
    } else {
      hide SingleUse;
      if Absorbed(operands, front, |operands|, y) {
        var m: nat :| front <= m < |operands| && operands[m] == y;
        assert AbsorbableAt(g, root, m);
        OnlyHere(g, root, m);
      }
    }
  }

  /** The graph after absorbing, as a whole. */
  ghost function Finished(g: Graph, root: nat): Graph
    requires root in g
  {
    map t | t in g ::
      if t == root then Term(RotAcc(FinishedAmounts(g, g[root].operands)), FinishedOperands(g, g[root].operands))
      else if t in g[root].operands && SingleUseRotate(g, t) then Term(Nop, [])
      else g[t]
  }

  ghost function FinishedOperands(g: Graph, operands: seq<nat>): (r: seq<nat>)
    ensures |r| == |operands|
  {
    seq(|operands|, k requires 0 <= k < |operands| => FinishedOperand(g, operands[k]))
  }

  ghost function FinishedAmounts(g: Graph, operands: seq<nat>): (r: seq<int>)
    ensures |r| == |operands|
  {
    seq(|operands|, k requires 0 <= k < |operands| => if SingleUseRotate(g, operands[k]) then Amount(g[operands[k]].op) else 0)
  }

  ghost function FinishedOperand(g: Graph, x: nat): nat
  {
    if SingleUseRotate(g, x) && |g[x].operands| == 1 then g[x].operands[0] else x
  }

  lemma FusedIsFinished(g: Graph, h: Graph, root: nat, front: nat)
    requires Collected(g, root, front) && Fused(g, h, root, front)
    ensures root in g && h == Finished(g, root)
  {
    CollectedRoot(g, root, front);
    var operands := g[root].operands;
    forall k: nat | k < |operands|
      ensures h[root].operands[k] == FinishedOperands(g, operands)[k] && h[root].op.amounts[k] == FinishedAmounts(g, operands)[k]
    {
      EntryFinished(g, h, root, front, k);
    }
    assert h[root].operands == FinishedOperands(g, operands) && h[root].op.amounts == FinishedAmounts(g, operands);
    assert h[root] == Term(RotAcc(FinishedAmounts(g, operands)), FinishedOperands(g, operands));
    hide FinishedOperands, FinishedAmounts;
    forall t: nat | t in g && t != root
      ensures h[t] == if t in operands && SingleUseRotate(g, t) then Term(Nop, []) else g[t]
    {
      CollectedAre(g, root, front, t);
      hide SingleUseRotate, Collected, Entries, Absorbed;
    }
    assert forall t: nat :: t in g ==> h[t] == Finished(g, root)[t];
  }

  lemma EntryFinished(g: Graph, h: Graph, root: nat, front: nat, k: nat)
    requires Collected(g, root, front) && Fused(g, h, root, front) && k < |g[root].operands|
    ensures h[root].operands[k] == FinishedOperands(g, g[root].operands)[k] && h[root].op.amounts[k] == FinishedAmounts(g, g[root].operands)[k]
  {
    var operands := g[root].operands;
    assert Entry(g, root, front, |operands|, k, h[root].operands[k], h[root].op.amounts[k]);
    if front <= k {
      assert AbsorbableAt(g, root, k);
      assert SingleUse(g, operands[k]);
    }
  }

  /** The absorbed terms are the single-use rotations among the operands. */
  lemma CollectedAre(g: Graph, root: nat, front: nat, t: nat)
    requires Collected(g, root, front)
    ensures root in g && (Absorbed(g[root].operands, front, |g[root].operands|, t) <==> t in g[root].operands && SingleUseRotate(g, t))
  {
    CollectedRoot(g, root, front);
    var operands := g[root].operands;
    if Absorbed(operands, front, |operands|, t) {
      var k: nat :| front <= k < |operands| && operands[k] == t;
      assert AbsorbableAt(g, root, k);
      assert SingleUse(g, t);
    }
    if t in operands && SingleUseRotate(g, t) {
      var k: nat :| k < |operands| && operands[k] == t;
      assert front <= k;
    }
  }

  // ----- the whole pass

  /** The root with its first operation replaced by a sum. */
  function Started(g: Graph, root: nat): Graph
    requires root in g
  {
    g[root := Term(RotAcc(Zeros(|g[root].operands|)), g[root].operands)]
  }

  /** The pass acts on additions one of whose operands is a rotation with a single use. */
  predicate Acts(g: Graph, root: nat)
    requires root in g
  {
    g[root].op.Add? && |g[root].operands| == 2 && (SingleUseRotate(g, g[root].operands[0]) || SingleUseRotate(g, g[root].operands[1]))
  }

  /** Operand j of the root is a rotation, to either side, that is read at one place only. */
  ghost predicate RotatesOnce(g: Graph, root: nat, j: nat)
    requires root in g
  {
    j < |g[root].operands| && g[root].operands[j] in g
    && (g[g[root].operands[j]].op.RotateLeft? || g[g[root].operands[j]].op.RotateRight?) && ReadOnce(g, g[root].operands[j])
  }

  lemma ActsMeans(g: Graph, root: nat)
    requires root in g
    ensures Acts(g, root) <==> g[root].op.Add? && |g[root].operands| == 2 && exists j: nat :: RotatesOnce(g, root, j)
  {
    hide ReadOnce, SingleUse;
    if |g[root].operands| == 2 {
      SingleUseMeans(g, g[root].operands[0]);
      SingleUseMeans(g, g[root].operands[1]);
      assert RotatesOnce(g, root, 0) <==> SingleUseRotate(g, g[root].operands[0]);
      assert RotatesOnce(g, root, 1) <==> SingleUseRotate(g, g[root].operands[1]);
    }
  }

  /** The graph when the walk is over. */
  ghost function Walked(g: Graph, root: nat): (h: Graph)
    requires root in g
    ensures h.Keys == g.Keys
  {
    WalkFrom(Started(g, root), root, {}, g[root].operands)
  }

  /** The result of the pass. */
  ghost function FuseResult(g: Graph, root: nat): Graph
    requires root in g
  {
    if Acts(g, root) then Finished(Walked(g, root), root) else g
  }

  // ----- every step keeps what the next one needs

  lemma StartSane(g: Graph, rank: map<nat, nat>, root: nat)
    requires Ranked(g, rank) && OneOperandRotates(g) && TwoOperandAdds(g) && root in g && g[root].op.Add?
    ensures Sane(Started(g, root), rank, root) && Walk(Started(g, root), root, {}, Known({}, g[root].operands), 0)
    ensures Clean(g) ==> Clean(Started(g, root))
  {
    var h, known := Started(g, root), Known({}, g[root].operands);
    hide SingleUseRotate;
    forall t: nat, j: nat | Uses(h, t, j)
      ensures h[t].operands[j] in h && rank[h[t].operands[j]] < rank[t]
    {
      assert Uses(g, t, j);
    }
    forall x: nat | x in known
      ensures Attached(h, root, {}, x)
    {
      OperandBelow(g, rank, root, x);
      assert OpenUser(h, root, {}, x, root);
    }
    if Clean(g) {
      forall t: nat, x: nat | Live(h, t) && x in h[t].operands
        ensures Live(h, x)
      {
        assert Live(g, t) && Live(g, x);
      }
    }
  }

  /** How many rotations the root has collected after visiting x. */
  ghost function TailAfter(g: Graph, tail: nat, x: nat): nat
  {
    if SingleUseRotate(g, x) then tail + 1 else tail
  }

  ghost function KnownAfter(g: Graph, known: set<nat>, x: nat): set<nat>
    requires x in g
  {
    known + set y | y in Pushed(g, x)
  }

  lemma StepKeeps(g: Graph, rank: map<nat, nat>, root: nat, visited: set<nat>, known: set<nat>, tail: nat, x: nat)
    requires Sane(g, rank, root) && Walk(g, root, visited, known, tail) && x in known && x !in visited
    ensures root in g && x in g
    ensures Sane(Take(g, root, x), rank, root)
    ensures Walk(Take(g, root, x), root, visited + {x}, KnownAfter(g, known, x), TailAfter(g, tail, x))
    ensures Clean(g) ==> Clean(Take(g, root, x))
  {
    hide *;
    UnfoldSane(g, rank, root);
    UnfoldWalk(g, root, visited, known, tail, x);
    if !SingleUseRotate(g, x) {
      TakeNothing(g, root, x);
      if g[x].op.Add? {
        VisitAdd(g, rank, root, visited, known, tail, x);
      } else {
        VisitOther(g, root, visited, known, tail, x);
      }
      AfterOther(g, known, tail, x);
    } else {
      SureSingle(g, x);
      AfterRotate(g, known, tail, x);
      if UserOf(g, x) == root {
        TakeMoves(g, root, x);
        MoveSane(g, rank, root, x);
        VisitMove(g, root, visited, known, tail, x);
      } else {
        var u, other, s := PullPlace(g, rank, root, visited, known, tail, x);
        TakePulls(g, root, x);
        RootAbove(g, rank, root, visited, known, tail, x);
        VisitPull(g, root, visited, known, tail, u, x, other, s);
        PullSane(g, rank, root, u, x, other);
      }
    }
  }

  lemma TakeNothing(g: Graph, root: nat, x: nat)
    requires root in g && !SingleUseRotate(g, x)
    ensures Take(g, root, x) == g
  {
  }

  lemma TakeMoves(g: Graph, root: nat, x: nat)
    requires root in g && SingleUseRotate(g, x) && SingleUse(g, x) && UserOf(g, x) == root
    ensures Take(g, root, x) == Moved(g, root, x) && x in g[root].operands
  {
    assert SoleUser(g, x, root);
  }

  lemma TakePulls(g: Graph, root: nat, x: nat)
    requires root in g && SingleUseRotate(g, x) && SingleUse(g, x) && UserOf(g, x) != root
    ensures Take(g, root, x) == Pulled(g, root, UserOf(g, x), x, OtherOf(g[UserOf(g, x)].operands, x))
  {
    hide Pulled, Moved;
  }

  lemma AfterOther(g: Graph, known: set<nat>, tail: nat, x: nat)
    requires x in g && !SingleUseRotate(g, x)
    ensures TailAfter(g, tail, x) == tail && KnownAfter(g, known, x) == if g[x].op.Add? then known + (set y | y in g[x].operands) else known
  {
    hide SingleUseRotate;
  }

  lemma AfterRotate(g: Graph, known: set<nat>, tail: nat, x: nat)
    requires x in g && SingleUseRotate(g, x)
    ensures TailAfter(g, tail, x) == tail + 1 && KnownAfter(g, known, x) == known
  {
    hide SingleUse;
  }

  lemma MoveSane(g: Graph, rank: map<nat, nat>, root: nat, x: nat)
    requires Sane(g, rank, root) && root in g && x in g[root].operands
    ensures Sane(Moved(g, root, x), rank, root) && (Clean(g) ==> Clean(Moved(g, root, x)))
  {
    hide Ranked, Moved, Collecting;
    var h := Moved(g, root, x);
    MovedSame(g, root, x);
    SameRanked(g, h, rank);
    forall t: nat | t in g
      ensures h[t].op == g[t].op && |h[t].operands| == |g[t].operands| && forall y: nat :: y in h[t].operands <==> y in g[t].operands
    {
      SameOperands(g, h, t);
    }
    hide SameUses;
    if Clean(g) {
      forall t: nat, y: nat | Live(h, t) && y in h[t].operands
        ensures Live(h, y)
      {
        assert Live(g, t) && Live(g, y);
      }
    }
  }

  lemma PullSane(g: Graph, rank: map<nat, nat>, root: nat, u: nat, r: nat, other: nat)
    requires Sane(g, rank, root) && PullSpot(g, root, u, r, other) && r in rank && root in rank && rank[r] < rank[root]
    ensures root in g && Sane(Pulled(g, root, u, r, other), rank, root) && (Clean(g) ==> Clean(Pulled(g, root, u, r, other)))
  {
    var h := Pulled(g, root, u, r, other);
    SpotFacts(g, root, u, r, other);
    SameKeys(g, root, u, r, other);
    PulledRanked(g, rank, root, u, r, other);
    if Clean(g) {
      PulledClean(g, root, u, r, other);
    }
    PulledTerm(g, root, u, r, other, root);
    hide Ranked, Pulled, PullSpot, SoleUser, Clean;
    forall t: nat | t in g
      ensures IsRotate(h[t].op) ==> |h[t].operands| == 1
      ensures h[t].op.Add? ==> |h[t].operands| == 2
    {
      PulledTerm(g, root, u, r, other, t);
    }
  }

  lemma WalkSkip(g: Graph, root: nat, visited: set<nat>, checklist: seq<nat>)
    requires root in g && |checklist| > 0 && checklist[|checklist| - 1] in visited
    ensures WalkFrom(g, root, visited, checklist) == WalkFrom(g, root, visited, checklist[..|checklist| - 1])
    ensures Known(visited, checklist[..|checklist| - 1]) == Known(visited, checklist)
  {
    KnownPop(visited, checklist);
    assert visited + {checklist[|checklist| - 1]} == visited;
  }

  lemma WalkStep(g: Graph, root: nat, visited: set<nat>, checklist: seq<nat>)
    requires root in g && |checklist| > 0 && checklist[|checklist| - 1] !in visited && checklist[|checklist| - 1] in g
    ensures var last := |checklist| - 1; var x := checklist[last];
      && WalkFrom(g, root, visited, checklist) == WalkFrom(Take(g, root, x), root, visited + {x}, checklist[..last] + Pushed(g, x))
      && Known(visited + {x}, checklist[..last] + Pushed(g, x)) == KnownAfter(g, Known(visited, checklist), x)
      && x in Known(visited, checklist)
  {
    var last := |checklist| - 1;
    KnownPop(visited, checklist);
    KnownPush(visited + {checklist[last]}, checklist[..last], Pushed(g, checklist[last]));
    hide Take;
  }

  /** At the end of the walk everything known has been visited. */
  lemma {:induction false} WalkEnds(g: Graph, rank: map<nat, nat>, root: nat, visited: set<nat>, checklist: seq<nat>, tail: nat)
      returns (all: set<nat>, collected: nat)
    requires Sane(g, rank, root) && Walk(g, root, visited, Known(visited, checklist), tail) && root in g
    ensures var h := WalkFrom(g, root, visited, checklist);
      Sane(h, rank, root) && Walk(h, root, all, all, collected) && (Clean(g) ==> Clean(h))
    decreases g.Keys - visited, |checklist|
  {
    hide *;
    if |checklist| == 0 {
      WalkNothing(g, root, visited, checklist);
      all, collected := visited, tail;
    } else {
      var last := |checklist| - 1;
      var x := checklist[last];
      if x in visited {
        WalkSkip(g, root, visited, checklist);
        all, collected := WalkEnds(g, rank, root, visited, checklist[..last], tail);
      } else {
        KnownPop(visited, checklist);
        StepKeeps(g, rank, root, visited, Known(visited, checklist), tail, x);
        WalkStep(g, root, visited, checklist);
        all, collected := WalkEnds(Take(g, root, x), rank, root, visited + {x}, checklist[..last] + Pushed(g, x), TailAfter(g, tail, x));
      }
    }
  }

  lemma WalkNothing(g: Graph, root: nat, visited: set<nat>, checklist: seq<nat>)
    requires root in g && |checklist| == 0
    ensures WalkFrom(g, root, visited, checklist) == g && Known(visited, checklist) == visited
  {
  }

  /** When everything known has been visited, the collected rotations are the single-use rotations of the root. */
  lemma AllCollected(g: Graph, rank: map<nat, nat>, root: nat, visited: set<nat>, tail: nat)
    requires Sane(g, rank, root) && Walk(g, root, visited, visited, tail)
    ensures root in g && tail <= |g[root].operands| && Collected(g, root, |g[root].operands| - tail)
  {
    hide Ranked;
    var operands := g[root].operands;
    var front := |operands| - tail;
    forall k: nat | k < |operands|
      ensures SingleUseRotate(g, operands[k]) <==> front <= k
      ensures front <= k ==> AbsorbableAt(g, root, k)
    {
      assert OpenUser(g, root, visited, operands[k], root);
      hide KnownAttached, OpenKnown;
      InTail(g, root, visited, tail, k);
    }
  }

  lemma InTail(g: Graph, root: nat, visited: set<nat>, tail: nat, k: nat)
    requires TailFits(g, root, visited, tail) && k < |g[root].operands| && g[root].operands[k] in visited && OneOperandRotates(g)
    ensures SingleUseRotate(g, g[root].operands[k]) <==> |g[root].operands| - tail <= k
    ensures |g[root].operands| - tail <= k ==> AbsorbableAt(g, root, k)
  {
    var operands, x := g[root].operands, g[root].operands[k];
    var front := |operands| - tail;
    if front <= k {
      assert Tail(g, root, tail)[k - front] == x;
      assert SingleUseRotate(g, x);
    }
    if SingleUseRotate(g, x) {
      assert x in Tail(g, root, tail);
      var m: nat :| m < tail && Tail(g, root, tail)[m] == x;
      var t: nat :| t in g.Keys && SoleUser(g, x, t);
      assert t == root;
      OnlyHere(g, root, k);
      assert operands[front + m] == x;
    }
  }

  lemma PulledInSteps(g: Graph, root: nat, u: nat, r: nat, other: nat)
    requires Pullable(g, root, u, r, other)
    ensures Erase(g[u].operands, r) == [other]
    ensures var operands := g[root].operands + [r];
      ReplaceAllUses(g[root := Term(RotAcc(Zeros(|operands|)), operands)][u := Term(g[u].op, [])], u, other)[u := Term(Nop, [])]
      == Pulled(g, root, u, r, other)
  {
    assert Redirect([], u, other) == [];
    assert Erase([r], r) == [] && Erase([other], r) == [other] + Erase([], r);
    assert [other, r][1..] == [r] && [r, other][1..] == [other];
  }

  /** The one user of a rotation. */
  method UserOfRotation(g: Graph, x: nat) returns (use: nat)
    requires SingleUseRotate(g, x)
    ensures SingleUse(g, x) && use == UserOf(g, x)
  {
    use :| use in g.Keys && SoleUser(g, x, use);
    SoleUnique(g, x, use, UserOf(g, x));
  }

  lemma MovedIs(g: Graph, root: nat, r: nat)
    requires root in g
    ensures var operands := Erase(g[root].operands + [r], r); Moved(g, root, r) == g[root := Term(RotAcc(Zeros(|operands|)), operands)]
  {
  }

  lemma UserOpen(g: Graph, rank: map<nat, nat>, root: nat, visited: set<nat>, known: set<nat>, tail: nat, x: nat)
    requires Sane(g, rank, root) && Walk(g, root, visited, known, tail) && x in known && SingleUseRotate(g, x)
    ensures root in g && UserOf(g, x) in g
    ensures g[UserOf(g, x)].op.RotAcc? <==> UserOf(g, x) == root
  {
    hide *;
    UnfoldSane(g, rank, root);
    UnfoldWalk(g, root, visited, known, tail, x);
    SureSingle(g, x);
    RotationUser(g, root, visited, x, UserOf(g, x));
  }

  /** The root collects the rotation: from its own operands, or from the addition that uses it, whose other operand then
      takes its place everywhere. */
  method Collect(g: Graph, ghost rank: map<nat, nat>, root: nat, ghost visited: set<nat>, ghost known: set<nat>, ghost tail: nat, x: nat)
      returns (h: Graph)
    requires Sane(g, rank, root) && Walk(g, root, visited, known, tail) && x in known && SingleUseRotate(g, x)
    ensures root in g && h == Take(g, root, x)
  {
    hide *;
    UserOpen(g, rank, root, visited, known, tail, x);
    SureSingle(g, x);
    var use := UserOfRotation(g, x);
    if g[use].op.RotAcc? {
      TakeMoves(g, root, x);
      MovedIs(g, root, x);
      var operands := Erase(g[use].operands + [x], x);
      h := g[use := Term(RotAcc(Zeros(|operands|)), operands)];
    } else {
      ghost var u, other, s := PullPlace(g, rank, root, visited, known, tail, x);
      TakePulls(g, root, x);
      SpotFacts(g, root, u, x, other);
      PulledInSteps(g, root, use, x, other);
      var operands := g[root].operands + [x];
      h := g[root := Term(RotAcc(Zeros(|operands|)), operands)];
      var useOp := Erase(g[use].operands, x)[0];
      h := h[use := Term(g[use].op, [])];
      h := ReplaceAllUses(h, use, useOp);
      h := h[use := Term(Nop, [])];
    }
  }

  lemma StartedIs(g: Graph, root: nat)
    requires root in g
    ensures Started(g, root) == g[root := Term(RotAcc(Zeros(|g[root].operands|)), g[root].operands)]
  {
  }

  lemma PushedIs(g: Graph, x: nat)
    requires x in g
    ensures Pushed(g, x) == if g[x].op.Add? then g[x].operands else []
  {
  }

  /** What the loop knows: the rest of the walk leads to the same graph. */
  ghost predicate OnTheWay(g: Graph, h: Graph, rank: map<nat, nat>, root: nat, visited: set<nat>, checklist: seq<nat>, tail: nat)
  {
    && Sane(h, rank, root) && root in g && root in h && Walk(h, root, visited, Known(visited, checklist), tail)
    && WalkFrom(h, root, visited, checklist) == Walked(g, root) && visited <= h.Keys == g.Keys
  }

  lemma StartWay(g: Graph, rank: map<nat, nat>, root: nat)
    requires Ranked(g, rank) && OneOperandRotates(g) && TwoOperandAdds(g) && root in g && g[root].op.Add?
    ensures OnTheWay(g, Started(g, root), rank, root, {}, g[root].operands, 0)
  {
    StartSane(g, rank, root);
    hide Sane, Walk, WalkFrom;
  }

  lemma WaySkip(g: Graph, h: Graph, rank: map<nat, nat>, root: nat, visited: set<nat>, checklist: seq<nat>, tail: nat)
    requires OnTheWay(g, h, rank, root, visited, checklist, tail) && |checklist| > 0 && checklist[|checklist| - 1] in visited
    ensures OnTheWay(g, h, rank, root, visited, checklist[..|checklist| - 1], tail)
  {
    WalkSkip(h, root, visited, checklist);
    hide Sane, Walk, WalkFrom, Known;
  }

  lemma WayFacts(g: Graph, h: Graph, rank: map<nat, nat>, root: nat, visited: set<nat>, checklist: seq<nat>, tail: nat)
    requires OnTheWay(g, h, rank, root, visited, checklist, tail) && |checklist| > 0
    ensures checklist[|checklist| - 1] in Known(visited, checklist) && checklist[|checklist| - 1] in h && root in h && h.Keys == g.Keys
    ensures Sane(h, rank, root) && Walk(h, root, visited, Known(visited, checklist), tail) && visited <= g.Keys
  {
    KnownPop(visited, checklist);
    UnfoldWalk(h, root, visited, Known(visited, checklist), tail, checklist[|checklist| - 1]);
    hide Sane, Walk, WalkFrom, Known;
  }

  lemma WayStep(g: Graph, h: Graph, rank: map<nat, nat>, root: nat, visited: set<nat>, checklist: seq<nat>, tail: nat)
    requires OnTheWay(g, h, rank, root, visited, checklist, tail) && |checklist| > 0 && checklist[|checklist| - 1] !in visited
    requires checklist[|checklist| - 1] in h && root in h
    ensures var last := |checklist| - 1; var x := checklist[last];
      OnTheWay(g, Take(h, root, x), rank, root, visited + {x}, checklist[..last] + Pushed(h, x), TailAfter(h, tail, x))
  {
    var last := |checklist| - 1;
    var x := checklist[last];
    WayFacts(g, h, rank, root, visited, checklist, tail);
    StepKeeps(h, rank, root, visited, Known(visited, checklist), tail, x);
    WalkStep(h, root, visited, checklist);
    hide Sane, Walk, WalkFrom, Known, Take, Pushed, TailAfter, KnownAfter;
  }

  lemma WayEnd(g: Graph, h: Graph, rank: map<nat, nat>, root: nat, visited: set<nat>, checklist: seq<nat>, tail: nat)
    requires OnTheWay(g, h, rank, root, visited, checklist, tail) && |checklist| == 0
    ensures root in g && root in h && h == Walked(g, root) && tail <= |h[root].operands| && Collected(h, root, |h[root].operands| - tail)
  {
    hide Sane, Walk, WalkFrom, Collected, Walked;
    WalkNothing(h, root, visited, checklist);
    AllCollected(h, rank, root, visited, tail);
  }

  /** One visit: the new graph, and what goes on the checklist. */
  method Visit(g: Graph, ghost rank: map<nat, nat>, root: nat, ghost visited: set<nat>, ghost known: set<nat>, ghost tail: nat, x: nat)
      returns (h: Graph, pushed: seq<nat>)
    requires Sane(g, rank, root) && Walk(g, root, visited, known, tail) && x in known
    ensures root in g && x in g && h == Take(g, root, x) && pushed == Pushed(g, x)
  {
    hide *;
    UnfoldWalk(g, root, visited, known, tail, x);
    h, pushed := g, [];
    PushedIs(g, x);
    if SingleUseRotate(g, x) {
      SureSingle(g, x);
      RotateNoAdd(g[x].op);
      h := Collect(g, rank, root, visited, known, tail, x);
    } else {
      TakeNothing(g, root, x);
      if g[x].op.Add? {
        pushed := g[x].operands;
      }
    }
  }

  /** The walk with its checklist. */
  method WalkAll(g: Graph, root: nat, ghost rank: map<nat, nat>) returns (h: Graph, ghost tail: nat)
    requires root in g && Ranked(g, rank) && OneOperandRotates(g) && TwoOperandAdds(g) && g[root].op.Add?
    ensures h == Walked(g, root) && root in h && tail <= |h[root].operands| && Collected(h, root, |h[root].operands| - tail)
  {
    hide *;
    StartWay(g, rank, root);
    StartedIs(g, root);
    h := g[root := Term(RotAcc(Zeros(|g[root].operands|)), g[root].operands)];
    var checklist := g[root].operands;
    var visited: set<nat> := {};
    tail := 0;
    while |checklist| > 0
      invariant OnTheWay(g, h, rank, root, visited, checklist, tail)
      decreases g.Keys - visited, |checklist|
    {
      WayFacts(g, h, rank, root, visited, checklist, tail);
      var last := |checklist| - 1;
      var visit := checklist[last];
      if visit in visited {
        WaySkip(g, h, rank, root, visited, checklist, tail);
        checklist := checklist[..last];
      } else {
        WayStep(g, h, rank, root, visited, checklist, tail);
        ghost var before, known := tail, Known(visited, checklist);
        tail := TailAfter(h, tail, visit);
        var pushed;
        h, pushed := Visit(h, rank, root, visited, known, before, visit);
        visited := visited + {visit};
        checklist := checklist[..last] + pushed;
      }
    }
    WayEnd(g, h, rank, root, visited, checklist, tail);
  }

  /** The pass on one term, on any graph with the operand counts that the code asserts. */
  method Fuse(g: Graph, root: nat, ghost rank: map<nat, nat>) returns (h: Graph)
    requires root in g && Ranked(g, rank) && OneOperandRotates(g) && TwoOperandAdds(g)
    ensures h == FuseResult(g, root)
  {
    if !Acts(g, root) {
      return g;
    }
    hide *;
    ActsAdd(g, root);
    ghost var tail;
    h, tail := WalkAll(g, root, rank);
    ghost var front := |h[root].operands| - tail;
    ghost var walked := h;
    h := Absorb(h, root, front);
    FusedIsFinished(walked, h, root, front);
    ResultIs(g, root);
  }

  lemma ActsAdd(g: Graph, root: nat)
    requires root in g && Acts(g, root)
    ensures g[root].op.Add?
  {
    hide SingleUseRotate;
  }

  lemma ResultIs(g: Graph, root: nat)
    requires root in g && Acts(g, root)
    ensures FuseResult(g, root) == Finished(Walked(g, root), root)
  {
    hide Acts, Finished, Walked;
  }
}

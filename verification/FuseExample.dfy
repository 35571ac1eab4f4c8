/** A graph on which single use of the absorbed addition is not enough: the addition above it is shared. */
module FuseExample {
  import opened TermGraph
  import opened KeyswitchPasses
  import opened AdditionTrees
  import opened FusePass
  import opened FuseCondition
  import opened FuseReadings
  import opened FuseWeights
  import opened FuseExact

  const X: nat := 0
  const R: nat := 1
  const Y: nat := 2
  const U: nat := 3
  const Z: nat := 4
  const A: nat := 5
  const R2: nat := 6
  const Q: nat := 7
  const ROOT: nat := 8

  function OperationOf(t: nat): Op
  {
    if t == R then RotateLeft(1) else if t == R2 then RotateLeft(2)
    else if t == U || t == A || t == Q || t == ROOT then Add else Input([1])
  }

  function OperandsOf(t: nat): seq<nat>
  {
    if t == R || t == R2 then [X] else if t == U then [R, Y] else if t == A then [U, Z]
    else if t == Q then [A, Y] else if t == ROOT then [A, R2] else []
  }

  /** r = x rotated, u = r + y, a = u + z, and a is read by the root a + r2 and by q = a + y. */
  function Shared(): Graph
  {
    map t: nat | t <= ROOT :: Term(OperationOf(t), OperandsOf(t))
  }

  /** Its terms in order. */
  function Order(): map<nat, nat>
  {
    map t | t in Shared() :: t
  }

  lemma SharedAt(t: nat)
    requires t in Shared()
    ensures t <= ROOT && Shared()[t] == Term(OperationOf(t), OperandsOf(t)) && t in Order() && Order()[t] == t
  {
  }

  lemma SharedHas(t: nat)
    requires t <= ROOT
    ensures t in Shared()
  {
  }

  lemma OperandsEarlier(t: nat, x: nat)
    requires x in OperandsOf(t)
    ensures x < t && x <= ROOT && !OperationOf(t).Input?
  {
  }

  lemma SharedFits()
    ensures Ranked(Shared(), Order()) && Typed(Shared()) && Clean(Shared())
  {
    var g := Shared();
    forall t: nat, j: nat | Uses(g, t, j)
      ensures g[t].operands[j] in g && Order()[g[t].operands[j]] < Order()[t]
    {
      SharedAt(t);
      OperandsEarlier(t, g[t].operands[j]);
    }
    forall t: nat | t in g
      ensures TypedTerm(g, g[t])
    {
      SharedTyped(t);
    }
    forall t: nat, x: nat | Live(g, t) && x in g[t].operands
      ensures Live(g, x)
    {
      SharedAt(t);
      OperandsEarlier(t, x);
      SharedLive(x);
    }
    assert g.Keys <= Order().Keys;
    hide Shared, Order, TypedTerm, Live;
  }

  lemma SharedLive(t: nat)
    requires t <= ROOT
    ensures Live(Shared(), t)
  {
  }

  lemma SharedTyped(t: nat)
    requires t in Shared()
    ensures TypedTerm(Shared(), Shared()[t])
  {
    SharedAt(t);
    forall x: nat | x in OperandsOf(t)
      ensures Scalar(Shared(), x)
    {
      OperandsEarlier(t, x);
      SharedHas(x);
      SharedAt(x);
    }
    hide Shared, Scalar;
  }

  lemma OnesAlready()
    ensures Reread(Shared(), Ones()) == Shared()
  {
    forall t: nat | t in Shared()
      ensures Reread(Shared(), Ones())[t] == Shared()[t]
    {
      SharedAt(t);
      hide Shared;
    }
  }

  lemma UsedBy(x: nat, t: nat)
    requires t <= ROOT && multiset(OperandsOf(t))[x] == 1 && forall s: nat :: s <= ROOT && s != t ==> x !in OperandsOf(s)
    ensures SoleUser(Shared(), x, t)
  {
    forall s: nat | s in Shared()
      ensures Shared()[s].operands == OperandsOf(s) && s <= ROOT
    {
      SharedAt(s);
    }
    SharedHas(t);
    hide Shared, OperandsOf;
  }

  lemma SharedUses()
    ensures SingleUseRotate(Shared(), R) && SingleUseRotate(Shared(), R2) && SingleUse(Shared(), U)
  {
    hide *;
    SharedRotates();
    UsersOf();
    UsedBy(R, U);
    UsedBy(R2, ROOT);
    UsedBy(U, A);
    SingleFrom(Shared(), R, U);
    SingleFrom(Shared(), R2, ROOT);
    SingleFrom(Shared(), U, A);
    RotateFrom(Shared(), R);
    RotateFrom(Shared(), R2);
  }

  lemma UsersOf()
    ensures multiset(OperandsOf(U))[R] == 1 && multiset(OperandsOf(ROOT))[R2] == 1 && multiset(OperandsOf(A))[U] == 1
    ensures forall s: nat :: s <= ROOT && s != U ==> R !in OperandsOf(s)
    ensures forall s: nat :: s <= ROOT && s != ROOT ==> R2 !in OperandsOf(s)
    ensures forall s: nat :: s <= ROOT && s != A ==> U !in OperandsOf(s)
    ensures U <= ROOT && A <= ROOT
  {
  }

  lemma SharedRotates()
    ensures R in Shared() && IsRotate(Shared()[R].op) && R2 in Shared() && IsRotate(Shared()[R2].op)
  {
    SharedHas(R);
    SharedHas(R2);
    SharedAt(R);
    SharedAt(R2);
    hide Shared;
  }

  lemma SingleFrom(g: Graph, x: nat, t: nat)
    requires SoleUser(g, x, t)
    ensures SingleUse(g, x)
  {
  }

  lemma RotateFrom(g: Graph, x: nat)
    requires x in g && IsRotate(g[x].op) && SingleUse(g, x)
    ensures SingleUseRotate(g, x)
  {
  }

  lemma SumShared()
    ensures !SingleUse(Shared(), A)
  {
    SharedHas(Q);
    SharedHas(ROOT);
    SharedAt(Q);
    SharedAt(ROOT);
    hide Shared;
    forall t: nat | t in Shared().Keys
      ensures !SoleUser(Shared(), A, t)
    {
      assert A in Shared()[Q].operands && A in Shared()[ROOT].operands;
    }
  }

  lemma SharedActs()
    ensures ROOT in Shared() && Acts(Shared(), ROOT)
  {
    SharedUses();
    SharedHas(ROOT);
    SharedAt(ROOT);
    hide Shared, SingleUseRotate, SingleUse;
  }

  lemma ReachedVia(g: Graph, rank: map<nat, nat>, root: nat, a: nat, u: nat, r: nat)
    requires Ranked(g, rank) && root in g && a in g[root].operands && a in g && g[a].op.Add? && u in g[a].operands
    requires u in g && g[u].op.Add? && r in g[u].operands && SingleUseRotate(g, r)
    ensures Reaches(g, rank, root, a) && Warm(g, rank, a)
  {
    hide SingleUseRotate, Ranked, Reaches, Warm;
    ReachOn(g, rank, root, root, a);
    WarmByRotate(g, rank, u, r);
    WarmUser(g, rank, a, u);
  }

  lemma Unread(g: Graph, rank: map<nat, nat>, root: nat, q: nat)
    requires Ranked(g, rank) && root in g && forall s: nat :: s in g ==> q !in g[s].operands
    ensures !Reaches(g, rank, root, q)
  {
    hide Ranked, Reaches;
    if Reaches(g, rank, root, q) {
      var s := ReachUser(g, rank, root, q);
    }
  }

  lemma SharedShape()
    ensures ROOT in Shared() && A in Shared() && U in Shared() && Q in Shared()
    ensures Shared()[ROOT] == Term(Add, [A, R2]) && Shared()[A] == Term(Add, [U, Z]) && Shared()[U] == Term(Add, [R, Y])
    ensures Shared()[Q] == Term(Add, [A, Y])
    ensures forall s: nat :: s in Shared() ==> Q !in Shared()[s].operands
  {
    SharedHas(ROOT);
    SharedHas(A);
    SharedHas(U);
    SharedHas(Q);
    SharedAt(ROOT);
    SharedAt(A);
    SharedAt(U);
    SharedAt(Q);
    forall s: nat | s in Shared()
      ensures Q !in Shared()[s].operands
    {
      SharedAt(s);
    }
    hide Shared;
  }

  lemma SharedReached()
    requires Ranked(Shared(), Order())
    ensures ROOT in Shared() && A in Shared() && Reaches(Shared(), Order(), ROOT, A) && Warm(Shared(), Order(), A)
    ensures !Reaches(Shared(), Order(), ROOT, Q)
  {
    hide *;
    SharedUses();
    SharedShape();
    ReachedVia(Shared(), Order(), ROOT, A, U, R);
    Unread(Shared(), Order(), ROOT, Q);
  }

  /** The absorbed rotation and the absorbed addition are each used once, yet the pass changes q. */
  lemma SharedAdditionChanges()
    ensures Ranked(Shared(), Order()) && Typed(Shared()) && Clean(Shared()) && ROOT in Shared() && Acts(Shared(), ROOT)
    ensures SingleUseRotate(Shared(), R) && SingleUse(Shared(), U) && !SingleUse(Shared(), A)
    ensures exists val: Valuation, after: Valuation :: ChangedAtQ(val, after)
  {
    hide *;
    SharedFits();
    SharedUses();
    SumShared();
    SharedActs();
    SharedReached();
    SharedShape();
    QStays();
    var all, tail := ResultStepped(Shared(), Order(), ROOT);
    QLoses();
    OnesAlready();
    OnesAfter();
    ValuesRight(Shared(), Order());
    ValuesRight(FuseResult(Shared(), ROOT), Order());
    ValuesDiffer(Shared(), FuseResult(Shared(), ROOT), Order(), Q);
    MakeChanged(Values(Shared(), Order()), Values(FuseResult(Shared(), ROOT), Order()));
  }

  ghost predicate ChangedAtQ(val: Valuation, after: Valuation)
    requires ROOT in Shared()
  {
    && Consistent(Shared(), val, 1) && Consistent(FuseResult(Shared(), ROOT), after, 1)
    && Q in val && Q in after && after[Q] != val[Q]
  }

  lemma MakeChanged(val: Valuation, after: Valuation)
    requires ROOT in Shared() && Consistent(Shared(), val, 1) && Consistent(FuseResult(Shared(), ROOT), after, 1)
    requires Q in val && Q in after && after[Q] != val[Q]
    ensures ChangedAtQ(val, after)
  {
    hide Consistent, FuseResult, Shared;
  }

  lemma OnesAfter()
    requires ROOT in Shared()
    ensures Reread(FuseResult(Shared(), ROOT), Ones()) == FuseResult(Shared(), ROOT)
  {
    hide *;
    OnesAlready();
    RereadFuse(Shared(), Ones(), ROOT);
  }

  lemma QStays()
    requires Ranked(Shared(), Order()) && Typed(Shared()) && Clean(Shared()) && ROOT in Shared() && Acts(Shared(), ROOT) && Q in Shared()
    requires !Reaches(Shared(), Order(), ROOT, Q)
    ensures Q in FuseResult(Shared(), ROOT) && FuseResult(Shared(), ROOT)[Q].op == Add
  {
    hide Shared, Order, Ranked, Typed, Clean, Acts, Reaches, FuseResult, SingleUse, Met, OperationOf, OperandsOf;
    SharedShape();
    DroppedOnly(Shared(), Order(), ROOT, Q);
  }

  lemma RanksApart()
    ensures Q in Order() && ROOT in Order() && Order()[Q] < Order()[ROOT]
  {
    SharedHas(Q);
    SharedHas(ROOT);
    hide Shared;
  }

  lemma QLoses()
    requires Ranked(Shared(), Order()) && Typed(Shared()) && Clean(Shared()) && ROOT in Shared() && Acts(Shared(), ROOT)
    requires A in Shared() && Reaches(Shared(), Order(), ROOT, A) && Warm(Shared(), Order(), A)
    requires Q in Shared() && Q in FuseResult(Shared(), ROOT) && FuseResult(Shared(), ROOT)[Q].op == Add
    requires Ranked(FuseResult(Shared(), ROOT), Order())
    ensures Weight(FuseResult(Shared(), ROOT), Order(), Q) < Weight(Shared(), Order(), Q)
  {
    hide Shared, Order, Ranked, Typed, Clean, Acts, Reaches, FuseResult, Warm, Weight;
    SharedShape();
    RanksApart();
    ReaderLoses(Shared(), Order(), ROOT, A, Q);
  }

  lemma ValuesDiffer(g: Graph, h: Graph, rank: map<nat, nat>, t: nat)
    requires Ranked(g, rank) && Ranked(h, rank) && t in g && t in h && g[t].op.Add? && h[t].op.Add?
    requires Weight(h, rank, t) < Weight(g, rank, t)
    ensures t in Values(g, rank) && t in Values(h, rank) && Values(h, rank)[t] != Values(g, rank)[t]
  {
    hide Ranked, Weight;
  }
}

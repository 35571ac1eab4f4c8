/** Greedy topological sort of the instructions of one node: passes over the list take every instruction whose sources
    exist, until none is left or a pass takes nothing. */
module TopologicalSort {

  /** Term ids read and created. */
  datatype Instr = Instr(srcs: seq<nat>, dests: seq<nat>)

  datatype Slot = Pending(i: Instr) | Taken

  datatype Result = Sorted(instructions: seq<Instr>) | CyclicDependency

  predicate Ready(i: Instr, created: set<nat>)
  {
    forall j :: 0 <= j < |i.srcs| ==> i.srcs[j] in created
  }

  function Elements(s: seq<nat>): set<nat>
  {
    set x | x in s
  }

  /** Terms that exist once the instructions have run. */
  function CreatedBy(order: seq<Instr>, initial: set<nat>): set<nat>
  {
    if |order| == 0 then initial else CreatedBy(order[..|order| - 1], initial) + Elements(order[|order| - 1].dests)
  }

  /** Every source exists initially or is created earlier. */
  ghost predicate ValidOrder(order: seq<Instr>, initial: set<nat>)
  {
    forall k: nat :: k < |order| ==> Ready(order[k], CreatedBy(order[..k], initial))
  }

  /** Some instruction before number k creates x. */
  ghost predicate CreatedBefore(order: seq<Instr>, k: nat, x: nat)
  {
    exists p: nat :: p < k && p < |order| && x in order[p].dests
  }

  lemma {:induction false} CreatedMeans(order: seq<Instr>, initial: set<nat>, k: nat, x: nat)
    requires k <= |order|
    ensures x in CreatedBy(order[..k], initial) <==> x in initial || CreatedBefore(order, k, x)
  {
    if k > 0 {
      CreatedMeans(order, initial, k - 1, x);
      assert order[..k][..k - 1] == order[..k - 1] && order[..k][k - 1] == order[k - 1];
      if CreatedBefore(order, k, x) && !CreatedBefore(order, k - 1, x) {
        assert x in order[k - 1].dests;
      }
    }
  }

  /** An order is valid exactly when every term an instruction reads exists from the start or is created by an instruction
      before it. */
  lemma ValidMeans(order: seq<Instr>, initial: set<nat>)
    ensures ValidOrder(order, initial) <==>
      forall k: nat, j: nat :: k < |order| && j < |order[k].srcs| ==> order[k].srcs[j] in initial || CreatedBefore(order, k, order[k].srcs[j])
  {
    hide CreatedBefore, CreatedBy;
    forall k: nat, j: nat | k < |order| && j < |order[k].srcs|
      ensures order[k].srcs[j] in CreatedBy(order[..k], initial) <==>
        order[k].srcs[j] in initial || CreatedBefore(order, k, order[k].srcs[j])
    {
      CreatedMeans(order, initial, k, order[k].srcs[j]);
    }
  }

  ghost predicate HasValidOrder(instructions: seq<Instr>, initial: set<nat>)
  {
    exists order :: multiset(order) == multiset(instructions) && ValidOrder(order, initial)
  }

  /** Instructions still pending in the first n slots. */
  ghost function Left(slots: seq<Slot>, n: nat): multiset<Instr>
    requires n <= |slots|
  {
    if n == 0 then multiset{}
    else Left(slots, n - 1) + Alone(slots[n - 1])
  }

  ghost function Alone(slot: Slot): multiset<Instr>
  {
    if slot.Pending? then multiset{slot.i} else multiset{}
  }

  lemma {:induction false} LeftTake(slots: seq<Slot>, k: nat, n: nat)
    requires n <= |slots| && k < |slots| && slots[k].Pending?
    ensures k < n ==> Left(slots, n) == Left(slots[k := Taken], n) + multiset{slots[k].i}
    ensures k >= n ==> Left(slots, n) == Left(slots[k := Taken], n)
  {
    hide *;
    NothingLeft(slots);
    NothingLeft(slots[k := Taken]);
    if n > 0 {
      LeftTake(slots, k, n - 1);
      LeftStep(slots, n);
      LeftStep(slots[k := Taken], n);
      if k < n - 1 {
        SwapLast(Left(slots[k := Taken], n - 1), multiset{slots[k].i}, Alone(slots[n - 1]));
      } else if k == n - 1 {
        LastTaken(slots[k].i);
      }
    }
  }

  lemma LeftStep(slots: seq<Slot>, n: nat)
    requires 0 < n <= |slots|
    ensures Left(slots, n) == Left(slots, n - 1) + Alone(slots[n - 1])
  {
    hide Alone;
  }

  lemma SwapLast(a: multiset<Instr>, b: multiset<Instr>, c: multiset<Instr>)
    ensures (a + b) + c == (a + c) + b
  {
  }

  lemma LastTaken(i: Instr)
    ensures Alone(Pending(i)) == multiset{i} && Alone(Taken) == multiset{}
  {
  }

  lemma {:induction false} LeftAll(slots: seq<Slot>, instructions: seq<Instr>, n: nat)
    requires n <= |slots| == |instructions| && forall k: nat :: k < |slots| ==> slots[k] == Pending(instructions[k])
    ensures Left(slots, n) == multiset(instructions[..n])
  {
    hide *;
    NothingLeft(slots);
    if n > 0 {
      LeftAll(slots, instructions, n - 1);
      LeftStep(slots, n);
      LastTaken(instructions[n - 1]);
      OneMoreInstruction(instructions, n);
    }
  }

  lemma NothingLeft(slots: seq<Slot>)
    ensures Left(slots, 0) == multiset{}
  {
  }

  lemma OneMoreInstruction(instructions: seq<Instr>, n: nat)
    requires 0 < n <= |instructions|
    ensures multiset(instructions[..n]) == multiset(instructions[..n - 1]) + multiset{instructions[n - 1]}
  {
    assert instructions[..n] == instructions[..n - 1] + [instructions[n - 1]];
  }

  lemma {:induction false} LeftMember(slots: seq<Slot>, i: Instr, n: nat) returns (k: nat)
    requires n <= |slots| && i in Left(slots, n)
    ensures k < n && slots[k] == Pending(i)
  {
    if slots[n - 1] == Pending(i) {
      k := n - 1;
    } else {
      k := LeftMember(slots, i, n - 1);
    }
  }

  lemma {:induction false} CreatedHas(order: seq<Instr>, i: Instr, initial: set<nat>)
    requires i in order
    ensures Elements(i.dests) <= CreatedBy(order, initial) && initial <= CreatedBy(order, initial)
  {
    var n := |order| - 1;
    if i == order[n] {
      InitialKept(order, initial);
    } else {
      CreatedHas(order[..n], i, initial);
    }
  }

  lemma {:induction false} InitialKept(order: seq<Instr>, initial: set<nat>)
    ensures initial <= CreatedBy(order, initial)
  {
    if |order| > 0 {
      InitialKept(order[..|order| - 1], initial);
    }
  }

  lemma {:induction false} CreatedWithin(order: seq<Instr>, initial: set<nat>, limit: set<nat>)
    requires initial <= limit && forall k: nat :: k < |order| ==> Elements(order[k].dests) <= limit
    ensures CreatedBy(order, initial) <= limit
  {
    if |order| > 0 {
      CreatedWithin(order[..|order| - 1], initial, limit);
    }
  }

  lemma AppendCreated(order: seq<Instr>, i: Instr, initial: set<nat>)
    ensures CreatedBy(order + [i], initial) == CreatedBy(order, initial) + Elements(i.dests)
  {
    assert (order + [i])[..|order|] == order;
  }

  lemma AppendValid(order: seq<Instr>, i: Instr, initial: set<nat>)
    requires ValidOrder(order, initial) && Ready(i, CreatedBy(order, initial))
    ensures ValidOrder(order + [i], initial)
  {
    var longer := order + [i];
    hide Ready, CreatedBy;
    forall k: nat | k < |longer|
      ensures Ready(longer[k], CreatedBy(longer[..k], initial))
    {
      if k < |order| {
        assert longer[..k] == order[..k];
      } else {
        assert longer[..k] == order;
      }
    }
  }

  /** If everything left is blocked, no order of all the instructions is valid: its first instruction that is left
      would not be blocked. */
  lemma StuckMeansNone(instructions: seq<Instr>, initial: set<nat>, sorted: seq<Instr>, left: multiset<Instr>, order: seq<Instr>)
    requires multiset(instructions) == multiset(sorted) + left && left != multiset{}
    requires forall i :: i in left ==> !Ready(i, CreatedBy(sorted, initial))
    requires multiset(order) == multiset(instructions)
    ensures !ValidOrder(order, initial)
  {
    if ValidOrder(order, initial) {
      var some :| some in left;
      assert some in multiset(order);
      var k := FirstLeft(order, left, some);
      forall j: nat | j < k
        ensures Elements(order[..k][j].dests) <= CreatedBy(sorted, initial)
      {
        assert order[j] in multiset(order) && order[j] !in left;
        assert order[j] in multiset(sorted);
        CreatedHas(sorted, order[j], initial);
      }
      InitialKept(sorted, initial);
      CreatedWithin(order[..k], initial, CreatedBy(sorted, initial));
      ReadyWithMore(order[k], CreatedBy(order[..k], initial), CreatedBy(sorted, initial));
    }
  }

  lemma ReadyWithMore(i: Instr, some: set<nat>, more: set<nat>)
    requires Ready(i, some) && some <= more
    ensures Ready(i, more)
  {
  }

  lemma FirstLeft(order: seq<Instr>, left: multiset<Instr>, some: Instr) returns (k: nat)
    requires some in order && some in left
    ensures k < |order| && order[k] in left && forall j: nat :: j < k ==> order[j] !in left
  {
    k := 0;
    while order[k] !in left
      invariant k < |order| && some in order[k..]
      invariant forall j: nat :: j < k ==> order[j] !in left
      decreases |order| - k
    {
      k := k + 1;
    }
  }

  /** What holds throughout: the sorted part is a valid order, and together with what is left it is the input. */
  ghost predicate Consistent(instructions: seq<Instr>, initial: set<nat>, slots: seq<Slot>, sorted: seq<Instr>, created: set<nat>)
  {
    && |slots| == |instructions| && multiset(instructions) == multiset(sorted) + Left(slots, |slots|)
    && ValidOrder(sorted, initial) && created == CreatedBy(sorted, initial)
  }

  /** Moving one ready instruction over. */
  lemma TakeOne(instructions: seq<Instr>, initial: set<nat>, slots: seq<Slot>, sorted: seq<Instr>, created: set<nat>, t: nat)
    requires Consistent(instructions, initial, slots, sorted, created)
    requires t < |slots| && slots[t].Pending? && Ready(slots[t].i, created)
    ensures Consistent(instructions, initial, slots[t := Taken], sorted + [slots[t].i], created + Elements(slots[t].i.dests))
    ensures |sorted| < |instructions|
  {
    hide Ready, CreatedBy, Elements, ValidOrder, Left;
    LeftTake(slots, t, |slots|);
    AppendValid(sorted, slots[t].i, initial);
    AppendCreated(sorted, slots[t].i, initial);
    CountFits(instructions, sorted, Left(slots, |slots|), slots[t].i);
  }

  ghost predicate Blocked(slots: seq<Slot>, created: set<nat>, t: nat)
  {
    forall k: nat :: k < t && k < |slots| ==> slots[k].Taken? || !Ready(slots[k].i, created)
  }

  ghost predicate Untouched(slots: seq<Slot>, instructions: seq<Instr>, t: nat)
  {
    |slots| == |instructions| && forall k: nat :: t <= k < |slots| ==> slots[k] == Pending(instructions[k])
  }

  /** One pass over the list. */
  method Pass(instructions: seq<Instr>, initial: set<nat>, slots0: seq<Slot>, sorted0: seq<Instr>, created0: set<nat>)
      returns (slots: seq<Slot>, sorted: seq<Instr>, created: set<nat>)
    requires Consistent(instructions, initial, slots0, sorted0, created0)
    requires sorted0 == [] ==> Untouched(slots0, instructions, 0)
    ensures Consistent(instructions, initial, slots, sorted, created) && |sorted| >= |sorted0|
    ensures |sorted| == |sorted0| ==> Blocked(slots, created, |slots|)
    ensures sorted0 == [] && ValidOrder(instructions, initial) ==> sorted == instructions
  {
    hide *;
    slots, sorted, created := slots0, sorted0, created0;
    PassStarts(instructions, initial, slots, sorted, created);
    var t: nat := 0;
    while t < |slots|
      invariant t <= |slots| == |instructions| && |sorted| >= |sorted0|
      invariant Consistent(instructions, initial, slots, sorted, created)
      invariant |sorted| == |sorted0| ==> Blocked(slots, created, t)
      invariant sorted0 == [] ==> Untouched(slots, instructions, t)
      invariant sorted0 == [] && ValidOrder(instructions, initial) ==> sorted == instructions[..t]
    {
      if slots[t].Pending? && Ready(slots[t].i, created) {
        TakeOne(instructions, initial, slots, sorted, created, t);
        TurnTaken(instructions, slots, t);
        created := created + Elements(slots[t].i.dests);
        sorted := sorted + [slots[t].i];
        slots := slots[t := Taken];
      } else {
        TurnSkipped(instructions, initial, slots, sorted0, sorted, created, t);
      }
      t := t + 1;
    }
    assert instructions[..|instructions|] == instructions;
  }

  lemma PassStarts(instructions: seq<Instr>, initial: set<nat>, slots: seq<Slot>, sorted: seq<Instr>, created: set<nat>)
    requires Consistent(instructions, initial, slots, sorted, created)
    ensures |slots| == |instructions| && Blocked(slots, created, 0) && instructions[..0] == []
  {
    hide Ready, ValidOrder, CreatedBy, Left;
  }

  lemma TurnTaken(instructions: seq<Instr>, slots: seq<Slot>, t: nat)
    requires t < |slots|
    ensures Untouched(slots, instructions, t) ==>
      t < |instructions| && slots[t] == Pending(instructions[t]) && instructions[..t + 1] == instructions[..t] + [instructions[t]]
    ensures Untouched(slots, instructions, t) ==> Untouched(slots[t := Taken], instructions, t + 1)
  {
  }

  lemma TurnSkipped(instructions: seq<Instr>, initial: set<nat>, slots: seq<Slot>, sorted0: seq<Instr>, sorted: seq<Instr>,
                    created: set<nat>, t: nat)
    requires Consistent(instructions, initial, slots, sorted, created) && t < |slots|
    requires slots[t].Taken? || !Ready(slots[t].i, created)
    requires sorted0 == [] ==> Untouched(slots, instructions, t)
    requires sorted0 == [] && ValidOrder(instructions, initial) ==> sorted == instructions[..t]
    ensures Blocked(slots, created, t) ==> Blocked(slots, created, t + 1)
    ensures sorted0 == [] ==> Untouched(slots, instructions, t + 1) && !ValidOrder(instructions, initial)
  {
    if sorted0 == [] && ValidOrder(instructions, initial) {
      assert slots[t] == Pending(instructions[t]);
      TurnReady(instructions, initial, slots, sorted, created, t);
    }
    hide Ready, CreatedBy, ValidOrder, Left;
  }

  /** In a list that is in a valid order, the first pass finds every instruction ready. */
  lemma TurnReady(instructions: seq<Instr>, initial: set<nat>, slots: seq<Slot>, sorted: seq<Instr>, created: set<nat>, t: nat)
    requires Consistent(instructions, initial, slots, sorted, created) && ValidOrder(instructions, initial)
    requires t < |instructions| && sorted == instructions[..t] && slots[t] == Pending(instructions[t])
    ensures Ready(slots[t].i, created)
  {
  }

  /** Sorts, or fails exactly when no order is valid. A list that is already in a valid order stays as it is. */
  method TopologicallySort(instructions: seq<Instr>, initial: set<nat>) returns (result: Result, created: set<nat>)
    ensures result.Sorted? <==> HasValidOrder(instructions, initial)
    ensures result.Sorted? ==> multiset(result.instructions) == multiset(instructions)
    ensures result.Sorted? ==> ValidOrder(result.instructions, initial) && created == CreatedBy(result.instructions, initial)
    ensures ValidOrder(instructions, initial) ==> result == Sorted(instructions)
  {
    var slots := seq(|instructions|, k requires 0 <= k < |instructions| => Pending(instructions[k]));
    LeftAll(slots, instructions, |slots|);
    assert instructions[..|slots|] == instructions;
    var sorted: seq<Instr> := [];
    created := initial;
    while |sorted| < |instructions|
      invariant Consistent(instructions, initial, slots, sorted, created)
      invariant sorted == [] ==> Untouched(slots, instructions, 0)
      invariant ValidOrder(instructions, initial) && sorted != [] ==> sorted == instructions
      decreases |instructions| - |sorted|
    {
      hide Consistent, ValidOrder, CreatedBy, Ready, Elements;
      var before := |sorted|;
      slots, sorted, created := Pass(instructions, initial, slots, sorted, created);
      if |sorted| == before {
        NothingReady(instructions, initial, sorted, slots, created);
        return CyclicDependency, created;
      }
    }
    SortedAll(instructions, sorted, Left(slots, |slots|));
    return Sorted(sorted), created;
  }

  lemma CountFits(instructions: seq<Instr>, sorted: seq<Instr>, left: multiset<Instr>, i: Instr)
    requires multiset(instructions) == multiset(sorted) + left && i in left
    ensures |sorted| < |instructions|
  {
    assert |multiset(instructions)| == |multiset(sorted)| + |left|;
    assert left == (left - multiset{i}) + multiset{i};
  }

  lemma SortedAll(instructions: seq<Instr>, sorted: seq<Instr>, left: multiset<Instr>)
    requires multiset(instructions) == multiset(sorted) + left && |sorted| >= |instructions|
    ensures multiset(sorted) == multiset(instructions)
  {
    if left != multiset{} {
      var i :| i in left;
      CountFits(instructions, sorted, left, i);
    }
  }

  lemma SomethingLeft(instructions: seq<Instr>, sorted: seq<Instr>, left: multiset<Instr>)
    requires multiset(instructions) == multiset(sorted) + left && |sorted| < |instructions|
    ensures left != multiset{}
  {
    assert |multiset(instructions)| == |multiset(sorted)| + |left|;
  }

  lemma NothingReady(instructions: seq<Instr>, initial: set<nat>, sorted: seq<Instr>, slots: seq<Slot>, created: set<nat>)
    requires |sorted| < |instructions| && Consistent(instructions, initial, slots, sorted, created)
    requires Blocked(slots, created, |slots|)
    ensures !HasValidOrder(instructions, initial)
    ensures !ValidOrder(instructions, initial)
  {
    hide ValidOrder, CreatedBy, Ready, Elements;
    var left := Left(slots, |slots|);
    forall i | i in left
      ensures !Ready(i, created)
    {
      var k := LeftMember(slots, i, |slots|);
    }
    SomethingLeft(instructions, sorted, left);
    forall order | multiset(order) == multiset(instructions)
      ensures !ValidOrder(order, initial)
    {
      StuckMeansNone(instructions, initial, sorted, left, order);
    }
  }
}

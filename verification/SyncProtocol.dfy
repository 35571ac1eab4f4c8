/** Chips exchange limbs by sync id: `dis` broadcasts one, `rcv` waits for it, `joi` adds contributions up at one
    destination. Every handler call runs under one lock, so a run is an interleaving of loop iterations. */
module SyncProtocol {
  import opened Congruence

  type Limb = seq<int>
  type Registers = map<nat, Limb>

  datatype Instr =
    | Local(op: Registers -> Registers)
    | Dis(id: nat, count: nat, src: nat, dead: bool)
    | Rcv(id: nat, count: nat, dest: nat)
    | Joi(id: nat, count: nat, hasDest: bool, dest: nat, src: nat, dead: bool, modulus: nat)

  function Read(regs: Registers, r: nat): Limb
  {
    if r in regs then regs[r] else []
  }

  /** A source marked dead leaves its register when it is read. */
  function Consume(regs: Registers, r: nat, dead: bool): Registers
  {
    if dead then regs - {r} else regs
  }

  function Put(regs: Registers, r: nat, l: Limb): Registers
  {
    regs[r := l]
  }

  function At(l: Limb, i: nat): int
  {
    if i < |l| then l[i] else 0
  }

  function Max(a: nat, b: nat): nat
  {
    if a < b then b else a
  }

  function AddLimbs(a: Limb, b: Limb, q: nat): Limb
    requires q > 0
  {
    seq(Max(|a|, |b|), i requires i >= 0 => (At(a, i) + At(b, i)) % q)
  }

  // ----- the machine

  datatype Machine = Machine(line: seq<nat>, advance: seq<bool>, syncId: seq<nat>, regs: seq<Registers>,
                             syncCount: map<nat, nat>, disValue: map<nat, Limb>, joiValue: map<nat, Limb>,
                             completed: seq<bool>, completeCount: nat, exited: seq<bool>)

  datatype Outcome = Running(m: Machine) | Thrown

  ghost predicate Shaped(prog: seq<seq<Instr>>, m: Machine)
  {
    && |m.line| == |m.advance| == |m.syncId| == |m.regs| == |m.completed| == |m.exited| == |prog|
    && forall c: nat :: c < |prog| ==> m.line[c] <= |prog[c]| && (!m.advance[c] ==> m.line[c] > 0)
  }

  /** A counter that is not there yet reads as zero. */
  function CountAt(m: Machine, id: nat): nat
  {
    if id in m.syncCount then m.syncCount[id] else 0
  }

  function HandleDis(m: Machine, c: nat, id: nat, count: nat, src: nat, dead: bool): Outcome
    requires c < |m.syncId| == |m.advance| == |m.regs|
  {
    var value, regs := Read(m.regs[c], src), m.regs[c := Consume(m.regs[c], src, dead)];
    if m.syncId[c] == 0 then
      if id in m.disValue then Thrown
      else
        Running(m.(syncId := m.syncId[c := id], advance := m.advance[c := false], regs := regs,
                   syncCount := m.syncCount[id := CountAt(m, id) + 1], disValue := m.disValue[id := value]))
    else if m.syncId[c] != id then Thrown
    else
      var r := m.(advance := m.advance[c := true], syncId := m.syncId[c := 0], regs := regs);
      if CountAt(m, id) == count then Running(r.(disValue := m.disValue - {id}, syncCount := m.syncCount - {id}))
      else Running(r.(syncCount := m.syncCount[id := CountAt(m, id)]))
  }

  function HandleRcv(m: Machine, c: nat, id: nat, count: nat, dest: nat): Outcome
    requires c < |m.syncId| == |m.advance| == |m.regs|
  {
    if m.syncId[c] == 0 then Running(m.(syncId := m.syncId[c := id], advance := m.advance[c := false]))
    else if m.syncId[c] != id then Thrown
    else if id !in m.disValue then Running(m)
    else
      var r := m.(regs := m.regs[c := Put(m.regs[c], dest, m.disValue[id])], syncId := m.syncId[c := 0],
                  advance := m.advance[c := true]);
      if CountAt(m, id) + 1 == count then Running(r.(syncCount := m.syncCount - {id}, disValue := m.disValue - {id}))
      else Running(r.(syncCount := m.syncCount[id := CountAt(m, id) + 1]))
  }

  function HandleJoi(m: Machine, c: nat, i: Instr): Outcome
    requires c < |m.syncId| == |m.advance| == |m.regs| && i.Joi?
  {
    if m.syncId[c] == 0 then
      if i.modulus == 0 then Thrown
      else
        var value := Read(m.regs[c], i.src);
        Running(m.(syncId := m.syncId[c := if i.hasDest then i.id else 0], advance := m.advance[c := !i.hasDest],
                   regs := m.regs[c := Consume(m.regs[c], i.src, i.dead)],
                   syncCount := m.syncCount[i.id := CountAt(m, i.id) + 1],
                   joiValue := m.joiValue[i.id := if i.id in m.joiValue then AddLimbs(m.joiValue[i.id], value, i.modulus) else value]))
    else if m.syncId[c] != i.id then Thrown
    else if CountAt(m, i.id) == i.count && i.hasDest then
      if i.id !in m.joiValue then Thrown
      else
        Running(m.(regs := m.regs[c := Put(m.regs[c], i.dest, m.joiValue[i.id])], advance := m.advance[c := true],
                   syncId := m.syncId[c := 0], syncCount := m.syncCount - {i.id}, joiValue := m.joiValue - {i.id}))
    else Running(m)
  }

  function Handle(m: Machine, c: nat, i: Instr): Outcome
    requires c < |m.syncId| == |m.advance| == |m.regs|
  {
    match i
    case Local(op) => Running(m.(regs := m.regs[c := op(m.regs[c])]))
    case Dis(id, count, src, dead) => HandleDis(m, c, id, count, src, dead)
    case Rcv(id, count, dest) => HandleRcv(m, c, id, count, dest)
    case Joi(_, _, _, _, _, _, _) => HandleJoi(m, c, i)
  }

  /** One iteration of the loop of chip c. */
  ghost function Iterate(prog: seq<seq<Instr>>, m: Machine, c: nat): Outcome
    requires Shaped(prog, m) && c < |prog|
  {
    if m.exited[c] then Running(m)
    else if m.advance[c] && m.line[c] >= |prog[c]| then
      var n := if m.completed[c] then m.completeCount else m.completeCount + 1;
      Running(m.(completed := m.completed[c := true], completeCount := n, exited := m.exited[c := n == |prog|]))
    else
      var r := if m.advance[c] then m.(line := m.line[c := m.line[c] + 1]) else m;
      Handle(r, c, prog[c][r.line[c] - 1])
  }

  // ----- well-formed programs

  predicate IsSync(i: Instr)
  {
    !i.Local?
  }

  /** Who meets under a sync id: every member and the place of its instruction; the lead broadcasts or collects. */
  datatype Meeting = Meeting(members: map<nat, nat>, lead: nat, join: bool, modulus: nat)

  /** Instructions at which a chip waits for others. */
  predicate Waits(i: Instr)
  {
    i.Rcv? || (i.Joi? && i.hasDest)
  }

  /** Instructions with which a chip serves others. */
  predicate Gives(i: Instr)
  {
    i.Dis? || i.Joi?
  }

  datatype Setup = Setup(prog: seq<seq<Instr>>, plan: map<nat, Meeting>, initial: seq<Registers>, stage: nat -> nat) {
    /** The instruction is the part that chip c plays in its meeting. */
    ghost predicate PlaysPart(c: nat, p: nat)
      requires c < |prog| && p < |prog[c]| && IsSync(prog[c][p])
    {
      var i := prog[c][p];
      && i.id > 0 && i.id in plan && c in plan[i.id].members && plan[i.id].members[c] == p && i.count == |plan[i.id].members|
      && match i
         case Dis(_, _, _, _) => !plan[i.id].join && c == plan[i.id].lead
         case Rcv(_, _, _) => !plan[i.id].join && c != plan[i.id].lead
         case Joi(_, _, hasDest, _, _, _, q) => plan[i.id].join && (hasDest <==> c == plan[i.id].lead) && q == plan[i.id].modulus > 0
    }

    ghost predicate MeetingRight(id: nat)
      requires id in plan
    {
      && plan[id].lead in plan[id].members
      && forall c: nat :: c in plan[id].members ==>
        c < |prog| && plan[id].members[c] < |prog[c]| && IsSync(prog[c][plan[id].members[c]]) && prog[c][plan[id].members[c]].id == id
    }

    ghost predicate PartsRight(c: nat)
      requires c < |prog|
    {
      forall p: nat :: p < |prog[c]| && IsSync(prog[c][p]) ==> PlaysPart(c, p)
    }

    /** Whatever chip c gives after it has waited belongs to a later stage. */
    ghost predicate StagesRise(c: nat)
      requires c < |prog|
    {
      forall p: nat, r: nat :: p < r < |prog[c]| && Waits(prog[c][p]) && Gives(prog[c][r]) ==> stage(prog[c][p].id) < stage(prog[c][r].id)
    }

    /** Every id has one broadcast and its receivers, or joins with one destination, on distinct chips that all name
        the number of members. */
    ghost predicate Matched() {
      && |initial| == |prog|
      && (forall c: nat :: c < |prog| ==> PartsRight(c))
      && (forall id: nat :: id in plan ==> MeetingRight(id))
    }

    /** Stages rise along each chip, so that no chips wait for each other in a circle. */
    ghost predicate WellFormed() {
      Matched() && forall c: nat :: c < |prog| ==> StagesRise(c)
    }

    /** Above the stages of all waits before position p. */
    ghost function WaitStage(c: nat, p: nat): nat
      requires c < |prog| && p <= |prog[c]|
    {
      if p == 0 then 0
      else if Waits(prog[c][p - 1]) then Max(WaitStage(c, p - 1), stage(prog[c][p - 1].id) + 1)
      else WaitStage(c, p - 1)
    }

    lemma {:induction false} WaitsBelow(c: nat, p: nat, r: nat)
      requires WellFormed() && c < |prog| && p <= r < |prog[c]| && Gives(prog[c][r])
      ensures WaitStage(c, p) <= stage(prog[c][r].id)
    {
      if p > 0 {
        WaitsBelow(c, p - 1, r);
        assert StagesRise(c);
      }
    }

    // ----- the reference: what every register holds before every instruction, without interleaving

    /** Registers of chip c before its instruction p. */
    ghost function Ref(c: nat, p: nat): Registers
      requires WellFormed() && c < |prog| && p <= |prog[c]|
      decreases WaitStage(c, p), 0, p
    {
      if p == 0 then initial[c]
      else
        match prog[c][p - 1]
        case Local(op) => op(Ref(c, p - 1))
        case Dis(_, _, src, dead) => Consume(Ref(c, p - 1), src, dead)
        case Rcv(id, _, dest) =>
          assert PartsRight(c) && PlaysPart(c, p - 1);
          Put(Ref(c, p - 1), dest, Delivered(id))
        case Joi(id, _, hasDest, dest, src, dead, _) =>
          assert PartsRight(c) && PlaysPart(c, p - 1);
          var kept := Consume(Ref(c, p - 1), src, dead);
          if hasDest then Put(kept, dest, Delivered(id)) else kept
    }

    /** The limb member c brings to meeting id. */
    ghost function Offer(id: nat, c: nat): Limb
      requires WellFormed() && id in plan && c in plan[id].members
      decreases stage(id), 1, 0
    {
      assert MeetingRight(id);
      var p := plan[id].members[c];
      assert Gives(prog[c][p]) ==> WaitStage(c, p) <= stage(id) by {
        if Gives(prog[c][p]) {
          WaitsBelow(c, p, p);
        }
      }
      match prog[c][p]
      case Dis(_, _, src, _) => Read(Ref(c, p), src)
      case Joi(_, _, _, _, src, _, _) => Read(Ref(c, p), src)
      case _ => []
    }

    /** What all the members bring. */
    ghost function Offers(id: nat): map<nat, Limb>
      requires WellFormed() && id in plan
      decreases stage(id), 2, 0
    {
      map c | c in plan[id].members :: Offer(id, c)
    }

    /** What the meeting hands out: the broadcast limb, or the sum of all contributions. */
    ghost function Delivered(id: nat): Limb
      requires WellFormed() && id in plan
      decreases stage(id), 3, 0
    {
      assert MeetingRight(id);
      if plan[id].join then Merge(Offers(id), plan[id].modulus, |prog|) else Offer(id, plan[id].lead)
    }
  }

  // ----- sums of contributions

  /** Largest length among the limbs of chips below n. */
  function LongestBelow(offers: map<nat, Limb>, n: nat): nat
  {
    if n == 0 then 0
    else if n - 1 in offers then Max(LongestBelow(offers, n - 1), |offers[n - 1]|)
    else LongestBelow(offers, n - 1)
  }

  function SlotSum(offers: map<nat, Limb>, i: nat, n: nat): int
  {
    if n == 0 then 0 else SlotSum(offers, i, n - 1) + if n - 1 in offers then At(offers[n - 1], i) else 0
  }

  /** The modular sum of the limbs of the chips below n, slot by slot; a single limb stays as it is. */
  ghost function Merge(offers: map<nat, Limb>, q: nat, n: nat): Limb
  {
    if |offers| == 1 then
      var c: nat :| c in offers;
      offers[c]
    else if q == 0 then []
    else seq(LongestBelow(offers, n), i requires i >= 0 => SlotSum(offers, i, n) % q)
  }

  lemma {:induction false} LongestAdd(offers: map<nat, Limb>, c: nat, l: Limb, n: nat)
    requires c !in offers
    ensures LongestBelow(offers[c := l], n) == if c < n then Max(LongestBelow(offers, n), |l|) else LongestBelow(offers, n)
  {
    if n == 0 {
    } else {
      LongestAdd(offers, c, l, n - 1);
    }
  }

  lemma {:induction false} SlotSumAdd(offers: map<nat, Limb>, c: nat, l: Limb, i: nat, n: nat)
    requires c !in offers
    ensures SlotSum(offers[c := l], i, n) == SlotSum(offers, i, n) + if c < n then At(l, i) else 0
  {
    if n == 0 {
    } else {
      SlotSumAdd(offers, c, l, i, n - 1);
    }
  }

  lemma {:induction false} SlotSumBeyond(offers: map<nat, Limb>, i: nat, n: nat)
    requires i >= LongestBelow(offers, n)
    ensures SlotSum(offers, i, n) == 0
  {
    if n == 0 {
    } else {
      SlotSumBeyond(offers, i, n - 1);
    }
  }

  lemma {:induction false} EmptySums(i: nat, n: nat)
    ensures SlotSum(map[], i, n) == 0 && LongestBelow(map[], n) == 0
  {
    if n == 0 {
    } else {
      EmptySums(i, n - 1);
    }
  }

  lemma OnlyMember(offers: map<nat, Limb>, c: nat, d: nat)
    requires |offers| == 1 && c in offers && d in offers
    ensures c == d
  {
    if c != d {
      assert |{c, d}| == 2;
      assert {c, d} <= offers.Keys;
      SubsetSize({c, d}, offers.Keys);
    }
  }

  lemma {:induction false} SubsetSize(s: set<nat>, t: set<nat>)
    requires s <= t
    ensures |s| <= |t|
  {
    if s == {} {
    } else {
      var x :| x in s;
      SubsetSize(s - {x}, t - {x});
    }
  }

  /** Slots and length of a merged sum. */
  lemma MergeSlots(offers: map<nat, Limb>, q: nat, n: nat, i: nat)
    requires q > 0 && |offers| >= 1 && forall c: nat :: c in offers ==> c < n
    ensures |Merge(offers, q, n)| == LongestBelow(offers, n)
    ensures Cong(At(Merge(offers, q, n), i), SlotSum(offers, i, n), q)
  {
    if |offers| == 1 {
      var c: nat :| c in offers;
      forall d: nat | d in offers
        ensures d == c
      {
        OnlyMember(offers, c, d);
      }
      var l := offers[c];
      var none: map<nat, Limb> := map[];
      assert offers == none[c := l];
      EmptySums(i, n);
      LongestAdd(none, c, l, n);
      SlotSumAdd(none, c, l, i, n);
      assert Merge(offers, q, n) == l;
    } else {
      if i < LongestBelow(offers, n) {
        CongMod(SlotSum(offers, i, n), q);
      } else {
        SlotSumBeyond(offers, i, n);
      }
    }
  }

  /** Adding one more contribution to the running sum gives the sum of one more: the order does not matter. */
  lemma MergeAdd(offers: map<nat, Limb>, c: nat, l: Limb, q: nat, n: nat)
    requires q > 0 && |offers| >= 1 && c !in offers && c < n && forall d: nat :: d in offers ==> d < n
    ensures AddLimbs(Merge(offers, q, n), l, q) == Merge(offers[c := l], q, n)
  {
    var more := offers[c := l];
    assert |more| == |offers| + 1;
    var sum := AddLimbs(Merge(offers, q, n), l, q);
    MergeSlots(offers, q, n, 0);
    LongestAdd(offers, c, l, n);
    forall i: nat | i < |sum|
      ensures sum[i] == SlotSum(more, i, n) % q
    {
      MergeSlots(offers, q, n, i);
      SlotSumAdd(offers, c, l, i, n);
      CongAdd(At(Merge(offers, q, n), i), SlotSum(offers, i, n), At(l, i), At(l, i), q);
    }
  }

  lemma MergeOne(c: nat, l: Limb, q: nat, n: nat)
    ensures Merge(map[c := l], q, n) == l
  {
    var m := map[c := l];
    assert m.Keys == {c};
    assert |m| == 1;
  }
}

/** What the exchanges and the local work of a compiled program leave in the registers of its chips, in any run. */
module SyncPrograms {
  import opened SyncProtocol
  import opened SyncSafety
  import opened SyncIds
  import opened SyncMeaning

  // ----- streams, section by section

  /** The stream of a chip is that of all events one after the other. */
  lemma {:induction false} Section(events: seq<Event>, c: nat, primes: nat -> nat, k: nat)
    requires k < |events|
    ensures Place(events, c, primes, k + 1) == Place(events, c, primes, k) + |Render(events[k], c, primes)| <= |Stream(events, c, primes)|
    ensures Stream(events, c, primes)[Place(events, c, primes, k)..Place(events, c, primes, k + 1)] == Render(events[k], c, primes)
  {
    hide Render;
    var last := |events| - 1;
    assert events[..k + 1][..k] == events[..k];
    if k < last {
      assert events[..last][..k] == events[..k] && events[..last][..k + 1] == events[..k + 1];
      Section(events[..last], c, primes, k);
    } else {
      assert events[..k + 1] == events;
    }
  }

  /** Every limb of every instruction is one event: node after node, the highest limb first, and at each limb the
      instructions in order. */
  lemma {:induction false} EventPlaced(nodes: seq<Node>, top: nat, n: nat, limb: nat, i: nat) returns (k: nat)
    requires n < |nodes| && limb < top && i < |nodes[n].instrs|
    ensures k == |Events(nodes[..n], top)| + (top - 1 - limb) * |nodes[n].instrs| + i < |Events(nodes[..n + 1], top)|
    ensures |Events(nodes[..n + 1], top)| == |Events(nodes[..n], top)| + top * |nodes[n].instrs| <= |Events(nodes, top)|
    ensures Events(nodes, top)[k] == Event(nodes[n], nodes[n].instrs[i], limb)
    decreases |nodes|
  {
    hide NodeEvents;
    var last := |nodes| - 1;
    assert nodes[..n + 1][..n] == nodes[..n];
    if n < last {
      assert nodes[..last][..n] == nodes[..n] && nodes[..last][..n + 1] == nodes[..n + 1];
      k := EventPlaced(nodes[..last], top, n, limb, i);
    } else {
      var j := NodeEventPlaced(nodes[n], top, limb, i);
      k := |Events(nodes[..n], top)| + j;
      assert nodes[..n + 1] == nodes;
    }
  }

  lemma {:induction false} NodeEventPlaced(node: Node, top: nat, limb: nat, i: nat) returns (k: nat)
    requires limb < top && i < |node.instrs|
    ensures k == (top - 1 - limb) * |node.instrs| + i < |NodeEvents(node, top)| == top * |node.instrs|
    ensures NodeEvents(node, top)[k] == Event(node, node.instrs[i], limb)
  {
    hide *;
    var m := |node.instrs|;
    TopLimb(node, top);
    NodeEventCount(node, top);
    if limb == top - 1 {
      k := i;
      NoLimbs(m);
    } else {
      var j := NodeEventPlaced(node, top - 1, limb, i);
      LimbsMore(top - 1 - limb, m);
      k := m + j;
    }
  }

  /** The events of the highest limb come first. */
  lemma TopLimb(node: Node, top: nat)
    requires top > 0
    ensures NodeEvents(node, top) == LimbEvents(node, top - 1) + NodeEvents(node, top - 1) && |LimbEvents(node, top - 1)| == |node.instrs|
    ensures forall i: nat :: i < |node.instrs| ==> LimbEvents(node, top - 1)[i] == Event(node, node.instrs[i], top - 1)
  {
  }

  lemma NoLimbs(m: nat)
    ensures 0 * m == 0
  {
  }

  lemma {:induction false} NodeEventCount(node: Node, top: nat)
    ensures |NodeEvents(node, top)| == top * |node.instrs|
  {
    if top > 0 {
      NodeEventCount(node, top - 1);
      LimbsMore(top, |node.instrs|);
    }
  }

  lemma LimbsMore(limbs: nat, m: nat)
    requires limbs > 0
    ensures limbs * m == (limbs - 1) * m + m
  {
  }

  /** Chips outside the group, limbs that an instruction does not name, chips that hold a limb in neither group of a
      receive, and a chip that would broadcast to itself alone have nothing to do. */
  lemma Bystanders(e: Event, c: nat, primes: nat -> nat)
    requires !InGroup(e.node, c) || (Communicates(e.instr) && e.limb !in e.instr.limbs) || (e.instr.Share? && e.node.size == 1)
      || (e.instr.Receive? && !SyncIds.Holds(e.instr.from, c, e.limb) && !SyncIds.Holds(e.instr.to, c, e.limb))
    ensures Render(e, c, primes) == []
  {
  }

  // ----- compiled programs

  ghost predicate Fit(nodes: seq<Node>, chips: nat, top: nat, primes: nat -> nat, initial: seq<Registers>)
  {
    Numbered(nodes) && NodesFit(nodes, chips) && top <= LIMB_SPAN && |initial| == chips && forall l: nat :: primes(l) > 0
  }

  /** In the run of the schedule, chip c stands before its work for event k, or after it. */
  ghost predicate Before(s: Setup, schedule: seq<nat>, events: seq<Event>, primes: nat -> nat, c: nat, k: nat)
  {
    s.WellFormed() && Schedule(s, schedule) && c < |s.prog| && k < |events| && Stands(Run(s, schedule), c, Place(events, c, primes, k))
  }

  ghost predicate Behind(s: Setup, schedule: seq<nat>, events: seq<Event>, primes: nat -> nat, c: nat, k: nat)
  {
    s.WellFormed() && Schedule(s, schedule) && c < |s.prog| && k < |events| && Stands(Run(s, schedule), c, Place(events, c, primes, k + 1))
  }

  /** A sum of one limb, on a group that has chips. */
  ghost predicate Sums(e: Event, h: nat)
  {
    e.instr.Sum? && e.limb in e.instr.limbs && SyncIds.Holds(GroupOf(e.node), h, e.limb)
  }

  /** Chip h sends a limb to chip c: the owner to another chip of the group, or the owner in one group to that in another. */
  ghost predicate Sends(e: Event, h: nat, c: nat)
  {
    && h != c
    && ((e.instr.Share? && e.limb in e.instr.limbs && SyncIds.Holds(GroupOf(e.node), h, e.limb) && InGroup(e.node, c))
        || (e.instr.Receive? && e.limb in e.instr.limbs && SyncIds.Holds(e.instr.from, h, e.limb) && SyncIds.Holds(e.instr.to, c, e.limb)))
  }

  /** All facts about event k of a compiled program that the protocol needs. */
  lemma MeetingHere(nodes: seq<Node>, chips: nat, top: nat, primes: nat -> nat, initial: seq<Registers>, k: nat)
    requires Fit(nodes, chips, top, primes, initial) && k < |Events(nodes, top)| && Exchanges(Events(nodes, top)[k])
    ensures var s, events := Compiled(Events(nodes, top), chips, primes, initial), Events(nodes, top);
      && s.WellFormed() && IdOf(events[k]) in s.plan && EventFits(events[k], chips)
      && var here := s.plan[IdOf(events[k])];
      && (forall c: nat :: c in here.members <==> Takes(events[k], c))
      && (forall c: nat :: c in here.members ==> here.members[c] == Place(events, c, primes, k))
      && here.lead == Lead(events[k]) && (here.join <==> events[k].instr.Sum?) && here.modulus == primes(events[k].limb)
  {
    hide Events, Numbered, NodesFit, Stream, IndexOf, Members, Chips, Setup.WellFormed, Distinct, Exchanges, Takes, IdOf, Lead;
    CompiledWellFormed(nodes, chips, top, primes, initial);
    EventsDistinct(nodes, top);
    EventsAllFit(nodes, chips, top);
    IndexIs(Events(nodes, top), k);
  }

  /** The instruction of a chip in an exchange. */
  lemma InstructionHere(events: seq<Event>, chips: nat, c: nat, primes: nat -> nat, initial: seq<Registers>, k: nat)
    requires k < |events| && Exchanges(events[k]) && Takes(events[k], c) && EventFits(events[k], chips)
    ensures var s := Compiled(events, chips, primes, initial);
      c < chips == |s.prog| && Place(events, c, primes, k) < |s.prog[c]| && Place(events, c, primes, k + 1) == Place(events, c, primes, k) + 1
      && |Render(events[k], c, primes)| == 1 && s.prog[c][Place(events, c, primes, k)] == Render(events[k], c, primes)[0]
  {
    hide Stream, Plan, Exchanges, Takes, EventFits, Render, Place, IndexOf;
    TakesBelow(events[k], chips, c);
    RenderedAt(events, chips, c, primes, k);
    Section(events, c, primes, k);
  }

  lemma SumsExchange(e: Event, chips: nat, h: nat)
    requires EventFits(e, chips) && Sums(e, h)
    ensures Exchanges(e) && Lead(e) == h && forall c: nat :: Takes(e, c) <==> InGroup(e.node, c)
  {
    OneHolder(GroupOf(e.node), e.limb, h);
    hide Aligned, HolderOf;
  }

  lemma SendsExchange(e: Event, chips: nat, h: nat, c: nat)
    requires EventFits(e, chips) && Sends(e, h, c)
    ensures Exchanges(e) && Lead(e) == h && Takes(e, h) && Takes(e, c)
  {
    if e.instr.Share? {
      OneHolder(GroupOf(e.node), e.limb, h);
    } else {
      OneHolder(e.instr.from, e.limb, h);
      OneHolder(e.instr.to, e.limb, c);
    }
    hide Aligned, HolderOf;
  }

  /** What chip c executes for a sum, and what for a transfer. */
  lemma SumInstruction(nodes: seq<Node>, chips: nat, top: nat, primes: nat -> nat, initial: seq<Registers>, k: nat, h: nat, c: nat)
    requires Fit(nodes, chips, top, primes, initial) && k < |Events(nodes, top)|
    requires Sums(Events(nodes, top)[k], h) && InGroup(Events(nodes, top)[k].node, c)
    ensures var s, e, p := Compiled(Events(nodes, top), chips, primes, initial), Events(nodes, top)[k], Place(Events(nodes, top), c, primes, k);
      && c < chips == |s.prog| && p < |s.prog[c]| && Place(Events(nodes, top), c, primes, k + 1) == p + 1
      && s.prog[c][p].Joi? && s.prog[c][p].id == IdOf(e) && (s.prog[c][p].hasDest <==> c == h)
      && s.prog[c][p].src == e.instr.src(e.limb) && s.prog[c][p].dest == e.instr.dest(e.limb) && s.prog[c][p].dead == e.instr.dead(c, e.limb)
  {
    hide Events, Numbered, NodesFit, Place, Compiled, Render, Exchanges, Takes, Lead, IdOf, EventFits, SizeOf, Sums;
    var events := Events(nodes, top);
    FitsHere(nodes, chips, top, primes, initial, k);
    SumsExchange(events[k], chips, h);
    InstructionHere(events, chips, c, primes, initial, k);
    RenderedPart(events[k], chips, c, primes);
    SumsSum(events[k], h);
  }

  lemma SumsSum(e: Event, h: nat)
    requires Sums(e, h)
    ensures e.instr.Sum?
  {
  }

  lemma FitsHere(nodes: seq<Node>, chips: nat, top: nat, primes: nat -> nat, initial: seq<Registers>, k: nat)
    requires Fit(nodes, chips, top, primes, initial) && k < |Events(nodes, top)|
    ensures EventFits(Events(nodes, top)[k], chips)
  {
    hide Events, Numbered, NodesFit, EventFits;
    EventsAllFit(nodes, chips, top);
  }

  lemma TransferInstruction(nodes: seq<Node>, chips: nat, top: nat, primes: nat -> nat, initial: seq<Registers>, k: nat, h: nat, c: nat, d: nat)
    requires Fit(nodes, chips, top, primes, initial) && k < |Events(nodes, top)|
    requires Sends(Events(nodes, top)[k], h, c) && (d == h || d == c)
    ensures var s, e, p := Compiled(Events(nodes, top), chips, primes, initial), Events(nodes, top)[k], Place(Events(nodes, top), d, primes, k);
      && d < chips == |s.prog| && p < |s.prog[d]| && Place(Events(nodes, top), d, primes, k + 1) == p + 1 && Communicates(e.instr)
      && (d == h ==> s.prog[d][p].Dis? && s.prog[d][p].id == IdOf(e)
                     && s.prog[d][p].src == e.instr.src(e.limb) && s.prog[d][p].dead == e.instr.dead(d, e.limb))
      && (d == c ==> s.prog[d][p].Rcv? && s.prog[d][p].id == IdOf(e) && s.prog[d][p].dest == e.instr.dest(e.limb))
  {
    hide Events, Numbered, NodesFit, Place, Compiled, Render, Exchanges, Takes, Lead, IdOf, EventFits, SizeOf, Sends;
    var events := Events(nodes, top);
    FitsHere(nodes, chips, top, primes, initial, k);
    SendsExchange(events[k], chips, h, c);
    InstructionHere(events, chips, d, primes, initial, k);
    RenderedPart(events[k], chips, d, primes);
    SendsPoly(events[k], h, c);
  }

  lemma SendsPoly(e: Event, h: nat, c: nat)
    requires Sends(e, h, c)
    ensures (e.instr.Share? || e.instr.Receive?) && h != c
  {
  }

  // ----- sums

  /** Chip c brings limb l to the sum: its source register holds l when it stands before its work for event k. */
  ghost predicate Contributes(s: Setup, schedule: seq<nat>, events: seq<Event>, primes: nat -> nat, c: nat, k: nat, l: Limb)
  {
    Before(s, schedule, events, primes, c, k) && Communicates(events[k].instr)
    && SyncMeaning.Holds(Run(s, schedule).regs[c], events[k].instr.src(events[k].limb), l)
  }

  /** After a sum the destination register of the holder is the slotwise modular sum of what the source registers of all
      chips of the group held; its source is gone if it was dead there, and its other registers are as they were. */
  lemma CompiledSum(nodes: seq<Node>, chips: nat, top: nat, primes: nat -> nat, initial: seq<Registers>, k: nat, h: nat,
                    before: nat -> seq<nat>, after: seq<nat>, offers: map<nat, Limb>) returns (sum: Limb)
    requires Fit(nodes, chips, top, primes, initial) && k < |Events(nodes, top)| && Sums(Events(nodes, top)[k], h)
    requires forall c: nat :: c in offers <==> InGroup(Events(nodes, top)[k].node, c)
    requires var s, events := Compiled(Events(nodes, top), chips, primes, initial), Events(nodes, top);
      (forall c: nat :: c in offers ==> Contributes(s, before(c), events, primes, c, k, offers[c]))
      && Behind(s, after, events, primes, h, k)
    ensures IsSum(sum, offers, primes(Events(nodes, top)[k].limb), chips)
    ensures var s, e := Compiled(Events(nodes, top), chips, primes, initial), Events(nodes, top)[k];
      && h in offers
      && Exchanged(Run(s, before(h)).regs[h], Run(s, after).regs[h], e.instr.src(e.limb), e.instr.dead(h, e.limb), e.instr.dest(e.limb), sum)
  {
    hide Fit, Compiled, Events, Sums, Contributes, Before, Behind, Exchanged, IsSum, Run, InGroup, Setup.Delivered, Setup.WellFormed;
    var s, events := Compiled(Events(nodes, top), chips, primes, initial), Events(nodes, top);
    SumsHere(nodes, chips, top, primes, initial, k, h);
    SumDelivers(nodes, chips, top, primes, initial, k, h, before, offers);
    ContributesBefore(s, before(h), events, primes, h, k, offers[h]);
    SumStores(nodes, chips, top, primes, initial, k, h, before(h), after);
    sum := s.Delivered(IdOf(events[k]));
  }

  lemma ContributesBefore(s: Setup, schedule: seq<nat>, events: seq<Event>, primes: nat -> nat, c: nat, k: nat, l: Limb)
    requires Contributes(s, schedule, events, primes, c, k, l)
    ensures Before(s, schedule, events, primes, c, k)
  {
  }

  lemma SumsHere(nodes: seq<Node>, chips: nat, top: nat, primes: nat -> nat, initial: seq<Registers>, k: nat, h: nat)
    requires Fit(nodes, chips, top, primes, initial) && k < |Events(nodes, top)| && Sums(Events(nodes, top)[k], h)
    ensures var s, events := Compiled(Events(nodes, top), chips, primes, initial), Events(nodes, top);
      && s.WellFormed() && |s.prog| == chips && IdOf(events[k]) in s.plan && InGroup(events[k].node, h)
      && var here := s.plan[IdOf(events[k])];
      && (forall c: nat :: c in here.members <==> InGroup(events[k].node, c))
      && (forall c: nat :: c in here.members ==> here.members[c] == Place(events, c, primes, k))
      && here.lead == h && here.join && here.modulus == primes(events[k].limb)
  {
    hide Fit, Events, Place, EventFits, Exchanges, Takes, Lead, IdOf, InGroup, Setup.WellFormed, Stream, Plan;
    var events := Events(nodes, top);
    FitsHere(nodes, chips, top, primes, initial, k);
    SumsExchange(events[k], chips, h);
    MeetingHere(nodes, chips, top, primes, initial, k);
    HoldsInGroup(events[k], h);
  }

  lemma HoldsInGroup(e: Event, h: nat)
    requires Sums(e, h)
    ensures InGroup(e.node, h)
  {
  }

  lemma SumDelivers(nodes: seq<Node>, chips: nat, top: nat, primes: nat -> nat, initial: seq<Registers>, k: nat, h: nat,
                    before: nat -> seq<nat>, offers: map<nat, Limb>)
    requires Fit(nodes, chips, top, primes, initial) && k < |Events(nodes, top)| && Sums(Events(nodes, top)[k], h)
    requires forall c: nat :: c in offers <==> InGroup(Events(nodes, top)[k].node, c)
    requires var s, events := Compiled(Events(nodes, top), chips, primes, initial), Events(nodes, top);
      forall c: nat :: c in offers ==> Contributes(s, before(c), events, primes, c, k, offers[c])
    ensures var s, id := Compiled(Events(nodes, top), chips, primes, initial), IdOf(Events(nodes, top)[k]);
      s.WellFormed() && id in s.plan && IsSum(s.Delivered(id), offers, primes(Events(nodes, top)[k].limb), chips)
  {
    hide Fit, Compiled, Events, Sums, Contributes, IsSum, Place, InGroup, IdOf, Brings, Setup.Delivered, Setup.WellFormed;
    var s, events := Compiled(Events(nodes, top), chips, primes, initial), Events(nodes, top);
    SumsHere(nodes, chips, top, primes, initial, k, h);
    var id := IdOf(events[k]);
    forall c: nat | c in offers
      ensures Brings(s, id, c, before(c), offers[c])
    {
      SumInstruction(nodes, chips, top, primes, initial, k, h, c);
      ContributesBrings(s, events, primes, c, k, before(c), offers[c]);
    }
    assert offers.Keys == s.plan[id].members.Keys;
    JoinBrought(s, id, before, offers);
  }

  lemma ContributesBrings(s: Setup, events: seq<Event>, primes: nat -> nat, c: nat, k: nat, before: seq<nat>, l: Limb)
    requires Contributes(s, before, events, primes, c, k, l) && IdOf(events[k]) in s.plan && c in s.plan[IdOf(events[k])].members
    requires s.plan[IdOf(events[k])].members[c] == Place(events, c, primes, k) < |s.prog[c]|
    requires var i := s.prog[c][Place(events, c, primes, k)]; (i.Dis? || i.Joi?) && i.src == events[k].instr.src(events[k].limb)
    ensures Brings(s, IdOf(events[k]), c, before, l)
  {
    hide Setup.WellFormed, IdOf, Place, SyncMeaning.Holds;
  }

  lemma SumStores(nodes: seq<Node>, chips: nat, top: nat, primes: nat -> nat, initial: seq<Registers>, k: nat, h: nat,
                  before: seq<nat>, after: seq<nat>)
    requires Fit(nodes, chips, top, primes, initial) && k < |Events(nodes, top)| && Sums(Events(nodes, top)[k], h)
    requires var s, events := Compiled(Events(nodes, top), chips, primes, initial), Events(nodes, top);
      Before(s, before, events, primes, h, k) && Behind(s, after, events, primes, h, k)
    ensures var s, e := Compiled(Events(nodes, top), chips, primes, initial), Events(nodes, top)[k];
      && IdOf(e) in s.plan && e.instr.Sum? && h < |Run(s, before).regs| && h < |Run(s, after).regs|
      && Exchanged(Run(s, before).regs[h], Run(s, after).regs[h], e.instr.src(e.limb), e.instr.dead(h, e.limb), e.instr.dest(e.limb),
                   s.Delivered(IdOf(e)))
  {
    hide Fit, Compiled, Events, Place, InGroup, IdOf, Exchanged, Before, Behind, Run, Setup.Delivered, Setup.WellFormed;
    var s, events := Compiled(Events(nodes, top), chips, primes, initial), Events(nodes, top);
    SumsHere(nodes, chips, top, primes, initial, k, h);
    SumInstruction(nodes, chips, top, primes, initial, k, h, h);
    Around(s, before, after, events, primes, h, k);
  }

  /** The registers before and after the one instruction of chip c for event k. */
  lemma Around(s: Setup, before: seq<nat>, after: seq<nat>, events: seq<Event>, primes: nat -> nat, c: nat, k: nat)
    requires Before(s, before, events, primes, c, k) && Behind(s, after, events, primes, c, k)
    requires Place(events, c, primes, k + 1) == Place(events, c, primes, k) + 1 <= |s.prog[c]|
    ensures c < |Run(s, before).regs| && c < |Run(s, after).regs|
    ensures var i := s.prog[c][Place(events, c, primes, k)];
      && (IsSync(i) ==> i.id in s.plan)
      && Effect(i, Run(s, before).regs[c], Run(s, after).regs[c], if IsSync(i) then s.Delivered(i.id) else [])
  {
    hide Place, Run, Effect, Setup.Delivered, Setup.WellFormed;
    InstructionMeans(s, before, after, c, Place(events, c, primes, k));
  }

  /** A chip that only contributes to a sum keeps all its registers but a dead source. */
  lemma CompiledContributor(nodes: seq<Node>, chips: nat, top: nat, primes: nat -> nat, initial: seq<Registers>, k: nat, h: nat, c: nat,
                            before: seq<nat>, after: seq<nat>)
    requires Fit(nodes, chips, top, primes, initial) && k < |Events(nodes, top)| && Sums(Events(nodes, top)[k], h)
    requires InGroup(Events(nodes, top)[k].node, c) && c != h
    requires var s, events := Compiled(Events(nodes, top), chips, primes, initial), Events(nodes, top);
      Before(s, before, events, primes, c, k) && Behind(s, after, events, primes, c, k)
    ensures var s, e := Compiled(Events(nodes, top), chips, primes, initial), Events(nodes, top)[k];
      Left(Run(s, before).regs[c], Run(s, after).regs[c], e.instr.src(e.limb), e.instr.dead(c, e.limb))
  {
    hide Fit, Compiled, Events, Place, InGroup, IdOf, Left, Before, Behind, Run, Setup.Delivered, Setup.WellFormed;
    var s, events := Compiled(Events(nodes, top), chips, primes, initial), Events(nodes, top);
    SumsHere(nodes, chips, top, primes, initial, k, h);
    SumInstruction(nodes, chips, top, primes, initial, k, h, c);
    Around(s, before, after, events, primes, c, k);
  }

  // ----- transfers

  lemma SendsHere(nodes: seq<Node>, chips: nat, top: nat, primes: nat -> nat, initial: seq<Registers>, k: nat, h: nat, c: nat)
    requires Fit(nodes, chips, top, primes, initial) && k < |Events(nodes, top)| && Sends(Events(nodes, top)[k], h, c)
    ensures var s, events := Compiled(Events(nodes, top), chips, primes, initial), Events(nodes, top);
      && s.WellFormed() && |s.prog| == chips && IdOf(events[k]) in s.plan && Communicates(events[k].instr)
      && var here := s.plan[IdOf(events[k])];
      && h in here.members && here.members[h] == Place(events, h, primes, k) && here.lead == h && !here.join
  {
    hide Fit, Events, Place, EventFits, Exchanges, Takes, Lead, IdOf, Sends, Setup.WellFormed, Stream, Plan;
    var events := Events(nodes, top);
    FitsHere(nodes, chips, top, primes, initial, k);
    SendsExchange(events[k], chips, h, c);
    SendsPoly(events[k], h, c);
    MeetingHere(nodes, chips, top, primes, initial, k);
  }

  /** After a broadcast, or a receive between groups, the destination register of every receiver holds what the source
      register of the sender held, and its other registers are as they were. */
  lemma CompiledTransfer(nodes: seq<Node>, chips: nat, top: nat, primes: nat -> nat, initial: seq<Registers>, k: nat, h: nat, c: nat,
                         there: seq<nat>, l: Limb, before: seq<nat>, after: seq<nat>)
    requires Fit(nodes, chips, top, primes, initial) && k < |Events(nodes, top)| && Sends(Events(nodes, top)[k], h, c)
    requires var s, events := Compiled(Events(nodes, top), chips, primes, initial), Events(nodes, top);
      Contributes(s, there, events, primes, h, k, l) && Before(s, before, events, primes, c, k) && Behind(s, after, events, primes, c, k)
    ensures var s, e := Compiled(Events(nodes, top), chips, primes, initial), Events(nodes, top)[k];
      Stored(Run(s, before).regs[c], Run(s, after).regs[c], e.instr.dest(e.limb), l)
  {
    hide Fit, Compiled, Events, Place, IdOf, Sends, Stored, Run, Contributes, Before, Behind, Setup.Delivered, Setup.WellFormed;
    SendsHere(nodes, chips, top, primes, initial, k, h, c);
    TransferDelivers(nodes, chips, top, primes, initial, k, h, c, there, l);
    TransferStores(nodes, chips, top, primes, initial, k, h, c, before, after);
  }

  lemma TransferDelivers(nodes: seq<Node>, chips: nat, top: nat, primes: nat -> nat, initial: seq<Registers>, k: nat, h: nat, c: nat,
                         there: seq<nat>, l: Limb)
    requires Fit(nodes, chips, top, primes, initial) && k < |Events(nodes, top)| && Sends(Events(nodes, top)[k], h, c)
    requires Contributes(Compiled(Events(nodes, top), chips, primes, initial), there, Events(nodes, top), primes, h, k, l)
    ensures var s, id := Compiled(Events(nodes, top), chips, primes, initial), IdOf(Events(nodes, top)[k]);
      s.WellFormed() && id in s.plan && s.Delivered(id) == l
  {
    hide Fit, Compiled, Events, Place, IdOf, Sends, Contributes, Brings, Setup.Delivered, Setup.WellFormed;
    var s, events := Compiled(Events(nodes, top), chips, primes, initial), Events(nodes, top);
    SendsHere(nodes, chips, top, primes, initial, k, h, c);
    TransferInstruction(nodes, chips, top, primes, initial, k, h, c, h);
    ContributesBrings(s, events, primes, h, k, there, l);
    BroadcastBrought(s, IdOf(events[k]), there, l);
  }

  lemma TransferStores(nodes: seq<Node>, chips: nat, top: nat, primes: nat -> nat, initial: seq<Registers>, k: nat, h: nat, c: nat,
                       before: seq<nat>, after: seq<nat>)
    requires Fit(nodes, chips, top, primes, initial) && k < |Events(nodes, top)| && Sends(Events(nodes, top)[k], h, c)
    requires var s, events := Compiled(Events(nodes, top), chips, primes, initial), Events(nodes, top);
      Before(s, before, events, primes, c, k) && Behind(s, after, events, primes, c, k)
    ensures var s, e := Compiled(Events(nodes, top), chips, primes, initial), Events(nodes, top)[k];
      && IdOf(e) in s.plan && Communicates(e.instr) && c < |Run(s, before).regs| && c < |Run(s, after).regs|
      && Stored(Run(s, before).regs[c], Run(s, after).regs[c], e.instr.dest(e.limb), s.Delivered(IdOf(e)))
  {
    hide Fit, Compiled, Events, Place, IdOf, Sends, Stored, Before, Behind, Run, Setup.Delivered, Setup.WellFormed;
    var s, events := Compiled(Events(nodes, top), chips, primes, initial), Events(nodes, top);
    SendsHere(nodes, chips, top, primes, initial, k, h, c);
    TransferInstruction(nodes, chips, top, primes, initial, k, h, c, c);
    Around(s, before, after, events, primes, c, k);
  }

  /** The sender keeps all its registers but a dead source. */
  lemma CompiledSender(nodes: seq<Node>, chips: nat, top: nat, primes: nat -> nat, initial: seq<Registers>, k: nat, h: nat, c: nat,
                       before: seq<nat>, after: seq<nat>)
    requires Fit(nodes, chips, top, primes, initial) && k < |Events(nodes, top)| && Sends(Events(nodes, top)[k], h, c)
    requires var s, events := Compiled(Events(nodes, top), chips, primes, initial), Events(nodes, top);
      Before(s, before, events, primes, h, k) && Behind(s, after, events, primes, h, k)
    ensures var s, e := Compiled(Events(nodes, top), chips, primes, initial), Events(nodes, top)[k];
      Left(Run(s, before).regs[h], Run(s, after).regs[h], e.instr.src(e.limb), e.instr.dead(h, e.limb))
  {
    hide Fit, Compiled, Events, Place, IdOf, Sends, Left, Before, Behind, Run, Setup.Delivered, Setup.WellFormed;
    var s, events := Compiled(Events(nodes, top), chips, primes, initial), Events(nodes, top);
    SendsHere(nodes, chips, top, primes, initial, k, h, c);
    TransferInstruction(nodes, chips, top, primes, initial, k, h, c, h);
    Around(s, before, after, events, primes, h, k);
  }

  // ----- local work

  /** The operations one after the other. */
  function Through(ops: seq<Registers -> Registers>, regs: Registers): Registers
  {
    if |ops| == 0 then regs else ops[|ops| - 1](Through(ops[..|ops| - 1], regs))
  }

  /** The operations that chip c performs by itself: its share of local work, or the copy of a limb that both groups
      of a receive keep on c. */
  ghost predicate Works(e: Event, c: nat, ops: seq<Registers -> Registers>)
  {
    && InGroup(e.node, c)
    && (e.instr.Plain? || (e.instr.Receive? && e.limb in e.instr.limbs && SyncIds.Holds(e.instr.from, c, e.limb) && SyncIds.Holds(e.instr.to, c, e.limb)))
    && (e.instr.Plain? ==> ops == e.instr.run(c, e.limb))
    && (e.instr.Receive? ==> ops == [e.instr.copy(e.limb)])
  }

  lemma WorksRendered(e: Event, c: nat, primes: nat -> nat, ops: seq<Registers -> Registers>)
    requires Works(e, c, ops)
    ensures |Render(e, c, primes)| == |ops| && forall j: nat :: j < |ops| ==> Render(e, c, primes)[j] == Local(ops[j])
  {
  }

  lemma {:induction false} RefThrough(s: Setup, c: nat, p: nat, ops: seq<Registers -> Registers>)
    requires s.WellFormed() && c < |s.prog| && p + |ops| <= |s.prog[c]|
    requires forall j: nat :: j < |ops| ==> s.prog[c][p + j] == Local(ops[j])
    ensures s.Ref(c, p + |ops|) == Through(ops, s.Ref(c, p))
    decreases |ops|
  {
    hide Setup.WellFormed, Setup.Ref;
    if |ops| > 0 {
      RefThrough(s, c, p, ops[..|ops| - 1]);
      RefStep(s, c, p + |ops| - 1);
      assert s.prog[c][p + (|ops| - 1)] == Local(ops[|ops| - 1]);
    }
  }

  /** Local work applies its operations, in order, to the registers of the chip. */
  lemma CompiledWork(nodes: seq<Node>, chips: nat, top: nat, primes: nat -> nat, initial: seq<Registers>, k: nat, c: nat,
                     ops: seq<Registers -> Registers>, before: seq<nat>, after: seq<nat>)
    requires Fit(nodes, chips, top, primes, initial) && k < |Events(nodes, top)| && Works(Events(nodes, top)[k], c, ops)
    requires var s, events := Compiled(Events(nodes, top), chips, primes, initial), Events(nodes, top);
      Before(s, before, events, primes, c, k) && Behind(s, after, events, primes, c, k)
    ensures var s := Compiled(Events(nodes, top), chips, primes, initial);
      && c < |Run(s, before).regs| && c < |Run(s, after).regs|
      && Run(s, after).regs[c] == Through(ops, Run(s, before).regs[c])
  {
    hide Fit, Events, Place, Works, Render, Run, Through, Setup.Ref, Setup.WellFormed, Stream, Plan;
    var s, events := Compiled(Events(nodes, top), chips, primes, initial), Events(nodes, top);
    var p := Place(events, c, primes, k);
    Section(events, c, primes, k);
    WorksRendered(events[k], c, primes, ops);
    RunRegisters(s, before, c);
    RunRegisters(s, after, c);
    forall j: nat | j < |ops|
      ensures s.prog[c][p + j] == Local(ops[j])
    {
      assert s.prog[c][p + j] == s.prog[c][p..p + |ops|][j];
    }
    RefThrough(s, c, p, ops);
  }
}

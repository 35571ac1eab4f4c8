/** What the protocol does to the registers, in terms of the registers alone: what a step stores, takes away and hands over,
    and what a meeting delivers. */
module SyncMeaning {
  import opened SyncProtocol
  import opened SyncSafety

  // ----- registers

  /** All registers but r are as before. */
  ghost predicate KeptBut(before: Registers, after: Registers, r: nat)
  {
    forall x: nat :: x != r ==> (x in after <==> x in before) && (x in before ==> after[x] == before[x])
  }

  /** Register r holds l now, and nothing else has changed. */
  ghost predicate Stored(before: Registers, after: Registers, r: nat, l: Limb)
  {
    r in after && after[r] == l && KeptBut(before, after, r)
  }

  /** A dead source is gone, a live one stays, and nothing else has changed. */
  ghost predicate Left(before: Registers, after: Registers, src: nat, dead: bool)
  {
    if dead then src !in after && KeptBut(before, after, src) else after == before
  }

  /** l is what register r holds; an empty register reads as an empty limb. */
  ghost predicate Holds(regs: Registers, r: nat, l: Limb)
  {
    (r in regs ==> l == regs[r]) && (r !in regs ==> |l| == 0)
  }

  lemma PutStores(regs: Registers, r: nat, l: Limb)
    ensures Stored(regs, Put(regs, r, l), r, l)
  {
  }

  lemma ConsumeLeaves(regs: Registers, src: nat, dead: bool)
    ensures Left(regs, Consume(regs, src, dead), src, dead)
    ensures Consume(Consume(regs, src, dead), src, dead) == Consume(regs, src, dead)
  {
  }

  lemma ReadHolds(regs: Registers, r: nat)
    ensures Holds(regs, r, Read(regs, r))
  {
  }

  // ----- sums

  /** Slot i of the limbs of the chips below n, added up; limbs that are too short count as zero. */
  function SlotTotal(offers: map<nat, Limb>, i: nat, n: nat): int
  {
    if n == 0 then 0 else SlotTotal(offers, i, n - 1) + if n - 1 in offers && i < |offers[n - 1]| then offers[n - 1][i] else 0
  }

  lemma {:induction false} SlotTotalIs(offers: map<nat, Limb>, i: nat, n: nat)
    ensures SlotTotal(offers, i, n) == SlotSum(offers, i, n)
  {
    if n > 0 {
      SlotTotalIs(offers, i, n - 1);
    }
  }

  /** k is the length of the longest limb. */
  ghost predicate Longest(offers: map<nat, Limb>, k: nat)
  {
    (forall c: nat :: c in offers ==> |offers[c]| <= k) && exists c: nat :: c in offers && |offers[c]| == k
  }

  lemma {:induction false} LongestIs(offers: map<nat, Limb>, n: nat)
    ensures forall c: nat :: c in offers && c < n ==> |offers[c]| <= LongestBelow(offers, n)
    ensures LongestBelow(offers, n) > 0 ==> exists c: nat :: c in offers && c < n && |offers[c]| == LongestBelow(offers, n)
  {
    if n > 0 {
      LongestIs(offers, n - 1);
    }
  }

  lemma IsLongest(offers: map<nat, Limb>, n: nat)
    requires |offers| >= 1 && forall c: nat :: c in offers ==> c < n
    ensures Longest(offers, LongestBelow(offers, n))
  {
    LongestIs(offers, n);
    hide LongestBelow;
    assert |offers.Keys| >= 1;
    var c: nat :| c in offers.Keys;
    assert LongestBelow(offers, n) == 0 ==> |offers[c]| == 0;
  }

  /** l is the sum of the offers modulo q, slot by slot; a single offer is handed on as it is. */
  ghost predicate IsSum(l: Limb, offers: map<nat, Limb>, q: nat, n: nat)
  {
    && q > 0 && Longest(offers, |l|)
    && (|offers| >= 2 ==> forall i: nat :: i < |l| ==> l[i] == SlotTotal(offers, i, n) % q)
    && (|offers| == 1 ==> forall i: nat :: i < |l| ==> l[i] == SlotTotal(offers, i, n))
  }

  /** The merged limb is that sum. */
  lemma MergeIsSum(offers: map<nat, Limb>, q: nat, n: nat)
    requires q > 0 && |offers| >= 1 && forall c: nat :: c in offers ==> c < n
    ensures IsSum(Merge(offers, q, n), offers, q, n)
  {
    IsLongest(offers, n);
    MergeSlots(offers, q, n, 0);
    forall i: nat
      ensures SlotTotal(offers, i, n) == SlotSum(offers, i, n)
    {
      SlotTotalIs(offers, i, n);
    }
    hide Longest, LongestBelow, SlotTotal;
    if |offers| == 1 {
      assert |offers.Keys| == 1;
      var c: nat :| c in offers.Keys;
      SingleMerge(offers, q, n, c);
    }
  }

  lemma SingleMerge(offers: map<nat, Limb>, q: nat, n: nat, c: nat)
    requires |offers| == 1 && c in offers && c < n
    ensures Merge(offers, q, n) == offers[c]
    ensures forall i: nat :: i < |offers[c]| ==> SlotSum(offers, i, n) == offers[c][i]
  {
    forall d: nat | d in offers
      ensures d == c
    {
      OnlyMember(offers, c, d);
    }
    var l := offers[c];
    var none: map<nat, Limb> := map[];
    assert offers == none[c := l];
    forall i: nat | i < |l|
      ensures SlotSum(offers, i, n) == l[i]
    {
      EmptySums(i, n);
      SlotSumAdd(none, c, l, i, n);
    }
    hide SlotSum;
  }

  /** A running sum and one more contribution, slot by slot modulo q. */
  ghost predicate AddedUp(a: Limb, b: Limb, q: nat, l: Limb)
  {
    && q > 0 && |a| <= |l| && |b| <= |l| && (|l| == |a| || |l| == |b|)
    && forall i: nat :: i < |l| ==> l[i] == ((if i < |a| then a[i] else 0) + (if i < |b| then b[i] else 0)) % q
  }

  lemma AddLimbsAdds(a: Limb, b: Limb, q: nat)
    requires q > 0
    ensures AddedUp(a, b, q, AddLimbs(a, b, q))
  {
  }

  // ----- what a meeting delivers

  /** Every offer is what its member's source register holds before its instruction. */
  ghost predicate OffersHeld(s: Setup, id: nat, offers: map<nat, Limb>)
    requires s.WellFormed() && id in s.plan
  {
    offers.Keys == s.plan[id].members.Keys && forall c: nat :: c in offers ==> OfferHeld(s, id, c, offers[c])
  }

  ghost predicate OfferHeld(s: Setup, id: nat, c: nat, l: Limb)
    requires s.WellFormed() && id in s.plan
  {
    && c in s.plan[id].members && c < |s.prog| && s.plan[id].members[c] < |s.prog[c]|
    && var p := s.plan[id].members[c];
    && (s.prog[c][p].Dis? ==> Holds(s.Ref(c, p), s.prog[c][p].src, l))
    && (s.prog[c][p].Joi? ==> Holds(s.Ref(c, p), s.prog[c][p].src, l))
  }

  lemma MemberPart(s: Setup, id: nat, c: nat)
    requires s.WellFormed() && id in s.plan && c in s.plan[id].members
    ensures c < |s.prog| && s.plan[id].members[c] < |s.prog[c]|
    ensures IsSync(s.prog[c][s.plan[id].members[c]]) && s.prog[c][s.plan[id].members[c]].id == id && s.PlaysPart(c, s.plan[id].members[c])
  {
    assert s.MeetingRight(id);
    assert s.PartsRight(c);
  }

  lemma OfferIsHeld(s: Setup, id: nat, c: nat)
    requires s.WellFormed() && id in s.plan && c in s.plan[id].members
    ensures OfferHeld(s, id, c, s.Offer(id, c))
  {
    hide Setup.WellFormed, Setup.Ref, Setup.Offer, Holds;
    MemberPart(s, id, c);
    var p := s.plan[id].members[c];
    OfferAt(s, c, p);
    match s.prog[c][p]
    case Dis(_, _, src, _) => ReadHolds(s.Ref(c, p), src);
    case Joi(_, _, _, _, src, _, _) => ReadHolds(s.Ref(c, p), src);
    case _ =>
  }

  /** A broadcast delivers what the sender's source register held. */
  lemma BroadcastDelivers(s: Setup, id: nat)
    requires s.WellFormed() && id in s.plan && !s.plan[id].join
    ensures var c := s.plan[id].lead;
      && c in s.plan[id].members && c < |s.prog| && s.plan[id].members[c] < |s.prog[c]|
      && var i := s.prog[c][s.plan[id].members[c]];
      i.Dis? && i.id == id && Holds(s.Ref(c, s.plan[id].members[c]), i.src, s.Delivered(id))
  {
    hide Setup.WellFormed, Setup.Ref, Setup.Offer, Setup.Delivered, Holds;
    BroadcastDelivered(s, id);
    MemberPart(s, id, s.plan[id].lead);
    OfferIsHeld(s, id, s.plan[id].lead);
  }

  /** A join delivers the sum of what all members' source registers held. */
  lemma JoinDelivers(s: Setup, id: nat) returns (offers: map<nat, Limb>)
    requires s.WellFormed() && id in s.plan && s.plan[id].join
    ensures OffersHeld(s, id, offers) && IsSum(s.Delivered(id), offers, s.plan[id].modulus, |s.prog|)
  {
    offers := s.Offers(id);
    MembersHere(s, id);
    OffersAre(s, id);
    SameSize(offers, s.plan[id].members);
    hide Setup.WellFormed, Setup.Offer, Setup.Offers, Setup.Ref, IsSum, Merge, OfferHeld;
    forall c: nat | c in offers
      ensures OfferHeld(s, id, c, offers[c])
    {
      OfferIsHeld(s, id, c);
    }
    MergeIsSum(offers, s.plan[id].modulus, |s.prog|);
  }

  lemma OffersAre(s: Setup, id: nat)
    requires s.WellFormed() && id in s.plan
    ensures s.Offers(id).Keys == s.plan[id].members.Keys && forall c: nat :: c in s.Offers(id) ==> s.Offers(id)[c] == s.Offer(id, c)
    ensures s.plan[id].join ==> s.Delivered(id) == Merge(s.Offers(id), s.plan[id].modulus, |s.prog|)
  {
    hide Setup.WellFormed, Setup.Offer, Merge;
  }

  lemma SameSize(a: map<nat, Limb>, b: map<nat, nat>)
    requires a.Keys == b.Keys
    ensures |a| == |b|
  {
    assert |a.Keys| == |b.Keys|;
  }

  lemma MembersHere(s: Setup, id: nat)
    requires s.WellFormed() && id in s.plan && s.plan[id].join
    ensures |s.plan[id].members| >= 1 && s.plan[id].modulus > 0 && forall c: nat :: c in s.plan[id].members ==> c < |s.prog|
  {
    assert s.MeetingRight(id);
    MemberPart(s, id, s.plan[id].lead);
    LeadIsMember(s, id);
    hide Setup.WellFormed;
  }

  // ----- one more iteration of any run

  /** Chip c is about to start on instruction p. */
  ghost predicate Stands(m: Machine, c: nat, p: nat)
  {
    c < |m.line| == |m.advance| == |m.regs| && m.advance[c] && m.line[c] == p
  }

  /** Chip c has visited its instruction p once and is not through with it. */
  ghost predicate Inside(m: Machine, c: nat, p: nat)
  {
    c < |m.line| == |m.advance| == |m.regs| && !m.advance[c] && m.line[c] == p + 1
  }

  /** The run and the run with one more iteration of chip c, whose program has an instruction p. */
  ghost predicate Extends(s: Setup, schedule: seq<nat>, c: nat, p: nat)
  {
    s.WellFormed() && Schedule(s, schedule) && Schedule(s, schedule + [c]) && c < |s.prog| && p < |s.prog[c]|
  }

  lemma {:induction false} RunFromSnoc(s: Setup, m: Machine, schedule: seq<nat>, c: nat)
    requires Inv(s, m) && Schedule(s, schedule) && Schedule(s, schedule + [c]) && c < |s.prog|
    ensures Iterate(s.prog, RunFrom(s, m, schedule), c) == Running(RunFrom(s, m, schedule + [c]))
    decreases |schedule|
  {
    hide Inv, Iterate, Shaped;
    InvShaped(s, m);
    if |schedule| == 0 {
      IterateSafe(s, m, c);
      assert (schedule + [c])[1..] == [];
    } else {
      assert (schedule + [c])[1..] == schedule[1..] + [c] && (schedule + [c])[0] == schedule[0];
      IterateSafe(s, m, schedule[0]);
      RunFromSnoc(s, Iterate(s.prog, m, schedule[0]).m, schedule[1..], c);
    }
  }

  lemma RunSnoc(s: Setup, schedule: seq<nat>, c: nat)
    requires s.WellFormed() && Schedule(s, schedule) && Schedule(s, schedule + [c]) && c < |s.prog|
    ensures Iterate(s.prog, Run(s, schedule), c) == Running(Run(s, schedule + [c]))
  {
    hide Setup.WellFormed, Iterate, RunFrom;
    InitialInv(s);
    RunFromSnoc(s, Initial(s), schedule, c);
  }

  lemma StandsStarting(s: Setup, m: Machine, c: nat, p: nat)
    requires Inv(s, m) && c < |s.prog| && p < |s.prog[c]| && Stands(m, c, p)
    ensures Starting(s, m, c, p)
  {
    hide Setup.WellFormed, ChipOk, IdOk;
    assert ChipOk(s, m, c);
  }

  lemma InsideResuming(s: Setup, m: Machine, c: nat, p: nat)
    requires Inv(s, m) && c < |s.prog| && p < |s.prog[c]| && Inside(m, c, p)
    ensures Resuming(s, m, c, p)
  {
    hide Setup.WellFormed, ChipOk, IdOk;
    assert ChipOk(s, m, c);
  }

  /** Local work applies its operation to the registers. */
  lemma LocalRuns(s: Setup, schedule: seq<nat>, c: nat, p: nat)
    requires Extends(s, schedule, c, p) && s.prog[c][p].Local? && Stands(Run(s, schedule), c, p)
    ensures var m, r := Run(s, schedule), Run(s, schedule + [c]);
      Stands(r, c, p + 1) && r.regs[c] == s.prog[c][p].op(m.regs[c])
  {
    hide Setup.WellFormed, Run, Iterate, Inv, Starting;
    var m := Run(s, schedule);
    RunSnoc(s, schedule, c);
    StandsStarting(s, m, c, p);
    StartsAt(s, m, c, p);
    InvShaped(s, m);
    FirstEffect(s.prog, m, c, p);
  }

  lemma InvShaped(s: Setup, m: Machine)
    requires Inv(s, m)
    ensures Shaped(s.prog, m)
  {
  }

  /** A broadcast puts up what the source register held; a dead source is gone, nothing else changes. */
  lemma BroadcastGives(s: Setup, schedule: seq<nat>, c: nat, p: nat)
    requires Extends(s, schedule, c, p) && s.prog[c][p].Dis? && Stands(Run(s, schedule), c, p)
    ensures var i, m, r := s.prog[c][p], Run(s, schedule), Run(s, schedule + [c]);
      && Inside(r, c, p) && Left(m.regs[c], r.regs[c], i.src, i.dead)
      && i.id !in m.disValue && i.id in r.disValue && Holds(m.regs[c], i.src, r.disValue[i.id]) && KeptBut(m.disValue, r.disValue, i.id)
  {
    hide Setup.WellFormed, Run, Iterate, Inv, Starting, Left, Holds, Read, Consume;
    var i, m := s.prog[c][p], Run(s, schedule);
    RunSnoc(s, schedule, c);
    StandsStarting(s, m, c, p);
    StartsAt(s, m, c, p);
    InvShaped(s, m);
    FirstEffect(s.prog, m, c, p);
    DisFirstSafe(s, m, c, p);
    ConsumeLeaves(m.regs[c], i.src, i.dead);
    ReadHolds(m.regs[c], i.src);
  }

  /** The second visit takes the value down if nobody else is meant to read it, and leaves the registers alone. */
  lemma BroadcastEnds(s: Setup, schedule: seq<nat>, c: nat, p: nat)
    requires Extends(s, schedule, c, p) && s.prog[c][p].Dis? && Inside(Run(s, schedule), c, p)
    ensures var i, m, r := s.prog[c][p], Run(s, schedule), Run(s, schedule + [c]);
      && Stands(r, c, p + 1) && r.regs[c] == m.regs[c]
      && Left(m.disValue, r.disValue, i.id, i.id in m.syncCount && m.syncCount[i.id] == i.count)
  {
    hide Setup.WellFormed, Setup.Ref, Run, Iterate, Inv, Resuming, Read, Consume;
    var i, m := s.prog[c][p], Run(s, schedule);
    RunSnoc(s, schedule, c);
    InsideResuming(s, m, c, p);
    ResumesAt(s, m, c, p);
    InvShaped(s, m);
    SecondEffect(s.prog, m, c, p);
    ConsumeLeaves(s.Ref(c, p), i.src, i.dead);
    MembersCounted(s, c, p);
  }

  lemma MembersCounted(s: Setup, c: nat, p: nat)
    requires s.WellFormed() && c < |s.prog| && p < |s.prog[c]| && IsSync(s.prog[c][p]) && s.PlaysPart(c, p)
    ensures s.prog[c][p].count > 0
  {
    hide Setup.WellFormed;
    assert c in s.plan[s.prog[c][p].id].members.Keys;
  }

  /** A receiver waits until the value is there, then stores it and nothing else; the value is what the sender's source
      register held. */
  lemma ReceiveStores(s: Setup, schedule: seq<nat>, c: nat, p: nat)
    requires Extends(s, schedule, c, p) && s.prog[c][p].Rcv? && Inside(Run(s, schedule), c, p)
    ensures var i, m, r := s.prog[c][p], Run(s, schedule), Run(s, schedule + [c]);
      && i.id in s.plan
      && (i.id !in m.disValue ==> r == m)
      && (i.id in m.disValue ==>
            Stands(r, c, p + 1) && m.disValue[i.id] == s.Delivered(i.id) && Stored(m.regs[c], r.regs[c], i.dest, s.Delivered(i.id)))
  {
    hide Setup.WellFormed, Setup.Ref, Setup.Delivered, Run, Iterate, Inv, Resuming, Stored, Put;
    var i, m := s.prog[c][p], Run(s, schedule);
    RunSnoc(s, schedule, c);
    InsideResuming(s, m, c, p);
    ResumesAt(s, m, c, p);
    InvShaped(s, m);
    SecondEffect(s.prog, m, c, p);
    if i.id in m.disValue {
      RcvTakeSafe(s, m, c, p);
      PutStores(m.regs[c], i.dest, m.disValue[i.id]);
    }
  }

  /** A contribution v is what the source register held. The first one becomes the running sum, later ones are added to
      it; a dead source is gone, nothing else changes. */
  lemma JoinGives(s: Setup, schedule: seq<nat>, c: nat, p: nat) returns (v: Limb)
    requires Extends(s, schedule, c, p) && s.prog[c][p].Joi? && Stands(Run(s, schedule), c, p)
    ensures var i, m, r := s.prog[c][p], Run(s, schedule), Run(s, schedule + [c]);
      && (if i.hasDest then Inside(r, c, p) else Stands(r, c, p + 1))
      && Left(m.regs[c], r.regs[c], i.src, i.dead) && Holds(m.regs[c], i.src, v)
      && i.id in r.joiValue && KeptBut(m.joiValue, r.joiValue, i.id)
      && (i.id !in m.joiValue ==> r.joiValue[i.id] == v)
      && (i.id in m.joiValue ==> AddedUp(m.joiValue[i.id], v, i.modulus, r.joiValue[i.id]))
  {
    hide Setup.WellFormed, Run, Iterate, Inv, Starting, Left, Holds, Read, Consume, AddLimbs, AddedUp;
    var i, m := s.prog[c][p], Run(s, schedule);
    RunSnoc(s, schedule, c);
    StandsStarting(s, m, c, p);
    StartsAt(s, m, c, p);
    InvShaped(s, m);
    FirstEffect(s.prog, m, c, p);
    JoiGiveSafe(s, m, c, p);
    ConsumeLeaves(m.regs[c], i.src, i.dead);
    ReadHolds(m.regs[c], i.src);
    v := Read(m.regs[c], i.src);
    if i.id in m.joiValue {
      AddLimbsAdds(m.joiValue[i.id], v, i.modulus);
    }
  }

  /** A destination waits until all have contributed, then stores the sum of all contributions and nothing else. */
  lemma JoinStores(s: Setup, schedule: seq<nat>, c: nat, p: nat)
    requires Extends(s, schedule, c, p) && s.prog[c][p].Joi? && Inside(Run(s, schedule), c, p)
    ensures var i, m, r := s.prog[c][p], Run(s, schedule), Run(s, schedule + [c]);
      && i.hasDest && i.id in s.plan
      && (!(i.id in m.syncCount && m.syncCount[i.id] == i.count) ==> r == m)
      && (i.id in m.syncCount && m.syncCount[i.id] == i.count ==>
            Stands(r, c, p + 1) && Stored(m.regs[c], r.regs[c], i.dest, s.Delivered(i.id)))
  {
    hide Setup.WellFormed, Setup.Ref, Setup.Delivered, Run, Iterate, Inv, Resuming, Stored, Put;
    var i, m := s.prog[c][p], Run(s, schedule);
    RunSnoc(s, schedule, c);
    InsideResuming(s, m, c, p);
    ResumesAt(s, m, c, p);
    InvShaped(s, m);
    SecondEffect(s.prog, m, c, p);
    MembersCounted(s, c, p);
    if CountAt(m, i.id) == i.count {
      JoiTakeSafe(s, m, c, p);
      PutStores(m.regs[c], i.dest, m.joiValue[i.id]);
    }
  }

  /** An iteration of one chip leaves the others where they are, with the registers they have. */
  lemma OtherChips(s: Setup, schedule: seq<nat>, c: nat, d: nat)
    requires s.WellFormed() && Schedule(s, schedule) && Schedule(s, schedule + [c]) && c < |s.prog| && d < |s.prog| && d != c
    ensures var m, r := Run(s, schedule), Run(s, schedule + [c]);
      && d < |m.regs| == |m.line| == |m.advance| && d < |r.regs| == |r.line| == |r.advance|
      && r.regs[d] == m.regs[d] && r.line[d] == m.line[d] && r.advance[d] == m.advance[d]
  {
    RunSnoc(s, schedule, c);
    InvShaped(s, Run(s, schedule));
    hide Setup.WellFormed, Run, Inv;
    IterateElsewhere(s.prog, Run(s, schedule), c, d);
  }

  lemma IterateElsewhere(prog: seq<seq<Instr>>, m: Machine, c: nat, d: nat)
    requires Shaped(prog, m) && c < |prog| && d < |prog| && d != c && Iterate(prog, m, c).Running?
    ensures var r := Iterate(prog, m, c).m;
      && |r.regs| == |m.regs| && |r.line| == |m.line| && |r.advance| == |m.advance|
      && r.regs[d] == m.regs[d] && r.line[d] == m.line[d] && r.advance[d] == m.advance[d]
  {
    hide Shaped, Handle;
    ShapedPlace(prog, m, c);
    var at := if m.advance[c] then m.(line := m.line[c := m.line[c] + 1]) else m;
    if !m.exited[c] && !(m.advance[c] && m.line[c] >= |prog[c]|) {
      HandleElsewhere(at, c, prog[c][at.line[c] - 1], d);
    }
  }

  lemma ShapedPlace(prog: seq<seq<Instr>>, m: Machine, c: nat)
    requires Shaped(prog, m) && c < |prog|
    ensures |m.line| == |m.advance| == |m.syncId| == |m.regs| == |m.completed| == |m.exited| == |prog|
    ensures m.line[c] <= |prog[c]| && (!m.advance[c] ==> m.line[c] > 0)
  {
  }

  lemma HandleElsewhere(m: Machine, c: nat, i: Instr, d: nat)
    requires c < |m.syncId| == |m.advance| == |m.regs| == |m.line| && d < |m.line| && d != c && Handle(m, c, i).Running?
    ensures var r := Handle(m, c, i).m;
      && |r.regs| == |m.regs| && |r.line| == |m.line| && |r.advance| == |m.advance|
      && r.regs[d] == m.regs[d] && r.line[d] == m.line[d] && r.advance[d] == m.advance[d]
  {
    hide Read, Consume, Put, AddLimbs, CountAt, HandleDis, HandleRcv, HandleJoi;
    match i
    case Local(_) =>
    case Dis(id, count, src, dead) => DisElsewhere(m, c, id, count, src, dead, d);
    case Rcv(id, count, dest) => RcvElsewhere(m, c, id, count, dest, d);
    case Joi(_, _, _, _, _, _, _) => JoiElsewhere(m, c, i, d);
  }

  lemma DisElsewhere(m: Machine, c: nat, id: nat, count: nat, src: nat, dead: bool, d: nat)
    requires c < |m.syncId| == |m.advance| == |m.regs| == |m.line| && d < |m.line| && d != c
    ensures var r := HandleDis(m, c, id, count, src, dead);
      r.Running? ==>
        && |r.m.regs| == |m.regs| && r.m.line == m.line && |r.m.advance| == |m.advance|
        && r.m.regs[d] == m.regs[d] && r.m.advance[d] == m.advance[d]
  {
    hide Read, Consume, CountAt;
  }

  lemma RcvElsewhere(m: Machine, c: nat, id: nat, count: nat, dest: nat, d: nat)
    requires c < |m.syncId| == |m.advance| == |m.regs| == |m.line| && d < |m.line| && d != c
    ensures var r := HandleRcv(m, c, id, count, dest);
      r.Running? ==>
        && |r.m.regs| == |m.regs| && r.m.line == m.line && |r.m.advance| == |m.advance|
        && r.m.regs[d] == m.regs[d] && r.m.advance[d] == m.advance[d]
  {
    hide Put, CountAt;
  }

  lemma JoiElsewhere(m: Machine, c: nat, i: Instr, d: nat)
    requires c < |m.syncId| == |m.advance| == |m.regs| == |m.line| && d < |m.line| && d != c && i.Joi?
    ensures var r := HandleJoi(m, c, i);
      r.Running? ==>
        && |r.m.regs| == |m.regs| && r.m.line == m.line && |r.m.advance| == |m.advance|
        && r.m.regs[d] == m.regs[d] && r.m.advance[d] == m.advance[d]
  {
    hide Read, Consume, Put, AddLimbs, CountAt;
  }

  // ----- an instruction from beginning to end

  /** The destination holds l, a dead source is gone unless it is the destination, and nothing else has changed. */
  ghost predicate Exchanged(before: Registers, after: Registers, src: nat, dead: bool, dest: nat, l: Limb)
  {
    && dest in after && after[dest] == l
    && forall x: nat :: x != dest ==>
      && (dead && x == src ==> x !in after)
      && (!(dead && x == src) ==> (x in after <==> x in before) && (x in after ==> after[x] == before[x]))
  }

  /** What an instruction leaves in the registers: a dead source is gone, a destination holds what was delivered. */
  ghost predicate Effect(i: Instr, before: Registers, after: Registers, l: Limb)
  {
    match i
    case Local(op) => after == op(before)
    case Dis(_, _, src, dead) => Left(before, after, src, dead)
    case Rcv(_, _, dest) => Stored(before, after, dest, l)
    case Joi(_, _, hasDest, dest, src, dead, _) =>
      if hasDest then Exchanged(before, after, src, dead, dest, l) else Left(before, after, src, dead)
  }

  lemma JoinedEffect(i: Instr, before: Registers, l: Limb)
    requires i.Joi?
    ensures Effect(i, before, if i.hasDest then Put(Consume(before, i.src, i.dead), i.dest, l) else Consume(before, i.src, i.dead), l)
  {
  }

  lemma RefMeans(s: Setup, c: nat, p: nat)
    requires s.WellFormed() && c < |s.prog| && p < |s.prog[c]|
    ensures IsSync(s.prog[c][p]) ==> s.prog[c][p].id in s.plan
    ensures Effect(s.prog[c][p], s.Ref(c, p), s.Ref(c, p + 1), if IsSync(s.prog[c][p]) then s.Delivered(s.prog[c][p].id) else [])
  {
    hide Setup.WellFormed, Setup.Ref, Setup.Delivered, Stored, Left, Put, Consume;
    RefStep(s, c, p);
    var i, before := s.prog[c][p], s.Ref(c, p);
    match i
    case Local(_) =>
    case Dis(_, _, src, dead) => ConsumeLeaves(before, src, dead);
    case Rcv(id, _, dest) => PutStores(before, dest, s.Delivered(id));
    case Joi(id, _, _, _, _, _, _) => JoinedEffect(i, before, s.Delivered(id));
  }

  /** Whatever the interleavings, the registers of a chip that stands before an instruction in one run and after it in
      another differ by the effect of the instruction, with what its meeting delivers. */
  lemma InstructionMeans(s: Setup, before: seq<nat>, after: seq<nat>, c: nat, p: nat)
    requires s.WellFormed() && Schedule(s, before) && Schedule(s, after) && c < |s.prog| && p < |s.prog[c]|
    requires Stands(Run(s, before), c, p) && Stands(Run(s, after), c, p + 1)
    ensures IsSync(s.prog[c][p]) ==> s.prog[c][p].id in s.plan
    ensures Effect(s.prog[c][p], Run(s, before).regs[c], Run(s, after).regs[c],
                   if IsSync(s.prog[c][p]) then s.Delivered(s.prog[c][p].id) else [])
  {
    hide Setup.WellFormed, Run, Setup.Ref, Setup.Delivered, Effect;
    RunRegisters(s, before, c);
    RunRegisters(s, after, c);
    RefMeans(s, c, p);
  }

  // ----- what a meeting delivers, by the registers of runs

  /** The limb that chip c brings to a meeting is what its source register holds when it stands before its instruction. */
  ghost predicate Brings(s: Setup, id: nat, c: nat, before: seq<nat>, l: Limb)
    requires s.WellFormed() && id in s.plan
  {
    && c in s.plan[id].members && c < |s.prog| && s.plan[id].members[c] < |s.prog[c]| && Schedule(s, before)
    && Stands(Run(s, before), c, s.plan[id].members[c])
    && var i := s.prog[c][s.plan[id].members[c]];
    && (i.Dis? || i.Joi?) && Holds(Run(s, before).regs[c], i.src, l)
  }

  lemma BringsOffer(s: Setup, id: nat, c: nat, before: seq<nat>, l: Limb)
    requires s.WellFormed() && id in s.plan && Brings(s, id, c, before, l)
    ensures l == s.Offer(id, c)
  {
    hide Setup.WellFormed, Setup.Ref, Setup.Offer, Run;
    RunRegisters(s, before, c);
    OfferIsHeld(s, id, c);
  }

  /** A broadcast delivers what the sender brought. */
  lemma BroadcastBrought(s: Setup, id: nat, before: seq<nat>, l: Limb)
    requires s.WellFormed() && id in s.plan && !s.plan[id].join && Brings(s, id, s.plan[id].lead, before, l)
    ensures s.Delivered(id) == l
  {
    hide Setup.WellFormed, Setup.Offer, Setup.Delivered, Brings;
    BroadcastDelivered(s, id);
    BringsOffer(s, id, s.plan[id].lead, before, l);
  }

  /** A join delivers the slotwise modular sum of what all members brought, each at a moment and in a run of its own. */
  lemma JoinBrought(s: Setup, id: nat, before: nat -> seq<nat>, offers: map<nat, Limb>)
    requires s.WellFormed() && id in s.plan && s.plan[id].join && offers.Keys == s.plan[id].members.Keys
    requires forall c: nat :: c in offers ==> Brings(s, id, c, before(c), offers[c])
    ensures IsSum(s.Delivered(id), offers, s.plan[id].modulus, |s.prog|)
  {
    hide Setup.WellFormed, Setup.Offer, Setup.Delivered, Setup.Offers, Brings, IsSum, Merge;
    forall c: nat | c in offers
      ensures offers[c] == s.Offer(id, c)
    {
      BringsOffer(s, id, c, before(c), offers[c]);
    }
    OffersAre(s, id);
    assert offers == s.Offers(id);
    MembersHere(s, id);
    SameSize(offers, s.plan[id].members);
    MergeIsSum(offers, s.plan[id].modulus, |s.prog|);
  }
}

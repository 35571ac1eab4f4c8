/** Safety of the sync protocol in every interleaving: no handler throws, every register holds what the reference says,
    nothing is erased before its last reader and nothing is left over. */
module SyncSafety {
  import opened SyncProtocol

  /** Instructions chip c has finished. */
  function Done(m: Machine, c: nat): int
    requires c < |m.line| == |m.advance|
  {
    m.line[c] as int - if m.advance[c] then 0 else 1
  }

  ghost predicate Ready(s: Setup, m: Machine)
  {
    s.WellFormed() && Shaped(s.prog, m)
  }

  /** Member c has made its contribution to meeting id. */
  ghost predicate Arrived(s: Setup, m: Machine, id: nat, c: nat)
  {
    && id in s.plan && c in s.plan[id].members && c < |m.line| == |m.advance|
    && var p := s.plan[id].members[c];
       p < Done(m, c) || (p == Done(m, c) && !m.advance[c] && (s.plan[id].join || c == s.plan[id].lead))
  }

  /** Contributions made so far. */
  ghost function Present(s: Setup, m: Machine, id: nat): map<nat, Limb>
    requires s.WellFormed() && id in s.plan
  {
    map c | c in s.plan[id].members && Arrived(s, m, id, c) :: s.Offer(id, c)
  }

  ghost predicate LeadDone(s: Setup, m: Machine, id: nat)
  {
    && id in s.plan && s.plan[id].lead in s.plan[id].members && s.plan[id].lead < |m.line| == |m.advance|
    && s.plan[id].members[s.plan[id].lead] < Done(m, s.plan[id].lead)
  }

  // ----- the invariant

  /** Registers while chip c waits in a meeting: a dead source is already gone. */
  function Waiting(i: Instr, regs: Registers): Registers
  {
    match i
    case Dis(_, _, src, dead) => Consume(regs, src, dead)
    case Joi(_, _, _, _, src, dead, _) => Consume(regs, src, dead)
    case _ => regs
  }

  ghost predicate ChipOk(s: Setup, m: Machine, c: nat)
    requires Ready(s, m) && c < |s.prog|
  {
    && (m.advance[c] ==> m.syncId[c] == 0 && m.regs[c] == s.Ref(c, m.line[c]))
    && (!m.advance[c] ==>
          var i := s.prog[c][m.line[c] - 1];
          IsSync(i) && m.syncId[c] == i.id && (i.Joi? ==> i.hasDest)
          && m.regs[c] == Waiting(i, s.Ref(c, m.line[c] - 1)))
    && (m.completed[c] ==> m.advance[c] && m.line[c] == |s.prog[c]|)
    && (m.exited[c] ==> m.completed[c])
  }

  /** The broadcast limb is there from the first visit of the sender to the last member's turn: `present` are the
      contributions so far, out of n members. */
  ghost predicate BroadcastState(present: map<nat, Limb>, n: nat, lead: nat, done: bool, offer: Limb, id: nat,
                                 dis: map<nat, Limb>, joi: map<nat, Limb>, count: nat)
  {
    && (present != map[] ==> lead in present)
    && (present == map[] ==> id !in dis && count == 0)
    && (present != map[] && (|present| < n || (n == 1 && !done)) ==> id in dis && dis[id] == offer && count == |present|)
    && (|present| == n && (n > 1 || done) ==> id !in dis && count == 0)
    && id !in joi
  }

  /** The running sum is that of the contributions made so far, until the destination takes it. */
  ghost predicate JoinState(present: map<nat, Limb>, n: nat, done: bool, q: nat, chips: nat, id: nat,
                            dis: map<nat, Limb>, joi: map<nat, Limb>, count: nat)
  {
    && (done ==> |present| == n && id !in joi && count == 0)
    && (!done && present != map[] ==> id in joi && joi[id] == Merge(present, q, chips) && count == |present|)
    && (present == map[] ==> id !in joi && count == 0)
    && id !in dis
  }

  ghost predicate IdOk(s: Setup, m: Machine, id: nat)
    requires Ready(s, m) && id in s.plan
  {
    var here := s.plan[id];
    if here.join then
      JoinState(Present(s, m, id), |here.members|, LeadDone(s, m, id), here.modulus, |s.prog|, id, m.disValue, m.joiValue, CountAt(m, id))
    else
      assert s.MeetingRight(id);
      BroadcastState(Present(s, m, id), |here.members|, here.lead, LeadDone(s, m, id), s.Offer(id, here.lead), id,
                     m.disValue, m.joiValue, CountAt(m, id))
  }

  function CompletedSet(m: Machine): set<nat>
  {
    set c: nat | c < |m.completed| && m.completed[c]
  }

  ghost predicate Inv(s: Setup, m: Machine)
  {
    && Ready(s, m)
    && (forall c: nat :: c < |s.prog| ==> ChipOk(s, m, c))
    && (forall id: nat :: id in s.plan ==> IdOk(s, m, id))
    && m.disValue.Keys <= s.plan.Keys && m.joiValue.Keys <= s.plan.Keys
    && m.completeCount == |CompletedSet(m)|
  }

  // ----- frames

  /** Only chip c has moved. */
  ghost predicate OnlyChip(m: Machine, r: Machine, c: nat)
  {
    && |r.line| == |m.line| && |r.advance| == |m.advance| && |r.syncId| == |m.syncId| && |r.regs| == |m.regs|
    && r.completed == m.completed && r.exited == m.exited && r.completeCount == m.completeCount
    && (forall d: nat :: d < |m.line| && d != c ==> r.line[d] == m.line[d])
    && (forall d: nat :: d < |m.advance| && d != c ==> r.advance[d] == m.advance[d])
    && (forall d: nat :: d < |m.syncId| && d != c ==> r.syncId[d] == m.syncId[d])
    && (forall d: nat :: d < |m.regs| && d != c ==> r.regs[d] == m.regs[d])
  }

  ghost predicate SameEntries(m: Machine, r: Machine, id: nat)
  {
    && (id in r.disValue <==> id in m.disValue) && (id in r.disValue ==> r.disValue[id] == m.disValue[id])
    && (id in r.joiValue <==> id in m.joiValue) && (id in r.joiValue ==> r.joiValue[id] == m.joiValue[id])
    && CountAt(r, id) == CountAt(m, id)
  }

  /** Chip c has visited or finished its instruction p, or both. */
  ghost predicate Moved(s: Setup, m: Machine, r: Machine, c: nat, p: nat)
  {
    && Ready(s, m) && Ready(s, r) && c < |s.prog| && p < |s.prog[c]| && OnlyChip(m, r, c) && Done(m, c) == p
    && (if r.advance[c] then r.line[c] == p + 1 else r.line[c] == p + 1 && m.advance[c])
  }

  lemma ArrivedElsewhere(s: Setup, m: Machine, r: Machine, c: nat, p: nat, id: nat, d: nat)
    requires Moved(s, m, r, c, p) && id in s.plan && d in s.plan[id].members
    requires d == c ==> s.plan[id].members[c] != p
    ensures Arrived(s, r, id, d) <==> Arrived(s, m, id, d)
    ensures d == s.plan[id].lead ==> (LeadDone(s, r, id) <==> LeadDone(s, m, id))
  {
    hide Setup.WellFormed, Setup.MeetingRight, Shaped;
    MemberBelow(s, id, d);
    MovedShape(s, m, r, c, p);
  }

  lemma MemberBelow(s: Setup, id: nat, d: nat)
    requires s.WellFormed() && id in s.plan && d in s.plan[id].members
    ensures d < |s.prog|
  {
    assert s.MeetingRight(id);
  }

  lemma MovedShape(s: Setup, m: Machine, r: Machine, c: nat, p: nat)
    requires Ready(s, m) && Ready(s, r)
    ensures |m.line| == |m.advance| == |r.line| == |r.advance| == |s.prog|
  {
    hide Setup.WellFormed;
  }

  /** Meetings that chip c does not attend at p see nothing of its move. */
  lemma PresentKept(s: Setup, m: Machine, r: Machine, c: nat, p: nat, id: nat)
    requires Moved(s, m, r, c, p) && id in s.plan
    requires c in s.plan[id].members ==> s.plan[id].members[c] != p
    ensures Present(s, r, id) == Present(s, m, id) && (LeadDone(s, r, id) <==> LeadDone(s, m, id))
  {
    assert s.MeetingRight(id);
    ArrivedElsewhere(s, m, r, c, p, id, s.plan[id].lead);
    forall d: nat | d in s.plan[id].members
      ensures Arrived(s, r, id, d) <==> Arrived(s, m, id, d)
    {
      ArrivedElsewhere(s, m, r, c, p, id, d);
    }
    SamePresent(s, m, r, id);
  }

  lemma SamePresent(s: Setup, m: Machine, r: Machine, id: nat)
    requires s.WellFormed() && id in s.plan
    requires forall d: nat :: d in s.plan[id].members ==> (Arrived(s, r, id, d) <==> Arrived(s, m, id, d))
    ensures Present(s, r, id) == Present(s, m, id)
  {
    hide Arrived, Setup.Offer, Setup.WellFormed;
  }

  lemma MorePresent(s: Setup, m: Machine, r: Machine, id: nat, c: nat)
    requires s.WellFormed() && id in s.plan && c in s.plan[id].members && (Arrived(s, m, id, c) ==> Arrived(s, r, id, c))
    requires forall d: nat :: d in s.plan[id].members && d != c ==> (Arrived(s, r, id, d) <==> Arrived(s, m, id, d))
    ensures Present(s, r, id) ==
      if Arrived(s, r, id, c) then Present(s, m, id)[c := s.Offer(id, c)] else Present(s, m, id)
  {
    hide Arrived, Setup.Offer, Setup.WellFormed;
  }

  lemma IdKept(s: Setup, m: Machine, r: Machine, c: nat, p: nat, id: nat)
    requires Moved(s, m, r, c, p) && id in s.plan && IdOk(s, m, id) && SameEntries(m, r, id)
    requires c in s.plan[id].members ==> s.plan[id].members[c] != p
    ensures IdOk(s, r, id)
  {
    PresentKept(s, m, r, c, p, id);
  }

  /** Only the meeting named by an instruction takes place there. */
  lemma NotHere(s: Setup, c: nat, p: nat, id: nat)
    requires s.WellFormed() && c < |s.prog| && p < |s.prog[c]| && id in s.plan
    requires IsSync(s.prog[c][p]) ==> s.prog[c][p].id != id
    ensures c in s.plan[id].members ==> s.plan[id].members[c] != p
  {
    assert s.MeetingRight(id);
  }

  /** The rest of the invariant follows once chip c and its meeting are right. */
  lemma Reassemble(s: Setup, m: Machine, r: Machine, c: nat, p: nat)
    requires Inv(s, m) && Moved(s, m, r, c, p) && ChipOk(s, r, c)
    requires forall id: nat :: id in s.plan && (IsSync(s.prog[c][p]) ==> s.prog[c][p].id != id) ==> SameEntries(m, r, id)
    requires IsSync(s.prog[c][p]) ==> s.prog[c][p].id in s.plan && IdOk(s, r, s.prog[c][p].id)
    requires r.disValue.Keys <= s.plan.Keys && r.joiValue.Keys <= s.plan.Keys
    ensures Inv(s, r)
  {
    forall d: nat | d < |s.prog| && d != c
      ensures ChipOk(s, r, d)
    {
      ChipKept(s, m, r, c, p, d);
    }
    forall id: nat | id in s.plan && (IsSync(s.prog[c][p]) ==> s.prog[c][p].id != id)
      ensures IdOk(s, r, id)
    {
      assert IdOk(s, m, id);
      NotHere(s, c, p, id);
      IdKept(s, m, r, c, p, id);
    }
    assert CompletedSet(r) == CompletedSet(m);
    hide ChipOk, IdOk, OnlyChip, SameEntries, Setup.WellFormed, Shaped;
  }

  lemma ChipKept(s: Setup, m: Machine, r: Machine, c: nat, p: nat, d: nat)
    requires Moved(s, m, r, c, p) && d < |s.prog| && d != c && ChipOk(s, m, d)
    ensures ChipOk(s, r, d)
  {
    hide Setup.WellFormed, Setup.Ref, Waiting;
  }

  /** At its own instruction, chip c becomes present or stays so; the others do not change. */
  lemma PresentHere(s: Setup, m: Machine, r: Machine, c: nat, p: nat, id: nat)
    requires Moved(s, m, r, c, p) && id in s.plan && c in s.plan[id].members && s.plan[id].members[c] == p
    ensures Present(s, r, id) ==
      if Arrived(s, r, id, c) then Present(s, m, id)[c := s.Offer(id, c)] else Present(s, m, id)
    ensures c != s.plan[id].lead ==> (LeadDone(s, r, id) <==> LeadDone(s, m, id))
  {
    assert s.MeetingRight(id);
    if c != s.plan[id].lead {
      ArrivedElsewhere(s, m, r, c, p, id, s.plan[id].lead);
    }
    assert Arrived(s, m, id, c) ==> Arrived(s, r, id, c);
    forall d: nat | d in s.plan[id].members && d != c
      ensures Arrived(s, r, id, d) <==> Arrived(s, m, id, d)
    {
      ArrivedElsewhere(s, m, r, c, p, id, d);
    }
    MorePresent(s, m, r, id, c);
  }

  // ----- counting contributions

  lemma {:induction false} ProperSubsetSize(a: set<nat>, b: set<nat>)
    requires a <= b
    ensures |a| <= |b| && (|a| == |b| ==> a == b)
  {
    if a == {} {
    } else {
      var x :| x in a;
      ProperSubsetSize(a - {x}, b - {x});
    }
  }

  /** Somebody missing means fewer contributions than members. */
  lemma SomeoneMissing(s: Setup, m: Machine, id: nat, c: nat)
    requires s.WellFormed() && id in s.plan && c in s.plan[id].members && !Arrived(s, m, id, c)
    ensures c !in Present(s, m, id) && |Present(s, m, id)| < |s.plan[id].members|
  {
    hide Arrived, Setup.Offer, Setup.WellFormed;
    var present := Present(s, m, id);
    assert present.Keys <= s.plan[id].members.Keys;
    ProperSubsetSize(present.Keys, s.plan[id].members.Keys);
  }

  lemma CountsAgree(s: Setup, m: Machine, id: nat)
    requires s.WellFormed() && id in s.plan
    ensures |Present(s, m, id)| <= |s.plan[id].members|
    ensures |Present(s, m, id)| == |s.plan[id].members| ==> forall c: nat :: c in s.plan[id].members ==> c in Present(s, m, id)
  {
    hide Arrived, Setup.Offer, Setup.WellFormed;
    var present := Present(s, m, id);
    assert present.Keys <= s.plan[id].members.Keys;
    ProperSubsetSize(present.Keys, s.plan[id].members.Keys);
  }

  /** With everyone present the running sum is what the meeting delivers. */
  lemma AllDelivered(s: Setup, m: Machine, id: nat)
    requires s.WellFormed() && id in s.plan && s.plan[id].join && |Present(s, m, id)| == |s.plan[id].members|
    ensures Merge(Present(s, m, id), s.plan[id].modulus, |s.prog|) == s.Delivered(id)
  {
    CountsAgree(s, m, id);
    AllOffers(s, m, id);
    hide Arrived, Merge, Present, Setup.Offer, Setup.Offers, Setup.Ref;
  }

  lemma AllOffers(s: Setup, m: Machine, id: nat)
    requires s.WellFormed() && id in s.plan
    requires forall c: nat :: c in s.plan[id].members ==> c in Present(s, m, id)
    ensures Present(s, m, id) == s.Offers(id)
  {
    hide Arrived, Setup.WellFormed, Setup.Offer;
  }

  /** One more contribution. */
  lemma OneMore(present: map<nat, Limb>, c: nat, l: Limb)
    requires c !in present
    ensures present[c := l] != map[] && |present[c := l]| == |present| + 1
  {
    assert present[c := l].Keys == present.Keys + {c};
  }

  // ----- what one iteration does to chip c at instruction p

  /** Everything an iteration can change. */
  datatype Change = Change(advance: bool, syncId: nat, regs: Registers, syncCount: map<nat, nat>, disValue: map<nat, Limb>,
                           joiValue: map<nat, Limb>)

  function Moving(m: Machine, c: nat, p: nat, e: Change): Machine
    requires c < |m.line| == |m.advance| == |m.syncId| == |m.regs|
  {
    m.(line := m.line[c := p + 1], advance := m.advance[c := e.advance], syncId := m.syncId[c := e.syncId],
       regs := m.regs[c := e.regs], syncCount := e.syncCount, disValue := e.disValue, joiValue := e.joiValue)
  }

  /** Chip c is at instruction p, visited or not. */
  ghost predicate AtInstr(s: Setup, m: Machine, c: nat, p: nat)
  {
    Ready(s, m) && c < |s.prog| && p < |s.prog[c]| && Done(m, c) == p && ChipOk(s, m, c)
  }

  lemma MovingFrame(s: Setup, m: Machine, c: nat, p: nat, e: Change)
    requires AtInstr(s, m, c, p) && (e.advance || m.advance[c])
    ensures Moved(s, m, Moving(m, c, p, e), c, p)
  {
    hide Setup.WellFormed, Setup.Ref, ChipOk;
  }

  /** What the new position of chip c asks of its registers. */
  ghost predicate ChangeRight(s: Setup, c: nat, p: nat, e: Change)
    requires s.WellFormed() && c < |s.prog| && p < |s.prog[c]|
  {
    && (e.advance ==> e.syncId == 0 && e.regs == s.Ref(c, p + 1))
    && (!e.advance ==>
          var i := s.prog[c][p];
          IsSync(i) && e.syncId == i.id && (i.Joi? ==> i.hasDest) && e.regs == Waiting(i, s.Ref(c, p)))
  }

  lemma MovingChip(s: Setup, m: Machine, c: nat, p: nat, e: Change)
    requires AtInstr(s, m, c, p) && (e.advance || m.advance[c]) && ChangeRight(s, c, p, e)
    ensures Ready(s, Moving(m, c, p, e)) && ChipOk(s, Moving(m, c, p, e), c)
  {
    MovingFrame(s, m, c, p, e);
    hide Setup.WellFormed, Setup.Ref, Waiting;
  }

  /** Entries of the other meetings stay as they are. */
  ghost predicate OthersKept(s: Setup, m: Machine, e: Change, i: Instr)
  {
    && (IsSync(i) ==> i.id in s.plan)
    && (forall id: nat :: id in s.plan && (IsSync(i) ==> i.id != id) ==>
          && (id in e.disValue <==> id in m.disValue) && (id in e.disValue ==> e.disValue[id] == m.disValue[id])
          && (id in e.joiValue <==> id in m.joiValue) && (id in e.joiValue ==> e.joiValue[id] == m.joiValue[id])
          && (if id in e.syncCount then e.syncCount[id] else 0) == CountAt(m, id))
    && e.disValue.Keys <= s.plan.Keys && e.joiValue.Keys <= s.plan.Keys
  }

  lemma MovingEntries(s: Setup, m: Machine, c: nat, p: nat, e: Change, i: Instr, id: nat)
    requires c < |m.line| == |m.advance| == |m.syncId| == |m.regs| && OthersKept(s, m, e, i)
    requires id in s.plan && (IsSync(i) ==> i.id != id)
    ensures SameEntries(m, Moving(m, c, p, e), id)
  {
  }

  /** A change that suits chip c and its own meeting keeps the invariant. */
  lemma MovingSafe(s: Setup, m: Machine, c: nat, p: nat, e: Change)
    requires Inv(s, m) && AtInstr(s, m, c, p) && (e.advance || m.advance[c]) && ChangeRight(s, c, p, e)
    requires OthersKept(s, m, e, s.prog[c][p])
    requires IsSync(s.prog[c][p]) ==> Ready(s, Moving(m, c, p, e)) && IdOk(s, Moving(m, c, p, e), s.prog[c][p].id)
    ensures Inv(s, Moving(m, c, p, e))
  {
    var i, r := s.prog[c][p], Moving(m, c, p, e);
    assert i == s.prog[c][p];
    MovingFrame(s, m, c, p, e);
    MovingChip(s, m, c, p, e);
    forall id: nat | id in s.plan && (IsSync(i) ==> i.id != id)
      ensures SameEntries(m, r, id)
    {
      MovingEntries(s, m, c, p, e, i, id);
    }
    assert r.disValue == e.disValue && r.joiValue == e.joiValue;
    hide *;
    Reassemble(s, m, r, c, p);
  }

  // ----- the changes the handlers make

  function LocalChange(m: Machine, c: nat, i: Instr): Change
    requires i.Local? && c < |m.regs|
  {
    Change(true, 0, i.op(m.regs[c]), m.syncCount, m.disValue, m.joiValue)
  }

  function DisFirst(m: Machine, c: nat, i: Instr): Change
    requires i.Dis? && c < |m.regs|
  {
    Change(false, i.id, Consume(m.regs[c], i.src, i.dead), m.syncCount[i.id := CountAt(m, i.id) + 1],
           m.disValue[i.id := Read(m.regs[c], i.src)], m.joiValue)
  }

  function DisSecond(m: Machine, c: nat, i: Instr): Change
    requires i.Dis? && c < |m.regs|
  {
    var last := CountAt(m, i.id) == i.count;
    Change(true, 0, Consume(m.regs[c], i.src, i.dead),
           if last then m.syncCount - {i.id} else m.syncCount[i.id := CountAt(m, i.id)],
           if last then m.disValue - {i.id} else m.disValue, m.joiValue)
  }

  function RcvFirst(m: Machine, c: nat, i: Instr): Change
    requires i.Rcv? && c < |m.regs|
  {
    Change(false, i.id, m.regs[c], m.syncCount, m.disValue, m.joiValue)
  }

  function RcvTake(m: Machine, c: nat, i: Instr): Change
    requires i.Rcv? && c < |m.regs| && i.id in m.disValue
  {
    var last := CountAt(m, i.id) + 1 == i.count;
    Change(true, 0, Put(m.regs[c], i.dest, m.disValue[i.id]),
           if last then m.syncCount - {i.id} else m.syncCount[i.id := CountAt(m, i.id) + 1],
           if last then m.disValue - {i.id} else m.disValue, m.joiValue)
  }

  function JoiGive(m: Machine, c: nat, i: Instr): Change
    requires i.Joi? && c < |m.regs| && i.modulus > 0
  {
    var value := Read(m.regs[c], i.src);
    Change(!i.hasDest, if i.hasDest then i.id else 0, Consume(m.regs[c], i.src, i.dead),
           m.syncCount[i.id := CountAt(m, i.id) + 1], m.disValue,
           m.joiValue[i.id := if i.id in m.joiValue then AddLimbs(m.joiValue[i.id], value, i.modulus) else value])
  }

  function JoiTake(m: Machine, c: nat, i: Instr): Change
    requires i.Joi? && c < |m.regs| && i.id in m.joiValue
  {
    Change(true, 0, Put(m.regs[c], i.dest, m.joiValue[i.id]), m.syncCount - {i.id}, m.disValue, m.joiValue - {i.id})
  }

  /** First visits and local instructions, as the loop performs them. */
  lemma FirstEffect(prog: seq<seq<Instr>>, m: Machine, c: nat, p: nat)
    requires Shaped(prog, m) && c < |prog| && !m.exited[c] && m.advance[c] && m.syncId[c] == 0 && m.line[c] == p < |prog[c]|
    ensures var i := prog[c][p];
      match i
      case Local(_) => Iterate(prog, m, c) == Running(Moving(m, c, p, LocalChange(m, c, i)))
      case Dis(_, _, _, _) =>
        Iterate(prog, m, c) == if i.id in m.disValue then Thrown else Running(Moving(m, c, p, DisFirst(m, c, i)))
      case Rcv(_, _, _) => Iterate(prog, m, c) == Running(Moving(m, c, p, RcvFirst(m, c, i)))
      case Joi(_, _, _, _, _, _, q) =>
        Iterate(prog, m, c) == if q == 0 then Thrown else Running(Moving(m, c, p, JoiGive(m, c, i)))
  {
    assert m.syncId[c := 0] == m.syncId && m.advance[c := true] == m.advance && m.regs[c := m.regs[c]] == m.regs;
  }

  /** Second visits. */
  lemma SecondEffect(prog: seq<seq<Instr>>, m: Machine, c: nat, p: nat)
    requires Shaped(prog, m) && c < |prog| && !m.exited[c] && !m.advance[c] && m.line[c] == p + 1 <= |prog[c]|
    requires IsSync(prog[c][p]) && m.syncId[c] == prog[c][p].id > 0
    ensures var i := prog[c][p];
      match i
      case Local(_) => false
      case Dis(_, _, _, _) => Iterate(prog, m, c) == Running(Moving(m, c, p, DisSecond(m, c, i)))
      case Rcv(_, _, _) =>
        Iterate(prog, m, c) == Running(if i.id in m.disValue then Moving(m, c, p, RcvTake(m, c, i)) else m)
      case Joi(_, _, hasDest, _, _, _, _) =>
        if CountAt(m, i.id) == i.count && hasDest then
          Iterate(prog, m, c) == if i.id in m.joiValue then Running(Moving(m, c, p, JoiTake(m, c, i))) else Thrown
        else Iterate(prog, m, c) == Running(m)
  {
    assert m.line[c := p + 1] == m.line;
  }

  /** A thread out of instructions reports once, and leaves when all have reported. */
  lemma EndEffect(prog: seq<seq<Instr>>, m: Machine, c: nat)
    requires Shaped(prog, m) && c < |prog| && !m.exited[c] && m.advance[c] && m.line[c] == |prog[c]|
    ensures var n := if m.completed[c] then m.completeCount else m.completeCount + 1;
      Iterate(prog, m, c)
        == Running(m.(completed := m.completed[c := true], completeCount := n, exited := m.exited[c := n == |prog|]))
  {
  }

  // ----- every iteration keeps the invariant

  /** What an instruction makes of the registers in the reference. */
  lemma RefStep(s: Setup, c: nat, p: nat)
    requires s.WellFormed() && c < |s.prog| && p < |s.prog[c]|
    ensures IsSync(s.prog[c][p]) ==> s.PlaysPart(c, p)
    ensures match s.prog[c][p]
      case Local(op) => s.Ref(c, p + 1) == op(s.Ref(c, p))
      case Dis(_, _, _, _) => s.Ref(c, p + 1) == Waiting(s.prog[c][p], s.Ref(c, p))
      case Rcv(id, _, dest) => s.Ref(c, p + 1) == Put(s.Ref(c, p), dest, s.Delivered(id))
      case Joi(id, _, hasDest, dest, _, _, _) =>
        var kept := Waiting(s.prog[c][p], s.Ref(c, p));
        s.Ref(c, p + 1) == if hasDest then Put(kept, dest, s.Delivered(id)) else kept
  {
    if IsSync(s.prog[c][p]) {
      assert s.PartsRight(c) && s.PlaysPart(c, p);
    }
    hide Setup.WellFormed, Setup.Delivered;
  }

  /** What a member brings. */
  lemma OfferAt(s: Setup, c: nat, p: nat)
    requires s.WellFormed() && c < |s.prog| && p < |s.prog[c]| && IsSync(s.prog[c][p])
    ensures s.PlaysPart(c, p)
    ensures match s.prog[c][p]
      case Dis(id, _, src, _) => s.Offer(id, c) == Read(s.Ref(c, p), src)
      case Joi(id, _, _, _, src, _, _) => s.Offer(id, c) == Read(s.Ref(c, p), src)
      case _ => true
  {
    assert s.PartsRight(c) && s.PlaysPart(c, p);
    hide Setup.WellFormed, Setup.Ref;
  }

  /** Chip c starts on instruction p with the registers of the reference. */
  ghost predicate Starting(s: Setup, m: Machine, c: nat, p: nat)
  {
    Inv(s, m) && AtInstr(s, m, c, p) && m.advance[c]
  }

  ghost predicate Resuming(s: Setup, m: Machine, c: nat, p: nat)
  {
    Inv(s, m) && AtInstr(s, m, c, p) && !m.advance[c]
  }

  lemma StartsAt(s: Setup, m: Machine, c: nat, p: nat)
    requires Starting(s, m, c, p)
    ensures m.line[c] == p && m.syncId[c] == 0 && m.regs[c] == s.Ref(c, p) && !m.exited[c]
    ensures IsSync(s.prog[c][p]) ==> s.PlaysPart(c, p) && !Arrived(s, m, s.prog[c][p].id, c) && IdOk(s, m, s.prog[c][p].id)
  {
    if IsSync(s.prog[c][p]) {
      assert s.PartsRight(c) && s.PlaysPart(c, p);
      assert IdOk(s, m, s.prog[c][p].id);
    }
    hide Setup.WellFormed, Setup.Ref, IdOk;
  }

  lemma ResumesAt(s: Setup, m: Machine, c: nat, p: nat)
    requires Resuming(s, m, c, p)
    ensures m.line[c] == p + 1 && IsSync(s.prog[c][p]) && m.syncId[c] == s.prog[c][p].id > 0 && !m.exited[c]
    ensures m.regs[c] == Waiting(s.prog[c][p], s.Ref(c, p)) && (s.prog[c][p].Joi? ==> s.prog[c][p].hasDest)
    ensures s.PlaysPart(c, p) && IdOk(s, m, s.prog[c][p].id)
    ensures Arrived(s, m, s.prog[c][p].id, c) <==> !s.prog[c][p].Rcv?
    ensures c == s.plan[s.prog[c][p].id].lead ==> !LeadDone(s, m, s.prog[c][p].id)
  {
    assert s.PartsRight(c) && s.PlaysPart(c, p);
    assert IdOk(s, m, s.prog[c][p].id);
    hide Setup.WellFormed, Setup.Ref, IdOk;
  }

  /** Keeping the rest: the maps change only at the id of the instruction. */
  lemma EntriesKept(s: Setup, m: Machine, e: Change, i: Instr)
    requires s.WellFormed() && m.disValue.Keys <= s.plan.Keys && m.joiValue.Keys <= s.plan.Keys
    requires IsSync(i) ==> i.id in s.plan
    requires e.disValue == m.disValue || (IsSync(i) && (e.disValue == m.disValue - {i.id} || (i.id in e.disValue && e.disValue == m.disValue[i.id := e.disValue[i.id]])))
    requires e.joiValue == m.joiValue || (IsSync(i) && (e.joiValue == m.joiValue - {i.id} || (i.id in e.joiValue && e.joiValue == m.joiValue[i.id := e.joiValue[i.id]])))
    requires e.syncCount == m.syncCount || (IsSync(i) && (e.syncCount == m.syncCount - {i.id} || (i.id in e.syncCount && e.syncCount == m.syncCount[i.id := e.syncCount[i.id]])))
    ensures OthersKept(s, m, e, i)
  {
    hide Setup.WellFormed;
  }

  lemma LocalSafe(s: Setup, m: Machine, c: nat, p: nat)
    requires Starting(s, m, c, p) && s.prog[c][p].Local?
    ensures Inv(s, Moving(m, c, p, LocalChange(m, c, s.prog[c][p])))
  {
    StartsAt(s, m, c, p);
    RefStep(s, c, p);
    var e := LocalChange(m, c, s.prog[c][p]);
    EntriesKept(s, m, e, s.prog[c][p]);
    hide Setup.WellFormed, Setup.Ref, OthersKept, ChipOk, IdOk, Moving;
    MovingSafe(s, m, c, p, e);
  }

  /** The sender's first visit opens the broadcast. */
  lemma DisFirstSafe(s: Setup, m: Machine, c: nat, p: nat)
    requires Starting(s, m, c, p) && s.prog[c][p].Dis?
    ensures s.prog[c][p].id !in m.disValue
    ensures Inv(s, Moving(m, c, p, DisFirst(m, c, s.prog[c][p])))
  {
    hide Setup.WellFormed, Setup.Ref, ChipOk, IdOk, Moving;
    StartsAt(s, m, c, p);
    DisFirstMeeting(s, m, c, p);
    var i, e := s.prog[c][p], DisFirst(m, c, s.prog[c][p]);
    EntriesKept(s, m, e, i);
    hide OthersKept, CountAt, Read;
    MovingSafe(s, m, c, p, e);
  }

  lemma DisFirstMeeting(s: Setup, m: Machine, c: nat, p: nat)
    requires Starting(s, m, c, p) && s.prog[c][p].Dis?
    ensures s.prog[c][p].id !in m.disValue && s.prog[c][p].id in s.plan
    ensures var r := Moving(m, c, p, DisFirst(m, c, s.prog[c][p])); Ready(s, r) && IdOk(s, r, s.prog[c][p].id)
  {
    hide Setup.WellFormed, Setup.Ref, Setup.Offer, ChipOk, Present, BroadcastState, Arrived, Moved, Consume, LeadDone, IdOk;
    StartsAt(s, m, c, p);
    OfferAt(s, c, p);
    var i, e := s.prog[c][p], DisFirst(m, c, s.prog[c][p]);
    var r := Moving(m, c, p, e);
    BroadcastOk(s, m, i.id);
    MovingFrame(s, m, c, p, e);
    MovedReady(s, m, r, c, p);
    SomeoneMissing(s, m, i.id, c);
    PresentHere(s, m, r, c, p, i.id);
    FirstArrives(s, m, c, p);
    OpenBroadcast(Present(s, m, i.id), |s.plan[i.id].members|, c, LeadDone(s, m, i.id), s.Offer(i.id, c), i.id,
                  m.disValue, m.joiValue, CountAt(m, i.id), r.disValue);
    MakeBroadcastOk(s, r, i.id);
  }

  /** The first visit of a broadcast counts as having arrived, and is not yet the end of it. */
  lemma FirstArrives(s: Setup, m: Machine, c: nat, p: nat)
    requires Starting(s, m, c, p) && s.prog[c][p].Dis? && s.PlaysPart(c, p)
    requires Moved(s, m, Moving(m, c, p, DisFirst(m, c, s.prog[c][p])), c, p)
    ensures var r, id := Moving(m, c, p, DisFirst(m, c, s.prog[c][p])), s.prog[c][p].id;
      Arrived(s, r, id, c) && !LeadDone(s, r, id)
  {
    hide Setup.WellFormed, Setup.Ref, ChipOk, IdOk, Consume;
    var r, i := Moving(m, c, p, DisFirst(m, c, s.prog[c][p])), s.prog[c][p];
    assert s.plan[i.id].members[c] == p;
    assert r.line[c] == p + 1 && !r.advance[c];
    assert Done(r, c) == p;
  }

  lemma BroadcastOk(s: Setup, m: Machine, id: nat)
    requires Ready(s, m) && id in s.plan && !s.plan[id].join && IdOk(s, m, id)
    ensures s.plan[id].lead in s.plan[id].members && s.plan[id].lead < |s.prog| && s.plan[id].members[s.plan[id].lead] < |s.prog[s.plan[id].lead]|
    ensures BroadcastState(Present(s, m, id), |s.plan[id].members|, s.plan[id].lead, LeadDone(s, m, id), s.Offer(id, s.plan[id].lead), id,
                           m.disValue, m.joiValue, CountAt(m, id))
  {
    assert s.MeetingRight(id);
    hide Setup.WellFormed, BroadcastState, Present, LeadDone, CountAt, Setup.Offer;
  }

  lemma MakeBroadcastOk(s: Setup, m: Machine, id: nat)
    requires Ready(s, m) && id in s.plan && !s.plan[id].join
    requires s.plan[id].lead in s.plan[id].members && s.plan[id].lead < |s.prog| && s.plan[id].members[s.plan[id].lead] < |s.prog[s.plan[id].lead]|
    requires BroadcastState(Present(s, m, id), |s.plan[id].members|, s.plan[id].lead, LeadDone(s, m, id), s.Offer(id, s.plan[id].lead), id,
                            m.disValue, m.joiValue, CountAt(m, id))
    ensures IdOk(s, m, id)
  {
    hide Setup.WellFormed, BroadcastState, Present, LeadDone, CountAt, Setup.Offer;
  }

  lemma OpenBroadcast(present: map<nat, Limb>, n: nat, c: nat, done: bool, offer: Limb, id: nat,
                      dis: map<nat, Limb>, joi: map<nat, Limb>, count: nat, dis': map<nat, Limb>)
    requires BroadcastState(present, n, c, done, offer, id, dis, joi, count) && c !in present && |present| < n
    requires dis' == dis[id := offer]
    ensures id !in dis && BroadcastState(present[c := offer], n, c, false, offer, id, dis', joi, count + 1)
  {
    OneMore(present, c, offer);
  }

  /** The sender's second visit closes a broadcast without receivers; any other it leaves alone. */
  lemma DisSecondSafe(s: Setup, m: Machine, c: nat, p: nat)
    requires Resuming(s, m, c, p) && s.prog[c][p].Dis?
    ensures Inv(s, Moving(m, c, p, DisSecond(m, c, s.prog[c][p])))
  {
    hide Setup.WellFormed, Setup.Ref, ChipOk, IdOk, Moving;
    ResumesAt(s, m, c, p);
    RefStep(s, c, p);
    DisSecondMeeting(s, m, c, p);
    var i, e := s.prog[c][p], DisSecond(m, c, s.prog[c][p]);
    EntriesKept(s, m, e, i);
    hide OthersKept, CountAt, Read;
    MovingSafe(s, m, c, p, e);
  }

  lemma DisSecondMeeting(s: Setup, m: Machine, c: nat, p: nat)
    requires Resuming(s, m, c, p) && s.prog[c][p].Dis?
    ensures s.prog[c][p].id in s.plan
    ensures var r := Moving(m, c, p, DisSecond(m, c, s.prog[c][p])); Ready(s, r) && IdOk(s, r, s.prog[c][p].id)
  {
    hide Setup.WellFormed, Setup.Ref, Setup.Offer, ChipOk, Present, BroadcastState;
    ResumesAt(s, m, c, p);
    var i, e := s.prog[c][p], DisSecond(m, c, s.prog[c][p]);
    var r := Moving(m, c, p, e);
    MovingFrame(s, m, c, p, e);
    CountsAgree(s, m, i.id);
    PresentHere(s, m, r, c, p, i.id);
    PresentOffer(s, m, i.id, c);
    assert Arrived(s, r, i.id, c) && LeadDone(s, r, i.id);
    LeaveBroadcast(Present(s, m, i.id), |s.plan[i.id].members|, c, s.Offer(i.id, c), i.id,
                   m.disValue, m.joiValue, CountAt(m, i.id), r.disValue);
  }

  lemma PresentOffer(s: Setup, m: Machine, id: nat, c: nat)
    requires s.WellFormed() && id in s.plan && c in s.plan[id].members && Arrived(s, m, id, c)
    ensures c in Present(s, m, id) && Present(s, m, id)[c := s.Offer(id, c)] == Present(s, m, id)
  {
    hide Arrived, Setup.WellFormed, Setup.Offer;
  }

  lemma LeaveBroadcast(present: map<nat, Limb>, n: nat, c: nat, offer: Limb, id: nat,
                       dis: map<nat, Limb>, joi: map<nat, Limb>, count: nat, dis': map<nat, Limb>)
    requires BroadcastState(present, n, c, false, offer, id, dis, joi, count) && c in present && |present| <= n
    requires dis' == if count == n then dis - {id} else dis
    ensures BroadcastState(present, n, c, true, offer, id, dis', joi, if count == n then 0 else count)
  {
    assert c in present.Keys;
    assert |present| > 0;
  }

  /** A receiver's first visit changes nothing for its meeting. */
  lemma RcvFirstSafe(s: Setup, m: Machine, c: nat, p: nat)
    requires Starting(s, m, c, p) && s.prog[c][p].Rcv?
    ensures Inv(s, Moving(m, c, p, RcvFirst(m, c, s.prog[c][p])))
  {
    hide Setup.WellFormed, Setup.Ref, ChipOk, IdOk, Moving;
    StartsAt(s, m, c, p);
    RcvFirstMeeting(s, m, c, p);
    var i, e := s.prog[c][p], RcvFirst(m, c, s.prog[c][p]);
    EntriesKept(s, m, e, i);
    hide OthersKept, CountAt, Read;
    MovingSafe(s, m, c, p, e);
  }

  lemma RcvFirstMeeting(s: Setup, m: Machine, c: nat, p: nat)
    requires Starting(s, m, c, p) && s.prog[c][p].Rcv?
    ensures s.prog[c][p].id in s.plan
    ensures var r := Moving(m, c, p, RcvFirst(m, c, s.prog[c][p])); Ready(s, r) && IdOk(s, r, s.prog[c][p].id)
  {
    hide Setup.WellFormed, Setup.Ref, Setup.Offer, ChipOk, Present, BroadcastState;
    StartsAt(s, m, c, p);
    var i, e := s.prog[c][p], RcvFirst(m, c, s.prog[c][p]);
    var r := Moving(m, c, p, e);
    MovingFrame(s, m, c, p, e);
    PresentHere(s, m, r, c, p, i.id);
    assert !Arrived(s, r, i.id, c);
  }

  /** A receiver takes the broadcast limb; the last one closes the broadcast. */
  lemma RcvTakeSafe(s: Setup, m: Machine, c: nat, p: nat)
    requires Resuming(s, m, c, p) && s.prog[c][p].Rcv? && s.prog[c][p].id in m.disValue
    ensures s.prog[c][p].id in s.plan && m.disValue[s.prog[c][p].id] == s.Delivered(s.prog[c][p].id)
    ensures Inv(s, Moving(m, c, p, RcvTake(m, c, s.prog[c][p])))
  {
    hide Setup.WellFormed, Setup.Ref, ChipOk, IdOk, Moving;
    ResumesAt(s, m, c, p);
    RefStep(s, c, p);
    RcvTakeMeeting(s, m, c, p);
    var i, e := s.prog[c][p], RcvTake(m, c, s.prog[c][p]);
    EntriesKept(s, m, e, i);
    hide OthersKept, CountAt, Read;
    MovingSafe(s, m, c, p, e);
  }

  lemma RcvTakeMeeting(s: Setup, m: Machine, c: nat, p: nat)
    requires Resuming(s, m, c, p) && s.prog[c][p].Rcv? && s.prog[c][p].id in m.disValue
    ensures s.prog[c][p].id in s.plan && m.disValue[s.prog[c][p].id] == s.Delivered(s.prog[c][p].id)
    ensures var r := Moving(m, c, p, RcvTake(m, c, s.prog[c][p])); Ready(s, r) && IdOk(s, r, s.prog[c][p].id)
  {
    hide Setup.WellFormed, Setup.Ref, Setup.Offer, Setup.Delivered, ChipOk, Present, BroadcastState;
    ResumesAt(s, m, c, p);
    var i, e := s.prog[c][p], RcvTake(m, c, s.prog[c][p]);
    var r := Moving(m, c, p, e);
    MovingFrame(s, m, c, p, e);
    SomeoneMissing(s, m, i.id, c);
    BroadcastDelivered(s, i.id);
    PresentHere(s, m, r, c, p, i.id);
    assert Arrived(s, r, i.id, c);
    TakeBroadcast(Present(s, m, i.id), |s.plan[i.id].members|, s.plan[i.id].lead, LeadDone(s, m, i.id), c, s.Offer(i.id, c),
                  s.Offer(i.id, s.plan[i.id].lead), i.id, m.disValue, m.joiValue, CountAt(m, i.id), r.disValue);
  }

  lemma BroadcastDelivered(s: Setup, id: nat)
    requires s.WellFormed() && id in s.plan && !s.plan[id].join
    ensures s.plan[id].lead in s.plan[id].members && s.Delivered(id) == s.Offer(id, s.plan[id].lead)
  {
    assert s.MeetingRight(id);
    hide Setup.WellFormed, Setup.Offer;
  }

  lemma TakeBroadcast(present: map<nat, Limb>, n: nat, lead: nat, done: bool, c: nat, l: Limb, offer: Limb, id: nat,
                      dis: map<nat, Limb>, joi: map<nat, Limb>, count: nat, dis': map<nat, Limb>)
    requires BroadcastState(present, n, lead, done, offer, id, dis, joi, count)
    requires c !in present && c != lead && |present| < n && id in dis
    requires dis' == if count + 1 == n then dis - {id} else dis
    ensures dis[id] == offer
    ensures BroadcastState(present[c := l], n, lead, done, offer, id, dis', joi, if count + 1 == n then 0 else count + 1)
  {
    OneMore(present, c, l);
    assert lead in present.Keys;
    assert |present| > 0;
  }

  /** A contribution is added to the running sum; without a destination the instruction is finished. */
  lemma JoiGiveSafe(s: Setup, m: Machine, c: nat, p: nat)
    requires Starting(s, m, c, p) && s.prog[c][p].Joi?
    ensures s.prog[c][p].modulus > 0
    ensures Inv(s, Moving(m, c, p, JoiGive(m, c, s.prog[c][p])))
  {
    hide Setup.WellFormed, Setup.Ref, ChipOk, IdOk, Moving;
    StartsAt(s, m, c, p);
    RefStep(s, c, p);
    JoiGiveMeeting(s, m, c, p);
    var i, e := s.prog[c][p], JoiGive(m, c, s.prog[c][p]);
    EntriesKept(s, m, e, i);
    hide OthersKept, CountAt, Read;
    MovingSafe(s, m, c, p, e);
  }

  /** Giving to a join counts as having arrived, and the destination is not done by that. */
  lemma GiveArrives(s: Setup, m: Machine, c: nat, p: nat)
    requires Starting(s, m, c, p) && s.prog[c][p].Joi? && s.prog[c][p].modulus > 0 && s.PlaysPart(c, p)
    requires Moved(s, m, Moving(m, c, p, JoiGive(m, c, s.prog[c][p])), c, p)
    ensures var r, id := Moving(m, c, p, JoiGive(m, c, s.prog[c][p])), s.prog[c][p].id;
      Arrived(s, r, id, c) && (c == s.plan[id].lead ==> !LeadDone(s, m, id) && !LeadDone(s, r, id))
  {
    hide Setup.WellFormed, Setup.Ref, ChipOk, IdOk, AddLimbs, Consume;
    var r, i := Moving(m, c, p, JoiGive(m, c, s.prog[c][p])), s.prog[c][p];
    assert s.plan[i.id].members[c] == p;
    assert Done(m, c) == p && r.line[c] == p + 1 && r.advance[c] == !i.hasDest;
    assert Done(r, c) == if i.hasDest then p else p + 1;
  }

  lemma JoiGiveMeeting(s: Setup, m: Machine, c: nat, p: nat)
    requires Starting(s, m, c, p) && s.prog[c][p].Joi?
    ensures s.prog[c][p].id in s.plan && s.prog[c][p].modulus > 0
    ensures var r := Moving(m, c, p, JoiGive(m, c, s.prog[c][p])); Ready(s, r) && IdOk(s, r, s.prog[c][p].id)
  {
    hide Setup.WellFormed, Setup.Ref, Setup.Offer, ChipOk, Present, JoinState, Arrived, Moved, AddLimbs, Consume, LeadDone, IdOk;
    StartsAt(s, m, c, p);
    OfferAt(s, c, p);
    var i, e := s.prog[c][p], JoiGive(m, c, s.prog[c][p]);
    var r := Moving(m, c, p, e);
    JoinOk(s, m, i.id);
    MovingFrame(s, m, c, p, e);
    MovedReady(s, m, r, c, p);
    SomeoneMissing(s, m, i.id, c);
    MembersAreChips(s, m, i.id);
    PresentHere(s, m, r, c, p, i.id);
    GiveArrives(s, m, c, p);
    GiveJoin(Present(s, m, i.id), |s.plan[i.id].members|, LeadDone(s, m, i.id), i.modulus, |s.prog|, c, s.Offer(i.id, c), i.id,
             m.disValue, m.joiValue, CountAt(m, i.id), r.joiValue);
    MakeJoinOk(s, r, i.id);
  }

  lemma MovedReady(s: Setup, m: Machine, r: Machine, c: nat, p: nat)
    requires Moved(s, m, r, c, p)
    ensures Ready(s, r)
  {
    hide Ready;
  }

  lemma JoinOk(s: Setup, m: Machine, id: nat)
    requires Ready(s, m) && id in s.plan && s.plan[id].join && IdOk(s, m, id)
    ensures JoinState(Present(s, m, id), |s.plan[id].members|, LeadDone(s, m, id), s.plan[id].modulus, |s.prog|, id,
                      m.disValue, m.joiValue, CountAt(m, id))
  {
    hide Ready, JoinState, Present, LeadDone, CountAt;
  }

  lemma MakeJoinOk(s: Setup, m: Machine, id: nat)
    requires Ready(s, m) && id in s.plan && s.plan[id].join
    requires JoinState(Present(s, m, id), |s.plan[id].members|, LeadDone(s, m, id), s.plan[id].modulus, |s.prog|, id,
                       m.disValue, m.joiValue, CountAt(m, id))
    ensures IdOk(s, m, id)
  {
    hide Ready, JoinState, Present, LeadDone, CountAt;
  }

  lemma MembersAreChips(s: Setup, m: Machine, id: nat)
    requires s.WellFormed() && id in s.plan
    ensures forall d: nat :: d in Present(s, m, id) ==> d < |s.prog|
  {
    assert s.MeetingRight(id);
    hide Setup.WellFormed, Setup.Offer, Arrived;
  }

  lemma GiveJoin(present: map<nat, Limb>, n: nat, done: bool, q: nat, chips: nat, c: nat, l: Limb, id: nat,
                 dis: map<nat, Limb>, joi: map<nat, Limb>, count: nat, joi': map<nat, Limb>)
    requires JoinState(present, n, done, q, chips, id, dis, joi, count)
    requires q > 0 && c !in present && c < chips && |present| < n && forall d: nat :: d in present ==> d < chips
    requires joi' == joi[id := if id in joi then AddLimbs(joi[id], l, q) else l]
    ensures !done && JoinState(present[c := l], n, false, q, chips, id, dis, joi', count + 1)
  {
    OneMore(present, c, l);
    hide AddLimbs, Merge;
    if present == map[] {
      MergeOne(c, l, q, chips);
      assert present[c := l] == map[c := l];
    } else {
      var d: nat :| d in present;
      assert d in present.Keys;
      assert |present| > 0;
      MergeAdd(present, c, l, q, chips);
    }
  }

  /** The destination takes the sum of all contributions and clears the meeting. */
  lemma JoiTakeSafe(s: Setup, m: Machine, c: nat, p: nat)
    requires Resuming(s, m, c, p) && s.prog[c][p].Joi? && CountAt(m, s.prog[c][p].id) == s.prog[c][p].count
    ensures s.prog[c][p].id in m.joiValue && s.prog[c][p].id in s.plan
    ensures m.joiValue[s.prog[c][p].id] == s.Delivered(s.prog[c][p].id)
    ensures Inv(s, Moving(m, c, p, JoiTake(m, c, s.prog[c][p])))
  {
    hide Setup.WellFormed, Setup.Ref, ChipOk, IdOk, Moving;
    ResumesAt(s, m, c, p);
    RefStep(s, c, p);
    JoiTakeMeeting(s, m, c, p);
    var i, e := s.prog[c][p], JoiTake(m, c, s.prog[c][p]);
    EntriesKept(s, m, e, i);
    hide OthersKept, CountAt, Read;
    MovingSafe(s, m, c, p, e);
  }

  lemma JoiTakeMeeting(s: Setup, m: Machine, c: nat, p: nat)
    requires Resuming(s, m, c, p) && s.prog[c][p].Joi? && CountAt(m, s.prog[c][p].id) == s.prog[c][p].count
    ensures s.prog[c][p].id in m.joiValue && s.prog[c][p].id in s.plan
    ensures m.joiValue[s.prog[c][p].id] == s.Delivered(s.prog[c][p].id)
    ensures var r := Moving(m, c, p, JoiTake(m, c, s.prog[c][p])); Ready(s, r) && IdOk(s, r, s.prog[c][p].id)
  {
    hide Setup.WellFormed, Setup.Ref, Setup.Offer, Setup.Delivered, ChipOk, Present, JoinState;
    ResumesAt(s, m, c, p);
    var i := s.prog[c][p];
    PresentOffer(s, m, i.id, c);
    CollectJoin(Present(s, m, i.id), |s.plan[i.id].members|, i.modulus, |s.prog|, i.id, m.disValue, m.joiValue, CountAt(m, i.id), c);
    AllDelivered(s, m, i.id);
    var e := JoiTake(m, c, i);
    var r := Moving(m, c, p, e);
    MovingFrame(s, m, c, p, e);
    PresentHere(s, m, r, c, p, i.id);
    assert Arrived(s, r, i.id, c) && LeadDone(s, r, i.id);
  }

  lemma CollectJoin(present: map<nat, Limb>, n: nat, q: nat, chips: nat, id: nat,
                    dis: map<nat, Limb>, joi: map<nat, Limb>, count: nat, c: nat)
    requires JoinState(present, n, false, q, chips, id, dis, joi, count) && count == n && c in present
    ensures id in joi && joi[id] == Merge(present, q, chips) && |present| == n
    ensures JoinState(present, n, true, q, chips, id, dis, joi - {id}, 0)
  {
    hide Merge;
    assert c in present.Keys;
  }

  // ----- threads that have run out of instructions

  function Ended(m: Machine, c: nat, chips: nat): Machine
    requires c < |m.completed| == |m.exited|
  {
    var n := if m.completed[c] then m.completeCount else m.completeCount + 1;
    m.(completed := m.completed[c := true], completeCount := n, exited := m.exited[c := n == chips])
  }

  lemma EndSafe(s: Setup, m: Machine, c: nat)
    requires Inv(s, m) && c < |s.prog| && m.advance[c] && m.line[c] == |s.prog[c]| && !m.exited[c]
    ensures Inv(s, Ended(m, c, |s.prog|))
  {
    hide Setup.WellFormed, Setup.Ref, Setup.Offer, BroadcastState, JoinState, Waiting;
    var r := Ended(m, c, |s.prog|);
    forall d: nat | d < |s.prog|
      ensures ChipOk(s, r, d)
    {
      assert ChipOk(s, m, d);
    }
    forall id: nat | id in s.plan
      ensures IdOk(s, r, id)
    {
      assert IdOk(s, m, id);
      EndedMeeting(s, m, r, id);
    }
    EndedCount(m, c, |s.prog|);
  }

  lemma EndedMeeting(s: Setup, m: Machine, r: Machine, id: nat)
    requires Ready(s, m) && Ready(s, r) && id in s.plan && IdOk(s, m, id)
    requires r.line == m.line && r.advance == m.advance && r.disValue == m.disValue && r.joiValue == m.joiValue
    requires r.syncCount == m.syncCount
    ensures IdOk(s, r, id)
  {
    hide Setup.WellFormed, Setup.Offer, BroadcastState, JoinState, Arrived, LeadDone, Present;
    forall d: nat | d in s.plan[id].members
      ensures Arrived(s, r, id, d) <==> Arrived(s, m, id, d)
    {
      SamePlace(s, m, r, id, d);
    }
    SamePlace(s, m, r, id, 0);
    SamePresent(s, m, r, id);
  }

  lemma SamePlace(s: Setup, m: Machine, r: Machine, id: nat, d: nat)
    requires r.line == m.line && r.advance == m.advance
    ensures Arrived(s, r, id, d) <==> Arrived(s, m, id, d)
    ensures LeadDone(s, r, id) <==> LeadDone(s, m, id)
  {
  }

  lemma EndedCount(m: Machine, c: nat, chips: nat)
    requires c < |m.completed| == |m.exited| && m.completeCount == |CompletedSet(m)|
    ensures Ended(m, c, chips).completeCount == |CompletedSet(Ended(m, c, chips))|
  {
    var s := CompletedSet(m);
    assert CompletedSet(Ended(m, c, chips)) == s + {c};
    if c in s {
      assert s + {c} == s;
    }
  }

  // ----- whole runs

  /** No iteration of any chip ever throws, and the invariant is kept. */
  lemma IterateSafe(s: Setup, m: Machine, c: nat)
    requires Inv(s, m) && c < |s.prog|
    ensures Iterate(s.prog, m, c).Running? && Inv(s, Iterate(s.prog, m, c).m)
  {
    hide Setup.WellFormed, Setup.Ref, IdOk, Moving, Iterate, Handle, Ended;
    assert ChipOk(s, m, c);
    if m.exited[c] {
      ExitedEffect(s.prog, m, c);
    } else if m.advance[c] && m.line[c] == |s.prog[c]| {
      EndEffect(s.prog, m, c);
      EndedIs(m, c, |s.prog|);
      EndSafe(s, m, c);
    } else if m.advance[c] {
      FirstSafe(s, m, c, m.line[c]);
    } else {
      SecondSafe(s, m, c, m.line[c] - 1);
    }
  }

  lemma ExitedEffect(prog: seq<seq<Instr>>, m: Machine, c: nat)
    requires Shaped(prog, m) && c < |prog| && m.exited[c]
    ensures Iterate(prog, m, c) == Running(m)
  {
  }

  lemma EndedIs(m: Machine, c: nat, chips: nat)
    requires c < |m.completed| == |m.exited|
    ensures var n := if m.completed[c] then m.completeCount else m.completeCount + 1;
      Ended(m, c, chips) == m.(completed := m.completed[c := true], completeCount := n, exited := m.exited[c := n == chips])
  {
  }

  lemma FirstSafe(s: Setup, m: Machine, c: nat, p: nat)
    requires Starting(s, m, c, p)
    ensures Iterate(s.prog, m, c).Running? && Inv(s, Iterate(s.prog, m, c).m)
  {
    hide Setup.WellFormed, Setup.Ref, IdOk, Moving, Iterate, Handle, Inv;
    StartsAt(s, m, c, p);
    FirstEffect(s.prog, m, c, p);
    match s.prog[c][p]
    case Local(_) => LocalSafe(s, m, c, p);
    case Dis(_, _, _, _) => DisFirstSafe(s, m, c, p);
    case Rcv(_, _, _) => RcvFirstSafe(s, m, c, p);
    case Joi(_, _, _, _, _, _, _) => JoiGiveSafe(s, m, c, p);
  }

  lemma SecondSafe(s: Setup, m: Machine, c: nat, p: nat)
    requires Resuming(s, m, c, p)
    ensures Iterate(s.prog, m, c).Running? && Inv(s, Iterate(s.prog, m, c).m)
  {
    hide Setup.WellFormed, Setup.Ref, IdOk, Moving, Iterate, Handle, Inv;
    ResumesAt(s, m, c, p);
    SecondEffect(s.prog, m, c, p);
    match s.prog[c][p]
    case Local(_) =>
    case Dis(_, _, _, _) => DisSecondSafe(s, m, c, p);
    case Rcv(id, _, _) =>
      if id in m.disValue {
        RcvTakeSafe(s, m, c, p);
      }
    case Joi(id, count, _, _, _, _, _) =>
      if CountAt(m, id) == count {
        JoiTakeSafe(s, m, c, p);
      }
  }

  /** All chips before their first instruction, nothing exchanged yet. */
  function Initial(s: Setup): Machine
  {
    var n := |s.prog|;
    Machine(seq(n, c => 0), seq(n, c => true), seq(n, c => 0), s.initial, map[], map[], map[], seq(n, c => false), 0, seq(n, c => false))
  }

  lemma InitialInv(s: Setup)
    requires s.WellFormed()
    ensures Inv(s, Initial(s))
  {
    var m := Initial(s);
    assert Ready(s, m);
    forall id: nat | id in s.plan
      ensures IdOk(s, m, id)
    {
      NobodyYet(s, m, id);
    }
    assert CompletedSet(m) == {};
    hide Setup.WellFormed, IdOk;
    forall c: nat | c < |s.prog|
      ensures ChipOk(s, m, c)
    {
    }
  }

  lemma NobodyYet(s: Setup, m: Machine, id: nat)
    requires s.WellFormed() && m == Initial(s) && Ready(s, m) && id in s.plan
    ensures IdOk(s, m, id)
  {
    assert s.MeetingRight(id);
    hide Setup.WellFormed, Setup.Offer;
    assert Present(s, m, id) == map[];
    assert s.plan[id].lead in s.plan[id].members.Keys;
  }

  ghost predicate Schedule(s: Setup, schedule: seq<nat>)
  {
    forall t: nat :: t < |schedule| ==> schedule[t] < |s.prog|
  }

  /** Any interleaving: the schedule names the chip of each loop iteration. */
  ghost function RunFrom(s: Setup, m: Machine, schedule: seq<nat>): (r: Machine)
    requires Inv(s, m) && Schedule(s, schedule)
    ensures Inv(s, r)
    decreases |schedule|
  {
    if |schedule| == 0 then m
    else
      IterateSafe(s, m, schedule[0]);
      RunFrom(s, Iterate(s.prog, m, schedule[0]).m, schedule[1..])
  }

  ghost function Run(s: Setup, schedule: seq<nat>): (m: Machine)
    requires s.WellFormed() && Schedule(s, schedule)
    ensures Inv(s, m)
  {
    InitialInv(s);
    RunFrom(s, Initial(s), schedule)
  }

  // ----- what the invariant says of every run

  /** Whatever the interleaving, a chip between two instructions holds the registers of the reference; a chip that waits
      has only given up its dead source. In particular every receiver got its id's broadcast limb, and every
      destination the sum of all contributions. */
  lemma RunRegisters(s: Setup, schedule: seq<nat>, c: nat)
    requires s.WellFormed() && Schedule(s, schedule) && c < |s.prog|
    ensures var m := Run(s, schedule);
      && 0 <= Done(m, c) <= |s.prog[c]|
      && m.regs[c] == if m.advance[c] then s.Ref(c, Done(m, c)) else Waiting(s.prog[c][Done(m, c)], s.Ref(c, Done(m, c)))
  {
    var m := Run(s, schedule);
    hide Setup.WellFormed, Setup.Ref, Run, Waiting;
    assert ChipOk(s, m, c);
  }

  /** Two interleavings that finish leave the same registers. */
  lemma RunsAgree(s: Setup, schedule: seq<nat>, other: seq<nat>, c: nat)
    requires s.WellFormed() && Schedule(s, schedule) && Schedule(s, other) && c < |s.prog|
    requires Run(s, schedule).completed[c] && Run(s, other).completed[c]
    ensures Run(s, schedule).regs[c] == Run(s, other).regs[c] == s.Ref(c, |s.prog[c]|)
  {
    RunRegisters(s, schedule, c);
    RunRegisters(s, other, c);
    hide Setup.WellFormed, Setup.Ref, Run, Waiting;
    assert ChipOk(s, Run(s, schedule), c);
    assert ChipOk(s, Run(s, other), c);
  }

  /** No broadcast limb is erased while a member of its meeting still has to read it. */
  lemma NotErasedEarly(s: Setup, schedule: seq<nat>, id: nat, c: nat)
    requires s.WellFormed() && Schedule(s, schedule) && id in s.plan && !s.plan[id].join && c in s.plan[id].members
    requires Arrived(s, Run(s, schedule), id, s.plan[id].lead) && !Arrived(s, Run(s, schedule), id, c)
    ensures id in Run(s, schedule).disValue && Run(s, schedule).disValue[id] == s.Delivered(id)
  {
    var m := Run(s, schedule);
    assert IdOk(s, m, id);
    SomeoneMissing(s, m, id, c);
    BroadcastDelivered(s, id);
    PresentOffer(s, m, id, s.plan[id].lead);
    hide Setup.WellFormed, Setup.Offer, Setup.Delivered, Run, Present, Arrived;
  }

  /** When all chips have finished, no broadcast limb and no sum is left. */
  lemma NothingLeft(s: Setup, schedule: seq<nat>)
    requires s.WellFormed() && Schedule(s, schedule)
    requires forall c: nat :: c < |s.prog| ==> Run(s, schedule).completed[c]
    ensures Run(s, schedule).disValue == map[] && Run(s, schedule).joiValue == map[]
  {
    var m := Run(s, schedule);
    hide Setup.Ref, Run;
    forall id: nat | id in s.plan
      ensures id !in m.disValue && id !in m.joiValue
    {
      AllGone(s, m, id);
    }
  }

  lemma AllGone(s: Setup, m: Machine, id: nat)
    requires Inv(s, m) && id in s.plan && forall c: nat :: c < |s.prog| ==> m.completed[c]
    ensures id !in m.disValue && id !in m.joiValue
  {
    hide Setup.WellFormed, Setup.Ref, Setup.Offer, Present;
    forall c: nat | c in s.plan[id].members
      ensures Arrived(s, m, id, c) && (c == s.plan[id].lead ==> LeadDone(s, m, id))
    {
      MemberPlace(s, id, c);
      assert ChipOk(s, m, c);
    }
    EveryonePresent(s, m, id);
    LeadIsMember(s, id);
    assert IdOk(s, m, id);
  }

  lemma MemberPlace(s: Setup, id: nat, c: nat)
    requires s.WellFormed() && id in s.plan && c in s.plan[id].members
    ensures c < |s.prog| && s.plan[id].members[c] < |s.prog[c]|
    ensures IsSync(s.prog[c][s.plan[id].members[c]]) && s.prog[c][s.plan[id].members[c]].id == id
  {
    assert s.MeetingRight(id);
  }

  lemma LeadIsMember(s: Setup, id: nat)
    requires s.WellFormed() && id in s.plan
    ensures s.plan[id].lead in s.plan[id].members && |s.plan[id].members| > 0
  {
    assert s.MeetingRight(id);
    assert s.plan[id].lead in s.plan[id].members.Keys;
  }

  lemma EveryonePresent(s: Setup, m: Machine, id: nat)
    requires s.WellFormed() && id in s.plan && forall c: nat :: c in s.plan[id].members ==> Arrived(s, m, id, c)
    ensures |Present(s, m, id)| == |s.plan[id].members|
  {
    hide Setup.WellFormed, Arrived, Setup.Offer;
    assert Present(s, m, id).Keys == s.plan[id].members.Keys;
  }
}

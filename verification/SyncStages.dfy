/** When a program can finish at all: exactly when the meetings can be put into stages that rise along every chip. */
module SyncStages {
  import opened SyncProtocol
  import opened SyncSafety
  import opened SyncProgress
  import Counting

  // ----- runs of any program

  ghost function RunOn(prog: seq<seq<Instr>>, m: Machine, schedule: seq<nat>): Outcome
    decreases |schedule|
  {
    if |schedule| == 0 then Running(m)
    else if !Shaped(prog, m) || schedule[0] >= |prog| then Thrown
    else
      match Iterate(prog, m, schedule[0])
      case Thrown => Thrown
      case Running(r) => RunOn(prog, r, schedule[1..])
  }

  ghost predicate Finished(prog: seq<seq<Instr>>, m: Machine)
  {
    |m.line| == |m.advance| == |prog| && forall c: nat :: c < |prog| ==> m.line[c] == |prog[c]| && m.advance[c]
  }

  /** The schedule takes every chip to its end. */
  ghost predicate Finishes(s: Setup, schedule: seq<nat>)
  {
    RunOn(s.prog, Initial(s), schedule).Running? && Finished(s.prog, RunOn(s.prog, Initial(s), schedule).m)
  }

  // ----- what holds in every run, stages or not

  /** Everyone who serves meeting id has reached it. */
  ghost predicate ServedBy(s: Setup, m: Machine, id: nat)
  {
    id in s.plan && forall d: nat :: d in s.plan[id].members && (s.plan[id].join || d == s.plan[id].lead) ==> Reached(s, m, id, d)
  }

  ghost predicate Reached(s: Setup, m: Machine, id: nat, d: nat)
  {
    id in s.plan && d in s.plan[id].members && d < |m.line| && m.line[d] > s.plan[id].members[d]
  }

  ghost function Contributed(s: Setup, m: Machine, id: nat): set<nat>
    requires id in s.plan
  {
    set d | d in s.plan[id].members && Reached(s, m, id, d)
  }

  ghost predicate Passed(m: Machine, c: nat, p: nat)
  {
    c < |m.line| == |m.advance| && (m.line[c] > p + 1 || (m.line[c] == p + 1 && m.advance[c]))
  }

  ghost predicate ChipTidy(s: Setup, m: Machine, c: nat)
    requires Shaped(s.prog, m) && c < |s.prog|
  {
    && (m.advance[c] ==> m.syncId[c] == 0)
    && (!m.advance[c] ==> var i := s.prog[c][m.line[c] - 1]; IsSync(i) && m.syncId[c] == i.id && (i.Joi? ==> i.hasDest))
    && forall p: nat :: p < |s.prog[c]| && Passed(m, c, p) && Waits(s.prog[c][p]) ==> ServedBy(s, m, s.prog[c][p].id)
  }

  /** A limb is on offer only after its broadcast, and a counter never exceeds the contributions. */
  ghost predicate IdTidy(s: Setup, m: Machine, id: nat)
    requires id in s.plan
  {
    && (!s.plan[id].join && id in m.disValue ==> ServedBy(s, m, id))
    && (s.plan[id].join ==> CountAt(m, id) <= |Contributed(s, m, id)|)
  }

  ghost predicate Tidy(s: Setup, m: Machine)
  {
    && s.Matched() && Shaped(s.prog, m)
    && (forall c: nat :: c < |s.prog| ==> ChipTidy(s, m, c))
    && (forall id: nat :: id in s.plan ==> IdTidy(s, m, id))
  }

  lemma InitialTidy(s: Setup)
    requires s.Matched()
    ensures Tidy(s, Initial(s))
  {
    hide Setup.Matched;
    assert |Initial(s).regs| == |s.prog| by {
      MatchedInitial(s);
    }
  }

  lemma MatchedInitial(s: Setup)
    requires s.Matched()
    ensures |s.initial| == |s.prog|
  {
  }

  // ----- one iteration

  /** Lines only grow, by one, and only where a chip was free to advance. */
  ghost predicate Grows(m: Machine, r: Machine)
  {
    && |m.line| == |r.line| == |m.advance| == |r.advance|
    && forall d: nat :: d < |m.line| ==> m.line[d] <= r.line[d] && (r.line[d] > m.line[d] ==> m.advance[d] && r.line[d] == m.line[d] + 1)
  }

  lemma ReachedStays(s: Setup, m: Machine, r: Machine, id: nat)
    requires Grows(m, r) && id in s.plan
    ensures ServedBy(s, m, id) ==> ServedBy(s, r, id)
    ensures Contributed(s, m, id) <= Contributed(s, r, id) && |Contributed(s, m, id)| <= |Contributed(s, r, id)|
  {
    forall d: nat | Reached(s, m, id, d)
      ensures Reached(s, r, id, d)
    {
    }
    Counting.SubsetCount(Contributed(s, m, id), Contributed(s, r, id));
  }

  lemma MovingGrows(prog: seq<seq<Instr>>, m: Machine, c: nat, p: nat, e: Change)
    requires Shaped(prog, m) && c < |prog| && p < |prog[c]| && (if m.advance[c] then m.line[c] == p else m.line[c] == p + 1)
    ensures Grows(m, Moving(m, c, p, e)) && Shaped(prog, Moving(m, c, p, e))
  {
  }

  /** What a change must respect for chip c and for the meeting of its instruction. */
  ghost predicate ChangeTidy(s: Setup, m: Machine, r: Machine, c: nat, p: nat, e: Change)
    requires c < |s.prog| && p < |s.prog[c]|
  {
    var i := s.prog[c][p];
    && (e.advance ==> e.syncId == 0 && (Waits(i) ==> ServedBy(s, r, i.id)))
    && (!e.advance ==> IsSync(i) && e.syncId == i.id && (i.Joi? ==> i.hasDest))
    && (IsSync(i) ==> i.id in s.plan && IdTidy(s, r, i.id))
    && forall id: nat :: id in s.plan && (IsSync(i) ==> id != i.id) ==>
         (id in r.disValue ==> id in m.disValue) && CountAt(r, id) <= CountAt(m, id)
  }

  lemma MovingTidy(s: Setup, m: Machine, c: nat, p: nat, e: Change)
    requires Tidy(s, m) && c < |s.prog| && p < |s.prog[c]| && (if m.advance[c] then m.line[c] == p else m.line[c] == p + 1)
    requires ChangeTidy(s, m, Moving(m, c, p, e), c, p, e)
    ensures Tidy(s, Moving(m, c, p, e)) && Grows(m, Moving(m, c, p, e))
  {
    hide ChipTidy, IdTidy, ChangeTidy, Setup.Matched, Moving, Grows;
    var r := Moving(m, c, p, e);
    MovingGrows(s.prog, m, c, p, e);
    forall d: nat | d < |s.prog|
      ensures ChipTidy(s, r, d)
    {
      MovingChipTidy(s, m, c, p, e, d);
    }
    forall id: nat | id in s.plan
      ensures IdTidy(s, r, id)
    {
      MovingIdTidy(s, m, c, p, e, id);
    }
  }

  lemma MovingIdTidy(s: Setup, m: Machine, c: nat, p: nat, e: Change, id: nat)
    requires Shaped(s.prog, m) && c < |s.prog| && p < |s.prog[c]| && Grows(m, Moving(m, c, p, e)) && id in s.plan && IdTidy(s, m, id)
    requires ChangeTidy(s, m, Moving(m, c, p, e), c, p, e)
    ensures IdTidy(s, Moving(m, c, p, e), id)
  {
    ReachedStays(s, m, Moving(m, c, p, e), id);
    hide Grows, ServedBy, Contributed;
  }

  lemma MovingChipTidy(s: Setup, m: Machine, c: nat, p: nat, e: Change, d: nat)
    requires Shaped(s.prog, m) && c < |s.prog| && p < |s.prog[c]| && (if m.advance[c] then m.line[c] == p else m.line[c] == p + 1)
    requires Shaped(s.prog, Moving(m, c, p, e)) && Grows(m, Moving(m, c, p, e))
    requires ChangeTidy(s, m, Moving(m, c, p, e), c, p, e) && d < |s.prog| && ChipTidy(s, m, d)
    ensures ChipTidy(s, Moving(m, c, p, e), d)
  {
    var r := Moving(m, c, p, e);
    hide IdTidy;
    forall q: nat | q < |s.prog[d]| && Passed(r, d, q) && Waits(s.prog[d][q])
      ensures ServedBy(s, r, s.prog[d][q].id)
    {
      hide ServedBy;
      if d != c || q != p {
        assert Passed(m, d, q);
        ReachedStays(s, m, r, s.prog[d][q].id);
      }
    }
  }

  /** A member's instruction, by its part. */
  lemma PartOf(s: Setup, c: nat, p: nat)
    requires s.Matched() && c < |s.prog| && p < |s.prog[c]| && IsSync(s.prog[c][p])
    ensures s.PlaysPart(c, p) && s.prog[c][p].id in s.plan && s.prog[c][p].id > 0
  {
    assert s.PartsRight(c);
  }

  lemma FirstTidy(s: Setup, m: Machine, c: nat, p: nat)
    requires Tidy(s, m) && c < |s.prog| && !m.exited[c] && m.advance[c] && m.line[c] == p < |s.prog[c]|
    requires Iterate(s.prog, m, c).Running?
    ensures Tidy(s, Iterate(s.prog, m, c).m) && Grows(m, Iterate(s.prog, m, c).m)
  {
    assert ChipTidy(s, m, c);
    var i := s.prog[c][p];
    if IsSync(i) {
      PartOf(s, c, p);
      assert IdTidy(s, m, i.id);
    }
    FirstEffect(s.prog, m, c, p);
    hide Tidy, Setup.Matched, Iterate, ServedBy, Moving;
    match i
    case Local(_) =>
      LocalTidy(s, m, c, p);
      MovingTidy(s, m, c, p, LocalChange(m, c, i));
    case Dis(_, _, _, _) =>
      DisTidy(s, m, c, p);
      MovingTidy(s, m, c, p, DisFirst(m, c, i));
    case Rcv(_, _, _) =>
      RcvTidy(s, m, c, p);
      MovingTidy(s, m, c, p, RcvFirst(m, c, i));
    case Joi(_, _, _, _, _, _, _) =>
      JoiTidy(s, m, c, p);
      MovingTidy(s, m, c, p, JoiGive(m, c, i));
  }

  lemma LocalTidy(s: Setup, m: Machine, c: nat, p: nat)
    requires Shaped(s.prog, m) && c < |s.prog| && p < |s.prog[c]| && s.prog[c][p].Local?
    ensures var e := LocalChange(m, c, s.prog[c][p]); ChangeTidy(s, m, Moving(m, c, p, e), c, p, e)
  {
  }

  lemma DisTidy(s: Setup, m: Machine, c: nat, p: nat)
    requires Shaped(s.prog, m) && c < |s.prog| && p < |s.prog[c]| && s.prog[c][p].Dis? && s.PlaysPart(c, p)
    requires m.line[c] == p
    ensures var e := DisFirst(m, c, s.prog[c][p]); ChangeTidy(s, m, Moving(m, c, p, e), c, p, e)
  {
  }

  lemma RcvTidy(s: Setup, m: Machine, c: nat, p: nat)
    requires Shaped(s.prog, m) && c < |s.prog| && p < |s.prog[c]| && s.prog[c][p].Rcv? && s.PlaysPart(c, p)
    requires m.line[c] == p && m.advance[c] && IdTidy(s, m, s.prog[c][p].id)
    ensures var e := RcvFirst(m, c, s.prog[c][p]); ChangeTidy(s, m, Moving(m, c, p, e), c, p, e)
  {
    var e := RcvFirst(m, c, s.prog[c][p]);
    MovingGrows(s.prog, m, c, p, e);
    ReachedStays(s, m, Moving(m, c, p, e), s.prog[c][p].id);
  }

  lemma JoiTidy(s: Setup, m: Machine, c: nat, p: nat)
    requires Shaped(s.prog, m) && c < |s.prog| && p < |s.prog[c]| && s.prog[c][p].Joi? && s.PlaysPart(c, p)
    requires m.line[c] == p && m.advance[c] && IdTidy(s, m, s.prog[c][p].id)
    ensures var e := JoiGive(m, c, s.prog[c][p]); ChangeTidy(s, m, Moving(m, c, p, e), c, p, e)
  {
    var i, e := s.prog[c][p], JoiGive(m, c, s.prog[c][p]);
    var r := Moving(m, c, p, e);
    MovingGrows(s.prog, m, c, p, e);
    ReachedStays(s, m, r, i.id);
    assert c !in Contributed(s, m, i.id) && c in Contributed(s, r, i.id);
    Counting.SubsetCount(Contributed(s, m, i.id) + {c}, Contributed(s, r, i.id));
  }

  lemma SecondTidy(s: Setup, m: Machine, c: nat, p: nat)
    requires Tidy(s, m) && c < |s.prog| && !m.exited[c] && !m.advance[c] && m.line[c] == p + 1
    requires Iterate(s.prog, m, c).Running?
    ensures Tidy(s, Iterate(s.prog, m, c).m) && Grows(m, Iterate(s.prog, m, c).m)
  {
    assert ChipTidy(s, m, c);
    var i := s.prog[c][p];
    PartOf(s, c, p);
    assert IdTidy(s, m, i.id);
    SecondEffect(s.prog, m, c, p);
    hide Tidy, Setup.Matched, Iterate, ServedBy, Moving;
    match i
    case Local(_) =>
    case Dis(_, _, _, _) =>
      DisDone(s, m, c, p);
      MovingTidy(s, m, c, p, DisSecond(m, c, i));
    case Rcv(_, _, _) =>
      if i.id in m.disValue {
        RcvDone(s, m, c, p);
        MovingTidy(s, m, c, p, RcvTake(m, c, i));
      }
    case Joi(_, _, _, _, _, _, _) =>
      if CountAt(m, i.id) == i.count && i.id in m.joiValue {
        JoiDone(s, m, c, p);
        MovingTidy(s, m, c, p, JoiTake(m, c, i));
      }
  }

  lemma DisDone(s: Setup, m: Machine, c: nat, p: nat)
    requires Shaped(s.prog, m) && c < |s.prog| && p < |s.prog[c]| && s.prog[c][p].Dis? && s.PlaysPart(c, p)
    requires m.line[c] == p + 1 && !m.advance[c] && IdTidy(s, m, s.prog[c][p].id)
    ensures var e := DisSecond(m, c, s.prog[c][p]); ChangeTidy(s, m, Moving(m, c, p, e), c, p, e)
  {
    var e := DisSecond(m, c, s.prog[c][p]);
    MovingGrows(s.prog, m, c, p, e);
    ReachedStays(s, m, Moving(m, c, p, e), s.prog[c][p].id);
  }

  lemma RcvDone(s: Setup, m: Machine, c: nat, p: nat)
    requires Shaped(s.prog, m) && c < |s.prog| && p < |s.prog[c]| && s.prog[c][p].Rcv? && s.PlaysPart(c, p)
    requires m.line[c] == p + 1 && !m.advance[c] && IdTidy(s, m, s.prog[c][p].id) && s.prog[c][p].id in m.disValue
    ensures var e := RcvTake(m, c, s.prog[c][p]); ChangeTidy(s, m, Moving(m, c, p, e), c, p, e)
  {
    var e := RcvTake(m, c, s.prog[c][p]);
    MovingGrows(s.prog, m, c, p, e);
    ReachedStays(s, m, Moving(m, c, p, e), s.prog[c][p].id);
    hide ServedBy;
  }

  lemma JoiDone(s: Setup, m: Machine, c: nat, p: nat)
    requires Shaped(s.prog, m) && c < |s.prog| && p < |s.prog[c]| && s.prog[c][p].Joi? && s.PlaysPart(c, p)
    requires m.line[c] == p + 1 && !m.advance[c] && IdTidy(s, m, s.prog[c][p].id) && s.prog[c][p].id in m.joiValue
    requires CountAt(m, s.prog[c][p].id) == s.prog[c][p].count
    ensures var e := JoiTake(m, c, s.prog[c][p]); ChangeTidy(s, m, Moving(m, c, p, e), c, p, e)
  {
    var i, e := s.prog[c][p], JoiTake(m, c, s.prog[c][p]);
    var r := Moving(m, c, p, e);
    MovingGrows(s.prog, m, c, p, e);
    AllContributed(s, m, i.id);
    ReachedStays(s, m, r, i.id);
    hide ServedBy;
  }

  /** A full counter means that all members have contributed. */
  lemma AllContributed(s: Setup, m: Machine, id: nat)
    requires id in s.plan && |Contributed(s, m, id)| >= |s.plan[id].members|
    ensures ServedBy(s, m, id)
  {
    var all := s.plan[id].members.Keys;
    assert |all| == |s.plan[id].members|;
    assert Contributed(s, m, id) <= all;
    if Contributed(s, m, id) != all {
      ProperSubsetSize(Contributed(s, m, id), all);
    }
    assert forall d: nat :: d in all ==> d in Contributed(s, m, id);
  }

  lemma IterateTidy(s: Setup, m: Machine, c: nat)
    requires Tidy(s, m) && c < |s.prog| && Iterate(s.prog, m, c).Running?
    ensures Tidy(s, Iterate(s.prog, m, c).m) && Grows(m, Iterate(s.prog, m, c).m)
  {
    if m.exited[c] {
      ExitedEffect(s.prog, m, c);
    } else if m.advance[c] && m.line[c] == |s.prog[c]| {
      EndEffect(s.prog, m, c);
      EndTidy(s, m, Iterate(s.prog, m, c).m);
    } else if m.advance[c] {
      FirstTidy(s, m, c, m.line[c]);
    } else {
      SecondTidy(s, m, c, m.line[c] - 1);
    }
  }

  lemma EndTidy(s: Setup, m: Machine, r: Machine)
    requires Tidy(s, m) && |r.completed| == |r.exited| == |s.prog|
    requires r.line == m.line && r.advance == m.advance && r.syncId == m.syncId && r.regs == m.regs
    requires r.syncCount == m.syncCount && r.disValue == m.disValue
    ensures Tidy(s, r) && Grows(m, r)
  {
    hide Setup.Matched;
    forall id: nat | id in s.plan
      ensures IdTidy(s, r, id)
    {
      assert IdTidy(s, m, id);
      ReachedStays(s, m, r, id);
    }
    forall c: nat | c < |s.prog|
      ensures ChipTidy(s, r, c)
    {
      assert ChipTidy(s, m, c);
    }
  }

  // ----- stages from a run

  /** How many iterations pass until meeting id is served. */
  ghost function FirstServed(s: Setup, m: Machine, schedule: seq<nat>, id: nat): nat
    decreases |schedule|
  {
    if ServedBy(s, m, id) then 0
    else if |schedule| == 0 || !Shaped(s.prog, m) || schedule[0] >= |s.prog| then 1
    else
      match Iterate(s.prog, m, schedule[0])
      case Thrown => 1
      case Running(r) => 1 + FirstServed(s, r, schedule[1..], id)
  }

  /** What a chip waits for is served before it gives anything further. */
  lemma {:induction false} WaitBeforeGive(s: Setup, m: Machine, schedule: seq<nat>, c: nat, p: nat, r: nat)
    requires Tidy(s, m) && c < |s.prog| && p < r < |s.prog[c]| && Waits(s.prog[c][p]) && Gives(s.prog[c][r]) && m.line[c] <= r
    requires RunOn(s.prog, m, schedule).Running? && Finished(s.prog, RunOn(s.prog, m, schedule).m)
    ensures FirstServed(s, m, schedule, s.prog[c][p].id) < FirstServed(s, m, schedule, s.prog[c][r].id)
    decreases |schedule|
  {
    hide Iterate;
    GiverMissing(s, m, c, r);
    hide Tidy, ServedBy, Setup.Matched;
    if |schedule| == 0 {
      assert false;
    } else {
      StillTidy(s, m, schedule[0]);
      var next := Iterate(s.prog, m, schedule[0]).m;
      if !ServedBy(s, m, s.prog[c][p].id) {
        NotPassed(s, m, c, p, r);
        WaitBeforeGive(s, next, schedule[1..], c, p, r);
      }
    }
  }

  lemma StillTidy(s: Setup, m: Machine, c: nat)
    requires Tidy(s, m) && c < |s.prog|
    ensures Shaped(s.prog, m)
    ensures Iterate(s.prog, m, c).Running? ==> Tidy(s, Iterate(s.prog, m, c).m) && Grows(m, Iterate(s.prog, m, c).m)
  {
    hide Iterate;
    if Iterate(s.prog, m, c).Running? {
      IterateTidy(s, m, c);
    }
  }

  lemma GiverMissing(s: Setup, m: Machine, c: nat, r: nat)
    requires Tidy(s, m) && c < |s.prog| && r < |s.prog[c]| && Gives(s.prog[c][r]) && m.line[c] <= r
    ensures !ServedBy(s, m, s.prog[c][r].id)
  {
    PartOf(s, c, r);
    assert !Reached(s, m, s.prog[c][r].id, c);
  }

  lemma NotPassed(s: Setup, m: Machine, c: nat, p: nat, r: nat)
    requires Tidy(s, m) && c < |s.prog| && p < r < |s.prog[c]| && Waits(s.prog[c][p]) && m.line[c] <= r
    requires !ServedBy(s, m, s.prog[c][p].id)
    ensures m.advance[c] ==> m.line[c] < r
  {
    assert ChipTidy(s, m, c);
    assert !Passed(m, c, p);
  }

  ghost predicate Staged(s: Setup, stage: nat -> nat)
  {
    s.(stage := stage).WellFormed()
  }

  ghost function StageOf(s: Setup, schedule: seq<nat>): nat -> nat
  {
    (id: nat) => FirstServed(s, Initial(s), schedule, id)
  }

  /** A run that finishes yields stages. */
  lemma FinishedStaged(s: Setup, schedule: seq<nat>)
    requires s.Matched() && Finishes(s, schedule)
    ensures Staged(s, StageOf(s, schedule))
  {
    var stage := StageOf(s, schedule);
    var t := s.(stage := stage);
    InitialTidy(s);
    MatchedAnyStage(s, stage);
    hide Setup.Matched, Tidy, FirstServed, RunOn;
    forall c: nat | c < |t.prog|
      ensures t.StagesRise(c)
    {
      forall p: nat, r: nat | p < r < |t.prog[c]| && Waits(t.prog[c][p]) && Gives(t.prog[c][r])
        ensures t.stage(t.prog[c][p].id) < t.stage(t.prog[c][r].id)
      {
        WaitBeforeGive(s, Initial(s), schedule, c, p, r);
      }
    }
  }

  lemma MatchedAnyStage(s: Setup, stage: nat -> nat)
    requires s.Matched()
    ensures s.(stage := stage).Matched()
  {
    var t := s.(stage := stage);
    forall c: nat | c < |t.prog|
      ensures t.PartsRight(c)
    {
      assert s.PartsRight(c);
      forall p: nat | p < |t.prog[c]| && IsSync(t.prog[c][p])
        ensures t.PlaysPart(c, p)
      {
        assert s.PlaysPart(c, p);
      }
    }
    forall id: nat | id in t.plan
      ensures t.MeetingRight(id)
    {
      assert s.MeetingRight(id);
    }
  }

  // ----- runs from stages

  lemma {:induction false} RunOnConcat(prog: seq<seq<Instr>>, m: Machine, a: seq<nat>, b: seq<nat>)
    requires RunOn(prog, m, a).Running?
    ensures RunOn(prog, m, a + b) == RunOn(prog, RunOn(prog, m, a).m, b)
    decreases |a|
  {
    hide Iterate;
    if |a| == 0 {
      assert a + b == b;
    } else {
      assert (a + b)[0] == a[0] && (a + b)[1..] == a[1..] + b;
      RunOnConcat(prog, Iterate(prog, m, a[0]).m, a[1..], b);
    }
  }

  lemma {:induction false} RunFromRuns(s: Setup, m: Machine, schedule: seq<nat>)
    requires Inv(s, m) && Schedule(s, schedule)
    ensures RunOn(s.prog, m, schedule) == Running(RunFrom(s, m, schedule))
    decreases |schedule|
  {
    hide Iterate, Setup.WellFormed;
    if |schedule| > 0 {
      IterateSafe(s, m, schedule[0]);
      RunFromRuns(s, Iterate(s.prog, m, schedule[0]).m, schedule[1..]);
    }
  }

  /** Every chip once, n rounds. */
  function RoundRobin(chips: nat, n: nat): seq<seq<nat>>
  {
    seq(n, k => seq(chips, c requires c >= 0 => c))
  }

  function Flat(rounds: seq<seq<nat>>): seq<nat>
  {
    if |rounds| == 0 then [] else rounds[0] + Flat(rounds[1..])
  }

  lemma {:induction false} RoundsRun(s: Setup, m: Machine, rounds: seq<seq<nat>>)
    requires Inv(s, m) && forall k: nat :: k < |rounds| ==> IsRound(s, rounds[k])
    ensures RunOn(s.prog, m, Flat(rounds)) == Running(RunRounds(s, m, rounds))
    decreases |rounds|
  {
    hide Iterate, Inv, RunOn, RunFrom;
    if |rounds| == 0 {
      RunNothing(s.prog, m);
    } else {
      assert IsRound(s, rounds[0]);
      RunFromRuns(s, m, rounds[0]);
      RoundsRun(s, RunFrom(s, m, rounds[0]), rounds[1..]);
      RunOnConcat(s.prog, m, rounds[0], Flat(rounds[1..]));
    }
  }

  lemma RunNothing(prog: seq<seq<Instr>>, m: Machine)
    ensures RunOn(prog, m, []) == Running(m)
  {
  }

  /** With stages, going round often enough finishes. */
  lemma StagedFinishes(s: Setup, stage: nat -> nat)
    requires Staged(s, stage)
    ensures Finishes(s, Flat(RoundRobin(|s.prog|, Bound(s.prog, |s.prog|) + 1)))
  {
    hide Setup.WellFormed, Setup.Ref, Inv, Initial, RunRounds, RunOn, Bound, Flat, IsRound, RoundRobin;
    var t := s.(stage := stage);
    var rounds := RoundRobin(|s.prog|, Bound(s.prog, |s.prog|) + 1);
    SameInitial(s, t);
    RobinRounds(t, Bound(s.prog, |s.prog|) + 1);
    FairRunsComplete(t, rounds);
    RoundsRun(t, Initial(t), rounds);
    InvShape(t, RunRounds(t, Initial(t), rounds));
    AllAtEnd(t, RunRounds(t, Initial(t), rounds));
  }

  lemma SameInitial(s: Setup, t: Setup)
    requires t == s.(stage := t.stage)
    ensures Initial(t) == Initial(s)
  {
  }

  lemma RobinRounds(s: Setup, n: nat)
    ensures |RoundRobin(|s.prog|, n)| == n && forall k: nat :: k < n ==> IsRound(s, RoundRobin(|s.prog|, n)[k])
  {
    var rounds := RoundRobin(|s.prog|, n);
    forall k: nat | k < |rounds|
      ensures IsRound(s, rounds[k])
    {
      forall c: nat | c < |s.prog|
        ensures c in rounds[k]
      {
        assert rounds[k][c] == c;
      }
    }
  }

  lemma AllAtEnd(s: Setup, m: Machine)
    requires Inv(s, m) && |m.exited| == |s.prog| && forall c: nat :: c < |s.prog| ==> m.exited[c]
    ensures Finished(s.prog, m)
  {
    hide Setup.WellFormed, Setup.Ref, Inv;
    InvShape(s, m);
    forall c: nat | c < |s.prog|
      ensures |m.line| == |m.advance| == |s.prog| && m.line[c] == |s.prog[c]| && m.advance[c]
    {
      ExitedAtEnd(s, m, c);
    }
  }

  lemma InvShape(s: Setup, m: Machine)
    requires Inv(s, m)
    ensures |m.line| == |m.advance| == |m.exited| == |s.prog|
  {
    hide Setup.WellFormed, Setup.Ref;
  }

  lemma ExitedAtEnd(s: Setup, m: Machine, c: nat)
    requires Inv(s, m) && c < |s.prog| && c < |m.exited| && m.exited[c]
    ensures |m.line| == |m.advance| == |s.prog| && m.line[c] == |s.prog[c]| && m.advance[c]
  {
    hide Setup.WellFormed, Setup.Ref;
    assert ChipOk(s, m, c);
  }

  /** A program of matching meetings can finish if and only if its meetings have stages that rise along every chip; then
      every fair run finishes. */
  lemma FinishesIffStaged(s: Setup)
    requires s.Matched()
    ensures (exists schedule: seq<nat> :: Finishes(s, schedule)) <==> (exists stage: nat -> nat :: Staged(s, stage))
  {
    if schedule: seq<nat> :| Finishes(s, schedule) {
      FinishedStaged(s, schedule);
    }
    if stage: nat -> nat :| Staged(s, stage) {
      StagedFinishes(s, stage);
    }
  }

  /** Two chips that wait for each other: each receives the other's limb before it sends its own. */
  lemma CircleHasNoStages(s: Setup, a: nat, b: nat)
    requires s.Matched() && |s.prog| == 2
    requires s.prog[0] == [Rcv(a, 2, 0), Dis(b, 2, 0, false)] && s.prog[1] == [Rcv(b, 2, 0), Dis(a, 2, 0, false)]
    ensures forall schedule: seq<nat> :: !Finishes(s, schedule)
  {
    FinishesIffStaged(s);
    forall stage: nat -> nat
      ensures !Staged(s, stage)
    {
      var t := s.(stage := stage);
      assert Waits(t.prog[0][0]) && Gives(t.prog[0][1]) && Waits(t.prog[1][0]) && Gives(t.prog[1][1]);
      assert t.StagesRise(0) && t.StagesRise(1) ==> stage(a) < stage(b) < stage(a);
    }
  }
}

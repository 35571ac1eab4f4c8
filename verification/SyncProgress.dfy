/** Progress of the sync protocol: no reachable unfinished state is stuck, and every fair run finishes all chips. */
module SyncProgress {
  import opened SyncProtocol
  import opened SyncSafety
  import Counting

  /** What chip c has behind it: two for every instruction, one less while it waits, one each for reporting and leaving. */
  function Work(m: Machine, c: nat): int
    requires c < |m.line| == |m.advance| == |m.completed| == |m.exited|
  {
    2 * (m.line[c] as int) - (if m.advance[c] then 0 else 1) + (if m.completed[c] then 1 else 0) + (if m.exited[c] then 1 else 0)
  }

  /** Chip c can move: nobody it has to wait for is missing. */
  ghost predicate Enabled(s: Setup, m: Machine, c: nat)
    requires Inv(s, m) && c < |s.prog|
  {
    && !m.exited[c]
    && (m.advance[c] ==> m.line[c] < |s.prog[c]| || !m.completed[c] || m.completeCount == |s.prog|)
    && (!m.advance[c] ==> Served(s, m, s.prog[c][m.line[c] - 1]))
  }

  /** The others of the meeting have done their part. */
  ghost predicate Served(s: Setup, m: Machine, i: Instr)
  {
    match i
    case Local(_) => true
    case Dis(_, _, _, _) => true
    case Rcv(id, _, _) => id in s.plan && Arrived(s, m, id, s.plan[id].lead)
    case Joi(id, _, _, _, _, _, _) => id in s.plan && forall d: nat :: d in s.plan[id].members ==> Arrived(s, m, id, d)
  }

  // ----- one iteration

  /** The iteration of chip c either changes nothing, or is progress for c and leaves the progress of the others. */
  ghost predicate Advances(m: Machine, r: Machine, c: nat)
  {
    && |r.line| == |r.advance| == |r.completed| == |r.exited| == |m.line| == |m.advance| == |m.completed| == |m.exited|
    && c < |m.line|
    && (r == m || Work(r, c) > Work(m, c))
    && (forall d: nat :: d < |m.line| && d != c ==>
          r.line[d] == m.line[d] && r.advance[d] == m.advance[d] && r.completed[d] == m.completed[d] && r.exited[d] == m.exited[d])
    && r.line[c] >= m.line[c] && (m.completed[c] ==> r.completed[c]) && (m.exited[c] ==> r.exited[c])
    && (m.line[c] == r.line[c] && m.advance[c] ==> r.advance[c])
  }

  lemma MovingAdvances(m: Machine, c: nat, p: nat, e: Change)
    requires c < |m.line| == |m.advance| == |m.syncId| == |m.regs| == |m.completed| == |m.exited|
    requires (m.advance[c] && m.line[c] == p) || (!m.advance[c] && m.line[c] == p + 1 && e.advance)
    ensures Advances(m, Moving(m, c, p, e), c)
    ensures Work(Moving(m, c, p, e), c) > Work(m, c)
  {
  }

  lemma EndAdvances(m: Machine, c: nat, chips: nat)
    requires c < |m.line| == |m.advance| == |m.completed| == |m.exited| && !m.exited[c]
    ensures Advances(m, Ended(m, c, chips), c)
    ensures !m.completed[c] || m.completeCount == chips ==> Work(Ended(m, c, chips), c) > Work(m, c)
  {
    var r := Ended(m, c, chips);
    if m.completed[c] && m.completeCount != chips {
      assert r.completed == m.completed && r.exited == m.exited;
      assert r == m;
    }
  }

  /** Each iteration advances its chip or does nothing; an enabled chip advances. */
  lemma IterateAdvances(s: Setup, m: Machine, c: nat)
    requires Inv(s, m) && c < |s.prog|
    ensures Iterate(s.prog, m, c).Running? && Advances(m, Iterate(s.prog, m, c).m, c)
    ensures Enabled(s, m, c) ==> Work(Iterate(s.prog, m, c).m, c) > Work(m, c)
  {
    hide Setup.WellFormed, Setup.Ref, IdOk, Moving, Iterate, Handle, Ended, Work, Served;
    assert ChipOk(s, m, c);
    if m.exited[c] {
      ExitedEffect(s.prog, m, c);
      Unchanged(m, c);
    } else if m.advance[c] && m.line[c] == |s.prog[c]| {
      EndEffect(s.prog, m, c);
      EndedIs(m, c, |s.prog|);
      EndAdvances(m, c, |s.prog|);
    } else if m.advance[c] {
      FirstAdvances(s, m, c, m.line[c]);
    } else {
      SecondAdvances(s, m, c, m.line[c] - 1);
    }
  }

  lemma Unchanged(m: Machine, c: nat)
    requires c < |m.line| == |m.advance| == |m.completed| == |m.exited|
    ensures Advances(m, m, c)
  {
  }

  lemma FirstAdvances(s: Setup, m: Machine, c: nat, p: nat)
    requires Starting(s, m, c, p)
    ensures Iterate(s.prog, m, c).Running? && Advances(m, Iterate(s.prog, m, c).m, c)
    ensures Work(Iterate(s.prog, m, c).m, c) > Work(m, c)
  {
    hide Setup.WellFormed, Setup.Ref, IdOk, Moving, Iterate, Handle, Work, Advances;
    FirstSafe(s, m, c, p);
    StartsAt(s, m, c, p);
    FirstEffect(s.prog, m, c, p);
    var i := s.prog[c][p];
    match i
    case Local(_) => MovingAdvances(m, c, p, LocalChange(m, c, i));
    case Dis(_, _, _, _) => MovingAdvances(m, c, p, DisFirst(m, c, i));
    case Rcv(_, _, _) => MovingAdvances(m, c, p, RcvFirst(m, c, i));
    case Joi(_, _, _, _, _, _, _) => MovingAdvances(m, c, p, JoiGive(m, c, i));
  }

  lemma SecondAdvances(s: Setup, m: Machine, c: nat, p: nat)
    requires Resuming(s, m, c, p)
    ensures Iterate(s.prog, m, c).Running? && Advances(m, Iterate(s.prog, m, c).m, c)
    ensures Served(s, m, s.prog[c][p]) ==> Work(Iterate(s.prog, m, c).m, c) > Work(m, c)
  {
    hide Setup.WellFormed, Setup.Ref, IdOk, Moving, Iterate, Handle, Work, Advances;
    SecondSafe(s, m, c, p);
    ResumesAt(s, m, c, p);
    SecondEffect(s.prog, m, c, p);
    Unchanged(m, c);
    var i := s.prog[c][p];
    match i
    case Local(_) =>
    case Dis(_, _, _, _) => MovingAdvances(m, c, p, DisSecond(m, c, i));
    case Rcv(id, _, _) =>
      if id in m.disValue {
        MovingAdvances(m, c, p, RcvTake(m, c, i));
      } else if Arrived(s, m, id, s.plan[id].lead) {
        ServedReceiver(s, m, c, p);
      }
    case Joi(id, count, _, _, _, _, _) =>
      if CountAt(m, id) == count {
        MovingAdvances(m, c, p, JoiTake(m, c, i));
      } else if forall d: nat :: d in s.plan[id].members ==> Arrived(s, m, id, d) {
        ServedDestination(s, m, c, p);
      }
  }

  lemma ServedReceiver(s: Setup, m: Machine, c: nat, p: nat)
    requires Resuming(s, m, c, p) && s.prog[c][p].Rcv? && s.prog[c][p].id in s.plan
    requires Arrived(s, m, s.prog[c][p].id, s.plan[s.prog[c][p].id].lead)
    ensures s.prog[c][p].id in m.disValue
  {
    hide Setup.WellFormed, Setup.Ref, ChipOk, Present, Setup.Offer;
    ResumesAt(s, m, c, p);
    var id := s.prog[c][p].id;
    SomeoneMissing(s, m, id, c);
    PresentOffer(s, m, id, s.plan[id].lead);
  }

  lemma ServedDestination(s: Setup, m: Machine, c: nat, p: nat)
    requires Resuming(s, m, c, p) && s.prog[c][p].Joi? && s.prog[c][p].id in s.plan
    requires forall d: nat :: d in s.plan[s.prog[c][p].id].members ==> Arrived(s, m, s.prog[c][p].id, d)
    ensures CountAt(m, s.prog[c][p].id) == s.prog[c][p].count
  {
    hide Setup.WellFormed, Setup.Ref, ChipOk, Present, Setup.Offer, Merge;
    ResumesAt(s, m, c, p);
    var id := s.prog[c][p].id;
    EveryonePresent(s, m, id);
    PresentOffer(s, m, id, c);
  }

  // ----- enabled chips stay enabled

  lemma ArrivedStays(s: Setup, m: Machine, r: Machine, c: nat, id: nat, d: nat)
    requires Advances(m, r, c) && Arrived(s, m, id, d)
    ensures Arrived(s, r, id, d)
  {
  }

  lemma CountStays(m: Machine, r: Machine, c: nat, chips: nat)
    requires Advances(m, r, c) && |m.line| == chips
    requires m.completeCount == |CompletedSet(m)| == chips && r.completeCount == |CompletedSet(r)|
    ensures r.completeCount == chips
  {
    var all := Counting.Below(chips);
    assert CompletedSet(m) <= all && CompletedSet(r) <= all;
    ProperSubsetSize(CompletedSet(m), all);
    forall d: nat | d < chips
      ensures r.completed[d]
    {
      assert d in CompletedSet(m);
    }
    assert CompletedSet(r) == all;
  }

  /** The iteration of another chip does not disable chip c. */
  lemma EnabledStays(s: Setup, m: Machine, c: nat, d: nat)
    requires Inv(s, m) && c < |s.prog| && d < |s.prog| && c != d && Enabled(s, m, c)
    ensures Iterate(s.prog, m, d).Running? && Inv(s, Iterate(s.prog, m, d).m) && Enabled(s, Iterate(s.prog, m, d).m, c)
  {
    hide Setup.WellFormed, Setup.Ref, IdOk, Iterate, Arrived, ChipOk, Work;
    IterateSafe(s, m, d);
    IterateAdvances(s, m, d);
    var r := Iterate(s.prog, m, d).m;
    if m.completeCount == |s.prog| {
      CountStays(m, r, d, |s.prog|);
    }
    if !m.advance[c] {
      ServedStays(s, m, r, d, s.prog[c][m.line[c] - 1]);
    }
  }

  lemma ServedStays(s: Setup, m: Machine, r: Machine, c: nat, i: Instr)
    requires Advances(m, r, c) && Served(s, m, i)
    ensures Served(s, r, i)
  {
    hide Arrived, Advances;
    match i
    case Local(_) =>
    case Dis(_, _, _, _) =>
    case Rcv(id, _, _) => ArrivedStays(s, m, r, c, id, s.plan[id].lead);
    case Joi(id, _, _, _, _, _, _) =>
      forall d: nat | d in s.plan[id].members
        ensures Arrived(s, r, id, d)
      {
        ArrivedStays(s, m, r, c, id, d);
      }
  }

  // ----- somebody can always move

  ghost predicate IsWaiting(s: Setup, m: Machine, c: nat)
    requires Ready(s, m)
  {
    c < |s.prog| && !m.advance[c] && Waits(s.prog[c][m.line[c] - 1])
  }

  function WaitingAt(s: Setup, m: Machine, c: nat): nat
    requires c < |s.prog| && |m.line| == |s.prog| && 0 < m.line[c] <= |s.prog[c]|
  {
    var i := s.prog[c][m.line[c] - 1];
    if i.Local? then 0 else s.stage(i.id)
  }

  /** A chip below n that waits at the least stage, or none. */
  lemma {:induction false} LeastWaiting(s: Setup, m: Machine, n: nat) returns (found: bool, c: nat)
    requires Ready(s, m) && n <= |s.prog|
    ensures found ==> c < n && IsWaiting(s, m, c)
    ensures found ==> forall d: nat :: d < n && IsWaiting(s, m, d) ==> WaitingAt(s, m, c) <= WaitingAt(s, m, d)
    ensures !found ==> forall d: nat :: d < n ==> !IsWaiting(s, m, d)
  {
    hide Setup.WellFormed;
    found, c := false, 0;
    if n > 0 {
      found, c := LeastWaiting(s, m, n - 1);
      if IsWaiting(s, m, n - 1) && (!found || WaitingAt(s, m, n - 1) < WaitingAt(s, m, c)) {
        found, c := true, n - 1;
      }
    }
  }

  ghost predicate Unfinished(s: Setup, m: Machine)
    requires Ready(s, m)
  {
    exists c: nat :: c < |s.prog| && !m.exited[c]
  }

  /** Chips that have not reached their end wait for others. */
  ghost predicate OnlyWaits(s: Setup, m: Machine, d: nat)
    requires Ready(s, m)
  {
    d < |s.prog| ==> if m.advance[d] then m.line[d] == |s.prog[d]| else Waits(s.prog[d][m.line[d] - 1])
  }

  /** Nobody who serves the least waiting stage is held up: every such member has done its part. */
  lemma LeastServed(s: Setup, m: Machine, c: nat)
    requires Inv(s, m) && IsWaiting(s, m, c)
    requires forall d: nat :: d < |s.prog| && IsWaiting(s, m, d) ==> WaitingAt(s, m, c) <= WaitingAt(s, m, d)
    requires forall d: nat :: d < |s.prog| ==> OnlyWaits(s, m, d)
    ensures Served(s, m, s.prog[c][m.line[c] - 1])
  {
    hide Setup.WellFormed, Setup.Ref, IdOk, Arrived, OnlyWaits;
    var p: nat := m.line[c] - 1;
    assert ChipOk(s, m, c);
    ResumesAt(s, m, c, p);
    var id := s.prog[c][p].id;
    LeadIsMember(s, id);
    forall d: nat | d in s.plan[id].members && (s.plan[id].join || d == s.plan[id].lead)
      ensures Arrived(s, m, id, d)
    {
      MemberPlace(s, id, d);
      MemberPassed(s, m, c, p, id, d);
    }
  }

  lemma MemberPassed(s: Setup, m: Machine, c: nat, p: nat, id: nat, d: nat)
    requires Inv(s, m) && id in s.plan && d in s.plan[id].members && (s.plan[id].join || d == s.plan[id].lead)
    requires c < |s.prog| && p < |s.prog[c]| && IsSync(s.prog[c][p]) && s.prog[c][p].id == id
    requires d < |s.prog| && IsWaiting(s, m, d) ==> s.stage(id) <= WaitingAt(s, m, d)
    requires OnlyWaits(s, m, d)
    ensures Arrived(s, m, id, d)
  {
    hide Setup.Ref, IdOk, Setup.WellFormed;
    MemberPlace(s, id, d);
    assert ChipOk(s, m, d);
    var q := s.plan[id].members[d];
    if !m.advance[d] && q > m.line[d] - 1 {
      MemberGives(s, id, d);
      StagesOrdered(s, d, m.line[d] - 1, q);
    }
  }

  lemma MemberGives(s: Setup, id: nat, d: nat)
    requires s.WellFormed() && id in s.plan && d in s.plan[id].members && (s.plan[id].join || d == s.plan[id].lead)
    ensures d < |s.prog| && s.plan[id].members[d] < |s.prog[d]| && Gives(s.prog[d][s.plan[id].members[d]])
    ensures s.prog[d][s.plan[id].members[d]].id == id
  {
    assert s.MeetingRight(id);
    assert s.PartsRight(d) && s.PlaysPart(d, s.plan[id].members[d]);
  }

  lemma StagesOrdered(s: Setup, c: nat, p: nat, q: nat)
    requires s.WellFormed() && c < |s.prog| && p < q < |s.prog[c]| && Waits(s.prog[c][p]) && Gives(s.prog[c][q])
    ensures s.stage(s.prog[c][p].id) < s.stage(s.prog[c][q].id)
  {
    assert s.StagesRise(c);
  }

  lemma SenderServed(s: Setup, m: Machine, i: Instr)
    requires i.Dis?
    ensures Served(s, m, i)
  {
  }

  /** No reachable unfinished state is stuck. */
  lemma SomeoneEnabled(s: Setup, m: Machine) returns (c: nat)
    requires Inv(s, m) && Unfinished(s, m)
    ensures c < |s.prog| && Enabled(s, m, c)
  {
    hide Setup.WellFormed, Setup.Ref, IdOk, Served;
    if early: nat :| early < |s.prog| && m.advance[early] && m.line[early] < |s.prog[early]| {
      assert ChipOk(s, m, early);
      return early;
    }
    if sender: nat :| sender < |s.prog| && !m.advance[sender] && s.prog[sender][m.line[sender] - 1].Dis? {
      assert ChipOk(s, m, sender);
      SenderServed(s, m, s.prog[sender][m.line[sender] - 1]);
      return sender;
    }
    forall d: nat | d < |s.prog|
      ensures OnlyWaits(s, m, d)
    {
      assert ChipOk(s, m, d);
    }
    var found, least := LeastWaiting(s, m, |s.prog|);
    if found {
      assert ChipOk(s, m, least);
      LeastServed(s, m, least);
      return least;
    }
    forall d: nat | d < |s.prog|
      ensures m.advance[d]
    {
      assert OnlyWaits(s, m, d) && !IsWaiting(s, m, d);
    }
    if late: nat :| late < |s.prog| && !m.completed[late] {
      assert ChipOk(s, m, late);
      return late;
    }
    c :| c < |s.prog| && !m.exited[c];
    assert CompletedSet(m) == Counting.Below(|s.prog|);
  }

  // ----- fair runs

  function TotalWork(m: Machine, n: nat): int
    requires n <= |m.line| == |m.advance| == |m.completed| == |m.exited|
  {
    if n == 0 then 0 else TotalWork(m, n - 1) + Work(m, n - 1)
  }

  function Bound(prog: seq<seq<Instr>>, n: nat): nat
    requires n <= |prog|
  {
    if n == 0 then 0 else Bound(prog, n - 1) + 2 * |prog[n - 1]| + 2
  }

  lemma {:induction false} WorkBounded(s: Setup, m: Machine, n: nat)
    requires Ready(s, m) && n <= |s.prog|
    ensures 0 <= TotalWork(m, n) <= Bound(s.prog, n)
  {
    hide Setup.WellFormed;
    if n > 0 {
      WorkBounded(s, m, n - 1);
    }
  }

  lemma {:induction false} TotalGrows(m: Machine, r: Machine, n: nat, c: nat)
    requires n <= |m.line| == |m.advance| == |m.completed| == |m.exited|
    requires |r.line| == |r.advance| == |r.completed| == |r.exited| == |m.line|
    requires forall d: nat :: d < n ==> Work(r, d) >= Work(m, d)
    ensures TotalWork(r, n) >= TotalWork(m, n)
    ensures c < n && Work(r, c) > Work(m, c) ==> TotalWork(r, n) > TotalWork(m, n)
  {
    hide Work;
    if n > 0 {
      TotalGrows(m, r, n - 1, c);
    }
  }

  /** Along a run no chip loses work, and a chip that is enabled and has a turn gains some. */
  lemma {:induction false} RunGains(s: Setup, m: Machine, schedule: seq<nat>, c: nat)
    requires Inv(s, m) && Schedule(s, schedule) && c < |s.prog|
    ensures forall d: nat :: d < |s.prog| ==> Work(RunFrom(s, m, schedule), d) >= Work(m, d)
    ensures Enabled(s, m, c) && c in schedule ==> Work(RunFrom(s, m, schedule), c) > Work(m, c)
    decreases |schedule|
  {
    hide Setup.WellFormed, Setup.Ref, IdOk, ChipOk, Iterate, Enabled, Work;
    if |schedule| == 0 {
    } else {
      var first := schedule[0];
      IterateSafe(s, m, first);
      IterateAdvances(s, m, first);
      var r := Iterate(s.prog, m, first).m;
      WorkKept(m, r, first);
      RunGains(s, r, schedule[1..], c);
      if Enabled(s, m, c) && c in schedule && first != c {
        EnabledStays(s, m, c, first);
        assert c in schedule[1..];
      }
    }
  }

  lemma WorkKept(m: Machine, r: Machine, c: nat)
    requires Advances(m, r, c)
    ensures forall d: nat :: d < |m.line| ==> Work(r, d) >= Work(m, d)
  {
  }

  /** A round gives every chip at least one turn. */
  ghost predicate IsRound(s: Setup, round: seq<nat>)
  {
    Schedule(s, round) && forall c: nat :: c < |s.prog| ==> c in round
  }

  lemma RoundGains(s: Setup, m: Machine, round: seq<nat>)
    requires Inv(s, m) && IsRound(s, round) && Unfinished(s, m)
    ensures TotalWork(RunFrom(s, m, round), |s.prog|) > TotalWork(m, |s.prog|)
  {
    hide Setup.WellFormed, Setup.Ref, IdOk, ChipOk, Iterate, Enabled, Work, RunFrom;
    var c := SomeoneEnabled(s, m);
    RunGains(s, m, round, c);
    TotalGrows(m, RunFrom(s, m, round), |s.prog|, c);
  }

  ghost function RunRounds(s: Setup, m: Machine, rounds: seq<seq<nat>>): (r: Machine)
    requires Inv(s, m) && forall k: nat :: k < |rounds| ==> IsRound(s, rounds[k])
    ensures Inv(s, r)
    decreases |rounds|
  {
    if |rounds| == 0 then m
    else
      assert IsRound(s, rounds[0]);
      RunRounds(s, RunFrom(s, m, rounds[0]), rounds[1..])
  }

  lemma {:induction false} RoundsGain(s: Setup, m: Machine, rounds: seq<seq<nat>>)
    requires Inv(s, m) && forall k: nat :: k < |rounds| ==> IsRound(s, rounds[k])
    ensures !Unfinished(s, RunRounds(s, m, rounds)) || TotalWork(RunRounds(s, m, rounds), |s.prog|) >= TotalWork(m, |s.prog|) + |rounds|
    decreases |rounds|
  {
    hide Setup.WellFormed, Setup.Ref, IdOk, ChipOk, Iterate, Enabled, Work, RunFrom;
    if |rounds| == 0 {
    } else {
      var r := RunFrom(s, m, rounds[0]);
      RoundsGain(s, r, rounds[1..]);
      if Unfinished(s, m) {
        RoundGains(s, m, rounds[0]);
      } else {
        FinishedStays(s, m, rounds[0]);
        StaysFinished(s, m, rounds);
      }
    }
  }

  lemma {:induction false} FinishedStays(s: Setup, m: Machine, schedule: seq<nat>)
    requires Inv(s, m) && Schedule(s, schedule) && !Unfinished(s, m)
    ensures RunFrom(s, m, schedule) == m
    decreases |schedule|
  {
    hide Setup.WellFormed, Setup.Ref, IdOk, ChipOk, Iterate;
    if |schedule| > 0 {
      assert m.exited[schedule[0]];
      ExitedEffect(s.prog, m, schedule[0]);
      FinishedStays(s, m, schedule[1..]);
    }
  }

  lemma {:induction false} StaysFinished(s: Setup, m: Machine, rounds: seq<seq<nat>>)
    requires Inv(s, m) && !Unfinished(s, m) && forall k: nat :: k < |rounds| ==> IsRound(s, rounds[k])
    ensures RunRounds(s, m, rounds) == m
    decreases |rounds|
  {
    hide Setup.WellFormed, Setup.Ref, IdOk, ChipOk, Iterate, RunFrom, Unfinished;
    if |rounds| > 0 {
      FinishedStays(s, m, rounds[0]);
      StaysFinished(s, m, rounds[1..]);
    }
  }

  /** Every fair run completes: after more rounds than there is work, every thread has left its loop, every chip has
      the registers of the reference, and nothing is left behind. */
  lemma FairRunsComplete(s: Setup, rounds: seq<seq<nat>>)
    requires s.WellFormed() && (forall k: nat :: k < |rounds| ==> IsRound(s, rounds[k])) && |rounds| > Bound(s.prog, |s.prog|)
    ensures Inv(s, Initial(s))
    ensures var m := RunRounds(s, Initial(s), rounds);
      && (forall c: nat :: c < |s.prog| ==> m.exited[c] && m.regs[c] == s.Ref(c, |s.prog[c]|))
      && m.disValue == map[] && m.joiValue == map[]
  {
    InitialInv(s);
    hide Setup.WellFormed, Setup.Ref, IdOk, Iterate, RunFrom, Work, RunRounds, Initial;
    RoundsGain(s, Initial(s), rounds);
    var m := RunRounds(s, Initial(s), rounds);
    WorkBounded(s, m, |s.prog|);
    WorkBounded(s, Initial(s), |s.prog|);
    forall c: nat | c < |s.prog|
      ensures m.exited[c] && m.completed[c] && m.regs[c] == s.Ref(c, |s.prog[c]|)
    {
      assert ChipOk(s, m, c);
    }
    forall id: nat | id in s.plan
      ensures id !in m.disValue && id !in m.joiValue
    {
      AllGone(s, m, id);
    }
  }
}

/** The emulator object: its handlers update the shared fields in place, as the steps of SyncProtocol describe. */
module SyncEmulator {
  import opened SyncProtocol
  import opened SyncMeaning
  import SyncSafety

  class Emulator {
    const prog: seq<seq<Instr>>
    var line: seq<nat>
    var advance: seq<bool>
    var syncId: seq<nat>
    var regs: seq<Registers>
    var syncCount: map<nat, nat>
    var disValue: map<nat, Limb>
    var joiValue: map<nat, Limb>
    var completed: seq<bool>
    var completeCount: nat
    var exited: seq<bool>

    function State(): Machine
      reads this
    {
      Machine(line, advance, syncId, regs, syncCount, disValue, joiValue, completed, completeCount, exited)
    }

    ghost predicate Valid()
      reads this
    {
      Shaped(prog, State())
    }

    constructor (s: SyncProtocol.Setup)
      requires s.WellFormed()
      ensures prog == s.prog && State() == SyncSafety.Initial(s) && Valid()
    {
      prog := s.prog;
      line, advance, syncId, regs := seq(|s.prog|, c => 0), seq(|s.prog|, c => true), seq(|s.prog|, c => 0), s.initial;
      syncCount, disValue, joiValue := map[], map[], map[];
      completed, completeCount, exited := seq(|s.prog|, c => false), 0, seq(|s.prog|, c => false);
    }

    /** The second visit of a broadcast: the chip goes on, and the last one takes the value down. */
    method Pass(c: nat, id: nat, count: nat)
      requires Valid() && c < |prog|
      modifies this`advance, this`syncId, this`syncCount, this`disValue
      ensures advance == old(advance)[c := true] && syncId == old(syncId)[c := 0]
      ensures var n := old(CountAt(State(), id));
        && syncCount == (if n == count then old(syncCount)[id := n] - {id} else old(syncCount)[id := n])
        && disValue == if n == count then old(disValue) - {id} else old(disValue)
    {
      advance := advance[c := true];
      syncId := syncId[c := 0];
      syncCount := syncCount[id := CountAt(State(), id)];
      if syncCount[id] == count {
        disValue := disValue - {id};
        syncCount := syncCount - {id};
      }
    }

    method HandleDis(c: nat, id: nat, count: nat, src: nat, dead: bool) returns (thrown: bool)
      requires Valid() && c < |prog|
      modifies this
      ensures thrown == SyncProtocol.HandleDis(old(State()), c, id, count, src, dead).Thrown?
      ensures !thrown ==> State() == SyncProtocol.HandleDis(old(State()), c, id, count, src, dead).m
      ensures !thrown ==> |regs| == |prog| && Left(old(regs[c]), regs[c], src, dead)
      ensures !thrown && old(syncId[c]) == 0 ==> id in disValue && Holds(old(regs[c]), src, disValue[id])
    {
      hide Read, Consume, Left, Holds, SyncProtocol.HandleDis;
      ghost var before := State();
      DisMeans(before, c, id, count, src, dead);
      var value := Read(regs[c], src);
      regs := regs[c := Consume(regs[c], src, dead)];
      if syncId[c] == 0 {
        if id in disValue {
          DisThrows(before, c, id, count, src, dead);
          return true;
        }
        syncId := syncId[c := id];
        advance := advance[c := false];
        syncCount := syncCount[id := CountAt(State(), id) + 1];
        disValue := disValue[id := value];
        DisOffers(before, c, id, count, src, dead, State());
        return false;
      }
      if syncId[c] != id {
        DisThrows(before, c, id, count, src, dead);
        return true;
      }
      Pass(c, id, count);
      DisPasses(before, c, id, count, src, dead, State());
      return false;
    }

    method HandleRcv(c: nat, id: nat, count: nat, dest: nat) returns (thrown: bool)
      requires Valid() && c < |prog|
      modifies this
      ensures thrown == SyncProtocol.HandleRcv(old(State()), c, id, count, dest).Thrown?
      ensures !thrown ==> State() == SyncProtocol.HandleRcv(old(State()), c, id, count, dest).m
      ensures !thrown ==> ReceiveMeans(old(State()), State(), c, id, dest)
    {
      hide Put, ReceiveMeans, SyncProtocol.HandleRcv;
      ghost var before := State();
      RcvMeans(before, c, id, count, dest);
      if syncId[c] == 0 {
        syncId := syncId[c := id];
        advance := advance[c := false];
        RcvWaits(before, c, id, count, dest, State());
        return false;
      }
      if syncId[c] != id {
        RcvThrows(before, c, id, count, dest);
        return true;
      }
      if id !in disValue {
        RcvWaits(before, c, id, count, dest, State());
        return false;
      }
      regs := regs[c := Put(regs[c], dest, disValue[id])];
      syncCount := syncCount[id := CountAt(State(), id) + 1];
      syncId := syncId[c := 0];
      advance := advance[c := true];
      if syncCount[id] == count {
        syncCount := syncCount - {id};
        disValue := disValue - {id};
      }
      RcvTakes(before, c, id, count, dest, State());
      return false;
    }

    /** The first visit to a join: the operand is added to the value under way, and a chip without destination goes on. */
    method Contribute(c: nat, i: Instr)
      requires Valid() && c < |prog| && i.Joi? && syncId[c] == 0 && i.modulus != 0
      modifies this`syncId, this`advance, this`syncCount, this`regs, this`joiValue
      ensures syncId == old(syncId)[c := if i.hasDest then i.id else 0] && advance == old(advance)[c := !i.hasDest]
      ensures syncCount == old(syncCount)[i.id := old(CountAt(State(), i.id)) + 1]
      ensures regs == old(regs)[c := Consume(old(regs[c]), i.src, i.dead)]
      ensures joiValue == old(joiValue)[i.id := if i.id in old(joiValue) then AddLimbs(old(joiValue)[i.id], Read(old(regs[c]), i.src), i.modulus)
                                                else Read(old(regs[c]), i.src)]
    {
      hide Read, Consume, AddLimbs;
      syncId := syncId[c := i.id];
      advance := advance[c := false];
      syncCount := syncCount[i.id := CountAt(State(), i.id) + 1];
      var value := Read(regs[c], i.src);
      regs := regs[c := Consume(regs[c], i.src, i.dead)];
      joiValue := joiValue[i.id := if i.id in joiValue then AddLimbs(joiValue[i.id], value, i.modulus) else value];
      if !i.hasDest {
        advance := advance[c := true];
        syncId := syncId[c := 0];
      }
    }

    method HandleJoi(c: nat, i: Instr) returns (thrown: bool)
      requires Valid() && c < |prog| && i.Joi?
      modifies this
      ensures thrown == SyncProtocol.HandleJoi(old(State()), c, i).Thrown?
      ensures !thrown ==> State() == SyncProtocol.HandleJoi(old(State()), c, i).m
      ensures !thrown ==> JoinMeans(old(State()), State(), c, i)
    {
      hide Read, Consume, Put, AddLimbs, JoinMeans, SyncProtocol.HandleJoi;
      ghost var before := State();
      JoiMeans(before, c, i);
      JoiCases(before, c, i);
      if syncId[c] == 0 {
        if i.modulus == 0 {
          return true;
        }
        Contribute(c, i);
        return false;
      }
      if syncId[c] != i.id {
        return true;
      }
      if CountAt(State(), i.id) == i.count && i.hasDest {
        if i.id !in joiValue {
          return true;
        }
        regs := regs[c := Put(regs[c], i.dest, joiValue[i.id])];
        advance := advance[c := true];
        syncId := syncId[c := 0];
        syncCount := syncCount - {i.id};
        joiValue := joiValue - {i.id};
      }
      return false;
    }

    /** One iteration of the loop of chip c. */
    method Iterate(c: nat) returns (thrown: bool)
      requires Valid() && c < |prog|
      modifies this
      ensures thrown == SyncProtocol.Iterate(prog, old(State()), c).Thrown?
      ensures !thrown ==> State() == SyncProtocol.Iterate(prog, old(State()), c).m
    {
      hide SyncProtocol.Iterate, SyncProtocol.HandleDis, SyncProtocol.HandleRcv, SyncProtocol.HandleJoi;
      ghost var before := State();
      if exited[c] {
        IterateIdle(prog, before, c);
        return false;
      }
      if advance[c] {
        if line[c] >= |prog[c]| {
          if !completed[c] {
            completeCount := completeCount + 1;
            completed := completed[c := true];
          }
          exited := exited[c := completeCount == |prog|];
          IterateEnds(prog, before, c, State());
          return false;
        }
        line := line[c := line[c] + 1];
      }
      IterateHandles(prog, before, c, State());
      var i := prog[c][line[c] - 1];
      match i {
        case Local(op) =>
          regs := regs[c := op(regs[c])];
          return false;
        case Dis(id, count, src, dead) =>
          thrown := HandleDis(c, id, count, src, dead);
        case Rcv(id, count, dest) =>
          thrown := HandleRcv(c, id, count, dest);
        case Joi(_, _, _, _, _, _, _) =>
          thrown := HandleJoi(c, i);
      }
    }

    /** Runs a schedule. On a well-formed program nothing is ever thrown, and the state is that of the run. */
    method RunSchedule(s: SyncProtocol.Setup, schedule: seq<nat>)
      requires s.WellFormed() && prog == s.prog && State() == SyncSafety.Initial(s) && SyncSafety.Schedule(s, schedule)
      modifies this
      ensures State() == SyncSafety.Run(s, schedule)
    {
      SyncSafety.InitialInv(s);
      var t: nat := 0;
      while t < |schedule|
        invariant t <= |schedule| && SyncSafety.Inv(s, State())
        invariant SyncSafety.RunFrom(s, State(), schedule[t..]) == SyncSafety.Run(s, schedule)
      {
        hide SyncProtocol.Iterate, SyncSafety.ChipOk, SyncSafety.IdOk, Setup.WellFormed, SyncSafety.Run;
        SyncSafety.IterateSafe(s, State(), schedule[t]);
        assert schedule[t..][1..] == schedule[t + 1..];
        var thrown := Iterate(schedule[t]);
        assert !thrown;
        t := t + 1;
      }
    }
  }

  // ----- the handlers, in terms of the registers

  lemma DisMeans(m: Machine, c: nat, id: nat, count: nat, src: nat, dead: bool)
    requires c < |m.syncId| == |m.advance| == |m.regs|
    ensures var r := SyncProtocol.HandleDis(m, c, id, count, src, dead);
      r.Running? ==>
        && |r.m.regs| == |m.regs| && Left(m.regs[c], r.m.regs[c], src, dead)
        && (m.syncId[c] == 0 ==> id in r.m.disValue && Holds(m.regs[c], src, r.m.disValue[id]))
  {
    hide Read, Consume, Left, Holds;
    ConsumeLeaves(m.regs[c], src, dead);
    ReadHolds(m.regs[c], src);
  }

  /** Once the value is there, on a later visit, the destination register holds it and no other register has changed. */
  ghost predicate ReceiveMeans(m: Machine, r: Machine, c: nat, id: nat, dest: nat)
  {
    && c < |m.syncId| == |m.regs| == |r.regs|
    && if m.syncId[c] != 0 && id in m.disValue then Stored(m.regs[c], r.regs[c], dest, m.disValue[id]) else r.regs[c] == m.regs[c]
  }

  lemma RcvMeans(m: Machine, c: nat, id: nat, count: nat, dest: nat)
    requires c < |m.syncId| == |m.advance| == |m.regs|
    ensures var r := SyncProtocol.HandleRcv(m, c, id, count, dest);
      r.Running? ==> ReceiveMeans(m, r.m, c, id, dest)
  {
    hide Put, Stored;
    if id in m.disValue {
      PutStores(m.regs[c], dest, m.disValue[id]);
    }
  }

  /** On the first visit a contribution is what the source register held; it becomes the running sum or is added to it, and
      a dead source is gone. A destination takes the sum, at its full count, into its destination register. */
  ghost predicate JoinMeans(m: Machine, r: Machine, c: nat, i: Instr)
  {
    && i.Joi? && c < |m.syncId| == |m.regs| == |r.regs|
    && (m.syncId[c] == 0 ==>
          && Left(m.regs[c], r.regs[c], i.src, i.dead) && i.id in r.joiValue
          && (i.id !in m.joiValue ==> Holds(m.regs[c], i.src, r.joiValue[i.id]))
          && (i.id in m.joiValue ==> exists v: Limb :: Holds(m.regs[c], i.src, v) && AddedUp(m.joiValue[i.id], v, i.modulus, r.joiValue[i.id])))
    && (m.syncId[c] != 0 ==>
          if CountAt(m, i.id) == i.count && i.hasDest then i.id in m.joiValue && Stored(m.regs[c], r.regs[c], i.dest, m.joiValue[i.id])
          else r == m)
  }

  lemma JoiMeans(m: Machine, c: nat, i: Instr)
    requires c < |m.syncId| == |m.advance| == |m.regs| && i.Joi?
    ensures SyncProtocol.HandleJoi(m, c, i).Running? ==> JoinMeans(m, SyncProtocol.HandleJoi(m, c, i).m, c, i)
  {
    hide Read, Consume, Put, AddLimbs, Left, Holds, AddedUp, Stored, CountAt;
    ConsumeLeaves(m.regs[c], i.src, i.dead);
    ReadHolds(m.regs[c], i.src);
    if i.id in m.joiValue {
      PutStores(m.regs[c], i.dest, m.joiValue[i.id]);
      if i.modulus > 0 {
        AddLimbsAdds(m.joiValue[i.id], Read(m.regs[c], i.src), i.modulus);
      }
    }
  }

  // ----- the handlers, case by case

  lemma DisThrows(m: Machine, c: nat, id: nat, count: nat, src: nat, dead: bool)
    requires c < |m.syncId| == |m.advance| == |m.regs| && if m.syncId[c] == 0 then id in m.disValue else m.syncId[c] != id
    ensures SyncProtocol.HandleDis(m, c, id, count, src, dead) == Thrown
  {
  }

  lemma DisOffers(m: Machine, c: nat, id: nat, count: nat, src: nat, dead: bool, r: Machine)
    requires c < |m.syncId| == |m.advance| == |m.regs| && m.syncId[c] == 0 && id !in m.disValue
    requires r == m.(syncId := m.syncId[c := id], advance := m.advance[c := false], regs := m.regs[c := Consume(m.regs[c], src, dead)],
                     syncCount := m.syncCount[id := CountAt(m, id) + 1], disValue := m.disValue[id := Read(m.regs[c], src)])
    ensures SyncProtocol.HandleDis(m, c, id, count, src, dead) == Running(r)
  {
    hide Read, Consume;
  }

  lemma DisPasses(m: Machine, c: nat, id: nat, count: nat, src: nat, dead: bool, r: Machine)
    requires c < |m.syncId| == |m.advance| == |m.regs| && m.syncId[c] != 0 && m.syncId[c] == id
    requires var last := CountAt(m, id) == count;
      r == m.(syncId := m.syncId[c := 0], advance := m.advance[c := true], regs := m.regs[c := Consume(m.regs[c], src, dead)],
              syncCount := if last then m.syncCount[id := CountAt(m, id)] - {id} else m.syncCount[id := CountAt(m, id)],
              disValue := if last then m.disValue - {id} else m.disValue)
    ensures SyncProtocol.HandleDis(m, c, id, count, src, dead) == Running(r)
  {
    hide Read, Consume;
    RemovedAnyway(m.syncCount, id, CountAt(m, id));
  }

  /** A counter that is removed need not be set first. */
  lemma RemovedAnyway(counts: map<nat, nat>, id: nat, n: nat)
    ensures counts[id := n] - {id} == counts - {id}
  {
  }

  lemma RcvThrows(m: Machine, c: nat, id: nat, count: nat, dest: nat)
    requires c < |m.syncId| == |m.advance| == |m.regs| && m.syncId[c] != 0 && m.syncId[c] != id
    ensures SyncProtocol.HandleRcv(m, c, id, count, dest) == Thrown
  {
  }

  lemma RcvWaits(m: Machine, c: nat, id: nat, count: nat, dest: nat, r: Machine)
    requires c < |m.syncId| == |m.advance| == |m.regs| && (m.syncId[c] != 0 ==> m.syncId[c] == id && id !in m.disValue)
    requires r == if m.syncId[c] == 0 then m.(syncId := m.syncId[c := id], advance := m.advance[c := false]) else m
    ensures SyncProtocol.HandleRcv(m, c, id, count, dest) == Running(r)
  {
  }

  lemma RcvTakes(m: Machine, c: nat, id: nat, count: nat, dest: nat, r: Machine)
    requires c < |m.syncId| == |m.advance| == |m.regs| && m.syncId[c] != 0 && m.syncId[c] == id && id in m.disValue
    requires var last := CountAt(m, id) + 1 == count;
      r == m.(regs := m.regs[c := Put(m.regs[c], dest, m.disValue[id])], syncId := m.syncId[c := 0], advance := m.advance[c := true],
              syncCount := if last then m.syncCount[id := CountAt(m, id) + 1] - {id} else m.syncCount[id := CountAt(m, id) + 1],
              disValue := if last then m.disValue - {id} else m.disValue)
    ensures SyncProtocol.HandleRcv(m, c, id, count, dest) == Running(r)
  {
    hide Put;
    RemovedAnyway(m.syncCount, id, CountAt(m, id) + 1);
  }

  lemma JoiCases(m: Machine, c: nat, i: Instr)
    requires c < |m.syncId| == |m.advance| == |m.regs| && i.Joi?
    ensures var r := SyncProtocol.HandleJoi(m, c, i);
      && (m.syncId[c] == 0 && i.modulus == 0 ==> r == Thrown)
      && (m.syncId[c] == 0 && i.modulus != 0 ==>
          var value := Read(m.regs[c], i.src);
          r == Running(m.(syncId := m.syncId[c := if i.hasDest then i.id else 0], advance := m.advance[c := !i.hasDest],
                          regs := m.regs[c := Consume(m.regs[c], i.src, i.dead)],
                          syncCount := m.syncCount[i.id := CountAt(m, i.id) + 1],
                          joiValue := m.joiValue[i.id := if i.id in m.joiValue then AddLimbs(m.joiValue[i.id], value, i.modulus) else value])))
      && (m.syncId[c] != 0 && m.syncId[c] != i.id ==> r == Thrown)
      && (m.syncId[c] != 0 && m.syncId[c] == i.id && CountAt(m, i.id) == i.count && i.hasDest && i.id !in m.joiValue ==> r == Thrown)
      && (m.syncId[c] != 0 && m.syncId[c] == i.id && CountAt(m, i.id) == i.count && i.hasDest && i.id in m.joiValue ==>
          r == Running(m.(regs := m.regs[c := Put(m.regs[c], i.dest, m.joiValue[i.id])], advance := m.advance[c := true],
                          syncId := m.syncId[c := 0], syncCount := m.syncCount - {i.id}, joiValue := m.joiValue - {i.id})))
      && (m.syncId[c] != 0 && m.syncId[c] == i.id && !(CountAt(m, i.id) == i.count && i.hasDest) ==> r == Running(m))
  {
    hide Read, Consume, Put, AddLimbs;
  }

  // ----- one iteration, case by case

  lemma IterateIdle(prog: seq<seq<Instr>>, m: Machine, c: nat)
    requires Shaped(prog, m) && c < |prog| && m.exited[c]
    ensures SyncProtocol.Iterate(prog, m, c) == Running(m)
  {
  }

  lemma IterateEnds(prog: seq<seq<Instr>>, m: Machine, c: nat, r: Machine)
    requires Shaped(prog, m) && c < |prog| && !m.exited[c] && m.advance[c] && m.line[c] >= |prog[c]|
    requires var n := if m.completed[c] then m.completeCount else m.completeCount + 1;
      r == m.(completed := if m.completed[c] then m.completed else m.completed[c := true], completeCount := n,
              exited := m.exited[c := n == |prog|])
    ensures SyncProtocol.Iterate(prog, m, c) == Running(r)
  {
    assert m.completed[c] ==> m.completed[c := true] == m.completed;
  }

  lemma IterateHandles(prog: seq<seq<Instr>>, m: Machine, c: nat, r: Machine)
    requires Shaped(prog, m) && c < |prog| && !m.exited[c] && (m.advance[c] ==> m.line[c] < |prog[c]|)
    requires r == if m.advance[c] then m.(line := m.line[c := m.line[c] + 1]) else m
    ensures c < |r.line| && 0 < r.line[c] <= |prog[c]| && Shaped(prog, r)
    ensures SyncProtocol.Iterate(prog, m, c) == Handle(r, c, prog[c][r.line[c] - 1])
  {
    hide Handle;
  }
}

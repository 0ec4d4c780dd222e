/**
 No request is waited for for ever: so many cycles that find it overdue, and it
 has been answered or reported, whatever else is sent and arrives.
 */
module UdpBound {
  import opened Bytes
  import opened UdpSpec
  import opened UdpRuns

  /** How often a request of this id was brought to an end, by a reply or by a timeout. */
  function Settlements(log: seq<Entry>, id: nat): nat {
    Tally(log, FinalTimeout, id) + Tally(log, ActiveReply, id)
  }

  /** The request that is active in `s` has come to an end by `s'`, or is active still and lost no attempt. */
  ghost predicate Advances(s: State, s': State, id: nat) {
    && id < |s.slots| == |s'.slots|
    && Settlements(s'.log, id) >= Settlements(s.log, id)
    && (s.slots[id].isActive && Settlements(s'.log, id) == Settlements(s.log, id) ==>
          && s'.slots[id].isActive && s'.slots[id].attemptNum >= s.slots[id].attemptNum
          && (s'.slots[id].deadline != s.slots[id].deadline ==> s'.slots[id].attemptNum > s.slots[id].attemptNum))
  }

  // ---- from one turn of the scan to any run --------------------------------------------

  /** An attempt, logged by an entry that settles nothing. */
  lemma TransmitAdvances(p: Params, s: State, to: nat, id: nat)
    requires id < |s.slots| && to < |s.slots|
    ensures Advances(s, Transmit(p, s, to), id)
  {
    var e := Transmit(p, s, to).log[|s.log|];
    assert Transmit(p, s, to).log == s.log + [e];
    Snoc(s.log, e, id);
  }

  lemma VisitAdvances(p: Params, s: State, id: nat)
    requires id < |s.slots| && s.cursor < |s.slots|
    ensures Advances(s, Visit(p, s).0, id)
  {
    var slot := s.slots[s.cursor];
    if slot.isActive && slot.deadline < p.clock(s.ticks) {
      if slot.attemptNum < p.sendAttempts {
        TransmitAdvances(p, s.(ticks := s.ticks + 1), s.cursor, id);
      } else {
        Snoc(s.log, TimedOut(s.cursor, p.clock(s.ticks)), id);
      }
    }
  }

  lemma {:induction false} ScanAdvances(p: Params, s: State, id: nat)
    requires id < |s.slots|
    ensures Advances(s, Scan(p, s).0, id)
    decreases |s.slots| - s.cursor
  {
    if s.cursor < |s.slots| {
      VisitAdvances(p, s, id);
      if !Visit(p, s).1 { ScanAdvances(p, Visit(p, s).0, id); }
    }
  }

  lemma RecvAdvances(p: Params, s: State, id: nat)
    requires id < |s.slots|
    ensures Advances(s, Recv(p, s).0, id)
  {
    if s.socketProcessed {
      ScanAdvances(p, s, id);
    } else {
      var (s1, reply) := TryReceive(s);
      if reply.Some? {
        Snoc(s.log, Replied(reply.value.id, s.slots[reply.value.id].isActive), id);
      } else {
        ScanAdvances(p, s1.(socketProcessed := true), id);
      }
    }
  }

  lemma UpdateAdvances(s: State, id: nat)
    requires id < |s.slots|
    ensures Advances(s, Update(s), id)
  {
    Snoc(s.log, Updated, id);
  }

  lemma SendAdvances(p: Params, s: State, id: nat, to: nat, payload: seq<byte>)
    requires id < |s.slots| && Sendable(s, to, payload)
    ensures Advances(s, SendRequest(p, s, to, payload), id)
  {
    forall e: Entry { Snoc(s.log, e, id); }
  }

  lemma {:induction false} RunAdvances(p: Params, s: State, ops: seq<Op>, id: nat)
    requires id < |s.slots| && AllCallable(|s.slots|, ops)
    ensures Advances(s, Run(p, s, ops), id)
    decreases |ops|
  {
    if ops != [] {
      assert ops[0] in ops && forall op :: op in ops[1..] ==> op in ops;
      match ops[0] {
        case SendOp(to, payload) => SendAdvances(p, s, id, to, payload);
        case UpdateOp => UpdateAdvances(s, id);
        case ArriveOp(_) =>
        case RecvOp => RecvAdvances(p, s, id);
      }
      RunAdvances(p, Step(p, s, ops[0]), ops[1..], id);
    }
  }

  // ---- whole cycles --------------------------------------------------------------------

  /** One cycle: update(), anything but another update(), and a recv() that returns false. */
  ghost predicate IsCycle(p: Params, s: State, ops: seq<Op>) {
    AllCallable(|s.slots|, ops) && UpdateOp !in ops && Recv(p, Run(p, Update(s), ops)).1.None?
  }

  ghost function AfterCycle(p: Params, s: State, ops: seq<Op>): (s': State)
    requires IsCycle(p, s, ops)
    ensures |s'.slots| == |s.slots|
  {
    RecvConsumes(p, Run(p, Update(s), ops));
    Recv(p, Run(p, Update(s), ops)).0
  }

  ghost predicate AreCycles(p: Params, s: State, cycles: seq<seq<Op>>)
    decreases |cycles|
  {
    cycles == [] || (IsCycle(p, s, cycles[0]) && AreCycles(p, AfterCycle(p, s, cycles[0]), cycles[1..]))
  }

  ghost function AfterCycles(p: Params, s: State, cycles: seq<seq<Op>>): (s': State)
    requires AreCycles(p, s, cycles)
    ensures |s'.slots| == |s.slots|
    decreases |cycles|
  {
    if cycles == [] then s else AfterCycles(p, AfterCycle(p, s, cycles[0]), cycles[1..])
  }

  /** The deadline of the slot has passed when a cycle that begins in `s` begins. */
  ghost predicate OverdueIn(p: Params, s: State, id: nat)
    requires id < |s.slots|
  {
    s.slots[id].isActive && s.slots[id].deadline < p.clock(s.ticks)
  }

  /** How many of the cycles find the slot overdue. */
  ghost function OverdueCycles(p: Params, s: State, cycles: seq<seq<Op>>, id: nat): nat
    requires AreCycles(p, s, cycles) && id < |s.slots|
    decreases |cycles|
  {
    if cycles == [] then 0
    else (if OverdueIn(p, s, id) then 1 else 0) + OverdueCycles(p, AfterCycle(p, s, cycles[0]), cycles[1..], id)
  }

  /** A cycle that finds the request overdue brings it to an end or uses up an attempt. */
  lemma CycleAdvances(p: Params, s: State, ops: seq<Op>, id: nat)
    requires Monotone(p.clock) && id < |s.slots| && IsCycle(p, s, ops)
    ensures var s' := AfterCycle(p, s, ops);
            && Advances(s, s', id)
            && (OverdueIn(p, s, id) && Settlements(s'.log, id) == Settlements(s.log, id)
                ==> s'.slots[id].attemptNum > s.slots[id].attemptNum)
  {
    UpdateAdvances(s, id);
    RunAdvances(p, Update(s), ops, id);
    RecvAdvances(p, Run(p, Update(s), ops), id);
    CycleComplete(p, s, ops);
  }

  lemma CycleKeepsInv(p: Params, s: State, ops: seq<Op>)
    requires Inv(p, s) && Monotone(p.clock) && IsCycle(p, s, ops)
    ensures Inv(p, AfterCycle(p, s, ops))
  {
    UpdateKeepsInv(p, s);
    RunKeepsInv(p, Update(s), ops);
    StepKeepsInv(p, Run(p, Update(s), ops), RecvOp);
  }

  lemma {:induction false} CyclesAdvance(p: Params, s: State, cycles: seq<seq<Op>>, id: nat)
    requires Monotone(p.clock) && id < |s.slots| && AreCycles(p, s, cycles)
    ensures Advances(s, AfterCycles(p, s, cycles), id)
    decreases |cycles|
  {
    if cycles != [] {
      CycleAdvances(p, s, cycles[0], id);
      CyclesAdvance(p, AfterCycle(p, s, cycles[0]), cycles[1..], id);
    }
  }

  lemma {:induction false} SettledByCycles(p: Params, s: State, cycles: seq<seq<Op>>, id: nat)
    requires Inv(p, s) && Monotone(p.clock) && AreCycles(p, s, cycles) && id < |s.slots| && s.slots[id].isActive
    requires s.slots[id].attemptNum + OverdueCycles(p, s, cycles, id) > MaxAttempts(p)
    ensures Settlements(AfterCycles(p, s, cycles).log, id) > Settlements(s.log, id)
    decreases |cycles|
  {
    assert SlotInv(p, s, id);
    var s1 := AfterCycle(p, s, cycles[0]);
    CycleAdvances(p, s, cycles[0], id);
    CycleKeepsInv(p, s, cycles[0]);
    if Settlements(s1.log, id) == Settlements(s.log, id) {
      SettledByCycles(p, s1, cycles[1..], id);
    } else {
      CyclesAdvance(p, s1, cycles[1..], id);
    }
  }

  /**
   A request that is active after any run whatsoever, with some attempts made, is
   answered or reported as timed out by the time the cycles that find it overdue
   outnumber the attempts it has left.
   */
  lemma AnsweredOrReported(
      p: Params, slotCount: nat, inbound: seq<Inbound>, ops: seq<Op>, cycles: seq<seq<Op>>, id: nat)
    requires Monotone(p.clock) && AllCallable(slotCount, ops) && id < slotCount
    requires Run(p, Init(slotCount, inbound), ops).slots[id].isActive
    requires AreCycles(p, Run(p, Init(slotCount, inbound), ops), cycles)
    ensures var s := Run(p, Init(slotCount, inbound), ops);
            OverdueCycles(p, s, cycles, id) > MaxAttempts(p) - s.slots[id].attemptNum
            ==> Settlements(AfterCycles(p, s, cycles).log, id) > Settlements(s.log, id)
  {
    var s := Run(p, Init(slotCount, inbound), ops);
    InitInv(p, slotCount, inbound);
    RunKeepsInv(p, Init(slotCount, inbound), ops);
    if OverdueCycles(p, s, cycles, id) > MaxAttempts(p) - s.slots[id].attemptNum {
      SettledByCycles(p, s, cycles, id);
    }
  }
}

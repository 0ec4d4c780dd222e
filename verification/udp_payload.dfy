/**
 From the operations to the wire and back: which send put which frame there, with
 which payload, and when it is due again.
 */
module UdpPayload {
  import opened Bytes
  import opened UdpSpec
  import opened UdpRuns

  // ---- one send ----------------------------------------------------------------------

  /** An accepted send puts one frame on the wire: the id and then the payload it was given. */
  lemma SendLogged(p: Params, s: State, id: nat, payload: seq<byte>)
    requires Sendable(s, id, payload) && !s.slots[id].isActive
    ensures var log := SendRequest(p, s, id, payload).log;
            && |log| == |s.log| + 1 && s.log <= log
            && var e := log[|s.log|];
               && e.Sent? && e.id == id && e.time == p.clock(s.ticks)
               && |e.frame| == REQ_ID_SIZE + |payload|
               && FromLe32(e.frame) == id && e.frame[REQ_ID_SIZE..] == payload
  {
    Le32RoundTrip([], id, payload);
    assert (Le32(id) + payload)[0..] == Le32(id) + payload == [] + Le32(id) + payload;
  }

  // ---- what the other operations log ----------------------------------------------------

  /** The log has grown, but not by an accepted send. */
  ghost predicate AddsNoSend(log: seq<Entry>, log': seq<Entry>) {
    log <= log' && forall k :: |log| <= k < |log'| ==> !log'[k].Sent?
  }

  lemma {:induction false} ScanAddsNoSend(p: Params, s: State)
    requires Inv(p, s) && Monotone(p.clock)
    ensures AddsNoSend(s.log, Scan(p, s).0.log)
    decreases |s.slots| - s.cursor
  {
    if s.cursor < |s.slots| {
      var (s1, expired) := Visit(p, s);
      assert SlotInv(p, s, s.cursor);
      assert AddsNoSend(s.log, s1.log);
      if !expired {
        VisitKeepsInv(p, s);
        ScanAddsNoSend(p, s1);
      }
    }
  }

  lemma RecvAddsNoSend(p: Params, s: State)
    requires Inv(p, s) && Monotone(p.clock)
    ensures AddsNoSend(s.log, Recv(p, s).0.log)
  {
    if s.socketProcessed {
      ScanAddsNoSend(p, s);
    } else if TryReceive(s).1.None? {
      var s1 := TryReceive(s).0;
      InboundIrrelevant(p, s, s1.inbound, true);
      ScanAddsNoSend(p, s1.(socketProcessed := true));
    }
  }

  /** The operation is a send that its slot is free for. */
  predicate IsAccepted(s: State, op: Op) {
    op.SendOp? && op.id < |s.slots| && !s.slots[op.id].isActive
  }

  lemma StepLogs(p: Params, s: State, op: Op)
    requires Inv(p, s) && Monotone(p.clock) && Callable(|s.slots|, op)
    ensures var log := Step(p, s, op).log;
            if IsAccepted(s, op)
            then s.log <= log && |log| == |s.log| + 1 && log[|s.log|].Sent? && log[|s.log|].id == op.id
            else AddsNoSend(s.log, log)
  {
    if op.SendOp? {
      if !s.slots[op.id].isActive { SendLogged(p, s, op.id, op.payload); }
    } else if op.RecvOp? {
      RecvAddsNoSend(p, s);
    }
  }

  // ---- operations and log entries over a run ----------------------------------------------

  lemma {:induction false} RunSnoc(p: Params, s: State, ops: seq<Op>, op: Op)
    requires AllCallable(|s.slots|, ops) && Callable(|s.slots|, op)
    ensures AllCallable(|s.slots|, ops + [op])
    ensures Run(p, s, ops + [op]) == Step(p, Run(p, s, ops), op)
    decreases |ops|
  {
    if ops == [] {
      assert [] + [op] == [op] && Run(p, Step(p, s, op), []) == Step(p, s, op);
    } else {
      assert ops[0] in ops && forall o :: o in ops[1..] ==> o in ops;
      RunSnoc(p, Step(p, s, ops[0]), ops[1..], op);
      assert (ops + [op])[0] == ops[0] && (ops + [op])[1..] == ops[1..] + [op];
    }
  }

  /** The state in which the operation number `j` is called. */
  ghost function Before(p: Params, s: State, ops: seq<Op>, j: nat): (s': State)
    requires AllCallable(|s.slots|, ops) && j <= |ops|
    ensures |s'.slots| == |s.slots|
  {
    assert forall op :: op in ops[..j] ==> op in ops;
    Run(p, s, ops[..j])
  }

  /** Operation `j` is an accepted send, and the log holds `a` entries when it comes. */
  ghost predicate SendsAt(p: Params, s: State, ops: seq<Op>, j: nat, a: nat)
    requires AllCallable(|s.slots|, ops)
  {
    && j < |ops| && IsAccepted(Before(p, s, ops, j), ops[j])
    && a == |Before(p, s, ops, j).log|
  }

  lemma BeforeNext(p: Params, s: State, ops: seq<Op>, j: nat)
    requires AllCallable(|s.slots|, ops) && j < |ops|
    ensures Callable(|s.slots|, ops[j]) && Before(p, s, ops, j + 1) == Step(p, Before(p, s, ops, j), ops[j])
  {
    assert ops[j] in ops && forall op :: op in ops[..j] ==> op in ops;
    assert ops[..j + 1] == ops[..j] + [ops[j]];
    RunSnoc(p, s, ops[..j], ops[j]);
  }

  lemma BeforeKeepsInv(p: Params, s: State, ops: seq<Op>, j: nat)
    requires Inv(p, s) && Monotone(p.clock) && AllCallable(|s.slots|, ops) && j <= |ops|
    ensures Inv(p, Before(p, s, ops, j))
  {
    assert forall op :: op in ops[..j] ==> op in ops;
    RunKeepsInv(p, s, ops[..j]);
  }

  /** What is logged stays logged. */
  lemma {:induction false} LogGrows(p: Params, s: State, ops: seq<Op>, i: nat, j: nat)
    requires Inv(p, s) && Monotone(p.clock) && AllCallable(|s.slots|, ops) && i <= j <= |ops|
    ensures Before(p, s, ops, i).log <= Before(p, s, ops, j).log
    decreases j - i
  {
    if i < j {
      LogGrows(p, s, ops, i, j - 1);
      BeforeNext(p, s, ops, j - 1);
      BeforeKeepsInv(p, s, ops, j - 1);
      StepLogs(p, Before(p, s, ops, j - 1), ops[j - 1]);
    }
  }

  /** Every accepted send has its entry in the log for good, with its payload behind the id. */
  lemma SendIsLogged(p: Params, s: State, ops: seq<Op>, j: nat, a: nat)
    requires Inv(p, s) && Monotone(p.clock) && AllCallable(|s.slots|, ops) && SendsAt(p, s, ops, j, a)
    ensures var log := Before(p, s, ops, |ops|).log;
            && a < |log| && log[a].Sent? && log[a].id == ops[j].id
            && |log[a].frame| == REQ_ID_SIZE + |ops[j].payload|
            && FromLe32(log[a].frame) == ops[j].id && log[a].frame[REQ_ID_SIZE..] == ops[j].payload
  {
    BeforeNext(p, s, ops, j);
    SendLogged(p, Before(p, s, ops, j), ops[j].id, ops[j].payload);
    LogGrows(p, s, ops, j + 1, |ops|);
  }

  /** Conversely, every entry of an accepted send was put there by an operation. */
  lemma {:induction false} EntryHasSend(p: Params, s: State, ops: seq<Op>, i: nat, a: nat)
    requires Inv(p, s) && Monotone(p.clock) && AllCallable(|s.slots|, ops) && i <= |ops|
    requires |s.log| <= a < |Before(p, s, ops, i).log| && Before(p, s, ops, i).log[a].Sent?
    ensures exists j: nat :: SendsAt(p, s, ops, j, a)
    decreases i
  {
    if i > 0 {
      var s1 := Before(p, s, ops, i - 1);
      BeforeNext(p, s, ops, i - 1);
      BeforeKeepsInv(p, s, ops, i - 1);
      StepLogs(p, s1, ops[i - 1]);
      if a < |s1.log| {
        EntryHasSend(p, s, ops, i - 1, a);
      } else {
        assert SendsAt(p, s, ops, i - 1, a);
      }
    }
  }

  lemma WholeRun(p: Params, s: State, ops: seq<Op>)
    requires AllCallable(|s.slots|, ops)
    ensures Before(p, s, ops, |ops|) == Run(p, s, ops)
  {
    assert ops[..|ops|] == ops;
  }

  /**
   In every run each transmission, the first or a retry, carries the id and the
   payload of an accepted send, namely the one that made the last entry of an
   accepted send of its id up to there.
   */
  lemma TransmissionHasSend(p: Params, slotCount: nat, inbound: seq<Inbound>, ops: seq<Op>, k: nat)
    requires Monotone(p.clock) && AllCallable(slotCount, ops)
    requires k < |Run(p, Init(slotCount, inbound), ops).log|
    requires var e := Run(p, Init(slotCount, inbound), ops).log[k]; e.Sent? || e.Resent?
    ensures var log := Run(p, Init(slotCount, inbound), ops).log;
            var a := LastSent(log[..k + 1], log[k].id);
            a >= 0 && exists j: nat :: SendsAt(p, Init(slotCount, inbound), ops, j, a)
                                       && ops[j].id == log[k].id && CarriesSend(log[k], ops[j])
  {
    var s := Init(slotCount, inbound);
    var log := Run(p, s, ops).log;
    var a := LastSent(log[..k + 1], log[k].id);
    InitInv(p, slotCount, inbound);
    WholeRun(p, s, ops);
    assert log[..k + 1][..k] == log[..k] && log[..k + 1][k] == log[k];
    if log[k].Resent? { RetransmissionsIdentical(p, slotCount, inbound, ops, k); }
    assert a >= 0 && log[a].Sent? && log[a].frame == log[k].frame;
    EntryHasSend(p, s, ops, |ops|, a);
    var j: nat :| SendsAt(p, s, ops, j, a);
    SendIsLogged(p, s, ops, j, a);
  }

  /** The frame of a transmission is the id and the payload that the operation was given. */
  predicate CarriesSend(e: Entry, op: Op)
    requires (e.Sent? || e.Resent?) && op.SendOp?
  {
    && |e.frame| == REQ_ID_SIZE + |op.payload|
    && FromLe32(e.frame) == op.id && e.frame[REQ_ID_SIZE..] == op.payload
  }

  // ---- when a request is due again ----------------------------------------------------------

  predicate IsTransmission(e: Entry, id: nat) {
    (e.Sent? || e.Resent?) && e.id == id
  }

  /** Where the last transmission of an id stands in the log; -1 if nowhere. */
  function LastTransmission(log: seq<Entry>, id: nat): (t: int)
    ensures -1 <= t < |log|
    ensures t >= 0 ==> IsTransmission(log[t], id)
    ensures forall k :: t < k < |log| ==> !IsTransmission(log[k], id)
  {
    if log == [] then -1
    else if IsTransmission(log[|log| - 1], id) then |log| - 1
    else LastTransmission(log[..|log| - 1], id)
  }

  /** An active request is due exactly the timeout after its last transmission. */
  ghost predicate DueInv(p: Params, s: State, i: nat) {
    i < |s.slots| && s.slots[i].isActive ==>
      var t := LastTransmission(s.log, i);
      t >= 0 && s.slots[i].deadline == s.log[t].time + p.sendTimeout
  }

  lemma LastTransmissionSnoc(log: seq<Entry>, e: Entry, id: nat)
    ensures LastTransmission(log + [e], id) == if IsTransmission(e, id) then |log| else LastTransmission(log, id)
  {
    assert (log + [e])[..|log|] == log;
  }

  lemma TransmitKeepsDue(p: Params, s: State, id: nat, i: nat)
    requires id < |s.slots| && (i != id ==> DueInv(p, s, i))
    ensures DueInv(p, Transmit(p, s, id), i)
  {
    var e := Transmit(p, s, id).log[|s.log|];
    assert Transmit(p, s, id).log == s.log + [e];
    LastTransmissionSnoc(s.log, e, i);
  }

  lemma VisitKeepsDue(p: Params, s: State, i: nat)
    requires s.cursor < |s.slots| && DueInv(p, s, i)
    ensures DueInv(p, Visit(p, s).0, i)
  {
    var slot := s.slots[s.cursor];
    if slot.isActive && slot.deadline < p.clock(s.ticks) {
      if slot.attemptNum < p.sendAttempts {
        TransmitKeepsDue(p, s.(ticks := s.ticks + 1), s.cursor, i);
      } else {
        LastTransmissionSnoc(s.log, TimedOut(s.cursor, p.clock(s.ticks)), i);
      }
    }
  }

  lemma {:induction false} ScanKeepsDue(p: Params, s: State, i: nat)
    requires DueInv(p, s, i)
    ensures DueInv(p, Scan(p, s).0, i)
    decreases |s.slots| - s.cursor
  {
    if s.cursor < |s.slots| {
      VisitKeepsDue(p, s, i);
      if !Visit(p, s).1 { ScanKeepsDue(p, Visit(p, s).0, i); }
    }
  }

  lemma RecvKeepsDue(p: Params, s: State, i: nat)
    requires DueInv(p, s, i)
    ensures DueInv(p, Recv(p, s).0, i)
  {
    if s.socketProcessed {
      ScanKeepsDue(p, s, i);
    } else {
      var (s1, reply) := TryReceive(s);
      if reply.Some? {
        LastTransmissionSnoc(s.log, Replied(reply.value.id, s.slots[reply.value.id].isActive), i);
      } else {
        ScanKeepsDue(p, s1.(socketProcessed := true), i);
      }
    }
  }

  lemma StepKeepsDue(p: Params, s: State, op: Op, i: nat)
    requires Callable(|s.slots|, op) && DueInv(p, s, i)
    ensures DueInv(p, Step(p, s, op), i)
  {
    match op
    case SendOp(id, payload) =>
      if !s.slots[id].isActive {
        var slot := Slot(true, Le32(id) + payload, 0, s.slots[id].deadline);
        TransmitKeepsDue(p, s.(slots := s.slots[id := slot]), id, i);
      }
    case UpdateOp => LastTransmissionSnoc(s.log, Updated, i);
    case ArriveOp(_) =>
    case RecvOp => RecvKeepsDue(p, s, i);
  }

  lemma {:induction false} RunKeepsDue(p: Params, s: State, ops: seq<Op>, i: nat)
    requires AllCallable(|s.slots|, ops) && DueInv(p, s, i)
    ensures DueInv(p, Run(p, s, ops), i)
    decreases |ops|
  {
    if ops != [] {
      assert ops[0] in ops && forall op :: op in ops[1..] ==> op in ops;
      StepKeepsDue(p, s, ops[0], i);
      RunKeepsDue(p, Step(p, s, ops[0]), ops[1..], i);
    }
  }

  /** In every run an active request is due exactly the timeout after its last transmission, first or retry. */
  lemma DueAfterTimeout(p: Params, slotCount: nat, inbound: seq<Inbound>, ops: seq<Op>, id: nat)
    requires AllCallable(slotCount, ops) && id < slotCount
    ensures var s := Run(p, Init(slotCount, inbound), ops);
            s.slots[id].isActive ==>
              var t := LastTransmission(s.log, id);
              t >= 0 && s.slots[id].deadline == s.log[t].time + p.sendTimeout
  {
    RunKeepsDue(p, Init(slotCount, inbound), ops, id);
  }
}

/**
 What the engine keeps over every run: any interleaving of send, update and
 recv calls and of datagrams arriving, under any clock that does not run back.
 */
module UdpRuns {
  import opened Bytes
  import opened UdpSpec

  datatype Op = SendOp(id: nat, payload: seq<byte>) | UpdateOp | RecvOp | ArriveOp(x: Inbound)

  predicate Callable(slotCount: nat, op: Op) {
    op.SendOp? ==>
      op.id < slotCount <= 0x1_0000_0000 && |op.payload| + REQ_ID_SIZE < MAX_DATAGRAM_SIZE
  }

  ghost predicate AllCallable(slotCount: nat, ops: seq<Op>) {
    forall op :: op in ops ==> Callable(slotCount, op)
  }

  ghost function Step(p: Params, s: State, op: Op): (s': State)
    requires Callable(|s.slots|, op)
    ensures |s'.slots| == |s.slots|
  {
    match op
    case SendOp(id, payload) => SendRequest(p, s, id, payload)
    case UpdateOp => Update(s)
    case RecvOp => RecvConsumes(p, s); Recv(p, s).0
    case ArriveOp(x) => s.(inbound := s.inbound + [x])
  }

  ghost function Run(p: Params, s: State, ops: seq<Op>): (s': State)
    requires AllCallable(|s.slots|, ops)
    ensures |s'.slots| == |s.slots|
    decreases |ops|
  {
    if ops == [] then s
    else
      assert ops[0] in ops && forall op :: op in ops[1..] ==> op in ops;
      Run(p, Step(p, s, ops[0]), ops[1..])
  }

  // ---- reading the log -------------------------------------------------------

  datatype Kind = AcceptedSend | FinalTimeout | ActiveReply

  predicate Matches(e: Entry, kind: Kind, id: nat) {
    match kind
    case AcceptedSend => e.Sent? && e.id == id
    case FinalTimeout => e.TimedOut? && e.id == id
    case ActiveReply => e.Replied? && e.id == id && e.wasActive
  }

  /** How many entries of one kind the log holds for one request id. */
  function Tally(log: seq<Entry>, kind: Kind, id: nat): nat {
    if log == [] then 0
    else
      var n := |log| - 1;
      Tally(log[..n], kind, id) + (if Matches(log[n], kind, id) then 1 else 0)
  }

  /** Where the last accepted send of a request id stands in the log; -1 if nowhere. */
  function LastSent(log: seq<Entry>, id: nat): (a: int)
    ensures -1 <= a < |log|
    ensures a >= 0 ==> log[a].Sent? && log[a].id == id
    ensures forall k :: a < k < |log| ==> !Matches(log[k], AcceptedSend, id)
  {
    if log == [] then -1
    else if Matches(log[|log| - 1], AcceptedSend, id) then |log| - 1
    else LastSent(log[..|log| - 1], id)
  }

  /** Retransmissions of a request id after its last accepted send. */
  function ResentSince(log: seq<Entry>, id: nat): nat {
    if log == [] then 0
    else
      var n := |log| - 1;
      if Matches(log[n], AcceptedSend, id) then 0
      else ResentSince(log[..n], id) + (if log[n].Resent? && log[n].id == id then 1 else 0)
  }

  /** Retransmissions of a request id in the current update cycle. */
  function ResentInCycle(log: seq<Entry>, id: nat): nat {
    if log == [] then 0
    else
      var n := |log| - 1;
      if log[n].Updated? then 0
      else ResentInCycle(log[..n], id) + (if log[n].Resent? && log[n].id == id then 1 else 0)
  }

  // ---- the invariant -----------------------------------------------------------

  /** Attempts a request gets: the first one is made whatever the limit is. */
  function MaxAttempts(p: Params): nat {
    if p.sendAttempts < 1 then 1 else p.sendAttempts
  }

  /** The earliest second at which `n` attempts that began at `t0` can have run out. */
  function Earliest(p: Params, t0: int, n: nat): int {
    t0 + n * (p.sendTimeout + 1)
  }

  ghost predicate SlotInv(p: Params, s: State, i: nat)
    requires i < |s.slots|
  {
    var slot := s.slots[i];
    var a := LastSent(s.log, i);
    && Tally(s.log, AcceptedSend, i)
       == Tally(s.log, FinalTimeout, i) + Tally(s.log, ActiveReply, i) + (if slot.isActive then 1 else 0)
    && ResentInCycle(s.log, i) <= (if i < s.cursor then 1 else 0)
    && (slot.isActive ==>
          && a >= 0 && s.log[a].frame == slot.frame
          && slot.attemptNum == 1 + ResentSince(s.log, i) <= MaxAttempts(p)
          && slot.deadline >= Earliest(p, s.log[a].time, slot.attemptNum) - 1)
  }

  /** What each entry says about the entries before it. */
  ghost predicate EntryInv(p: Params, log: seq<Entry>, k: nat)
    requires k < |log|
  {
    match log[k]
    case Sent(id, _, frame) => |frame| >= REQ_ID_SIZE && FromLe32(frame) == id
    case Resent(id, _, frame) => var a := LastSent(log[..k], id); a >= 0 && log[a].frame == frame
    case TimedOut(id, t) =>
      var a := LastSent(log[..k], id);
      && a >= 0
      && 1 + ResentSince(log[..k], id) == MaxAttempts(p)
      && t >= Earliest(p, log[a].time, MaxAttempts(p))
    case _ => true
  }

  ghost predicate Inv(p: Params, s: State) {
    && s.cursor <= |s.slots|
    && (forall i: nat :: i < |s.slots| ==> SlotInv(p, s, i))
    && (forall k: nat :: k < |s.log| ==> EntryInv(p, s.log, k))
  }

  /** How each reading of the log changes when one entry is appended. */
  lemma Snoc(log: seq<Entry>, e: Entry, id: nat)
    ensures forall kind :: Tally(log + [e], kind, id) == Tally(log, kind, id) + (if Matches(e, kind, id) then 1 else 0)
    ensures LastSent(log + [e], id) == if Matches(e, AcceptedSend, id) then |log| else LastSent(log, id)
    ensures ResentSince(log + [e], id) == if Matches(e, AcceptedSend, id) then 0
                                          else ResentSince(log, id) + (if e.Resent? && e.id == id then 1 else 0)
    ensures ResentInCycle(log + [e], id) == if e.Updated? then 0
                                            else ResentInCycle(log, id) + (if e.Resent? && e.id == id then 1 else 0)
  {
    assert (log + [e])[..|log|] == log;
  }

  lemma SnocKeepsEntries(p: Params, log: seq<Entry>, e: Entry)
    requires forall k: nat :: k < |log| ==> EntryInv(p, log, k)
    requires EntryInv(p, log + [e], |log|)
    ensures forall k: nat :: k < |log + [e]| ==> EntryInv(p, log + [e], k)
  {
    forall k: nat | k < |log| ensures EntryInv(p, log + [e], k) {
      assert (log + [e])[..k] == log[..k];
      assert EntryInv(p, log, k);
    }
  }

  /** An entry about another request leaves a slot's account as it is. */
  lemma OtherSlotKept(p: Params, s: State, s': State, e: Entry, i: nat)
    requires i < |s.slots| == |s'.slots| && SlotInv(p, s, i)
    requires s'.log == s.log + [e] && !e.Updated? && e.id != i
    requires s'.slots[i] == s.slots[i] && s'.cursor >= s.cursor
    ensures SlotInv(p, s', i)
  {
    Snoc(s.log, e, i);
  }

  lemma InitInv(p: Params, slotCount: nat, inbound: seq<Inbound>)
    ensures Inv(p, Init(slotCount, inbound))
  {
  }

  /** An entry about slot `c` keeps the invariant if the slot's own account comes out right. */
  lemma AppendKeepsInv(p: Params, s: State, s': State, e: Entry, c: nat)
    requires Inv(p, s) && c < |s.slots| == |s'.slots| && s.cursor <= s'.cursor <= |s.slots|
    requires s'.log == s.log + [e] && !e.Updated? && e.id == c
    requires forall i: nat :: i < |s.slots| && i != c ==> s'.slots[i] == s.slots[i]
    requires EntryInv(p, s.log + [e], |s.log|) && SlotInv(p, s', c)
    ensures Inv(p, s')
  {
    SnocKeepsEntries(p, s.log, e);
    forall i: nat | i < |s.slots| && i != c ensures SlotInv(p, s', i) {
      OtherSlotKept(p, s, s', e, i);
    }
  }

  lemma SendKeepsInv(p: Params, s: State, id: nat, payload: seq<byte>)
    requires Inv(p, s) && Sendable(s, id, payload)
    ensures Inv(p, SendRequest(p, s, id, payload))
  {
    if !s.slots[id].isActive {
      var s' := SendRequest(p, s, id, payload);
      var e := Sent(id, p.clock(s.ticks), Le32(id) + payload);
      Le32RoundTrip([], id, payload);
      assert (Le32(id) + payload)[0..] == Le32(id) + payload == [] + Le32(id) + payload;
      Snoc(s.log, e, id);
      assert SlotInv(p, s, id);
      AppendKeepsInv(p, s, s', e, id);
    }
  }

  lemma UpdateKeepsInv(p: Params, s: State)
    requires Inv(p, s)
    ensures Inv(p, Update(s))
  {
    SnocKeepsEntries(p, s.log, Updated);
    forall i: nat | i < |s.slots| ensures SlotInv(p, Update(s), i) {
      Snoc(s.log, Updated, i);
      assert SlotInv(p, s, i);
    }
  }

  lemma AnswerKeepsInv(p: Params, s: State, id: nat)
    requires Inv(p, s) && id < |s.slots|
    ensures Inv(p, Answer(s, id))
  {
    var e := Replied(id, s.slots[id].isActive);
    SnocKeepsEntries(p, s.log, e);
    forall i: nat | i < |s.slots| ensures SlotInv(p, Answer(s, id), i) {
      Snoc(s.log, e, i);
      assert SlotInv(p, s, i);
    }
  }

  /** A slot that is inactive or not yet overdue is stepped over. */
  lemma PassKeepsInv(p: Params, s: State, ticks: nat)
    requires Inv(p, s) && s.cursor < |s.slots|
    ensures Inv(p, s.(ticks := ticks, cursor := s.cursor + 1))
  {
    var s' := s.(ticks := ticks, cursor := s.cursor + 1);
    forall i: nat | i < |s.slots| ensures SlotInv(p, s', i) {
      assert SlotInv(p, s, i);
    }
  }

  lemma ResendKeepsInv(p: Params, s: State, now: int)
    requires Inv(p, s) && s.cursor < |s.slots| && s.slots[s.cursor].isActive
    requires s.slots[s.cursor].deadline < now <= p.clock(s.ticks)
    requires s.slots[s.cursor].attemptNum < p.sendAttempts
    ensures Inv(p, Transmit(p, s, s.cursor).(cursor := s.cursor + 1))
  {
    var c := s.cursor;
    var e := Resent(c, p.clock(s.ticks), s.slots[c].frame);
    assert SlotInv(p, s, c);
    ResentSlot(p, s, now);
    assert (s.log + [e])[..|s.log|] == s.log;
    AppendKeepsInv(p, s, Transmit(p, s, c).(cursor := c + 1), e, c);
  }

  lemma ResentSlot(p: Params, s: State, now: int)
    requires s.cursor < |s.slots| && s.slots[s.cursor].isActive && SlotInv(p, s, s.cursor)
    requires s.slots[s.cursor].deadline < now <= p.clock(s.ticks)
    requires s.slots[s.cursor].attemptNum < p.sendAttempts
    ensures var s' := Transmit(p, s, s.cursor).(cursor := s.cursor + 1);
            && s'.log == s.log + [Resent(s.cursor, p.clock(s.ticks), s.slots[s.cursor].frame)]
            && SlotInv(p, s', s.cursor)
  {
    var c := s.cursor;
    Snoc(s.log, Resent(c, p.clock(s.ticks), s.slots[c].frame), c);
    NextAttempt(p, s.log[LastSent(s.log, c)].time, s.slots[c].attemptNum);
  }

  lemma ExpireKeepsInv(p: Params, s: State, now: int, ticks: nat)
    requires Inv(p, s) && s.cursor < |s.slots| && s.slots[s.cursor].isActive
    requires s.slots[s.cursor].deadline < now
    requires s.slots[s.cursor].attemptNum >= p.sendAttempts
    ensures Inv(p, s.(ticks := ticks, slots := Deactivate(s.slots, s.cursor), log := s.log + [TimedOut(s.cursor, now)]))
  {
    var c := s.cursor;
    var e := TimedOut(c, now);
    var s' := s.(ticks := ticks, slots := Deactivate(s.slots, c), log := s.log + [e]);
    assert SlotInv(p, s, c);
    assert (s.log + [e])[..|s.log|] == s.log;
    assert SlotInv(p, s', c) by { Snoc(s.log, e, c); }
    AppendKeepsInv(p, s, s', e, c);
  }

  lemma VisitKeepsInv(p: Params, s: State)
    requires Inv(p, s) && s.cursor < |s.slots| && Monotone(p.clock)
    ensures Inv(p, Visit(p, s).0)
  {
    var slot := s.slots[s.cursor];
    var now := p.clock(s.ticks);
    if !slot.isActive {
      PassKeepsInv(p, s, s.ticks);
    } else if slot.deadline >= now {
      PassKeepsInv(p, s, s.ticks + 1);
    } else if slot.attemptNum < p.sendAttempts {
      TicksIrrelevant(p, s, s.ticks + 1);
      assert now <= p.clock(s.ticks + 1);
      ResendKeepsInv(p, s.(ticks := s.ticks + 1), now);
    } else {
      ExpireKeepsInv(p, s, now, s.ticks + 1);
    }
  }

  lemma TicksIrrelevant(p: Params, s: State, ticks: nat)
    requires Inv(p, s)
    ensures Inv(p, s.(ticks := ticks))
  {
    forall i: nat | i < |s.slots| ensures SlotInv(p, s.(ticks := ticks), i) {
      assert SlotInv(p, s, i);
    }
  }

  lemma NextAttempt(p: Params, t0: int, n: nat)
    ensures Earliest(p, t0, n + 1) == Earliest(p, t0, n) + p.sendTimeout + 1
  {
  }

  lemma {:induction false} ScanKeepsInv(p: Params, s: State)
    requires Inv(p, s) && Monotone(p.clock)
    ensures Inv(p, Scan(p, s).0)
    decreases |s.slots| - s.cursor
  {
    if s.cursor < |s.slots| {
      VisitKeepsInv(p, s);
      if !Visit(p, s).1 {
        ScanKeepsInv(p, Visit(p, s).0);
      }
    }
  }

  lemma InboundIrrelevant(p: Params, s: State, inbound: seq<Inbound>, socketProcessed: bool)
    requires Inv(p, s)
    ensures Inv(p, s.(inbound := inbound, socketProcessed := socketProcessed))
  {
    var s' := s.(inbound := inbound, socketProcessed := socketProcessed);
    forall i: nat | i < |s.slots| ensures SlotInv(p, s', i) {
      assert SlotInv(p, s, i);
    }
  }

  lemma StepKeepsInv(p: Params, s: State, op: Op)
    requires Inv(p, s) && Monotone(p.clock) && Callable(|s.slots|, op)
    ensures Inv(p, Step(p, s, op))
  {
    match op
    case SendOp(id, payload) => SendKeepsInv(p, s, id, payload);
    case UpdateOp => UpdateKeepsInv(p, s);
    case ArriveOp(x) => InboundIrrelevant(p, s, s.inbound + [x], s.socketProcessed);
    case RecvOp =>
      if s.socketProcessed {
        ScanKeepsInv(p, s);
      } else {
        var (s1, reply) := TryReceive(s);
        InboundIrrelevant(p, s, s1.inbound, false);
        InboundIrrelevant(p, s, s1.inbound, true);
        if reply.Some? {
          AnswerKeepsInv(p, s1, reply.value.id);
        } else {
          ScanKeepsInv(p, s1.(socketProcessed := true));
        }
      }
  }

  lemma {:induction false} RunKeepsInv(p: Params, s: State, ops: seq<Op>)
    requires Inv(p, s) && Monotone(p.clock) && AllCallable(|s.slots|, ops)
    ensures Inv(p, Run(p, s, ops))
    decreases |ops|
  {
    if ops != [] {
      assert ops[0] in ops && forall op :: op in ops[1..] ==> op in ops;
      StepKeepsInv(p, s, ops[0]);
      RunKeepsInv(p, Step(p, s, ops[0]), ops[1..]);
    }
  }

  // ---- the main results over runs -------------------------------------------------

  /**
   A timeout comes after exactly the allowed number of attempts since the last
   accepted send, and no earlier than their deadlines permit.
   */
  lemma TimeoutTiming(p: Params, slotCount: nat, inbound: seq<Inbound>, ops: seq<Op>, k: nat)
    requires Monotone(p.clock) && AllCallable(slotCount, ops)
    requires k < |Run(p, Init(slotCount, inbound), ops).log|
    requires Run(p, Init(slotCount, inbound), ops).log[k].TimedOut?
    ensures var log := Run(p, Init(slotCount, inbound), ops).log;
            var id := log[k].id;
            var a := LastSent(log[..k], id);
            && 0 <= a < k
            && 1 + ResentSince(log[..k], id) == MaxAttempts(p)
            && log[k].time >= log[a].time + MaxAttempts(p) * (p.sendTimeout + 1)
  {
    InitInv(p, slotCount, inbound);
    RunKeepsInv(p, Init(slotCount, inbound), ops);
    assert EntryInv(p, Run(p, Init(slotCount, inbound), ops).log, k);
  }

  /** Every accepted send is answered, reported as timed out, or still active. */
  lemma RequestConservation(p: Params, slotCount: nat, inbound: seq<Inbound>, ops: seq<Op>, id: nat)
    requires Monotone(p.clock) && AllCallable(slotCount, ops) && id < slotCount
    ensures var s := Run(p, Init(slotCount, inbound), ops);
            && Tally(s.log, AcceptedSend, id)
               == Tally(s.log, FinalTimeout, id) + Tally(s.log, ActiveReply, id)
                  + (if s.slots[id].isActive then 1 else 0)
            && (s.slots[id].isActive ==> 1 <= s.slots[id].attemptNum <= MaxAttempts(p))
            && ResentInCycle(s.log, id) <= 1
  {
    InitInv(p, slotCount, inbound);
    RunKeepsInv(p, Init(slotCount, inbound), ops);
    assert SlotInv(p, Run(p, Init(slotCount, inbound), ops), id);
  }

  /** Every retransmission repeats, octet for octet, the frame of the send it belongs to. */
  lemma RetransmissionsIdentical(p: Params, slotCount: nat, inbound: seq<Inbound>, ops: seq<Op>, k: nat)
    requires Monotone(p.clock) && AllCallable(slotCount, ops)
    requires k < |Run(p, Init(slotCount, inbound), ops).log|
    requires Run(p, Init(slotCount, inbound), ops).log[k].Resent?
    ensures var log := Run(p, Init(slotCount, inbound), ops).log;
            var a := LastSent(log[..k], log[k].id);
            && 0 <= a < k && log[a].frame == log[k].frame
            && |log[k].frame| >= REQ_ID_SIZE && FromLe32(log[k].frame) == log[k].id
  {
    InitInv(p, slotCount, inbound);
    RunKeepsInv(p, Init(slotCount, inbound), ops);
    var log := Run(p, Init(slotCount, inbound), ops).log;
    var a := LastSent(log[..k], log[k].id);
    assert EntryInv(p, log, k);
    assert log[a] == log[..k][a];
    assert EntryInv(p, log, a);
  }

  // ---- completeness of a cycle with a moving clock ------------------------------------

  /** Behind the cursor nothing active was due when the cycle began. */
  ghost predicate CycleInv(p: Params, s: State, begin: int) {
    && p.clock(s.ticks) >= begin
    && forall i: nat :: i < s.cursor && i < |s.slots| && s.slots[i].isActive ==> s.slots[i].deadline >= begin
  }

  lemma {:induction false} ScanKeepsCycle(p: Params, s: State, begin: int)
    requires CycleInv(p, s, begin) && Monotone(p.clock)
    ensures CycleInv(p, Scan(p, s).0, begin)
    decreases |s.slots| - s.cursor
  {
    if s.cursor < |s.slots| {
      var (s1, expired) := Visit(p, s);
      assert p.clock(s.ticks) <= p.clock(s1.ticks) && p.clock(s.ticks) <= p.clock(s.ticks + 1);
      assert CycleInv(p, s1, begin);
      if !expired { ScanKeepsCycle(p, s1, begin); }
    }
  }

  lemma {:induction false} RunKeepsCycle(p: Params, s: State, ops: seq<Op>, begin: int)
    requires CycleInv(p, s, begin) && Monotone(p.clock)
    requires AllCallable(|s.slots|, ops) && UpdateOp !in ops
    ensures CycleInv(p, Run(p, s, ops), begin)
    decreases |ops|
  {
    if ops != [] {
      assert ops[0] in ops && forall op :: op in ops[1..] ==> op in ops;
      var s1 := Step(p, s, ops[0]);
      match ops[0] {
        case SendOp(id, payload) => assert p.clock(s.ticks) <= p.clock(s.ticks + 1);
        case UpdateOp => assert false;
        case ArriveOp(_) =>
        case RecvOp =>
          if s.socketProcessed {
            ScanKeepsCycle(p, s, begin);
          } else if TryReceive(s).1.None? {
            ScanKeepsCycle(p, TryReceive(s).0.(socketProcessed := true), begin);
          }
      }
      RunKeepsCycle(p, s1, ops[1..], begin);
    }
  }

  /**
   Once recv returns false, no active request has a deadline that had already
   passed when the cycle began, whatever was sent or arrived in between.
   */
  lemma CycleComplete(p: Params, s: State, ops: seq<Op>)
    requires Monotone(p.clock) && AllCallable(|s.slots|, ops) && UpdateOp !in ops
    requires Recv(p, Run(p, Update(s), ops)).1.None?
    ensures var s' := Recv(p, Run(p, Update(s), ops)).0;
            forall i: nat :: i < |s'.slots| && s'.slots[i].isActive ==> s'.slots[i].deadline >= p.clock(s.ticks)
  {
    var begin := p.clock(s.ticks);
    var s1 := Run(p, Update(s), ops);
    RunKeepsCycle(p, Update(s), ops, begin);
    RecvConsumes(p, s1);
    RunKeepsCycle(p, s1, [RecvOp], begin);
    assert Run(p, s1, [RecvOp]) == Recv(p, s1).0 by {
      assert [RecvOp][1..] == [];
    }
  }
}

/**
 What the UDP request engine does, as functions on its state: the request
 slots, the resumable scan (`socketProcessed`, `cursor`), the socket's inbound
 queue and a chronological log.  The class in udp_request.dfy is proved
 against these functions; udp_runs.dfy and udp_drain.dfy prove what they mean.
 */
module UdpSpec {
  import opened Bytes

  const REQ_ID_SIZE := 4

  /** One request slot.  `frame` is the first `len` octets of the slot's buffer. */
  datatype Slot = Slot(isActive: bool, frame: seq<byte>, attemptNum: nat, deadline: int)

  /** What one call of the socket's recv() finds: an error, or a datagram. */
  datatype Inbound = SocketError | Datagram(bytes: seq<byte>)

  /**
   The constants of one engine.  `clock(k)` is the value of the k-th reading of
   time(); `Monotone` says it never runs backwards.
   */
  datatype Params = Params(sendAttempts: nat, sendTimeout: nat, clock: nat -> int)

  ghost predicate Monotone(clock: nat -> int) {
    forall i: nat, j: nat :: i <= j ==> clock(i) <= clock(j)
  }

  /** The log: what was put on the wire, what was reported, where cycles begin. */
  datatype Entry =
    | Sent(id: nat, time: int, frame: seq<byte>)
    | Resent(id: nat, time: int, frame: seq<byte>)
    | Updated
    | Replied(id: nat, wasActive: bool)
    | TimedOut(id: nat, time: int)

  datatype State = State(
    slots: seq<Slot>, socketProcessed: bool, cursor: nat,
    ticks: nat, inbound: seq<Inbound>, log: seq<Entry>)

  /** What recv() hands to its caller. */
  datatype Event = Reply(id: nat, payload: seq<byte>) | Timeout(id: nat)

  const BLANK_SLOT := Slot(false, [], 0, 0)

  function Init(slotCount: nat, inbound: seq<Inbound>): State {
    State(seq(slotCount, i => BLANK_SLOT), false, 0, 0, inbound, [])
  }

  // ---- sending -------------------------------------------------------------

  /** The private send: one transmission attempt of a slot, timed by the clock. */
  function Transmit(p: Params, s: State, id: nat): State
    requires id < |s.slots|
  {
    var slot := s.slots[id];
    var now := p.clock(s.ticks);
    s.(slots := s.slots[id := slot.(deadline := now + p.sendTimeout, attemptNum := slot.attemptNum + 1)],
       ticks := s.ticks + 1,
       log := s.log + [if slot.attemptNum == 0 then Sent(id, now, slot.frame) else Resent(id, now, slot.frame)])
  }

  /** What the two asserts of the public send demand of its caller. */
  predicate Sendable(s: State, id: nat, payload: seq<byte>) {
    && id < |s.slots| <= 0x1_0000_0000
    && |payload| + REQ_ID_SIZE < MAX_DATAGRAM_SIZE
  }

  function SendRequest(p: Params, s: State, id: nat, payload: seq<byte>): State
    requires Sendable(s, id, payload)
  {
    if s.slots[id].isActive then s
    else
      var slot := Slot(true, Le32(id) + payload, 0, s.slots[id].deadline);
      Transmit(p, s.(slots := s.slots[id := slot]), id)
  }

  // ---- receiving -----------------------------------------------------------

  /** A datagram that carries a request id of this engine. */
  predicate Usable(x: Inbound, slotCount: nat) {
    x.Datagram? && |x.bytes| >= REQ_ID_SIZE && FromLe32(x.bytes) < slotCount
  }

  /** What the socket puts into the receive buffer: the end of a longer datagram is cut off. */
  function Cut(bytes: seq<byte>): (r: seq<byte>)
    ensures r <= bytes && (r == bytes <==> |bytes| <= MAX_DATAGRAM_SIZE)
  {
    if |bytes| <= MAX_DATAGRAM_SIZE then bytes else bytes[..MAX_DATAGRAM_SIZE]
  }

  function AsReply(x: Inbound): Event
    requires x.Datagram? && |x.bytes| >= REQ_ID_SIZE
  {
    Reply(FromLe32(x.bytes), Cut(x.bytes)[REQ_ID_SIZE..])
  }

  /** One read of the socket.  An unusable datagram is consumed and lost. */
  function TryReceive(s: State): (r: (State, Option<Event>))
  {
    if s.inbound == [] then (s, None)
    else
      var s1 := s.(inbound := s.inbound[1..]);
      if Usable(s.inbound[0], |s.slots|) then (s1, Some(AsReply(s.inbound[0]))) else (s1, None)
  }

  function Deactivate(slots: seq<Slot>, id: nat): seq<Slot>
    requires id < |slots|
  {
    slots[id := slots[id].(isActive := false)]
  }

  function Answer(s: State, id: nat): State
    requires id < |s.slots|
  {
    s.(slots := Deactivate(s.slots, id), log := s.log + [Replied(id, s.slots[id].isActive)])
  }

  /** One turn of the scan loop; the flag says that the slot finally timed out. */
  function Visit(p: Params, s: State): (r: (State, bool))
    requires s.cursor < |s.slots|
  {
    var i := s.cursor;
    var slot := s.slots[i];
    if !slot.isActive then (s.(cursor := i + 1), false)
    else
      var now := p.clock(s.ticks);
      var s1 := s.(ticks := s.ticks + 1);
      if slot.deadline >= now then (s1.(cursor := i + 1), false)
      else if slot.attemptNum < p.sendAttempts then (Transmit(p, s1, i).(cursor := i + 1), false)
      else (s1.(slots := Deactivate(s.slots, i), log := s.log + [TimedOut(i, now)]), true)
  }

  function Scan(p: Params, s: State): (r: (State, Option<Event>))
    decreases |s.slots| - s.cursor
  {
    if s.cursor >= |s.slots| then (s, None)
    else
      var (s1, expired) := Visit(p, s);
      if expired then (s1, Some(Timeout(s.cursor))) else Scan(p, s1)
  }

  function Update(s: State): State {
    s.(socketProcessed := false, cursor := 0, log := s.log + [Updated])
  }

  function Recv(p: Params, s: State): (r: (State, Option<Event>)) {
    if s.socketProcessed then Scan(p, s)
    else
      var (s1, reply) := TryReceive(s);
      if reply.Some? then (Answer(s1, reply.value.id), reply)
      else Scan(p, s1.(socketProcessed := true))
  }

  // ---- draining: recv() until it returns false --------------------------------

  ghost function ActiveSlots(slots: seq<Slot>): set<nat> {
    set i | 0 <= i < |slots| && slots[i].isActive
  }

  /** Datagrams that can still be delivered plus requests that can still expire. */
  ghost function Pending(s: State): nat {
    (if s.socketProcessed then 0 else |s.inbound|) + |ActiveSlots(s.slots)|
  }

  lemma {:induction false} ScanFacts(p: Params, s: State)
    ensures var (s1, e) := Scan(p, s);
            && |s1.slots| == |s.slots| && s1.socketProcessed == s.socketProcessed && s1.inbound == s.inbound
            && s.cursor <= s1.cursor && s.ticks <= s1.ticks
            && (e.None? ==> s1.cursor >= |s.slots| && ActiveSlots(s1.slots) == ActiveSlots(s.slots))
            && (e.Some? ==>
                && s1.cursor < |s.slots| && e == Some(Timeout(s1.cursor))
                && s1.cursor in ActiveSlots(s.slots)
                && ActiveSlots(s1.slots) == ActiveSlots(s.slots) - {s1.cursor})
    decreases |s.slots| - s.cursor
  {
    if s.cursor < |s.slots| {
      var (s1, expired) := Visit(p, s);
      if !expired {
        assert ActiveSlots(s1.slots) == ActiveSlots(s.slots);
        ScanFacts(p, s1);
      }
    }
  }

  /** Every event delivered uses up one unit of what is pending. */
  lemma RecvConsumes(p: Params, s: State)
    ensures var (s1, e) := Recv(p, s);
            && |s1.slots| == |s.slots|
            && (e.Some? ==> Pending(s1) < Pending(s))
            && (e.None? ==> s1.socketProcessed && s1.cursor >= |s.slots|)
  {
    if s.socketProcessed {
      ScanFacts(p, s);
    } else {
      var (s1, reply) := TryReceive(s);
      if reply.Some? {
        var s2 := Answer(s1, reply.value.id);
        assert ActiveSlots(s2.slots) == ActiveSlots(s.slots) - {reply.value.id};
      } else {
        ScanFacts(p, s1.(socketProcessed := true));
      }
    }
  }

  ghost function Drain(p: Params, s: State): (r: (State, seq<Event>))
    decreases Pending(s)
  {
    RecvConsumes(p, s);
    var (s1, e) := Recv(p, s);
    if e.None? then (s1, [])
    else var (s2, es) := Drain(p, s1); (s2, [e.value] + es)
  }
}

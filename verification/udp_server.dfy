/**
 The Python end of the UDP framing: a request is a 32-bit id and a payload, and
 so is a response.
 */
module UdpServer {
  import opened Bytes
  import opened UdpSpec
  import opened UdpRuns
  import opened UdpPayload

  const MIN_REQUEST_SIZE := 5

  /** A peer: the socket a request came in on and the client's address. */
  type Peer = nat

  /** What handle() passes to the callback; None for a malformed request. */
  function Unframe(data: seq<byte>): Option<(nat, seq<byte>)> {
    if |data| < MIN_REQUEST_SIZE then None else Some((FromLe32(data), data[REQ_ID_SIZE..]))
  }

  function Frame(channel: uint32, data: seq<byte>): seq<byte> {
    Le32(channel) + data
  }

  class SCPRequestHandler {
    var requests: map<nat, Peer>

    constructor ()
      ensures requests == map[]
    {
      requests := map[];
    }

    method Handle(data: seq<byte>, from: Peer) returns (request: Option<(nat, seq<byte>)>)
      modifies this
      ensures request == Unframe(data)
      ensures requests == if request.Some? then old(requests)[request.value.0 := from] else old(requests)
    {
      if |data| < MIN_REQUEST_SIZE { return None; }
      var channel := FromLe32(data);
      requests := requests[channel := from];
      request := Some((channel, data[REQ_ID_SIZE..]));
    }

    /** What is sent and to whom; None when no request is known on the channel. */
    method SendResponse(channel: uint32, data: seq<byte>) returns (sent: Option<(Peer, seq<byte>)>)
      ensures sent == if channel in requests then Some((requests[channel], Frame(channel, data))) else None
    {
      if channel !in requests { return None; }
      var buffer: seq<byte> := [];
      buffer := buffer + Le32(channel);
      buffer := buffer + data;
      assert buffer == Frame(channel, data);
      sent := Some((requests[channel], buffer));
    }
  }

  lemma UnframeFrame(id: uint32, payload: seq<byte>)
    ensures Unframe(Frame(id, payload)) == if payload == [] then None else Some((id, payload))
  {
    Le32RoundTrip([], id, payload);
    assert Frame(id, payload)[0..] == Frame(id, payload) == [] + Le32(id) + payload;
  }

  /** What the callback gets for a send: its id and payload; an empty payload is refused as malformed. */
  function Delivered(op: Op): Option<(nat, seq<byte>)>
    requires op.SendOp?
  {
    if op.payload == [] then None else Some((op.id, op.payload))
  }

  lemma CarriedIsDelivered(e: Entry, op: Op)
    requires (e.Sent? || e.Resent?) && op.SendOp? && CarriesSend(e, op)
    ensures Unframe(e.frame) == Delivered(op)
  {
  }

  /**
   Any transmission in any run, the first or a retry, gives the server's callback
   exactly what the operation it stems from was given to send.
   */
  lemma TransmissionReachesCallback(p: Params, slotCount: nat, inbound: seq<Inbound>, ops: seq<Op>, k: nat)
    requires Monotone(p.clock) && AllCallable(slotCount, ops)
    requires k < |Run(p, Init(slotCount, inbound), ops).log|
    requires var e := Run(p, Init(slotCount, inbound), ops).log[k]; e.Sent? || e.Resent?
    ensures var log := Run(p, Init(slotCount, inbound), ops).log;
            var a := LastSent(log[..k + 1], log[k].id);
            a >= 0 && exists j: nat :: SendsAt(p, Init(slotCount, inbound), ops, j, a)
                                       && ops[j].id == log[k].id && Unframe(log[k].frame) == Delivered(ops[j])
  {
    var s := Init(slotCount, inbound);
    var log := Run(p, s, ops).log;
    var a := LastSent(log[..k + 1], log[k].id);
    TransmissionHasSend(p, slotCount, inbound, ops, k);
    var j: nat :| SendsAt(p, s, ops, j, a) && ops[j].id == log[k].id && CarriesSend(log[k], ops[j]);
    CarriedIsDelivered(log[k], ops[j]);
  }

  /** Conversely every accepted send, in any run, is transmitted and reaches the callback. */
  lemma SendReachesCallback(p: Params, slotCount: nat, inbound: seq<Inbound>, ops: seq<Op>, j: nat, a: nat)
    requires Monotone(p.clock) && AllCallable(slotCount, ops) && SendsAt(p, Init(slotCount, inbound), ops, j, a)
    ensures var log := Run(p, Init(slotCount, inbound), ops).log;
            && a < |log| && log[a].Sent? && log[a].id == ops[j].id
            && Unframe(log[a].frame) == Delivered(ops[j])
  {
    InitInv(p, slotCount, inbound);
    WholeRun(p, Init(slotCount, inbound), ops);
    SendIsLogged(p, Init(slotCount, inbound), ops, j, a);
    CarriedIsDelivered(Run(p, Init(slotCount, inbound), ops).log[a], ops[j]);
  }

  /**
   The server's response to a request comes back from recv under the same id and
   frees its slot.  The payload is intact if and only if the whole response fits
   the receive buffer; else its end is lost.
   */
  lemma ResponseReturned(p: Params, s: State, id: uint32, response: seq<byte>)
    requires !s.socketProcessed && id < |s.slots|
    requires s.inbound != [] && s.inbound[0] == Datagram(Frame(id, response))
    ensures var (s', e) := Recv(p, s);
            && e.Some? && e.value.Reply? && e.value.id == id && e.value.payload <= response
            && (e.value.payload == response <==> |response| <= MAX_DATAGRAM_SIZE - REQ_ID_SIZE)
            && s'.slots == Deactivate(s.slots, id) && s'.inbound == s.inbound[1..]
  {
    var frame := Frame(id, response);
    Le32RoundTrip([], id, response);
    assert frame[0..] == frame == [] + Le32(id) + response;
    assert frame[REQ_ID_SIZE..] == response;
    assert Cut(frame)[REQ_ID_SIZE..] == response[..|Cut(frame)| - REQ_ID_SIZE];
  }
}

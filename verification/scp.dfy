/**
 The two ends of the ZMQ link: the call server's transport, which frames an
 event under a request id and a session, and the service logic script, which
 answers each event with one command under the same two numbers.
 */
module Scp {
  import opened Bytes
  import opened Wire

  const ID_SIZES := 8

  // ---- the call server's transport ---------------------------------------------

  function EventFrame(request: uint32, session: uint32, e: Event): seq<byte> {
    Le32(request) + Le32(session) + EncodeEvent(e)
  }

  /**
   What receiving a message amounts to.  `Overrun` is a payload larger than the
   caller's buffer, behind whose end the copy goes on: what then happens is undefined.
   */
  datatype Reception = Nothing | Received(session: uint32, data: seq<byte>) | Overrun

  /** A frame received into a buffer of `capacity` octets; one that is too short is dropped. */
  function ParseReply(frame: seq<byte>, capacity: nat): Reception {
    if |frame| < ID_SIZES + 1 then Nothing
    else if |frame| - ID_SIZES > capacity then Overrun
    else Received(FromLe32(frame[4..]), frame[ID_SIZES..])
  }

  class TransportZMQ {
    var currentRequestID: uint32
    var sent: seq<seq<byte>>

    constructor ()
      ensures currentRequestID == 0 && sent == []
    {
      currentRequestID, sent := 0, [];
    }

    method GetNextRequestID() returns (id: uint32)
      modifies this`currentRequestID
      ensures id == old(currentRequestID)
      ensures currentRequestID == (id + 1) % 0x1_0000_0000
    {
      id := currentRequestID;
      currentRequestID := (currentRequestID + 1) % 0x1_0000_0000;
    }

    method Send(session: uint32, e: Event)
      modifies this
      ensures sent == old(sent) + [EventFrame(old(currentRequestID), session, e)]
      ensures currentRequestID == (old(currentRequestID) + 1) % 0x1_0000_0000
    {
      var out := new OutStream();
      var request := GetNextRequestID();
      out.Write(Le32(request));
      out.Write(Le32(session));
      out.Serialize(e);
      assert out.bytes == EventFrame(request, session, e);
      sent := sent + [out.bytes];
    }

    /** `message` is what the socket holds, if anything; `buf` is the caller's buffer. */
    method Recv(message: Option<seq<byte>>, buf: array<byte>) returns (r: Reception)
      modifies buf
      ensures r == if message.Some? then ParseReply(message.value, buf.Length) else Nothing
      ensures r.Received? ==> buf[..] == r.data + old(buf[|r.data|..])
      ensures !r.Received? ==> buf[..] == old(buf[..])
    {
      if message.None? { return Nothing; }
      var received := message.value;
      if |received| < 4 + 4 + 1 { return Nothing; }
      var session := FromLe32(received[4..8]);
      var size := |received| - 4 - 4;
      if size > buf.Length { return Overrun; }
      forall i | 0 <= i < size { buf[i] := received[4 + 4 + i]; }
      assert buf[..size] == received[4 + 4..] && buf[size..] == old(buf[size..]);
      assert buf[..] == buf[..size] + buf[size..];
      r := Received(session, buf[..size]);
    }
  }

  // ---- the service logic script --------------------------------------------------

  const FRAGMENT: Text := [117, 115, 115, 114, 46, 119, 97, 118]   // "ussr.wav"

  const DROP_REASON: uint16 := 1234

  /** The command the script gives in answer to each event. */
  function Script(e: Event): Command {
    match e
    case EvOffered(_) => Answer
    case EvAnswered => Play(FRAGMENT)
    case EvPlayFinished(_) => Drop(DROP_REASON)
  }

  function CommandFrame(request: uint32, session: uint32, c: Command): seq<byte>
    requires c.Play? ==> |c.fragment| < 0x1_0000
  {
    Le32(request) + Le32(session) + EncodeCommand(c)
  }

  /** What the script sends back for a frame; None when it only logs an error. */
  function Respond(data: seq<byte>): Option<seq<byte>> {
    if |data| <= ID_SIZES then None
    else
      var request, session, code := FromLe32(data), FromLe32(data[4..]), data[8];
      if code == OFFERED then
        if Decode(data[9..]).None? then None else Some(CommandFrame(request, session, Answer))
      else if code == ANSWERED then Some(CommandFrame(request, session, Play(FRAGMENT)))
      else if code == PLAY_FINISHED then Some(CommandFrame(request, session, Drop(DROP_REASON)))
      else None
  }

  /** None stands for the struct.error of a reason out of range. */
  method DropCall(reason: int) returns (data: Option<seq<byte>>)
    ensures data == if 0 <= reason < 0x1_0000 then Some(EncodeCommand(Drop(reason))) else None
  {
    var buffer: seq<byte> := [];
    buffer := buffer + [CMD_DROP];
    if reason < 0 || reason >= 0x1_0000 { return None; }
    buffer := buffer + Le16(reason);
    assert buffer == EncodeCommand(Drop(reason));
    data := Some(buffer);
  }

  /** None stands for the struct.error of a name that is too long. */
  method PlayFragment(fragment: Text) returns (data: Option<seq<byte>>)
    ensures data == if |fragment| < 0x1_0000 then Some(EncodeCommand(Play(fragment))) else None
  {
    var buffer: seq<byte> := [];
    buffer := buffer + [CMD_PLAY];
    if |fragment| >= 0x1_0000 { return None; }
    buffer := buffer + Le16(|fragment|);
    buffer := buffer + fragment;
    assert buffer == EncodeCommand(Play(fragment));
    data := Some(buffer);
  }

  method SendResponse(request: uint32, session: uint32, payload: seq<byte>) returns (frame: seq<byte>)
    ensures frame == Le32(request) + Le32(session) + payload
  {
    frame := [];
    frame := frame + Le32(request);
    frame := frame + Le32(session);
    frame := frame + payload;
  }

  method Process(data: seq<byte>) returns (reply: Option<seq<byte>>)
    ensures reply == Respond(data)
  {
    reply := None;
    if |data| <= 8 { return; }
    var request := FromLe32(data[0..4]);
    var session := FromLe32(data[4..8]);
    var code := data[8];
    var response: seq<byte>;
    if code == OFFERED {
      var event := new EvOfferedReader();
      var ok := event.Unpack(data[9..]);
      if !ok { return; }
      response := [CMD_ANSWER];
    } else if code == ANSWERED {
      var r := PlayFragment(FRAGMENT);
      response := r.value;
    } else if code == PLAY_FINISHED {
      var r := DropCall(DROP_REASON);
      response := r.value;
    } else {
      return;
    }
    var frame := SendResponse(request, session, response);
    reply := Some(frame);
  }

  // ---- what the link promises -------------------------------------------------------

  /** Texts that the length octets of an OFFERED event can carry. */
  predicate Encodable(e: Event) {
    e.EvOffered? ==> |e.body.cgpn| <= 255 && |e.body.cdpn| <= 255 && |e.body.rdpn| <= 255
  }

  lemma TwoIds(a: uint32, b: uint32, rest: seq<byte>)
    ensures var data := Le32(a) + Le32(b) + rest;
            FromLe32(data) == a && FromLe32(data[4..]) == b && data[8..] == rest
  {
    var data := Le32(a) + Le32(b) + rest;
    Le32RoundTrip([], a, Le32(b) + rest);
    assert data[0..] == data == [] + Le32(a) + (Le32(b) + rest);
    Le32RoundTrip(Le32(a), b, rest);
  }

  /** The script answers every event with its command, echoing request id and session. */
  lemma RespondToEvent(request: uint32, session: uint32, e: Event)
    requires Encodable(e)
    ensures Respond(EventFrame(request, session, e)) == Some(CommandFrame(request, session, Script(e)))
  {
    TwoIds(request, session, EncodeEvent(e));
    var data := EventFrame(request, session, e);
    assert data[8] == data[8..][0] == EventCode(e);
    assert data[9..] == data[8..][1..] == EncodeBody(e);
    if e.EvOffered? {
      OfferedRoundTripLimit(e.body);
    }
  }

  /**
   A command frame gives back its ids and a payload that parses to its command,
   provided that the server's buffer holds it: always but for a PLAY of a name of
   more than MAX_DATAGRAM_SIZE - 3 octets, with which the copy leaves the buffer.
   */
  lemma CommandFrameRoundTrip(request: uint32, session: uint32, c: Command)
    requires c.Play? ==> |c.fragment| < 0x1_0000
    ensures var frame := CommandFrame(request, session, c);
            && FromLe32(frame) == request
            && ParseReply(frame, MAX_DATAGRAM_SIZE)
               == (if c.Play? && |c.fragment| > MAX_DATAGRAM_SIZE - 3 then Overrun
                   else Received(session, EncodeCommand(c)))
            && Readable(EncodeCommand(c)) && ParseCommand(EncodeCommand(c)) == Some(c)
  {
    TwoIds(request, session, EncodeCommand(c));
    CommandRoundTrip(c, []);
    assert EncodeCommand(c) + [] == EncodeCommand(c);
  }

  /**
   Event out, command back: the reply names the same request and session, fits the
   server's buffer and parses to the script's command.
   */
  lemma LinkRoundTrip(request: uint32, session: uint32, e: Event)
    requires Encodable(e)
    ensures var reply := Respond(EventFrame(request, session, e));
            && reply.Some? && |reply.value| > ID_SIZES
            && FromLe32(reply.value) == request
            && var r := ParseReply(reply.value, MAX_DATAGRAM_SIZE);
               && r.Received? && r.session == session
               && Readable(r.data) && ParseCommand(r.data) == Some(Script(e))
  {
    RespondToEvent(request, session, e);
    CommandFrameRoundTrip(request, session, Script(e));
  }

  /** A message that the script answers: an OFFERED event that is all there, or any other event that it knows. */
  ghost predicate IsRequest(data: seq<byte>, request: uint32, session: uint32, e: Event) {
    && Encodable(e)
    && (if e.EvOffered? then EventFrame(request, session, e) <= data
        else Le32(request) + Le32(session) + [EventCode(e)] <= data)
  }

  lemma FrameStarts(data: seq<byte>, request: uint32, session: uint32, rest: seq<byte>)
    requires Le32(request) + Le32(session) + rest <= data && rest != []
    ensures |data| > ID_SIZES && FromLe32(data) == request && FromLe32(data[4..]) == session
    ensures rest <= data[8..] && data[8] == rest[0]
  {
    var frame := Le32(request) + Le32(session) + rest;
    var more := data[|frame|..];
    assert data == frame + more == Le32(request) + Le32(session) + (rest + more);
    TwoIds(request, session, rest + more);
    assert data[8..] == rest + more;
  }

  lemma RequestAnswered(data: seq<byte>, request: uint32, session: uint32, e: Event)
    requires IsRequest(data, request, session, e)
    ensures Respond(data) == Some(CommandFrame(request, session, Script(e)))
  {
    var rest := if e.EvOffered? then EncodeEvent(e) else [EventCode(e)];
    FrameStarts(data, request, session, rest);
    if e.EvOffered? {
      var body := EncodeOffered(e.body);
      assert data[9..] == data[8..][1..];
      assert body <= data[9..] by { assert EncodeEvent(e)[1..] == body; }
      OfferedRoundTrip(e.body, data[9..][|body|..]);
      assert data[9..] == body + data[9..][|body|..];
    }
  }

  /** The message that the script answered, in terms of what it decoded. */
  lemma AnsweredIsRequest(data: seq<byte>) returns (e: Event)
    requires Respond(data).Some?
    ensures IsRequest(data, FromLe32(data), FromLe32(data[4..]), e)
  {
    var request, session := FromLe32(data), FromLe32(data[4..]);
    assert data[..4] + data[4..8] + data[8..] == data;
    IdsAreBack(data);
    if data[8] == OFFERED {
      DecodedIsEncoded(data[9..]);
      e := EvOffered(Decode(data[9..]).value);
      var body := EncodeOffered(e.body);
      assert data[8..] == [data[8]] + data[9..];
      assert EncodeEvent(e) <= data[8..];
      assert EventFrame(request, session, e) == data[..8] + EncodeEvent(e) == data[..8 + |EncodeEvent(e)|];
    } else {
      e := if data[8] == ANSWERED then EvAnswered else EvPlayFinished(0);
      assert Le32(request) + Le32(session) + [EventCode(e)] == data[..9];
    }
  }

  lemma IdsAreBack(data: seq<byte>)
    requires |data| >= 8
    ensures Le32(FromLe32(data)) + Le32(FromLe32(data[4..])) == data[..8]
  {
    Le32Onto(data[..4]);
    Le32Onto(data[4..8]);
    assert FromLe32(data) == FromLe32(data[..4]) && FromLe32(data[4..]) == FromLe32(data[4..8]);
    assert data[..8] == data[..4] + data[4..8];
  }

  /** The script answers a message if and only if it is such a request, and is silent on everything else. */
  lemma AnsweredExactly(data: seq<byte>)
    ensures Respond(data).Some? <==> exists request, session, e :: IsRequest(data, request, session, e)
  {
    if Respond(data).Some? {
      var e := AnsweredIsRequest(data);
    }
    forall request, session, e | IsRequest(data, request, session, e) ensures Respond(data).Some? {
      RequestAnswered(data, request, session, e);
    }
  }
}

/**
 The request engine as the class it is: slots in an array, changed in place by
 send and by a scan that recv() resumes where the last call left it.
 */
module UdpRequest {
  import opened Bytes
  import opened UdpSpec

  class UDPRequest {
    const sendAttempts: nat
    const sendTimeout: nat
    const clock: nat -> int          // successive readings of time()
    const requests: array<Slot>
    var ready: bool
    var socketProcessed: bool
    var currentReqIndex: nat
    var ticks: nat                   // readings of time() so far
    var inbound: seq<Inbound>        // what the socket still holds
    ghost var log: seq<Entry>

    ghost function P(): Params
      reads this
    {
      Params(sendAttempts, sendTimeout, clock)
    }

    ghost function View(): State
      reads this, requests
    {
      State(requests[..], socketProcessed, currentReqIndex, ticks, inbound, log)
    }

    /** `socketOk` says whether the socket could be bound, set up and connected. */
    constructor (slotCount: nat, sendAttempts: nat, sendTimeout: nat, clock: nat -> int, socketOk: bool)
      ensures fresh(requests) && ready == socketOk
      ensures P() == Params(sendAttempts, sendTimeout, clock)
      ensures View() == Init(slotCount, [])
    {
      this.sendAttempts, this.sendTimeout, this.clock := sendAttempts, sendTimeout, clock;
      requests := new Slot[slotCount](i => BLANK_SLOT);
      ready, socketProcessed, currentReqIndex := socketOk, false, 0;
      ticks, inbound, log := 0, [], [];
    }

    method Time() returns (now: int)
      modifies this`ticks
      ensures now == clock(old(ticks)) && ticks == old(ticks) + 1
    {
      now := clock(ticks);
      ticks := ticks + 1;
    }

    /** The private send; `sent` is the outcome of the socket's send(). */
    method Transmit(reqId: nat, sent: bool) returns (ok: bool)
      requires reqId < requests.Length
      modifies this`ticks, this`log, requests
      ensures View() == UdpSpec.Transmit(P(), old(View()), reqId)
      ensures ok == sent
    {
      var now := Time();
      log := log + [if requests[reqId].attemptNum == 0
                    then Sent(reqId, now, requests[reqId].frame) else Resent(reqId, now, requests[reqId].frame)];
      requests[reqId] := requests[reqId].(deadline := now + sendTimeout);
      requests[reqId] := requests[reqId].(attemptNum := requests[reqId].attemptNum + 1);
      ok := sent;
    }

    /** A request whose slot is taken is refused; one that could not be sent stays active. */
    method Send(reqId: nat, data: seq<byte>, sent: bool) returns (ok: bool)
      requires ready ==> Sendable(View(), reqId, data)
      modifies this`ticks, this`log, requests
      ensures !ready ==> !ok && View() == old(View())
      ensures ready ==> View() == SendRequest(P(), old(View()), reqId, data)
      ensures ready ==> ok == (sent && !old(requests[reqId].isActive))
    {
      if !ready { return false; }
      if requests[reqId].isActive { return false; }
      requests[reqId] := requests[reqId].(isActive := true);
      requests[reqId] := requests[reqId].(frame := Le32(reqId) + data);
      requests[reqId] := requests[reqId].(attemptNum := 0);
      ok := Transmit(reqId, sent);
    }

    /**
     `inside` says whether the copy to the caller, which takes as many octets from
     behind the id as the datagram has with it, ends within the buffer.
     */
    method TryReceiveFromSocket() returns (ok: bool, reqId: nat, data: seq<byte>, inside: bool)
      modifies this`inbound
      ensures (View(), if ok then Some(Reply(reqId, data)) else None) == TryReceive(old(View()))
      ensures ok ==> reqId < requests.Length
      ensures ok ==> (inside <==> |old(inbound)[0].bytes| <= MAX_DATAGRAM_SIZE - REQ_ID_SIZE)
    {
      ok, reqId, data, inside := false, 0, [], true;
      var buffer := new byte[MAX_DATAGRAM_SIZE];
      if inbound == [] { return; }
      var received := inbound[0];
      inbound := inbound[1..];
      if received.SocketError? { return; }
      var recvBytes := if |received.bytes| < MAX_DATAGRAM_SIZE then |received.bytes| else MAX_DATAGRAM_SIZE;
      forall i | 0 <= i < recvBytes { buffer[i] := received.bytes[i]; }
      assert requests[..] == old(requests[..]);
      if recvBytes < REQ_ID_SIZE { return; }
      assert buffer[..recvBytes] == Cut(received.bytes);
      reqId := FromLe32(buffer[..REQ_ID_SIZE]);
      assert reqId == FromLe32(received.bytes) by {
        assert forall k :: 0 <= k < REQ_ID_SIZE ==> buffer[..REQ_ID_SIZE][k] == received.bytes[k];
      }
      if reqId < requests.Length {
        inside := REQ_ID_SIZE + recvBytes <= buffer.Length;
        data := buffer[REQ_ID_SIZE..recvBytes];
        assert data == buffer[..recvBytes][REQ_ID_SIZE..];
        ok := true;
      }
    }

    method Update()
      modifies this`socketProcessed, this`currentReqIndex, this`log
      ensures View() == UdpSpec.Update(old(View()))
    {
      socketProcessed := false;
      currentReqIndex := 0;
      log := log + [Updated];
    }

    /** The body of recv: first the socket, then the scan over the slots. */
    method Recv() returns (ok: bool, reqId: nat, isTimeout: bool, data: seq<byte>)
      modifies this`socketProcessed, this`currentReqIndex, this`ticks, this`inbound, this`log, requests
      ensures ready == old(ready)
      ensures !ready ==> !ok && View() == old(View())
      ensures ready ==>
                (View(), if !ok then None else if isTimeout then Some(Timeout(reqId)) else Some(Reply(reqId, data)))
                == UdpSpec.Recv(P(), old(View()))
    {
      ok, reqId, isTimeout, data := false, 0, false, [];
      if !ready { return; }
      if !socketProcessed {
        // Whether the copy stayed within the buffer is not looked at either.
        var inside: bool;
        ok, reqId, data, inside := TryReceiveFromSocket();
        if ok {
          log := log + [Replied(reqId, requests[reqId].isActive)];
          requests[reqId] := requests[reqId].(isActive := false);
          return;
        } else {
          socketProcessed := true;
        }
      }
      ok, reqId := ScanRequests();
      isTimeout := ok;
    }

    /** The while loop of recv, from wherever the last call left the cursor. */
    method ScanRequests() returns (ok: bool, reqId: nat)
      modifies this`currentReqIndex, this`ticks, this`log, requests
      ensures (View(), if ok then Some(Timeout(reqId)) else None) == Scan(P(), old(View()))
    {
      ok, reqId := false, 0;
      while currentReqIndex < requests.Length
        invariant Scan(P(), View()) == Scan(P(), old(View()))
        decreases requests.Length - currentReqIndex
      {
        var expired := VisitRequest();
        if expired { return true, currentReqIndex; }
      }
    }

    /** One turn of that loop; the cursor stays on a slot that finally timed out. */
    method VisitRequest() returns (expired: bool)
      requires currentReqIndex < requests.Length
      modifies this`currentReqIndex, this`ticks, this`log, requests
      ensures (View(), expired) == Visit(P(), old(View()))
    {
      expired := false;
      if requests[currentReqIndex].isActive {
        var now := Time();
        if requests[currentReqIndex].deadline < now {
          if requests[currentReqIndex].attemptNum < sendAttempts {
            // The socket's answer to a resend is not looked at.
            var _ := Transmit(currentReqIndex, true);
          } else {
            log := log + [TimedOut(currentReqIndex, now)];
            requests[currentReqIndex] := requests[currentReqIndex].(isActive := false);
            return true;
          }
        }
      }
      currentReqIndex := currentReqIndex + 1;
    }

    /** The caller's loop: recv() until it returns false. */
    method DrainAll() returns (events: seq<Event>)
      requires ready
      modifies this`socketProcessed, this`currentReqIndex, this`ticks, this`inbound, this`log, requests
      ensures (View(), events) == Drain(P(), old(View()))
    {
      events := [];
      ghost var start := View();
      while true
        invariant ready
        invariant Drain(P(), start).0 == Drain(P(), View()).0
        invariant Drain(P(), start).1 == events + Drain(P(), View()).1
        decreases Pending(View())
      {
        RecvConsumes(P(), View());
        ghost var rest := Drain(P(), View()).1;
        var ok, reqId, isTimeout, data := Recv();
        if !ok {
          assert rest == [] && events + [] == events;
          break;
        }
        ghost var event := if isTimeout then Timeout(reqId) else Reply(reqId, data);
        assert rest == [event] + Drain(P(), View()).1;
        events := events + [if isTimeout then Timeout(reqId) else Reply(reqId, data)];
      }
    }
  }
}

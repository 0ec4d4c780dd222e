/**
 One cycle, with the clock standing still, against a one-shot rule: take the
 replies, then resend or time out everything overdue.
 */
module UdpDrain {
  import opened Bytes
  import opened UdpSpec

  // ---- the one-shot rule, slot by slot -------------------------------------------

  predicate Overdue(slot: Slot, now: int) {
    slot.isActive && slot.deadline < now
  }

  predicate Expires(p: Params, slot: Slot, now: int) {
    Overdue(slot, now) && slot.attemptNum >= p.sendAttempts
  }

  predicate IsResent(p: Params, slot: Slot, now: int) {
    Overdue(slot, now) && slot.attemptNum < p.sendAttempts
  }

  function Swept(p: Params, slot: Slot, now: int): Slot {
    if Expires(p, slot, now) then slot.(isActive := false)
    else if IsResent(p, slot, now) then slot.(deadline := now + p.sendTimeout, attemptNum := slot.attemptNum + 1)
    else slot
  }

  function Expiries(p: Params, slots: seq<Slot>, now: int, from: nat): (es: seq<Event>)
    requires from <= |slots|
    decreases |slots| - from
  {
    if from == |slots| then []
    else (if Expires(p, slots[from], now) then [Timeout(from)] else []) + Expiries(p, slots, now, from + 1)
  }

  lemma {:induction false} IsExpiry(p: Params, slots: seq<Slot>, now: int, from: nat, e: Event)
    requires from <= |slots|
    ensures e in Expiries(p, slots, now, from)
            <==> e.Timeout? && from <= e.id < |slots| && Expires(p, slots[e.id], now)
    decreases |slots| - from
  {
    if from < |slots| { IsExpiry(p, slots, now, from + 1, e); }
  }

  lemma {:induction false} ExpiriesSorted(p: Params, slots: seq<Slot>, now: int, from: nat, j: nat, k: nat)
    requires from <= |slots| && j < k < |Expiries(p, slots, now, from)|
    ensures Expiries(p, slots, now, from)[j].id < Expiries(p, slots, now, from)[k].id
    decreases |slots| - from
  {
    var rest := Expiries(p, slots, now, from + 1);
    if !Expires(p, slots[from], now) {
      assert Expiries(p, slots, now, from) == rest;
      ExpiriesSorted(p, slots, now, from + 1, j, k);
    } else if j == 0 {
      IsExpiry(p, slots, now, from + 1, rest[k - 1]);
    } else {
      ExpiriesSorted(p, slots, now, from + 1, j - 1, k - 1);
    }
  }

  /** Exactly the requests that expire, each once, in increasing order. */
  lemma ExpiriesMeaning(p: Params, slots: seq<Slot>, now: int, from: nat)
    requires from <= |slots|
    ensures var es := Expiries(p, slots, now, from);
            && (forall e :: e in es <==> e.Timeout? && from <= e.id < |slots| && Expires(p, slots[e.id], now))
            && (forall j: nat, k: nat :: j < k < |es| ==> es[j].id < es[k].id)
  {
    forall e { IsExpiry(p, slots, now, from, e); }
    forall j: nat, k: nat | j < k < |Expiries(p, slots, now, from)| { ExpiriesSorted(p, slots, now, from, j, k); }
  }

  datatype Transmission = Transmission(id: nat, time: int, frame: seq<byte>)

  function Resends(p: Params, slots: seq<Slot>, now: int, from: nat): (ts: seq<Transmission>)
    requires from <= |slots|
    decreases |slots| - from
  {
    if from == |slots| then []
    else
      (if IsResent(p, slots[from], now) then [Transmission(from, now, slots[from].frame)] else [])
      + Resends(p, slots, now, from + 1)
  }

  lemma {:induction false} IsResend(p: Params, slots: seq<Slot>, now: int, from: nat, x: Transmission)
    requires from <= |slots|
    ensures x in Resends(p, slots, now, from) <==>
            && from <= x.id < |slots| && IsResent(p, slots[x.id], now)
            && x.time == now && x.frame == slots[x.id].frame
    decreases |slots| - from
  {
    if from < |slots| { IsResend(p, slots, now, from + 1, x); }
  }

  lemma {:induction false} ResendsSorted(p: Params, slots: seq<Slot>, now: int, from: nat, j: nat, k: nat)
    requires from <= |slots| && j < k < |Resends(p, slots, now, from)|
    ensures Resends(p, slots, now, from)[j].id < Resends(p, slots, now, from)[k].id
    decreases |slots| - from
  {
    var rest := Resends(p, slots, now, from + 1);
    if !IsResent(p, slots[from], now) {
      assert Resends(p, slots, now, from) == rest;
      ResendsSorted(p, slots, now, from + 1, j, k);
    } else if j == 0 {
      IsResend(p, slots, now, from + 1, rest[k - 1]);
    } else {
      ResendsSorted(p, slots, now, from + 1, j - 1, k - 1);
    }
  }

  /** Exactly the requests that are resent, each once, in increasing order, frame unchanged. */
  lemma ResendsMeaning(p: Params, slots: seq<Slot>, now: int, from: nat)
    requires from <= |slots|
    ensures var ts := Resends(p, slots, now, from);
            && (forall j: nat, k: nat :: j < k < |ts| ==> ts[j].id < ts[k].id)
            && (forall x :: x in ts <==>
                  && from <= x.id < |slots| && IsResent(p, slots[x.id], now)
                  && x.time == now && x.frame == slots[x.id].frame)
  {
    forall x { IsResend(p, slots, now, from, x); }
    forall j: nat, k: nat | j < k < |Resends(p, slots, now, from)| { ResendsSorted(p, slots, now, from, j, k); }
  }

  function Transmissions(e: Entry): seq<Transmission> {
    if e.Sent? || e.Resent? then [Transmission(e.id, e.time, e.frame)] else []
  }

  /** What a log says was put on the wire. */
  function Wire(log: seq<Entry>): seq<Transmission> {
    if log == [] then []
    else
      var n := |log| - 1;
      Wire(log[..n]) + Transmissions(log[n])
  }

  /** How many datagrams at the head of the queue can be delivered. */
  function UsablePrefix(inbound: seq<Inbound>, slotCount: nat): (k: nat)
    ensures k <= |inbound|
    ensures forall j :: 0 <= j < k ==> Usable(inbound[j], slotCount)
    ensures k < |inbound| ==> !Usable(inbound[k], slotCount)
  {
    if inbound == [] || !Usable(inbound[0], slotCount) then 0
    else 1 + UsablePrefix(inbound[1..], slotCount)
  }

  function Replies(inbound: seq<Inbound>, slotCount: nat): (es: seq<Event>)
    ensures |es| == UsablePrefix(inbound, slotCount)
    ensures forall j :: 0 <= j < |es| ==> es[j] == AsReply(inbound[j])
  {
    seq(UsablePrefix(inbound, slotCount),
        i requires 0 <= i < UsablePrefix(inbound, slotCount) => AsReply(inbound[i]))
  }

  predicate Answered(es: seq<Event>, id: nat) {
    exists j :: 0 <= j < |es| && es[j].Reply? && es[j].id == id
  }

  function AfterReplies(slots: seq<Slot>, es: seq<Event>): (r: seq<Slot>)
    ensures |r| == |slots|
  {
    seq(|slots|, i requires 0 <= i < |slots| =>
      if Answered(es, i) then slots[i].(isActive := false) else slots[i])
  }

  // ---- the scan ------------------------------------------------------------------------

  ghost predicate SweptFrom(p: Params, now: int, s: State, s': State, es: seq<Event>)
    requires s.cursor <= |s.slots|
  {
    && |s'.slots| == |s.slots| && s'.inbound == s.inbound
    && (forall i: nat :: i < |s.slots| ==>
          s'.slots[i] == if i < s.cursor then s.slots[i] else Swept(p, s.slots[i], now))
    && es == Expiries(p, s.slots, now, s.cursor)
    && Wire(s'.log) == Wire(s.log) + Resends(p, s.slots, now, s.cursor)
  }

  lemma WireSnoc(log: seq<Entry>, e: Entry)
    ensures Wire(log + [e]) == Wire(log) + Transmissions(e)
  {
    assert (log + [e])[..|log|] == log;
  }

  /** The lists of the rule only look at the slots from `from` on. */
  lemma {:induction false} ListsLocal(p: Params, a: seq<Slot>, b: seq<Slot>, now: int, from: nat)
    requires from <= |a| == |b| && a[from..] == b[from..]
    ensures Expiries(p, a, now, from) == Expiries(p, b, now, from)
    ensures Resends(p, a, now, from) == Resends(p, b, now, from)
    decreases |a| - from
  {
    if from < |a| {
      assert a[from] == a[from..][0] == b[from..][0] == b[from];
      assert a[from + 1..] == a[from..][1..] == b[from..][1..] == b[from + 1..];
      ListsLocal(p, a, b, now, from + 1);
    }
  }

  /** The state once the slot under the cursor has been dealt with for good. */
  function Passed(p: Params, s: State): State
    requires s.cursor < |s.slots|
  {
    Visit(p, s).0.(cursor := s.cursor + 1)
  }

  /** What dealing with a slot adds to the log: one entry for a resend or an expiry. */
  function PassedEntries(p: Params, slot: Slot, c: nat, now: int): seq<Entry> {
    if Expires(p, slot, now) then [TimedOut(c, now)]
    else if !IsResent(p, slot, now) then []
    else if slot.attemptNum == 0 then [Sent(c, now, slot.frame)]
    else [Resent(c, now, slot.frame)]
  }

  lemma PassedState(p: Params, s: State, now: int)
    requires s.cursor < |s.slots| && forall k: nat :: p.clock(k) == now
    ensures var c, s1 := s.cursor, Passed(p, s);
            && s1.slots == s.slots[c := Swept(p, s.slots[c], now)]
            && s1.inbound == s.inbound && s1.socketProcessed == s.socketProcessed && s1.cursor == c + 1
            && Visit(p, s).1 == Expires(p, s.slots[c], now)
            && s1.log == s.log + PassedEntries(p, s.slots[c], c, now)
  {
    assert p.clock(s.ticks) == now && p.clock(s.ticks + 1) == now;
    assert s.slots == s.slots[s.cursor := s.slots[s.cursor]] && s.log + [] == s.log;
  }

  lemma PassedFacts(p: Params, s: State, now: int)
    requires s.cursor < |s.slots| && forall k: nat :: p.clock(k) == now
    ensures var c, s1 := s.cursor, Passed(p, s);
            && s1.slots == s.slots[c := Swept(p, s.slots[c], now)]
            && s1.inbound == s.inbound && s1.socketProcessed == s.socketProcessed && s1.cursor == c + 1
            && Visit(p, s).1 == Expires(p, s.slots[c], now)
            && Wire(s1.log) == Wire(s.log)
               + (if IsResent(p, s.slots[c], now) then [Transmission(c, now, s.slots[c].frame)] else [])
  {
    PassedState(p, s, now);
    PassedWire(p, s.log, s.slots[s.cursor], s.cursor, now);
  }

  lemma PassedWire(p: Params, log: seq<Entry>, slot: Slot, c: nat, now: int)
    ensures Wire(log + PassedEntries(p, slot, c, now))
            == Wire(log) + (if IsResent(p, slot, now) then [Transmission(c, now, slot.frame)] else [])
  {
    var es := PassedEntries(p, slot, c, now);
    if es == [] {
      assert log + es == log;
    } else {
      assert es == [es[0]];
      WireSnoc(log, es[0]);
    }
  }

  lemma SweptOneMore(p: Params, now: int, s: State, s1: State, s': State, es: seq<Event>)
    requires s.cursor < |s.slots|
    requires s1.slots == s.slots[s.cursor := Swept(p, s.slots[s.cursor], now)]
    requires s1.inbound == s.inbound && s1.cursor == s.cursor + 1
    requires Wire(s1.log) == Wire(s.log)
             + (if IsResent(p, s.slots[s.cursor], now)
                then [Transmission(s.cursor, now, s.slots[s.cursor].frame)] else [])
    requires SweptFrom(p, now, s1, s', es)
    ensures SweptFrom(p, now, s, s', (if Expires(p, s.slots[s.cursor], now) then [Timeout(s.cursor)] else []) + es)
  {
    var c := s.cursor;
    assert s.slots[c + 1..] == s1.slots[c + 1..];
    ListsLocal(p, s.slots, s1.slots, now, c + 1);
    WireAssociates(Wire(s.log), if IsResent(p, s.slots[c], now) then [Transmission(c, now, s.slots[c].frame)] else [],
                   Resends(p, s.slots, now, c + 1));
    forall i: nat | i < |s.slots|
      ensures s'.slots[i] == if i < c then s.slots[i] else Swept(p, s.slots[i], now)
    {
      assert s'.slots[i] == if i < c + 1 then s1.slots[i] else Swept(p, s1.slots[i], now);
    }
  }

  lemma WireAssociates(a: seq<Transmission>, b: seq<Transmission>, c: seq<Transmission>)
    ensures (a + b) + c == a + (b + c)
  {
  }

  /** recv() after recv() goes on where the scan stopped. */
  lemma DrainResumes(p: Params, s: State)
    requires s.socketProcessed && s.cursor < |s.slots|
    ensures var (s1, es1) := Drain(p, Passed(p, s));
            Drain(p, s) == (s1, (if Visit(p, s).1 then [Timeout(s.cursor)] else []) + es1)
  {
    var (s1, expired) := Visit(p, s);
    if expired {
      assert Visit(p, s1) == (Passed(p, s), false);
      assert Recv(p, s1) == Recv(p, Passed(p, s));
    } else {
      assert Recv(p, s) == Recv(p, Passed(p, s));
      assert forall es: seq<Event> {:trigger [] + es} :: [] + es == es;
      assert [] + Drain(p, Passed(p, s)).1 == Drain(p, Passed(p, s)).1;
    }
  }

  /** Repeated recv calls after the socket phase do one sweep, resumed at each timeout. */
  lemma {:induction false} ScanPhase(p: Params, s: State, now: int)
    requires s.socketProcessed && s.cursor <= |s.slots|
    requires forall k: nat :: p.clock(k) == now
    ensures var (s', es) := Drain(p, s); SweptFrom(p, now, s, s', es)
    decreases |s.slots| - s.cursor
  {
    if s.cursor < |s.slots| {
      PassedFacts(p, s, now);
      DrainResumes(p, s);
      ScanPhase(p, Passed(p, s), now);
      var (s', es) := Drain(p, Passed(p, s));
      SweptOneMore(p, now, s, Passed(p, s), s', es);
    }
  }

  // ---- the socket phase ----------------------------------------------------------------------

  /** What the queue holds once the socket phase is over: an unusable datagram ends it and is lost. */
  function LeftInSocket(inbound: seq<Inbound>, slotCount: nat): seq<Inbound> {
    var k := UsablePrefix(inbound, slotCount);
    if k < |inbound| then inbound[k + 1..] else []
  }

  ghost predicate SocketPhaseDone(s: State, mid: State) {
    && mid.socketProcessed && mid.cursor == s.cursor && mid.ticks == s.ticks
    && mid.slots == AfterReplies(s.slots, Replies(s.inbound, |s.slots|))
    && mid.inbound == LeftInSocket(s.inbound, |s.slots|)
    && Wire(mid.log) == Wire(s.log)
  }

  lemma OneMoreReply(inbound: seq<Inbound>, slotCount: nat)
    requires inbound != [] && Usable(inbound[0], slotCount)
    ensures LeftInSocket(inbound, slotCount) == LeftInSocket(inbound[1..], slotCount)
    ensures Replies(inbound, slotCount) == [AsReply(inbound[0])] + Replies(inbound[1..], slotCount)
  {
    assert UsablePrefix(inbound, slotCount) == 1 + UsablePrefix(inbound[1..], slotCount);
  }

  /** The state in which the socket phase of a cycle ends. */
  ghost function SocketSpent(s: State): State
    decreases |s.inbound|
  {
    var (s1, reply) := TryReceive(s);
    if reply.None? then s1.(socketProcessed := true) else SocketSpent(Answer(s1, reply.value.id))
  }

  lemma {:induction false} SocketSpentFacts(s: State)
    ensures SocketPhaseDone(s, SocketSpent(s))
    decreases |s.inbound|
  {
    var (s1, reply) := TryReceive(s);
    if reply.None? {
      assert AfterReplies(s.slots, Replies(s.inbound, |s.slots|)) == s.slots;
    } else {
      SocketSpentFacts(Answer(s1, reply.value.id));
      WireSnoc(s.log, Replied(reply.value.id, s.slots[reply.value.id].isActive));
      OneMoreReply(s.inbound, |s.slots|);
      RepliesCompose(s.slots, reply.value, Replies(s.inbound[1..], |s.slots|));
    }
  }

  /** A delivered reply is the first event of the drain. */
  lemma DrainReply(p: Params, s: State)
    requires !s.socketProcessed && TryReceive(s).1.Some?
    ensures var (s1, reply) := TryReceive(s);
            var (s2, es) := Drain(p, Answer(s1, reply.value.id));
            Drain(p, s) == (s2, [reply.value] + es)
  {
    var (s1, reply) := TryReceive(s);
    assert Recv(p, s) == (Answer(s1, reply.value.id), reply);
  }

  /** What the drain of `s` is, once the socket phase is taken out of it. */
  ghost predicate PhaseSplit(p: Params, s: State) {
    && Drain(p, s).0 == Drain(p, SocketSpent(s)).0
    && Drain(p, s).1 == Replies(s.inbound, |s.slots|) + Drain(p, SocketSpent(s)).1
  }

  lemma NoReplySplit(p: Params, s: State)
    requires !s.socketProcessed && TryReceive(s).1.None?
    ensures PhaseSplit(p, s)
  {
    assert Recv(p, s) == Recv(p, SocketSpent(s));
    assert Replies(s.inbound, |s.slots|) == [];
    assert Drain(p, s) == Drain(p, SocketSpent(s));
    assert [] + Drain(p, s).1 == Drain(p, s).1;
  }

  lemma ConsAppend(e: Event, es: seq<Event>, more: seq<Event>)
    ensures [e] + (es + more) == ([e] + es) + more
  {
  }

  lemma ReplySplit(p: Params, s: State, s2: State)
    requires !s.socketProcessed && TryReceive(s).1.Some?
    requires s2 == Answer(TryReceive(s).0, TryReceive(s).1.value.id) && PhaseSplit(p, s2)
    ensures PhaseSplit(p, s)
  {
    var reply := TryReceive(s).1.value;
    OneMoreReply(s.inbound, |s.slots|);
    DrainReply(p, s);
    assert SocketSpent(s) == SocketSpent(s2);
    ConsAppend(reply, Replies(s2.inbound, |s2.slots|), Drain(p, SocketSpent(s2)).1);
  }

  lemma {:induction false} SocketPhase(p: Params, s: State)
    requires !s.socketProcessed
    ensures Drain(p, s).0 == Drain(p, SocketSpent(s)).0
    ensures Drain(p, s).1 == Replies(s.inbound, |s.slots|) + Drain(p, SocketSpent(s)).1
    decreases |s.inbound|
  {
    var (s1, reply) := TryReceive(s);
    if reply.None? {
      NoReplySplit(p, s);
    } else {
      SocketPhase(p, Answer(s1, reply.value.id));
      ReplySplit(p, s, Answer(s1, reply.value.id));
    }
  }

  lemma RepliesCompose(slots: seq<Slot>, first: Event, rest: seq<Event>)
    requires first.Reply? && first.id < |slots|
    ensures AfterReplies(Deactivate(slots, first.id), rest) == AfterReplies(slots, [first] + rest)
  {
    forall i: nat | i < |slots|
      ensures Answered([first] + rest, i) <==> first.id == i || Answered(rest, i)
    {
      if Answered(rest, i) {
        var j :| 0 <= j < |rest| && rest[j].Reply? && rest[j].id == i;
        assert ([first] + rest)[j + 1] == rest[j];
      }
      assert ([first] + rest)[0] == first;
    }
    assert AfterReplies(Deactivate(slots, first.id), rest) == AfterReplies(slots, [first] + rest);
  }

  // ---- the main results over one cycle ----------------------------------------------------------

  ghost predicate OneShot(p: Params, s: State, now: int, s': State, es: seq<Event>) {
    var replies := Replies(s.inbound, |s.slots|);
    var after := AfterReplies(s.slots, replies);
    && es == replies + Expiries(p, after, now, 0)
    && Wire(s'.log) == Wire(s.log) + Resends(p, after, now, 0)
    && |s'.slots| == |s.slots|
    && (forall i: nat :: i < |s.slots| ==> s'.slots[i] == Swept(p, after[i], now))
    && s'.inbound == LeftInSocket(s.inbound, |s.slots|)
  }

  lemma SweptIsOneShot(p: Params, s: State, now: int, mid: State, s': State, es: seq<Event>)
    requires SocketPhaseDone(Update(s), mid) && SweptFrom(p, now, mid, s', es)
    ensures OneShot(p, s, now, s', Replies(s.inbound, |s.slots|) + es)
  {
    WireSnoc(s.log, Updated);
  }

  /**
   With the clock standing still, update() and recv() until false amounts to the
   one-shot rule: the queued replies up to the first unusable datagram, then the
   expiries of the slots they left active; the resends and nothing else on the
   wire; every slot as the rule says.
   */
  lemma DrainIsOneShot(p: Params, s: State, now: int)
    requires forall k: nat :: p.clock(k) == now
    ensures var (s', es) := Drain(p, Update(s)); OneShot(p, s, now, s', es)
  {
    var mid := SocketSpent(Update(s));
    SocketSpentFacts(Update(s));
    SocketPhase(p, Update(s));
    ScanPhase(p, mid, now);
    var (s', es) := Drain(p, mid);
    SweptIsOneShot(p, s, now, mid, s', es);
  }

  /** Whatever the clock does, a drain reports no more events than there is to report. */
  lemma {:induction false} DrainBound(p: Params, s: State)
    ensures |Drain(p, s).1| <= Pending(s)
    decreases Pending(s)
  {
    RecvConsumes(p, s);
    var (s1, e) := Recv(p, s);
    if e.Some? { DrainBound(p, s1); }
  }

  /** A drain ends the cycle: the socket is spent and a further recv returns false at once. */
  lemma {:induction false} DrainEnds(p: Params, s: State)
    ensures var (s', _) := Drain(p, s);
            s'.socketProcessed && s'.cursor >= |s'.slots| && Recv(p, s') == (s', None)
    decreases Pending(s)
  {
    RecvConsumes(p, s);
    var (s1, e) := Recv(p, s);
    if e.Some? { DrainEnds(p, s1); }
  }
}

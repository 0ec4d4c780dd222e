/**
 The whole call protocol of the SSP mode: one channel of the call server, the
 service logic script at the other end of the link, and a library whose calls
 succeed, put together.  The three exchange what they really exchange: frames
 of octets, and library calls that are answered by library events.
 */
module CallProtocol {
  import opened Bytes
  import opened Wire
  import opened Diversion
  import opened CallSpec
  import Sessions
  import Scp

  /**
   The server, its transport's request counter, the frames under way in either
   direction, and the library's side: calls not yet completed, the call on the line.
   */
  datatype System = System(
    server: State, request: uint32, toScp: seq<seq<byte>>, toServer: seq<seq<byte>>,
    pending: seq<Action>, line: Option<int>)

  /** A call arrives, the library completes something it was asked for, or one side reads a frame. */
  datatype Move =
    | Offer(crn: int, dest: Option<Text>, orig: Option<Text>, params: seq<Param>)
    | Complete(i: nat, mask: int32, voiceBusy: bool)
    | ScpReads
    | ServerReads

  // ---- how the parts interact -----------------------------------------------------------

  /** Library calls that an event reports on later. */
  predicate IsReported(a: Action) {
    || a.CallAck? || a.AcceptCall? || a.AnswerCall? || a.HangUp? || a.ReleaseCall?
    || (a.PlayData? && a.started) || a.ResetLine?
  }

  /** The event that reports success; how a play ended and what is still playing is up to the library. */
  function Report(c: nat, dev: int, a: Action, mask: int32, voiceBusy: bool): Step
    requires IsReported(a)
  {
    match a
    case CallAck(crn) => LineStep(c, crn, GcCallProc)
    case AcceptCall(crn) => LineStep(c, crn, GcAccept)
    case AnswerCall(crn) => LineStep(c, crn, GcAnswered(PlayStarts))
    case HangUp(crn, _) => LineStep(c, crn, GcDropCall(voiceBusy))
    case ReleaseCall(crn) => LineStep(c, crn, GcReleaseCall)
    case ResetLine => LineStep(c, 0, GcResetLineDev)
    case PlayData(_, _) => VoiceStep(dev, PlayDone(mask))
  }

  function Increment(request: uint32): uint32 {
    (request + 1) % 0x1_0000_0000
  }

  /** What the server did goes to the library, or through the transport to the service logic. */
  function Dispatch(n: System, actions: seq<Action>): (n': System)
    ensures n'.server == n.server && n'.line == n.line && n'.toServer == n.toServer
  {
    if actions == [] then n
    else
      var before := Dispatch(n, actions[..|actions| - 1]);
      var a := actions[|actions| - 1];
      if a.Notify? then
        before.(toScp := before.toScp + [Scp.EventFrame(before.request, a.session, a.event)],
                request := Increment(before.request))
      else if IsReported(a) then before.(pending := before.pending + [a])
      else before
  }

  /** One step of the server on its channel `c`, and what comes of it. */
  ghost function Serve(cfg: Config, c: nat, n: System, step: Step): (n': System)
    requires Valid(n.server) && c < |n.server.channels| && Takeable(|n.server.channels|, step)
    ensures Valid(n'.server) && |n'.server.channels| == |n.server.channels|
  {
    var s := Next(cfg, n.server, step);
    var log, log' := n.server.logs[c], s.logs[c];
    Dispatch(n.(server := s), if |log| <= |log'| then log'[|log|..] else [])
  }

  /** Texts that fit the length octets of an OFFERED event. */
  predicate ShortTexts(dest: Option<Text>, orig: Option<Text>, params: seq<Param>) {
    && (dest.Some? ==> |dest.value| <= 255)
    && (orig.Some? ==> |orig.value| <= 255)
    && |Redirect(params, []).rdpn| <= 255
  }

  /** The library offers a call when its line is free; everybody else acts on what waits for him. */
  ghost predicate Enabled(n: System, m: Move) {
    match m
    case Offer(crn, dest, orig, params) =>
      n.line.None? && ShortTexts(dest, orig, params) && n.server.sessions.lastSession < Sessions.UNKNOWN_SESSION
    case Complete(i, _, _) => i < |n.pending| && IsReported(n.pending[i])
    case ScpReads => n.toScp != []
    case ServerReads =>
      n.toServer != [] &&
      var r := Scp.ParseReply(n.toServer[0], MAX_DATAGRAM_SIZE);
      !r.Overrun? && (r.Received? ==> r.data == [] || Readable(r.data))
  }

  ghost function Moved(cfg: Config, c: nat, n: System, m: Move): (n': System)
    requires Valid(n.server) && c < |n.server.channels| && Enabled(n, m)
    ensures Valid(n'.server) && |n'.server.channels| == |n.server.channels|
  {
    match m
    case Offer(crn, dest, orig, params) =>
      Serve(cfg, c, n.(line := Some(crn)), LineStep(c, crn, GcOffered(dest, orig, params)))
    case Complete(i, mask, voiceBusy) =>
      var a := n.pending[i];
      Serve(cfg, c,
            n.(pending := n.pending[..i] + n.pending[i + 1..], line := if a.ReleaseCall? then None else n.line),
            Report(c, n.server.channels[c].hdVoice, a, mask, voiceBusy))
    case ScpReads =>
      var reply := Scp.Respond(n.toScp[0]);
      n.(toScp := n.toScp[1..], toServer := if reply.Some? then n.toServer + [reply.value] else n.toServer)
    case ServerReads =>
      var n1, r := n.(toServer := n.toServer[1..]), Scp.ParseReply(n.toServer[0], MAX_DATAGRAM_SIZE);
      if r.Nothing? then n1 else Serve(cfg, c, n1, PacketStep(r.session, r.data, PlayStarts))
  }

  // ---- where a call can be ------------------------------------------------------------------

  datatype Phase =
    | Offering | AnswerIssued | Accepting | Answering | Answered | PlayIssued | Playing
    | Played(mask: int32) | DropIssued(mask: int32) | HangingUp(mask: int32)
    | Releasing(mask: int32, busy: bool) | Done(mask: int32, busy: bool)

  datatype Call = Call(crn: int, dest: Option<Text>, orig: Option<Text>, params: seq<Param>)

  /** The phases of a call in their order; a call is accepted first only where that is configured. */
  predicate IsPhase(cfg: Config, p: Phase) {
    p.Accepting? ==> cfg.sendACM
  }

  function PhasesLeft(p: Phase): nat {
    match p
    case Offering => 11
    case AnswerIssued => 10
    case Accepting => 9
    case Answering => 8
    case Answered => 7
    case PlayIssued => 6
    case Playing => 5
    case Played(_) => 4
    case DropIssued(_) => 3
    case HangingUp(_) => 2
    case Releasing(_, _) => 1
    case Done(_, _) => 0
  }

  function OfferedEvent(call: Call): Event {
    var r := Redirect(call.params, []);
    EvOffered(Wire.Offered(if call.orig.Some? then call.orig.value else [],
                           if call.dest.Some? then call.dest.value else [],
                           if r.found then r.rdpn else [], r.code))
  }

  /** What the library is told for the script's reason. */
  const SCRIPT_REASON := InternalNormal

  /** Everything the server has done for a call by the time it is in a phase. */
  function Trace(cfg: Config, session: uint32, call: Call, p: Phase): seq<Action> {
    var offered := [Notify(session, OfferedEvent(call))];
    var accepted := if cfg.sendACM then offered + [AcceptCall(call.crn)] else offered;
    var answered := accepted + [AnswerCall(call.crn)];
    var told := answered + [Notify(session, EvAnswered)];
    var playing := told + [PlayData(Scp.FRAGMENT, true)];
    match p
    case Offering => offered
    case AnswerIssued => offered
    case Accepting => accepted
    case Answering => answered
    case Answered => told
    case PlayIssued => told
    case Playing => playing
    case Played(m) => playing + [Notify(session, EvPlayFinished(m))]
    case DropIssued(m) => playing + [Notify(session, EvPlayFinished(m))]
    case HangingUp(m) => playing + [Notify(session, EvPlayFinished(m))] + [HangUp(call.crn, SCRIPT_REASON)]
    case Releasing(m, busy) => Ended(playing, session, call.crn, m, busy)
    case Done(m, busy) => Ended(playing, session, call.crn, m, busy)
  }

  function Ended(playing: seq<Action>, session: uint32, crn: int, mask: int32, busy: bool): seq<Action> {
    var hungUp := playing + [Notify(session, EvPlayFinished(mask))] + [HangUp(crn, SCRIPT_REASON)];
    (if busy then hungUp + [StopVoice] else hungUp) + [ReleaseCall(crn)]
  }

  function PStateAt(p: Phase): PState {
    match p
    case Playing => PPlay
    case Played(_) => PPlay
    case DropIssued(_) => PPlay
    case HangingUp(_) => PReleasing
    case Releasing(_, _) => PReleasing
    case _ => PIdle
  }

  function EntryAt(cfg: Config, crn: int, p: Phase): CallInfo {
    match p
    case Offering => CallInfo(crn, SOffered)
    case AnswerIssued => CallInfo(crn, SOffered)
    case Accepting => CallInfo(crn, SOffered)
    case Answering => CallInfo(crn, if cfg.sendACM then SAccepted else SOffered)
    case Releasing(_, _) => CallInfo(crn, SIdle)
    case Done(_, _) => NO_CALL
    case _ => CallInfo(crn, SConnected)
  }

  function ChannelAt(cfg: Config, ch: Channel, call: Call, p: Phase): Channel
    requires |ch.calls| >= 1
  {
    OfferedChannel(ch, call.crn, call.dest, call.orig, Redirect(call.params, [])).(
      pstate := PStateAt(p),
      playing := ch.playing || PhasesLeft(p) <= 5,
      calls := [EntryAt(cfg, call.crn, p)] + ch.calls[..|ch.calls| - 1])
  }

  /** The state of the server while a call is in a phase, from its state before the call. */
  function ServerAt(cfg: Config, c: nat, s: State, call: Call, p: Phase): State
    requires Has(s, c)
  {
    State(s.channels[c := ChannelAt(cfg, s.channels[c], call, p)],
          Sessions.Create(s.sessions, c), s.interrupted, s.stUnblocked,
          s.stUsed + (if p.Done? then 0 else 1), s.stCallCnt + 1, false,
          s.logs[c := s.logs[c] + Trace(cfg, s.sessions.lastSession, call, p)])
  }

  /** The event whose frame, or whose answer, is under way in a phase. */
  function EventAt(call: Call, p: Phase): Option<Event> {
    match p
    case Offering => Some(OfferedEvent(call))
    case AnswerIssued => Some(OfferedEvent(call))
    case Answered => Some(EvAnswered)
    case PlayIssued => Some(EvAnswered)
    case Played(m) => Some(EvPlayFinished(m))
    case DropIssued(m) => Some(EvPlayFinished(m))
    case _ => None
  }

  /** The number of the last request sent. */
  function RequestAt(first: uint32, p: Phase): uint32 {
    if PhasesLeft(p) >= 8 then first else if PhasesLeft(p) >= 5 then Increment(first) else Increment(Increment(first))
  }

  function PendingAt(call: Call, p: Phase): seq<Action> {
    match p
    case Accepting => [AcceptCall(call.crn)]
    case Answering => [AnswerCall(call.crn)]
    case Playing => [PlayData(Scp.FRAGMENT, true)]
    case HangingUp(_) => [HangUp(call.crn, SCRIPT_REASON)]
    case Releasing(_, _) => [ReleaseCall(call.crn)]
    case _ => []
  }

  /** The system while a call is in a phase, from the system before the call. */
  function SystemAt(cfg: Config, c: nat, n: System, call: Call, p: Phase): System
    requires Has(n.server, c)
  {
    var session, request, event := n.server.sessions.lastSession, RequestAt(n.request, p), EventAt(call, p);
    System(
      ServerAt(cfg, c, n.server, call, p), Increment(request),
      if p.Offering? || p.Answered? || p.Played? then [Scp.EventFrame(request, session, event.value)] else [],
      if p.AnswerIssued? || p.PlayIssued? || p.DropIssued?
      then [Scp.CommandFrame(request, session, Scp.Script(event.value))] else [],
      PendingAt(call, p),
      if p.Done? then None else Some(call.crn))
  }

  /** The channel is free and awaits calls, with its voice device found by its handle; nothing is under way. */
  ghost predicate Ready(cfg: Config, c: nat, n: System) {
    && cfg.mode == Ssp && Valid(n.server) && !n.server.aborted && c < |n.server.channels|
    && GetIndexByVoice(n.server.channels, n.server.channels[c].hdVoice) == Some(c)
    && WaitCall in n.server.logs[c]
    && n.toScp == [] && n.toServer == [] && n.pending == [] && n.line.None?
  }

  /** Once its voice device is there, under a handle of its own, a channel can take calls. */
  lemma UnblockedReady(cfg: Config, c: nat, s: State, handle: int, request: uint32)
    requires cfg.mode == Ssp && Valid(s) && !s.aborted && c < |s.channels|
    requires forall d :: 0 <= d < c ==> s.channels[d].hdVoice != handle
    ensures Ready(cfg, c, System(Next(cfg, s, LineStep(c, 0, GcUnblocked(Some(handle)))), request, [], [], [], None))
  {
    var s1 := Next(cfg, s, LineStep(c, 0, GcUnblocked(Some(handle))));
    assert s1.channels[c].hdVoice == handle && forall d :: 0 <= d < c ==> s1.channels[d] == s.channels[d];
    assert s1.logs[c] == s.logs[c] + [WaitCall];
  }

  predicate IsCall(n: System, call: Call) {
    && ShortTexts(call.dest, call.orig, call.params)
    && n.server.sessions.lastSession < Sessions.UNKNOWN_SESSION
  }

  // ---- the server's steps ----------------------------------------------------------------------

  lemma ServerAtValid(cfg: Config, c: nat, s: State, call: Call, p: Phase)
    requires Valid(s) && c < |s.channels|
    ensures Valid(ServerAt(cfg, c, s, call, p)) && Has(ServerAt(cfg, c, s, call, p), c)
  {
    TouchesKeepsValid(s, ServerAt(cfg, c, s, call, p), c);
  }

  /** A change of the channel's record and one thing done, after what `ServerAt` already says. */
  lemma OneMore(cfg: Config, c: nat, s: State, call: Call, p: Phase, q: Phase, a: Action)
    requires Has(s, c) && p.Done? == q.Done?
    requires Trace(cfg, s.sessions.lastSession, call, q) == Trace(cfg, s.sessions.lastSession, call, p) + [a]
    ensures Do(Put(ServerAt(cfg, c, s, call, p), c, ChannelAt(cfg, s.channels[c], call, q)), c, a)
            == ServerAt(cfg, c, s, call, q)
  {
    var s1, log, session := ServerAt(cfg, c, s, call, p), s.logs[c], s.sessions.lastSession;
    assert s1.channels[c := ChannelAt(cfg, s.channels[c], call, q)]
           == s.channels[c := ChannelAt(cfg, s.channels[c], call, q)];
    assert log + Trace(cfg, session, call, q) == (log + Trace(cfg, session, call, p)) + [a];
    assert s1.logs[c := s1.logs[c] + [a]] == s.logs[c := log + Trace(cfg, session, call, q)];
  }

  /** The call is in the first place of the table all along. */
  lemma FirstPlace(cfg: Config, ch: Channel, call: Call, p: Phase, sstate: SState)
    requires |ch.calls| >= 1 && !p.Done?
    ensures var at := ChannelAt(cfg, ch, call, p);
            && GetCallNdx(at.calls, call.crn) == Some(0)
            && WithSState(at, call.crn, sstate)
               == at.(calls := [CallInfo(call.crn, sstate)] + ch.calls[..|ch.calls| - 1])
  {
    var at := ChannelAt(cfg, ch, call, p);
    assert at.calls[0].crn == call.crn;
    assert at.calls[0 := CallInfo(call.crn, sstate)] == [CallInfo(call.crn, sstate)] + ch.calls[..|ch.calls| - 1];
  }

  /** The voice device of the channel stays the first with its handle. */
  lemma VoiceFound(cfg: Config, c: nat, s: State, call: Call, p: Phase)
    requires Has(s, c) && GetIndexByVoice(s.channels, s.channels[c].hdVoice) == Some(c)
    ensures var s1 := ServerAt(cfg, c, s, call, p);
            s1.channels[c].hdVoice == s.channels[c].hdVoice
            && GetIndexByVoice(s1.channels, s1.channels[c].hdVoice) == Some(c)
  {
    var s1 := ServerAt(cfg, c, s, call, p);
    assert s1.channels[c].hdVoice == s.channels[c].hdVoice;
    assert forall d :: 0 <= d < c ==> s1.channels[d] == s.channels[d];
  }

  lemma OfferStep(cfg: Config, c: nat, s: State, call: Call)
    requires cfg.mode == Ssp && Valid(s) && !s.aborted && c < |s.channels|
    ensures Next(cfg, s, LineStep(c, call.crn, GcOffered(call.dest, call.orig, call.params)))
            == ServerAt(cfg, c, s, call, Offering)
  {
    assert ChannelAt(cfg, s.channels[c], call, Offering).(playing := s.channels[c].playing)
           == OfferedChannel(s.channels[c], call.crn, call.dest, call.orig, Redirect(call.params, []));
  }

  function AfterAnswer(cfg: Config): Phase {
    if cfg.sendACM then Accepting else Answering
  }

  lemma AnswerStep(cfg: Config, c: nat, s: State, call: Call)
    requires Has(s, c)
    ensures OnCommand(cfg, ServerAt(cfg, c, s, call, AnswerIssued), c, Answer, PlayStarts)
            == ServerAt(cfg, c, s, call, AfterAnswer(cfg))
  {
    var s1 := ServerAt(cfg, c, s, call, AnswerIssued);
    assert s1.channels[c].calls[0].crn == call.crn;
    assert Put(s1, c, ChannelAt(cfg, s.channels[c], call, AfterAnswer(cfg))) == s1;
    OneMore(cfg, c, s, call, AnswerIssued, AfterAnswer(cfg), AcceptOrAnswer(cfg, call.crn));
  }

  lemma AcceptStep(cfg: Config, c: nat, s: State, call: Call)
    requires Has(s, c) && cfg.sendACM
    ensures OnLine(cfg, ServerAt(cfg, c, s, call, Accepting), c, call.crn, GcAccept)
            == ServerAt(cfg, c, s, call, Answering)
  {
    FirstPlace(cfg, s.channels[c], call, Accepting, SAccepted);
    OneMore(cfg, c, s, call, Accepting, Answering, AnswerCall(call.crn));
  }

  lemma AnsweredStep(cfg: Config, c: nat, s: State, call: Call, play: PlayResult)
    requires cfg.mode == Ssp && Has(s, c) && s.sessions.lastSession < Sessions.UNKNOWN_SESSION
    ensures OnLine(cfg, ServerAt(cfg, c, s, call, Answering), c, call.crn, GcAnswered(play))
            == ServerAt(cfg, c, s, call, Answered)
  {
    FirstPlace(cfg, s.channels[c], call, Answering, SConnected);
    OneMore(cfg, c, s, call, Answering, Answered, Notify(s.sessions.lastSession, EvAnswered));
  }

  lemma PlayStep(cfg: Config, c: nat, s: State, call: Call)
    requires Has(s, c)
    ensures OnCommand(cfg, ServerAt(cfg, c, s, call, PlayIssued), c, Play(Scp.FRAGMENT), PlayStarts)
            == ServerAt(cfg, c, s, call, Playing)
  {
    OneMore(cfg, c, s, call, PlayIssued, Playing, PlayData(Scp.FRAGMENT, true));
  }

  lemma PlayDoneStep(cfg: Config, c: nat, s: State, call: Call, mask: int32)
    requires cfg.mode == Ssp && Has(s, c) && s.sessions.lastSession < Sessions.UNKNOWN_SESSION
    ensures OnVoice(cfg, ServerAt(cfg, c, s, call, Playing), c, PlayDone(mask))
            == ServerAt(cfg, c, s, call, Played(mask))
  {
    var s1 := ServerAt(cfg, c, s, call, Playing);
    assert Put(s1, c, ChannelAt(cfg, s.channels[c], call, Played(mask))) == s1;
    OneMore(cfg, c, s, call, Playing, Played(mask), Notify(s.sessions.lastSession, EvPlayFinished(mask)));
  }

  lemma DropStep(cfg: Config, c: nat, s: State, call: Call, mask: int32)
    requires Has(s, c)
    ensures OnCommand(cfg, ServerAt(cfg, c, s, call, DropIssued(mask)), c, Drop(Scp.DROP_REASON), PlayStarts)
            == ServerAt(cfg, c, s, call, HangingUp(mask))
  {
    assert ServerAt(cfg, c, s, call, DropIssued(mask)).channels[c].calls[0].crn == call.crn;
    OneMore(cfg, c, s, call, DropIssued(mask), HangingUp(mask), HangUp(call.crn, SCRIPT_REASON));
  }

  lemma DropCallStep(cfg: Config, c: nat, s: State, call: Call, mask: int32, busy: bool)
    requires Has(s, c)
    ensures OnLine(cfg, ServerAt(cfg, c, s, call, HangingUp(mask)), c, call.crn, GcDropCall(busy))
            == ServerAt(cfg, c, s, call, Releasing(mask, busy))
  {
    var s1, s2 := ServerAt(cfg, c, s, call, HangingUp(mask)), ServerAt(cfg, c, s, call, Releasing(mask, busy));
    FirstPlace(cfg, s.channels[c], call, HangingUp(mask), SIdle);
    var s' := OnDropCall(s1, c, call.crn, busy);
    assert s'.channels == s2.channels;
    var log, session := s.logs[c], s.sessions.lastSession;
    var hungUp := Trace(cfg, session, call, HangingUp(mask));
    assert ((log + hungUp) + [StopVoice]) + [ReleaseCall(call.crn)]
           == log + ((hungUp + [StopVoice]) + [ReleaseCall(call.crn)]);
    assert (log + hungUp) + [ReleaseCall(call.crn)] == log + (hungUp + [ReleaseCall(call.crn)]);
    assert s'.logs == s2.logs;
  }

  lemma ReleaseStep(cfg: Config, c: nat, s: State, call: Call, mask: int32, busy: bool)
    requires Has(s, c)
    ensures OnLine(cfg, ServerAt(cfg, c, s, call, Releasing(mask, busy)), c, call.crn, GcReleaseCall)
            == ServerAt(cfg, c, s, call, Done(mask, busy))
  {
    var ch := ChannelAt(cfg, s.channels[c], call, Releasing(mask, busy));
    FirstPlace(cfg, s.channels[c], call, Releasing(mask, busy), SIdle);
    assert ch.calls[0] == CallInfo(call.crn, SIdle);
    assert ch.calls[0 := NO_CALL] == [NO_CALL] + s.channels[c].calls[..|ch.calls| - 1];
  }

  // ---- the moves of the whole system -------------------------------------------------------------

  lemma DispatchNotify(n: System, session: uint32, e: Event)
    ensures Dispatch(n, [Notify(session, e)])
            == n.(toScp := n.toScp + [Scp.EventFrame(n.request, session, e)], request := Increment(n.request))
  {
    assert [Notify(session, e)][..0] == [];
  }

  lemma DispatchReported(n: System, a: Action)
    requires IsReported(a)
    ensures Dispatch(n, [a]) == n.(pending := n.pending + [a])
  {
    assert [a][..0] == [];
  }

  lemma DispatchStopAndRelease(n: System, crn: int)
    ensures Dispatch(n, [StopVoice] + [ReleaseCall(crn)]) == n.(pending := n.pending + [ReleaseCall(crn)])
  {
    var actions := [StopVoice] + [ReleaseCall(crn)];
    assert actions[..1] == [StopVoice] && [StopVoice][..0] == [];
    assert Dispatch(n, [StopVoice]) == n;
  }

  /** What the server adds to its log is what is dispatched. */
  lemma Served(cfg: Config, c: nat, n: System, step: Step, s': State, actions: seq<Action>)
    requires Valid(n.server) && c < |n.server.channels| && Takeable(|n.server.channels|, step)
    requires Next(cfg, n.server, step) == s'
    requires c < |s'.logs| && s'.logs[c] == n.server.logs[c] + actions
    ensures Serve(cfg, c, n, step) == Dispatch(n.(server := s'), actions)
  {
    var log := n.server.logs[c];
    assert (log + actions)[|log|..] == actions;
  }

  lemma LogAt(cfg: Config, c: nat, s: State, call: Call, p: Phase, q: Phase, actions: seq<Action>)
    requires Has(s, c)
    requires Trace(cfg, s.sessions.lastSession, call, q) == Trace(cfg, s.sessions.lastSession, call, p) + actions
    ensures ServerAt(cfg, c, s, call, q).logs[c] == ServerAt(cfg, c, s, call, p).logs[c] + actions
  {
    var log, session := s.logs[c], s.sessions.lastSession;
    assert log + (Trace(cfg, session, call, p) + actions) == (log + Trace(cfg, session, call, p)) + actions;
  }

  /** The phase that the enabled move leads to; the mask and the flag are those it carries, if any. */
  function NextPhase(cfg: Config, p: Phase, m: Move): Phase {
    match p
    case Offering => AnswerIssued
    case AnswerIssued => AfterAnswer(cfg)
    case Accepting => Answering
    case Answering => Answered
    case Answered => PlayIssued
    case PlayIssued => Playing
    case Playing => Played(if m.Complete? then m.mask else 0)
    case Played(mask) => DropIssued(mask)
    case DropIssued(mask) => HangingUp(mask)
    case HangingUp(mask) => Releasing(mask, m.Complete? && m.voiceBusy)
    case Releasing(mask, busy) => Done(mask, busy)
    case Done(_, _) => p
  }

  lemma OfferMove(cfg: Config, c: nat, n: System, call: Call)
    requires Ready(cfg, c, n) && IsCall(n, call)
    ensures var m := Offer(call.crn, call.dest, call.orig, call.params);
            Enabled(n, m) && Moved(cfg, c, n, m) == SystemAt(cfg, c, n, call, Offering)
  {
    OfferStep(cfg, c, n.server, call);
    var log := n.server.logs[c];
    var s' := ServerAt(cfg, c, n.server, call, Offering);
    var sent := Notify(n.server.sessions.lastSession, OfferedEvent(call));
    assert s'.logs[c] == log + [sent];
    assert s'.logs[c][|log|..] == [sent];
    DispatchNotify(n.(line := Some(call.crn), server := s'), sent.session, sent.event);
  }

  predicate WithScp(p: Phase) {
    p.Offering? || p.Answered? || p.Played?
  }

  predicate WithServer(p: Phase) {
    p.AnswerIssued? || p.PlayIssued? || p.DropIssued?
  }

  /** Reading a frame in one place or the other changes nothing at the server. */
  lemma SameServer(cfg: Config, c: nat, s: State, call: Call, p: Phase)
    requires Has(s, c) && WithScp(p)
    ensures ServerAt(cfg, c, s, call, p) == ServerAt(cfg, c, s, call, NextPhase(cfg, p, ScpReads))
  {
  }

  /** When the script reads the frame, only that changes: the frame gives way to its answer. */
  lemma FrameAnswered(cfg: Config, c: nat, n: System, call: Call, p: Phase)
    requires Has(n.server, c) && WithScp(p)
    ensures var n1, e, session := SystemAt(cfg, c, n, call, p), EventAt(call, p), n.server.sessions.lastSession;
            && e.Some? && n1.toScp == [Scp.EventFrame(RequestAt(n.request, p), session, e.value)] && n1.toServer == []
            && SystemAt(cfg, c, n, call, NextPhase(cfg, p, ScpReads))
               == n1.(toScp := [],
                      toServer := [Scp.CommandFrame(RequestAt(n.request, p), session, Scp.Script(e.value))])
  {
    SameServer(cfg, c, n.server, call, p);
  }

  lemma ScpMove(cfg: Config, c: nat, n: System, call: Call, p: Phase)
    requires Has(n.server, c) && IsCall(n, call) && WithScp(p)
    requires Valid(ServerAt(cfg, c, n.server, call, p))
    ensures var n1 := SystemAt(cfg, c, n, call, p);
            Enabled(n1, ScpReads) && Moved(cfg, c, n1, ScpReads)
              == SystemAt(cfg, c, n, call, NextPhase(cfg, p, ScpReads))
  {
    var n1, e := SystemAt(cfg, c, n, call, p), EventAt(call, p).value;
    FrameAnswered(cfg, c, n, call, p);
    Scp.RespondToEvent(RequestAt(n.request, p), n.server.sessions.lastSession, e);
    assert n1.toScp[1..] == [] && forall reply :: n1.toServer + [reply] == [reply];
  }

  lemma CommandResolved(cfg: Config, c: nat, s: State, call: Call, p: Phase, cmd: Command)
    requires Valid(s) && c < |s.channels| && Valid(ServerAt(cfg, c, s, call, p))
    requires cmd.Play? ==> |cmd.fragment| < 0x1_0000
    ensures var data, s1 := EncodeCommand(cmd), ServerAt(cfg, c, s, call, p);
            && Readable(data)
            && Next(cfg, s1, PacketStep(s.sessions.lastSession, data, PlayStarts))
               == OnCommand(cfg, s1, c, cmd, PlayStarts)
  {
    var s1, session := ServerAt(cfg, c, s, call, p), s.sessions.lastSession;
    Scp.CommandFrameRoundTrip(0, session, cmd);
    assert Sessions.ChannelOf(s1.sessions, session) == c;
    assert Resolve(s1, PacketStep(session, EncodeCommand(cmd), PlayStarts)) == Some(OnTheCommand(c, cmd, PlayStarts));
  }

  lemma CommandStep(cfg: Config, c: nat, s: State, call: Call, p: Phase)
    requires Has(s, c) && WithServer(p)
    ensures OnCommand(cfg, ServerAt(cfg, c, s, call, p), c, Scp.Script(EventAt(call, p).value), PlayStarts)
            == ServerAt(cfg, c, s, call, NextPhase(cfg, p, ServerReads))
  {
    match p
    case AnswerIssued => AnswerStep(cfg, c, s, call);
    case PlayIssued => PlayStep(cfg, c, s, call);
    case DropIssued(mask) => DropStep(cfg, c, s, call, mask);
  }

  /** A command leads to one library call, which waits to be reported. */
  lemma CommandTrace(cfg: Config, session: uint32, call: Call, p: Phase)
    requires WithServer(p)
    ensures var q := NextPhase(cfg, p, ServerReads);
            && |PendingAt(call, q)| == 1 && IsReported(PendingAt(call, q)[0])
            && Trace(cfg, session, call, q) == Trace(cfg, session, call, p) + PendingAt(call, q)
  {
  }

  lemma ServeCommand(cfg: Config, c: nat, n: System, s: State, call: Call, p: Phase)
    requires Valid(s) && c < |s.channels| && WithServer(p)
    requires n.server == ServerAt(cfg, c, s, call, p) && Valid(n.server)
    ensures var data, q := EncodeCommand(Scp.Script(EventAt(call, p).value)), NextPhase(cfg, p, ServerReads);
            && Readable(data) && |PendingAt(call, q)| == 1
            && Serve(cfg, c, n, PacketStep(s.sessions.lastSession, data, PlayStarts))
               == n.(server := ServerAt(cfg, c, s, call, q), pending := n.pending + PendingAt(call, q))
  {
    var session, q := s.sessions.lastSession, NextPhase(cfg, p, ServerReads);
    var cmd := Scp.Script(EventAt(call, p).value);
    var s' := ServerAt(cfg, c, s, call, q);
    CommandResolved(cfg, c, s, call, p, cmd);
    CommandStep(cfg, c, s, call, p);
    CommandTrace(cfg, session, call, p);
    LogAt(cfg, c, s, call, p, q, PendingAt(call, q));
    Served(cfg, c, n, PacketStep(session, EncodeCommand(cmd), PlayStarts), s', PendingAt(call, q));
    var a := PendingAt(call, q)[0];
    assert PendingAt(call, q) == [a];
    DispatchReported(n.(server := s'), a);
  }

  /** When the server runs the command, the answer gives way to the library call. */
  lemma CommandRun(cfg: Config, c: nat, n: System, call: Call, p: Phase)
    requires Has(n.server, c) && WithServer(p)
    ensures var n1, e, session := SystemAt(cfg, c, n, call, p), EventAt(call, p), n.server.sessions.lastSession;
            var q := NextPhase(cfg, p, ServerReads);
            && e.Some? && n1.toServer == [Scp.CommandFrame(RequestAt(n.request, p), session, Scp.Script(e.value))]
            && n1.pending == []
            && SystemAt(cfg, c, n, call, q)
               == n1.(server := ServerAt(cfg, c, n.server, call, q), toServer := [], pending := PendingAt(call, q))
  {
  }

  lemma ServerMove(cfg: Config, c: nat, n: System, call: Call, p: Phase)
    requires Valid(n.server) && c < |n.server.channels| && WithServer(p)
    requires Valid(ServerAt(cfg, c, n.server, call, p))
    ensures var n1 := SystemAt(cfg, c, n, call, p);
            Enabled(n1, ServerReads) && Moved(cfg, c, n1, ServerReads)
              == SystemAt(cfg, c, n, call, NextPhase(cfg, p, ServerReads))
  {
    var s, session, q := n.server, n.server.sessions.lastSession, NextPhase(cfg, p, ServerReads);
    var cmd := Scp.Script(EventAt(call, p).value);
    var n1, s' := SystemAt(cfg, c, n, call, p), ServerAt(cfg, c, s, call, q);
    CommandRun(cfg, c, n, call, p);
    var n2 := n1.(toServer := n1.toServer[1..]);
    Scp.CommandFrameRoundTrip(RequestAt(n.request, p), session, cmd);
    ServeCommand(cfg, c, n2, s, call, p);
    assert n1.toServer[1..] == [] && forall a :: n2.pending + [a] == [a];
  }

  predicate WithLibrary(p: Phase) {
    p.Accepting? || p.Answering? || p.Playing? || p.HangingUp? || p.Releasing?
  }

  lemma LineNext(cfg: Config, s: State, c: nat, crn: int, ev: GcEvent)
    requires Valid(s) && !s.aborted && c < |s.channels|
    ensures Has(s, c) && Next(cfg, s, LineStep(c, crn, ev)) == OnLine(cfg, s, c, crn, ev)
  {
  }

  lemma VoiceNext(cfg: Config, s: State, dev: int, c: nat, ev: VoiceEvent)
    requires Valid(s) && !s.aborted && GetIndexByVoice(s.channels, dev) == Some(c)
    ensures Has(s, c) && Next(cfg, s, VoiceStep(dev, ev)) == OnVoice(cfg, s, c, ev)
  {
  }

  lemma CallReport(cfg: Config, c: nat, s: State, call: Call, p: Phase)
    requires cfg.mode == Ssp && Valid(s) && c < |s.channels| && (p.Accepting? || p.Answering?) && IsPhase(cfg, p)
    requires s.sessions.lastSession < Sessions.UNKNOWN_SESSION && Valid(ServerAt(cfg, c, s, call, p))
    ensures Next(cfg, ServerAt(cfg, c, s, call, p),
                 LineStep(c, call.crn, if p.Accepting? then GcAccept else GcAnswered(PlayStarts)))
            == ServerAt(cfg, c, s, call, if p.Accepting? then Answering else Answered)
  {
    LineNext(cfg, ServerAt(cfg, c, s, call, p), c, call.crn, if p.Accepting? then GcAccept else GcAnswered(PlayStarts));
    if p.Accepting? {
      AcceptStep(cfg, c, s, call);
    } else {
      AnsweredStep(cfg, c, s, call, PlayStarts);
    }
  }

  lemma EndReport(cfg: Config, c: nat, s: State, call: Call, p: Phase, busy: bool)
    requires Valid(s) && c < |s.channels| && (p.HangingUp? || p.Releasing?)
    requires Valid(ServerAt(cfg, c, s, call, p))
    ensures Next(cfg, ServerAt(cfg, c, s, call, p),
                 LineStep(c, call.crn, if p.HangingUp? then GcDropCall(busy) else GcReleaseCall))
            == ServerAt(cfg, c, s, call, if p.HangingUp? then Releasing(p.mask, busy) else Done(p.mask, p.busy))
  {
    LineNext(cfg, ServerAt(cfg, c, s, call, p), c, call.crn, if p.HangingUp? then GcDropCall(busy) else GcReleaseCall);
    if p.HangingUp? {
      DropCallStep(cfg, c, s, call, p.mask, busy);
    } else {
      ReleaseStep(cfg, c, s, call, p.mask, p.busy);
    }
  }

  lemma PlayReport(cfg: Config, c: nat, s: State, call: Call, mask: int32)
    requires cfg.mode == Ssp && Valid(s) && c < |s.channels|
    requires GetIndexByVoice(s.channels, s.channels[c].hdVoice) == Some(c)
    requires s.sessions.lastSession < Sessions.UNKNOWN_SESSION && Valid(ServerAt(cfg, c, s, call, Playing))
    ensures Next(cfg, ServerAt(cfg, c, s, call, Playing), VoiceStep(s.channels[c].hdVoice, PlayDone(mask)))
            == ServerAt(cfg, c, s, call, Played(mask))
  {
    VoiceFound(cfg, c, s, call, Playing);
    VoiceNext(cfg, ServerAt(cfg, c, s, call, Playing), s.channels[c].hdVoice, c, PlayDone(mask));
    PlayDoneStep(cfg, c, s, call, mask);
  }

  /** What the server does upon a report. */
  function Reaction(session: uint32, call: Call, p: Phase, mask: int32, busy: bool): seq<Action> {
    match p
    case Accepting => [AnswerCall(call.crn)]
    case Answering => [Notify(session, EvAnswered)]
    case Playing => [Notify(session, EvPlayFinished(mask))]
    case HangingUp(_) => (if busy then [StopVoice] else []) + [ReleaseCall(call.crn)]
    case _ => []
  }

  lemma ReactionTrace(cfg: Config, session: uint32, call: Call, p: Phase, mask: int32, busy: bool)
    requires WithLibrary(p) && IsPhase(cfg, p)
    ensures Trace(cfg, session, call, NextPhase(cfg, p, Complete(0, mask, busy)))
            == Trace(cfg, session, call, p) + Reaction(session, call, p, mask, busy)
  {
    var before := Trace(cfg, session, call, p);
    assert before + [] == before;
    assert (before + [StopVoice]) + [ReleaseCall(call.crn)] == before + ([StopVoice] + [ReleaseCall(call.crn)]);
    assert [] + [ReleaseCall(call.crn)] == [ReleaseCall(call.crn)];
  }

  /** The frame sent upon a report, if any. */
  function FramesSent(request: uint32, session: uint32, p: Phase, mask: int32): seq<seq<byte>> {
    if p.Answering? then [Scp.EventFrame(request, session, EvAnswered)]
    else if p.Playing? then [Scp.EventFrame(request, session, EvPlayFinished(mask))]
    else []
  }

  lemma ReactionSent(n: System, session: uint32, call: Call, p: Phase, mask: int32, busy: bool)
    requires p.Answering? || p.Playing?
    ensures Dispatch(n, Reaction(session, call, p, mask, busy))
            == n.(toScp := n.toScp + FramesSent(n.request, session, p, mask), request := Increment(n.request))
  {
    DispatchNotify(n, session, if p.Answering? then EvAnswered else EvPlayFinished(mask));
  }

  lemma ReactionAsked(cfg: Config, n: System, session: uint32, call: Call, p: Phase, mask: int32, busy: bool)
    requires p.Accepting? || p.Releasing?
    ensures Dispatch(n, Reaction(session, call, p, mask, busy))
            == n.(pending := n.pending + PendingAt(call, NextPhase(cfg, p, Complete(0, mask, busy))))
  {
    if p.Accepting? {
      DispatchReported(n, AnswerCall(call.crn));
    } else {
      assert n.pending + [] == n.pending;
    }
  }

  lemma ReactionRelease(cfg: Config, n: System, session: uint32, call: Call, p: Phase, mask: int32, busy: bool)
    requires p.HangingUp?
    ensures Dispatch(n, Reaction(session, call, p, mask, busy))
            == n.(pending := n.pending + PendingAt(call, NextPhase(cfg, p, Complete(0, mask, busy))))
  {
    if busy {
      DispatchStopAndRelease(n, call.crn);
    } else {
      assert [] + [ReleaseCall(call.crn)] == [ReleaseCall(call.crn)];
      DispatchReported(n, ReleaseCall(call.crn));
    }
  }

  /** Whatever report it is: if it takes the server to the next phase, the reaction is dispatched. */
  lemma ServeReport(
      cfg: Config, c: nat, n: System, s: State, call: Call, p: Phase, mask: int32, busy: bool, step: Step)
    requires Valid(s) && c < |s.channels| && WithLibrary(p) && IsPhase(cfg, p)
    requires n.server == ServerAt(cfg, c, s, call, p) && Valid(n.server) && Takeable(|n.server.channels|, step)
    requires Next(cfg, n.server, step) == ServerAt(cfg, c, s, call, NextPhase(cfg, p, Complete(0, mask, busy)))
    ensures Serve(cfg, c, n, step)
            == Dispatch(n.(server := ServerAt(cfg, c, s, call, NextPhase(cfg, p, Complete(0, mask, busy)))),
                        Reaction(s.sessions.lastSession, call, p, mask, busy))
  {
    var q, session := NextPhase(cfg, p, Complete(0, mask, busy)), s.sessions.lastSession;
    ReactionTrace(cfg, session, call, p, mask, busy);
    LogAt(cfg, c, s, call, p, q, Reaction(session, call, p, mask, busy));
    Served(cfg, c, n, step, ServerAt(cfg, c, s, call, q), Reaction(session, call, p, mask, busy));
  }

  /** When the library reports, the completed call gives way to what the server does next. */
  lemma ReportTaken(cfg: Config, c: nat, n: System, call: Call, p: Phase, mask: int32, busy: bool)
    requires Has(n.server, c) && WithLibrary(p) && IsPhase(cfg, p)
    ensures var n1, q := SystemAt(cfg, c, n, call, p), NextPhase(cfg, p, Complete(0, mask, busy));
            && n1.toScp == [] && n1.toServer == []
            && SystemAt(cfg, c, n, call, q)
               == n1.(server := ServerAt(cfg, c, n.server, call, q),
                      line := if p.Releasing? then None else n1.line,
                      pending := PendingAt(call, q),
                      toScp := FramesSent(n1.request, n.server.sessions.lastSession, p, mask),
                      request := if p.Answering? || p.Playing? then Increment(n1.request) else n1.request)
  {
  }

  /** The library takes the completed call off its list, and the line is free after a release. */
  function TakenOff(n: System, p: Phase): System {
    n.(pending := [], line := if p.Releasing? then None else n.line)
  }

  lemma CompleteIsServe(cfg: Config, c: nat, n: System, call: Call, p: Phase, mask: int32, busy: bool, step: Step)
    requires Valid(n.server) && c < |n.server.channels| && WithLibrary(p)
    requires Valid(ServerAt(cfg, c, n.server, call, p))
    requires step == Report(c, n.server.channels[c].hdVoice, PendingAt(call, p)[0], mask, busy)
    requires Takeable(|n.server.channels|, step)
    ensures var n1, m := SystemAt(cfg, c, n, call, p), Complete(0, mask, busy);
            Enabled(n1, m) && Moved(cfg, c, n1, m) == Serve(cfg, c, TakenOff(n1, p), step)
  {
    var n1 := SystemAt(cfg, c, n, call, p);
    assert n1.pending == PendingAt(call, p) && n1.pending[..0] + n1.pending[1..] == [];
    assert n1.server.channels[c].hdVoice == n.server.channels[c].hdVoice;
  }

  lemma ReactionTaken(cfg: Config, c: nat, n: System, call: Call, p: Phase, mask: int32, busy: bool)
    requires Has(n.server, c) && WithLibrary(p) && IsPhase(cfg, p)
    ensures var q := NextPhase(cfg, p, Complete(0, mask, busy));
            Dispatch(TakenOff(SystemAt(cfg, c, n, call, p), p).(server := ServerAt(cfg, c, n.server, call, q)),
                     Reaction(n.server.sessions.lastSession, call, p, mask, busy))
            == SystemAt(cfg, c, n, call, q)
  {
    var q := NextPhase(cfg, p, Complete(0, mask, busy));
    var n2 := TakenOff(SystemAt(cfg, c, n, call, p), p).(server := ServerAt(cfg, c, n.server, call, q));
    ReportTaken(cfg, c, n, call, p, mask, busy);
    if p.Answering? || p.Playing? {
      ReactionSent(n2, n.server.sessions.lastSession, call, p, mask, busy);
    } else if p.HangingUp? {
      ReactionRelease(cfg, n2, n.server.sessions.lastSession, call, p, mask, busy);
    } else {
      ReactionAsked(cfg, n2, n.server.sessions.lastSession, call, p, mask, busy);
    }
  }

  /** If a report takes the server to the next phase, it takes the whole system there. */
  lemma Completed(cfg: Config, c: nat, n: System, call: Call, p: Phase, mask: int32, busy: bool, step: Step)
    requires Valid(n.server) && c < |n.server.channels| && WithLibrary(p) && IsPhase(cfg, p)
    requires Valid(ServerAt(cfg, c, n.server, call, p))
    requires step == Report(c, n.server.channels[c].hdVoice, PendingAt(call, p)[0], mask, busy)
    requires Takeable(|n.server.channels|, step)
    requires Next(cfg, ServerAt(cfg, c, n.server, call, p), step)
             == ServerAt(cfg, c, n.server, call, NextPhase(cfg, p, Complete(0, mask, busy)))
    ensures var n1, m := SystemAt(cfg, c, n, call, p), Complete(0, mask, busy);
            Enabled(n1, m) && Moved(cfg, c, n1, m) == SystemAt(cfg, c, n, call, NextPhase(cfg, p, m))
  {
    CompleteIsServe(cfg, c, n, call, p, mask, busy, step);
    ServeReport(cfg, c, TakenOff(SystemAt(cfg, c, n, call, p), p), n.server, call, p, mask, busy, step);
    ReactionTaken(cfg, c, n, call, p, mask, busy);
  }

  lemma CallMove(cfg: Config, c: nat, n: System, call: Call, p: Phase, mask: int32, busy: bool)
    requires Ready(cfg, c, n) && IsCall(n, call) && (p.Accepting? || p.Answering?) && IsPhase(cfg, p)
    requires Valid(ServerAt(cfg, c, n.server, call, p))
    ensures var n1, m := SystemAt(cfg, c, n, call, p), Complete(0, mask, busy);
            Enabled(n1, m) && Moved(cfg, c, n1, m) == SystemAt(cfg, c, n, call, NextPhase(cfg, p, m))
  {
    CallReport(cfg, c, n.server, call, p);
    Completed(cfg, c, n, call, p, mask, busy,
              LineStep(c, call.crn, if p.Accepting? then GcAccept else GcAnswered(PlayStarts)));
  }

  lemma PlayMove(cfg: Config, c: nat, n: System, call: Call, mask: int32, busy: bool)
    requires Ready(cfg, c, n) && IsCall(n, call) && Valid(ServerAt(cfg, c, n.server, call, Playing))
    ensures var n1, m := SystemAt(cfg, c, n, call, Playing), Complete(0, mask, busy);
            Enabled(n1, m) && Moved(cfg, c, n1, m) == SystemAt(cfg, c, n, call, Played(mask))
  {
    PlayReport(cfg, c, n.server, call, mask);
    Completed(cfg, c, n, call, Playing, mask, busy, VoiceStep(n.server.channels[c].hdVoice, PlayDone(mask)));
  }

  lemma EndMove(cfg: Config, c: nat, n: System, call: Call, p: Phase, mask: int32, busy: bool)
    requires Ready(cfg, c, n) && IsCall(n, call) && (p.HangingUp? || p.Releasing?)
    requires Valid(ServerAt(cfg, c, n.server, call, p))
    ensures var n1, m := SystemAt(cfg, c, n, call, p), Complete(0, mask, busy);
            Enabled(n1, m) && Moved(cfg, c, n1, m) == SystemAt(cfg, c, n, call, NextPhase(cfg, p, m))
  {
    EndReport(cfg, c, n.server, call, p, busy);
    Completed(cfg, c, n, call, p, mask, busy,
              LineStep(c, call.crn, if p.HangingUp? then GcDropCall(busy) else GcReleaseCall));
  }

  // ---- one call ---------------------------------------------------------------------------------------

  /** In every phase but the last exactly one kind of move is possible, namely this one. */
  ghost predicate Fits(p: Phase, m: Move) {
    match m
    case Offer(_, _, _, _) => false
    case Complete(i, _, _) => i == 0 && WithLibrary(p)
    case ScpReads => WithScp(p)
    case ServerReads => WithServer(p)
  }

  lemma OnlyThatMove(cfg: Config, c: nat, n: System, call: Call, p: Phase, m: Move)
    requires Has(n.server, c) && !p.Done? && Enabled(SystemAt(cfg, c, n, call, p), m)
    ensures Fits(p, m)
  {
    assert |PendingAt(call, p)| <= 1;
  }

  /** Whatever can happen in a phase of a call takes the system to the next one, and something can. */
  lemma PhaseFollows(cfg: Config, c: nat, n: System, call: Call, p: Phase, m: Move)
    requires Ready(cfg, c, n) && IsCall(n, call) && IsPhase(cfg, p) && !p.Done?
    requires Valid(ServerAt(cfg, c, n.server, call, p))
    ensures var n1 := SystemAt(cfg, c, n, call, p);
            && (Enabled(n1, m) <==> Fits(p, m))
            && (Enabled(n1, m) ==> Moved(cfg, c, n1, m) == SystemAt(cfg, c, n, call, NextPhase(cfg, p, m)))
  {
    if Enabled(SystemAt(cfg, c, n, call, p), m) {
      OnlyThatMove(cfg, c, n, call, p, m);
    }
    if Fits(p, m) {
      match m
      case ScpReads => ScpMove(cfg, c, n, call, p);
      case ServerReads => ServerMove(cfg, c, n, call, p);
      case Complete(i, mask, busy) =>
        if p.Playing? {
          PlayMove(cfg, c, n, call, mask, busy);
        } else if p.Accepting? || p.Answering? {
          CallMove(cfg, c, n, call, p, mask, busy);
        } else {
          EndMove(cfg, c, n, call, p, mask, busy);
        }
    }
  }

  /** The moves a call still takes. */
  function MovesLeft(cfg: Config, p: Phase): nat {
    if !cfg.sendACM && PhasesLeft(p) >= 10 then PhasesLeft(p) - 1 else PhasesLeft(p)
  }

  lemma MovesLeftFalls(cfg: Config, p: Phase, m: Move)
    requires IsPhase(cfg, p) && !p.Done?
    ensures IsPhase(cfg, NextPhase(cfg, p, m)) && MovesLeft(cfg, NextPhase(cfg, p, m)) == MovesLeft(cfg, p) - 1
  {
  }

  /** While a call is on, one thing is under way: a frame one way or the other, or a library call. */
  function InFlight(n: System): nat {
    |n.toScp| + |n.toServer| + |n.pending|
  }

  lemma OneInFlight(cfg: Config, c: nat, n: System, call: Call, p: Phase)
    requires Has(n.server, c)
    ensures var n1 := SystemAt(cfg, c, n, call, p);
            InFlight(n1) == (if p.Done? then 0 else 1) && (n1.line.None? <==> p.Done?)
  {
  }

  // ---- what a finished call leaves behind ----------------------------------------------------------------

  datatype CallAction = AnAnswer | APlay | AHangUp | ARelease

  predicate OfKind(a: Action, k: CallAction) {
    match k
    case AnAnswer => a.AnswerCall?
    case APlay => a.PlayData? && a.started
    case AHangUp => a.HangUp?
    case ARelease => a.ReleaseCall?
  }

  function Count(log: seq<Action>, k: CallAction): nat {
    if log == [] then 0
    else Count(log[..|log| - 1], k) + (if OfKind(log[|log| - 1], k) then 1 else 0)
  }

  lemma CountSnoc(log: seq<Action>, a: Action, k: CallAction)
    ensures Count(log + [a], k) == Count(log, k) + (if OfKind(a, k) then 1 else 0)
  {
    assert (log + [a])[..|log|] == log;
  }

  lemma {:induction false} CountAppend(log: seq<Action>, more: seq<Action>, k: CallAction)
    ensures Count(log + more, k) == Count(log, k) + Count(more, k)
  {
    if more == [] {
      assert log + more == log;
    } else {
      var n := |more| - 1;
      CountAppend(log, more[..n], k);
      CountSnoc(log + more[..n], more[n], k);
      assert log + more == (log + more[..n]) + [more[n]];
    }
  }

  lemma AnsweredCount(cfg: Config, session: uint32, call: Call, k: CallAction)
    ensures Count(Trace(cfg, session, call, Answering), k) == if k.AnAnswer? then 1 else 0
  {
    var first := Notify(session, OfferedEvent(call));
    CountSnoc([], first, k);
    assert [] + [first] == [first];
    assert Count([first], k) == 0;
    if cfg.sendACM {
      CountSnoc([first], AcceptCall(call.crn), k);
      CountSnoc([first] + [AcceptCall(call.crn)], AnswerCall(call.crn), k);
    } else {
      CountSnoc([first], AnswerCall(call.crn), k);
    }
  }

  lemma PlayingCount(cfg: Config, session: uint32, call: Call, k: CallAction)
    ensures Count(Trace(cfg, session, call, Playing), k) == if k.AnAnswer? || k.APlay? then 1 else 0
  {
    var answered := Trace(cfg, session, call, Answering);
    AnsweredCount(cfg, session, call, k);
    CountSnoc(answered, Notify(session, EvAnswered), k);
    CountSnoc(answered + [Notify(session, EvAnswered)], PlayData(Scp.FRAGMENT, true), k);
  }

  /** A call is answered once, played to once, hung up once and released once. */
  lemma TraceCount(cfg: Config, session: uint32, call: Call, mask: int32, busy: bool, k: CallAction)
    ensures Count(Trace(cfg, session, call, Done(mask, busy)), k) == 1
  {
    PlayingCount(cfg, session, call, k);
    EndedCount(Trace(cfg, session, call, Playing), session, call.crn, mask, busy, k);
  }

  lemma EndedCount(playing: seq<Action>, session: uint32, crn: int, mask: int32, busy: bool, k: CallAction)
    ensures Count(Ended(playing, session, crn, mask, busy), k)
            == Count(playing, k) + (if k.AHangUp? || k.ARelease? then 1 else 0)
  {
    var reported := playing + [Notify(session, EvPlayFinished(mask))];
    CountSnoc(playing, Notify(session, EvPlayFinished(mask)), k);
    var hungUp := reported + [HangUp(crn, SCRIPT_REASON)];
    CountSnoc(reported, HangUp(crn, SCRIPT_REASON), k);
    CountSnoc(hungUp, StopVoice, k);
    CountSnoc(if busy then hungUp + [StopVoice] else hungUp, ReleaseCall(crn), k);
  }

  /**
   When the last phase is reached the channel is ready again: it is idle, the
   call is out of the table, the count of used channels is what it was, and
   the log holds exactly the trace of the call.
   */
  lemma CallEnds(cfg: Config, c: nat, n: System, call: Call, mask: int32, busy: bool)
    requires Ready(cfg, c, n) && IsCall(n, call)
    ensures var n1 := SystemAt(cfg, c, n, call, Done(mask, busy));
            var ch, ch1 := n.server.channels[c], n1.server.channels[c];
            && Ready(cfg, c, n1)
            && ch1.pstate == PIdle && ch1.calls == [NO_CALL] + ch.calls[..|ch.calls| - 1]
            && n1.server.stUsed == n.server.stUsed && n1.server.stCallCnt == n.server.stCallCnt + 1
            && n1.server.logs[c] == n.server.logs[c] + Trace(cfg, n.server.sessions.lastSession, call, Done(mask, busy))
            && (forall k :: Count(n1.server.logs[c], k) == Count(n.server.logs[c], k) + 1)
            && Touches(n.server, n1.server, c)
  {
    var p := Done(mask, busy);
    ServerAtValid(cfg, c, n.server, call, p);
    VoiceFound(cfg, c, n.server, call, p);
    var trace := Trace(cfg, n.server.sessions.lastSession, call, p);
    forall k ensures Count(n.server.logs[c] + trace, k) == Count(n.server.logs[c], k) + 1 {
      CountAppend(n.server.logs[c], trace, k);
      TraceCount(cfg, n.server.sessions.lastSession, call, mask, busy, k);
    }
  }

  // ---- any number of calls, one after the other ---------------------------------------------------------------

  /** Where the moves lead, if each is possible when its turn comes. */
  ghost function RunMoves(cfg: Config, c: nat, n: System, moves: seq<Move>): (r: Option<System>)
    requires Valid(n.server) && c < |n.server.channels|
    ensures r.Some? ==> Valid(r.value.server) && |r.value.server.channels| == |n.server.channels|
  {
    if moves == [] then Some(n)
    else
      var r, m := RunMoves(cfg, c, n, moves[..|moves| - 1]), moves[|moves| - 1];
      if r.Some? && Enabled(r.value, m) then Some(Moved(cfg, c, r.value, m)) else None
  }

  function OfferCount(moves: seq<Move>): nat {
    if moves == [] then 0
    else OfferCount(moves[..|moves| - 1]) + (if moves[|moves| - 1].Offer? then 1 else 0)
  }

  function MovesPerCall(cfg: Config): nat {
    1 + MovesLeft(cfg, Offering)
  }

  ghost predicate OthersKept(s: State, s': State, c: nat) {
    && |s'.channels| == |s.channels| && |s'.logs| == |s.logs|
    && (forall d: nat :: d < |s.channels| && d != c ==> s'.channels[d] == s.channels[d])
    && (forall d: nat :: d < |s.logs| && d != c ==> s'.logs[d] == s.logs[d])
  }

  /** A table after `calls` calls that were all released: blank places in front, the others moved on. */
  function MovedOn(table: seq<CallInfo>, calls: nat): (r: seq<CallInfo>)
    ensures |r| == |table|
  {
    seq(|table|, i requires 0 <= i < |table| => if i < calls then NO_CALL else table[i - calls])
  }

  /** One more call over moves the table on by one more place. */
  lemma MovedOnOnce(table: seq<CallInfo>, calls: nat)
    requires |table| >= 1
    ensures [NO_CALL] + MovedOn(table, calls)[..|table| - 1] == MovedOn(table, calls + 1)
  {
  }

  /**
   `calls` calls after `n`, in `moves` moves, all of them are over and done
   exactly once; the channel is idle and their places in the table are blank.
   */
  ghost predicate Settled(cfg: Config, c: nat, n: System, calls: int, moves: int, n': System) {
    && Ready(cfg, c, n) && Ready(cfg, c, n')
    && calls >= 0 && moves == MovesPerCall(cfg) * calls
    && n'.server.channels[c].pstate == (if calls > 0 then PIdle else n.server.channels[c].pstate)
    && n'.server.channels[c].calls == MovedOn(n.server.channels[c].calls, calls)
    && n'.server.stUsed == n.server.stUsed && n'.server.stCallCnt == n.server.stCallCnt + calls
    && (forall k :: Count(n'.server.logs[c], k) == Count(n.server.logs[c], k) + calls)
    && OthersKept(n.server, n'.server, c)
  }

  ghost predicate InLastCall(
      cfg: Config, c: nat, n: System, calls: int, moves: int, n': System, b: System, call: Call, p: Phase)
  {
    && Settled(cfg, c, n, calls - 1, moves - (MovesPerCall(cfg) - MovesLeft(cfg, p)), b)
    && IsCall(b, call) && IsPhase(cfg, p) && !p.Done?
    && n' == SystemAt(cfg, c, b, call, p)
  }

  /** All calls are over, or all but the last are and that one is in one of its phases. */
  ghost predicate Explained(cfg: Config, c: nat, n: System, calls: int, moves: int, n': System) {
    || Settled(cfg, c, n, calls, moves, n')
    || exists b: System, call: Call, p: Phase :: InLastCall(cfg, c, n, calls, moves, n', b, call, p)
  }

  lemma OneMoreCall(
      cfg: Config, c: nat, n: System, calls: int, moves: int, b: System, call: Call, mask: int32, busy: bool)
    requires Settled(cfg, c, n, calls, moves, b) && IsCall(b, call)
    ensures Settled(cfg, c, n, calls + 1, moves + MovesPerCall(cfg), SystemAt(cfg, c, b, call, Done(mask, busy)))
  {
    CallEnds(cfg, c, b, call, mask, busy);
    MovedOnOnce(n.server.channels[c].calls, calls);
    assert MovesPerCall(cfg) * (calls + 1) == MovesPerCall(cfg) * calls + MovesPerCall(cfg);
  }

  lemma SettledMove(cfg: Config, c: nat, n: System, calls: int, moves: int, b: System, m: Move)
    requires Settled(cfg, c, n, calls, moves, b) && Enabled(b, m)
    ensures m.Offer? && Explained(cfg, c, n, calls + 1, moves + 1, Moved(cfg, c, b, m))
  {
    assert m.Offer?;
    var call := Call(m.crn, m.dest, m.orig, m.params);
    OfferMove(cfg, c, b, call);
    assert InLastCall(cfg, c, n, calls + 1, moves + 1, Moved(cfg, c, b, m), b, call, Offering);
  }

  /** The next phase of the last call is accounted for as well. */
  lemma LastCallNext(cfg: Config, c: nat, n: System, calls: int, moves: int, b: System, call: Call, p: Phase, m: Move)
    requires Has(b.server, c) && InLastCall(cfg, c, n, calls, moves, SystemAt(cfg, c, b, call, p), b, call, p)
    ensures Explained(cfg, c, n, calls, moves + 1, SystemAt(cfg, c, b, call, NextPhase(cfg, p, m)))
  {
    MovesLeftFalls(cfg, p, m);
    var q, at := NextPhase(cfg, p, m), moves - (MovesPerCall(cfg) - MovesLeft(cfg, p));
    if q.Done? {
      OneMoreCall(cfg, c, n, calls - 1, at, b, call, q.mask, q.busy);
    } else {
      assert moves + 1 - (MovesPerCall(cfg) - MovesLeft(cfg, q)) == at;
      assert InLastCall(cfg, c, n, calls, moves + 1, SystemAt(cfg, c, b, call, q), b, call, q);
    }
  }

  lemma LastCallMove(
      cfg: Config, c: nat, n: System, calls: int, moves: int, n': System, b: System, call: Call, p: Phase, m: Move)
    requires InLastCall(cfg, c, n, calls, moves, n', b, call, p) && Valid(n'.server) && Enabled(n', m)
    ensures !m.Offer? && Moved(cfg, c, n', m) == SystemAt(cfg, c, b, call, NextPhase(cfg, p, m))
  {
    PhaseFollows(cfg, c, b, call, p, m);
  }

  lemma LastCallMoves(
      cfg: Config, c: nat, n: System, calls: int, moves: int, n': System, b: System, call: Call, p: Phase, m: Move)
    requires InLastCall(cfg, c, n, calls, moves, n', b, call, p) && Valid(n'.server) && Enabled(n', m)
    ensures !m.Offer? && Explained(cfg, c, n, calls, moves + 1, Moved(cfg, c, n', m))
  {
    LastCallMove(cfg, c, n, calls, moves, n', b, call, p, m);
    LastCallNext(cfg, c, n, calls, moves, b, call, p, m);
  }

  lemma ExplainedMove(cfg: Config, c: nat, n: System, calls: int, moves: int, n': System, m: Move)
    requires Explained(cfg, c, n, calls, moves, n')
    requires c < |n'.server.channels| && Valid(n'.server) && Enabled(n', m)
    ensures Explained(cfg, c, n, calls + (if m.Offer? then 1 else 0), moves + 1, Moved(cfg, c, n', m))
  {
    if Settled(cfg, c, n, calls, moves, n') {
      SettledMove(cfg, c, n, calls, moves, n', m);
    } else {
      var b: System, call: Call, p: Phase :| InLastCall(cfg, c, n, calls, moves, n', b, call, p);
      LastCallMoves(cfg, c, n, calls, moves, n', b, call, p, m);
    }
  }

  lemma StartExplained(cfg: Config, c: nat, n: System)
    requires Ready(cfg, c, n)
    ensures Explained(cfg, c, n, 0, 0, n)
  {
    assert MovedOn(n.server.channels[c].calls, 0) == n.server.channels[c].calls;
    assert Settled(cfg, c, n, 0, 0, n);
  }

  lemma LastMove(cfg: Config, c: nat, n: System, moves: seq<Move>)
    requires Valid(n.server) && c < |n.server.channels|
    requires moves != [] && RunMoves(cfg, c, n, moves).Some?
    ensures var before, m := moves[..|moves| - 1], moves[|moves| - 1];
            var r := RunMoves(cfg, c, n, before);
            && r.Some? && Enabled(r.value, m) && RunMoves(cfg, c, n, moves).value == Moved(cfg, c, r.value, m)
            && OfferCount(moves) == OfferCount(before) + (if m.Offer? then 1 else 0)
  {
  }

  lemma LastMoveExplained(cfg: Config, c: nat, n: System, moves: seq<Move>)
    requires Ready(cfg, c, n) && moves != [] && RunMoves(cfg, c, n, moves).Some?
    requires var before := moves[..|moves| - 1];
             && RunMoves(cfg, c, n, before).Some?
             && Explained(cfg, c, n, OfferCount(before), |before|, RunMoves(cfg, c, n, before).value)
    ensures Explained(cfg, c, n, OfferCount(moves), |moves|, RunMoves(cfg, c, n, moves).value)
  {
    LastMove(cfg, c, n, moves);
    var before, m := moves[..|moves| - 1], moves[|moves| - 1];
    ExplainedMove(cfg, c, n, OfferCount(before), |before|, RunMoves(cfg, c, n, before).value, m);
  }

  /**
   From a free channel, after any moves whatsoever: each call so far but
   possibly the last is over, and the last is in one of its phases.
   */
  lemma {:induction false} EveryRunExplained(cfg: Config, c: nat, n: System, moves: seq<Move>)
    requires Ready(cfg, c, n) && RunMoves(cfg, c, n, moves).Some?
    ensures Explained(cfg, c, n, OfferCount(moves), |moves|, RunMoves(cfg, c, n, moves).value)
  {
    if moves == [] {
      StartExplained(cfg, c, n);
    } else {
      EveryRunExplained(cfg, c, n, moves[..|moves| - 1]);
      LastMoveExplained(cfg, c, n, moves);
    }
  }

  function FittingMove(p: Phase): Move {
    if WithScp(p) then ScpReads else if WithServer(p) then ServerReads else Complete(0, 0, false)
  }

  lemma LastCallFacts(
      cfg: Config, c: nat, n: System, calls: int, moves: int, n': System, b: System, call: Call, p: Phase)
    requires InLastCall(cfg, c, n, calls, moves, n', b, call, p)
    ensures n'.line.Some? && InFlight(n') == 1
    ensures n'.server.stUsed == n.server.stUsed + 1 && !n'.server.aborted && OthersKept(n.server, n'.server, c)
  {
    OneInFlight(cfg, c, b, call, p);
  }

  lemma LastCallGoesOn(
      cfg: Config, c: nat, n: System, calls: int, moves: int, n': System, b: System, call: Call, p: Phase)
    requires InLastCall(cfg, c, n, calls, moves, n', b, call, p)
    ensures Enabled(n', FittingMove(p)) && moves < MovesPerCall(cfg) * calls
  {
    ServerAtValid(cfg, c, b.server, call, p);
    PhaseFollows(cfg, c, b, call, p, FittingMove(p));
    assert MovesPerCall(cfg) * calls == MovesPerCall(cfg) * (calls - 1) + MovesPerCall(cfg);
  }

  /** One thing is under way, and something can happen to it, exactly while a call is on. */
  lemma Alternation(cfg: Config, c: nat, n: System, moves: seq<Move>)
    requires Ready(cfg, c, n) && RunMoves(cfg, c, n, moves).Some?
    ensures var n' := RunMoves(cfg, c, n, moves).value;
            && InFlight(n') == (if n'.line.Some? then 1 else 0)
            && (n'.line.Some? <==> exists m: Move :: !m.Offer? && Enabled(n', m))
            && n'.server.stUsed == n.server.stUsed + InFlight(n')
            && !n'.server.aborted && OthersKept(n.server, n'.server, c)
  {
    EveryRunExplained(cfg, c, n, moves);
    var n' := RunMoves(cfg, c, n, moves).value;
    if !Settled(cfg, c, n, OfferCount(moves), |moves|, n') {
      var b: System, call: Call, p: Phase :| InLastCall(cfg, c, n, OfferCount(moves), |moves|, n', b, call, p);
      LastCallFacts(cfg, c, n, OfferCount(moves), |moves|, n', b, call, p);
      LastCallGoesOn(cfg, c, n, OfferCount(moves), |moves|, n', b, call, p);
    }
  }

  /**
   A run takes at most so many moves for the calls offered in it.  Once it has
   taken them all, each call was answered, played to, hung up and released
   once and the channel is free as before; until then it can go on.
   */
  lemma EveryCallEnds(cfg: Config, c: nat, n: System, moves: seq<Move>)
    requires Ready(cfg, c, n) && RunMoves(cfg, c, n, moves).Some?
    ensures var n' := RunMoves(cfg, c, n, moves).value;
            && |moves| <= MovesPerCall(cfg) * OfferCount(moves)
            && (|moves| == MovesPerCall(cfg) * OfferCount(moves) <==> n'.line.None?)
            && (n'.line.None? ==> Settled(cfg, c, n, OfferCount(moves), |moves|, n'))
            && (n'.line.None? && OfferCount(moves) > 0 ==>
                  var ch := n'.server.channels[c]; ch.pstate == PIdle && ch.calls[0] == NO_CALL)
  {
    EveryRunExplained(cfg, c, n, moves);
    var n' := RunMoves(cfg, c, n, moves).value;
    if !Settled(cfg, c, n, OfferCount(moves), |moves|, n') {
      var b: System, call: Call, p: Phase :| InLastCall(cfg, c, n, OfferCount(moves), |moves|, n', b, call, p);
      LastCallFacts(cfg, c, n, OfferCount(moves), |moves|, n', b, call, p);
      LastCallGoesOn(cfg, c, n, OfferCount(moves), |moves|, n', b, call, p);
    }
  }
}

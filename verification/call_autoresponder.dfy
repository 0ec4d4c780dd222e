/**
 The call protocol without service logic: one channel of the call server that
 answers by itself, and a library that reports on what it was asked for.  Whether
 a play starts is up to the library, and so is how it ends.
 */
module CallAutoresponder {
  import opened Bytes
  import opened Wire
  import opened Diversion
  import opened CallSpec
  import CallProtocol

  /** The server, the library calls not yet reported on, and the call on the line. */
  datatype System = System(server: State, pending: seq<Action>, line: Option<int>)

  /** A call arrives, or the library reports; the rest of a report is for the calls that have such a result. */
  datatype Move =
    | Offer(call: CallProtocol.Call)
    | Complete(i: nat, play: PlayResult, mask: int32, voiceBusy: bool)

  // ---- server and library ------------------------------------------------------------

  function Report(c: nat, dev: int, a: Action, m: Move): Step
    requires CallProtocol.IsReported(a) && m.Complete?
  {
    if a.AnswerCall? then LineStep(c, a.crn, GcAnswered(m.play))
    else CallProtocol.Report(c, dev, a, m.mask, m.voiceBusy)
  }

  /** Those of the server's actions that the library will report on. */
  function Asked(actions: seq<Action>): seq<Action> {
    if actions == [] then []
    else
      var before, a := Asked(actions[..|actions| - 1]), actions[|actions| - 1];
      if CallProtocol.IsReported(a) then before + [a] else before
  }

  ghost function Serve(cfg: Config, c: nat, n: System, step: Step): (n': System)
    requires Valid(n.server) && c < |n.server.channels| && Takeable(|n.server.channels|, step)
    ensures Valid(n'.server) && |n'.server.channels| == |n.server.channels|
  {
    var s := Next(cfg, n.server, step);
    var log, log' := n.server.logs[c], s.logs[c];
    n.(server := s, pending := n.pending + Asked(if |log| <= |log'| then log'[|log|..] else []))
  }

  ghost predicate Enabled(n: System, m: Move) {
    match m
    case Offer(_) => n.line.None?
    case Complete(i, _, _, _) => i < |n.pending| && CallProtocol.IsReported(n.pending[i])
  }

  ghost function Moved(cfg: Config, c: nat, n: System, m: Move): (n': System)
    requires Valid(n.server) && c < |n.server.channels| && Enabled(n, m)
    ensures Valid(n'.server) && |n'.server.channels| == |n.server.channels|
  {
    match m
    case Offer(call) =>
      Serve(cfg, c, n.(line := Some(call.crn)), LineStep(c, call.crn, GcOffered(call.dest, call.orig, call.params)))
    case Complete(i, _, _, _) =>
      var a := n.pending[i];
      Serve(cfg, c,
            n.(pending := n.pending[..i] + n.pending[i + 1..], line := if a.ReleaseCall? then None else n.line),
            Report(c, n.server.channels[c].hdVoice, a, m))
  }

  // ---- where a call can be -----------------------------------------------------------------

  /** What became of the play: the file could not be opened, or the mode knows none; refused; started. */
  datatype Outcome = NotTried | Refused | Started

  datatype Phase =
    | Acking | Accepting | Answering | Playing
    | HangingUp(o: Outcome) | Releasing(o: Outcome, busy: bool) | Done(o: Outcome, busy: bool)

  predicate IsPhase(cfg: Config, p: Phase) {
    && (p.Acking? ==> cfg.sendCallAck) && (p.Accepting? ==> cfg.sendACM)
    && (p.Playing? ==> cfg.mode == Autoresponder)
    && (p.HangingUp? || p.Releasing? || p.Done? ==> p.o.NotTried? || cfg.mode == Autoresponder)
  }

  function PhasesLeft(p: Phase): nat {
    match p
    case Acking => 6
    case Accepting => 5
    case Answering => 4
    case Playing => 3
    case HangingUp(_) => 2
    case Releasing(_, _) => 1
    case Done(_, _) => 0
  }

  /** Calls are acknowledged and accepted first, where that is configured. */
  function FirstPhase(cfg: Config): Phase {
    if cfg.sendCallAck then Acking else AckedPhase(cfg)
  }

  function AckedPhase(cfg: Config): Phase {
    if cfg.sendACM then Accepting else Answering
  }

  function AnsweredPhase(cfg: Config, play: PlayResult): Phase {
    if cfg.mode != Autoresponder || play.OpenFails? then HangingUp(NotTried)
    else if play.PlayFails? then HangingUp(Refused)
    else Playing
  }

  function NextPhase(cfg: Config, p: Phase, m: Move): Phase
    requires m.Complete?
  {
    match p
    case Acking => AckedPhase(cfg)
    case Accepting => Answering
    case Answering => AnsweredPhase(cfg, m.play)
    case Playing => HangingUp(Started)
    case HangingUp(o) => Releasing(o, m.voiceBusy)
    case Releasing(o, busy) => Done(o, busy)
    case Done(_, _) => p
  }

  /** What the server does on its way into a phase. */
  function Doing(cfg: Config, crn: int, p: Phase): seq<Action> {
    match p
    case Acking => [CallAck(crn)]
    case Accepting => [AcceptCall(crn)]
    case Answering => [AnswerCall(crn)]
    case Playing => [PlayData(cfg.defaultFragment, true)]
    case HangingUp(o) =>
      if o.Refused? then [PlayData(cfg.defaultFragment, false)] + [HangUp(crn, NormalClearing)]
      else [HangUp(crn, NormalClearing)]
    case Releasing(_, busy) => Ending(crn, busy)
    case Done(_, _) => []
  }

  /** A voice device that is still busy is stopped first. */
  function Ending(crn: int, busy: bool): seq<Action> {
    if busy then [StopVoice] + [ReleaseCall(crn)] else [ReleaseCall(crn)]
  }

  /** Everything the server has done for a call by the time it is in a phase. */
  function Trace(cfg: Config, crn: int, p: Phase): seq<Action> {
    var acked := if cfg.sendCallAck then [CallAck(crn)] else [];
    var accepted := acked + (if cfg.sendACM then [AcceptCall(crn)] else []);
    var answered := accepted + [AnswerCall(crn)];
    var started := answered + [PlayData(cfg.defaultFragment, true)];
    match p
    case Acking => acked
    case Accepting => accepted
    case Answering => answered
    case Playing => started
    case HangingUp(o) => HungUp(cfg, crn, answered, o)
    case Releasing(o, busy) => HungUp(cfg, crn, answered, o) + Ending(crn, busy)
    case Done(o, busy) => HungUp(cfg, crn, answered, o) + Ending(crn, busy)
  }

  function HungUp(cfg: Config, crn: int, answered: seq<Action>, o: Outcome): seq<Action> {
    match o
    case NotTried => answered + [HangUp(crn, NormalClearing)]
    case Refused => answered + [PlayData(cfg.defaultFragment, false)] + [HangUp(crn, NormalClearing)]
    case Started => answered + [PlayData(cfg.defaultFragment, true)] + [HangUp(crn, NormalClearing)]
  }

  /** What the library still has to report on in a phase. */
  function PendingAt(cfg: Config, crn: int, p: Phase): seq<Action> {
    match p
    case Acking => [CallAck(crn)]
    case Accepting => [AcceptCall(crn)]
    case Answering => [AnswerCall(crn)]
    case Playing => [PlayData(cfg.defaultFragment, true)]
    case HangingUp(_) => [HangUp(crn, NormalClearing)]
    case Releasing(_, _) => [ReleaseCall(crn)]
    case Done(_, _) => []
  }

  /** Only a play that was started makes the server clear the call itself. */
  function PStateAt(p: Phase): PState {
    match p
    case Playing => PPlay
    case HangingUp(o) => if o.Started? then PReleasing else PIdle
    case Releasing(o, _) => if o.Started? then PReleasing else PIdle
    case _ => PIdle
  }

  function EntryAt(cfg: Config, crn: int, p: Phase): CallInfo {
    match p
    case Acking => CallInfo(crn, SOffered)
    case Accepting => CallInfo(crn, SOffered)
    case Answering => CallInfo(crn, if cfg.sendACM then SAccepted else SOffered)
    case Playing => CallInfo(crn, SConnected)
    case HangingUp(_) => CallInfo(crn, SConnected)
    case Releasing(_, _) => CallInfo(crn, SIdle)
    case Done(_, _) => NO_CALL
  }

  function HasPlayed(p: Phase): bool {
    p.Playing? || ((p.HangingUp? || p.Releasing? || p.Done?) && p.o.Started?)
  }

  function OrEmpty(t: Option<Text>): Text {
    if t.Some? then t.value else []
  }

  function ChannelAt(cfg: Config, ch: Channel, call: CallProtocol.Call, p: Phase): Channel
    requires |ch.calls| >= 1
  {
    var r := Redirect(call.params, []);
    Channel(ch.hdVoice, PStateAt(p), ch.playing || HasPlayed(p),
            [EntryAt(cfg, call.crn, p)] + ch.calls[..|ch.calls| - 1],
            OrEmpty(call.orig), OrEmpty(call.dest), if r.found then r.rdpn else [], if r.found then r.code else 0,
            ch.blocked, ch.vReady)
  }

  /** The state of the server while a call is in a phase, from its state before the call. */
  function ServerAt(cfg: Config, c: nat, s: State, call: CallProtocol.Call, p: Phase): State
    requires Has(s, c)
  {
    State(s.channels[c := ChannelAt(cfg, s.channels[c], call, p)], s.sessions, s.interrupted, s.stUnblocked,
          s.stUsed + (if p.Done? then 0 else 1), s.stCallCnt + 1, false,
          s.logs[c := s.logs[c] + Trace(cfg, call.crn, p)])
  }

  function SystemAt(cfg: Config, c: nat, n: System, call: CallProtocol.Call, p: Phase): System
    requires Has(n.server, c)
  {
    System(ServerAt(cfg, c, n.server, call, p), PendingAt(cfg, call.crn, p), if p.Done? then None else Some(call.crn))
  }

  /** The channel is free and awaits calls, with its voice device found by its handle. */
  ghost predicate Ready(cfg: Config, c: nat, n: System) {
    && cfg.mode != Ssp && Valid(n.server) && !n.server.aborted && c < |n.server.channels|
    && GetIndexByVoice(n.server.channels, n.server.channels[c].hdVoice) == Some(c)
    && WaitCall in n.server.logs[c]
    && n.pending == [] && n.line.None?
  }

  /** Once its voice device is there, under a handle of its own, a channel can take calls. */
  lemma UnblockedReady(cfg: Config, c: nat, s: State, handle: int)
    requires cfg.mode != Ssp && Valid(s) && !s.aborted && c < |s.channels|
    requires forall d :: 0 <= d < c ==> s.channels[d].hdVoice != handle
    ensures Ready(cfg, c, System(Next(cfg, s, LineStep(c, 0, GcUnblocked(Some(handle)))), [], None))
  {
    var s1 := Next(cfg, s, LineStep(c, 0, GcUnblocked(Some(handle))));
    assert s1.channels[c].hdVoice == handle && forall d :: 0 <= d < c ==> s1.channels[d] == s.channels[d];
    assert s1.logs[c] == s.logs[c] + [WaitCall];
  }

  // ---- the server's steps ------------------------------------------------------------------

  lemma ServerAtValid(cfg: Config, c: nat, s: State, call: CallProtocol.Call, p: Phase)
    requires Valid(s) && c < |s.channels|
    ensures Valid(ServerAt(cfg, c, s, call, p)) && Has(ServerAt(cfg, c, s, call, p), c)
  {
    TouchesKeepsValid(s, ServerAt(cfg, c, s, call, p), c);
  }

  /** On the way into a phase the server does what `Doing` says. */
  lemma TraceGrows(cfg: Config, crn: int, p: Phase, m: Move)
    requires IsPhase(cfg, p) && !p.Done? && m.Complete?
    ensures Trace(cfg, crn, NextPhase(cfg, p, m)) == Trace(cfg, crn, p) + Doing(cfg, crn, NextPhase(cfg, p, m))
  {
    var t := Trace(cfg, crn, p);
    assert t + [] == t;
    if p.Answering? {
      assert (t + [PlayData(cfg.defaultFragment, false)]) + [HangUp(crn, NormalClearing)]
             == t + ([PlayData(cfg.defaultFragment, false)] + [HangUp(crn, NormalClearing)]);
    }
  }

  lemma AskedOne(a: Action)
    ensures Asked([a]) == if CallProtocol.IsReported(a) then [a] else []
  {
    assert [a][..0] == [];
  }

  lemma AskedSecond(a: Action, b: Action)
    requires !CallProtocol.IsReported(a) && CallProtocol.IsReported(b)
    ensures Asked([a] + [b]) == [b]
  {
    AskedOne(a);
    assert ([a] + [b])[..1] == [a];
  }

  lemma DoingIsAsked(cfg: Config, crn: int, p: Phase)
    ensures Asked(Doing(cfg, crn, p)) == PendingAt(cfg, crn, p)
  {
    if p.HangingUp? && p.o.Refused? {
      AskedSecond(PlayData(cfg.defaultFragment, false), HangUp(crn, NormalClearing));
    } else if p.Releasing? && p.busy {
      AskedSecond(StopVoice, ReleaseCall(crn));
    } else if !p.Done? {
      AskedOne(PendingAt(cfg, crn, p)[0]);
    }
  }

  /** The call is in the first place of the table all along. */
  lemma FirstPlace(cfg: Config, ch: Channel, call: CallProtocol.Call, p: Phase, sstate: SState)
    requires |ch.calls| >= 1 && !p.Done?
    ensures var at := ChannelAt(cfg, ch, call, p);
            && GetCallNdx(at.calls, call.crn) == Some(0)
            && WithSState(at, call.crn, sstate)
               == at.(calls := [CallInfo(call.crn, sstate)] + ch.calls[..|ch.calls| - 1])
  {
    var at := ChannelAt(cfg, ch, call, p);
    assert at.calls[0].crn == call.crn;
    assert at.calls[0 := CallInfo(call.crn, sstate)] == [CallInfo(call.crn, sstate)] + ch.calls[..|ch.calls| - 1];
  }

  lemma SetTwice<T>(xs: seq<T>, c: nat, x: T, y: T)
    requires c < |xs|
    ensures xs[c := x][c := y] == xs[c := y]
  {
  }

  lemma LogTwice(logs: seq<seq<Action>>, c: nat, t: seq<Action>, more: seq<Action>)
    requires c < |logs|
    ensures logs[c := logs[c] + t][c := (logs[c] + t) + more] == logs[c := logs[c] + (t + more)]
  {
    assert (logs[c] + t) + more == logs[c] + (t + more);
  }

  /** A change of the channel's record and some things done, after what `ServerAt` already says. */
  lemma OneMore(cfg: Config, c: nat, s: State, call: CallProtocol.Call, p: Phase, q: Phase, s': State)
    requires Has(s, c) && !p.Done? && !q.Done?
    requires Trace(cfg, call.crn, q) == Trace(cfg, call.crn, p) + Doing(cfg, call.crn, q)
    requires var s1 := ServerAt(cfg, c, s, call, p);
             s' == s1.(channels := s1.channels[c := ChannelAt(cfg, s.channels[c], call, q)],
                       logs := s1.logs[c := s1.logs[c] + Doing(cfg, call.crn, q)])
    ensures s' == ServerAt(cfg, c, s, call, q)
  {
    SetTwice(s.channels, c, ChannelAt(cfg, s.channels[c], call, p), ChannelAt(cfg, s.channels[c], call, q));
    LogTwice(s.logs, c, Trace(cfg, call.crn, p), Doing(cfg, call.crn, q));
  }

  lemma OfferStep(cfg: Config, c: nat, s: State, call: CallProtocol.Call)
    requires cfg.mode != Ssp && Valid(s) && !s.aborted && c < |s.channels|
    ensures Next(cfg, s, LineStep(c, call.crn, GcOffered(call.dest, call.orig, call.params)))
            == ServerAt(cfg, c, s, call, FirstPhase(cfg))
  {
    var ch := OfferedChannel(s.channels[c], call.crn, call.dest, call.orig, Redirect(call.params, []));
    assert ch == ChannelAt(cfg, s.channels[c], call, FirstPhase(cfg));
    assert Trace(cfg, call.crn, FirstPhase(cfg)) == Doing(cfg, call.crn, FirstPhase(cfg)) by {
      assert forall a: Action :: [] + [a] == [a];
    }
  }

  lemma CallProcStep(cfg: Config, c: nat, s: State, call: CallProtocol.Call, m: Move)
    requires Has(s, c) && cfg.sendCallAck && m.Complete?
    ensures OnLine(cfg, ServerAt(cfg, c, s, call, Acking), c, call.crn, GcCallProc)
            == ServerAt(cfg, c, s, call, NextPhase(cfg, Acking, m))
  {
    TraceGrows(cfg, call.crn, Acking, m);
    var q, s1 := NextPhase(cfg, Acking, m), ServerAt(cfg, c, s, call, Acking);
    var s' := OnLine(cfg, s1, c, call.crn, GcCallProc);
    assert s1.channels[c := ChannelAt(cfg, s.channels[c], call, q)] == s1.channels;
    OneMore(cfg, c, s, call, Acking, q, s');
  }

  lemma AcceptStep(cfg: Config, c: nat, s: State, call: CallProtocol.Call, m: Move)
    requires Has(s, c) && cfg.sendACM && m.Complete?
    ensures OnLine(cfg, ServerAt(cfg, c, s, call, Accepting), c, call.crn, GcAccept)
            == ServerAt(cfg, c, s, call, NextPhase(cfg, Accepting, m))
  {
    TraceGrows(cfg, call.crn, Accepting, m);
    FirstPlace(cfg, s.channels[c], call, Accepting, SAccepted);
    OneMore(cfg, c, s, call, Accepting, Answering,
            OnLine(cfg, ServerAt(cfg, c, s, call, Accepting), c, call.crn, GcAccept));
  }

  lemma AnsweredPlays(cfg: Config, c: nat, s: State, call: CallProtocol.Call, m: Move)
    requires Has(s, c) && cfg.mode == Autoresponder && m.Complete? && m.play.PlayStarts?
    ensures OnLine(cfg, ServerAt(cfg, c, s, call, Answering), c, call.crn, GcAnswered(m.play))
            == ServerAt(cfg, c, s, call, Playing)
  {
    TraceGrows(cfg, call.crn, Answering, m);
    FirstPlace(cfg, s.channels[c], call, Answering, SConnected);
    var s1, ch := ServerAt(cfg, c, s, call, Answering), ChannelAt(cfg, s.channels[c], call, Playing);
    SetTwice(s1.channels, c, ch.(pstate := PIdle, playing := s.channels[c].playing), ch);
    OneMore(cfg, c, s, call, Answering, Playing, OnLine(cfg, s1, c, call.crn, GcAnswered(m.play)));
  }

  lemma AnsweredHangsUp(cfg: Config, c: nat, s: State, call: CallProtocol.Call, m: Move)
    requires Has(s, c) && cfg.mode != Ssp && m.Complete? && (cfg.mode == Autoresponder ==> !m.play.PlayStarts?)
    ensures OnLine(cfg, ServerAt(cfg, c, s, call, Answering), c, call.crn, GcAnswered(m.play))
            == ServerAt(cfg, c, s, call, NextPhase(cfg, Answering, m))
  {
    TraceGrows(cfg, call.crn, Answering, m);
    FirstPlace(cfg, s.channels[c], call, Answering, SConnected);
    var q, s1 := NextPhase(cfg, Answering, m), ServerAt(cfg, c, s, call, Answering);
    var log, hangUp, tried := s1.logs[c], HangUp(call.crn, NormalClearing), PlayData(cfg.defaultFragment, false);
    assert (log + [tried]) + [hangUp] == log + ([tried] + [hangUp]);
    OneMore(cfg, c, s, call, Answering, q, OnLine(cfg, s1, c, call.crn, GcAnswered(m.play)));
  }

  lemma PlayDoneStep(cfg: Config, c: nat, s: State, call: CallProtocol.Call, m: Move)
    requires Has(s, c) && cfg.mode == Autoresponder && m.Complete?
    ensures OnVoice(cfg, ServerAt(cfg, c, s, call, Playing), c, PlayDone(m.mask))
            == ServerAt(cfg, c, s, call, NextPhase(cfg, Playing, m))
  {
    TraceGrows(cfg, call.crn, Playing, m);
    var s1 := ServerAt(cfg, c, s, call, Playing);
    assert s1.channels[c].calls[0].crn == call.crn;
    OneMore(cfg, c, s, call, Playing, HangingUp(Started), OnVoice(cfg, s1, c, PlayDone(m.mask)));
  }

  lemma DropCallStep(cfg: Config, c: nat, s: State, call: CallProtocol.Call, p: Phase, m: Move)
    requires Has(s, c) && p.HangingUp? && IsPhase(cfg, p) && m.Complete?
    ensures OnLine(cfg, ServerAt(cfg, c, s, call, p), c, call.crn, GcDropCall(m.voiceBusy))
            == ServerAt(cfg, c, s, call, NextPhase(cfg, p, m))
  {
    TraceGrows(cfg, call.crn, p, m);
    FirstPlace(cfg, s.channels[c], call, p, SIdle);
    var q, s1 := NextPhase(cfg, p, m), ServerAt(cfg, c, s, call, p);
    var log, release := s1.logs[c], ReleaseCall(call.crn);
    assert (log + [StopVoice]) + [release] == log + ([StopVoice] + [release]);
    var s' := OnLine(cfg, s1, c, call.crn, GcDropCall(m.voiceBusy));
    assert s'.logs == s1.logs[c := log + Doing(cfg, call.crn, q)];
    OneMore(cfg, c, s, call, p, q, s');
  }

  lemma ReleasedFirst(rest: seq<CallInfo>, crn: int)
    ensures Released([CallInfo(crn, SIdle)] + rest, crn) == [NO_CALL] + rest
  {
    var calls := [CallInfo(crn, SIdle)] + rest;
    assert calls[0].crn == crn;
    assert calls[0 := NO_CALL] == [NO_CALL] + rest;
  }

  lemma ReleaseStep(cfg: Config, c: nat, s: State, call: CallProtocol.Call, p: Phase, m: Move)
    requires Has(s, c) && p.Releasing? && m.Complete?
    ensures OnLine(cfg, ServerAt(cfg, c, s, call, p), c, call.crn, GcReleaseCall)
            == ServerAt(cfg, c, s, call, NextPhase(cfg, p, m))
  {
    var ch, q := s.channels[c], NextPhase(cfg, p, m);
    ReleasedFirst(ch.calls[..|ch.calls| - 1], call.crn);
    SetTwice(s.channels, c, ChannelAt(cfg, ch, call, p), ChannelAt(cfg, ch, call, q));
  }

  // ---- the moves of the whole system ---------------------------------------------------------

  /** What the server adds to its log is what the library is asked for. */
  lemma Served(cfg: Config, c: nat, n: System, step: Step, s': State, actions: seq<Action>)
    requires Valid(n.server) && c < |n.server.channels| && Takeable(|n.server.channels|, step)
    requires Next(cfg, n.server, step) == s'
    requires c < |s'.logs| && s'.logs[c] == n.server.logs[c] + actions
    ensures Serve(cfg, c, n, step) == n.(server := s', pending := n.pending + Asked(actions))
  {
    var log := n.server.logs[c];
    assert (log + actions)[|log|..] == actions;
  }

  lemma LogAt(cfg: Config, c: nat, s: State, call: CallProtocol.Call, p: Phase, q: Phase)
    requires Has(s, c)
    requires Trace(cfg, call.crn, q) == Trace(cfg, call.crn, p) + Doing(cfg, call.crn, q)
    ensures ServerAt(cfg, c, s, call, q).logs[c] == ServerAt(cfg, c, s, call, p).logs[c] + Doing(cfg, call.crn, q)
  {
    LogTwice(s.logs, c, Trace(cfg, call.crn, p), Doing(cfg, call.crn, q));
    assert s.logs[c] + (Trace(cfg, call.crn, p) + Doing(cfg, call.crn, q))
           == (s.logs[c] + Trace(cfg, call.crn, p)) + Doing(cfg, call.crn, q);
  }

  lemma OfferMove(cfg: Config, c: nat, n: System, call: CallProtocol.Call)
    requires Ready(cfg, c, n)
    ensures Enabled(n, Offer(call)) && Moved(cfg, c, n, Offer(call)) == SystemAt(cfg, c, n, call, FirstPhase(cfg))
  {
    var p, step := FirstPhase(cfg), LineStep(c, call.crn, GcOffered(call.dest, call.orig, call.params));
    OfferStep(cfg, c, n.server, call);
    assert Trace(cfg, call.crn, p) == Doing(cfg, call.crn, p) by {
      assert forall a: Action :: [] + [a] == [a];
    }
    Served(cfg, c, n.(line := Some(call.crn)), step, ServerAt(cfg, c, n.server, call, p), Doing(cfg, call.crn, p));
    DoingIsAsked(cfg, call.crn, p);
    assert [] + PendingAt(cfg, call.crn, p) == PendingAt(cfg, call.crn, p);
  }

  /** What the library reports in a phase that is not the end of a play. */
  function LineEvent(p: Phase, m: Move): GcEvent
    requires m.Complete? && !p.Playing? && !p.Done?
  {
    match p
    case Acking => GcCallProc
    case Accepting => GcAccept
    case Answering => GcAnswered(m.play)
    case HangingUp(_) => GcDropCall(m.voiceBusy)
    case Releasing(_, _) => GcReleaseCall
  }

  lemma OpeningStep(cfg: Config, c: nat, s: State, call: CallProtocol.Call, p: Phase, m: Move)
    requires cfg.mode != Ssp && Has(s, c) && IsPhase(cfg, p) && m.Complete?
    requires p.Acking? || p.Accepting? || p.Answering?
    ensures OnLine(cfg, ServerAt(cfg, c, s, call, p), c, call.crn, LineEvent(p, m))
            == ServerAt(cfg, c, s, call, NextPhase(cfg, p, m))
  {
    match p
    case Acking => CallProcStep(cfg, c, s, call, m);
    case Accepting => AcceptStep(cfg, c, s, call, m);
    case Answering =>
      if cfg.mode == Autoresponder && m.play.PlayStarts? {
        AnsweredPlays(cfg, c, s, call, m);
      } else {
        AnsweredHangsUp(cfg, c, s, call, m);
      }
  }

  lemma ClosingStep(cfg: Config, c: nat, s: State, call: CallProtocol.Call, p: Phase, m: Move)
    requires Has(s, c) && IsPhase(cfg, p) && m.Complete? && (p.HangingUp? || p.Releasing?)
    ensures OnLine(cfg, ServerAt(cfg, c, s, call, p), c, call.crn, LineEvent(p, m))
            == ServerAt(cfg, c, s, call, NextPhase(cfg, p, m))
  {
    match p
    case HangingUp(_) => DropCallStep(cfg, c, s, call, p, m);
    case Releasing(_, _) => ReleaseStep(cfg, c, s, call, p, m);
  }

  lemma LineReport(cfg: Config, c: nat, s: State, call: CallProtocol.Call, p: Phase, m: Move)
    requires cfg.mode != Ssp && Valid(s) && c < |s.channels| && IsPhase(cfg, p) && m.Complete?
    requires !p.Playing? && !p.Done?
    requires Valid(ServerAt(cfg, c, s, call, p))
    ensures Next(cfg, ServerAt(cfg, c, s, call, p), LineStep(c, call.crn, LineEvent(p, m)))
            == ServerAt(cfg, c, s, call, NextPhase(cfg, p, m))
  {
    CallProtocol.LineNext(cfg, ServerAt(cfg, c, s, call, p), c, call.crn, LineEvent(p, m));
    if p.HangingUp? || p.Releasing? {
      ClosingStep(cfg, c, s, call, p, m);
    } else {
      OpeningStep(cfg, c, s, call, p, m);
    }
  }

  /** The voice device of the channel stays the first with its handle. */
  lemma VoiceFound(cfg: Config, c: nat, s: State, call: CallProtocol.Call, p: Phase)
    requires Has(s, c) && GetIndexByVoice(s.channels, s.channels[c].hdVoice) == Some(c)
    ensures var s1 := ServerAt(cfg, c, s, call, p);
            s1.channels[c].hdVoice == s.channels[c].hdVoice
            && GetIndexByVoice(s1.channels, s1.channels[c].hdVoice) == Some(c)
  {
    var s1 := ServerAt(cfg, c, s, call, p);
    assert s1.channels[c].hdVoice == s.channels[c].hdVoice;
    assert forall d :: 0 <= d < c ==> s1.channels[d] == s.channels[d];
  }

  lemma PlayReport(cfg: Config, c: nat, s: State, call: CallProtocol.Call, m: Move)
    requires cfg.mode == Autoresponder && Valid(s) && c < |s.channels| && m.Complete?
    requires GetIndexByVoice(s.channels, s.channels[c].hdVoice) == Some(c)
    requires Valid(ServerAt(cfg, c, s, call, Playing))
    ensures Next(cfg, ServerAt(cfg, c, s, call, Playing), VoiceStep(s.channels[c].hdVoice, PlayDone(m.mask)))
            == ServerAt(cfg, c, s, call, HangingUp(Started))
  {
    VoiceFound(cfg, c, s, call, Playing);
    CallProtocol.VoiceNext(cfg, ServerAt(cfg, c, s, call, Playing), s.channels[c].hdVoice, c, PlayDone(m.mask));
    PlayDoneStep(cfg, c, s, call, m);
  }

  /** The library takes the completed call off its list, and the line is free after a release. */
  function TakenOff(n: System, p: Phase): System {
    n.(pending := [], line := if p.Releasing? then None else n.line)
  }

  lemma CompleteIsServe(cfg: Config, c: nat, n: System, call: CallProtocol.Call, p: Phase, m: Move, step: Step)
    requires Valid(n.server) && c < |n.server.channels| && !p.Done? && m.Complete? && m.i == 0
    requires Valid(ServerAt(cfg, c, n.server, call, p)) && Takeable(|n.server.channels|, step)
    requires step == Report(c, n.server.channels[c].hdVoice, PendingAt(cfg, call.crn, p)[0], m)
    ensures var n1 := SystemAt(cfg, c, n, call, p);
            Enabled(n1, m) && Moved(cfg, c, n1, m) == Serve(cfg, c, TakenOff(n1, p), step)
  {
    var n1 := SystemAt(cfg, c, n, call, p);
    assert n1.pending == PendingAt(cfg, call.crn, p) && n1.pending[..0] + n1.pending[1..] == [];
    assert n1.server.channels[c].hdVoice == n.server.channels[c].hdVoice;
  }

  /** A report gives way to what the library is asked for next. */
  lemma NextSystem(cfg: Config, c: nat, n: System, call: CallProtocol.Call, p: Phase, m: Move)
    requires Has(n.server, c) && !p.Done? && m.Complete?
    ensures var n2, q := TakenOff(SystemAt(cfg, c, n, call, p), p), NextPhase(cfg, p, m);
            n2.(server := ServerAt(cfg, c, n.server, call, q), pending := n2.pending + PendingAt(cfg, call.crn, q))
            == SystemAt(cfg, c, n, call, q)
  {
    assert [] + PendingAt(cfg, call.crn, NextPhase(cfg, p, m)) == PendingAt(cfg, call.crn, NextPhase(cfg, p, m));
  }

  lemma ServeReport(cfg: Config, c: nat, n: System, s: State, call: CallProtocol.Call, p: Phase, m: Move, step: Step)
    requires Valid(s) && c < |s.channels| && IsPhase(cfg, p) && !p.Done? && m.Complete?
    requires n.server == ServerAt(cfg, c, s, call, p) && Valid(n.server) && Takeable(|n.server.channels|, step)
    requires Next(cfg, n.server, step) == ServerAt(cfg, c, s, call, NextPhase(cfg, p, m))
    ensures var q := NextPhase(cfg, p, m);
            Serve(cfg, c, n, step)
            == n.(server := ServerAt(cfg, c, s, call, q), pending := n.pending + PendingAt(cfg, call.crn, q))
  {
    var q := NextPhase(cfg, p, m);
    TraceGrows(cfg, call.crn, p, m);
    LogAt(cfg, c, s, call, p, q);
    DoingIsAsked(cfg, call.crn, q);
    Served(cfg, c, n, step, ServerAt(cfg, c, s, call, q), Doing(cfg, call.crn, q));
  }

  lemma ServedThere(cfg: Config, c: nat, n: System, call: CallProtocol.Call, p: Phase, m: Move, step: Step)
    requires Valid(n.server) && c < |n.server.channels| && IsPhase(cfg, p) && !p.Done? && m.Complete?
    requires Valid(ServerAt(cfg, c, n.server, call, p)) && Takeable(|n.server.channels|, step)
    requires Next(cfg, ServerAt(cfg, c, n.server, call, p), step)
             == ServerAt(cfg, c, n.server, call, NextPhase(cfg, p, m))
    ensures Serve(cfg, c, TakenOff(SystemAt(cfg, c, n, call, p), p), step)
            == SystemAt(cfg, c, n, call, NextPhase(cfg, p, m))
  {
    ServeReport(cfg, c, TakenOff(SystemAt(cfg, c, n, call, p), p), n.server, call, p, m, step);
    NextSystem(cfg, c, n, call, p, m);
  }

  /** If a report takes the server to the next phase, it takes the whole system there. */
  lemma Completed(cfg: Config, c: nat, n: System, call: CallProtocol.Call, p: Phase, m: Move, step: Step)
    requires Valid(n.server) && c < |n.server.channels| && IsPhase(cfg, p) && !p.Done? && m.Complete? && m.i == 0
    requires Valid(ServerAt(cfg, c, n.server, call, p)) && Takeable(|n.server.channels|, step)
    requires step == Report(c, n.server.channels[c].hdVoice, PendingAt(cfg, call.crn, p)[0], m)
    requires Next(cfg, ServerAt(cfg, c, n.server, call, p), step)
             == ServerAt(cfg, c, n.server, call, NextPhase(cfg, p, m))
    ensures var n1 := SystemAt(cfg, c, n, call, p);
            Enabled(n1, m) && Moved(cfg, c, n1, m) == SystemAt(cfg, c, n, call, NextPhase(cfg, p, m))
  {
    CompleteIsServe(cfg, c, n, call, p, m, step);
    ServedThere(cfg, c, n, call, p, m, step);
  }

  lemma PlayMove(cfg: Config, c: nat, n: System, call: CallProtocol.Call, m: Move)
    requires Ready(cfg, c, n) && cfg.mode == Autoresponder && m.Complete? && m.i == 0
    requires Valid(ServerAt(cfg, c, n.server, call, Playing))
    ensures var n1 := SystemAt(cfg, c, n, call, Playing);
            Enabled(n1, m) && Moved(cfg, c, n1, m) == SystemAt(cfg, c, n, call, HangingUp(Started))
  {
    PlayReport(cfg, c, n.server, call, m);
    Completed(cfg, c, n, call, Playing, m, VoiceStep(n.server.channels[c].hdVoice, PlayDone(m.mask)));
  }

  lemma LineMove(cfg: Config, c: nat, n: System, call: CallProtocol.Call, p: Phase, m: Move)
    requires Ready(cfg, c, n) && IsPhase(cfg, p) && !p.Done? && !p.Playing? && m.Complete? && m.i == 0
    requires Valid(ServerAt(cfg, c, n.server, call, p))
    ensures var n1 := SystemAt(cfg, c, n, call, p);
            Enabled(n1, m) && Moved(cfg, c, n1, m) == SystemAt(cfg, c, n, call, NextPhase(cfg, p, m))
  {
    LineReport(cfg, c, n.server, call, p, m);
    LineIsReport(cfg, c, n.server.channels[c].hdVoice, call, p, m);
    Completed(cfg, c, n, call, p, m, LineStep(c, call.crn, LineEvent(p, m)));
  }

  lemma LineIsReport(cfg: Config, c: nat, dev: int, call: CallProtocol.Call, p: Phase, m: Move)
    requires !p.Done? && !p.Playing? && m.Complete?
    ensures LineStep(c, call.crn, LineEvent(p, m)) == Report(c, dev, PendingAt(cfg, call.crn, p)[0], m)
  {
  }

  /** In each phase of a call only the library's report is possible, and it leads to the next one. */
  lemma PhaseFollows(cfg: Config, c: nat, n: System, call: CallProtocol.Call, p: Phase, m: Move)
    requires Ready(cfg, c, n) && IsPhase(cfg, p) && !p.Done? && Valid(ServerAt(cfg, c, n.server, call, p))
    ensures var n1 := SystemAt(cfg, c, n, call, p);
            && (Enabled(n1, m) <==> m.Complete? && m.i == 0)
            && (Enabled(n1, m) ==> Moved(cfg, c, n1, m) == SystemAt(cfg, c, n, call, NextPhase(cfg, p, m)))
  {
    if m.Complete? && m.i == 0 {
      if p.Playing? {
        PlayMove(cfg, c, n, call, m);
      } else {
        LineMove(cfg, c, n, call, p, m);
      }
    }
  }

  lemma PhasesLeftFalls(cfg: Config, p: Phase, m: Move)
    requires IsPhase(cfg, p) && !p.Done? && m.Complete?
    ensures IsPhase(cfg, NextPhase(cfg, p, m)) && PhasesLeft(NextPhase(cfg, p, m)) < PhasesLeft(p)
  {
  }

  // ---- what a finished call leaves behind ------------------------------------------------------

  lemma AnsweredCount(cfg: Config, crn: int, k: CallProtocol.CallAction)
    ensures CallProtocol.Count(Trace(cfg, crn, Answering), k) == if k.AnAnswer? then 1 else 0
  {
    var acked := if cfg.sendCallAck then [CallAck(crn)] else [];
    var accepted := acked + (if cfg.sendACM then [AcceptCall(crn)] else []);
    assert [] + [CallAck(crn)] == [CallAck(crn)] && acked + [] == acked;
    CallProtocol.CountSnoc([], CallAck(crn), k);
    CallProtocol.CountSnoc(acked, AcceptCall(crn), k);
    CallProtocol.CountSnoc(accepted, AnswerCall(crn), k);
  }

  lemma HungUpCount(cfg: Config, crn: int, answered: seq<Action>, o: Outcome, k: CallProtocol.CallAction)
    ensures CallProtocol.Count(HungUp(cfg, crn, answered, o), k)
            == CallProtocol.Count(answered, k) + (if k.AHangUp? || (k.APlay? && o.Started?) then 1 else 0)
  {
    var frag, hangUp := cfg.defaultFragment, HangUp(crn, NormalClearing);
    CallProtocol.CountSnoc(answered, hangUp, k);
    if !o.NotTried? {
      CallProtocol.CountSnoc(answered, PlayData(frag, o.Started?), k);
      CallProtocol.CountSnoc(answered + [PlayData(frag, o.Started?)], hangUp, k);
    }
  }

  lemma ReleasingCount(hungUp: seq<Action>, crn: int, busy: bool, k: CallProtocol.CallAction)
    ensures CallProtocol.Count(hungUp + Ending(crn, busy), k)
            == CallProtocol.Count(hungUp, k) + (if k.ARelease? then 1 else 0)
  {
    if busy {
      CallProtocol.CountSnoc(hungUp, StopVoice, k);
      CallProtocol.CountSnoc(hungUp + [StopVoice], ReleaseCall(crn), k);
      assert (hungUp + [StopVoice]) + [ReleaseCall(crn)] == hungUp + ([StopVoice] + [ReleaseCall(crn)]);
    } else {
      CallProtocol.CountSnoc(hungUp, ReleaseCall(crn), k);
    }
  }

  lemma EndedCount(cfg: Config, crn: int, answered: seq<Action>, o: Outcome, busy: bool, k: CallProtocol.CallAction)
    ensures CallProtocol.Count(HungUp(cfg, crn, answered, o) + Ending(crn, busy), k)
            == CallProtocol.Count(answered, k)
               + (if k.AHangUp? || k.ARelease? || (k.APlay? && o.Started?) then 1 else 0)
  {
    HungUpCount(cfg, crn, answered, o, k);
    ReleasingCount(HungUp(cfg, crn, answered, o), crn, busy, k);
  }

  /** A call is answered, hung up and released once, and played to once if the play was started. */
  lemma TraceCount(cfg: Config, crn: int, o: Outcome, busy: bool, k: CallProtocol.CallAction)
    ensures CallProtocol.Count(Trace(cfg, crn, Done(o, busy)), k) == if k.APlay? && !o.Started? then 0 else 1
  {
    AnsweredCount(cfg, crn, k);
    EndedCount(cfg, crn, Trace(cfg, crn, Answering), o, busy, k);
  }

  /** When the last phase is reached the channel is ready again, and the log holds exactly the trace of the call. */
  lemma CallEnds(cfg: Config, c: nat, n: System, call: CallProtocol.Call, o: Outcome, busy: bool)
    requires Ready(cfg, c, n)
    ensures var n1 := SystemAt(cfg, c, n, call, Done(o, busy));
            var ch, ch1 := n.server.channels[c], n1.server.channels[c];
            && Ready(cfg, c, n1)
            && ch1.pstate == PIdle && ch1.calls == [NO_CALL] + ch.calls[..|ch.calls| - 1]
            && n1.server.stUsed == n.server.stUsed && n1.server.stCallCnt == n.server.stCallCnt + 1
            && n1.server.logs[c] == n.server.logs[c] + Trace(cfg, call.crn, Done(o, busy))
            && (forall k: CallProtocol.CallAction :: CallProtocol.Count(n1.server.logs[c], k)
                            == CallProtocol.Count(n.server.logs[c], k) + (if k.APlay? && !o.Started? then 0 else 1))
            && Touches(n.server, n1.server, c)
  {
    var p := Done(o, busy);
    ServerAtValid(cfg, c, n.server, call, p);
    VoiceFound(cfg, c, n.server, call, p);
    var log, trace := n.server.logs[c], Trace(cfg, call.crn, p);
    forall k: CallProtocol.CallAction ensures CallProtocol.Count(log + trace, k)
                     == CallProtocol.Count(log, k) + (if k.APlay? && !o.Started? then 0 else 1) {
      CallProtocol.CountAppend(log, trace, k);
      TraceCount(cfg, call.crn, o, busy, k);
    }
  }

  // ---- any number of calls, one after the other ---------------------------------------------------

  ghost function RunMoves(cfg: Config, c: nat, n: System, moves: seq<Move>): (r: Option<System>)
    requires Valid(n.server) && c < |n.server.channels|
    ensures r.Some? ==> Valid(r.value.server) && |r.value.server.channels| == |n.server.channels|
  {
    if moves == [] then Some(n)
    else
      var r, m := RunMoves(cfg, c, n, moves[..|moves| - 1]), moves[|moves| - 1];
      if r.Some? && Enabled(r.value, m) then Some(Moved(cfg, c, r.value, m)) else None
  }

  function OfferCount(moves: seq<Move>): nat {
    if moves == [] then 0
    else OfferCount(moves[..|moves| - 1]) + (if moves[|moves| - 1].Offer? then 1 else 0)
  }

  /** The server plays to its calls, and the library lets it. */
  predicate Plays(cfg: Config, moves: seq<Move>) {
    cfg.mode == Autoresponder && forall m :: m in moves && m.Complete? ==> m.play.PlayStarts?
  }

  /** The most moves that a call takes, its offer included. */
  const MOVES_PER_CALL := 7

  /**
   `calls` calls after `n` all of them are over and done exactly once, each of
   them played to if `sure`; the channel is idle and their places are blank.
   */
  ghost predicate Settled(cfg: Config, c: nat, n: System, sure: bool, calls: int, moves: int, n': System) {
    && Ready(cfg, c, n) && Ready(cfg, c, n')
    && calls >= 0 && moves <= MOVES_PER_CALL * calls
    && n'.server.channels[c].pstate == (if calls > 0 then PIdle else n.server.channels[c].pstate)
    && n'.server.channels[c].calls == CallProtocol.MovedOn(n.server.channels[c].calls, calls)
    && n'.server.stUsed == n.server.stUsed && n'.server.stCallCnt == n.server.stCallCnt + calls
    && (forall k: CallProtocol.CallAction :: sure || !k.APlay? ==>
          CallProtocol.Count(n'.server.logs[c], k) == CallProtocol.Count(n.server.logs[c], k) + calls)
    && CallProtocol.OthersKept(n.server, n'.server, c)
  }

  ghost predicate InLastCall(
      cfg: Config, c: nat, n: System, sure: bool, calls: int, moves: int, n': System,
      b: System, call: CallProtocol.Call, p: Phase)
  {
    && Settled(cfg, c, n, sure, calls - 1, moves - (MOVES_PER_CALL - PhasesLeft(p)), b)
    && IsPhase(cfg, p) && !p.Done?
    && (sure && (p.HangingUp? || p.Releasing?) ==> p.o.Started?)
    && n' == SystemAt(cfg, c, b, call, p)
  }

  /** All calls are over, or all but the last are and that one is in one of its phases. */
  ghost predicate Explained(cfg: Config, c: nat, n: System, sure: bool, calls: int, moves: int, n': System) {
    || Settled(cfg, c, n, sure, calls, moves, n')
    || exists b: System, call: CallProtocol.Call, p: Phase :: InLastCall(cfg, c, n, sure, calls, moves, n', b, call, p)
  }

  lemma OneMoreCall(
      cfg: Config, c: nat, n: System, sure: bool, calls: int, moves: int, b: System,
      call: CallProtocol.Call, o: Outcome, busy: bool)
    requires Settled(cfg, c, n, sure, calls, moves, b) && (sure ==> o.Started?)
    ensures Settled(cfg, c, n, sure, calls + 1, moves + MOVES_PER_CALL, SystemAt(cfg, c, b, call, Done(o, busy)))
  {
    CallEnds(cfg, c, b, call, o, busy);
    CallProtocol.MovedOnOnce(n.server.channels[c].calls, calls);
  }

  lemma SettledMove(cfg: Config, c: nat, n: System, sure: bool, calls: int, moves: int, b: System, m: Move)
    requires Settled(cfg, c, n, sure, calls, moves, b) && Enabled(b, m)
    ensures m.Offer? && Explained(cfg, c, n, sure, calls + 1, moves + 1, Moved(cfg, c, b, m))
  {
    assert m.Offer?;
    OfferMove(cfg, c, b, m.call);
    assert InLastCall(cfg, c, n, sure, calls + 1, moves + 1, Moved(cfg, c, b, m), b, m.call, FirstPhase(cfg));
  }

  lemma LastCallOver(
      cfg: Config, c: nat, n: System, sure: bool, calls: int, moves: int, b: System,
      call: CallProtocol.Call, p: Phase)
    requires Has(b.server, c) && p.Releasing?
    requires InLastCall(cfg, c, n, sure, calls, moves, SystemAt(cfg, c, b, call, p), b, call, p)
    ensures Settled(cfg, c, n, sure, calls, moves + 1, SystemAt(cfg, c, b, call, Done(p.o, p.busy)))
  {
    OneMoreCall(cfg, c, n, sure, calls - 1, moves - (MOVES_PER_CALL - PhasesLeft(p)), b, call, p.o, p.busy);
  }

  /** The next phase of the last call is accounted for as well. */
  lemma LastCallNext(
      cfg: Config, c: nat, n: System, sure: bool, calls: int, moves: int, b: System,
      call: CallProtocol.Call, p: Phase, m: Move)
    requires Has(b.server, c) && m.Complete? && (sure ==> cfg.mode == Autoresponder && m.play.PlayStarts?)
    requires InLastCall(cfg, c, n, sure, calls, moves, SystemAt(cfg, c, b, call, p), b, call, p)
    ensures Explained(cfg, c, n, sure, calls, moves + 1, SystemAt(cfg, c, b, call, NextPhase(cfg, p, m)))
  {
    if p.Releasing? {
      LastCallOver(cfg, c, n, sure, calls, moves, b, call, p);
    } else {
      PhasesLeftFalls(cfg, p, m);
      var q := NextPhase(cfg, p, m);
      assert InLastCall(cfg, c, n, sure, calls, moves + 1, SystemAt(cfg, c, b, call, q), b, call, q);
    }
  }

  lemma LastCallMove(
      cfg: Config, c: nat, n: System, sure: bool, calls: int, moves: int, n': System,
      b: System, call: CallProtocol.Call, p: Phase, m: Move)
    requires InLastCall(cfg, c, n, sure, calls, moves, n', b, call, p) && Valid(n'.server) && Enabled(n', m)
    ensures m.Complete? && Moved(cfg, c, n', m) == SystemAt(cfg, c, b, call, NextPhase(cfg, p, m))
  {
    PhaseFollows(cfg, c, b, call, p, m);
  }

  lemma LastCallMoves(
      cfg: Config, c: nat, n: System, sure: bool, calls: int, moves: int, n': System,
      b: System, call: CallProtocol.Call, p: Phase, m: Move)
    requires InLastCall(cfg, c, n, sure, calls, moves, n', b, call, p) && Valid(n'.server) && Enabled(n', m)
    requires sure && m.Complete? ==> cfg.mode == Autoresponder && m.play.PlayStarts?
    ensures m.Complete? && Explained(cfg, c, n, sure, calls, moves + 1, Moved(cfg, c, n', m))
  {
    LastCallMove(cfg, c, n, sure, calls, moves, n', b, call, p, m);
    LastCallNext(cfg, c, n, sure, calls, moves, b, call, p, m);
  }

  lemma ExplainedMove(cfg: Config, c: nat, n: System, sure: bool, calls: int, moves: int, n': System, m: Move)
    requires Explained(cfg, c, n, sure, calls, moves, n')
    requires c < |n'.server.channels| && Valid(n'.server) && Enabled(n', m)
    requires sure && m.Complete? ==> cfg.mode == Autoresponder && m.play.PlayStarts?
    ensures Explained(cfg, c, n, sure, calls + (if m.Offer? then 1 else 0), moves + 1, Moved(cfg, c, n', m))
  {
    if Settled(cfg, c, n, sure, calls, moves, n') {
      SettledMove(cfg, c, n, sure, calls, moves, n', m);
    } else {
      var b: System, call: CallProtocol.Call, p: Phase :| InLastCall(cfg, c, n, sure, calls, moves, n', b, call, p);
      LastCallMoves(cfg, c, n, sure, calls, moves, n', b, call, p, m);
    }
  }

  lemma ExplainedStep(
      cfg: Config, c: nat, n: System, sure: bool, calls: int, moves: int, n1: System, m: Move, n': System)
    requires Explained(cfg, c, n, sure, calls, moves, n1)
    requires c < |n1.server.channels| && Valid(n1.server) && Enabled(n1, m) && n' == Moved(cfg, c, n1, m)
    requires sure && m.Complete? ==> cfg.mode == Autoresponder && m.play.PlayStarts?
    ensures Explained(cfg, c, n, sure, calls + (if m.Offer? then 1 else 0), moves + 1, n')
  {
    ExplainedMove(cfg, c, n, sure, calls, moves, n1, m);
  }

  lemma StartExplained(cfg: Config, c: nat, n: System, sure: bool)
    requires Ready(cfg, c, n)
    ensures Explained(cfg, c, n, sure, 0, 0, n)
  {
    assert CallProtocol.MovedOn(n.server.channels[c].calls, 0) == n.server.channels[c].calls;
    assert Settled(cfg, c, n, sure, 0, 0, n);
  }

  lemma LastMove(cfg: Config, c: nat, n: System, moves: seq<Move>)
    requires Valid(n.server) && c < |n.server.channels|
    requires moves != [] && RunMoves(cfg, c, n, moves).Some?
    ensures var before, m := moves[..|moves| - 1], moves[|moves| - 1];
            var r := RunMoves(cfg, c, n, before);
            && r.Some? && Enabled(r.value, m) && RunMoves(cfg, c, n, moves).value == Moved(cfg, c, r.value, m)
            && OfferCount(moves) == OfferCount(before) + (if m.Offer? then 1 else 0)
  {
  }

  lemma LastMoveExplained(cfg: Config, c: nat, n: System, sure: bool, calls: int, n1: System, moves: seq<Move>)
    requires Valid(n.server) && c < |n.server.channels| && moves != [] && RunMoves(cfg, c, n, moves).Some?
    requires RunMoves(cfg, c, n, moves[..|moves| - 1]) == Some(n1)
    requires Explained(cfg, c, n, sure, calls, |moves| - 1, n1)
    requires var m := moves[|moves| - 1];
             sure && m.Complete? ==> cfg.mode == Autoresponder && m.play.PlayStarts?
    ensures var m := moves[|moves| - 1];
            Explained(cfg, c, n, sure, calls + (if m.Offer? then 1 else 0), |moves|, RunMoves(cfg, c, n, moves).value)
  {
    LastMove(cfg, c, n, moves);
    ExplainedStep(cfg, c, n, sure, calls, |moves| - 1, n1, moves[|moves| - 1], RunMoves(cfg, c, n, moves).value);
  }

  /**
   From a free channel, after any moves whatsoever: each call so far but
   possibly the last is over, and the last is in one of its phases.
   */
  lemma {:induction false} EveryRunExplained(cfg: Config, c: nat, n: System, sure: bool, moves: seq<Move>)
    requires Ready(cfg, c, n) && RunMoves(cfg, c, n, moves).Some? && (sure ==> Plays(cfg, moves))
    ensures Explained(cfg, c, n, sure, OfferCount(moves), |moves|, RunMoves(cfg, c, n, moves).value)
  {
    if moves == [] {
      StartExplained(cfg, c, n, sure);
    } else {
      assert moves[|moves| - 1] in moves && forall m :: m in moves[..|moves| - 1] ==> m in moves;
      EveryRunExplained(cfg, c, n, sure, moves[..|moves| - 1]);
      LastMove(cfg, c, n, moves);
      var before := moves[..|moves| - 1];
      LastMoveExplained(cfg, c, n, sure, OfferCount(before), RunMoves(cfg, c, n, before).value, moves);
    }
  }

  lemma LastCallGoesOn(
      cfg: Config, c: nat, n: System, sure: bool, calls: int, moves: int, n': System,
      b: System, call: CallProtocol.Call, p: Phase)
    requires InLastCall(cfg, c, n, sure, calls, moves, n', b, call, p)
    ensures n'.line.Some? && OwesReport(n')
    ensures moves < MOVES_PER_CALL * calls
  {
    assert CallProtocol.IsReported(PendingAt(cfg, call.crn, p)[0]);
  }

  /** The library owes exactly one report while a call is on, and none otherwise. */
  predicate OwesReport(n: System) {
    && |n.pending| == (if n.line.Some? then 1 else 0)
    && (n.line.Some? ==> CallProtocol.IsReported(n.pending[0]))
  }

  lemma ExplainedFacts(cfg: Config, c: nat, n: System, sure: bool, calls: int, moves: int, n': System)
    requires Explained(cfg, c, n, sure, calls, moves, n')
    ensures moves <= MOVES_PER_CALL * calls && OwesReport(n')
    ensures n'.line.None? ==> Settled(cfg, c, n, sure, calls, moves, n')
  {
    if !Settled(cfg, c, n, sure, calls, moves, n') {
      var b: System, call: CallProtocol.Call, p: Phase :| InLastCall(cfg, c, n, sure, calls, moves, n', b, call, p);
      LastCallGoesOn(cfg, c, n, sure, calls, moves, n', b, call, p);
    }
  }

  /**
   Whatever the mode but SSP, and whatever is configured: a run takes at most so
   many moves for the calls offered in it, and goes on while a call is on.  Once
   none is, each was answered, hung up and released exactly once, and played to
   exactly once if the library started every play; the channel is free as before.
   */
  lemma EveryCallEnds(cfg: Config, c: nat, n: System, moves: seq<Move>)
    requires Ready(cfg, c, n) && RunMoves(cfg, c, n, moves).Some?
    ensures var n' := RunMoves(cfg, c, n, moves).value;
            && |moves| <= MOVES_PER_CALL * OfferCount(moves)
            && OwesReport(n')
            && (n'.line.None? ==> Settled(cfg, c, n, Plays(cfg, moves), OfferCount(moves), |moves|, n'))
  {
    EveryRunExplained(cfg, c, n, Plays(cfg, moves), moves);
    ExplainedFacts(cfg, c, n, Plays(cfg, moves), OfferCount(moves), |moves|, RunMoves(cfg, c, n, moves).value);
  }
}

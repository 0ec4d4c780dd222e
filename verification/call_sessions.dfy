/**
 Sessions over runs of the whole server: the asserts on them, and where the
 service logic's answers go.
 */
module CallSessions {
  import opened Bytes
  import opened Wire
  import opened CallSpec
  import Sessions
  import Scp

  // ---- what holds of the session maps in every run ---------------------------------

  predicate IsOffer(step: Step) {
    step.LineStep? && step.line.GcOffered?
  }

  /** Calls offered, and so sessions created in SSP mode, in a run. */
  function Offers(steps: seq<Step>): nat {
    if steps == [] then 0
    else Offers(steps[..|steps| - 1]) + (if IsOffer(steps[|steps| - 1]) then 1 else 0)
  }

  ghost predicate SessionInv(s: Sessions.State) {
    && (forall k: uint32 :: k in s.session2channel ==> k < s.lastSession)
    && (forall c :: c in s.channel2session ==>
          && s.channel2session[c] in s.session2channel
          && s.session2channel[s.channel2session[c]] == c)
  }

  /** Later sessions leave the channel of an earlier one alone. */
  ghost predicate Extends(s: Sessions.State, s': Sessions.State) {
    forall k: uint32 :: k in s.session2channel ==>
      k in s'.session2channel && s'.session2channel[k] == s.session2channel[k]
  }

  lemma CreateKeeps(s: Sessions.State, channel: int)
    requires SessionInv(s) && s.lastSession < Sessions.UNKNOWN_SESSION
    ensures var s' := Sessions.Create(s, channel);
            SessionInv(s') && Extends(s, s') && s'.lastSession == s.lastSession + 1
  {
  }

  /** How one step changes the sessions: a call offered in SSP mode opens one, nothing else does. */
  lemma NextSessions(cfg: Config, s: State, step: Step)
    requires Valid(s) && Takeable(|s.channels|, step)
    ensures Next(cfg, s, step).sessions
            == if !s.aborted && IsOffer(step) && cfg.mode == Ssp then Sessions.Create(s.sessions, step.index)
               else s.sessions
  {
    ResolvedIsApplicable(s, step);
    var d := Resolve(s, step);
    if !s.aborted && d.Some? {
      match d.value
      case OnTheLine(c, crn, ev) => LineTouches(cfg, s, c, crn, ev);
      case OnTheVoice(c, ev) => VoiceTouches(cfg, s, c, ev);
      case OnTheCommand(c, cmd, play) => CommandTouches(cfg, s, c, cmd, play);
      case Interrupted =>
      case Polled =>
      case Thrown =>
    }
  }

  ghost predicate Evolves(s: Sessions.State, s': Sessions.State, offers: nat) {
    SessionInv(s') && Extends(s, s') && s'.lastSession <= s.lastSession + offers
  }

  lemma EvolvesOneMore(s: Sessions.State, s1: Sessions.State, offers: nat, channel: int)
    requires Evolves(s, s1, offers) && s.lastSession + offers + 1 <= Sessions.UNKNOWN_SESSION
    ensures Evolves(s, Sessions.Create(s1, channel), offers + 1)
  {
    CreateKeeps(s1, channel);
  }

  lemma {:induction false} RunSessions(cfg: Config, s: State, steps: seq<Step>)
    requires Valid(s) && AllTakeable(|s.channels|, steps) && SessionInv(s.sessions)
    requires s.sessions.lastSession + Offers(steps) <= Sessions.UNKNOWN_SESSION
    ensures Evolves(s.sessions, Run(cfg, s, steps).sessions, Offers(steps))
    decreases |steps|
  {
    if steps != [] {
      var n := |steps| - 1;
      assert steps[n] in steps && forall step :: step in steps[..n] ==> step in steps;
      var s1 := Run(cfg, s, steps[..n]);
      RunSessions(cfg, s, steps[..n]);
      NextSessions(cfg, s1, steps[n]);
      if IsOffer(steps[n]) {
        EvolvesOneMore(s.sessions, s1.sessions, Offers(steps[..n]), steps[n].index);
      }
    }
  }

  lemma PacketRunsCommand(
      cfg: Config, s: State, session: uint32, data: seq<byte>, play: PlayResult, c: nat, cmd: Command)
    requires Valid(s) && !s.aborted && Sessions.ChannelOf(s.sessions, session) == c
    requires Readable(data) && ParseCommand(data) == Some(cmd)
    ensures Has(s, c) && Next(cfg, s, PacketStep(session, data, play)) == OnCommand(cfg, s, c, cmd, play)
  {
    assert Resolve(s, PacketStep(session, data, play)) == Some(OnTheCommand(c, cmd, play));
  }

  // ---- routing: from an event to the command that answers it -------------------------------

  /**
   An event sent for a channel under its current session, answered by the
   script and parsed back, makes the server run exactly the script's command on
   that channel, whatever happened to calls and sessions in the meantime.
   */
  lemma AnswerReachesChannel(
      cfg: Config, s: State, between: seq<Step>, c: nat, request: uint32, e: Event, play: PlayResult)
    requires Valid(s) && SessionInv(s.sessions) && AllTakeable(|s.channels|, between)
    requires s.sessions.lastSession + Offers(between) <= Sessions.UNKNOWN_SESSION
    requires c < |s.channels| && c in s.sessions.channel2session && Scp.Encodable(e)
    requires !Run(cfg, s, between).aborted
    ensures var s' := Run(cfg, s, between);
            var session := Sessions.SessionOf(s.sessions, c);
            var reply := Scp.Respond(Scp.EventFrame(request, session, e));
            && reply.Some? && |reply.value| > Scp.ID_SIZES && FromLe32(reply.value) == request
            && var r := Scp.ParseReply(reply.value, MAX_DATAGRAM_SIZE);
               && r.Received? && Readable(r.data)
               && Next(cfg, s', PacketStep(r.session, r.data, play)) == OnCommand(cfg, s', c, Scp.Script(e), play)
  {
    var session := Sessions.SessionOf(s.sessions, c);
    RunSessions(cfg, s, between);
    Scp.LinkRoundTrip(request, session, e);
    var data := Scp.ParseReply(Scp.Respond(Scp.EventFrame(request, session, e)).value, MAX_DATAGRAM_SIZE).data;
    PacketRunsCommand(cfg, Run(cfg, s, between), session, data, play, c, Scp.Script(e));
  }

  // ---- the asserts on sessions -----------------------------------------------------------------

  predicate ListsCall(calls: seq<CallInfo>) {
    exists i :: 0 <= i < |calls| && calls[i].crn != 0
  }

  predicate HasCall(ch: Channel) {
    ListsCall(ch.calls)
  }

  /** The server made the library play on this channel. */
  predicate Played(log: seq<Action>) {
    exists k :: 0 <= k < |log| && log[k].PlayData? && log[k].started
  }

  predicate OfferedTo(steps: seq<Step>, c: nat) {
    exists k :: 0 <= k < |steps| && IsOffer(steps[k]) && steps[k].index == c
  }

  /** A call in the table or a play started means a session on the channel. */
  ghost predicate SessionBacked(s: State) {
    forall c: nat :: c < |s.channels| && |s.logs| == |s.channels| && (HasCall(s.channels[c]) || Played(s.logs[c]))
      ==> c in s.sessions.channel2session
  }

  lemma WithSStateCalls(ch: Channel, crn: int, sstate: SState)
    ensures HasCall(WithSState(ch, crn, sstate)) ==> HasCall(ch)
  {
    var ndx := GetCallNdx(ch.calls, crn);
    if ndx.Some? {
      assert forall i :: 0 <= i < |ch.calls| ==> WithSState(ch, crn, sstate).calls[i].crn == ch.calls[i].crn;
    }
  }

  lemma PlayedSnoc(log: seq<Action>, a: Action)
    ensures Played(log + [a]) <==> Played(log) || (a.PlayData? && a.started)
  {
    assert forall k :: 0 <= k < |log| ==> (log + [a])[k] == log[k];
    assert (log + [a])[|log|] == a;
  }

  lemma PlayedAppend(log: seq<Action>, more: seq<Action>)
    ensures Played(log + more) <==> Played(log) || Played(more)
  {
    assert forall k :: 0 <= k < |log| ==> (log + more)[k] == log[k];
    assert forall k :: 0 <= k < |more| ==> (log + more)[|log| + k] == more[k];
  }

  lemma LineCalls(cfg: Config, s: State, c: nat, crn: int, ev: GcEvent)
    requires Has(s, c) && !ev.GcOffered?
    ensures |OnLine(cfg, s, c, crn, ev).channels| == |s.channels|
    ensures HasCall(OnLine(cfg, s, c, crn, ev).channels[c]) ==> HasCall(s.channels[c])
  {
    LineTable(cfg, s, c, crn, ev);
    TableAfterCalls(s.channels[c], crn, ev);
  }

  lemma TableAfterCalls(ch: Channel, crn: int, ev: GcEvent)
    requires |ch.calls| >= 1 && !ev.GcOffered?
    ensures ListsCall(TableAfter(ch, crn, ev)) ==> ListsCall(ch.calls)
  {
    match ev
    case GcAccept => WithSStateCalls(ch, crn, SAccepted);
    case GcAnswered(_) => WithSStateCalls(ch, crn, SConnected);
    case GcConnected => WithSStateCalls(ch, crn, SConnected);
    case GcDisconnected => WithSStateCalls(ch, crn, SDisconnected);
    case GcDropCall(_) => WithSStateCalls(ch, crn, SIdle);
    case _ =>
  }

  lemma LinePlays(cfg: Config, s: State, c: nat, crn: int, ev: GcEvent)
    requires cfg.mode == Ssp && Has(s, c)
    ensures |OnLine(cfg, s, c, crn, ev).logs| == |s.logs|
    ensures Played(OnLine(cfg, s, c, crn, ev).logs[c]) ==> Played(s.logs[c])
  {
    var log := s.logs[c];
    forall a ensures Played(log + [a]) <==> Played(log) || (a.PlayData? && a.started) { PlayedSnoc(log, a); }
    PlayedSnoc(log + [StopVoice], ReleaseCall(crn));
  }

  /** Calls and voice handles are kept and no play is added. */
  ghost predicate AddsNothing(s: State, s': State) {
    && |s'.channels| == |s'.logs| == |s.channels| == |s.logs|
    && forall c: nat :: c < |s.channels| ==>
         && s'.channels[c].calls == s.channels[c].calls && s'.channels[c].hdVoice == s.channels[c].hdVoice
         && (Played(s'.logs[c]) ==> Played(s.logs[c]))
  }

  lemma ShutdownPlaysNothing(log: seq<Action>, ch: Channel)
    requires |ch.calls| >= 1
    ensures Played(log + DeinitActions(ch)) ==> Played(log)
    ensures Played(log + CloseActions(ch)) ==> Played(log)
  {
    PlayedAppend(log, DeinitActions(ch));
    PlayedAppend(log, CloseActions(ch));
  }

  lemma DeinitAdds(s: State)
    requires Valid(s)
    ensures AddsNothing(s, Deinit(s))
  {
    forall c: nat | c < |s.channels| ensures Played(Deinit(s).logs[c]) ==> Played(s.logs[c]) {
      ShutdownPlaysNothing(s.logs[c], s.channels[c]);
    }
  }

  lemma CloseAdds(s: State)
    requires Valid(s)
    ensures AddsNothing(s, Close(s))
  {
    forall c: nat | c < |s.channels| ensures Played(Close(s).logs[c]) ==> Played(s.logs[c]) {
      ShutdownPlaysNothing(s.logs[c], s.channels[c]);
    }
  }

  lemma VoiceAdds(cfg: Config, s: State, c: nat, ev: VoiceEvent)
    requires cfg.mode == Ssp && Has(s, c)
    ensures var s' := OnVoice(cfg, s, c, ev);
            && |s'.logs| == |s.logs| && s'.channels == s.channels
            && (Played(s'.logs[c]) ==> Played(s.logs[c]))
  {
    if ev.PlayDone? {
      PlayedSnoc(s.logs[c], Notify(Sessions.SessionOf(s.sessions, c), EvPlayFinished(ev.mask)));
    }
  }

  lemma CommandCalls(cfg: Config, s: State, c: nat, cmd: Command, play: PlayResult)
    requires Has(s, c)
    ensures var s' := OnCommand(cfg, s, c, cmd, play);
            && |s'.channels| == |s.channels| && s'.channels[c].calls == s.channels[c].calls
            && s'.channels[c].hdVoice == s.channels[c].hdVoice
  {
  }

  // ---- in every run, calls and plays are backed by a session ---------------------------------------

  lemma NextBacked(cfg: Config, s: State, step: Step)
    requires cfg.mode == Ssp && Valid(s) && Takeable(|s.channels|, step) && SessionBacked(s)
    ensures SessionBacked(Next(cfg, s, step))
  {
    NextSessions(cfg, s, step);
    ResolvedIsApplicable(s, step);
    var d := Resolve(s, step);
    if !s.aborted && d.Some? {
      match d.value
      case OnTheLine(c, crn, ev) =>
        LineTouches(cfg, s, c, crn, ev);
        if !ev.GcOffered? {
          LineCalls(cfg, s, c, crn, ev);
          LinePlays(cfg, s, c, crn, ev);
        }
      case OnTheVoice(c, ev) =>
        VoiceTouches(cfg, s, c, ev);
        VoiceAdds(cfg, s, c, ev);
      case OnTheCommand(c, cmd, play) =>
        CommandTouches(cfg, s, c, cmd, play);
        CommandCalls(cfg, s, c, cmd, play);
      case Interrupted => DeinitAdds(s);
      case Polled => CloseAdds(s);
      case Thrown =>
    }
  }

  lemma InitBacked(channelCount: nat, maxCalls: nat)
    requires maxCalls >= 1
    ensures SessionBacked(Init(channelCount, maxCalls))
  {
  }

  lemma OfferedToSnoc(steps: seq<Step>, step: Step, c: nat)
    ensures OfferedTo(steps + [step], c) <==> OfferedTo(steps, c) || (IsOffer(step) && step.index == c)
  {
    assert forall k :: 0 <= k < |steps| ==> (steps + [step])[k] == steps[k];
    assert (steps + [step])[|steps|] == step;
  }

  /** Calls, plays and offered calls are backed by sessions, and sessions by offered calls. */
  ghost predicate BackedBy(s: State, steps: seq<Step>) {
    SessionBacked(s) && (!s.aborted ==> forall c: nat :: c in s.sessions.channel2session <==> OfferedTo(steps, c))
  }

  lemma BackedByNext(cfg: Config, s: State, before: seq<Step>, step: Step)
    requires cfg.mode == Ssp && Valid(s) && Takeable(|s.channels|, step) && BackedBy(s, before)
    ensures BackedBy(Next(cfg, s, step), before + [step])
  {
    NextBacked(cfg, s, step);
    NextSessions(cfg, s, step);
    forall c ensures OfferedTo(before + [step], c) <==> OfferedTo(before, c) || (IsOffer(step) && step.index == c) {
      OfferedToSnoc(before, step, c);
    }
  }

  /** A channel has a session exactly when a call was offered to it. */
  lemma {:induction false} RunBacked(cfg: Config, channelCount: nat, maxCalls: nat, steps: seq<Step>)
    requires cfg.mode == Ssp && maxCalls >= 1
    requires AllTakeable(channelCount, steps)
    ensures var s := Run(cfg, Init(channelCount, maxCalls), steps);
            && SessionBacked(s)
            && (!s.aborted ==> forall c: nat :: c in s.sessions.channel2session <==> OfferedTo(steps, c))
    decreases |steps|
  {
    InitBacked(channelCount, maxCalls);
    if steps != [] {
      var n := |steps| - 1;
      assert steps[n] in steps && forall step :: step in steps[..n] ==> step in steps;
      RunBacked(cfg, channelCount, maxCalls, steps[..n]);
      BackedByNext(cfg, Run(cfg, Init(channelCount, maxCalls), steps[..n]), steps[..n], steps[n]);
      assert steps == steps[..n] + [steps[n]];
    }
  }

  // ---- when exactly the asserts fail ----------------------------------------------------------------------

  lemma RunSessionKnown(cfg: Config, channelCount: nat, maxCalls: nat, steps: seq<Step>, c: nat)
    requires cfg.mode == Ssp && maxCalls >= 1
    requires AllTakeable(channelCount, steps) && Offers(steps) <= Sessions.UNKNOWN_SESSION
    requires !Run(cfg, Init(channelCount, maxCalls), steps).aborted
    ensures Sessions.SessionOf(Run(cfg, Init(channelCount, maxCalls), steps).sessions, c) != Sessions.UNKNOWN_SESSION
            <==> OfferedTo(steps, c)
  {
    RunSessions(cfg, Init(channelCount, maxCalls), steps);
    RunBacked(cfg, channelCount, maxCalls, steps);
  }

  lemma AnsweredOutcome(cfg: Config, s: State, c: nat, crn: int, play: PlayResult)
    requires cfg.mode == Ssp && Valid(s) && !s.aborted && c < |s.channels|
    ensures Next(cfg, s, LineStep(c, crn, GcAnswered(play))).aborted
            <==> GetCallNdx(s.channels[c].calls, crn).Some?
                 && Sessions.SessionOf(s.sessions, c) == Sessions.UNKNOWN_SESSION
  {
  }

  /**
   In any SSP-mode run of fewer than 2^32 calls, the assert behind ANSWERED
   fails exactly for the number 0 on a channel that was never offered a call:
   with a real call number it never does, RESETLINEDEV or not.
   */
  lemma AnsweredAssert(
      cfg: Config, channelCount: nat, maxCalls: nat, steps: seq<Step>, c: nat, crn: int, play: PlayResult)
    requires cfg.mode == Ssp && maxCalls >= 1
    requires AllTakeable(channelCount, steps) && Offers(steps) <= Sessions.UNKNOWN_SESSION
    requires !Run(cfg, Init(channelCount, maxCalls), steps).aborted && c < channelCount
    ensures Next(cfg, Run(cfg, Init(channelCount, maxCalls), steps), LineStep(c, crn, GcAnswered(play))).aborted
            <==> crn == 0 && !OfferedTo(steps, c)
  {
    var s := Run(cfg, Init(channelCount, maxCalls), steps);
    RunSessionKnown(cfg, channelCount, maxCalls, steps, c);
    RunBacked(cfg, channelCount, maxCalls, steps);
    AnsweredOutcome(cfg, s, c, crn, play);
    assert s.channels[c].calls[0].crn == 0 || HasCall(s.channels[c]);
  }

  lemma PlayDoneOutcome(cfg: Config, s: State, dev: int, mask: int32)
    requires cfg.mode == Ssp && Valid(s) && !s.aborted
    ensures Next(cfg, s, VoiceStep(dev, PlayDone(mask))).aborted
            <==> var c := GetIndexByVoice(s.channels, dev);
                 c.Some? && Sessions.SessionOf(s.sessions, c.value) == Sessions.UNKNOWN_SESSION
  {
  }

  /**
   The assert behind TDX_PLAY fails exactly when the device belongs to a channel
   that was never offered a call; a play the server started is never such a one.
   */
  lemma PlayDoneAssert(cfg: Config, channelCount: nat, maxCalls: nat, steps: seq<Step>, dev: int, mask: int32)
    requires cfg.mode == Ssp && maxCalls >= 1
    requires AllTakeable(channelCount, steps) && Offers(steps) <= Sessions.UNKNOWN_SESSION
    requires !Run(cfg, Init(channelCount, maxCalls), steps).aborted
    ensures var s := Run(cfg, Init(channelCount, maxCalls), steps);
            var c := GetIndexByVoice(s.channels, dev);
            && (Next(cfg, s, VoiceStep(dev, PlayDone(mask))).aborted <==> c.Some? && !OfferedTo(steps, c.value))
            && (c.Some? && Played(s.logs[c.value]) ==> OfferedTo(steps, c.value))
  {
    var s := Run(cfg, Init(channelCount, maxCalls), steps);
    RunBacked(cfg, channelCount, maxCalls, steps);
    PlayDoneOutcome(cfg, s, dev, mask);
    if GetIndexByVoice(s.channels, dev).Some? {
      RunSessionKnown(cfg, channelCount, maxCalls, steps, GetIndexByVoice(s.channels, dev).value);
    }
  }

  // ---- a well-behaved library and service logic never make the server abort ---------------------------------

  /** The voice handles that the library gives out: one for each channel, none of them 0. */
  ghost predicate Handles(voice: nat -> int) {
    && (forall c: nat :: voice(c) != 0)
    && (forall c: nat, d: nat :: voice(c) == voice(d) ==> c == d)
  }

  /**
   A step a well-behaved environment can take: handles as given out, call
   numbers not 0, plays end that were started, known commands, and nothing is
   played on a channel whose voice device is not there yet.
   */
  ghost predicate Legal(voice: nat -> int, s: State, step: Step)
    requires |s.logs| == |s.channels|
  {
    match step
    case LineStep(c, crn, ev) =>
      && (ev.GcAnswered? ==> crn != 0)
      && (ev.GcUnblocked? && ev.handle.Some? ==> ev.handle.value == voice(c))
    case VoiceStep(dev, ev) =>
      ev.PlayDone? ==> exists c: nat :: c < |s.logs| && dev == voice(c) && Played(s.logs[c])
    case PacketStep(session, data, play) =>
      && (data != [] && Readable(data) ==> ParseCommand(data).Some?)
      && (play.PlayStarts? ==>
            var c := Sessions.ChannelOf(s.sessions, session); 0 <= c < |s.channels| ==> s.channels[c].hdVoice != 0)
    case _ => true
  }

  ghost predicate HandleInv(voice: nat -> int, s: State) {
    && |s.logs| == |s.channels|
    && forall c: nat :: c < |s.channels| ==>
         && (s.channels[c].hdVoice == 0 || s.channels[c].hdVoice == voice(c))
         && (Played(s.logs[c]) ==> s.channels[c].hdVoice == voice(c))
  }

  lemma AnsweredHandle(cfg: Config, s: State, c: nat, crn: int, play: PlayResult)
    requires Has(s, c)
    ensures |OnAnswered(cfg, s, c, crn, play).channels| == |s.channels|
    ensures OnAnswered(cfg, s, c, crn, play).channels[c].hdVoice == s.channels[c].hdVoice
  {
  }

  lemma EndHandle(s: State, c: nat, crn: int, voiceBusy: bool)
    requires Has(s, c)
    ensures OnDisconnected(s, c, crn).channels[c].hdVoice == s.channels[c].hdVoice
    ensures OnDropCall(s, c, crn, voiceBusy).channels[c].hdVoice == s.channels[c].hdVoice
    ensures OnReleaseCall(s, c, crn).channels[c].hdVoice == s.channels[c].hdVoice
  {
  }

  lemma LineHandle(cfg: Config, s: State, c: nat, crn: int, ev: GcEvent)
    requires Has(s, c)
    ensures |OnLine(cfg, s, c, crn, ev).channels| == |s.channels|
    ensures OnLine(cfg, s, c, crn, ev).channels[c].hdVoice
            == if ev.GcUnblocked? && ev.handle.Some? then ev.handle.value else s.channels[c].hdVoice
  {
    if ev.GcOffered? {
      OfferedTouches(cfg, s, c, crn, ev.dest, ev.orig, ev.params);
    } else if ev.GcAnswered? {
      AnsweredHandle(cfg, s, c, crn, ev.play);
    } else if ev.GcDisconnected? || ev.GcDropCall? || ev.GcReleaseCall? {
      EndHandle(s, c, crn, ev.GcDropCall? && ev.voiceBusy);
    }
  }

  lemma CommandPlays(cfg: Config, s: State, c: nat, cmd: Command, play: PlayResult)
    requires Has(s, c)
    ensures var s' := OnCommand(cfg, s, c, cmd, play);
            |s'.logs| == |s.logs| && (Played(s'.logs[c]) ==> Played(s.logs[c]) || play.PlayStarts?)
  {
    var log := s.logs[c];
    forall a ensures Played(log + [a]) <==> Played(log) || (a.PlayData? && a.started) { PlayedSnoc(log, a); }
  }

  lemma NextHandles(cfg: Config, voice: nat -> int, s: State, step: Step)
    requires cfg.mode == Ssp && Valid(s) && Takeable(|s.channels|, step)
    requires HandleInv(voice, s) && Legal(voice, s, step)
    ensures HandleInv(voice, Next(cfg, s, step))
  {
    ResolvedIsApplicable(s, step);
    var d := Resolve(s, step);
    if !s.aborted && d.Some? {
      match d.value
      case OnTheLine(c, crn, ev) =>
        LineTouches(cfg, s, c, crn, ev);
        LineHandle(cfg, s, c, crn, ev);
        LinePlays(cfg, s, c, crn, ev);
      case OnTheVoice(c, ev) =>
        VoiceTouches(cfg, s, c, ev);
        VoiceAdds(cfg, s, c, ev);
      case OnTheCommand(c, cmd, play) =>
        CommandTouches(cfg, s, c, cmd, play);
        CommandCalls(cfg, s, c, cmd, play);
        CommandPlays(cfg, s, c, cmd, play);
      case Interrupted => DeinitAdds(s);
      case Polled => CloseAdds(s);
      case Thrown =>
    }
  }

  lemma LegalNeverAborts(cfg: Config, voice: nat -> int, s: State, step: Step)
    requires cfg.mode == Ssp && Valid(s) && !s.aborted && Takeable(|s.channels|, step)
    requires Handles(voice) && HandleInv(voice, s) && Legal(voice, s, step)
    requires SessionInv(s.sessions) && s.sessions.lastSession <= Sessions.UNKNOWN_SESSION && SessionBacked(s)
    ensures !Next(cfg, s, step).aborted
  {
    match step
    case LineStep(c, crn, ev) =>
      if ev.GcAnswered? {
        AnsweredOutcome(cfg, s, c, crn, ev.play);
      }
    case VoiceStep(dev, ev) =>
      if ev.PlayDone? {
        PlayDoneOutcome(cfg, s, dev, ev.mask);
        var c: nat :| c < |s.logs| && dev == voice(c) && Played(s.logs[c]);
        assert s.channels[c].hdVoice == dev;
        assert GetIndexByVoice(s.channels, dev) == Some(c);
      }
    case PacketStep(session, data, play) =>
    case InterruptStep =>
    case PollStep =>
  }

  ghost predicate LegalRun(cfg: Config, voice: nat -> int, s: State, steps: seq<Step>)
    requires Valid(s) && AllTakeable(|s.channels|, steps)
  {
    forall k: nat :: k < |steps| ==> Legal(voice, Run(cfg, s, steps[..k]), steps[k])
  }

  lemma LegalPrefix(cfg: Config, voice: nat -> int, s: State, steps: seq<Step>, n: nat)
    requires Valid(s) && AllTakeable(|s.channels|, steps) && n < |steps| && LegalRun(cfg, voice, s, steps)
    ensures AllTakeable(|s.channels|, steps[..n]) && LegalRun(cfg, voice, s, steps[..n])
    ensures Legal(voice, Run(cfg, s, steps[..n]), steps[n])
  {
    assert forall step :: step in steps[..n] ==> step in steps;
    forall k: nat | k < n ensures Legal(voice, Run(cfg, s, steps[..n][..k]), steps[..n][k]) {
      assert steps[..n][..k] == steps[..k];
      assert Legal(voice, Run(cfg, s, steps[..k]), steps[k]);
    }
  }

  /** With a well-behaved environment the server never aborts, in any run. */
  lemma {:induction false} NeverAborts(
      cfg: Config, voice: nat -> int, channelCount: nat, maxCalls: nat, steps: seq<Step>)
    requires cfg.mode == Ssp && maxCalls >= 1 && Handles(voice)
    requires AllTakeable(channelCount, steps) && Offers(steps) <= Sessions.UNKNOWN_SESSION
    requires LegalRun(cfg, voice, Init(channelCount, maxCalls), steps)
    ensures var s := Run(cfg, Init(channelCount, maxCalls), steps);
            !s.aborted && HandleInv(voice, s)
    decreases |steps|
  {
    if steps != [] {
      var n := |steps| - 1;
      var before := steps[..n];
      assert steps[n] in steps && forall step :: step in before ==> step in steps;
      LegalPrefix(cfg, voice, Init(channelCount, maxCalls), steps, n);
      NeverAborts(cfg, voice, channelCount, maxCalls, before);
      RunSessions(cfg, Init(channelCount, maxCalls), before);
      RunBacked(cfg, channelCount, maxCalls, before);
      var s := Run(cfg, Init(channelCount, maxCalls), before);
      assert Legal(voice, s, steps[n]);
      NextHandles(cfg, voice, s, steps[n]);
      LegalNeverAborts(cfg, voice, s, steps[n]);
    }
  }
}

/**
 What the call server does to its channel records, counters and sessions, as
 functions on its whole state.  A step comes from the telephony library (an
 event of a line or of a voice device), from the service logic (a packet), or
 is a shutdown request or an exit poll.  What library calls return, where the
 code looks at it, is part of the event.  `logs` records, channel by channel, the
 calls made and the messages sent.
 */
module CallSpec {
  import opened Bytes
  import opened Wire
  import opened Diversion
  import Sessions

  datatype PState = PNull | PIdle | PCalling | PPlay | PReleasing | PShutdown

  datatype SState = SNull | SOffered | SAccepted | SConnected | SDialing | SDisconnected | SIdle

  datatype CallInfo = CallInfo(crn: int, sstate: SState)

  const NO_CALL := CallInfo(0, SNull)

  datatype Channel = Channel(
    hdVoice: int, pstate: PState, playing: bool, calls: seq<CallInfo>,
    cgpn: Text, cdpn: Text, rdpn: Text, reasonCode: int, blocked: bool, vReady: bool)

  datatype Mode = Autoresponder | Ssp | Unsupported

  datatype Config = Config(mode: Mode, sendCallAck: bool, sendACM: bool, defaultFragment: Text)

  /** How starting a play goes: no such file, refused by the library, or started. */
  datatype PlayResult = OpenFails | PlayFails | PlayStarts

  /** Events of a line.  `GcOther` are those that are only logged. */
  datatype GcEvent =
    | GcUnblocked(handle: Option<int>)
    | GcOffered(dest: Option<Text>, orig: Option<Text>, params: seq<Param>)
    | GcCallProc | GcAccept | GcAnswered(play: PlayResult) | GcConnected | GcDisconnected
    | GcDropCall(voiceBusy: bool) | GcReleaseCall | GcResetLineDev | GcTaskFail | GcOther

  /** Events of a voice device. */
  datatype VoiceEvent = PlayDone(mask: int32) | VoiceOther

  /** Calls into the library and messages to the service logic. */
  datatype Action =
    | WaitCall | ResetLine | CloseLine | StopVoice
    | CallAck(crn: int) | AcceptCall(crn: int) | AnswerCall(crn: int)
    | HangUp(crn: int, reason: DropReason) | ReleaseCall(crn: int)
    | PlayData(fragment: Text, started: bool)
    | Notify(session: uint32, event: Event)

  datatype State = State(
    channels: seq<Channel>, sessions: Sessions.State, interrupted: bool,
    stUnblocked: int, stUsed: int, stCallCnt: int, aborted: bool, logs: seq<seq<Action>>)

  ghost predicate Valid(s: State) {
    && |s.logs| == |s.channels|
    && (forall c :: 0 <= c < |s.channels| ==> |s.channels[c].calls| >= 1)
    && (forall c :: c in s.sessions.channel2session ==> 0 <= c < |s.channels|)
    && (forall k: uint32 :: k in s.sessions.session2channel ==>
       s.sessions.session2channel[k] in s.sessions.channel2session)
  }

  function InitChannel(maxCalls: nat): Channel {
    Channel(0, PNull, false, seq(maxCalls, i => NO_CALL), [], [], [], 0, true, false)
  }

  function Init(channelCount: nat, maxCalls: nat): (s: State)
    ensures maxCalls >= 1 ==> Valid(s)
  {
    State(seq(channelCount, i => InitChannel(maxCalls)), Sessions.NO_SESSIONS, false, 0, 0, 0, false,
          seq(channelCount, i => []))
  }

  // ---- the table of calls -----------------------------------------------------------

  /** A new call goes to place 0; the others move on and the last one is forgotten. */
  function RegNewCall(calls: seq<CallInfo>, crn: int, sstate: SState): seq<CallInfo>
    requires |calls| >= 1
  {
    [CallInfo(crn, sstate)] + calls[..|calls| - 1]
  }

  /** The first place that holds the number; None stands for -1. */
  function GetCallNdx(calls: seq<CallInfo>, crn: int): (r: Option<nat>)
    ensures r.Some? ==> r.value < |calls| && calls[r.value].crn == crn
                        && forall i :: 0 <= i < r.value ==> calls[i].crn != crn
    ensures r.None? ==> forall i :: 0 <= i < |calls| ==> calls[i].crn != crn
  {
    if calls == [] then None
    else if calls[0].crn == crn then Some(0)
    else
      var r := GetCallNdx(calls[1..], crn);
      if r.None? then None else Some(r.value + 1)
  }

  /** The first channel with the voice handle; None stands for -1. */
  function GetIndexByVoice(channels: seq<Channel>, dev: int): (r: Option<nat>)
    ensures r.Some? ==> r.value < |channels| && channels[r.value].hdVoice == dev
                        && forall i :: 0 <= i < r.value ==> channels[i].hdVoice != dev
    ensures r.None? ==> forall i :: 0 <= i < |channels| ==> channels[i].hdVoice != dev
  {
    if channels == [] then None
    else if channels[0].hdVoice == dev then Some(0)
    else
      var r := GetIndexByVoice(channels[1..], dev);
      if r.None? then None else Some(r.value + 1)
  }

  /** The table with the state of one call changed, if the call is in it. */
  function WithSState(ch: Channel, crn: int, sstate: SState): Channel {
    var ndx := GetCallNdx(ch.calls, crn);
    if ndx.None? then ch else ch.(calls := ch.calls[ndx.value := CallInfo(crn, sstate)])
  }

  // ---- small changes of the state ---------------------------------------------------------

  /** `c` is a channel of the server. */
  predicate Has(s: State, c: nat) {
    c < |s.channels| == |s.logs| && |s.channels[c].calls| >= 1
  }

  function Put(s: State, c: nat, ch: Channel): State
    requires c < |s.channels|
  {
    s.(channels := s.channels[c := ch])
  }

  function Do(s: State, c: nat, a: Action): State
    requires c < |s.logs|
  {
    s.(logs := s.logs[c := s.logs[c] + [a]])
  }

  /** Whether the library was made to play, and the state after trying. */
  function PlayFragment(s: State, c: nat, fragment: Text, result: PlayResult): (State, bool)
    requires Has(s, c)
  {
    match result
    case OpenFails => (s, false)
    case PlayFails => (Do(s, c, PlayData(fragment, false)), false)
    case PlayStarts =>
      (Do(Put(s, c, s.channels[c].(pstate := PPlay, playing := true)), c, PlayData(fragment, true)), true)
  }

  function InitDisconnect(s: State, c: nat, reason: DropReason): State
    requires Has(s, c)
  {
    Do(Put(s, c, s.channels[c].(pstate := PReleasing)), c, HangUp(s.channels[c].calls[0].crn, reason))
  }

  /** A message to the service logic; the assert on the session ends the program. */
  function NotifyScp(s: State, c: nat, e: Event): State
    requires Has(s, c)
  {
    var session := Sessions.SessionOf(s.sessions, c);
    if session == Sessions.UNKNOWN_SESSION then s.(aborted := true) else Do(s, c, Notify(session, e))
  }

  // ---- events of a line ------------------------------------------------------------------------

  function OnUnblocked(s: State, c: nat, handle: Option<int>): State
    requires Has(s, c)
  {
    var ch := s.channels[c].(blocked := false);
    var s1 :=
      if handle.Some? then Put(s, c, ch.(vReady := true, hdVoice := handle.value)).(stUnblocked := s.stUnblocked + 1)
      else Put(s, c, ch);
    if s1.channels[c].vReady then Do(s1, c, WaitCall) else s1
  }

  /** The record of a channel once an offered call is written into it. */
  function OfferedChannel(ch: Channel, crn: int, dest: Option<Text>, orig: Option<Text>, r: Redirection): Channel
    requires |ch.calls| >= 1
  {
    ch.(pstate := PIdle,
        calls := RegNewCall(ch.calls, crn, SOffered),
        cdpn := if dest.Some? then dest.value else [],
        cgpn := if orig.Some? then orig.value else [],
        rdpn := if r.found then r.rdpn else [],
        reasonCode := if r.found then r.code else 0)
  }

  function OnOffered(
      cfg: Config, s: State, c: nat, crn: int, dest: Option<Text>, orig: Option<Text>, params: seq<Param>): State
    requires Has(s, c)
  {
    var r := Redirect(params, []);
    var ch := OfferedChannel(s.channels[c], crn, dest, orig, r);
    var s1 := Put(s, c, ch).(stUsed := s.stUsed + 1, stCallCnt := s.stCallCnt + 1);
    if cfg.mode == Ssp then
      var session := s.sessions.lastSession;
      Do(s1.(sessions := Sessions.Create(s.sessions, c)), c,
         Notify(session, EvOffered(Offered(ch.cgpn, ch.cdpn, ch.rdpn, r.code))))
    else if cfg.sendCallAck then Do(s1, c, CallAck(crn))
    else Do(s1, c, AcceptOrAnswer(cfg, crn))
  }

  function AcceptOrAnswer(cfg: Config, crn: int): Action {
    if cfg.sendACM then AcceptCall(crn) else AnswerCall(crn)
  }

  function OnAccept(s: State, c: nat, crn: int): State
    requires Has(s, c)
  {
    Do(Put(s, c, WithSState(s.channels[c], crn, SAccepted)), c, AnswerCall(crn))
  }

  function OnAnswered(cfg: Config, s: State, c: nat, crn: int, play: PlayResult): State
    requires Has(s, c)
  {
    if GetCallNdx(s.channels[c].calls, crn).None? then Do(s, c, HangUp(crn, NormalClearing))
    else
      var s1 := Put(s, c, WithSState(s.channels[c], crn, SConnected));
      match cfg.mode
      case Autoresponder =>
        var (s2, started) := PlayFragment(s1, c, cfg.defaultFragment, play);
        if started then s2 else Do(s2, c, HangUp(crn, NormalClearing))
      case Ssp => NotifyScp(s1, c, EvAnswered)
      case Unsupported => Do(s1, c, HangUp(crn, NormalClearing))
  }

  function OnConnected(s: State, c: nat, crn: int): State
    requires Has(s, c)
  {
    Do(Put(s, c, WithSState(s.channels[c], crn, SConnected)), c, HangUp(crn, NormalClearing))
  }

  function OnDisconnected(s: State, c: nat, crn: int): State
    requires Has(s, c)
  {
    var ch := s.channels[c].(pstate := PReleasing);
    var ndx := GetCallNdx(ch.calls, crn);
    if ndx.Some? && ch.calls[ndx.value].sstate == SDisconnected then Put(s, c, ch)
    else Do(Put(s, c, WithSState(ch, crn, SDisconnected)), c, HangUp(crn, NormalClearing))
  }

  function OnDropCall(s: State, c: nat, crn: int, voiceBusy: bool): State
    requires Has(s, c)
  {
    var s1 := if voiceBusy then Do(s, c, StopVoice) else s;
    Do(Put(s1, c, WithSState(s.channels[c], crn, SIdle)), c, ReleaseCall(crn))
  }

  /** The table with a released call taken out of it, if it was idle. */
  function Released(calls: seq<CallInfo>, crn: int): seq<CallInfo> {
    var ndx := GetCallNdx(calls, crn);
    if ndx.Some? && calls[ndx.value].sstate == SIdle then calls[ndx.value := NO_CALL] else calls
  }

  function OnReleaseCall(s: State, c: nat, crn: int): State
    requires Has(s, c)
  {
    var ch := s.channels[c];
    Put(s, c, ch.(pstate := if ch.pstate == PReleasing then PIdle else ch.pstate, calls := Released(ch.calls, crn)))
    .(stUsed := s.stUsed - 1)
  }

  function OnResetLineDev(s: State, c: nat): State
    requires Has(s, c)
  {
    var ch := s.channels[c];
    Do(Put(s, c, ch.(calls := seq(|ch.calls|, i => NO_CALL))), c, WaitCall)
  }

  function OnLine(cfg: Config, s: State, c: nat, crn: int, ev: GcEvent): State
    requires Has(s, c)
  {
    match ev
    case GcUnblocked(handle) => OnUnblocked(s, c, handle)
    case GcOffered(dest, orig, params) => OnOffered(cfg, s, c, crn, dest, orig, params)
    case GcCallProc => Do(s, c, AcceptOrAnswer(cfg, crn))
    case GcAccept => OnAccept(s, c, crn)
    case GcAnswered(play) => OnAnswered(cfg, s, c, crn, play)
    case GcConnected => OnConnected(s, c, crn)
    case GcDisconnected => OnDisconnected(s, c, crn)
    case GcDropCall(voiceBusy) => OnDropCall(s, c, crn, voiceBusy)
    case GcReleaseCall => OnReleaseCall(s, c, crn)
    case GcResetLineDev => OnResetLineDev(s, c)
    case GcTaskFail => Do(Put(s, c, s.channels[c].(blocked := false)), c, ResetLine)
    case GcOther => s
  }

  // ---- events of a voice device, commands ------------------------------------------------------

  function OnVoice(cfg: Config, s: State, c: nat, ev: VoiceEvent): State
    requires Has(s, c)
  {
    match ev
    case VoiceOther => s
    case PlayDone(mask) =>
      match cfg.mode
      case Autoresponder => InitDisconnect(s, c, NormalClearing)
      case Ssp => NotifyScp(s, c, EvPlayFinished(mask))
      case Unsupported => s
  }

  function OnCommand(cfg: Config, s: State, c: nat, cmd: Command, play: PlayResult): State
    requires Has(s, c)
  {
    match cmd
    case Answer => Do(s, c, AcceptOrAnswer(cfg, s.channels[c].calls[0].crn))
    case Play(fragment) => PlayFragment(s, c, fragment, play).0
    case Drop(reason) => InitDisconnect(s, c, ToDialogic(reason))
  }

  // ---- how far a change reaches ----------------------------------------------------------------------

  /** A change that stays within one channel's record, its sessions and its log. */
  ghost predicate Touches(s: State, s': State, c: nat)
    requires Has(s, c)
  {
    && |s'.channels| == |s'.logs| == |s.channels|
    && (forall d: nat :: d < |s.channels| && d != c ==> s'.channels[d] == s.channels[d] && s'.logs[d] == s.logs[d])
    && |s'.channels[c].calls| == |s.channels[c].calls|
    && (s'.sessions == s.sessions || s'.sessions == Sessions.Create(s.sessions, c))
    && s'.interrupted == s.interrupted
  }

  lemma TouchesKeepsValid(s: State, s': State, c: nat)
    requires Valid(s) && c < |s.channels| && Touches(s, s', c)
    ensures Valid(s')
  {
  }

  // ---- shutdown -----------------------------------------------------------------------------------

  /** A channel that is calling or playing is told to hang up and awaits its release. */
  function Deinited(ch: Channel): Channel {
    if ch.pstate == PCalling || ch.pstate == PPlay then ch.(pstate := PReleasing) else ch
  }

  function DeinitActions(ch: Channel): seq<Action>
    requires |ch.calls| >= 1
  {
    var hangUp := HangUp(ch.calls[0].crn, NormalClearing);
    match ch.pstate
    case PCalling => [hangUp]
    case PPlay => [StopVoice, hangUp]
    case _ => []
  }

  /** What Deinit does: to each channel on its own, and to all of them. */
  function Deinit(s: State): State
    requires |s.logs| == |s.channels| && forall c :: 0 <= c < |s.channels| ==> |s.channels[c].calls| >= 1
  {
    s.(channels := seq(|s.channels|, c requires 0 <= c < |s.channels| => Deinited(s.channels[c])),
       logs := seq(|s.channels|, c requires 0 <= c < |s.channels| => s.logs[c] + DeinitActions(s.channels[c])))
  }

  /** A channel that has nothing to wait for is closed. */
  function Closed(ch: Channel): Channel {
    if ch.pstate == PNull || ch.pstate == PIdle then ch.(pstate := PShutdown) else ch
  }

  function CloseActions(ch: Channel): seq<Action> {
    if ch.pstate == PNull || ch.pstate == PIdle then [CloseLine] else []
  }

  /** What checkAppExitCondition does once a shutdown was requested. */
  function Close(s: State): State
    requires |s.logs| == |s.channels|
  {
    s.(channels := seq(|s.channels|, c requires 0 <= c < |s.channels| => Closed(s.channels[c])),
       logs := seq(|s.channels|, c requires 0 <= c < |s.channels| => s.logs[c] + CloseActions(s.channels[c])))
  }

  /** What checkAppExitCondition returns when it leaves the state `s`. */
  ghost predicate AllShutdown(s: State) {
    forall c :: 0 <= c < |s.channels| ==> s.channels[c].pstate == PShutdown
  }

  // ---- whole steps -----------------------------------------------------------------------------------

  datatype Step =
    | LineStep(index: nat, crn: int, line: GcEvent)
    | VoiceStep(dev: int, voice: VoiceEvent)
    | PacketStep(session: uint32, data: seq<byte>, play: PlayResult)
    | InterruptStep
    | PollStep

  /** A step whose channel has been found. */
  datatype Direct =
    | OnTheLine(c: nat, crn: int, line: GcEvent)
    | OnTheVoice(c: nat, voice: VoiceEvent)
    | OnTheCommand(c: nat, cmd: Command, play: PlayResult)
    | Interrupted
    | Polled
    | Thrown      // no factory for the command: the exception ends the program

  /** What the source relies on: line indices of its own channels, commands with their fields. */
  predicate Takeable(channelCount: nat, step: Step) {
    match step
    case LineStep(index, _, _) => index < channelCount
    case PacketStep(_, data, _) => data == [] || Readable(data)
    case _ => true
  }

  /** None: the step finds no channel and nothing but logging happens. */
  function Resolve(s: State, step: Step): Option<Direct>
    requires Takeable(|s.channels|, step)
  {
    match step
    case LineStep(index, crn, ev) => Some(OnTheLine(index, crn, ev))
    case VoiceStep(dev, ev) =>
      var c := GetIndexByVoice(s.channels, dev);
      if c.None? then None else Some(OnTheVoice(c.value, ev))
    case PacketStep(session, data, play) =>
      var c := Sessions.ChannelOf(s.sessions, session);
      if c < 0 || data == [] then None
      else if ParseCommand(data).None? then Some(Thrown)
      else Some(OnTheCommand(c, ParseCommand(data).value, play))
    case InterruptStep => Some(Interrupted)
    case PollStep => Some(Polled)
  }

  predicate Applicable(channelCount: nat, d: Direct) {
    d.OnTheLine? || d.OnTheVoice? || d.OnTheCommand? ==> d.c < channelCount
  }

  ghost function Apply(cfg: Config, s: State, d: Direct): (s': State)
    requires Valid(s) && Applicable(|s.channels|, d)
    ensures |s'.channels| == |s.channels|
  {
    if s.aborted then s
    else
      match d
      case OnTheLine(c, crn, ev) => OnLine(cfg, s, c, crn, ev)
      case OnTheVoice(c, ev) => OnVoice(cfg, s, c, ev)
      case OnTheCommand(c, cmd, play) => OnCommand(cfg, s, c, cmd, play)
      case Interrupted => Deinit(s).(interrupted := true)
      case Polled => if s.interrupted then Close(s) else s
      case Thrown => s.(aborted := true)
  }

  lemma ResolvedIsApplicable(s: State, step: Step)
    requires Valid(s) && Takeable(|s.channels|, step)
    ensures Resolve(s, step).Some? ==> Applicable(|s.channels|, Resolve(s, step).value)
  {
  }

  lemma OfferedTouches(
      cfg: Config, s: State, c: nat, crn: int, dest: Option<Text>, orig: Option<Text>, params: seq<Param>)
    requires Has(s, c)
    ensures var s' := OnOffered(cfg, s, c, crn, dest, orig, params);
            && Touches(s, s', c)
            && s'.sessions == (if cfg.mode == Ssp then Sessions.Create(s.sessions, c) else s.sessions)
            && s'.channels[c] == OfferedChannel(s.channels[c], crn, dest, orig, Redirect(params, []))
  {
  }

  lemma PlayTouches(s: State, c: nat, fragment: Text, play: PlayResult)
    requires Has(s, c)
    ensures var s' := PlayFragment(s, c, fragment, play).0;
            Touches(s, s', c) && s'.sessions == s.sessions
  {
  }

  lemma AnsweredTouches(cfg: Config, s: State, c: nat, crn: int, play: PlayResult)
    requires Has(s, c)
    ensures Touches(s, OnAnswered(cfg, s, c, crn, play), c)
    ensures OnAnswered(cfg, s, c, crn, play).sessions == s.sessions
  {
    if GetCallNdx(s.channels[c].calls, crn).Some? {
      PlayTouches(Put(s, c, WithSState(s.channels[c], crn, SConnected)), c, cfg.defaultFragment, play);
    }
  }

  /** The events that end a call. */
  lemma EndTouches(s: State, c: nat, crn: int, voiceBusy: bool)
    requires Has(s, c)
    ensures Touches(s, OnDisconnected(s, c, crn), c) && OnDisconnected(s, c, crn).sessions == s.sessions
    ensures Touches(s, OnDropCall(s, c, crn, voiceBusy), c) && OnDropCall(s, c, crn, voiceBusy).sessions == s.sessions
    ensures Touches(s, OnReleaseCall(s, c, crn), c) && OnReleaseCall(s, c, crn).sessions == s.sessions
  {
  }

  /** The events that bring a call on its way, and those that are about the line. */
  lemma OtherTouches(cfg: Config, s: State, c: nat, crn: int, ev: GcEvent)
    requires Has(s, c) && !ev.GcOffered? && !ev.GcAnswered?
    requires !ev.GcDisconnected? && !ev.GcDropCall? && !ev.GcReleaseCall?
    ensures Touches(s, OnLine(cfg, s, c, crn, ev), c) && OnLine(cfg, s, c, crn, ev).sessions == s.sessions
  {
  }

  lemma LineTouches(cfg: Config, s: State, c: nat, crn: int, ev: GcEvent)
    requires Has(s, c)
    ensures Touches(s, OnLine(cfg, s, c, crn, ev), c)
    ensures OnLine(cfg, s, c, crn, ev).sessions
            == if ev.GcOffered? && cfg.mode == Ssp then Sessions.Create(s.sessions, c) else s.sessions
  {
    if ev.GcOffered? {
      OfferedTouches(cfg, s, c, crn, ev.dest, ev.orig, ev.params);
    } else if ev.GcAnswered? {
      AnsweredTouches(cfg, s, c, crn, ev.play);
    } else if ev.GcDisconnected? || ev.GcDropCall? || ev.GcReleaseCall? {
      EndTouches(s, c, crn, ev.GcDropCall? && ev.voiceBusy);
    } else {
      OtherTouches(cfg, s, c, crn, ev);
    }
  }

  /** What one event of the line does to the table. */
  function TableAfter(ch: Channel, crn: int, ev: GcEvent): seq<CallInfo>
    requires |ch.calls| >= 1
  {
    match ev
    case GcOffered(_, _, _) => RegNewCall(ch.calls, crn, SOffered)
    case GcAccept => WithSState(ch, crn, SAccepted).calls
    case GcAnswered(_) => WithSState(ch, crn, SConnected).calls
    case GcConnected => WithSState(ch, crn, SConnected).calls
    case GcDisconnected => WithSState(ch, crn, SDisconnected).calls
    case GcDropCall(_) => WithSState(ch, crn, SIdle).calls
    case GcReleaseCall => Released(ch.calls, crn)
    case GcResetLineDev => seq(|ch.calls|, i => NO_CALL)
    case _ => ch.calls
  }

  lemma AnsweredTable(cfg: Config, s: State, c: nat, crn: int, play: PlayResult)
    requires Has(s, c)
    ensures |OnAnswered(cfg, s, c, crn, play).channels| == |s.channels|
    ensures OnAnswered(cfg, s, c, crn, play).channels[c].calls == WithSState(s.channels[c], crn, SConnected).calls
  {
  }

  lemma LineTable(cfg: Config, s: State, c: nat, crn: int, ev: GcEvent)
    requires Has(s, c)
    ensures |OnLine(cfg, s, c, crn, ev).channels| == |s.channels|
    ensures OnLine(cfg, s, c, crn, ev).channels[c].calls == TableAfter(s.channels[c], crn, ev)
  {
    match ev
    case GcOffered(dest, orig, params) => OfferedTouches(cfg, s, c, crn, dest, orig, params);
    case GcAnswered(play) => AnsweredTable(cfg, s, c, crn, play);
    case _ =>
  }

  lemma VoiceTouches(cfg: Config, s: State, c: nat, ev: VoiceEvent)
    requires Has(s, c)
    ensures Touches(s, OnVoice(cfg, s, c, ev), c) && OnVoice(cfg, s, c, ev).sessions == s.sessions
  {
  }

  lemma CommandTouches(cfg: Config, s: State, c: nat, cmd: Command, play: PlayResult)
    requires Has(s, c)
    ensures Touches(s, OnCommand(cfg, s, c, cmd, play), c) && OnCommand(cfg, s, c, cmd, play).sessions == s.sessions
    ensures OnCommand(cfg, s, c, cmd, play).aborted == s.aborted
  {
  }

  lemma ApplyKeepsValid(cfg: Config, s: State, d: Direct)
    requires Valid(s) && Applicable(|s.channels|, d)
    ensures Valid(Apply(cfg, s, d))
  {
    if !s.aborted {
      match d
      case OnTheLine(c, crn, ev) =>
        LineTouches(cfg, s, c, crn, ev);
        TouchesKeepsValid(s, Apply(cfg, s, d), c);
      case OnTheVoice(c, ev) =>
        VoiceTouches(cfg, s, c, ev);
        TouchesKeepsValid(s, Apply(cfg, s, d), c);
      case OnTheCommand(c, cmd, play) =>
        CommandTouches(cfg, s, c, cmd, play);
        TouchesKeepsValid(s, Apply(cfg, s, d), c);
      case Interrupted =>
      case Polled =>
      case Thrown =>
    }
  }

  ghost function Next(cfg: Config, s: State, step: Step): (s': State)
    requires Valid(s) && Takeable(|s.channels|, step)
    ensures Valid(s') && |s'.channels| == |s.channels|
  {
    var d := Resolve(s, step);
    if s.aborted || d.None? then s
    else
      ApplyKeepsValid(cfg, s, d.value);
      Apply(cfg, s, d.value)
  }

  ghost predicate AllTakeable(channelCount: nat, steps: seq<Step>) {
    forall step :: step in steps ==> Takeable(channelCount, step)
  }

  ghost function Run(cfg: Config, s: State, steps: seq<Step>): (s': State)
    requires Valid(s) && AllTakeable(|s.channels|, steps)
    ensures Valid(s') && |s'.channels| == |s.channels|
    decreases |steps|
  {
    if steps == [] then s
    else
      var n := |steps| - 1;
      assert steps[n] in steps && forall step :: step in steps[..n] ==> step in steps;
      Next(cfg, Run(cfg, s, steps[..n]), steps[n])
  }
}

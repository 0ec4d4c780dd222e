/**
 The books of the call server: what it has asked the library for, counted against
 what happened, over every run; and its counters.
 */
module CallLedger {
  import opened Bytes
  import opened Wire
  import opened CallSpec
  import CallSessions
  import Diversion
  import Sessions

  // ---- counting ------------------------------------------------------------------------

  datatype Sort = AWait | AReset | AReleaseOf(crn: int) | AHangUpOf(crn: int)

  predicate Is(a: Action, k: Sort) {
    match k
    case AWait => a.WaitCall?
    case AReset => a.ResetLine?
    case AReleaseOf(crn) => a.ReleaseCall? && a.crn == crn
    case AHangUpOf(crn) => a.HangUp? && a.crn == crn
  }

  /** How many of the actions are of a sort. */
  function Times(log: seq<Action>, k: Sort): nat {
    if log == [] then 0 else Times(log[..|log| - 1], k) + (if Is(log[|log| - 1], k) then 1 else 0)
  }

  lemma TimesSnoc(log: seq<Action>, a: Action, k: Sort)
    ensures Times(log + [a], k) == Times(log, k) + (if Is(a, k) then 1 else 0)
  {
    assert (log + [a])[..|log|] == log;
  }

  // ---- what a step has done on a channel ------------------------------------------------

  /** Of the sorts that have their books kept here, an event of the line brings as many. */
  function Gain(vReady: bool, crn: int, ev: GcEvent, k: Sort): nat {
    match k
    case AWait => if ev.GcResetLineDev? || (ev.GcUnblocked? && (ev.handle.Some? || vReady)) then 1 else 0
    case AReset => if ev.GcTaskFail? then 1 else 0
    case AReleaseOf(n) => if ev.GcDropCall? && n == crn then 1 else 0
    case AHangUpOf(_) => 0
  }

  lemma OfferedTimes(
      cfg: Config, s: State, c: nat, crn: int, dest: Option<Text>, orig: Option<Text>, params: seq<Diversion.Param>,
      k: Sort)
    requires Has(s, c)
    ensures var s' := OnOffered(cfg, s, c, crn, dest, orig, params);
            |s'.logs| == |s.logs| && Times(s'.logs[c], k) == Times(s.logs[c], k)
  {
    var log, s' := s.logs[c], OnOffered(cfg, s, c, crn, dest, orig, params);
    var a := s'.logs[c][|log|];
    assert s'.logs[c] == log + [a];
    TimesSnoc(log, a, k);
  }

  lemma PlayTimes(s: State, c: nat, fragment: Text, play: PlayResult, k: Sort)
    requires Has(s, c)
    ensures var s' := PlayFragment(s, c, fragment, play).0;
            |s'.logs| == |s.logs| && Times(s'.logs[c], k) == Times(s.logs[c], k)
  {
    TimesSnoc(s.logs[c], PlayData(fragment, false), k);
    TimesSnoc(s.logs[c], PlayData(fragment, true), k);
  }

  lemma NotifyTimes(s: State, c: nat, e: Event, k: Sort)
    requires Has(s, c)
    ensures var s' := NotifyScp(s, c, e);
            |s'.logs| == |s.logs| && Times(s'.logs[c], k) == Times(s.logs[c], k)
  {
    TimesSnoc(s.logs[c], Notify(Sessions.SessionOf(s.sessions, c), e), k);
  }

  lemma AnsweredTimes(cfg: Config, s: State, c: nat, crn: int, play: PlayResult, k: Sort)
    requires Has(s, c)
    ensures var s' := OnAnswered(cfg, s, c, crn, play);
            && |s'.logs| == |s.logs| && Times(s'.logs[c], k) >= Times(s.logs[c], k)
            && (!k.AHangUpOf? ==> Times(s'.logs[c], k) == Times(s.logs[c], k))
  {
    var s1 := Put(s, c, WithSState(s.channels[c], crn, SConnected));
    var hangUp := HangUp(crn, Diversion.NormalClearing);
    TimesSnoc(s.logs[c], hangUp, k);
    if GetCallNdx(s.channels[c].calls, crn).Some? {
      if cfg.mode == Ssp {
        NotifyTimes(s1, c, EvAnswered, k);
      } else if cfg.mode == Autoresponder {
        PlayTimes(s1, c, cfg.defaultFragment, play, k);
        TimesSnoc(PlayFragment(s1, c, cfg.defaultFragment, play).0.logs[c], hangUp, k);
      }
    }
  }

  /** A disconnected call is hung up, unless it was reported disconnected before and is not yet dropped. */
  lemma DisconnectedTimes(s: State, c: nat, crn: int, k: Sort)
    requires Has(s, c)
    ensures var s', ndx := OnDisconnected(s, c, crn), GetCallNdx(s.channels[c].calls, crn);
            && |s'.logs| == |s.logs| && |s'.channels| == |s.channels| && s'.channels[c].pstate == PReleasing
            && Times(s'.logs[c], k) == Times(s.logs[c], k)
               + (if k == AHangUpOf(crn) && !(ndx.Some? && s.channels[c].calls[ndx.value].sstate == SDisconnected)
                  then 1 else 0)
  {
    TimesSnoc(s.logs[c], HangUp(crn, Diversion.NormalClearing), k);
  }

  lemma DropCallTimes(s: State, c: nat, crn: int, voiceBusy: bool, k: Sort)
    requires Has(s, c)
    ensures var s' := OnDropCall(s, c, crn, voiceBusy);
            && |s'.logs| == |s.logs|
            && Times(s'.logs[c], k) == Times(s.logs[c], k) + (if k == AReleaseOf(crn) then 1 else 0)
  {
    TimesSnoc(s.logs[c], StopVoice, k);
    TimesSnoc(s.logs[c], ReleaseCall(crn), k);
    TimesSnoc(s.logs[c] + [StopVoice], ReleaseCall(crn), k);
  }

  /** The other events of a line. */
  lemma OtherTimes(cfg: Config, s: State, c: nat, crn: int, ev: GcEvent, k: Sort)
    requires Has(s, c) && !ev.GcOffered? && !ev.GcAnswered? && !ev.GcDisconnected? && !ev.GcDropCall?
    ensures var s' := OnLine(cfg, s, c, crn, ev);
            && |s'.logs| == |s.logs| && Times(s'.logs[c], k) >= Times(s.logs[c], k)
            && (!k.AHangUpOf? ==> Times(s'.logs[c], k) == Times(s.logs[c], k) + Gain(s.channels[c].vReady, crn, ev, k))
  {
    var log := s.logs[c];
    match ev
    case GcUnblocked(_) => TimesSnoc(log, WaitCall, k);
    case GcCallProc => TimesSnoc(log, AcceptOrAnswer(cfg, crn), k);
    case GcAccept => TimesSnoc(log, AnswerCall(crn), k);
    case GcConnected => TimesSnoc(log, HangUp(crn, Diversion.NormalClearing), k);
    case GcReleaseCall =>
    case GcResetLineDev => TimesSnoc(log, WaitCall, k);
    case GcTaskFail => TimesSnoc(log, ResetLine, k);
    case GcOther =>
  }

  lemma LineTimes(cfg: Config, s: State, c: nat, crn: int, ev: GcEvent, k: Sort)
    requires Has(s, c)
    ensures var s' := OnLine(cfg, s, c, crn, ev);
            && |s'.logs| == |s.logs| && Times(s'.logs[c], k) >= Times(s.logs[c], k)
            && (!k.AHangUpOf? ==> Times(s'.logs[c], k) == Times(s.logs[c], k) + Gain(s.channels[c].vReady, crn, ev, k))
  {
    if ev.GcOffered? {
      OfferedTimes(cfg, s, c, crn, ev.dest, ev.orig, ev.params, k);
    } else if ev.GcAnswered? {
      AnsweredTimes(cfg, s, c, crn, ev.play, k);
    } else if ev.GcDisconnected? {
      DisconnectedTimes(s, c, crn, k);
    } else if ev.GcDropCall? {
      DropCallTimes(s, c, crn, ev.voiceBusy, k);
    } else {
      OtherTimes(cfg, s, c, crn, ev, k);
    }
  }

  lemma InitDisconnectTimes(s: State, c: nat, reason: Diversion.DropReason, k: Sort)
    requires Has(s, c)
    ensures var s' := InitDisconnect(s, c, reason);
            && |s'.logs| == |s.logs|
            && Times(s'.logs[c], k)
               == Times(s.logs[c], k) + (if k == AHangUpOf(s.channels[c].calls[0].crn) then 1 else 0)
  {
    TimesSnoc(s.logs[c], HangUp(s.channels[c].calls[0].crn, reason), k);
  }

  lemma VoiceTimes(cfg: Config, s: State, c: nat, ev: VoiceEvent, k: Sort)
    requires Has(s, c)
    ensures var s' := OnVoice(cfg, s, c, ev);
            && |s'.logs| == |s.logs| && Times(s'.logs[c], k) >= Times(s.logs[c], k)
            && (!k.AHangUpOf? ==> Times(s'.logs[c], k) == Times(s.logs[c], k))
  {
    if ev.PlayDone? {
      InitDisconnectTimes(s, c, Diversion.NormalClearing, k);
      NotifyTimes(s, c, EvPlayFinished(ev.mask), k);
    }
  }

  lemma CommandTimes(cfg: Config, s: State, c: nat, cmd: Command, play: PlayResult, k: Sort)
    requires Has(s, c)
    ensures var s' := OnCommand(cfg, s, c, cmd, play);
            && |s'.logs| == |s.logs| && Times(s'.logs[c], k) >= Times(s.logs[c], k)
            && (!k.AHangUpOf? ==> Times(s'.logs[c], k) == Times(s.logs[c], k))
  {
    match cmd
    case Answer => TimesSnoc(s.logs[c], AcceptOrAnswer(cfg, s.channels[c].calls[0].crn), k);
    case Play(fragment) => PlayTimes(s, c, fragment, play, k);
    case Drop(reason) => InitDisconnectTimes(s, c, Diversion.ToDialogic(reason), k);
  }

  /** Deinit hangs up what calls or plays, once and with the normal reason, and asks for nothing else that is booked. */
  lemma DeinitTimes(s: State, c: nat, k: Sort)
    requires Valid(s) && c < |s.channels|
    ensures var ch := s.channels[c];
            Times(Deinit(s).logs[c], k) == Times(s.logs[c], k)
              + (if (ch.pstate == PCalling || ch.pstate == PPlay) && k == AHangUpOf(ch.calls[0].crn) then 1 else 0)
  {
    var log, hangUp := s.logs[c], HangUp(s.channels[c].calls[0].crn, Diversion.NormalClearing);
    if s.channels[c].pstate == PCalling {
      TimesSnoc(log, hangUp, k);
    } else if s.channels[c].pstate == PPlay {
      TimesSnoc(log, StopVoice, k);
      TimesSnoc(log + [StopVoice], hangUp, k);
      assert log + [StopVoice, hangUp] == (log + [StopVoice]) + [hangUp];
    } else {
      assert log + [] == log;
    }
  }

  lemma CloseTimes(s: State, c: nat, k: Sort)
    requires Valid(s) && c < |s.channels|
    ensures Times(Close(s).logs[c], k) == Times(s.logs[c], k)
  {
    TimesSnoc(s.logs[c], CloseLine, k);
    assert s.logs[c] + [] == s.logs[c];
  }

  /** What a step of any kind brings channel `c`. */
  function StepGain(vReady: bool, step: Step, c: nat, k: Sort): nat {
    if step.LineStep? && step.index == c then Gain(vReady, step.crn, step.line, k) else 0
  }

  lemma NextTimes(cfg: Config, s: State, step: Step, c: nat, k: Sort)
    requires Valid(s) && !s.aborted && Takeable(|s.channels|, step) && c < |s.channels|
    ensures var s' := Next(cfg, s, step);
            && Times(s'.logs[c], k) >= Times(s.logs[c], k)
            && (!k.AHangUpOf? ==>
                  Times(s'.logs[c], k) == Times(s.logs[c], k) + StepGain(s.channels[c].vReady, step, c, k))
  {
    ResolvedIsApplicable(s, step);
    if Resolve(s, step).Some? {
      match Resolve(s, step).value
      case OnTheLine(e, crn, ev) =>
        LineTouches(cfg, s, e, crn, ev);
        LineTimes(cfg, s, e, crn, ev, k);
      case OnTheVoice(e, ev) =>
        VoiceTouches(cfg, s, e, ev);
        VoiceTimes(cfg, s, e, ev, k);
      case OnTheCommand(e, cmd, play) =>
        CommandTouches(cfg, s, e, cmd, play);
        CommandTimes(cfg, s, e, cmd, play, k);
      case Interrupted => DeinitTimes(s, c, k);
      case Polled => CloseTimes(s, c, k);
      case Thrown =>
    }
  }

  // ---- flags and counters ------------------------------------------------------------------

  /** The channel is given its voice device. */
  predicate GivesVoice(step: Step, c: nat) {
    step.LineStep? && step.index == c && step.line.GcUnblocked? && step.line.handle.Some?
  }

  predicate Unblocks(step: Step, c: nat) {
    step.LineStep? && step.index == c && (step.line.GcUnblocked? || step.line.GcTaskFail?)
  }

  lemma PlayKeeps(s: State, c: nat, fragment: Text, play: PlayResult)
    requires Has(s, c)
    ensures var s' := PlayFragment(s, c, fragment, play).0;
            && |s'.channels| == |s.channels| && |s'.logs| == |s.logs|
            && s'.channels[c].vReady == s.channels[c].vReady && s'.channels[c].blocked == s.channels[c].blocked
            && s'.stUsed == s.stUsed && s'.stCallCnt == s.stCallCnt && s'.stUnblocked == s.stUnblocked
  {
  }

  lemma AnsweredFlags(cfg: Config, s: State, c: nat, crn: int, play: PlayResult)
    requires Has(s, c)
    ensures var s' := OnAnswered(cfg, s, c, crn, play);
            && |s'.channels| == |s.channels|
            && s'.channels[c].vReady == s.channels[c].vReady && s'.channels[c].blocked == s.channels[c].blocked
            && s'.stUsed == s.stUsed && s'.stCallCnt == s.stCallCnt && s'.stUnblocked == s.stUnblocked
  {
    var s1 := Put(s, c, WithSState(s.channels[c], crn, SConnected));
    if GetCallNdx(s.channels[c].calls, crn).Some? && cfg.mode == Autoresponder {
      PlayKeeps(s1, c, cfg.defaultFragment, play);
    }
  }

  lemma EndFlags(s: State, c: nat, crn: int, voiceBusy: bool)
    requires Has(s, c)
    ensures OnDisconnected(s, c, crn).channels[c].vReady == OnDropCall(s, c, crn, voiceBusy).channels[c].vReady
            == s.channels[c].vReady
    ensures OnDisconnected(s, c, crn).channels[c].blocked == OnDropCall(s, c, crn, voiceBusy).channels[c].blocked
            == s.channels[c].blocked
  {
  }

  lemma OfferedFlags(
      cfg: Config, s: State, c: nat, crn: int, dest: Option<Text>, orig: Option<Text>, params: seq<Diversion.Param>)
    requires Has(s, c)
    ensures var s' := OnOffered(cfg, s, c, crn, dest, orig, params);
            && |s'.channels| == |s.channels|
            && s'.channels[c].vReady == s.channels[c].vReady && s'.channels[c].blocked == s.channels[c].blocked
  {
  }

  lemma OtherFlags(cfg: Config, s: State, c: nat, crn: int, ev: GcEvent)
    requires Has(s, c) && !ev.GcOffered? && !ev.GcAnswered? && !ev.GcDisconnected? && !ev.GcDropCall?
    ensures var s' := OnLine(cfg, s, c, crn, ev);
            && |s'.channels| == |s.channels|
            && s'.channels[c].vReady == (s.channels[c].vReady || GivesVoice(LineStep(c, crn, ev), c))
            && s'.channels[c].blocked == (s.channels[c].blocked && !Unblocks(LineStep(c, crn, ev), c))
  {
  }

  lemma LineFlags(cfg: Config, s: State, c: nat, crn: int, ev: GcEvent)
    requires Has(s, c)
    ensures var s' := OnLine(cfg, s, c, crn, ev);
            && |s'.channels| == |s.channels|
            && s'.channels[c].vReady == (s.channels[c].vReady || GivesVoice(LineStep(c, crn, ev), c))
            && s'.channels[c].blocked == (s.channels[c].blocked && !Unblocks(LineStep(c, crn, ev), c))
  {
    if ev.GcOffered? {
      OfferedFlags(cfg, s, c, crn, ev.dest, ev.orig, ev.params);
    } else if ev.GcAnswered? {
      AnsweredFlags(cfg, s, c, crn, ev.play);
    } else if ev.GcDisconnected? || ev.GcDropCall? {
      EndFlags(s, c, crn, ev.GcDropCall? && ev.voiceBusy);
    } else {
      OtherFlags(cfg, s, c, crn, ev);
    }
  }

  lemma LineCounters(cfg: Config, s: State, c: nat, crn: int, ev: GcEvent)
    requires Has(s, c)
    ensures var s' := OnLine(cfg, s, c, crn, ev);
            && s'.stUsed == s.stUsed + (if ev.GcOffered? then 1 else 0) - (if ev.GcReleaseCall? then 1 else 0)
            && s'.stCallCnt == s.stCallCnt + (if ev.GcOffered? then 1 else 0)
            && s'.stUnblocked == s.stUnblocked + (if GivesVoice(LineStep(c, crn, ev), c) then 1 else 0)
  {
    if ev.GcAnswered? {
      AnsweredFlags(cfg, s, c, crn, ev.play);
    }
  }

  lemma VoiceKeeps(cfg: Config, s: State, c: nat, ev: VoiceEvent)
    requires Has(s, c)
    ensures var s' := OnVoice(cfg, s, c, ev);
            && |s'.channels| == |s.channels|
            && s'.channels[c].vReady == s.channels[c].vReady && s'.channels[c].blocked == s.channels[c].blocked
            && s'.stUsed == s.stUsed && s'.stCallCnt == s.stCallCnt && s'.stUnblocked == s.stUnblocked
  {
  }

  lemma CommandKeeps(cfg: Config, s: State, c: nat, cmd: Command, play: PlayResult)
    requires Has(s, c)
    ensures var s' := OnCommand(cfg, s, c, cmd, play);
            && |s'.channels| == |s.channels|
            && s'.channels[c].vReady == s.channels[c].vReady && s'.channels[c].blocked == s.channels[c].blocked
            && s'.stUsed == s.stUsed && s'.stCallCnt == s.stCallCnt && s'.stUnblocked == s.stUnblocked
  {
  }

  lemma NextFlags(cfg: Config, s: State, step: Step, c: nat)
    requires Valid(s) && !s.aborted && Takeable(|s.channels|, step) && c < |s.channels|
    ensures var s' := Next(cfg, s, step);
            && s'.channels[c].vReady == (s.channels[c].vReady || GivesVoice(step, c))
            && s'.channels[c].blocked == (s.channels[c].blocked && !Unblocks(step, c))
  {
    ResolvedIsApplicable(s, step);
    if Resolve(s, step).Some? {
      match Resolve(s, step).value
      case OnTheLine(e, crn, ev) =>
        LineTouches(cfg, s, e, crn, ev);
        LineFlags(cfg, s, e, crn, ev);
      case OnTheVoice(e, ev) =>
        VoiceTouches(cfg, s, e, ev);
        VoiceKeeps(cfg, s, e, ev);
      case OnTheCommand(e, cmd, play) =>
        CommandTouches(cfg, s, e, cmd, play);
        CommandKeeps(cfg, s, e, cmd, play);
      case Interrupted =>
      case Polled =>
      case Thrown =>
    }
  }

  predicate IsReleased(step: Step) {
    step.LineStep? && step.line.GcReleaseCall?
  }

  lemma NextCounters(cfg: Config, s: State, step: Step)
    requires Valid(s) && !s.aborted && Takeable(|s.channels|, step)
    ensures var s' := Next(cfg, s, step);
            && s'.stUsed == s.stUsed + (if CallSessions.IsOffer(step) then 1 else 0)
                            - (if IsReleased(step) then 1 else 0)
            && s'.stCallCnt == s.stCallCnt + (if CallSessions.IsOffer(step) then 1 else 0)
            && s'.stUnblocked == s.stUnblocked + (if step.LineStep? && GivesVoice(step, step.index) then 1 else 0)
  {
    ResolvedIsApplicable(s, step);
    if Resolve(s, step).Some? {
      match Resolve(s, step).value
      case OnTheLine(e, crn, ev) => LineCounters(cfg, s, e, crn, ev);
      case OnTheVoice(e, ev) => VoiceKeeps(cfg, s, e, ev);
      case OnTheCommand(e, cmd, play) => CommandKeeps(cfg, s, e, cmd, play);
      case Interrupted =>
      case Polled =>
      case Thrown =>
    }
  }

  // ---- the books over a run --------------------------------------------------------------------

  /** The channel was given its voice device at some time. */
  predicate VoiceSeen(steps: seq<Step>, c: nat) {
    exists k :: 0 <= k < |steps| && GivesVoice(steps[k], c)
  }

  predicate UnblockSeen(steps: seq<Step>, c: nat) {
    exists k :: 0 <= k < |steps| && Unblocks(steps[k], c)
  }

  lemma SeenSnoc(steps: seq<Step>, step: Step, c: nat)
    ensures VoiceSeen(steps + [step], c) <==> VoiceSeen(steps, c) || GivesVoice(step, c)
    ensures UnblockSeen(steps + [step], c) <==> UnblockSeen(steps, c) || Unblocks(step, c)
  {
    assert forall k :: 0 <= k < |steps| ==> (steps + [step])[k] == steps[k];
    assert (steps + [step])[|steps|] == step;
  }

  /** How many library calls of a sort the steps of a run call for on a channel. */
  function Due(steps: seq<Step>, c: nat, k: Sort): nat {
    if steps == [] then 0
    else
      var before := steps[..|steps| - 1];
      Due(before, c, k) + StepGain(VoiceSeen(before, c), steps[|steps| - 1], c, k)
  }

  /** The records and the log of the channel are what the steps so far call for. */
  ghost predicate InBooks(s: State, steps: seq<Step>, c: nat, k: Sort) {
    && c < |s.channels| == |s.logs|
    && s.channels[c].vReady == VoiceSeen(steps, c) && s.channels[c].blocked == !UnblockSeen(steps, c)
    && (!k.AHangUpOf? ==> Times(s.logs[c], k) == Due(steps, c, k))
  }

  lemma NextInBooks(cfg: Config, s: State, before: seq<Step>, step: Step, c: nat, k: Sort)
    requires Valid(s) && !s.aborted && Takeable(|s.channels|, step) && InBooks(s, before, c, k)
    ensures InBooks(Next(cfg, s, step), before + [step], c, k)
  {
    NextTimes(cfg, s, step, c, k);
    NextFlags(cfg, s, step, c);
    SeenSnoc(before, step, c);
    assert (before + [step])[..|before|] == before;
  }

  lemma AbortedStays(cfg: Config, s: State, step: Step)
    requires Valid(s) && Takeable(|s.channels|, step) && s.aborted
    ensures Next(cfg, s, step).aborted
  {
  }

  /**
   In every run that does not abort: a channel has asked for calls once for each
   reset and for each unblocking that found its voice device there, then or
   before; it has reset its line once for each failed task, and released a call
   once for each report that it was dropped.
   */
  lemma {:induction false} BooksBalance(
      cfg: Config, channelCount: nat, maxCalls: nat, steps: seq<Step>, c: nat, k: Sort)
    requires maxCalls >= 1 && c < channelCount && AllTakeable(channelCount, steps)
    requires !Run(cfg, Init(channelCount, maxCalls), steps).aborted
    ensures InBooks(Run(cfg, Init(channelCount, maxCalls), steps), steps, c, k)
    decreases |steps|
  {
    if steps != [] {
      var n := |steps| - 1;
      assert steps[n] in steps && forall step :: step in steps[..n] ==> step in steps;
      var s := Run(cfg, Init(channelCount, maxCalls), steps[..n]);
      if s.aborted { AbortedStays(cfg, s, steps[n]); }
      BooksBalance(cfg, channelCount, maxCalls, steps[..n], c, k);
      NextInBooks(cfg, s, steps[..n], steps[n], c, k);
      assert steps == steps[..n] + [steps[n]];
    }
  }

  function Releases(steps: seq<Step>): nat {
    if steps == [] then 0
    else Releases(steps[..|steps| - 1]) + (if IsReleased(steps[|steps| - 1]) then 1 else 0)
  }

  /** Voice devices given to channels. */
  function VoicesGiven(steps: seq<Step>): nat {
    if steps == [] then 0
    else
      var step := steps[|steps| - 1];
      VoicesGiven(steps[..|steps| - 1]) + (if step.LineStep? && GivesVoice(step, step.index) then 1 else 0)
  }

  /** In every run the three counters count what they are named for. */
  lemma {:induction false} CountersCount(cfg: Config, channelCount: nat, maxCalls: nat, steps: seq<Step>)
    requires maxCalls >= 1 && AllTakeable(channelCount, steps)
    requires !Run(cfg, Init(channelCount, maxCalls), steps).aborted
    ensures var s := Run(cfg, Init(channelCount, maxCalls), steps);
            && s.stCallCnt == CallSessions.Offers(steps)
            && s.stUsed == CallSessions.Offers(steps) - Releases(steps)
            && s.stUnblocked == VoicesGiven(steps)
    decreases |steps|
  {
    if steps != [] {
      var n := |steps| - 1;
      assert steps[n] in steps && forall step :: step in steps[..n] ==> step in steps;
      var s := Run(cfg, Init(channelCount, maxCalls), steps[..n]);
      if s.aborted { AbortedStays(cfg, s, steps[n]); }
      CountersCount(cfg, channelCount, maxCalls, steps[..n]);
      NextCounters(cfg, s, steps[n]);
    }
  }

  // ---- single steps, to the letter --------------------------------------------------------------

  /** Unblocking makes the channel wait for calls, once, if and only if its voice device is there or comes with it. */
  lemma UnblockedWaits(cfg: Config, s: State, c: nat, crn: int, handle: Option<int>)
    requires Valid(s) && !s.aborted && c < |s.channels|
    ensures var s' := Next(cfg, s, LineStep(c, crn, GcUnblocked(handle)));
            && s'.logs[c] == s.logs[c] + (if handle.Some? || s.channels[c].vReady then [WaitCall] else [])
            && s'.channels[c].hdVoice == (if handle.Some? then handle.value else s.channels[c].hdVoice)
            && !s'.channels[c].blocked
  {
    assert s.logs[c] + [] == s.logs[c];
  }

  /** After a failed task and the reset of the line the channel waits for calls again, with an empty table. */
  lemma TaskFailRecovers(cfg: Config, s: State, c: nat, crn: int)
    requires Valid(s) && !s.aborted && c < |s.channels|
    ensures var s1 := Next(cfg, s, LineStep(c, crn, GcTaskFail));
            var s2 := Next(cfg, s1, LineStep(c, 0, GcResetLineDev));
            && s1.logs[c] == s.logs[c] + [ResetLine] && !s1.channels[c].blocked
            && s2.logs[c] == s.logs[c] + [ResetLine] + [WaitCall]
            && |s2.channels[c].calls| == |s.channels[c].calls|
            && forall i :: 0 <= i < |s2.channels[c].calls| ==> s2.channels[c].calls[i] == NO_CALL
  {
  }

  /** A call that the other side ends is hung up exactly once, however often that is reported. */
  lemma DisconnectedOnce(cfg: Config, s: State, c: nat, crn: int)
    requires Valid(s) && !s.aborted && c < |s.channels| && GetCallNdx(s.channels[c].calls, crn).Some?
    ensures var ndx := GetCallNdx(s.channels[c].calls, crn).value;
            var s1 := Next(cfg, s, LineStep(c, crn, GcDisconnected));
            && s1.channels[c].pstate == PReleasing
            && s1.logs[c] == s.logs[c] + (if s.channels[c].calls[ndx].sstate == SDisconnected then []
                                          else [HangUp(crn, Diversion.NormalClearing)])
            && Next(cfg, s1, LineStep(c, crn, GcDisconnected)) == s1
  {
    var s1 := Next(cfg, s, LineStep(c, crn, GcDisconnected));
    assert s.logs[c] + [] == s.logs[c];
    NowDisconnected(s.channels[c].(pstate := PReleasing), crn);
    DisconnectedAgain(s1, c, crn);
  }

  /** A call in the table is found in the same place when it is marked as disconnected. */
  lemma NowDisconnected(ch: Channel, crn: int)
    requires GetCallNdx(ch.calls, crn).Some?
    ensures var ch', ndx := WithSState(ch, crn, SDisconnected), GetCallNdx(ch.calls, crn);
            && GetCallNdx(ch'.calls, crn) == ndx && ch'.calls[ndx.value].sstate == SDisconnected
            && (ch.calls[ndx.value].sstate == SDisconnected ==> ch' == ch)
  {
    var ndx := GetCallNdx(ch.calls, crn).value;
    var calls := WithSState(ch, crn, SDisconnected).calls;
    assert forall i :: 0 <= i < |calls| ==> calls[i].crn == ch.calls[i].crn;
    assert ch.calls[ndx := ch.calls[ndx]] == ch.calls;
  }

  lemma DisconnectedAgain(s: State, c: nat, crn: int)
    requires Has(s, c) && s.channels[c].pstate == PReleasing
    requires var ndx := GetCallNdx(s.channels[c].calls, crn);
             ndx.Some? && s.channels[c].calls[ndx.value].sstate == SDisconnected
    ensures OnDisconnected(s, c, crn) == s
  {
    assert s.channels[c := s.channels[c]] == s.channels;
  }

  /** An outgoing call that is connected, and any call not in the table that is disconnected or answered, is hung up. */
  lemma StrangersHungUp(cfg: Config, s: State, c: nat, crn: int, play: PlayResult)
    requires Valid(s) && !s.aborted && c < |s.channels|
    ensures Next(cfg, s, LineStep(c, crn, GcConnected)).logs[c] == s.logs[c] + [HangUp(crn, Diversion.NormalClearing)]
    ensures GetCallNdx(s.channels[c].calls, crn).None? ==>
              && Next(cfg, s, LineStep(c, crn, GcDisconnected)).logs[c]
                 == s.logs[c] + [HangUp(crn, Diversion.NormalClearing)]
              && Next(cfg, s, LineStep(c, crn, GcAnswered(play))).logs[c]
                 == s.logs[c] + [HangUp(crn, Diversion.NormalClearing)]
  {
  }

  /**
   The shutdown request hangs up every channel that calls or plays, once, its first
   call, normally, after stopping what plays; and does nothing to any other.
   */
  lemma InterruptHangsUp(cfg: Config, s: State, c: nat)
    requires Valid(s) && !s.aborted && c < |s.channels|
    ensures var s', ch := Next(cfg, s, InterruptStep), s.channels[c];
            var hangUp := HangUp(ch.calls[0].crn, Diversion.NormalClearing);
            && (ch.pstate == PCalling ==> s'.logs[c] == s.logs[c] + [hangUp])
            && (ch.pstate == PPlay ==> s'.logs[c] == s.logs[c] + [StopVoice] + [hangUp])
            && (ch.pstate == PCalling || ch.pstate == PPlay ==> s'.channels[c] == ch.(pstate := PReleasing))
            && (ch.pstate != PCalling && ch.pstate != PPlay ==> s'.logs[c] == s.logs[c] && s'.channels[c] == ch)
  {
    var hangUp := HangUp(s.channels[c].calls[0].crn, Diversion.NormalClearing);
    assert s.logs[c] + [StopVoice, hangUp] == s.logs[c] + [StopVoice] + [hangUp];
    assert s.logs[c] + [] == s.logs[c];
  }

  /** In autoresponder mode the end of a play hangs its call up, once, and has the channel wait for the release. */
  lemma PlayDoneHangsUp(cfg: Config, s: State, c: nat, mask: int32)
    requires cfg.mode == Autoresponder && Valid(s) && !s.aborted && c < |s.channels|
    requires GetIndexByVoice(s.channels, s.channels[c].hdVoice) == Some(c)
    ensures var s', ch := Next(cfg, s, VoiceStep(s.channels[c].hdVoice, PlayDone(mask))), s.channels[c];
            && s'.channels[c] == ch.(pstate := PReleasing)
            && s'.logs[c] == s.logs[c] + [HangUp(ch.calls[0].crn, Diversion.NormalClearing)]
  {
  }
}

/**
 Shutdown: Deinit releases what is active, and once nothing new arrives each
 channel is closed exactly once and the program ends exactly when the releases
 have come in.
 */
module CallShutdown {
  import opened Bytes
  import opened Wire
  import opened CallSpec
  import Diversion
  import Sessions

  predicate IsActive(ch: Channel) {
    ch.pstate == PCalling || ch.pstate == PPlay
  }

  ghost predicate NoneActive(s: State) {
    forall c :: 0 <= c < |s.channels| ==> !IsActive(s.channels[c])
  }

  /** Deinit leaves no channel calling or playing; those that were wait for their release. */
  lemma DeinitReleases(cfg: Config, s: State)
    requires Valid(s) && !s.aborted
    ensures var s' := Next(cfg, s, InterruptStep);
            && NoneActive(s') && s'.interrupted && !s'.aborted
            && forall c: nat :: c < |s.channels| ==>
                 s'.channels[c].pstate == if IsActive(s.channels[c]) then PReleasing else s.channels[c].pstate
  {
  }

  // ---- the exit poll ------------------------------------------------------------------

  /** What an exit poll in state `s` answers. */
  ghost predicate PollSaysExit(cfg: Config, s: State)
    requires Valid(s)
  {
    s.interrupted && AllShutdown(Next(cfg, s, PollStep))
  }

  /** The poll ends the program exactly when it was interrupted and no channel waits for anything. */
  lemma ExitCondition(cfg: Config, s: State)
    requires Valid(s) && !s.aborted
    ensures PollSaysExit(cfg, s) <==>
            s.interrupted && forall c :: 0 <= c < |s.channels| ==>
              !IsActive(s.channels[c]) && s.channels[c].pstate != PReleasing
  {
    var s' := Next(cfg, s, PollStep);
    if s.interrupted {
      forall c: nat | c < |s.channels|
        ensures s'.channels[c].pstate == PShutdown <==> !IsActive(s.channels[c]) && s.channels[c].pstate != PReleasing
      {
        assert s'.channels[c] == Closed(s.channels[c]);
      }
    }
  }

  // ---- quiet steps: no new call, disconnect, play completion or command -----------------

  /**
   In SSP mode ANSWERED and the end of a play only send a message; in
   autoresponder mode the one starts a play and the other hangs up.
   */
  predicate Quiet(cfg: Config, step: Step) {
    match step
    case LineStep(_, _, ev) =>
      !ev.GcOffered? && !ev.GcDisconnected? && (ev.GcAnswered? ==> cfg.mode != Autoresponder)
    case VoiceStep(_, ev) => ev.PlayDone? ==> cfg.mode != Autoresponder
    case PacketStep(_, _, _) => false
    case InterruptStep => true
    case PollStep => true
  }

  ghost predicate AllQuiet(cfg: Config, steps: seq<Step>) {
    forall step :: step in steps ==> Quiet(cfg, step)
  }

  predicate IsRelease(step: Step, c: nat) {
    step.LineStep? && step.line.GcReleaseCall? && step.index == c
  }

  ghost predicate ReleaseSeen(steps: seq<Step>, c: nat) {
    exists step :: step in steps && IsRelease(step, c)
  }

  /** How often a channel was passed to gc_Close. */
  function Closes(log: seq<Action>): nat {
    if log == [] then 0 else Closes(log[..|log| - 1]) + (if log[|log| - 1] == CloseLine then 1 else 0)
  }

  lemma ClosesSnoc(log: seq<Action>, a: Action)
    ensures Closes(log + [a]) == Closes(log) + (if a == CloseLine then 1 else 0)
  {
    assert (log + [a])[..|log|] == log;
  }

  /** The program state that a quiet step leaves a channel in. */
  function QuietPState(p: PState, step: Step, c: nat): PState {
    if IsRelease(step, c) && p == PReleasing then PIdle
    else if step.PollStep? && (p == PNull || p == PIdle) then PShutdown
    else p
  }

  lemma QuietLinePState(cfg: Config, s: State, c: nat, crn: int, ev: GcEvent)
    requires Has(s, c) && Quiet(cfg, LineStep(c, crn, ev))
    ensures var s' := OnLine(cfg, s, c, crn, ev);
            && |s'.channels| == |s.channels|
            && s'.channels[c].pstate == QuietPState(s.channels[c].pstate, LineStep(c, crn, ev), c)
  {
    if ev.GcAnswered? {
      AnsweredPState(cfg, s, c, crn, ev.play);
    }
  }

  lemma QuietDropLog(s: State, c: nat, crn: int, voiceBusy: bool)
    requires Has(s, c)
    ensures var s' := OnDropCall(s, c, crn, voiceBusy);
            |s'.logs| == |s.logs| && Closes(s'.logs[c]) == Closes(s.logs[c])
  {
    ClosesSnoc(s.logs[c], StopVoice);
    ClosesSnoc(s.logs[c], ReleaseCall(crn));
    ClosesSnoc(s.logs[c] + [StopVoice], ReleaseCall(crn));
  }

  lemma NotifyLog(s: State, c: nat, e: Event)
    requires Has(s, c)
    ensures var s' := NotifyScp(s, c, e);
            |s'.logs| == |s.logs| && Closes(s'.logs[c]) == Closes(s.logs[c])
  {
    ClosesSnoc(s.logs[c], Notify(Sessions.SessionOf(s.sessions, c), e));
  }

  lemma QuietAnsweredLog(cfg: Config, s: State, c: nat, crn: int, play: PlayResult)
    requires Has(s, c) && cfg.mode != Autoresponder
    ensures var s' := OnAnswered(cfg, s, c, crn, play);
            |s'.logs| == |s.logs| && Closes(s'.logs[c]) == Closes(s.logs[c])
  {
    var s1 := Put(s, c, WithSState(s.channels[c], crn, SConnected));
    if GetCallNdx(s.channels[c].calls, crn).Some? && cfg.mode == Ssp {
      NotifyLog(s1, c, EvAnswered);
    } else {
      ClosesSnoc(s.logs[c], HangUp(crn, Diversion.NormalClearing));
    }
  }

  lemma QuietLineLog(cfg: Config, s: State, c: nat, crn: int, ev: GcEvent)
    requires Has(s, c) && Quiet(cfg, LineStep(c, crn, ev))
    ensures |OnLine(cfg, s, c, crn, ev).logs| == |s.logs|
    ensures Closes(OnLine(cfg, s, c, crn, ev).logs[c]) == Closes(s.logs[c])
  {
    var log := s.logs[c];
    match ev
    case GcDropCall(voiceBusy) => QuietDropLog(s, c, crn, voiceBusy);
    case GcAnswered(play) => QuietAnsweredLog(cfg, s, c, crn, play);
    case GcUnblocked(_) => ClosesSnoc(log, WaitCall);
    case GcCallProc => ClosesSnoc(log, AcceptOrAnswer(cfg, crn));
    case GcAccept => ClosesSnoc(log, AnswerCall(crn));
    case GcConnected => ClosesSnoc(log, HangUp(crn, Diversion.NormalClearing));
    case GcResetLineDev => ClosesSnoc(log, WaitCall);
    case GcTaskFail => ClosesSnoc(log, ResetLine);
    case _ =>
  }

  lemma QuietVoice(cfg: Config, s: State, c: nat, ev: VoiceEvent)
    requires Has(s, c) && (ev.PlayDone? ==> cfg.mode != Autoresponder)
    ensures var s' := OnVoice(cfg, s, c, ev);
            && |s'.logs| == |s.channels| && s'.channels == s.channels && Closes(s'.logs[c]) == Closes(s.logs[c])
  {
    if ev.PlayDone? && cfg.mode == Ssp { NotifyLog(s, c, EvPlayFinished(ev.mask)); }
  }

  /** A quiet step after the interrupt, seen from one channel. */
  lemma QuietStep(cfg: Config, s: State, step: Step, c: nat)
    requires Valid(s) && Takeable(|s.channels|, step) && c < |s.channels|
    requires s.interrupted && NoneActive(s) && Quiet(cfg, step) && !Next(cfg, s, step).aborted
    ensures var s' := Next(cfg, s, step);
            && s'.interrupted
            && s'.channels[c].pstate == QuietPState(s.channels[c].pstate, step, c)
            && Closes(s'.logs[c]) == Closes(s.logs[c])
               + (if s.channels[c].pstate != PShutdown && s'.channels[c].pstate == PShutdown then 1 else 0)
  {
    ResolvedIsApplicable(s, step);
    if Resolve(s, step).Some? {
      match Resolve(s, step).value
      case OnTheLine(e, crn, ev) =>
        LineTouches(cfg, s, e, crn, ev);
        QuietLinePState(cfg, s, e, crn, ev);
        QuietLineLog(cfg, s, e, crn, ev);
      case OnTheVoice(e, ev) =>
        VoiceTouches(cfg, s, e, ev);
        QuietVoice(cfg, s, e, ev);
      case Interrupted =>
        assert s.logs[c] + [] == s.logs[c];
      case Polled =>
        assert s.logs[c] + [] == s.logs[c];
        ClosesSnoc(s.logs[c], CloseLine);
      case Thrown =>
    }
  }

  /** A channel's account after a quiet run that began in `s0`. */
  ghost predicate QuietSince(s0: State, s: State, steps: seq<Step>, c: nat)
    requires c < |s.channels| == |s.logs| == |s0.channels| == |s0.logs|
  {
    && (s.channels[c].pstate == PReleasing <==>
          s0.channels[c].pstate == PReleasing && !ReleaseSeen(steps, c))
    && (s0.channels[c].pstate == PShutdown ==> s.channels[c].pstate == PShutdown)
    && Closes(s.logs[c]) == Closes(s0.logs[c])
       + (if s0.channels[c].pstate != PShutdown && s.channels[c].pstate == PShutdown then 1 else 0)
  }

  lemma {:induction false} QuietRunShut(cfg: Config, s0: State, steps: seq<Step>)
    requires Valid(s0) && AllTakeable(|s0.channels|, steps) && AllQuiet(cfg, steps)
    requires s0.interrupted && NoneActive(s0) && !Run(cfg, s0, steps).aborted
    ensures Run(cfg, s0, steps).interrupted && NoneActive(Run(cfg, s0, steps))
    decreases |steps|
  {
    if steps != [] {
      var n := |steps| - 1;
      assert steps[n] in steps && forall step :: step in steps[..n] ==> step in steps;
      QuietRunShut(cfg, s0, steps[..n]);
      var s := Run(cfg, s0, steps[..n]);
      if |s.channels| > 0 { QuietStep(cfg, s, steps[n], 0); }
      forall c: nat | c < |s.channels| ensures !IsActive(Next(cfg, s, steps[n]).channels[c]) {
        QuietStep(cfg, s, steps[n], c);
      }
    }
  }

  lemma {:induction false} QuietRun(cfg: Config, s0: State, steps: seq<Step>, c: nat)
    requires Valid(s0) && AllTakeable(|s0.channels|, steps) && AllQuiet(cfg, steps) && c < |s0.channels|
    requires s0.interrupted && NoneActive(s0) && !Run(cfg, s0, steps).aborted
    ensures QuietSince(s0, Run(cfg, s0, steps), steps, c)
    decreases |steps|
  {
    if steps != [] {
      var n := |steps| - 1;
      assert steps[n] in steps && forall step :: step in steps[..n] ==> step in steps;
      QuietRun(cfg, s0, steps[..n], c);
      QuietRunShut(cfg, s0, steps[..n]);
      var s := Run(cfg, s0, steps[..n]);
      QuietStep(cfg, s, steps[n], c);
      QuietOneMore(s0, s, Next(cfg, s, steps[n]), steps[..n], steps[n], c);
      assert steps == steps[..n] + [steps[n]];
    }
  }

  lemma QuietOneMore(s0: State, s: State, s': State, steps: seq<Step>, step: Step, c: nat)
    requires c < |s.channels| == |s.logs| == |s0.channels| == |s0.logs| == |s'.channels| == |s'.logs|
    requires QuietSince(s0, s, steps, c)
    requires s'.channels[c].pstate == QuietPState(s.channels[c].pstate, step, c)
    requires Closes(s'.logs[c]) == Closes(s.logs[c])
             + (if s.channels[c].pstate != PShutdown && s'.channels[c].pstate == PShutdown then 1 else 0)
    ensures QuietSince(s0, s', steps + [step], c)
  {
  }

  // ---- the main results ----------------------------------------------------------------------

  /**
   After Deinit and a quiet run, the next exit poll ends the program exactly when
   every channel that Deinit left waiting has had its release.
   */
  lemma ShutdownEnds(cfg: Config, s: State, steps: seq<Step>)
    requires Valid(s) && !s.aborted && AllTakeable(|s.channels|, steps) && AllQuiet(cfg, steps)
    requires !Run(cfg, Next(cfg, s, InterruptStep), steps).aborted
    ensures var s0 := Next(cfg, s, InterruptStep);
            PollSaysExit(cfg, Run(cfg, s0, steps)) <==>
              forall c: nat :: c < |s.channels| && s0.channels[c].pstate == PReleasing ==> ReleaseSeen(steps, c)
  {
    var s0 := Next(cfg, s, InterruptStep);
    DeinitReleases(cfg, s);
    QuietRunShut(cfg, s0, steps);
    var s1 := Run(cfg, s0, steps);
    ExitCondition(cfg, s1);
    forall c: nat | c < |s.channels|
      ensures s1.channels[c].pstate == PReleasing <==> s0.channels[c].pstate == PReleasing && !ReleaseSeen(steps, c)
    {
      QuietRun(cfg, s0, steps, c);
    }
  }

  /** By then each channel that was not closed before has been passed to gc_Close exactly once more. */
  lemma ClosedOnceMore(cfg: Config, s: State, steps: seq<Step>, c: nat)
    requires Valid(s) && !s.aborted && AllTakeable(|s.channels|, steps) && AllQuiet(cfg, steps) && c < |s.channels|
    requires !Run(cfg, Next(cfg, s, InterruptStep), steps).aborted
    requires PollSaysExit(cfg, Run(cfg, Next(cfg, s, InterruptStep), steps))
    ensures Closes(Next(cfg, Run(cfg, Next(cfg, s, InterruptStep), steps), PollStep).logs[c])
            == Closes(s.logs[c]) + (if s.channels[c].pstate == PShutdown then 0 else 1)
  {
    DeinitReleases(cfg, s);
    DeinitClosesNothing(s, c);
    ClosesAtExit(cfg, Next(cfg, s, InterruptStep), steps, c);
  }

  lemma ClosesAtExit(cfg: Config, s0: State, steps: seq<Step>, c: nat)
    requires Valid(s0) && AllTakeable(|s0.channels|, steps) && AllQuiet(cfg, steps) && c < |s0.channels|
    requires s0.interrupted && NoneActive(s0) && !Run(cfg, s0, steps).aborted
    requires PollSaysExit(cfg, Run(cfg, s0, steps))
    ensures Closes(Next(cfg, Run(cfg, s0, steps), PollStep).logs[c])
            == Closes(s0.logs[c]) + (if s0.channels[c].pstate == PShutdown then 0 else 1)
  {
    QuietRunShut(cfg, s0, steps);
    QuietRun(cfg, s0, steps, c);
    PollAtExit(cfg, Run(cfg, s0, steps), c);
  }

  /** The poll that ends the program closes what is still open. */
  lemma PollAtExit(cfg: Config, s: State, c: nat)
    requires Valid(s) && !s.aborted && s.interrupted && c < |s.channels| && PollSaysExit(cfg, s)
    ensures Closes(Next(cfg, s, PollStep).logs[c])
            == Closes(s.logs[c]) + (if s.channels[c].pstate == PShutdown then 0 else 1)
  {
    var s' := Next(cfg, s, PollStep);
    assert s'.channels[c] == Closed(s.channels[c]) && s'.logs[c] == s.logs[c] + CloseActions(s.channels[c]);
    ClosingCloses(s.logs[c], s.channels[c]);
  }

  lemma ClosingCloses(log: seq<Action>, ch: Channel)
    ensures Closes(log + CloseActions(ch)) == Closes(log) + (if ch.pstate == PNull || ch.pstate == PIdle then 1 else 0)
  {
    ClosesSnoc(log, CloseLine);
    assert log + [] == log;
  }

  // ---- before the interrupt nothing is closed --------------------------------------------------

  ghost predicate Unclosed(s: State, c: nat) {
    c < |s.channels| == |s.logs| && s.channels[c].pstate != PShutdown && CloseLine !in s.logs[c]
  }

  lemma {:induction false} UnclosedIsZero(log: seq<Action>)
    requires CloseLine !in log
    ensures Closes(log) == 0
  {
    if log != [] { UnclosedIsZero(log[..|log| - 1]); }
  }

  lemma OfferedUnclosed(
      cfg: Config, s: State, c: nat, crn: int, dest: Option<Text>, orig: Option<Text>, params: seq<Diversion.Param>)
    requires Has(s, c) && Unclosed(s, c)
    ensures Unclosed(OnOffered(cfg, s, c, crn, dest, orig, params), c)
  {
  }

  lemma AnsweredUnclosed(cfg: Config, s: State, c: nat, crn: int, play: PlayResult)
    requires Has(s, c) && Unclosed(s, c)
    ensures Unclosed(OnAnswered(cfg, s, c, crn, play), c)
  {
  }

  lemma EndUnclosed(s: State, c: nat, crn: int, voiceBusy: bool)
    requires Has(s, c) && Unclosed(s, c)
    ensures Unclosed(OnDisconnected(s, c, crn), c)
    ensures Unclosed(OnDropCall(s, c, crn, voiceBusy), c)
    ensures Unclosed(OnReleaseCall(s, c, crn), c)
  {
  }

  lemma LineUnclosed(cfg: Config, s: State, c: nat, crn: int, ev: GcEvent)
    requires Has(s, c) && Unclosed(s, c)
    ensures Unclosed(OnLine(cfg, s, c, crn, ev), c)
  {
    if ev.GcOffered? {
      OfferedUnclosed(cfg, s, c, crn, ev.dest, ev.orig, ev.params);
    } else if ev.GcAnswered? {
      AnsweredUnclosed(cfg, s, c, crn, ev.play);
    } else if ev.GcDisconnected? || ev.GcDropCall? || ev.GcReleaseCall? {
      EndUnclosed(s, c, crn, ev.GcDropCall? && ev.voiceBusy);
    }
  }

  lemma VoiceUnclosed(cfg: Config, s: State, c: nat, ev: VoiceEvent)
    requires Has(s, c) && Unclosed(s, c)
    ensures Unclosed(OnVoice(cfg, s, c, ev), c)
  {
  }

  lemma CommandUnclosed(cfg: Config, s: State, c: nat, cmd: Command, play: PlayResult)
    requires Has(s, c) && Unclosed(s, c)
    ensures Unclosed(OnCommand(cfg, s, c, cmd, play), c)
  {
  }

  lemma NextUnclosed(cfg: Config, s: State, step: Step, c: nat)
    requires Valid(s) && Takeable(|s.channels|, step) && Unclosed(s, c) && !s.interrupted && !step.InterruptStep?
    ensures Unclosed(Next(cfg, s, step), c) && !Next(cfg, s, step).interrupted
  {
    ResolvedIsApplicable(s, step);
    if !s.aborted && Resolve(s, step).Some? {
      match Resolve(s, step).value
      case OnTheLine(e, crn, ev) =>
        LineTouches(cfg, s, e, crn, ev);
        if e == c { LineUnclosed(cfg, s, c, crn, ev); }
      case OnTheVoice(e, ev) =>
        VoiceTouches(cfg, s, e, ev);
        if e == c { VoiceUnclosed(cfg, s, c, ev); }
      case OnTheCommand(e, cmd, play) =>
        CommandTouches(cfg, s, e, cmd, play);
        if e == c { CommandUnclosed(cfg, s, c, cmd, play); }
      case Polled =>
      case Thrown =>
    }
  }

  /** Until a shutdown is requested no channel is closed, in any run. */
  lemma {:induction false} RunUnclosed(cfg: Config, channelCount: nat, maxCalls: nat, steps: seq<Step>, c: nat)
    requires maxCalls >= 1 && c < channelCount && AllTakeable(channelCount, steps) && InterruptStep !in steps
    ensures var s := Run(cfg, Init(channelCount, maxCalls), steps);
            Unclosed(s, c) && !s.interrupted
    decreases |steps|
  {
    if steps != [] {
      var n := |steps| - 1;
      assert steps[n] in steps && forall step :: step in steps[..n] ==> step in steps;
      RunUnclosed(cfg, channelCount, maxCalls, steps[..n], c);
      NextUnclosed(cfg, Run(cfg, Init(channelCount, maxCalls), steps[..n]), steps[n], c);
    }
  }

  /**
   A whole life of the program: any run, the shutdown request, a quiet run and the
   poll that ends it.  Each channel has been passed to gc_Close exactly once.
   */
  lemma ClosedOnce(
      cfg: Config, channelCount: nat, maxCalls: nat, before: seq<Step>, after: seq<Step>, c: nat)
    requires maxCalls >= 1 && c < channelCount
    requires AllTakeable(channelCount, before) && InterruptStep !in before
    requires AllTakeable(channelCount, after) && AllQuiet(cfg, after)
    requires var s := Run(cfg, Init(channelCount, maxCalls), before);
             && !s.aborted && !Run(cfg, Next(cfg, s, InterruptStep), after).aborted
             && PollSaysExit(cfg, Run(cfg, Next(cfg, s, InterruptStep), after))
    ensures var s := Run(cfg, Init(channelCount, maxCalls), before);
            var end := Next(cfg, Run(cfg, Next(cfg, s, InterruptStep), after), PollStep);
            Closes(end.logs[c]) == 1
  {
    var s := Run(cfg, Init(channelCount, maxCalls), before);
    RunUnclosed(cfg, channelCount, maxCalls, before, c);
    UnclosedIsZero(s.logs[c]);
    ClosedOnceMore(cfg, s, after, c);
  }

  // ---- what Deinit adds to the log ----------------------------------------------------------------

  lemma HangingUpClosesNothing(log: seq<Action>, ch: Channel)
    requires |ch.calls| >= 1
    ensures Closes(log + DeinitActions(ch)) == Closes(log)
  {
    var hangUp := HangUp(ch.calls[0].crn, Diversion.NormalClearing);
    if ch.pstate == PCalling {
      ClosesSnoc(log, hangUp);
    } else if ch.pstate == PPlay {
      ClosesSnoc(log, StopVoice);
      ClosesSnoc(log + [StopVoice], hangUp);
      assert log + DeinitActions(ch) == (log + [StopVoice]) + [hangUp];
    } else {
      assert log + DeinitActions(ch) == log;
    }
  }

  lemma DeinitClosesNothing(s: State, c: nat)
    requires Valid(s) && c < |s.channels|
    ensures Closes(Deinit(s).logs[c]) == Closes(s.logs[c])
  {
    HangingUpClosesNothing(s.logs[c], s.channels[c]);
  }

  // ---- a rank that only falls --------------------------------------------------------------------

  function PStateRank(p: PState): nat {
    match p
    case PShutdown => 0
    case PNull => 1
    case PIdle => 1
    case PReleasing => 2
    case PCalling => 3
    case PPlay => 3
  }

  function RankSum(channels: seq<Channel>): nat {
    if channels == [] then 0
    else RankSum(channels[..|channels| - 1]) + PStateRank(channels[|channels| - 1].pstate)
  }

  lemma {:induction false} RankSumFalls(a: seq<Channel>, b: seq<Channel>)
    requires |a| == |b| && forall c :: 0 <= c < |a| ==> PStateRank(b[c].pstate) <= PStateRank(a[c].pstate)
    ensures RankSum(b) <= RankSum(a)
    ensures (exists c :: 0 <= c < |a| && PStateRank(b[c].pstate) < PStateRank(a[c].pstate)) ==> RankSum(b) < RankSum(a)
  {
    if a != [] {
      var n := |a| - 1;
      RankSumFalls(a[..n], b[..n]);
      if c :| 0 <= c < |a| && PStateRank(b[c].pstate) < PStateRank(a[c].pstate) {
        assert c < n ==> PStateRank(b[..n][c].pstate) < PStateRank(a[..n][c].pstate);
      }
    }
  }

  lemma QuietPStates(cfg: Config, s: State, step: Step)
    requires Valid(s) && Takeable(|s.channels|, step)
    requires s.interrupted && NoneActive(s) && Quiet(cfg, step) && !Next(cfg, s, step).aborted
    ensures forall c: nat :: c < |s.channels| ==>
              Next(cfg, s, step).channels[c].pstate == QuietPState(s.channels[c].pstate, step, c)
  {
    forall c: nat | c < |s.channels|
      ensures Next(cfg, s, step).channels[c].pstate == QuietPState(s.channels[c].pstate, step, c)
    {
      QuietStep(cfg, s, step, c);
    }
  }

  /** The step takes the channel a rank down: a release it waits for, or its close. */
  predicate GoesDown(p: PState, step: Step, c: nat) {
    (IsRelease(step, c) && p == PReleasing) || (step.PollStep? && (p == PNull || p == PIdle))
  }

  /** No quiet step raises the rank sum; a release of a waiting channel and a close lower it. */
  lemma QuietRank(cfg: Config, s: State, step: Step)
    requires Valid(s) && Takeable(|s.channels|, step)
    requires s.interrupted && NoneActive(s) && Quiet(cfg, step) && !Next(cfg, s, step).aborted
    ensures var s' := Next(cfg, s, step);
            && RankSum(s'.channels) <= RankSum(s.channels)
            && ((exists c: nat :: c < |s.channels| && GoesDown(s.channels[c].pstate, step, c))
                ==> RankSum(s'.channels) < RankSum(s.channels))
  {
    QuietPStates(cfg, s, step);
    RanksGoDown(s.channels, Next(cfg, s, step).channels, step);
  }

  lemma RanksGoDown(a: seq<Channel>, b: seq<Channel>, step: Step)
    requires |a| == |b| && forall c: nat :: c < |a| ==> b[c].pstate == QuietPState(a[c].pstate, step, c)
    ensures RankSum(b) <= RankSum(a)
    ensures (exists c: nat :: c < |a| && GoesDown(a[c].pstate, step, c)) ==> RankSum(b) < RankSum(a)
  {
    RankSumFalls(a, b);
    if c: nat :| c < |a| && GoesDown(a[c].pstate, step, c) {
      assert PStateRank(b[c].pstate) < PStateRank(a[c].pstate);
    }
  }

  /** No new call, disconnect, play completion or command, whatever the mode. */
  predicate NothingNew(step: Step) {
    match step
    case LineStep(_, _, ev) => !ev.GcOffered? && !ev.GcDisconnected?
    case VoiceStep(_, ev) => !ev.PlayDone?
    case PacketStep(_, _, _) => false
    case InterruptStep => true
    case PollStep => true
  }

  /** An answer that makes the autoresponder play: the call is in the table and the play starts. */
  predicate StartsDefaultPlay(cfg: Config, s: State, step: Step) {
    && cfg.mode == Autoresponder && step.LineStep? && step.index < |s.channels|
    && step.line == GcAnswered(PlayStarts)
    && GetCallNdx(s.channels[step.index].calls, step.crn).Some?
  }

  lemma AnsweredPState(cfg: Config, s: State, c: nat, crn: int, play: PlayResult)
    requires Has(s, c)
    ensures var s' := OnAnswered(cfg, s, c, crn, play);
            && |s'.channels| == |s.channels|
            && s'.channels[c].pstate == if StartsDefaultPlay(cfg, s, LineStep(c, crn, GcAnswered(play))) then PPlay
                                        else s.channels[c].pstate
  {
  }

  /**
   Of the steps that bring nothing new, exactly those raise the rank sum: in
   autoresponder mode the code takes up a call that is answered after Deinit.
   */
  lemma RankRisesExactly(cfg: Config, s: State, step: Step)
    requires Valid(s) && !s.aborted && Takeable(|s.channels|, step)
    requires s.interrupted && NoneActive(s) && NothingNew(step)
    ensures RankSum(Next(cfg, s, step).channels) > RankSum(s.channels) <==> StartsDefaultPlay(cfg, s, step)
  {
    var s' := Next(cfg, s, step);
    if step.LineStep? && step.line.GcAnswered? {
      var c := step.index;
      AnsweredPState(cfg, s, c, step.crn, step.line.play);
      AnsweredTouches(cfg, s, c, step.crn, step.line.play);
      if StartsDefaultPlay(cfg, s, step) {
        assert !IsActive(s.channels[c]) && PStateRank(s.channels[c].pstate) < PStateRank(s'.channels[c].pstate);
        RankSumFalls(s'.channels, s.channels);
      } else {
        RankSumFalls(s.channels, s'.channels);
      }
    } else {
      QuietNeverAborts(cfg, s, step);
      QuietRank(cfg, s, step);
    }
  }

  lemma QuietNeverAborts(cfg: Config, s: State, step: Step)
    requires Valid(s) && !s.aborted && Takeable(|s.channels|, step) && NothingNew(step)
    requires !(step.LineStep? && step.line.GcAnswered?)
    ensures !Next(cfg, s, step).aborted
  {
  }

  /** An incoming call, up to the moment when the shutdown request finds it not yet answered. */
  function OfferedThenInterrupted(crn: int, handle: int): seq<Step> {
    [LineStep(0, 0, GcUnblocked(Some(handle))), LineStep(0, crn, GcOffered(None, None, [])), InterruptStep]
  }

  lemma RunSnoc(cfg: Config, s: State, steps: seq<Step>, step: Step)
    requires Valid(s) && AllTakeable(|s.channels|, steps) && Takeable(|s.channels|, step)
    ensures AllTakeable(|s.channels|, steps + [step])
    ensures Run(cfg, s, steps + [step]) == Next(cfg, Run(cfg, s, steps), step)
  {
    assert (steps + [step])[..|steps|] == steps;
  }

  lemma UnblockStep(cfg: Config, s: State, handle: int)
    requires Valid(s) && !s.aborted && |s.channels| == 1
    ensures var s' := Next(cfg, s, LineStep(0, 0, GcUnblocked(Some(handle))));
            !s'.aborted && s'.channels[0].calls == s.channels[0].calls
  {
  }

  lemma OfferedStep(cfg: Config, s: State, crn: int)
    requires Valid(s) && !s.aborted && |s.channels| == 1 && s.channels[0].calls == [NO_CALL]
    ensures var s' := Next(cfg, s, LineStep(0, crn, GcOffered(None, None, [])));
            !s'.aborted && s'.channels[0].pstate == PIdle && s'.channels[0].calls == [CallInfo(crn, SOffered)]
  {
    OfferedTouches(cfg, s, 0, crn, None, None, []);
  }

  lemma InterruptIdleStep(cfg: Config, s: State)
    requires Valid(s) && !s.aborted && |s.channels| == 1 && s.channels[0].pstate == PIdle
    ensures var s' := Next(cfg, s, InterruptStep);
            !s'.aborted && s'.interrupted && s'.channels == s.channels
  {
  }

  lemma RunToInterrupt(cfg: Config, crn: int, handle: int)
    ensures AllTakeable(1, OfferedThenInterrupted(crn, handle))
    ensures var s := Run(cfg, Init(1, 1), OfferedThenInterrupted(crn, handle));
            && !s.aborted && s.interrupted
            && s.channels[0].pstate == PIdle && s.channels[0].calls == [CallInfo(crn, SOffered)]
  {
    var s0, steps := Init(1, 1), OfferedThenInterrupted(crn, handle);
    assert [] + [steps[0]] == [steps[0]] && [steps[0]] + [steps[1]] == steps[..2] && steps[..2] + [steps[2]] == steps;
    RunSnoc(cfg, s0, [], steps[0]);
    UnblockStep(cfg, s0, handle);
    RunSnoc(cfg, s0, [steps[0]], steps[1]);
    OfferedStep(cfg, Run(cfg, s0, [steps[0]]), crn);
    RunSnoc(cfg, s0, steps[..2], steps[2]);
    InterruptIdleStep(cfg, Run(cfg, s0, steps[..2]));
  }

  lemma LateAnswerStep(cfg: Config, s: State, crn: int)
    requires Valid(s) && !s.aborted && s.interrupted && |s.channels| == 1 && cfg.mode == Autoresponder
    requires s.channels[0].pstate == PIdle && s.channels[0].calls == [CallInfo(crn, SOffered)]
    ensures PollSaysExit(cfg, s)
    ensures var s' := Next(cfg, s, LineStep(0, crn, GcAnswered(PlayStarts)));
            !s'.aborted && s'.channels[0].pstate == PPlay && !PollSaysExit(cfg, s')
  {
    assert GetCallNdx(s.channels[0].calls, crn) == Some(0);
    AnsweredPState(cfg, s, 0, crn, PlayStarts);
    ExitCondition(cfg, s);
    var s' := Next(cfg, s, LineStep(0, crn, GcAnswered(PlayStarts)));
    assert !s'.aborted && IsActive(s'.channels[0]);
    ExitCondition(cfg, s');
  }

  /**
   Such a step can come: a call is offered to the one channel, the shutdown is
   requested, and only then is the call reported answered.  Before the answer a
   poll would have ended the program; after it the program plays and waits again.
   */
  lemma AnsweredAfterDeinitPlays(cfg: Config, crn: int, handle: int)
    requires cfg.mode == Autoresponder
    ensures var steps, answer := OfferedThenInterrupted(crn, handle), LineStep(0, crn, GcAnswered(PlayStarts));
            && AllTakeable(1, steps) && AllTakeable(1, steps + [answer])
            && PollSaysExit(cfg, Run(cfg, Init(1, 1), steps))
            && var s' := Run(cfg, Init(1, 1), steps + [answer]);
               && !s'.aborted && s'.channels[0].pstate == PPlay && !PollSaysExit(cfg, s')
  {
    var steps, answer := OfferedThenInterrupted(crn, handle), LineStep(0, crn, GcAnswered(PlayStarts));
    RunToInterrupt(cfg, crn, handle);
    RunSnoc(cfg, Init(1, 1), steps, answer);
    LateAnswerStep(cfg, Run(cfg, Init(1, 1), steps), crn);
  }
}

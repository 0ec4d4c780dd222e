/**
 What the library still owes the call server: a channel that waits for its release
 has a hang-up or a release to be reported on.  Hence once the library has reported
 everything, the program ends.
 */
module CallOwed {
  import opened Bytes
  import opened Wire
  import opened CallSpec
  import opened CallLedger
  import CallTable
  import CallShutdown
  import Diversion

  // ---- what is owed ------------------------------------------------------------------------

  predicate IsDisconnectReport(step: Step, c: nat, crn: int) {
    step.LineStep? && step.index == c && step.crn == crn && step.line.GcDisconnected?
  }

  predicate IsDropReport(step: Step, c: nat, crn: int) {
    step.LineStep? && step.index == c && step.crn == crn && step.line.GcDropCall?
  }

  predicate IsReleaseReport(step: Step, c: nat, crn: int) {
    step.LineStep? && step.index == c && step.crn == crn && step.line.GcReleaseCall?
  }

  /** The step asked the library to hang the call up. */
  predicate HungUpBy(s: State, s': State, c: nat, crn: int)
    requires c < |s.logs| == |s'.logs|
  {
    Times(s'.logs[c], AHangUpOf(crn)) > Times(s.logs[c], AHangUpOf(crn))
  }

  /** Calls that a step leaves hung up with their release still to be reported. */
  ghost function OwingAfter(owing: iset<int>, s: State, s': State, step: Step, c: nat): iset<int>
    requires c < |s.logs| == |s'.logs|
  {
    iset crn | HungUpBy(s, s', c, crn) || (crn in owing && !IsReleaseReport(step, c, crn))
  }

  /** Calls of the channel that were hung up and not reported released since. */
  ghost function Owing(cfg: Config, s: State, steps: seq<Step>, c: nat): iset<int>
    requires Valid(s) && AllTakeable(|s.channels|, steps) && c < |s.channels|
    decreases |steps|
  {
    if steps == [] then iset{}
    else
      var before, step := steps[..|steps| - 1], steps[|steps| - 1];
      assert step in steps && forall x :: x in before ==> x in steps;
      var s1 := Run(cfg, s, before);
      OwingAfter(Owing(cfg, s, before, c), s1, Next(cfg, s1, step), step, c)
  }

  ghost function GoneAfter(gone: iset<int>, step: Step, c: nat): iset<int> {
    iset crn | IsDisconnectReport(step, c, crn) || (crn in gone && !IsDropReport(step, c, crn))
  }

  /** Calls of the channel that were reported disconnected and not reported dropped since. */
  ghost function Gone(steps: seq<Step>, c: nat): iset<int> {
    if steps == [] then iset{} else GoneAfter(Gone(steps[..|steps| - 1], c), steps[|steps| - 1], c)
  }

  /** The library reports the release of a disconnected call only after that it was dropped. */
  ghost predicate InOrder(steps: seq<Step>, c: nat) {
    forall k: nat, crn :: k < |steps| && IsReleaseReport(steps[k], c, crn) ==> crn !in Gone(steps[..k], c)
  }

  /**
   A channel waiting for its release has a call whose release is to be reported; and
   the disconnected calls of its table are to be reported dropped, and so released.
   */
  ghost predicate Owed(s: State, owing: iset<int>, gone: iset<int>, c: nat) {
    && c < |s.channels| == |s.logs|
    && gone <= owing
    && (s.channels[c].pstate == PReleasing ==> exists crn :: crn in owing)
    && (forall i :: 0 <= i < |s.channels[c].calls| && s.channels[c].calls[i].sstate == SDisconnected ==>
          s.channels[c].calls[i].crn != 0 && s.channels[c].calls[i].crn in gone)
  }

  ghost predicate DistinctCalls(calls: seq<CallInfo>) {
    forall i, j :: 0 <= i < j < |calls| && calls[i].crn != 0 ==> calls[i].crn != calls[j].crn
  }

  /** A step that reports nothing and keeps the table keeps what is owed, if it hangs up whenever it begins to wait. */
  lemma HangingUpKeepsOwed(s: State, s': State, owing: iset<int>, gone: iset<int>, step: Step, c: nat, crn: int)
    requires Owed(s, owing, gone, c) && |s'.channels| == |s'.logs| == |s.channels|
    requires s'.channels[c].calls == s.channels[c].calls && !(step.LineStep? && step.index == c)
    requires s'.channels[c].pstate == PReleasing && s.channels[c].pstate != PReleasing ==> HungUpBy(s, s', c, crn)
    ensures Owed(s', OwingAfter(owing, s, s', step, c), GoneAfter(gone, step, c), c)
  {
    if s'.channels[c].pstate == PReleasing {
      if s.channels[c].pstate == PReleasing {
        var n :| n in owing;
        assert n in OwingAfter(owing, s, s', step, c);
      } else {
        assert crn in OwingAfter(owing, s, s', step, c);
      }
    }
  }

  // ---- events of the line ----------------------------------------------------------------------

  lemma AnsweredWaits(cfg: Config, s: State, c: nat, crn: int, play: PlayResult)
    requires Has(s, c)
    ensures var s' := OnAnswered(cfg, s, c, crn, play);
            && |s'.channels| == |s.channels|
            && (s'.channels[c].pstate == PReleasing ==> s.channels[c].pstate == PReleasing)
  {
  }

  /** Of the events of a line only DISCONNECTED has a channel wait, and a release ends the waiting. */
  lemma LineWaits(cfg: Config, s: State, c: nat, crn: int, ev: GcEvent)
    requires Has(s, c) && !ev.GcDisconnected?
    ensures var s' := OnLine(cfg, s, c, crn, ev);
            && |s'.channels| == |s.channels|
            && (s'.channels[c].pstate == PReleasing ==> s.channels[c].pstate == PReleasing && !ev.GcReleaseCall?)
  {
    if ev.GcAnswered? {
      AnsweredWaits(cfg, s, c, crn, ev.play);
    }
  }

  /** A disconnected call in the table after an event was there before, untouched, or is the one disconnected now. */
  lemma DisconnectedEntry(ch: Channel, crn: int, ev: GcEvent, i: nat)
    requires |ch.calls| >= 1 && DistinctCalls(ch.calls) && (ev.GcDropCall? ==> crn != 0)
    requires i < |TableAfter(ch, crn, ev)| && TableAfter(ch, crn, ev)[i].sstate == SDisconnected
    ensures var entry := TableAfter(ch, crn, ev)[i];
            || (ev.GcDisconnected? && entry.crn == crn)
            || (entry in ch.calls && (ev.GcDropCall? ==> entry.crn != crn))
  {
    var ndx := GetCallNdx(ch.calls, crn);
    var entry := TableAfter(ch, crn, ev)[i];
    if ev.GcOffered? {
      assert i > 0 && entry == ch.calls[i - 1];
    } else if ndx.Some? && ndx.value == i {
    } else if !ev.GcResetLineDev? {
      assert entry == ch.calls[i];
    }
  }

  /** A call reported disconnected is hung up, or was before and is owed its release since. */
  lemma DisconnectedOwed(s: State, owing: iset<int>, gone: iset<int>, c: nat, crn: int)
    requires Has(s, c) && Owed(s, owing, gone, c)
    ensures var s' := OnDisconnected(s, c, crn);
            |s'.logs| == |s.logs| && (HungUpBy(s, s', c, crn) || crn in owing)
  {
    DisconnectedTimes(s, c, crn, AHangUpOf(crn));
    var ndx := GetCallNdx(s.channels[c].calls, crn);
    if ndx.Some? && s.channels[c].calls[ndx.value].sstate == SDisconnected {
      assert s.channels[c].calls[ndx.value].crn == crn;
    }
  }

  lemma LineKeepsOwed(cfg: Config, s: State, owing: iset<int>, gone: iset<int>, c: nat, crn: int, ev: GcEvent)
    requires Has(s, c) && Owed(s, owing, gone, c) && DistinctCalls(s.channels[c].calls)
    requires CallTable.AboutCall(ev) ==> crn != 0
    requires ev.GcReleaseCall? ==> crn !in gone
    ensures var s', step := OnLine(cfg, s, c, crn, ev), LineStep(c, crn, ev);
            && |s'.channels| == |s'.logs| == |s.channels| == |s.logs|
            && Owed(s', OwingAfter(owing, s, s', step, c), GoneAfter(gone, step, c), c)
  {
    LineTouches(cfg, s, c, crn, ev);
    LineTable(cfg, s, c, crn, ev);
    var s', step := OnLine(cfg, s, c, crn, ev), LineStep(c, crn, ev);
    var owing', gone' := OwingAfter(owing, s, s', step, c), GoneAfter(gone, step, c);
    if ev.GcDisconnected? {
      DisconnectedOwed(s, owing, gone, c, crn);
      assert crn in owing';
    } else {
      LineWaits(cfg, s, c, crn, ev);
      if s'.channels[c].pstate == PReleasing {
        var n :| n in owing;
        assert n in owing';
      }
    }
    var calls := s'.channels[c].calls;
    forall i: nat | i < |calls| && calls[i].sstate == SDisconnected ensures calls[i].crn != 0 && calls[i].crn in gone' {
      DisconnectedEntry(s.channels[c], crn, ev, i);
    }
  }

  // ---- all other steps -----------------------------------------------------------------------------

  lemma VoiceKeepsOwed(
      cfg: Config, s: State, owing: iset<int>, gone: iset<int>, step: Step, c: nat, ev: VoiceEvent)
    requires Has(s, c) && Owed(s, owing, gone, c) && step.VoiceStep?
    ensures var s' := OnVoice(cfg, s, c, ev);
            && |s'.logs| == |s.logs| && Owed(s', OwingAfter(owing, s, s', step, c), GoneAfter(gone, step, c), c)
  {
    VoiceTouches(cfg, s, c, ev);
    InitDisconnectTimes(s, c, Diversion.NormalClearing, AHangUpOf(s.channels[c].calls[0].crn));
    HangingUpKeepsOwed(s, OnVoice(cfg, s, c, ev), owing, gone, step, c, s.channels[c].calls[0].crn);
  }

  lemma CommandKeepsOwed(
      cfg: Config, s: State, owing: iset<int>, gone: iset<int>, step: Step, c: nat, cmd: Command, play: PlayResult)
    requires Has(s, c) && Owed(s, owing, gone, c) && step.PacketStep?
    ensures var s' := OnCommand(cfg, s, c, cmd, play);
            && |s'.logs| == |s.logs| && Owed(s', OwingAfter(owing, s, s', step, c), GoneAfter(gone, step, c), c)
  {
    CommandTouches(cfg, s, c, cmd, play);
    if cmd.Drop? {
      InitDisconnectTimes(s, c, Diversion.ToDialogic(cmd.reason), AHangUpOf(s.channels[c].calls[0].crn));
    }
    HangingUpKeepsOwed(s, OnCommand(cfg, s, c, cmd, play), owing, gone, step, c, s.channels[c].calls[0].crn);
  }

  lemma InterruptKeepsOwed(s: State, owing: iset<int>, gone: iset<int>, c: nat)
    requires Valid(s) && c < |s.channels| && Owed(s, owing, gone, c)
    ensures var s' := Deinit(s).(interrupted := true);
            Owed(s', OwingAfter(owing, s, s', InterruptStep, c), GoneAfter(gone, InterruptStep, c), c)
  {
    var crn := s.channels[c].calls[0].crn;
    DeinitTimes(s, c, AHangUpOf(crn));
    HangingUpKeepsOwed(s, Deinit(s).(interrupted := true), owing, gone, InterruptStep, c, crn);
  }

  /** A step that leaves the channel's calls alone and has nothing wait. */
  lemma OtherKeepsOwed(s: State, s': State, owing: iset<int>, gone: iset<int>, step: Step, c: nat)
    requires Owed(s, owing, gone, c) && |s'.channels| == |s'.logs| == |s.channels|
    requires s'.channels[c].calls == s.channels[c].calls && !(step.LineStep? && step.index == c)
    requires s'.channels[c].pstate == PReleasing ==> s.channels[c].pstate == PReleasing
    ensures Owed(s', OwingAfter(owing, s, s', step, c), GoneAfter(gone, step, c), c)
  {
    HangingUpKeepsOwed(s, s', owing, gone, step, c, 0);
  }

  lemma NextKeepsOwed(cfg: Config, s: State, owing: iset<int>, gone: iset<int>, step: Step, c: nat)
    requires Valid(s) && !s.aborted && Takeable(|s.channels|, step) && c < |s.channels|
    requires Owed(s, owing, gone, c) && DistinctCalls(s.channels[c].calls)
    requires step.LineStep? && step.index == c && CallTable.AboutCall(step.line) ==> step.crn != 0
    requires step.LineStep? && IsReleaseReport(step, c, step.crn) ==> step.crn !in gone
    ensures var s' := Next(cfg, s, step);
            Owed(s', OwingAfter(owing, s, s', step, c), GoneAfter(gone, step, c), c)
  {
    ResolvedIsApplicable(s, step);
    if Resolve(s, step).None? {
      OtherKeepsOwed(s, s, owing, gone, step, c);
    } else {
      match Resolve(s, step).value
      case OnTheLine(e, crn, ev) =>
        LineTouches(cfg, s, e, crn, ev);
        if e == c {
          assert ev.GcReleaseCall? ==> IsReleaseReport(step, c, crn);
          LineKeepsOwed(cfg, s, owing, gone, c, crn, ev);
        } else {
          OtherKeepsOwed(s, Next(cfg, s, step), owing, gone, step, c);
        }
      case OnTheVoice(e, ev) =>
        VoiceTouches(cfg, s, e, ev);
        if e == c {
          VoiceKeepsOwed(cfg, s, owing, gone, step, c, ev);
        } else {
          OtherKeepsOwed(s, Next(cfg, s, step), owing, gone, step, c);
        }
      case OnTheCommand(e, cmd, play) =>
        CommandTouches(cfg, s, e, cmd, play);
        if e == c {
          CommandKeepsOwed(cfg, s, owing, gone, step, c, cmd, play);
        } else {
          OtherKeepsOwed(s, Next(cfg, s, step), owing, gone, step, c);
        }
      case Interrupted => InterruptKeepsOwed(s, owing, gone, c);
      case Polled => OtherKeepsOwed(s, Next(cfg, s, step), owing, gone, step, c);
      case Thrown => OtherKeepsOwed(s, s.(aborted := true), owing, gone, step, c);
    }
  }

  // ---- over a run -------------------------------------------------------------------------------------

  lemma WindowDistinct(h: seq<CallTable.Registered>, size: nat)
    requires CallTable.Distinct(h)
    ensures DistinctCalls(CallTable.Window(h, size))
  {
    var w := CallTable.Window(h, size);
    forall i, j | 0 <= i < j < |w| && w[i].crn != 0 ensures w[i].crn != w[j].crn {
      assert w[i] == CallTable.Place(h, i) && w[j] == CallTable.Place(h, j);
    }
  }

  lemma ProperPrefix(steps: seq<Step>, c: nat)
    requires steps != [] && CallTable.ProperRun(steps, c)
    ensures var step := steps[|steps| - 1];
            && CallTable.ProperRun(steps[..|steps| - 1], c)
            && (step.LineStep? && step.index == c && CallTable.AboutCall(step.line) ==> step.crn != 0)
  {
    var n := |steps| - 1;
    var before := steps[..n];
    forall k: nat | k < n && before[k].LineStep? && before[k].index == c
      ensures CallTable.Proper(CallTable.History(before[..k], c), before[k].crn, before[k].line)
    {
      assert before[..k] == steps[..k] && before[k] == steps[k];
    }
  }

  lemma InOrderPrefix(steps: seq<Step>, c: nat)
    requires steps != [] && InOrder(steps, c)
    ensures InOrder(steps[..|steps| - 1], c)
    ensures var step := steps[|steps| - 1];
            step.LineStep? && IsReleaseReport(step, c, step.crn) ==> step.crn !in Gone(steps[..|steps| - 1], c)
  {
    var before := steps[..|steps| - 1];
    forall k: nat, crn | k < |before| && IsReleaseReport(before[k], c, crn) ensures crn !in Gone(before[..k], c) {
      assert before[..k] == steps[..k] && before[k] == steps[k];
    }
  }

  /** In every run with such a library, whatever waits is owed its report. */
  lemma {:induction false} RunOwed(cfg: Config, channelCount: nat, maxCalls: nat, steps: seq<Step>, c: nat)
    requires maxCalls >= 1 && c < channelCount && AllTakeable(channelCount, steps)
    requires CallTable.ProperRun(steps, c) && InOrder(steps, c)
    requires !Run(cfg, Init(channelCount, maxCalls), steps).aborted
    ensures var s0 := Init(channelCount, maxCalls);
            Owed(Run(cfg, s0, steps), Owing(cfg, s0, steps, c), Gone(steps, c), c)
    decreases |steps|
  {
    if steps != [] {
      var n, s0 := |steps| - 1, Init(channelCount, maxCalls);
      assert steps[n] in steps && forall step :: step in steps[..n] ==> step in steps;
      var s := Run(cfg, s0, steps[..n]);
      if s.aborted { AbortedStays(cfg, s, steps[n]); }
      ProperPrefix(steps, c);
      InOrderPrefix(steps, c);
      RunOwed(cfg, channelCount, maxCalls, steps[..n], c);
      CallTable.TableIsWindow(cfg, channelCount, maxCalls, steps[..n], c);
      WindowDistinct(CallTable.History(steps[..n], c), maxCalls);
      NextKeepsOwed(cfg, s, Owing(cfg, s0, steps[..n], c), Gone(steps[..n], c), steps[n], c);
    }
  }

  /** Once every hang-up of a channel was followed by the report of a release, the channel does not wait. */
  lemma ReportedNotWaiting(cfg: Config, channelCount: nat, maxCalls: nat, steps: seq<Step>, c: nat)
    requires maxCalls >= 1 && c < channelCount && AllTakeable(channelCount, steps)
    requires CallTable.ProperRun(steps, c) && InOrder(steps, c)
    requires !Run(cfg, Init(channelCount, maxCalls), steps).aborted
    requires Owing(cfg, Init(channelCount, maxCalls), steps, c) == iset{}
    ensures Run(cfg, Init(channelCount, maxCalls), steps).channels[c].pstate != PReleasing
  {
    RunOwed(cfg, channelCount, maxCalls, steps, c);
  }

  lemma RunOneMore(cfg: Config, s: State, steps: seq<Step>, step: Step, s1: State)
    requires Valid(s) && AllTakeable(|s.channels|, steps) && Takeable(|s.channels|, step)
    requires s1 == Run(cfg, s, steps)
    ensures AllTakeable(|s.channels|, steps + [step]) && Run(cfg, s, steps + [step]) == Next(cfg, s1, step)
  {
    CallShutdown.RunSnoc(cfg, s, steps, step);
  }

  lemma RunAppendOne(cfg: Config, s: State, a: seq<Step>, b: seq<Step>, step: Step)
    requires Valid(s) && AllTakeable(|s.channels|, a) && AllTakeable(|s.channels|, b) && Takeable(|s.channels|, step)
    requires AllTakeable(|s.channels|, a + b) && Run(cfg, s, a + b) == Run(cfg, Run(cfg, s, a), b)
    ensures AllTakeable(|s.channels|, a + (b + [step])) && AllTakeable(|s.channels|, b + [step])
    ensures Run(cfg, s, a + (b + [step])) == Run(cfg, Run(cfg, s, a), b + [step])
  {
    assert a + (b + [step]) == (a + b) + [step];
    RunOneMore(cfg, s, a + b, step, Run(cfg, s, a + b));
    RunOneMore(cfg, Run(cfg, s, a), b, step, Run(cfg, s, a + b));
  }

  lemma {:induction false} RunAppend(cfg: Config, s: State, a: seq<Step>, b: seq<Step>)
    requires Valid(s) && AllTakeable(|s.channels|, a) && AllTakeable(|s.channels|, b)
    ensures AllTakeable(|s.channels|, a + b) && Run(cfg, s, a + b) == Run(cfg, Run(cfg, s, a), b)
    decreases |b|
  {
    if b == [] {
      assert a + b == a;
    } else {
      var n := |b| - 1;
      assert b[n] in b && forall step :: step in b[..n] ==> step in b;
      RunAppend(cfg, s, a, b[..n]);
      RunAppendOne(cfg, s, a, b[..n], b[n]);
      assert b == b[..n] + [b[n]];
    }
  }

  /**
   A whole life of the program: any run, the shutdown request, and a quiet run after
   it.  If by then every hang-up, on every channel, was followed by the report of the
   call's release, the next poll ends the program.
   */
  lemma ReportedLibraryEnds(
      cfg: Config, channelCount: nat, maxCalls: nat, before: seq<Step>, after: seq<Step>)
    requires maxCalls >= 1 && AllTakeable(channelCount, before) && AllTakeable(channelCount, after)
    requires CallShutdown.AllQuiet(cfg, after) && AllTakeable(channelCount, before + [InterruptStep] + after)
    requires var steps := before + [InterruptStep] + after;
             && !Run(cfg, Init(channelCount, maxCalls), steps).aborted
             && forall c: nat :: c < channelCount ==>
                  && CallTable.ProperRun(steps, c) && InOrder(steps, c)
                  && Owing(cfg, Init(channelCount, maxCalls), steps, c) == iset{}
    ensures CallShutdown.PollSaysExit(cfg, Run(cfg, Init(channelCount, maxCalls), before + [InterruptStep] + after))
  {
    var s0, steps := Init(channelCount, maxCalls), before + [InterruptStep] + after;
    var s := Run(cfg, s0, steps);
    CallShutdown.RunSnoc(cfg, s0, before, InterruptStep);
    RunAppend(cfg, s0, before + [InterruptStep], after);
    AfterInterrupt(cfg, Run(cfg, s0, before), after);
    forall c: nat | c < channelCount ensures s.channels[c].pstate != PReleasing {
      ReportedNotWaiting(cfg, channelCount, maxCalls, steps, c);
    }
    CallShutdown.ExitCondition(cfg, s);
  }

  lemma AfterInterrupt(cfg: Config, s: State, after: seq<Step>)
    requires Valid(s) && AllTakeable(|s.channels|, after) && CallShutdown.AllQuiet(cfg, after)
    requires !Run(cfg, Next(cfg, s, InterruptStep), after).aborted
    ensures var s' := Run(cfg, Next(cfg, s, InterruptStep), after);
            s'.interrupted && CallShutdown.NoneActive(s')
  {
    AbortedStaysInRun(cfg, Next(cfg, s, InterruptStep), after);
    CallShutdown.DeinitReleases(cfg, s);
    CallShutdown.QuietRunShut(cfg, Next(cfg, s, InterruptStep), after);
  }

  lemma {:induction false} AbortedStaysInRun(cfg: Config, s: State, steps: seq<Step>)
    requires Valid(s) && AllTakeable(|s.channels|, steps)
    ensures s.aborted ==> Run(cfg, s, steps).aborted
    decreases |steps|
  {
    if steps != [] {
      var n := |steps| - 1;
      assert steps[n] in steps && forall step :: step in steps[..n] ==> step in steps;
      AbortedStaysInRun(cfg, s, steps[..n]);
      if s.aborted { AbortedStays(cfg, Run(cfg, s, steps[..n]), steps[n]); }
    }
  }
}

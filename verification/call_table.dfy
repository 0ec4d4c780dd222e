/**
 The call table of a channel, which holds only the latest few calls, against an
 account that forgets nothing.
 */
module CallTable {
  import opened Bytes
  import opened CallSpec
  import opened CallSessions

  /** A call as a full account would keep it. */
  datatype Registered = Registered(crn: int, sstate: SState, released: bool)

  /** A change of state goes to the call with that number that is still there. */
  function Mark(h: seq<Registered>, crn: int, sstate: SState): (r: seq<Registered>)
    ensures |r| == |h|
  {
    seq(|h|, i requires 0 <= i < |h| =>
      if h[i].crn == crn && !h[i].released then h[i].(sstate := sstate) else h[i])
  }

  function Release(h: seq<Registered>, crn: int): (r: seq<Registered>)
    ensures |r| == |h|
  {
    seq(|h|, i requires 0 <= i < |h| =>
      if h[i].crn == crn && h[i].sstate == SIdle then h[i].(released := true) else h[i])
  }

  /** The account after one event of the line; a reset begins a new one. */
  function Account(h: seq<Registered>, crn: int, ev: GcEvent): seq<Registered> {
    match ev
    case GcOffered(_, _, _) => h + [Registered(crn, SOffered, false)]
    case GcAccept => Mark(h, crn, SAccepted)
    case GcAnswered(_) => Mark(h, crn, SConnected)
    case GcConnected => Mark(h, crn, SConnected)
    case GcDisconnected => Mark(h, crn, SDisconnected)
    case GcDropCall(_) => Mark(h, crn, SIdle)
    case GcReleaseCall => Release(h, crn)
    case GcResetLineDev => []
    case _ => h
  }

  /** The account that a run gives of channel `c`. */
  function History(steps: seq<Step>, c: nat): seq<Registered> {
    if steps == [] then []
    else
      var n := |steps| - 1;
      var h := History(steps[..n], c);
      if steps[n].LineStep? && steps[n].index == c then Account(h, steps[n].crn, steps[n].line) else h
  }

  /** Events about a call; the others take no notice of the number they come with. */
  predicate AboutCall(ev: GcEvent) {
    || ev.GcOffered? || ev.GcAccept? || ev.GcAnswered? || ev.GcConnected?
    || ev.GcDisconnected? || ev.GcDropCall? || ev.GcReleaseCall?
  }

  /** Numbers of calls are not 0, and a new call's number was not used since the last reset. */
  ghost predicate Proper(h: seq<Registered>, crn: int, ev: GcEvent) {
    && (AboutCall(ev) ==> crn != 0)
    && (ev.GcOffered? ==> forall i :: 0 <= i < |h| ==> h[i].crn != crn)
  }

  ghost predicate ProperRun(steps: seq<Step>, c: nat) {
    forall k: nat :: k < |steps| && steps[k].LineStep? && steps[k].index == c
      ==> Proper(History(steps[..k], c), steps[k].crn, steps[k].line)
  }

  ghost predicate Distinct(h: seq<Registered>) {
    && (forall i :: 0 <= i < |h| ==> h[i].crn != 0)
    && (forall i, j :: 0 <= i < j < |h| ==> h[i].crn != h[j].crn)
  }

  /** Place `i` of the table: the i-th latest call, blank once released or if there is none. */
  function Place(h: seq<Registered>, i: nat): CallInfo {
    if i >= |h| then NO_CALL
    else
      var call := h[|h| - 1 - i];
      if call.released then NO_CALL else CallInfo(call.crn, call.sstate)
  }

  /** The table that the account calls for. */
  function Window(h: seq<Registered>, size: nat): seq<CallInfo> {
    seq(size, i requires 0 <= i < size => Place(h, i))
  }

  /** The i-th latest call has this number, is recent enough for the table, and was not released. */
  predicate Live(h: seq<Registered>, size: nat, crn: int, i: nat) {
    i < size && i < |h| && h[|h| - 1 - i].crn == crn && !h[|h| - 1 - i].released
  }

  /** A number is found in the window exactly if its call is recent enough and not released. */
  lemma FoundInWindow(h: seq<Registered>, size: nat, crn: int, i: nat)
    requires Distinct(h) && crn != 0
    ensures GetCallNdx(Window(h, size), crn) == Some(i) <==> Live(h, size, crn, i)
  {
    var w := Window(h, size);
    if Live(h, size, crn, i) {
      assert w[i].crn == crn;
      forall j | 0 <= j < size && j != i ensures w[j].crn != crn {
        assert w[j] == Place(h, j);
      }
    }
  }

  lemma FoundInTable(calls: seq<CallInfo>, h: seq<Registered>, size: nat, crn: int, i: nat)
    requires Distinct(h) && crn != 0 && calls == Window(h, size)
    ensures GetCallNdx(calls, crn) == Some(i) <==> Live(h, size, crn, i)
  {
    FoundInWindow(h, size, crn, i);
  }

  lemma MarkedPlace(h: seq<Registered>, ch: Channel, crn: int, sstate: SState, i: nat)
    requires Distinct(h) && crn != 0 && ch.calls == Window(h, |ch.calls|) && i < |ch.calls|
    ensures |WithSState(ch, crn, sstate).calls| == |ch.calls|
    ensures WithSState(ch, crn, sstate).calls[i] == Place(Mark(h, crn, sstate), i)
  {
    var ndx := GetCallNdx(ch.calls, crn);
    FoundInWindow(h, |ch.calls|, crn, i);
    assert ch.calls[i] == Place(h, i);
    if ndx == Some(i) {
      assert WithSState(ch, crn, sstate).calls[i] == CallInfo(crn, sstate);
    } else {
      assert WithSState(ch, crn, sstate).calls[i] == ch.calls[i];
    }
  }

  lemma MarkWindow(h: seq<Registered>, ch: Channel, crn: int, sstate: SState)
    requires Distinct(h) && crn != 0 && ch.calls == Window(h, |ch.calls|)
    ensures WithSState(ch, crn, sstate).calls == Window(Mark(h, crn, sstate), |ch.calls|)
    ensures Distinct(Mark(h, crn, sstate))
  {
    var calls := WithSState(ch, crn, sstate).calls;
    forall i: nat | i < |ch.calls| ensures |calls| == |ch.calls| && calls[i] == Place(Mark(h, crn, sstate), i) {
      MarkedPlace(h, ch, crn, sstate, i);
    }
  }

  lemma ReleaseWindow(h: seq<Registered>, calls: seq<CallInfo>, crn: int)
    requires Distinct(h) && crn != 0 && calls == Window(h, |calls|)
    ensures Released(calls, crn) == Window(Release(h, crn), |calls|)
    ensures Distinct(Release(h, crn))
  {
    var size := |calls|;
    var ndx := GetCallNdx(calls, crn);
    forall i: nat { FoundInWindow(h, size, crn, i); }
    forall i: nat | i < size ensures Released(calls, crn)[i] == Place(Release(h, crn), i) {
      assert calls[i] == Place(h, i);
      assert ndx == Some(i) <==> Live(h, size, crn, i);
    }
  }

  lemma RegisterWindow(h: seq<Registered>, calls: seq<CallInfo>, crn: int)
    requires Distinct(h) && |calls| >= 1 && calls == Window(h, |calls|)
    requires crn != 0 && forall i :: 0 <= i < |h| ==> h[i].crn != crn
    ensures RegNewCall(calls, crn, SOffered) == Window(h + [Registered(crn, SOffered, false)], |calls|)
    ensures Distinct(h + [Registered(crn, SOffered, false)])
  {
    forall i: nat | i < |calls|
      ensures RegNewCall(calls, crn, SOffered)[i] == Place(h + [Registered(crn, SOffered, false)], i)
    {
      if i > 0 { assert calls[i - 1] == Place(h, i - 1); }
    }
  }

  /** The table follows the account through one event. */
  lemma TableFollows(ch: Channel, h: seq<Registered>, crn: int, ev: GcEvent)
    requires |ch.calls| >= 1 && Distinct(h) && ch.calls == Window(h, |ch.calls|) && Proper(h, crn, ev)
    ensures TableAfter(ch, crn, ev) == Window(Account(h, crn, ev), |ch.calls|)
    ensures Distinct(Account(h, crn, ev))
  {
    match ev
    case GcOffered(_, _, _) => RegisterWindow(h, ch.calls, crn);
    case GcAccept => MarkWindow(h, ch, crn, SAccepted);
    case GcAnswered(_) => MarkWindow(h, ch, crn, SConnected);
    case GcConnected => MarkWindow(h, ch, crn, SConnected);
    case GcDisconnected => MarkWindow(h, ch, crn, SDisconnected);
    case GcDropCall(_) => MarkWindow(h, ch, crn, SIdle);
    case GcReleaseCall => ReleaseWindow(h, ch.calls, crn);
    case GcResetLineDev =>
    case _ =>
  }

  /** Only events of its own line change a channel's table. */
  lemma OtherStepsKeepTable(cfg: Config, s: State, step: Step, c: nat)
    requires Valid(s) && Takeable(|s.channels|, step) && c < |s.channels|
    requires !(step.LineStep? && step.index == c)
    ensures Next(cfg, s, step).channels[c].calls == s.channels[c].calls
  {
    ResolvedIsApplicable(s, step);
    if !s.aborted && Resolve(s, step).Some? {
      match Resolve(s, step).value
      case OnTheLine(e, crn, ev) => LineTouches(cfg, s, e, crn, ev);
      case OnTheVoice(e, ev) => VoiceTouches(cfg, s, e, ev);
      case OnTheCommand(e, cmd, play) =>
        CommandTouches(cfg, s, e, cmd, play);
        CommandCalls(cfg, s, e, cmd, play);
      case Interrupted =>
      case Polled =>
      case Thrown =>
    }
  }

  /**
   In every run, place `i` of a channel's table holds the i-th latest call
   offered since the last reset, or is blank if that call has been released from
   SState IDLE: the table is a window on the full account, for any table size.
   */
  lemma {:induction false} TableIsWindow(cfg: Config, channelCount: nat, maxCalls: nat, steps: seq<Step>, c: nat)
    requires maxCalls >= 1 && c < channelCount && AllTakeable(channelCount, steps) && ProperRun(steps, c)
    requires !Run(cfg, Init(channelCount, maxCalls), steps).aborted
    ensures Run(cfg, Init(channelCount, maxCalls), steps).channels[c].calls == Window(History(steps, c), maxCalls)
    ensures Distinct(History(steps, c))
    decreases |steps|
  {
    if steps != [] {
      var n := |steps| - 1;
      var before, step := steps[..n], steps[n];
      assert steps[n] in steps && forall step :: step in before ==> step in steps;
      assert ProperRun(before, c) by {
        forall k: nat | k < n && before[k].LineStep? && before[k].index == c
          ensures Proper(History(before[..k], c), before[k].crn, before[k].line)
        {
          assert before[..k] == steps[..k] && before[k] == steps[k];
        }
      }
      TableIsWindow(cfg, channelCount, maxCalls, before, c);
      var s := Run(cfg, Init(channelCount, maxCalls), before);
      if step.LineStep? && step.index == c {
        LineTable(cfg, s, c, step.crn, step.line);
        TableFollows(s.channels[c], History(before, c), step.crn, step.line);
      } else {
        OtherStepsKeepTable(cfg, s, step, c);
      }
    }
  }

  /** A live call number is found at its recency exactly if it is among the latest `maxCalls`. */
  lemma CallFound(cfg: Config, channelCount: nat, maxCalls: nat, steps: seq<Step>, c: nat, crn: int, i: nat)
    requires maxCalls >= 1 && c < channelCount && AllTakeable(channelCount, steps) && ProperRun(steps, c)
    requires !Run(cfg, Init(channelCount, maxCalls), steps).aborted && crn != 0
    ensures GetCallNdx(Run(cfg, Init(channelCount, maxCalls), steps).channels[c].calls, crn) == Some(i)
            <==> Live(History(steps, c), maxCalls, crn, i)
  {
    TableIsWindow(cfg, channelCount, maxCalls, steps, c);
    FoundInTable(Run(cfg, Init(channelCount, maxCalls), steps).channels[c].calls, History(steps, c), maxCalls, crn, i);
  }
}

/**
 Channels do not disturb each other: what becomes of a channel over any run is
 what becomes of it when only its own steps and the broadcasts are taken.
 */
module CallProjection {
  import opened Bytes
  import opened Wire
  import opened CallSpec
  import opened CallSessions
  import Sessions
  import Diversion

  // ---- runs of steps whose channel has been found ----------------------------------

  ghost predicate AllApplicable(channelCount: nat, ds: seq<Direct>) {
    forall d :: d in ds ==> Applicable(channelCount, d)
  }

  ghost function RunDirect(cfg: Config, s: State, ds: seq<Direct>): (s': State)
    requires Valid(s) && AllApplicable(|s.channels|, ds)
    ensures Valid(s') && |s'.channels| == |s.channels|
    decreases |ds|
  {
    if ds == [] then s
    else
      var n := |ds| - 1;
      assert ds[n] in ds && forall d :: d in ds[..n] ==> d in ds;
      var s1 := RunDirect(cfg, s, ds[..n]);
      ApplyKeepsValid(cfg, s1, ds[n]);
      Apply(cfg, s1, ds[n])
  }

  /** The steps of a run that found a channel, each with the channel it found. */
  ghost function Directs(cfg: Config, s: State, steps: seq<Step>): (ds: seq<Direct>)
    requires Valid(s) && AllTakeable(|s.channels|, steps)
    ensures AllApplicable(|s.channels|, ds)
    decreases |steps|
  {
    if steps == [] then []
    else
      var n := |steps| - 1;
      assert steps[n] in steps && forall step :: step in steps[..n] ==> step in steps;
      var s1 := Run(cfg, s, steps[..n]);
      var d := Resolve(s1, steps[n]);
      ResolvedIsApplicable(s1, steps[n]);
      Directs(cfg, s, steps[..n]) + (if d.Some? then [d.value] else [])
  }

  lemma RunDirectSnoc(cfg: Config, s: State, ds: seq<Direct>, d: Direct)
    requires Valid(s) && AllApplicable(|s.channels|, ds) && Applicable(|s.channels|, d)
    ensures AllApplicable(|s.channels|, ds + [d])
    ensures RunDirect(cfg, s, ds + [d]) == Apply(cfg, RunDirect(cfg, s, ds), d)
  {
    assert (ds + [d])[..|ds|] == ds;
  }

  lemma {:induction false} RunIsRunDirect(cfg: Config, s: State, steps: seq<Step>)
    requires Valid(s) && AllTakeable(|s.channels|, steps)
    ensures Run(cfg, s, steps) == RunDirect(cfg, s, Directs(cfg, s, steps))
    decreases |steps|
  {
    if steps != [] {
      var n := |steps| - 1;
      assert steps[n] in steps && forall step :: step in steps[..n] ==> step in steps;
      RunIsRunDirect(cfg, s, steps[..n]);
      var s1 := Run(cfg, s, steps[..n]);
      var d := Resolve(s1, steps[n]);
      ResolvedIsApplicable(s1, steps[n]);
      if d.Some? {
        RunDirectSnoc(cfg, s, Directs(cfg, s, steps[..n]), d.value);
      } else {
        assert Directs(cfg, s, steps[..n]) + [] == Directs(cfg, s, steps[..n]);
      }
    }
  }

  // ---- the projection ----------------------------------------------------------------

  /** Addressed to channel `c`, or to all. */
  predicate Concerns(d: Direct, c: nat) {
    d.OnTheLine? || d.OnTheVoice? || d.OnTheCommand? ==> d.c == c
  }

  function Project(ds: seq<Direct>, c: nat): seq<Direct> {
    if ds == [] then []
    else
      var n := |ds| - 1;
      Project(ds[..n], c) + (if Concerns(ds[n], c) then [ds[n]] else [])
  }

  /** Session numbers depend on the other channels; the rest of a message does not. */
  function Anonymous(a: Action): Action {
    if a.Notify? then a.(session := 0) else a
  }

  function AnonymousLog(log: seq<Action>): seq<Action> {
    seq(|log|, i requires 0 <= i < |log| => Anonymous(log[i]))
  }

  lemma AnonymousAppend(log: seq<Action>, more: seq<Action>)
    ensures AnonymousLog(log + more) == AnonymousLog(log) + AnonymousLog(more)
  {
  }

  predicate Known(s: State, c: nat) {
    Sessions.SessionOf(s.sessions, c) != Sessions.UNKNOWN_SESSION
  }

  /** Two states that channel `c` cannot tell apart. */
  ghost predicate Agree(a: State, b: State, c: nat) {
    && c < |a.channels| == |b.channels| == |a.logs| == |b.logs|
    && a.channels[c] == b.channels[c]
    && AnonymousLog(a.logs[c]) == AnonymousLog(b.logs[c])
    && Known(a, c) == Known(b, c)
    && a.interrupted == b.interrupted && a.aborted == b.aborted
  }

  /** Sessions are still handed out by counting up. */
  predicate Counting(s: State) {
    s.sessions.lastSession < Sessions.UNKNOWN_SESSION
  }

  // A step of another channel goes unnoticed.
  lemma OtherUnnoticed(cfg: Config, s: State, d: Direct, c: nat)
    requires Valid(s) && Applicable(|s.channels|, d) && c < |s.channels| && !Concerns(d, c)
    requires !Apply(cfg, s, d).aborted
    ensures Agree(s, Apply(cfg, s, d), c)
  {
    if !s.aborted {
      match d
      case OnTheLine(e, crn, ev) => LineTouches(cfg, s, e, crn, ev);
      case OnTheVoice(e, ev) => VoiceTouches(cfg, s, e, ev);
      case OnTheCommand(e, cmd, play) => CommandTouches(cfg, s, e, cmd, play);
    }
  }

  // ---- a step of the channel itself does the same in both states ------------------------

  lemma SameDo(a: State, b: State, c: nat, x: Action, y: Action)
    requires Agree(a, b, c) && Anonymous(x) == Anonymous(y)
    ensures Agree(Do(a, c, x), Do(b, c, y), c)
  {
    AnonymousAppend(a.logs[c], [x]);
    AnonymousAppend(b.logs[c], [y]);
  }

  lemma SamePut(a: State, b: State, c: nat, ch: Channel)
    requires Agree(a, b, c)
    ensures Agree(Put(a, c, ch), Put(b, c, ch), c)
  {
  }

  lemma SamePlay(a: State, b: State, c: nat, fragment: Text, play: PlayResult)
    requires Agree(a, b, c) && Has(a, c) && Has(b, c)
    ensures Agree(PlayFragment(a, c, fragment, play).0, PlayFragment(b, c, fragment, play).0, c)
  {
    var ch := a.channels[c].(pstate := PPlay, playing := true);
    SamePut(a, b, c, ch);
    SameDo(a, b, c, PlayData(fragment, false), PlayData(fragment, false));
    SameDo(Put(a, c, ch), Put(b, c, ch), c, PlayData(fragment, true), PlayData(fragment, true));
  }

  lemma SameNotify(a: State, b: State, c: nat, e: Event)
    requires Agree(a, b, c) && Has(a, c) && Has(b, c)
    ensures Agree(NotifyScp(a, c, e), NotifyScp(b, c, e), c)
  {
    if Known(a, c) {
      SameDo(a, b, c, Notify(Sessions.SessionOf(a.sessions, c), e), Notify(Sessions.SessionOf(b.sessions, c), e));
    }
  }

  lemma SameOffered(cfg: Config, a: State, b: State, c: nat, crn: int, ev: GcEvent)
    requires Agree(a, b, c) && Has(a, c) && Has(b, c) && Counting(a) && Counting(b) && ev.GcOffered?
    ensures Agree(OnLine(cfg, a, c, crn, ev), OnLine(cfg, b, c, crn, ev), c)
  {
    var r := Diversion.Redirect(ev.params, []);
    var ch := OfferedChannel(a.channels[c], crn, ev.dest, ev.orig, r);
    var a1 := Put(a, c, ch).(stUsed := a.stUsed + 1, stCallCnt := a.stCallCnt + 1);
    var b1 := Put(b, c, ch).(stUsed := b.stUsed + 1, stCallCnt := b.stCallCnt + 1);
    if cfg.mode == Ssp {
      var e := EvOffered(Offered(ch.cgpn, ch.cdpn, ch.rdpn, r.code));
      SameDo(a1.(sessions := Sessions.Create(a.sessions, c)), b1.(sessions := Sessions.Create(b.sessions, c)), c,
             Notify(a.sessions.lastSession, e), Notify(b.sessions.lastSession, e));
    } else if cfg.sendCallAck {
      SameDo(a1, b1, c, CallAck(crn), CallAck(crn));
    } else {
      SameDo(a1, b1, c, AcceptOrAnswer(cfg, crn), AcceptOrAnswer(cfg, crn));
    }
  }

  lemma SameAnswered(cfg: Config, a: State, b: State, c: nat, crn: int, play: PlayResult)
    requires Agree(a, b, c) && Has(a, c) && Has(b, c)
    ensures Agree(OnAnswered(cfg, a, c, crn, play), OnAnswered(cfg, b, c, crn, play), c)
  {
    var hangUp := HangUp(crn, Diversion.NormalClearing);
    if GetCallNdx(a.channels[c].calls, crn).None? {
      SameDo(a, b, c, hangUp, hangUp);
    } else {
      var ch := WithSState(a.channels[c], crn, SConnected);
      var a1, b1 := Put(a, c, ch), Put(b, c, ch);
      SamePut(a, b, c, ch);
      match cfg.mode
      case Autoresponder =>
        SamePlay(a1, b1, c, cfg.defaultFragment, play);
        SameDo(PlayFragment(a1, c, cfg.defaultFragment, play).0, PlayFragment(b1, c, cfg.defaultFragment, play).0,
               c, hangUp, hangUp);
      case Ssp => SameNotify(a1, b1, c, EvAnswered);
      case Unsupported => SameDo(a1, b1, c, hangUp, hangUp);
    }
  }

  lemma SameUnblocked(a: State, b: State, c: nat, handle: Option<int>)
    requires Agree(a, b, c) && Has(a, c) && Has(b, c)
    ensures Agree(OnUnblocked(a, c, handle), OnUnblocked(b, c, handle), c)
  {
    AnonymousAppend(a.logs[c], [WaitCall]);
    AnonymousAppend(b.logs[c], [WaitCall]);
  }

  lemma SameDropCall(a: State, b: State, c: nat, crn: int, voiceBusy: bool)
    requires Agree(a, b, c) && Has(a, c) && Has(b, c)
    ensures Agree(OnDropCall(a, c, crn, voiceBusy), OnDropCall(b, c, crn, voiceBusy), c)
  {
    SameDo(a, b, c, StopVoice, StopVoice);
    var ch := WithSState(a.channels[c], crn, SIdle);
    var a1, b1 := if voiceBusy then Do(a, c, StopVoice) else a, if voiceBusy then Do(b, c, StopVoice) else b;
    SameDo(Put(a1, c, ch), Put(b1, c, ch), c, ReleaseCall(crn), ReleaseCall(crn));
  }

  lemma SameDisconnected(a: State, b: State, c: nat, crn: int)
    requires Agree(a, b, c) && Has(a, c) && Has(b, c)
    ensures Agree(OnDisconnected(a, c, crn), OnDisconnected(b, c, crn), c)
  {
    var ch := WithSState(a.channels[c].(pstate := PReleasing), crn, SDisconnected);
    var hangUp := HangUp(crn, Diversion.NormalClearing);
    SameDo(Put(a, c, ch), Put(b, c, ch), c, hangUp, hangUp);
  }

  /** A new record for the channel and one call made for it. */
  lemma SamePutDo(a: State, b: State, c: nat, ch: Channel, x: Action)
    requires Agree(a, b, c)
    ensures Agree(Do(Put(a, c, ch), c, x), Do(Put(b, c, ch), c, x), c)
  {
    SameDo(Put(a, c, ch), Put(b, c, ch), c, x, x);
  }

  lemma SameLine(cfg: Config, a: State, b: State, c: nat, crn: int, ev: GcEvent)
    requires Agree(a, b, c) && Has(a, c) && Has(b, c)
    requires ev.GcOffered? ==> Counting(a) && Counting(b)
    ensures Agree(OnLine(cfg, a, c, crn, ev), OnLine(cfg, b, c, crn, ev), c)
  {
    var ch := a.channels[c];
    match ev
    case GcOffered(_, _, _) => SameOffered(cfg, a, b, c, crn, ev);
    case GcAnswered(play) => SameAnswered(cfg, a, b, c, crn, play);
    case GcUnblocked(handle) => SameUnblocked(a, b, c, handle);
    case GcCallProc => SameDo(a, b, c, AcceptOrAnswer(cfg, crn), AcceptOrAnswer(cfg, crn));
    case GcAccept => SamePutDo(a, b, c, WithSState(ch, crn, SAccepted), AnswerCall(crn));
    case GcConnected => SamePutDo(a, b, c, WithSState(ch, crn, SConnected), HangUp(crn, Diversion.NormalClearing));
    case GcDisconnected => SameDisconnected(a, b, c, crn);
    case GcDropCall(voiceBusy) => SameDropCall(a, b, c, crn, voiceBusy);
    case GcReleaseCall =>
    case GcResetLineDev => SamePutDo(a, b, c, ch.(calls := seq(|ch.calls|, i => NO_CALL)), WaitCall);
    case GcTaskFail => SamePutDo(a, b, c, ch.(blocked := false), ResetLine);
    case GcOther =>
  }

  lemma SameDisconnect(a: State, b: State, c: nat, reason: Diversion.DropReason)
    requires Agree(a, b, c) && Has(a, c) && Has(b, c)
    ensures Agree(InitDisconnect(a, c, reason), InitDisconnect(b, c, reason), c)
  {
    var ch := a.channels[c].(pstate := PReleasing);
    var hangUp := HangUp(ch.calls[0].crn, reason);
    SameDo(Put(a, c, ch), Put(b, c, ch), c, hangUp, hangUp);
  }

  lemma SameVoice(cfg: Config, a: State, b: State, c: nat, ev: VoiceEvent)
    requires Agree(a, b, c) && Has(a, c) && Has(b, c)
    ensures Agree(OnVoice(cfg, a, c, ev), OnVoice(cfg, b, c, ev), c)
  {
    if ev.PlayDone? {
      SameDisconnect(a, b, c, Diversion.NormalClearing);
      SameNotify(a, b, c, EvPlayFinished(ev.mask));
    }
  }

  lemma SameCommand(cfg: Config, a: State, b: State, c: nat, cmd: Command, play: PlayResult)
    requires Agree(a, b, c) && Has(a, c) && Has(b, c)
    ensures Agree(OnCommand(cfg, a, c, cmd, play), OnCommand(cfg, b, c, cmd, play), c)
  {
    match cmd
    case Answer =>
      var x := AcceptOrAnswer(cfg, a.channels[c].calls[0].crn);
      SameDo(a, b, c, x, x);
    case Play(fragment) => SamePlay(a, b, c, fragment, play);
    case Drop(reason) => SameDisconnect(a, b, c, Diversion.ToDialogic(reason));
  }

  lemma SameShutdown(a: State, b: State, c: nat)
    requires Agree(a, b, c) && Valid(a) && Valid(b)
    ensures Agree(Deinit(a).(interrupted := true), Deinit(b).(interrupted := true), c)
    ensures Agree(Close(a), Close(b), c)
  {
    AnonymousAppend(a.logs[c], DeinitActions(a.channels[c]));
    AnonymousAppend(b.logs[c], DeinitActions(b.channels[c]));
    AnonymousAppend(a.logs[c], CloseActions(a.channels[c]));
    AnonymousAppend(b.logs[c], CloseActions(b.channels[c]));
  }

  predicate Offering(d: Direct) {
    d.OnTheLine? && d.line.GcOffered?
  }

  lemma SameApply(cfg: Config, a: State, b: State, d: Direct, c: nat)
    requires Agree(a, b, c) && Valid(a) && Valid(b)
    requires Applicable(|a.channels|, d) && Concerns(d, c)
    requires Offering(d) ==> Counting(a) && Counting(b)
    ensures Agree(Apply(cfg, a, d), Apply(cfg, b, d), c)
  {
    if !a.aborted {
      match d
      case OnTheLine(_, crn, ev) => SameLine(cfg, a, b, c, crn, ev);
      case OnTheVoice(_, ev) => SameVoice(cfg, a, b, c, ev);
      case OnTheCommand(_, cmd, play) => SameCommand(cfg, a, b, c, cmd, play);
      case Interrupted => SameShutdown(a, b, c);
      case Polled => SameShutdown(a, b, c);
      case Thrown =>
    }
  }

  // ---- the main result --------------------------------------------------------------------------

  /** Calls offered among resolved steps. */
  function DirectOffers(ds: seq<Direct>): nat {
    if ds == [] then 0
    else
      var n := |ds| - 1;
      DirectOffers(ds[..n]) + (if Offering(ds[n]) then 1 else 0)
  }

  lemma ApplyCounts(cfg: Config, s: State, d: Direct)
    requires Valid(s) && Applicable(|s.channels|, d) && s.sessions.lastSession < Sessions.UNKNOWN_SESSION
    ensures Apply(cfg, s, d).sessions.lastSession
            <= s.sessions.lastSession + (if Offering(d) then 1 else 0)
  {
    if !s.aborted {
      match d
      case OnTheLine(c, crn, ev) => LineTouches(cfg, s, c, crn, ev);
      case OnTheVoice(c, ev) => VoiceTouches(cfg, s, c, ev);
      case OnTheCommand(c, cmd, play) => CommandTouches(cfg, s, c, cmd, play);
      case Interrupted =>
      case Polled =>
      case Thrown =>
    }
  }

  lemma {:induction false} ProjectKeeps(ds: seq<Direct>, c: nat, channelCount: nat)
    requires AllApplicable(channelCount, ds)
    ensures AllApplicable(channelCount, Project(ds, c))
    ensures DirectOffers(Project(ds, c)) <= DirectOffers(ds)
  {
    if ds != [] {
      var n := |ds| - 1;
      assert ds[n] in ds && forall d :: d in ds[..n] ==> d in ds;
      ProjectKeeps(ds[..n], c, channelCount);
      if Concerns(ds[n], c) {
        assert Project(ds, c)[..|Project(ds[..n], c)|] == Project(ds[..n], c);
      } else {
        assert Project(ds[..n], c) + [] == Project(ds[..n], c);
      }
    }
  }

  lemma {:induction false} RunCounts(cfg: Config, s: State, ds: seq<Direct>)
    requires Valid(s) && AllApplicable(|s.channels|, ds)
    requires s.sessions.lastSession + DirectOffers(ds) <= Sessions.UNKNOWN_SESSION
    ensures RunDirect(cfg, s, ds).sessions.lastSession <= s.sessions.lastSession + DirectOffers(ds)
    decreases |ds|
  {
    if ds != [] {
      var n := |ds| - 1;
      assert ds[n] in ds && forall d :: d in ds[..n] ==> d in ds;
      RunCounts(cfg, s, ds[..n]);
      var s1 := RunDirect(cfg, s, ds[..n]);
      if s1.sessions.lastSession < Sessions.UNKNOWN_SESSION {
        ApplyCounts(cfg, s1, ds[n]);
      }
    }
  }

  /** Project over a run of resolved steps. */
  lemma {:induction false} DirectProjection(cfg: Config, s: State, ds: seq<Direct>, c: nat)
    requires Valid(s) && AllApplicable(|s.channels|, ds) && c < |s.channels|
    requires s.sessions.lastSession + DirectOffers(ds) <= Sessions.UNKNOWN_SESSION
    requires !RunDirect(cfg, s, ds).aborted
    ensures AllApplicable(|s.channels|, Project(ds, c))
    ensures Agree(RunDirect(cfg, s, ds), RunDirect(cfg, s, Project(ds, c)), c)
    decreases |ds|
  {
    if ds != [] {
      var n := |ds| - 1;
      assert ds[n] in ds && forall d :: d in ds[..n] ==> d in ds;
      var before, d := ds[..n], ds[n];
      DirectProjection(cfg, s, before, c);
      var a, b := RunDirect(cfg, s, before), RunDirect(cfg, s, Project(before, c));
      if Concerns(d, c) {
        if Offering(d) {
          RunCounts(cfg, s, before);
          ProjectKeeps(before, c, |s.channels|);
          RunCounts(cfg, s, Project(before, c));
        }
        SameApply(cfg, a, b, d, c);
        RunDirectSnoc(cfg, s, Project(before, c), d);
      } else {
        OtherUnnoticed(cfg, a, d, c);
        assert Project(before, c) + [] == Project(before, c);
      }
    }
  }

  lemma OneMoreDirect(before: seq<Direct>, d: Option<Direct>)
    ensures DirectOffers(before + (if d.Some? then [d.value] else []))
            == DirectOffers(before) + (if d.Some? && Offering(d.value) then 1 else 0)
  {
    if d.Some? {
      assert (before + [d.value])[..|before|] == before;
    } else {
      assert before + [] == before;
    }
  }

  lemma ResolvedOffer(s: State, step: Step)
    requires Takeable(|s.channels|, step)
    ensures Resolve(s, step).Some? ==> (Offering(Resolve(s, step).value) <==> IsOffer(step))
  {
  }

  lemma {:induction false} DirectsOffers(cfg: Config, s: State, steps: seq<Step>)
    requires Valid(s) && AllTakeable(|s.channels|, steps)
    ensures DirectOffers(Directs(cfg, s, steps)) <= Offers(steps)
    decreases |steps|
  {
    if steps != [] {
      var n := |steps| - 1;
      assert steps[n] in steps && forall step :: step in steps[..n] ==> step in steps;
      DirectsOffers(cfg, s, steps[..n]);
      var s1 := Run(cfg, s, steps[..n]);
      OneMoreDirect(Directs(cfg, s, steps[..n]), Resolve(s1, steps[n]));
      ResolvedOffer(s1, steps[n]);
    }
  }

  /**
   After any run that does not abort, a channel's record, its calls into the
   library and its messages are those of the run cut down to the steps that
   concern the channel: its own and the broadcasts.
   */
  lemma Projection(cfg: Config, channelCount: nat, maxCalls: nat, steps: seq<Step>, c: nat)
    requires maxCalls >= 1 && c < channelCount
    requires AllTakeable(channelCount, steps) && Offers(steps) <= Sessions.UNKNOWN_SESSION
    requires !Run(cfg, Init(channelCount, maxCalls), steps).aborted
    ensures var s0 := Init(channelCount, maxCalls);
            var own := Project(Directs(cfg, s0, steps), c);
            && AllApplicable(channelCount, own)
            && Agree(Run(cfg, s0, steps), RunDirect(cfg, s0, own), c)
  {
    var s0 := Init(channelCount, maxCalls);
    RunIsRunDirect(cfg, s0, steps);
    DirectsOffers(cfg, s0, steps);
    DirectProjection(cfg, s0, Directs(cfg, s0, steps), c);
  }
}

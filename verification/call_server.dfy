/**
 The call server in the form it has: an array of channel records, counters and
 a session list, all changed in place by the event switch, by commands and by
 the two shutdown loops.
 */
module CallServer {
  import opened Bytes
  import opened Wire
  import Diversion
  import Sessions
  import opened CallSpec

  class CallServer {
    const cfg: Config
    const channelInfo: array<Channel>
    const sessions: Sessions.SessionList
    var interrupted: bool
    var stUnblocked: int
    var stUsed: int
    var stCallCntPerInterval: int
    var aborted: bool                       // an assert failed or an exception got out
    ghost var logs: seq<seq<Action>>

    ghost function View(): State
      reads this, channelInfo, sessions
    {
      State(channelInfo[..], sessions.View(), interrupted, stUnblocked, stUsed, stCallCntPerInterval, aborted, logs)
    }

    constructor (cfg: Config, channelCount: nat, maxCalls: nat)
      requires maxCalls >= 1
      ensures fresh(channelInfo) && fresh(sessions) && this.cfg == cfg
      ensures View() == Init(channelCount, maxCalls) && Valid(View())
    {
      this.cfg := cfg;
      channelInfo := new Channel[channelCount](i => InitChannel(maxCalls));
      sessions := new Sessions.SessionList();
      interrupted, aborted := false, false;
      stUnblocked, stUsed, stCallCntPerInterval := 0, 0, 0;
      logs := seq(channelCount, i => []);
    }

    // ---- the table of calls ---------------------------------------------------------

    method RegNewCall(lineNo: nat, crn: int, sstate: SState)
      requires Has(View(), lineNo)
      modifies channelInfo
      ensures var ch := old(channelInfo[lineNo]);
              View() == Put(old(View()), lineNo, ch.(calls := CallSpec.RegNewCall(ch.calls, crn, sstate)))
    {
      ghost var ch := channelInfo[lineNo];
      var i := |channelInfo[lineNo].calls| - 1;
      while i > 0
        invariant 0 <= i < |ch.calls| == |channelInfo[lineNo].calls|
        invariant channelInfo[lineNo] == ch.(calls := channelInfo[lineNo].calls)
        invariant forall k :: 0 <= k <= i ==> channelInfo[lineNo].calls[k] == ch.calls[k]
        invariant forall k :: i < k < |ch.calls| ==> channelInfo[lineNo].calls[k] == ch.calls[k - 1]
        invariant channelInfo[..] == old(channelInfo[..])[lineNo := channelInfo[lineNo]]
      {
        var calls := channelInfo[lineNo].calls;
        channelInfo[lineNo] := channelInfo[lineNo].(calls := calls[i := calls[i - 1]]);
        i := i - 1;
      }
      channelInfo[lineNo] := channelInfo[lineNo].(calls := channelInfo[lineNo].calls[0 := CallInfo(crn, sstate)]);
      assert channelInfo[lineNo].calls == CallSpec.RegNewCall(ch.calls, crn, sstate);
    }

    method GetCallNdx(lineNo: nat, crn: int) returns (ndx: int)
      requires lineNo < channelInfo.Length
      ensures ndx == (match CallSpec.GetCallNdx(channelInfo[lineNo].calls, crn) case None => -1 case Some(i) => i)
    {
      var i := 0;
      while i < |channelInfo[lineNo].calls|
        invariant 0 <= i <= |channelInfo[lineNo].calls|
        invariant forall k :: 0 <= k < i ==> channelInfo[lineNo].calls[k].crn != crn
      {
        if channelInfo[lineNo].calls[i].crn == crn { return i; }
        i := i + 1;
      }
      ndx := -1;
    }

    method GetIndexByVoice(dev: int) returns (index: int)
      ensures index == (match CallSpec.GetIndexByVoice(channelInfo[..], dev) case None => -1 case Some(i) => i)
    {
      var i := 0;
      while i < channelInfo.Length
        invariant 0 <= i <= channelInfo.Length
        invariant forall k :: 0 <= k < i ==> channelInfo[k].hdVoice != dev
      {
        if channelInfo[i].hdVoice == dev { return i; }
        i := i + 1;
      }
      index := -1;
    }

    /** Calls[ndx].SState = sstate, where the call was found. */
    method SetSState(index: nat, ndx: int, ghost crn: int, sstate: SState)
      requires Has(View(), index)
      requires ndx == (match CallSpec.GetCallNdx(channelInfo[index].calls, crn) case None => -1 case Some(i) => i)
      modifies channelInfo
      ensures View() == Put(old(View()), index, WithSState(old(channelInfo[index]), crn, sstate))
    {
      if ndx != -1 {
        var calls := channelInfo[index].calls;
        channelInfo[index] := channelInfo[index].(calls := calls[ndx := calls[ndx].(sstate := sstate)]);
      }
    }

    ghost method Log(index: nat, a: Action)
      requires Has(View(), index)
      modifies this`logs
      ensures View() == Do(old(View()), index, a)
    {
      logs := logs[index := logs[index] + [a]];
    }

    // ---- helpers of the event switch and of the commands --------------------------------

    method InitPlayFragment(index: nat, fragment: Text, result: PlayResult) returns (ok: bool)
      requires Has(View(), index)
      modifies channelInfo, this`logs
      ensures (View(), ok) == CallSpec.PlayFragment(old(View()), index, fragment, result)
    {
      if result == OpenFails { return false; }
      Log(index, PlayData(fragment, result == PlayStarts));
      if result == PlayFails { return false; }
      channelInfo[index] := channelInfo[index].(pstate := PPlay);
      channelInfo[index] := channelInfo[index].(playing := true);
      assert channelInfo[..]
             == old(channelInfo[..])[index := old(channelInfo[index]).(pstate := PPlay, playing := true)];
      ok := true;
    }

    method InitDisconnect(index: nat, reason: Diversion.DropReason)
      requires Has(View(), index)
      modifies channelInfo, this`logs
      ensures View() == CallSpec.InitDisconnect(old(View()), index, reason)
    {
      channelInfo[index] := channelInfo[index].(pstate := PReleasing);
      Log(index, HangUp(channelInfo[index].calls[0].crn, reason));
    }

    method NotifyScp(index: nat, e: Event)
      requires Has(View(), index)
      modifies this`aborted, this`logs
      ensures View() == CallSpec.NotifyScp(old(View()), index, e)
    {
      var session := sessions.GetSessionByChannel(index);
      if session == Sessions.UNKNOWN_SESSION {
        aborted := true;
      } else {
        Log(index, Notify(session, e));
      }
    }

    // ---- events of a line -------------------------------------------------------------------

    method OnUnblocked(index: nat, handle: Option<int>)
      requires Has(View(), index)
      modifies channelInfo, this`stUnblocked, this`logs
      ensures View() == CallSpec.OnUnblocked(old(View()), index, handle)
    {
      if handle.Some? {
        channelInfo[index] := channelInfo[index].(hdVoice := handle.value);
        channelInfo[index] := channelInfo[index].(vReady := true);
        stUnblocked := stUnblocked + 1;
      }
      channelInfo[index] := channelInfo[index].(blocked := false);
      if channelInfo[index].vReady {
        Log(index, WaitCall);
      }
    }

    /** The numbers of the call; one that the library does not know is left empty. */
    method RecordNumbers(index: nat, dest: Option<Text>, orig: Option<Text>)
      requires Has(View(), index)
      modifies channelInfo
      ensures View() == Put(old(View()), index,
                            old(channelInfo[index]).(cdpn := if dest.Some? then dest.value else [],
                                                     cgpn := if orig.Some? then orig.value else []))
    {
      channelInfo[index] := channelInfo[index].(cdpn := if dest.Some? then dest.value else []);
      channelInfo[index] := channelInfo[index].(cgpn := if orig.Some? then orig.value else []);
    }

    /** The redirecting number and its reason, or none of them. */
    method RecordRedirection(index: nat, params: seq<Diversion.Param>) returns (reasonCodeIP: uint16)
      requires Has(View(), index)
      modifies channelInfo
      ensures reasonCodeIP == Diversion.Redirect(params, []).code
      ensures var r := Diversion.Redirect(params, []);
              View() == Put(old(View()), index,
                            old(channelInfo[index]).(rdpn := if r.found then r.rdpn else [],
                                                     reasonCode := if r.found then r.code else 0))
    {
      var found, rdpn, reason, code := Diversion.GetSIPRdPN(params, []);
      if found {
        channelInfo[index] := channelInfo[index].(rdpn := rdpn);
        channelInfo[index] := channelInfo[index].(reasonCode := code);
      } else {
        channelInfo[index] := channelInfo[index].(rdpn := []);
        channelInfo[index] := channelInfo[index].(reasonCode := 0);
      }
      reasonCodeIP := code;
    }

    /** The record of the channel, up to the line that reports the call. */
    method RecordOffered(index: nat, crn: int, dest: Option<Text>, orig: Option<Text>, params: seq<Diversion.Param>)
      returns (reasonCodeIP: uint16)
      requires Has(View(), index)
      modifies channelInfo
      ensures reasonCodeIP == Diversion.Redirect(params, []).code
      ensures View() == Put(old(View()), index,
                            OfferedChannel(old(channelInfo[index]), crn, dest, orig, Diversion.Redirect(params, [])))
    {
      channelInfo[index] := channelInfo[index].(pstate := PIdle);
      RegNewCall(index, crn, SOffered);
      RecordNumbers(index, dest, orig);
      reasonCodeIP := RecordRedirection(index, params);
      ghost var ch := OfferedChannel(old(channelInfo[index]), crn, dest, orig, Diversion.Redirect(params, []));
      assert channelInfo[index] == ch;
      assert channelInfo[..] == old(channelInfo[..])[index := ch];
    }

    method OnOffered(index: nat, crn: int, dest: Option<Text>, orig: Option<Text>, params: seq<Diversion.Param>)
      requires Has(View(), index)
      modifies this, channelInfo, sessions
      ensures View() == CallSpec.OnOffered(cfg, old(View()), index, crn, dest, orig, params)
    {
      stUsed := stUsed + 1;
      stCallCntPerInterval := stCallCntPerInterval + 1;
      var reasonCodeIP := RecordOffered(index, crn, dest, orig, params);
      if cfg.mode == Ssp {
        var offered := Offered(channelInfo[index].cgpn, channelInfo[index].cdpn, channelInfo[index].rdpn, reasonCodeIP);
        var session := sessions.CreateSession(index);
        Log(index, Notify(session, EvOffered(offered)));
      } else if cfg.sendCallAck {
        Log(index, CallAck(crn));
      } else {
        Log(index, AcceptOrAnswer(cfg, crn));
      }
    }

    method OnAnswered(index: nat, crn: int, ndx: int, play: PlayResult)
      requires Has(View(), index)
      requires ndx == (match CallSpec.GetCallNdx(channelInfo[index].calls, crn) case None => -1 case Some(i) => i)
      modifies channelInfo, this`aborted, this`logs
      ensures View() == CallSpec.OnAnswered(cfg, old(View()), index, crn, play)
    {
      if ndx == -1 {
        Log(index, HangUp(crn, Diversion.NormalClearing));
        return;
      }
      SetSState(index, ndx, crn, SConnected);
      match cfg.mode
      case Autoresponder =>
        var started := InitPlayFragment(index, cfg.defaultFragment, play);
        if !started {
          Log(index, HangUp(crn, Diversion.NormalClearing));
        }
      case Ssp => NotifyScp(index, EvAnswered);
      case Unsupported => Log(index, HangUp(crn, Diversion.NormalClearing));
    }

    method OnDisconnected(index: nat, crn: int, ndx: int)
      requires Has(View(), index)
      requires ndx == (match CallSpec.GetCallNdx(channelInfo[index].calls, crn) case None => -1 case Some(i) => i)
      modifies channelInfo, this`logs
      ensures View() == CallSpec.OnDisconnected(old(View()), index, crn)
    {
      channelInfo[index] := channelInfo[index].(pstate := PReleasing);
      if ndx == -1 {
        Log(index, HangUp(crn, Diversion.NormalClearing));
      } else {
        if channelInfo[index].calls[ndx].sstate != SDisconnected {
          SetSState(index, ndx, crn, SDisconnected);
          Log(index, HangUp(crn, Diversion.NormalClearing));
        }
      }
    }

    method OnReleaseCall(index: nat, crn: int, ndx: int)
      requires Has(View(), index)
      requires ndx == (match CallSpec.GetCallNdx(channelInfo[index].calls, crn) case None => -1 case Some(i) => i)
      modifies channelInfo, this`stUsed
      ensures View() == CallSpec.OnReleaseCall(old(View()), index, crn)
    {
      ghost var ch' := CallSpec.OnReleaseCall(View(), index, crn).channels[index];
      stUsed := stUsed - 1;
      if channelInfo[index].pstate == PReleasing {
        channelInfo[index] := channelInfo[index].(pstate := PIdle);
      }
      if ndx != -1 && channelInfo[index].calls[ndx].sstate == SIdle {
        channelInfo[index] := channelInfo[index].(calls := channelInfo[index].calls[ndx := NO_CALL]);
      }
      assert channelInfo[index] == ch' && channelInfo[..] == old(channelInfo[..])[index := ch'];
    }

    method OnResetLineDev(index: nat)
      requires Has(View(), index)
      modifies channelInfo, this`logs
      ensures View() == CallSpec.OnResetLineDev(old(View()), index)
    {
      ghost var ch := channelInfo[index];
      var i := 0;
      while i < |channelInfo[index].calls|
        invariant 0 <= i <= |ch.calls| == |channelInfo[index].calls|
        invariant channelInfo[index] == ch.(calls := channelInfo[index].calls)
        invariant forall k :: 0 <= k < i ==> channelInfo[index].calls[k] == NO_CALL
        invariant channelInfo[..] == old(channelInfo[..])[index := channelInfo[index]] && logs == old(logs)
      {
        channelInfo[index] := channelInfo[index].(calls := channelInfo[index].calls[i := NO_CALL]);
        i := i + 1;
      }
      assert channelInfo[index].calls == seq(|ch.calls|, i => NO_CALL);
      Log(index, WaitCall);
    }

    /** process_event for an event of a line. */
    method ProcessLineEvent(index: nat, crn: int, ev: GcEvent)
      requires Has(View(), index) && !aborted
      modifies this, channelInfo, sessions
      ensures View() == OnLine(cfg, old(View()), index, crn, ev)
    {
      var ndx := GetCallNdx(index, crn);
      match ev
      case GcUnblocked(handle) => OnUnblocked(index, handle);
      case GcOffered(dest, orig, params) => OnOffered(index, crn, dest, orig, params);
      case GcCallProc => Log(index, AcceptOrAnswer(cfg, crn));
      case GcAccept =>
        SetSState(index, ndx, crn, SAccepted);
        Log(index, AnswerCall(crn));
      case GcAnswered(play) => OnAnswered(index, crn, ndx, play);
      case GcConnected =>
        SetSState(index, ndx, crn, SConnected);
        Log(index, HangUp(crn, Diversion.NormalClearing));
      case GcDisconnected => OnDisconnected(index, crn, ndx);
      case GcDropCall(voiceBusy) =>
        if voiceBusy { Log(index, StopVoice); }
        SetSState(index, ndx, crn, SIdle);
        Log(index, ReleaseCall(crn));
      case GcReleaseCall => OnReleaseCall(index, crn, ndx);
      case GcResetLineDev => OnResetLineDev(index);
      case GcTaskFail =>
        channelInfo[index] := channelInfo[index].(blocked := false);
        Log(index, ResetLine);
      case GcOther =>
    }

    // ---- events of a voice device, packets ------------------------------------------------------

    /** process_event for an event of a voice device. */
    method ProcessVoiceEvent(dev: int, ev: VoiceEvent)
      requires Valid(View()) && !aborted
      modifies channelInfo, this`aborted, this`logs
      ensures View() == Next(cfg, old(View()), VoiceStep(dev, ev))
    {
      var index := GetIndexByVoice(dev);
      if ev.PlayDone? && index != -1 {
        match cfg.mode
        case Autoresponder => InitDisconnect(index, Diversion.NormalClearing);
        case Ssp => NotifyScp(index, EvPlayFinished(ev.mask));
        case Unsupported =>
      }
    }

    method ExecuteCommand(channel: nat, command: Command, play: PlayResult)
      requires Has(View(), channel)
      modifies channelInfo, this`logs
      ensures View() == OnCommand(cfg, old(View()), channel, command, play)
    {
      match command
      case Answer => Log(channel, AcceptOrAnswer(cfg, channelInfo[channel].calls[0].crn));
      case Play(fragment) => var _ := InitPlayFragment(channel, fragment, play);
      case Drop(reason) => InitDisconnect(channel, Diversion.ToDialogic(reason));
    }

    method ProcessPacket(session: uint32, data: seq<byte>, play: PlayResult) returns (ok: bool)
      requires Valid(View()) && !aborted
      requires data == [] || Readable(data)
      modifies channelInfo, this`aborted, this`logs
      ensures View() == Next(cfg, old(View()), PacketStep(session, data, play))
      ensures ok <==> !aborted && Resolve(old(View()), PacketStep(session, data, play)).Some?
    {
      var channel := sessions.GetChannelBySession(session);
      if channel == -1 { return false; }
      if data == [] { return false; }
      var command := Construct(data);
      if command.None? {
        aborted := true;
        return false;
      }
      ExecuteCommand(channel, command.value, play);
      ok := true;
    }

    // ---- shutdown ---------------------------------------------------------------------------------

    /** The body of the loop below. */
    method DeinitChannel(i: nat)
      requires Has(View(), i)
      modifies channelInfo, this`logs
      ensures channelInfo[i] == Deinited(old(channelInfo[i])) && |logs| == channelInfo.Length
      ensures logs[i] == old(logs[i]) + DeinitActions(old(channelInfo[i]))
      ensures forall k :: 0 <= k < channelInfo.Length && k != i ==>
              channelInfo[k] == old(channelInfo[k]) && logs[k] == old(logs[k])
    {
      match channelInfo[i].pstate
      case PCalling => InitDisconnect(i, Diversion.NormalClearing);
      case PPlay =>
        Log(i, StopVoice);
        InitDisconnect(i, Diversion.NormalClearing);
        assert old(logs[i]) + [StopVoice] + [logs[i][|logs[i]| - 1]]
               == old(logs[i]) + DeinitActions(old(channelInfo[i]));
      case _ => assert old(logs[i]) + [] == old(logs[i]);
    }

    method Deinit()
      requires Valid(View())
      modifies channelInfo, this`logs
      ensures View() == CallSpec.Deinit(old(View()))
    {
      ghost var goal := CallSpec.Deinit(View());
      var i := 0;
      while i < channelInfo.Length
        invariant 0 <= i <= channelInfo.Length == |logs|
        invariant forall k :: 0 <= k < i ==> channelInfo[k] == goal.channels[k] && logs[k] == goal.logs[k]
        invariant forall k :: i <= k < channelInfo.Length ==>
                  channelInfo[k] == old(channelInfo[k]) && logs[k] == old(logs[k])
      {
        DeinitChannel(i);
        i := i + 1;
      }
      assert channelInfo[..] == goal.channels && logs == goal.logs;
    }

    method InterruptHandler()
      requires Valid(View()) && !aborted
      modifies channelInfo, this`interrupted, this`logs
      ensures View() == Next(cfg, old(View()), InterruptStep)
    {
      Deinit();
      interrupted := true;
    }

    /** The first half of the loop body below. */
    method CloseChannel(i: nat)
      requires Has(View(), i)
      modifies channelInfo, this`logs
      ensures channelInfo[i] == Closed(old(channelInfo[i])) && |logs| == channelInfo.Length
      ensures logs[i] == old(logs[i]) + CloseActions(old(channelInfo[i]))
      ensures forall k :: 0 <= k < channelInfo.Length && k != i ==>
              channelInfo[k] == old(channelInfo[k]) && logs[k] == old(logs[k])
    {
      if channelInfo[i].pstate == PNull || channelInfo[i].pstate == PIdle {
        channelInfo[i] := channelInfo[i].(pstate := PShutdown);
        Log(i, CloseLine);
      } else {
        assert logs[i] + [] == logs[i];
      }
    }

    /** The loop of checkAppExitCondition and its flag. */
    method CloseChannels() returns (canClose: bool)
      requires Valid(View())
      modifies channelInfo, this`logs
      ensures View() == Close(old(View()))
      ensures canClose <==> AllShutdown(View())
    {
      ghost var goal := Close(View());
      canClose := true;
      var i := 0;
      while i < channelInfo.Length
        invariant 0 <= i <= channelInfo.Length == |logs|
        invariant forall k :: 0 <= k < i ==> channelInfo[k] == goal.channels[k] && logs[k] == goal.logs[k]
        invariant forall k :: i <= k < channelInfo.Length ==>
                  channelInfo[k] == old(channelInfo[k]) && logs[k] == old(logs[k])
        invariant canClose <==> forall k :: 0 <= k < i ==> goal.channels[k].pstate == PShutdown
      {
        CloseChannel(i);
        if channelInfo[i].pstate != PShutdown {
          canClose := false;
        }
        i := i + 1;
      }
      assert channelInfo[..] == goal.channels && logs == goal.logs;
    }

    method CheckAppExitCondition() returns (exit: bool)
      requires Valid(View()) && !aborted
      modifies channelInfo, this`logs
      ensures View() == Next(cfg, old(View()), PollStep)
      ensures exit <==> interrupted && AllShutdown(View())
    {
      if !interrupted { return false; }
      exit := CloseChannels();
    }
  }
}

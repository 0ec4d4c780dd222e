/**
 What a packet from the service logic does: to the channel of its session, to the
 library, and to nothing else.
 */
module CallCommands {
  import opened Bytes
  import opened Wire
  import opened Diversion
  import opened CallSpec
  import Sessions

  /** The state after a packet with one command, for a live session. */
  ghost function AfterCommand(cfg: Config, s: State, session: uint32, cmd: Command, play: PlayResult): State
    requires Valid(s) && Encodes(cmd)
  {
    CommandRoundTrip(cmd, []);
    assert EncodeCommand(cmd) + [] == EncodeCommand(cmd);
    Next(cfg, s, PacketStep(session, EncodeCommand(cmd), play))
  }

  predicate Encodes(cmd: Command) {
    cmd.Play? ==> |cmd.fragment| < 0x1_0000
  }

  ghost predicate Live(s: State, session: uint32, c: nat) {
    Valid(s) && !s.aborted && Sessions.ChannelOf(s.sessions, session) == c && c < |s.channels|
  }

  /** Of the state nothing has changed but the record and the log of `c`. */
  ghost predicate OnlyChannel(s: State, s': State, c: nat) {
    && c < |s.channels| == |s.logs| == |s'.channels| == |s'.logs|
    && s' == s.(channels := s.channels[c := s'.channels[c]], logs := s.logs[c := s'.logs[c]])
  }

  lemma CommandRuns(cfg: Config, s: State, session: uint32, c: nat, cmd: Command, play: PlayResult)
    requires Live(s, session, c) && Encodes(cmd)
    ensures Has(s, c) && AfterCommand(cfg, s, session, cmd, play) == OnCommand(cfg, s, c, cmd, play)
  {
    CommandRoundTrip(cmd, []);
    assert EncodeCommand(cmd) + [] == EncodeCommand(cmd);
    assert Resolve(s, PacketStep(session, EncodeCommand(cmd), play)) == Some(OnTheCommand(c, cmd, play));
  }

  /** ANSWER asks the library once for the first call of the table: to accept it, if so configured, or to answer it. */
  lemma AnswerAsks(cfg: Config, s: State, session: uint32, c: nat, play: PlayResult)
    requires Live(s, session, c)
    ensures var s', crn := AfterCommand(cfg, s, session, Answer, play), s.channels[c].calls[0].crn;
            && OnlyChannel(s, s', c) && s'.channels[c] == s.channels[c]
            && s'.logs[c] == s.logs[c] + [if cfg.sendACM then AcceptCall(crn) else AnswerCall(crn)]
  {
    CommandRuns(cfg, s, session, c, Answer, play);
  }

  /** PLAY makes the library play just that file, if it can be opened; the channel is in PLAY exactly if it starts. */
  lemma PlayPlays(cfg: Config, s: State, session: uint32, c: nat, fragment: Text, play: PlayResult)
    requires Live(s, session, c) && |fragment| < 0x1_0000
    ensures var s' := AfterCommand(cfg, s, session, Play(fragment), play);
            && OnlyChannel(s, s', c)
            && s'.logs[c] == s.logs[c] + (if play.OpenFails? then [] else [PlayData(fragment, play.PlayStarts?)])
            && s'.channels[c].pstate == (if play.PlayStarts? then PPlay else s.channels[c].pstate)
            && s'.channels[c].calls == s.channels[c].calls
  {
    CommandRuns(cfg, s, session, c, Play(fragment), play);
    assert s.logs[c] + [] == s.logs[c];
  }

  /**
   DROP hangs up the first call of the table, once, and has the channel wait for its
   release.  The library is told 480 and 486 as what they are, anything else as normal.
   */
  lemma DropHangsUp(cfg: Config, s: State, session: uint32, c: nat, code: uint16, play: PlayResult)
    requires Live(s, session, c)
    ensures var s' := AfterCommand(cfg, s, session, Drop(code), play);
            && OnlyChannel(s, s', c) && s'.channels[c] == s.channels[c].(pstate := PReleasing)
            && |s'.logs[c]| == |s.logs[c]| + 1 && s.logs[c] <= s'.logs[c]
            && var a := s'.logs[c][|s.logs[c]|];
               && a.HangUp? && a.crn == s.channels[c].calls[0].crn
               && (a.reason == Status480 <==> code == 480)
               && (a.reason == Status486 <==> code == 486)
               && (a.reason == InternalNormal <==> code != 480 && code != 486)
  {
    CommandRuns(cfg, s, session, c, Drop(code), play);
  }

  /** A packet for a session never created, and an empty one, change nothing; an unknown command ends the program. */
  lemma StrayPackets(cfg: Config, s: State, session: uint32, data: seq<byte>, play: PlayResult)
    requires Valid(s) && !s.aborted && (data == [] || Readable(data))
    ensures var s' := Next(cfg, s, PacketStep(session, data, play));
            && (session !in s.sessions.session2channel || data == [] ==> s' == s)
            && (session in s.sessions.session2channel && data != [] ==> (s'.aborted <==> data[0] > CMD_PLAY))
  {
    if session in s.sessions.session2channel && data != [] && ParseCommand(data).Some? {
      var c := s.sessions.session2channel[session];
      assert Resolve(s, PacketStep(session, data, play)) == Some(OnTheCommand(c, ParseCommand(data).value, play));
      CommandTouches(cfg, s, c, ParseCommand(data).value, play);
    }
  }

  /**
   From the header of an incoming call to the library: the missed-call service
   answers the OFFERED event with a packet that hangs the call up, once, with the
   reason that the header's text stands for, whatever the numbers are.
   */
  lemma ReasonReachesLibrary(
      cfg: Config, s: State, session: uint32, c: nat, params: seq<Param>, cgpn: Text, cdpn: Text, play: PlayResult)
    requires Live(s, session, c)
    requires |cgpn| <= 255 && |cdpn| <= 255 && |Redirect(params, []).rdpn| <= 255
    ensures var r := Redirect(params, []);
            var reply := MissedCall(EncodeEvent(EvOffered(Offered(cgpn, cdpn, r.rdpn, r.code))));
            && reply.Some? && Readable(reply.value)
            && var s' := Next(cfg, s, PacketStep(session, reply.value, play));
               && |s'.logs| == |s.logs| && |s'.logs[c]| == |s.logs[c]| + 1 && s.logs[c] <= s'.logs[c]
               && var a := s'.logs[c][|s.logs[c]|];
                  && a.HangUp? && a.crn == s.channels[c].calls[0].crn
                  && (a.reason == Status480 <==> r.reason == UNAVAILABLE)
                  && (a.reason == Status486 <==> r.reason == USER_BUSY)
                  && (a.reason == InternalNormal <==> r.reason != UNAVAILABLE && r.reason != USER_BUSY)
  {
    var r := Redirect(params, []);
    RedirectDefault(params, []);
    MissedCallAnswers(Offered(cgpn, cdpn, r.rdpn, r.code));
    CommandRoundTrip(Drop(r.code), []);
    assert EncodeCommand(Drop(r.code)) + [] == EncodeCommand(Drop(r.code));
    DropHangsUp(cfg, s, session, c, r.code, play);
  }
}

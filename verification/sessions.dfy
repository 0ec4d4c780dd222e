/** Sessions: numbers that name, for the service logic, the channel a call is on. */
module Sessions {
  import opened Bytes

  const UNKNOWN_SESSION: uint32 := 0xffff_ffff

  /** The static counter and the two maps. */
  datatype State = State(lastSession: uint32, channel2session: map<int, uint32>, session2channel: map<uint32, int>)

  const NO_SESSIONS := State(0, map[], map[])

  function Create(s: State, channel: int): State {
    State((s.lastSession + 1) % 0x1_0000_0000,
          s.channel2session[channel := s.lastSession],
          s.session2channel[s.lastSession := channel])
  }

  function ChannelOf(s: State, session: uint32): int {
    if session in s.session2channel then s.session2channel[session] else -1
  }

  function SessionOf(s: State, channel: int): uint32 {
    if channel in s.channel2session then s.channel2session[channel] else UNKNOWN_SESSION
  }

  class SessionList {
    var lastSession: uint32
    var channel2session: map<int, uint32>
    var session2channel: map<uint32, int>

    ghost function View(): State
      reads this
    {
      State(lastSession, channel2session, session2channel)
    }

    constructor ()
      ensures View() == NO_SESSIONS
    {
      lastSession, channel2session, session2channel := 0, map[], map[];
    }

    method GetNewSessionID() returns (session: uint32)
      modifies this`lastSession
      ensures session == old(lastSession) && lastSession == (session + 1) % 0x1_0000_0000
    {
      session := lastSession;
      lastSession := (lastSession + 1) % 0x1_0000_0000;
    }

    method CreateSession(channel: int) returns (session: uint32)
      modifies this
      ensures session == old(lastSession) && View() == Create(old(View()), channel)
    {
      session := GetNewSessionID();
      channel2session := channel2session[channel := session];
      session2channel := session2channel[session := channel];
    }

    method GetChannelBySession(session: uint32) returns (channel: int)
      ensures channel == ChannelOf(View(), session)
    {
      if session in session2channel { return session2channel[session]; }
      channel := -1;
    }

    method GetSessionByChannel(channel: int) returns (session: uint32)
      ensures session == SessionOf(View(), channel)
    {
      if channel in channel2session { return channel2session[channel]; }
      session := UNKNOWN_SESSION;
    }
  }

  // ---- runs of creations ---------------------------------------------------------

  /** The state after creating one session per listed channel, in order. */
  function CreateAll(channels: seq<int>): State {
    if channels == [] then NO_SESSIONS
    else Create(CreateAll(channels[..|channels| - 1]), channels[|channels| - 1])
  }

  /** `k` is the latest creation on its channel. */
  ghost predicate Latest(channels: seq<int>, k: nat) {
    && k < |channels|
    && forall j :: k < j < |channels| ==> channels[j] != channels[k]
  }

  /**
   Below 2^32 creations the k-th session is k, it belongs for good to the k-th
   channel listed, and a channel's session is the latest created on it.
   */
  lemma {:induction false} CreateAllMeaning(channels: seq<int>)
    requires |channels| < 0x1_0000_0000
    ensures var s := CreateAll(channels);
            && s.lastSession == |channels|
            && (forall k: uint32 :: k in s.session2channel <==> k < |channels|)
            && (forall k: uint32 :: k < |channels| ==> s.session2channel[k] == channels[k])
            && (forall c :: c in s.channel2session <==> c in channels)
            && (forall c :: c in channels ==>
                  Latest(channels, s.channel2session[c]) && channels[s.channel2session[c]] == c)
  {
    if channels != [] {
      var n := |channels| - 1;
      var before := channels[..n];
      CreateAllMeaning(before);
      assert channels == before + [channels[n]];
    }
  }

  /** Ids differ, none is UNKNOWN_SESSION, and looking a channel up and back is the identity. */
  lemma SessionLookups(channels: seq<int>)
    requires |channels| < 0x1_0000_0000
    requires -1 !in channels
    ensures var s := CreateAll(channels);
            && (UNKNOWN_SESSION !in s.session2channel)
            && (forall c :: c in channels <==> SessionOf(s, c) != UNKNOWN_SESSION)
            && (forall c :: c in channels ==> ChannelOf(s, SessionOf(s, c)) == c)
            && (forall c, d :: c in channels && d in channels && SessionOf(s, c) == SessionOf(s, d) ==> c == d)
  {
    CreateAllMeaning(channels);
  }

  /** Creating more sessions never moves an old one to another channel. */
  lemma {:induction false} SessionsStay(channels: seq<int>, more: seq<int>, session: uint32)
    requires |channels + more| < 0x1_0000_0000 && session < |channels|
    ensures ChannelOf(CreateAll(channels + more), session) == ChannelOf(CreateAll(channels), session)
            == channels[session]
  {
    CreateAllMeaning(channels);
    CreateAllMeaning(channels + more);
  }

  /** The limit is exact: the creation after 2^32 - 1 others hands out UNKNOWN_SESSION. */
  lemma UnknownHandedOut(channels: seq<int>, channel: int)
    requires |channels| < 0x1_0000_0000
    ensures SessionOf(Create(CreateAll(channels), channel), channel) == UNKNOWN_SESSION <==> |channels| == 0xffff_ffff
  {
    CreateAllMeaning(channels);
  }
}

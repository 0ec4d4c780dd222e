/**
 Reading the redirecting number and reason out of SIP Diversion headers
 (RFC 5806), and the way of the reason code to the service logic and back.
 */
module Diversion {
  import opened Bytes
  import opened Wire

  const SIP_TAG: Text := [115, 105, 112, 58]                      // "sip:"
  const REASON_TAG: Text := [114, 101, 97, 115, 111, 110, 61]     // "reason="
  const SEMICOLON: byte := 59
  const UNAVAILABLE: Text := [117, 110, 97, 118, 97, 105, 108, 97, 98, 108, 101]
  const USER_BUSY: Text := [117, 115, 101, 114, 45, 98, 117, 115, 121]

  /** One entry of the parameter block; only Diversion URIs are looked at. */
  datatype Param = DiversionUri(value: Text) | OtherParam

  // ---- std::string::find and substr -------------------------------------------------

  predicate TagAt(s: Text, tag: Text, i: nat) {
    i + |tag| <= |s| && forall k :: 0 <= k < |tag| ==> s[i + k] == tag[k]
  }

  /** The first place at or after `from` where the tag stands; None is npos. */
  function FindFrom(s: Text, tag: Text, from: nat): (r: Option<nat>)
    ensures r.Some? ==> from <= r.value && TagAt(s, tag, r.value)
    ensures r.Some? ==> forall i: nat :: from <= i < r.value ==> !TagAt(s, tag, i)
    ensures r.None? ==> forall i: nat :: from <= i ==> !TagAt(s, tag, i)
    decreases |s| - from
  {
    if from + |tag| > |s| then None
    else if TagAt(s, tag, from) then Some(from)
    else FindFrom(s, tag, from + 1)
  }

  function Find(s: Text, tag: Text, from: Option<nat>): Option<nat> {
    if from.None? then None else FindFrom(s, tag, from.value)
  }

  function Substr(s: Text, pos: nat, count: nat): Text
    requires pos <= |s|
  {
    if pos + count <= |s| then s[pos..pos + count] else s[pos..]
  }

  // ---- one header value ----------------------------------------------------------------

  /** The text after a tag up to the next semicolon, both required. */
  function FieldAfter(uri: Text, tag: Text): Option<Text>
    requires SEMICOLON !in tag
  {
    var begin := Find(uri, tag, Some(0));
    var end := Find(uri, [SEMICOLON], begin);
    if begin.None? || end.None? then None
    else
      EndBehindTag(uri, tag, begin.value, end.value);
      Some(Substr(uri, begin.value + |tag|, end.value - begin.value - |tag|))
  }

  /** The subtraction that gives the substring's length cannot run below zero. */
  lemma EndBehindTag(uri: Text, tag: Text, begin: nat, end: nat)
    requires SEMICOLON !in tag && TagAt(uri, tag, begin) && begin <= end && TagAt(uri, [SEMICOLON], end)
    ensures begin + |tag| <= end < |uri|
  {
    forall k | begin <= k < begin + |tag| ensures uri[k] != SEMICOLON {
      assert uri[begin + (k - begin)] == tag[k - begin] && tag[k - begin] in tag;
    }
    assert uri[end + 0] == [SEMICOLON][0];
  }

  /** `n` stands in `uri` after the first `tag` and runs up to a semicolon, holding none itself. */
  ghost predicate Carries(uri: Text, tag: Text, n: Text, b: nat) {
    && TagAt(uri, tag, b)
    && (forall i: nat :: i < b ==> !TagAt(uri, tag, i))
    && SEMICOLON !in n
    && TagAt(uri, n, b + |tag|)
    && TagAt(uri, [SEMICOLON], b + |tag| + |n|)
  }

  /** The search-based reader returns exactly what the header carries. */
  lemma FieldAfterMeaning(uri: Text, tag: Text, n: Text)
    requires SEMICOLON !in tag
    ensures FieldAfter(uri, tag) == Some(n) <==> exists b: nat :: Carries(uri, tag, n, b)
  {
    if FieldAfter(uri, tag) == Some(n) {
      var begin := Find(uri, tag, Some(0)).value;
      var end := Find(uri, [SEMICOLON], Some(begin)).value;
      EndBehindTag(uri, tag, begin, end);
      forall i | 0 <= i < |n| ensures n[i] != SEMICOLON {
        assert !TagAt(uri, [SEMICOLON], begin + |tag| + i);
      }
      assert Carries(uri, tag, n, begin);
    }
    forall b: nat | Carries(uri, tag, n, b) ensures FieldAfter(uri, tag) == Some(n) {
      CarriedIsFound(uri, tag, n, b);
    }
  }

  lemma CarriedIsFound(uri: Text, tag: Text, n: Text, b: nat)
    requires SEMICOLON !in tag && Carries(uri, tag, n, b)
    ensures FieldAfter(uri, tag) == Some(n)
  {
    var e := b + |tag| + |n|;
    forall i: nat | b <= i < e ensures !TagAt(uri, [SEMICOLON], i) {
      var x := if i < b + |tag| then tag[i - b] else n[i - b - |tag|];
      assert i < b + |tag| ==> x in tag;
      assert i >= b + |tag| ==> x in n;
      assert uri[i + 0] == x != [SEMICOLON][0];
    }
    assert Find(uri, tag, Some(0)) == Some(b);
    assert Find(uri, [SEMICOLON], Some(b)) == Some(e);
    assert uri[b + |tag|..e] == n;
  }

  function CodeOf(reason: Text): uint16 {
    if reason == UNAVAILABLE then 480 else if reason == USER_BUSY then 486 else 0
  }

  // ---- the parameter block ------------------------------------------------------------------

  datatype Redirection = Redirection(found: bool, rdpn: Text, reason: Text, code: uint16)

  /** What one parameter does to what has been read so far. */
  function Absorb(r: Redirection, p: Param): Redirection {
    if p.OtherParam? then r
    else
      var n, why := FieldAfter(p.value, SIP_TAG), FieldAfter(p.value, REASON_TAG);
      var r1 := if n.Some? then r.(rdpn := n.value, found := true) else r;
      if why.Some? then r1.(reason := why.value, code := CodeOf(why.value)) else r1
  }

  /** `rdpn` is what the caller's string holds before the call. */
  function Redirect(params: seq<Param>, rdpn: Text): Redirection {
    if params == [] then Redirection(false, rdpn, [], 0)
    else Absorb(Redirect(params[..|params| - 1], rdpn), params[|params| - 1])
  }

  /** One of the two fields: find the tag, find the semicolon behind it, take what lies between. */
  method ReadField(uri: Text, tag: Text) returns (found: bool, field: Text)
    requires SEMICOLON !in tag
    ensures (if found then Some(field) else None) == FieldAfter(uri, tag)
  {
    found, field := false, [];
    var begin := Find(uri, tag, Some(0));
    var end := Find(uri, [SEMICOLON], begin);
    if begin.Some? && end.Some? {
      EndBehindTag(uri, tag, begin.value, end.value);
      field := Substr(uri, begin.value + |tag|, end.value - begin.value - |tag|);
      found := true;
    }
  }

  method ReadDiversion(uri: Text, found: bool, rdpn: Text, reason: Text, code: uint16)
    returns (result: bool, rdpn': Text, reason': Text, code': uint16)
    ensures Redirection(result, rdpn', reason', code')
            == Absorb(Redirection(found, rdpn, reason, code), DiversionUri(uri))
  {
    result, rdpn', reason', code' := found, rdpn, reason, code;
    var hasNumber, number := ReadField(uri, SIP_TAG);
    if hasNumber {
      rdpn' := number;
      result := true;
    }
    var hasReason, why := ReadField(uri, REASON_TAG);
    if hasReason {
      reason' := why;
      code' := CodeOf(reason');
    }
  }

  method GetSIPRdPN(params: seq<Param>, before: Text)
    returns (result: bool, rdpn: Text, reason: Text, reasonCode: uint16)
    ensures Redirection(result, rdpn, reason, reasonCode) == Redirect(params, before)
  {
    result, rdpn, reason, reasonCode := false, before, [], 0;
    var i := 0;
    while i < |params|
      invariant 0 <= i <= |params|
      invariant Redirection(result, rdpn, reason, reasonCode) == Redirect(params[..i], before)
    {
      assert params[..i + 1][..i] == params[..i];
      if params[i].DiversionUri? {
        result, rdpn, reason, reasonCode := ReadDiversion(params[i].value, result, rdpn, reason, reasonCode);
      }
      i := i + 1;
    }
    assert params[..i] == params;
  }

  ghost predicate Complete(p: Param, tag: Text)
    requires SEMICOLON !in tag
  {
    p.DiversionUri? && FieldAfter(p.value, tag).Some?
  }

  /** The last Diversion value in which the field is complete. */
  ghost predicate LastComplete(params: seq<Param>, tag: Text, k: nat)
    requires SEMICOLON !in tag
  {
    && k < |params| && Complete(params[k], tag)
    && forall j :: k < j < |params| ==> !Complete(params[j], tag)
  }

  lemma LastCompleteSnoc(params: seq<Param>, p: Param, tag: Text, k: nat)
    requires SEMICOLON !in tag
    ensures LastComplete(params + [p], tag, k) <==>
            if Complete(p, tag) then k == |params| else LastComplete(params, tag, k)
  {
    assert (params + [p])[|params|] == p;
    assert forall j :: 0 <= j < |params| ==> (params + [p])[j] == params[j];
  }

  /**
   Number and reason are each those of the last value in which they are
   complete; without one they are as at the start.
   */
  lemma {:induction false} RedirectMeaning(params: seq<Param>, rdpn: Text, k: nat)
    ensures var r := Redirect(params, rdpn);
            && (LastComplete(params, SIP_TAG, k) ==>
                  r.found && FieldAfter(params[k].value, SIP_TAG) == Some(r.rdpn))
            && (LastComplete(params, REASON_TAG, k) ==> FieldAfter(params[k].value, REASON_TAG) == Some(r.reason))
  {
    if params != [] {
      var before, p := params[..|params| - 1], params[|params| - 1];
      assert params == before + [p];
      RedirectMeaning(before, rdpn, k);
      LastCompleteSnoc(before, p, SIP_TAG, k);
      LastCompleteSnoc(before, p, REASON_TAG, k);
    }
  }

  ghost predicate NoneComplete(params: seq<Param>, tag: Text)
    requires SEMICOLON !in tag
  {
    forall k :: 0 <= k < |params| ==> !Complete(params[k], tag)
  }

  /** One more value: a number was complete before or is complete in it. */
  lemma CompleteSnoc(params: seq<Param>, p: Param, tag: Text)
    requires SEMICOLON !in tag
    ensures NoneComplete(params + [p], tag) <==> NoneComplete(params, tag) && !Complete(p, tag)
  {
    assert (params + [p])[|params|] == p;
    assert forall k :: 0 <= k < |params| ==> (params + [p])[k] == params[k];
  }

  /** What one more value changes, and what it leaves. */
  lemma AbsorbMeaning(r: Redirection, p: Param)
    ensures var r' := Absorb(r, p);
            && (r'.found <==> r.found || Complete(p, SIP_TAG))
            && (!Complete(p, SIP_TAG) ==> r'.rdpn == r.rdpn)
            && (!Complete(p, REASON_TAG) ==> r'.reason == r.reason)
            && (r.code == CodeOf(r.reason) ==> r'.code == CodeOf(r'.reason))
  {
  }

  ghost predicate AsRead(r: Redirection, params: seq<Param>, rdpn: Text) {
    && (!r.found <==> NoneComplete(params, SIP_TAG))
    && (!r.found ==> r.rdpn == rdpn)
    && (NoneComplete(params, REASON_TAG) ==> r.reason == [])
    && r.code == CodeOf(r.reason)
  }

  lemma RedirectLast(params: seq<Param>, rdpn: Text)
    requires params != []
    ensures var before, p := params[..|params| - 1], params[|params| - 1];
            params == before + [p] && Redirect(params, rdpn) == Absorb(Redirect(before, rdpn), p)
  {
  }

  lemma AbsorbAsRead(r: Redirection, params: seq<Param>, rdpn: Text, p: Param)
    requires AsRead(r, params, rdpn)
    ensures AsRead(Absorb(r, p), params + [p], rdpn)
  {
    AbsorbMeaning(r, p);
    CompleteSnoc(params, p, SIP_TAG);
    CompleteSnoc(params, p, REASON_TAG);
  }

  /** No complete value, no change: and `found` says exactly whether a number was complete. */
  lemma {:induction false} RedirectDefault(params: seq<Param>, rdpn: Text)
    ensures AsRead(Redirect(params, rdpn), params, rdpn)
  {
    if params != [] {
      var before, p := params[..|params| - 1], params[|params| - 1];
      RedirectDefault(before, rdpn);
      AbsorbAsRead(Redirect(before, rdpn), before, rdpn, p);
      RedirectLast(params, rdpn);
    }
  }

  // ---- a printed header ---------------------------------------------------------------------------

  const HEAD: Text := [60, 115, 105, 112, 58]                                                // "<sip:"
  const MIDDLE: Text := [59, 117, 115, 101, 114, 61, 112, 104, 111, 110, 101, 62, 59]        // ";user=phone>;"

  /** A header of the shape the source quotes; `rest` is whatever follows the reason. */
  function Header(number: Text, reason: Text, rest: Text): Text {
    HEAD + number + (MIDDLE + (REASON_TAG + reason + ([SEMICOLON] + rest)))
  }

  lemma CarriedAfter(before: Text, tag: Text, n: Text, rest: Text)
    requires SEMICOLON !in tag && SEMICOLON !in n
    requires forall i: nat :: i < |before| ==> !TagAt(before + (tag + n + ([SEMICOLON] + rest)), tag, i)
    ensures FieldAfter(before + (tag + n + ([SEMICOLON] + rest)), tag) == Some(n)
  {
    var uri := before + (tag + n + ([SEMICOLON] + rest));
    assert forall k :: 0 <= k < |tag| ==> uri[|before| + k] == tag[k];
    assert forall k :: 0 <= k < |n| ==> uri[|before| + |tag| + k] == n[k];
    assert uri[|before| + |tag| + |n| + 0] == SEMICOLON;
    assert Carries(uri, tag, n, |before|);
    FieldAfterMeaning(uri, tag, n);
  }

  lemma FieldHasNoSemicolon(uri: Text, tag: Text)
    requires SEMICOLON !in tag
    ensures FieldAfter(uri, tag).Some? ==> SEMICOLON !in FieldAfter(uri, tag).value
  {
    if FieldAfter(uri, tag).Some? {
      FieldAfterMeaning(uri, tag, FieldAfter(uri, tag).value);
    }
  }

  /** The number of a printed header is read back if and only if it holds no semicolon. */
  lemma NumberRoundTrip(number: Text, reason: Text, rest: Text)
    ensures FieldAfter(Header(number, reason, rest), SIP_TAG) == Some(number) <==> SEMICOLON !in number
  {
    var uri := Header(number, reason, rest);
    FieldHasNoSemicolon(uri, SIP_TAG);
    if SEMICOLON !in number {
      var after := REASON_TAG + reason + ([SEMICOLON] + rest);
      assert MIDDLE + after == [SEMICOLON] + (MIDDLE[1..] + after);
      HeadSplits(number, [SEMICOLON] + (MIDDLE[1..] + after));
      assert uri[0 + 0] == HEAD[0] != SIP_TAG[0];
      CarriedAfter(HEAD[..1], SIP_TAG, number, MIDDLE[1..] + after);
    }
  }

  lemma HeadSplits(number: Text, after: Text)
    ensures HEAD + number + after == HEAD[..1] + (SIP_TAG + number + after)
  {
    assert HEAD == HEAD[..1] + SIP_TAG;
  }

  /** With a clean number, the reason is read back if and only if it holds no semicolon. */
  lemma ReasonRoundTrip(number: Text, reason: Text, rest: Text)
    requires SEMICOLON !in number && forall i: nat :: !TagAt(number, REASON_TAG, i)
    ensures FieldAfter(Header(number, reason, rest), REASON_TAG) == Some(reason) <==> SEMICOLON !in reason
  {
    var uri := Header(number, reason, rest);
    FieldHasNoSemicolon(uri, REASON_TAG);
    if SEMICOLON !in reason {
      var before := HEAD + number + MIDDLE;
      var after := REASON_TAG + reason + ([SEMICOLON] + rest);
      assert uri == before + after;
      forall i: nat | i < |before| ensures !TagAt(uri, REASON_TAG, i) {
        NoReasonBefore(number, reason, rest, i);
      }
      CarriedAfter(before, REASON_TAG, reason, rest);
    }
  }

  lemma NoReasonBefore(number: Text, reason: Text, rest: Text, i: nat)
    requires SEMICOLON !in number && forall j: nat :: !TagAt(number, REASON_TAG, j)
    requires i < |HEAD| + |number| + |MIDDLE|
    ensures !TagAt(Header(number, reason, rest), REASON_TAG, i)
  {
    var uri := Header(number, reason, rest);
    var m := |HEAD| + |number|;
    if i < |HEAD| {
      assert uri[i + 0] == HEAD[i] != REASON_TAG[0];
    } else if i + |REASON_TAG| <= m {
      assert !TagAt(number, REASON_TAG, i - |HEAD|);
      var k :| 0 <= k < |REASON_TAG| && number[i - |HEAD| + k] != REASON_TAG[k];
      assert uri[i + k] == number[i - |HEAD| + k];
    } else if i <= m {
      assert uri[i + (m - i)] == MIDDLE[0] != REASON_TAG[m - i];
    } else if i == m + 4 {
      assert uri[i + 1] == MIDDLE[5] != REASON_TAG[1];
    } else {
      assert uri[i + 0] == MIDDLE[i - m] != REASON_TAG[0];
    }
  }

  // ---- the reason code's way to the library ---------------------------------------------------------

  /** The reasons handed to gc_DropCall. */
  datatype DropReason = NormalClearing | InternalNormal | Status480 | Status486

  function ToDialogic(code: int): DropReason {
    if code == 480 then Status480 else if code == 486 then Status486 else InternalNormal
  }

  /**
   What the missed-call service answers to a request: a DROP with the reason of
   the OFFERED event; any other event is echoed.  None is a malformed request.
   */
  function MissedCall(data: seq<byte>): Option<seq<byte>> {
    if data == [] then None
    else if data[0] != OFFERED then Some(data)
    else
      match DecodeUnchecked(data[1..])
      case Read(o) => Some(EncodeCommand(Drop(o.reason)))
      case Raised(_) => None
  }

  /** The service answers every event that fits its length octets with a DROP of the same reason. */
  lemma MissedCallAnswers(o: Offered)
    requires |o.cgpn| <= 255 && |o.cdpn| <= 255 && |o.rdpn| <= 255
    ensures MissedCall(EncodeEvent(EvOffered(o))) == Some(EncodeCommand(Drop(o.reason)))
  {
    OfferedRoundTripLimit(o);
    ReadersAgree(EncodeOffered(o));
    assert EncodeEvent(EvOffered(o))[1..] == EncodeOffered(o);
  }
}

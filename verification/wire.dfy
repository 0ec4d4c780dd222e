/**
 The octets that the call server (SSP) and the service logic (SCP) exchange:
 events one way, commands the other, each under its own reader and writer.
 A text is carried as its ASCII octets.
 */
module Wire {
  import opened Bytes

  type Text = seq<byte>

  type int32 = n: int | -0x8000_0000 <= n < 0x8000_0000

  const OFFERED: byte := 0
  const ANSWERED: byte := 1
  const PLAY_FINISHED: byte := 5
  const CMD_DROP: byte := 0
  const CMD_ANSWER: byte := 1
  const CMD_PLAY: byte := 2

  datatype Offered = Offered(cgpn: Text, cdpn: Text, rdpn: Text, reason: uint16)

  datatype Event = EvOffered(body: Offered) | EvAnswered | EvPlayFinished(result: int32)

  datatype Command = Drop(reason: uint16) | Answer | Play(fragment: Text)

  // ---- the C++ writers of events -----------------------------------------------

  /** A length octet, which is the low octet of the size, and then the whole text. */
  function Field(t: Text): seq<byte> {
    [|t| % 256] + t
  }

  function EncodeOffered(o: Offered): seq<byte> {
    Field(o.cgpn) + Field(o.cdpn) + Field(o.rdpn) + Le16(o.reason)
  }

  function EventCode(e: Event): byte {
    match e
    case EvOffered(_) => OFFERED
    case EvAnswered => ANSWERED
    case EvPlayFinished(_) => PLAY_FINISHED
  }

  /** The two's complement image of an int. */
  function ToUnsigned(n: int32): uint32 {
    if n < 0 then n + 0x1_0000_0000 else n
  }

  function EncodeBody(e: Event): seq<byte> {
    match e
    case EvOffered(o) => EncodeOffered(o)
    case EvAnswered => []
    case EvPlayFinished(result) => Le32(ToUnsigned(result))
  }

  function EncodeEvent(e: Event): seq<byte> {
    [EventCode(e)] + EncodeBody(e)
  }

  lemma Associative(a: seq<byte>, b: seq<byte>, c: seq<byte>)
    ensures (a + b) + c == a + (b + c)
  {
  }

  class OutStream {
    var bytes: seq<byte>

    constructor ()
      ensures bytes == []
    {
      bytes := [];
    }

    method Write(bs: seq<byte>)
      modifies this
      ensures bytes == old(bytes) + bs
    {
      bytes := bytes + bs;
    }

    /** serializeImpl of OFFERED, one field after the other through one size variable. */
    method SerializeOffered(o: Offered)
      modifies this
      ensures bytes == old(bytes) + EncodeOffered(o)
    {
      var size := |o.cgpn|;
      Write([size % 256]);
      Write(o.cgpn);
      size := |o.cdpn|;
      Write([size % 256]);
      Write(o.cdpn);
      size := |o.rdpn|;
      Write([size % 256]);
      Write(o.rdpn);
      Write(Le16(o.reason));
      assert bytes == old(bytes) + EncodeOffered(o);
    }

    method Serialize(e: Event)
      modifies this
      ensures bytes == old(bytes) + EncodeEvent(e)
    {
      Write([EventCode(e)]);
      ghost var start := bytes;
      Associative(old(bytes), [EventCode(e)], EncodeBody(e));
      match e {
        case EvOffered(o) => SerializeOffered(o);
        case EvAnswered =>
        case EvPlayFinished(result) => Write(Le32(ToUnsigned(result)));
      }
      assert bytes == start + EncodeBody(e);
    }
  }

  // ---- the Python writer of OFFERED ----------------------------------------------

  predicate Packable(cgpn: Text, cdpn: Text, rdpn: Text, reason: int) {
    |cgpn| <= 255 && |cdpn| <= 255 && |rdpn| <= 255 && 0 <= reason < 0x1_0000
  }

  /** None stands for the struct.error that a length or a reason out of range raises. */
  method Pack(cgpn: Text, cdpn: Text, rdpn: Text, reason: int) returns (data: Option<seq<byte>>)
    ensures data.Some? <==> Packable(cgpn, cdpn, rdpn, reason)
    ensures data.Some? ==> data.value == EncodeOffered(Offered(cgpn, cdpn, rdpn, reason))
  {
    var buffer: seq<byte> := [];
    if |cgpn| > 255 { return None; }
    buffer := buffer + [|cgpn|];
    buffer := buffer + cgpn;
    if |cdpn| > 255 { return None; }
    buffer := buffer + [|cdpn|];
    buffer := buffer + cdpn;
    if |rdpn| > 255 { return None; }
    buffer := buffer + [|rdpn|];
    buffer := buffer + rdpn;
    if reason < 0 || reason >= 0x1_0000 { return None; }
    buffer := buffer + Le16(reason);
    assert buffer == EncodeOffered(Offered(cgpn, cdpn, rdpn, reason));
    data := Some(buffer);
  }

  // ---- the checked reader of OFFERED ------------------------------------------------

  /** The text at `at` and the position after it; None stands for StreamReadException. */
  function ReadStr(data: seq<byte>, at: nat): (r: Option<(Text, nat)>)
    ensures r.Some? ==> r.value.1 == at + 1 + |r.value.0| <= |data|
  {
    if at >= |data| then None
    else
      var len := data[at];
      if |data| < at + 1 + len then None else Some((data[at + 1..at + 1 + len], at + 1 + len))
  }

  /** The position returned is one too far, as in the source; nothing reads there. */
  function Read2Bytes(data: seq<byte>, at: nat): Option<(uint16, nat)> {
    if |data| < at + 2 then None else Some((FromLe16(data[at..at + 2]), at + 3))
  }

  function Decode(data: seq<byte>): Option<Offered> {
    var cgpn := ReadStr(data, 0);
    if cgpn.None? then None else
    var cdpn := ReadStr(data, cgpn.value.1);
    if cdpn.None? then None else
    var rdpn := ReadStr(data, cdpn.value.1);
    if rdpn.None? then None else
    var reason := Read2Bytes(data, rdpn.value.1);
    if reason.None? then None else
    Some(Offered(cgpn.value.0, cdpn.value.0, rdpn.value.0, reason.value.0))
  }

  class EvOfferedReader {
    var CgPN: Text
    var CdPN: Text
    var RdPN: Text
    var reason: uint16

    constructor ()
      ensures CgPN == CdPN == RdPN == [] && reason == 0
    {
      CgPN, CdPN, RdPN, reason := [], [], [], 0;
    }

    /** The checked unpack: true exactly when all four fields could be read. */
    method Unpack(data: seq<byte>) returns (ok: bool)
      modifies this
      ensures ok == Decode(data).Some?
      ensures ok ==> Offered(CgPN, CdPN, RdPN, reason) == Decode(data).value
      ensures !ok ==> reason == old(reason)
    {
      var paramPtr := 0;
      var s := ReadStr(data, paramPtr);
      if s.None? { return false; }
      CgPN, paramPtr := s.value.0, s.value.1;
      s := ReadStr(data, paramPtr);
      if s.None? { return false; }
      CdPN, paramPtr := s.value.0, s.value.1;
      s := ReadStr(data, paramPtr);
      if s.None? { return false; }
      RdPN, paramPtr := s.value.0, s.value.1;
      var n := Read2Bytes(data, paramPtr);
      if n.None? { return false; }
      reason, paramPtr := n.value.0, n.value.1;
      ok := true;
    }

    /** The unchecked unpack: it indexes, slices and lets the exceptions out. */
    method UnpackUnchecked(data: seq<byte>) returns (r: Outcome)
      modifies this
      ensures r == (match DecodeUnchecked(data) case Read(_) => Returned case Raised(e) => e)
      ensures r.Returned? ==> Offered(CgPN, CdPN, RdPN, reason) == DecodeUnchecked(data).o
    {
      var paramPtr := 0;
      var cgpn := SliceText(data, paramPtr);
      if cgpn.None? { return IndexError; }
      CgPN, paramPtr := cgpn.value.0, cgpn.value.1;
      var cdpn := SliceText(data, paramPtr);
      if cdpn.None? { return IndexError; }
      CdPN, paramPtr := cdpn.value.0, cdpn.value.1;
      var rdpn := SliceText(data, paramPtr);
      if rdpn.None? { return IndexError; }
      RdPN, paramPtr := rdpn.value.0, rdpn.value.1;
      var two := Slice(data, paramPtr, paramPtr + 2);
      if |two| != 2 { return StructError; }
      reason := FromLe16(two);
      r := Returned;
    }
  }

  // ---- the unchecked reader of OFFERED -------------------------------------------------

  datatype Outcome = Returned | IndexError | StructError

  datatype Unchecked = Read(o: Offered) | Raised(e: Outcome)

  /** A Python slice: bounds past the end are clamped. */
  function Slice(data: seq<byte>, from: nat, to: nat): seq<byte>
    requires from <= to
  {
    if from >= |data| then [] else if to >= |data| then data[from..] else data[from..to]
  }

  /** The text at `at`, as far as it is there, and where the next one should be; None stands for IndexError. */
  function SliceText(data: seq<byte>, at: nat): Option<(Text, nat)> {
    if at >= |data| then None
    else
      var len: int := data[at];
      Some((Slice(data, at + 1, at + 1 + len), at + len + 1))
  }

  function DecodeUnchecked(data: seq<byte>): Unchecked {
    var cgpn := SliceText(data, 0);
    if cgpn.None? then Raised(IndexError) else
    var cdpn := SliceText(data, cgpn.value.1);
    if cdpn.None? then Raised(IndexError) else
    var rdpn := SliceText(data, cdpn.value.1);
    if rdpn.None? then Raised(IndexError) else
    var two := Slice(data, rdpn.value.1, rdpn.value.1 + 2);
    if |two| != 2 then Raised(StructError) else
    Read(Offered(cgpn.value.0, cdpn.value.0, rdpn.value.0, FromLe16(two)))
  }

  // ---- what the OFFERED readers and writers promise -------------------------------------

  lemma ReadStrField(before: seq<byte>, t: Text, after: seq<byte>)
    requires |t| <= 255
    ensures ReadStr(before + Field(t) + after, |before|) == Some((t, |before| + |Field(t)|))
  {
    var data := before + Field(t) + after;
    assert data[|before|] == |t|;
    assert data[|before| + 1..|before| + 1 + |t|] == t;
  }

  lemma ReadThreeFields(x: Text, y: Text, z: Text, rest: seq<byte>)
    requires |x| <= 255 && |y| <= 255 && |z| <= 255
    ensures var data := Field(x) + Field(y) + Field(z) + rest;
            && ReadStr(data, 0) == Some((x, |Field(x)|))
            && ReadStr(data, |Field(x)|) == Some((y, |Field(x) + Field(y)|))
            && ReadStr(data, |Field(x) + Field(y)|) == Some((z, |Field(x) + Field(y) + Field(z)|))
  {
    var data := Field(x) + Field(y) + Field(z) + rest;
    ReadStrField([], x, Field(y) + Field(z) + rest);
    assert data == [] + Field(x) + (Field(y) + Field(z) + rest);
    ReadStrField(Field(x), y, Field(z) + rest);
    assert data == Field(x) + Field(y) + (Field(z) + rest);
    ReadStrField(Field(x) + Field(y), z, rest);
  }

  lemma ReadReason(before: seq<byte>, n: uint16, trailing: seq<byte>)
    ensures Read2Bytes(before + Le16(n) + trailing, |before|) == Some((n, |before| + 3))
  {
    var data := before + Le16(n) + trailing;
    assert data[|before|..|before| + 2] == Le16(n);
  }

  /** The checked reader undoes either writer, whatever follows the body. */
  lemma OfferedRoundTrip(o: Offered, trailing: seq<byte>)
    requires |o.cgpn| <= 255 && |o.cdpn| <= 255 && |o.rdpn| <= 255
    ensures Decode(EncodeOffered(o) + trailing) == Some(o)
  {
    var fields := Field(o.cgpn) + Field(o.cdpn) + Field(o.rdpn);
    ReadThreeFields(o.cgpn, o.cdpn, o.rdpn, Le16(o.reason) + trailing);
    ReadReason(fields, o.reason, trailing);
    assert EncodeOffered(o) + trailing == fields + (Le16(o.reason) + trailing);
    assert EncodeOffered(o) + trailing == fields + Le16(o.reason) + trailing;
  }

  /** A text too long for its length octet never comes back: the limit is exact. */
  lemma OfferedRoundTripLimit(o: Offered)
    ensures Decode(EncodeOffered(o)) == Some(o) <==> |o.cgpn| <= 255 && |o.cdpn| <= 255 && |o.rdpn| <= 255
  {
    if |o.cgpn| <= 255 && |o.cdpn| <= 255 && |o.rdpn| <= 255 {
      OfferedRoundTrip(o, []);
      assert EncodeOffered(o) + [] == EncodeOffered(o);
    }
  }

  /** Whatever is decoded, re-encoding it gives the octets that were read. */
  lemma DecodedIsEncoded(data: seq<byte>)
    requires Decode(data).Some?
    ensures var o := Decode(data).value;
            EncodeOffered(o) <= data && |o.cgpn| <= 255 && |o.cdpn| <= 255 && |o.rdpn| <= 255
  {
    var o := Decode(data).value;
    var p1 := ReadStr(data, 0).value.1;
    var p2 := ReadStr(data, p1).value.1;
    var p3 := ReadStr(data, p2).value.1;
    assert data[..p1] == Field(o.cgpn);
    assert data[p1..p2] == Field(o.cdpn);
    assert data[p2..p3] == Field(o.rdpn);
    assert data[p3..p3 + 2] == Le16(o.reason);
    assert data[..p3 + 2] == data[..p1] + data[p1..p2] + data[p2..p3] + data[p3..p3 + 2];
  }

  lemma ReadStrMore(data: seq<byte>, more: seq<byte>, at: nat)
    requires ReadStr(data, at).Some?
    ensures ReadStr(data + more, at) == ReadStr(data, at)
  {
    var len := data[at];
    assert (data + more)[at] == len;
    assert (data + more)[at + 1..at + 1 + len] == data[at + 1..at + 1 + len];
  }

  /** Octets after a body that was read in full change nothing. */
  lemma MoreChangesNothing(data: seq<byte>, more: seq<byte>)
    requires Decode(data).Some?
    ensures Decode(data + more) == Decode(data)
  {
    var p1 := ReadStr(data, 0).value.1;
    var p2 := ReadStr(data, p1).value.1;
    var p3 := ReadStr(data, p2).value.1;
    ReadStrMore(data, more, 0);
    ReadStrMore(data, more, p1);
    ReadStrMore(data, more, p2);
    assert (data + more)[p3..p3 + 2] == data[p3..p3 + 2];
  }

  /** Every proper prefix of a body is rejected. */
  lemma PrefixRejected(o: Offered, n: nat)
    requires |o.cgpn| <= 255 && |o.cdpn| <= 255 && |o.rdpn| <= 255
    requires n < |EncodeOffered(o)|
    ensures Decode(EncodeOffered(o)[..n]) == None
  {
    var body := EncodeOffered(o);
    assert body == body[..n] + body[n..];
    OfferedRoundTripLimit(o);
    if Decode(body[..n]).Some? {
      MoreChangesNothing(body[..n], body[n..]);
      DecodedIsEncoded(body[..n]);
    }
  }

  /** The two readers accept the same octets and read the same fields from them. */
  lemma ReadersAgree(data: seq<byte>)
    ensures Decode(data) == (match DecodeUnchecked(data) case Read(o) => Some(o) case Raised(_) => None)
  {
    if Decode(data).Some? {
      var p1 := ReadStr(data, 0).value.1;
      var p2 := ReadStr(data, p1).value.1;
      var p3 := ReadStr(data, p2).value.1;
      SliceIsRead(data, 0);
      SliceIsRead(data, p1);
      SliceIsRead(data, p2);
      SliceInside(data, p3, p3 + 2);
    } else {
      ReadIsDecoded(data);
    }
  }

  /** A slice that ends within the octets is a text that the checked reader reads. */
  lemma SliceWithin(data: seq<byte>, at: nat)
    requires SliceText(data, at).Some? && SliceText(data, at).value.1 <= |data|
    ensures ReadStr(data, at) == SliceText(data, at)
  {
    SliceInside(data, at + 1, at + 1 + data[at]);
  }

  lemma ReadIsDecoded(data: seq<byte>)
    ensures DecodeUnchecked(data).Read? ==> Decode(data).Some?
  {
    if DecodeUnchecked(data).Read? {
      var q1 := SliceText(data, 0).value.1;
      var q2 := SliceText(data, q1).value.1;
      SliceWithin(data, 0);
      SliceWithin(data, q1);
      SliceWithin(data, q2);
    }
  }

  /** What the checked reader reads, the slice gives as well. */
  lemma SliceIsRead(data: seq<byte>, at: nat)
    requires ReadStr(data, at).Some?
    ensures SliceText(data, at) == ReadStr(data, at)
  {
    SliceInside(data, at + 1, at + 1 + data[at]);
  }

  lemma SliceInside(data: seq<byte>, from: nat, to: nat)
    requires from <= to <= |data|
    ensures Slice(data, from, to) == data[from..to]
  {
  }

  /** No two events are written alike, as far as their texts fit the length octets. */
  lemma EventsDiffer(a: Event, b: Event)
    requires a.EvOffered? ==> |a.body.cgpn| <= 255 && |a.body.cdpn| <= 255 && |a.body.rdpn| <= 255
    requires b.EvOffered? ==> |b.body.cgpn| <= 255 && |b.body.cdpn| <= 255 && |b.body.rdpn| <= 255
    ensures EncodeEvent(a) == EncodeEvent(b) ==> a == b
  {
    if EncodeEvent(a) == EncodeEvent(b) {
      assert EncodeEvent(a)[0] == EncodeEvent(b)[0];
      assert EncodeBody(a) == EncodeEvent(a)[1..] == EncodeEvent(b)[1..] == EncodeBody(b);
      if a.EvOffered? {
        OfferedRoundTripLimit(a.body);
        OfferedRoundTripLimit(b.body);
      } else if a.EvPlayFinished? {
        Le32Inverse(ToUnsigned(a.result));
        Le32Inverse(ToUnsigned(b.result));
      }
    }
  }

  /** The Python writers of commands. */

  // ---- commands ---------------------------------------------------------------------------

  function EncodeCommand(c: Command): seq<byte>
    requires c.Play? ==> |c.fragment| < 0x1_0000
  {
    match c
    case Drop(reason) => [CMD_DROP] + Le16(reason)
    case Answer => [CMD_ANSWER]
    case Play(fragment) => [CMD_PLAY] + Le16(|fragment|) + fragment
  }

  /** The reads that the command factories rely on: the 16-bit field is there. */
  predicate Readable(data: seq<byte>) {
    && data != []
    && (data[0] == CMD_DROP || data[0] == CMD_PLAY ==> |data| >= 3)
  }

  function Zeros(n: nat): (z: seq<byte>)
    ensures |z| == n
  {
    seq(n, i => 0)
  }

  /** The factory lookup and Construct; None stands for the lookup that throws. */
  function ParseCommand(data: seq<byte>): Option<Command>
    requires Readable(data)
  {
    if data[0] == CMD_DROP then Some(Drop(FromLe16(data[1..])))
    else if data[0] == CMD_ANSWER then Some(Answer)
    else if data[0] == CMD_PLAY then
      var size, text := FromLe16(data[1..]), data[3..];
      Some(Play(if |text| >= size then text[..size] else text + Zeros(size - |text|)))
    else None
  }

  class InStream {
    var bytes: seq<byte>

    constructor (bytes: seq<byte>)
      ensures this.bytes == bytes
    {
      this.bytes := bytes;
    }

    /** read() into a buffer that holds `into`: what is missing keeps its old octets. */
    method Read(into: seq<byte>) returns (out: seq<byte>)
      modifies this
      ensures |out| == |into|
      ensures |old(bytes)| >= |into| ==> out == old(bytes)[..|into|] && bytes == old(bytes)[|into|..]
      ensures |old(bytes)| < |into| ==> out == old(bytes) + into[|old(bytes)|..] && bytes == []
    {
      if |bytes| >= |into| {
        out := bytes[..|into|];
        bytes := bytes[|into|..];
      } else {
        out := bytes + into[|bytes|..];
        bytes := [];
      }
    }

    method ConstructDrop() returns (c: Command)
      requires |bytes| >= 2
      modifies this
      ensures Some(c) == ParseCommand([CMD_DROP] + old(bytes))
    {
      var reason := Read(Zeros(2));
      c := Drop(FromLe16(reason));
      assert ([CMD_DROP] + old(bytes))[1..] == old(bytes);
    }

    method ConstructPlay() returns (c: Command)
      requires |bytes| >= 2
      modifies this
      ensures Some(c) == ParseCommand([CMD_PLAY] + old(bytes))
    {
      var sizeBytes := Read(Zeros(2));
      var size := FromLe16(sizeBytes);
      var fragment := Zeros(size);
      assert forall k :: 0 <= k <= size ==> fragment[k..] == Zeros(size - k);
      fragment := Read(fragment);
      c := Play(fragment);
      assert ([CMD_PLAY] + old(bytes))[1..] == old(bytes);
      assert ([CMD_PLAY] + old(bytes))[3..] == old(bytes)[2..];
    }
  }

  method Construct(data: seq<byte>) returns (c: Option<Command>)
    requires Readable(data)
    ensures c == ParseCommand(data)
  {
    var payload := new InStream(data[1..]);
    if data[0] == CMD_DROP {
      assert [CMD_DROP] + data[1..] == data;
      var d := payload.ConstructDrop();
      c := Some(d);
    } else if data[0] == CMD_ANSWER {
      c := Some(Answer);
    } else if data[0] == CMD_PLAY {
      assert [CMD_PLAY] + data[1..] == data;
      var p := payload.ConstructPlay();
      c := Some(p);
    } else {
      c := None;
    }
  }

  /** Every command survives the trip, whatever follows it. */
  lemma CommandRoundTrip(c: Command, trailing: seq<byte>)
    requires c.Play? ==> |c.fragment| < 0x1_0000
    ensures Readable(EncodeCommand(c) + trailing)
    ensures ParseCommand(EncodeCommand(c) + trailing) == Some(c)
  {
    var data := EncodeCommand(c) + trailing;
    match c
    case Drop(reason) =>
      Le16RoundTrip([CMD_DROP], reason, trailing);
    case Answer =>
    case Play(fragment) =>
      Le16RoundTrip([CMD_PLAY], |fragment|, fragment + trailing);
      assert data == [CMD_PLAY] + Le16(|fragment|) + (fragment + trailing);
      assert data[3..] == fragment + trailing;
  }
}

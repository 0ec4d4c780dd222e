/** Octets and the little-endian integers that both ends of the wire use. */
module Bytes {

  type byte = b: int | 0 <= b < 256

  type uint16 = n: int | 0 <= n < 0x1_0000

  type uint32 = n: int | 0 <= n < 0x1_0000_0000

  /** The size of the buffers that both transports receive into. */
  const MAX_DATAGRAM_SIZE := 1492

  datatype Option<+T> = None | Some(value: T)

  function Le16(n: uint16): (bs: seq<byte>)
    ensures |bs| == 2
  {
    [n % 256, n / 256]
  }

  function FromLe16(bs: seq<byte>): uint16
    requires |bs| >= 2
  {
    var lo: int, hi: int := bs[0], bs[1];
    lo + 256 * hi
  }

  function Le32(n: uint32): (bs: seq<byte>)
    ensures |bs| == 4
  {
    [n % 256, n / 256 % 256, n / 0x1_0000 % 256, n / 0x100_0000]
  }

  function FromLe32(bs: seq<byte>): uint32
    requires |bs| >= 4
  {
    var b0: int, b1: int, b2: int, b3: int := bs[0], bs[1], bs[2], bs[3];
    b0 + 256 * b1 + 0x1_0000 * b2 + 0x100_0000 * b3
  }

  /** Reading a 16-bit field at any offset undoes writing it there. */
  lemma Le16RoundTrip(before: seq<byte>, n: uint16, after: seq<byte>)
    ensures FromLe16((before + Le16(n) + after)[|before|..]) == n
  {
    assert (before + Le16(n) + after)[|before|..] == Le16(n) + after;
  }

  lemma Le32Inverse(n: uint32)
    ensures FromLe32(Le32(n)) == n
  {
    var q := n / 256;
    assert n == n % 256 + 256 * q && q == q % 256 + 256 * (q / 256) && q / 256 == n / 0x1_0000;
    assert n / 0x1_0000 == n / 0x1_0000 % 256 + 256 * (n / 0x100_0000);
  }

  /** Reading a 32-bit field at any offset undoes writing it there. */
  lemma Le32RoundTrip(before: seq<byte>, n: uint32, after: seq<byte>)
    ensures FromLe32((before + Le32(n) + after)[|before|..]) == n
  {
    assert (before + Le32(n) + after)[|before|..] == Le32(n) + after;
    Le32Inverse(n);
  }

  /** Writing the number read from four octets gives the four octets back. */
  lemma Le32Onto(bs: seq<byte>)
    requires |bs| == 4
    ensures Le32(FromLe32(bs)) == bs
  {
    var n := FromLe32(bs);
    var b1: int, b2: int, b3: int := bs[1], bs[2], bs[3];
    assert n / 256 == b1 + 256 * b2 + 0x1_0000 * b3;
    assert n / 0x1_0000 == b2 + 256 * b3;
    assert n / 0x100_0000 == b3;
  }
}

/**
 Bytes, fixed-width integers and the big- and little-endian field encodings
 shared by the chunk stream, AMF0 and FLV formats (librtmp/amf.c, librtmp/rtmp.c).
 */
module Bytes {
  const TWO_24: int := 0x100_0000
  const TWO_32: int := 0x1_0000_0000

  type byte = x: int | 0 <= x < 0x100
  type uint32 = x: int | 0 <= x < 0x1_0000_0000
  type int32 = x: int | -0x8000_0000 <= x < 0x8000_0000

  /** Unsigned 32-bit wrap-around. */
  function Wrap(x: int): uint32 {
    x % 0x1_0000_0000
  }

  /** Reinterprets an unsigned 32-bit pattern as a two's-complement `int`. */
  function AsInt32(x: uint32): int32 {
    if x < 0x8000_0000 then x else x - 0x1_0000_0000
  }

  // A C `char` store keeps the low eight bits; `>>` on a negative `int` rounds down,
  // as Dafny's `/` does for a positive divisor.

  function EncodeInt16(n: int): (b: seq<byte>)
    ensures |b| == 2
  {
    [n / 0x100 % 0x100, n % 0x100]
  }

  function EncodeInt24(n: int): (b: seq<byte>)
    ensures |b| == 3
  {
    [n / 0x1_0000 % 0x100, n / 0x100 % 0x100, n % 0x100]
  }

  function EncodeInt32(n: int): (b: seq<byte>)
    ensures |b| == 4
  {
    [n / 0x100_0000 % 0x100, n / 0x1_0000 % 0x100, n / 0x100 % 0x100, n % 0x100]
  }

  function EncodeInt32LE(n: int): (b: seq<byte>)
    ensures |b| == 4
  {
    [n % 0x100, n / 0x100 % 0x100, n / 0x1_0000 % 0x100, n / 0x100_0000 % 0x100]
  }

  /** Bytes as the characters they stand for in ASCII. */
  function Text(b: seq<byte>): string {
    seq(|b|, i requires 0 <= i < |b| => b[i] as char)
  }

  function DecodeInt16(b: seq<byte>): nat
    requires |b| >= 2
  {
    b[0] as int * 0x100 + b[1]
  }

  function DecodeInt24(b: seq<byte>): nat
    requires |b| >= 3
  {
    b[0] as int * 0x1_0000 + b[1] as int * 0x100 + b[2]
  }

  function DecodeInt32(b: seq<byte>): uint32
    requires |b| >= 4
  {
    b[0] as int * 0x100_0000 + b[1] as int * 0x1_0000 + b[2] as int * 0x100 + b[3]
  }

  function DecodeInt32LE(b: seq<byte>): int32
    requires |b| >= 4
  {
    AsInt32(b[3] as int * 0x100_0000 + b[2] as int * 0x1_0000 + b[1] as int * 0x100 + b[0])
  }

  /** The low `k + 1` bytes of `n` are its next byte followed by its low `k` bytes. */
  lemma SplitByte(n: int, m: int)
    requires m == 0x100 || m == 0x1_0000 || m == 0x100_0000
    ensures n % (m * 0x100) == n / m % 0x100 * m + n % m
  {
    var q := n / m;
    assert n == q / 0x100 * (m * 0x100) + (q % 0x100 * m + n % m);
  }

  lemma DecodeEncodeInt16(n: int, tail: seq<byte>)
    ensures DecodeInt16(EncodeInt16(n) + tail) == n % 0x1_0000
  {
    SplitByte(n, 0x100);
  }

  lemma DecodeEncodeInt24(n: int, tail: seq<byte>)
    ensures DecodeInt24(EncodeInt24(n) + tail) == n % 0x100_0000
  {
    SplitByte(n, 0x100);
    SplitByte(n, 0x1_0000);
  }

  lemma DecodeEncodeInt32(n: int, tail: seq<byte>)
    ensures DecodeInt32(EncodeInt32(n) + tail) == n % 0x1_0000_0000
  {
    FourBytes(n);
  }

  lemma DecodeEncodeInt32LE(n: int32, tail: seq<byte>)
    ensures DecodeInt32LE(EncodeInt32LE(n) + tail) == n
  {
    assert AsInt32(n % 0x1_0000_0000) == n;
    FourBytes(n);
    hide AsInt32;
    var b := EncodeInt32LE(n) + tail;
    assert b[..4] == EncodeInt32LE(n);
  }

  lemma FourBytes(n: int)
    ensures n % 0x1_0000_0000
      == n / 0x100_0000 % 0x100 * 0x100_0000 + n / 0x1_0000 % 0x100 * 0x1_0000 + n / 0x100 % 0x100 * 0x100 + n % 0x100
  {
    SplitByte(n, 0x100);
    SplitByte(n, 0x1_0000);
    SplitByte(n, 0x100_0000);
  }

  lemma EncodeDecodeInt32(b: seq<byte>)
    requires |b| >= 4
    ensures EncodeInt32(DecodeInt32(b)) == b[..4]
  {
    var n := DecodeInt32(b);
    assert n / 0x100_0000 == b[0];
    assert n / 0x1_0000 == b[0] as int * 0x100 + b[1];
    assert n / 0x100 == b[0] as int * 0x1_0000 + b[1] as int * 0x100 + b[2];
  }
}

/**
 The eight-byte big-endian codec of lengths, counts and the magic code.
 */
module BigEndian {
  import opened Basics

  /** Eight bytes shifted into a 64-bit number; the shifted bytes do not overlap. */
  function Decode(b: seq<Byte>): (n: U64)
    requires |b| == 8
  {
    var b0: int, b1: int, b2: int, b3: int := b[0], b[1], b[2], b[3];
    var b4: int, b5: int, b6: int, b7: int := b[4], b[5], b[6], b[7];
    b0 * 0x100_0000_0000_0000 + b1 * 0x1_0000_0000_0000 + b2 * 0x100_0000_0000 + b3 * 0x1_0000_0000
    + b4 * 0x100_0000 + b5 * 0x1_0000 + b6 * 0x100 + b7
  }

  /** Byte `i` is the number shifted right by `56 - 8 * i` and cut to eight bits. */
  function Encode(n: U64): (bytes: seq<Byte>)
    ensures |bytes| == 8
  {
    [n / 0x100_0000_0000_0000 % 256, n / 0x1_0000_0000_0000 % 256, n / 0x100_0000_0000 % 256, n / 0x1_0000_0000 % 256,
     n / 0x100_0000 % 256, n / 0x1_0000 % 256, n / 0x100 % 256, n % 256]
  }

  /** Filling a caller's buffer, as the source does. */
  method Fill(n: U64, bytes: array<Byte>)
    requires bytes.Length == 8
    modifies bytes
    ensures bytes[..] == Encode(n)
  {
    bytes[0] := n / 0x100_0000_0000_0000 % 256;
    bytes[1] := n / 0x1_0000_0000_0000 % 256;
    bytes[2] := n / 0x100_0000_0000 % 256;
    bytes[3] := n / 0x1_0000_0000 % 256;
    bytes[4] := n / 0x100_0000 % 256;
    bytes[5] := n / 0x1_0000 % 256;
    bytes[6] := n / 0x100 % 256;
    bytes[7] := n % 256;
  }

  /** Shifting by one more byte. */
  lemma ShiftAgain(n: U64)
    ensures n / 0x1_0000 == n / 0x100 / 256
    ensures n / 0x100_0000 == n / 0x1_0000 / 256
    ensures n / 0x1_0000_0000 == n / 0x100_0000 / 256
    ensures n / 0x100_0000_0000 == n / 0x1_0000_0000 / 256
    ensures n / 0x1_0000_0000_0000 == n / 0x100_0000_0000 / 256
    ensures n / 0x100_0000_0000_0000 == n / 0x1_0000_0000_0000 / 256
  {
  }

  /** The codec is a bijection: every number survives, ... */
  lemma DecodeEncode(n: U64)
    ensures Decode(Encode(n)) == n
  {
    ShiftAgain(n);
    var q1, q2, q3, q4 := n / 0x100, n / 0x1_0000, n / 0x100_0000, n / 0x1_0000_0000;
    var q5, q6, q7 := n / 0x100_0000_0000, n / 0x1_0000_0000_0000, n / 0x100_0000_0000_0000;
    assert q7 == q7 % 256;
    assert n == 256 * q1 + n % 256 && q1 == 256 * q2 + q1 % 256 && q2 == 256 * q3 + q2 % 256;
    assert q3 == 256 * q4 + q3 % 256 && q4 == 256 * q5 + q4 % 256;
    assert q5 == 256 * q6 + q5 % 256 && q6 == 256 * q7 + q6 % 256;
  }

  lemma Peel(v: int, b: Byte)
    ensures (256 * v + b) / 256 == v && (256 * v + b) % 256 == b
  {
  }

  /** A number put together byte by byte, taken apart by shifts. */
  lemma TakenApart(b: seq<Byte>, n: U64, v1: int, v2: int, v3: int, v4: int, v5: int, v6: int)
    requires |b| == 8 && n == 256 * v6 + b[7] && v6 == 256 * v5 + b[6] && v5 == 256 * v4 + b[5]
    requires v4 == 256 * v3 + b[4] && v3 == 256 * v2 + b[3] && v2 == 256 * v1 + b[2] && v1 == 256 * (b[0] as int) + b[1]
    ensures n / 0x100 == v6 && n / 0x1_0000 == v5 && n / 0x100_0000 == v4 && n / 0x1_0000_0000 == v3
    ensures n / 0x100_0000_0000 == v2 && n / 0x1_0000_0000_0000 == v1 && n / 0x100_0000_0000_0000 == b[0]
    ensures n % 256 == b[7] && v6 % 256 == b[6] && v5 % 256 == b[5] && v4 % 256 == b[4]
    ensures v3 % 256 == b[3] && v2 % 256 == b[2] && v1 % 256 == b[1]
  {
    ShiftAgain(n);
    Peel(v6, b[7]);
    Peel(v5, b[6]);
    Peel(v4, b[5]);
    Peel(v3, b[4]);
    Peel(v2, b[3]);
    Peel(v1, b[2]);
    Peel(b[0], b[1]);
  }

  /** ... and so does every byte string of length eight. */
  lemma EncodeDecode(b: seq<Byte>)
    requires |b| == 8
    ensures Encode(Decode(b)) == b
  {
    var v1 := 256 * (b[0] as int) + b[1];
    var v2 := 256 * v1 + b[2];
    var v3 := 256 * v2 + b[3];
    var v4 := 256 * v3 + b[4];
    var v5 := 256 * v4 + b[5];
    var v6 := 256 * v5 + b[6];
    TakenApart(b, Decode(b), v1, v2, v3, v4, v5, v6);
  }

  // ---------------------------------------------------------------------------
  // Which end comes first
  // ---------------------------------------------------------------------------

  /** The value of a byte string whose first byte counts most. */
  function Value(b: seq<Byte>): int {
    if b == [] then 0 else 256 * Value(b[..|b| - 1]) + b[|b| - 1]
  }

  lemma ValueOn(b: seq<Byte>, n: nat)
    requires n < |b|
    ensures Value(b[..n + 1]) == 256 * Value(b[..n]) + b[n]
  {
    assert b[..n + 1][..n] == b[..n];
  }

  /** The first byte counts most, the last one least. */
  lemma DecodeIsValue(b: seq<Byte>)
    requires |b| == 8
    ensures Decode(b) == Value(b)
  {
    assert Value(b[..0]) == 0 && b[..8] == b;
    ValueOn(b, 0);
    ValueOn(b, 1);
    ValueOn(b, 2);
    ValueOn(b, 3);
    ValueOn(b, 4);
    ValueOn(b, 5);
    ValueOn(b, 6);
    ValueOn(b, 7);
  }

  /** And so for the encoder: its eight bytes have the number as their value. */
  lemma EncodeHasValue(n: U64)
    ensures Value(Encode(n)) == n
  {
    DecodeIsValue(Encode(n));
    DecodeEncode(n);
  }
}

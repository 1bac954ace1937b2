/** Bytes and the little-endian encodings the records and call sites use. */
module Bytes {

  type byte = x: int | 0 <= x < 256

  /** Little-endian reading of the first two bytes. */
  function Get16(b: seq<byte>): (v: int)
    requires |b| >= 2
    ensures 0 <= v < 0x1_0000
  {
    (b[0] as int) + 0x100 * (b[1] as int)
  }

  /** Little-endian reading of the first four bytes, unsigned. */
  function Get32(b: seq<byte>): (v: int)
    requires |b| >= 4
    ensures 0 <= v < 0x1_0000_0000
  {
    (b[0] as int) + 0x100 * (b[1] as int) + 0x1_0000 * (b[2] as int) + 0x100_0000 * (b[3] as int)
  }

  /** The two bytes a 16-bit store of `v` leaves; wider values are truncated. */
  function Put16(v: int): (b: seq<byte>)
    ensures |b| == 2
  {
    [v % 0x100, v / 0x100 % 0x100]
  }

  /** The four bytes a 32-bit store of `v` leaves; wider values are truncated. */
  function Put32(v: int): (b: seq<byte>)
    ensures |b| == 4
  {
    [v % 0x100, v / 0x100 % 0x100, v / 0x1_0000 % 0x100, v / 0x100_0000 % 0x100]
  }

  lemma Get16Put16(v: int)
    requires 0 <= v < 0x1_0000
    ensures Get16(Put16(v)) == v
  {
  }

  /** Division by a whole byte gives the one quotient and remainder. */
  lemma ByteSplit(x: int, q: int, r: int)
    requires x == 0x100 * q + r && 0 <= r < 0x100
    ensures x / 0x100 == q && x % 0x100 == r
  {
  }

  lemma ShiftTwice(v: int)
    ensures v / 0x1_0000 == v / 0x100 / 0x100
  {
  }

  lemma ShiftThrice(v: int)
    ensures v / 0x100_0000 == v / 0x1_0000 / 0x100
  {
  }

  /** The bytes a 32-bit store leaves are the low four digits in base 256. */
  lemma Put32Digits(v: int, b: seq<byte>, rest: int)
    requires |b| == 4 && v == Get32(b) + 0x1_0000_0000 * rest
    ensures Put32(v) == b
  {
    var b0: int, b1: int, b2: int, b3: int := b[0] as int, b[1] as int, b[2] as int, b[3] as int;
    var q3 := b3 + 0x100 * rest;
    var q2 := b2 + 0x100 * q3;
    var q1 := b1 + 0x100 * q2;
    ByteSplit(v, q1, b0);
    ByteSplit(q1, q2, b1);
    ByteSplit(q2, q3, b2);
    ByteSplit(q3, rest, b3);
    ShiftTwice(v);
    ShiftThrice(v);
  }

  /** A 32-bit store keeps exactly the value modulo 2^32. */
  lemma Get32Put32(v: int)
    ensures Get32(Put32(v)) == v % 0x1_0000_0000
  {
    ShiftTwice(v);
    ShiftThrice(v);
    var q1, q2, q3 := v / 0x100, v / 0x1_0000, v / 0x100_0000;
    assert v == 0x100 * q1 + v % 0x100;
    assert q1 == 0x100 * q2 + q1 % 0x100;
    assert q2 == 0x100 * q3 + q2 % 0x100;
    assert q3 == 0x100 * (q3 / 0x100) + q3 % 0x100;
    assert v == Get32(Put32(v)) + 0x1_0000_0000 * (q3 / 0x100);
    WordSplit(v, q3 / 0x100, Get32(Put32(v)));
  }

  lemma WordSplit(x: int, q: int, r: int)
    requires x == 0x1_0000_0000 * q + r && 0 <= r < 0x1_0000_0000
    ensures x % 0x1_0000_0000 == r
  {
  }

  /** Storing what was read puts the same bytes back. */
  lemma Put32Get32(b: seq<byte>)
    requires |b| == 4
    ensures Put32(Get32(b)) == b
  {
    Put32Digits(Get32(b), b, 0);
  }
}

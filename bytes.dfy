/**
 * Byte-level helpers shared by both sensor protocols: the byte range,
 * additive sums and 16/32-bit packing in either byte order.
 */
module Bytes {

  type byte = b: int | 0 <= b < 256

  predicate IsByte(v: int) { 0 <= v < 256 }

  predicate IsBytes(s: seq<int>) { forall i | 0 <= i < |s| :: IsByte(s[i]) }

  /** The running total `CKS = CKS + s[i]` computed left to right. */
  function Sum(s: seq<int>): int
    decreases |s|
  {
    if s == [] then 0 else Sum(s[..|s| - 1]) + s[|s| - 1]
  }

  /** `v & 0xff` for Python's non-negative integers. */
  function Lo(v: int): byte { v % 256 }

  /** `(v & 0xff00) >> 8`. */
  function Hi(v: int): byte { (v / 256) % 256 }

  /** A little-endian 16-bit field read back as `lo + hi * 0x100`. */
  function LE16(lo: int, hi: int): int { lo + hi * 256 }

  /** A big-endian 16-bit field, as `struct.unpack(">H", ...)` reads it. */
  function BE16(hi: int, lo: int): int { hi * 256 + lo }

  lemma {:induction false} SumOfBytes(s: seq<int>)
    requires IsBytes(s)
    ensures 0 <= Sum(s) <= 255 * |s|
  {
    if s != [] {
      SumOfBytes(s[..|s| - 1]);
    }
  }

  lemma {:induction false} SumAppend(s: seq<int>, t: seq<int>)
    ensures Sum(s + t) == Sum(s) + Sum(t)
    decreases |t|
  {
    if t == [] {
      assert s + t == s;
    } else {
      assert (s + t)[..|s + t| - 1] == s + t[..|t| - 1];
      SumAppend(s, t[..|t| - 1]);
    }
  }

  /** The middle piece of a three-part concatenation. */
  lemma Middle(p: seq<int>, x: seq<int>, q: seq<int>)
    ensures (p + x + q)[|p| .. |p| + |x|] == x
    ensures (p + x + q)[..|p|] == p
    ensures (p + x + q)[|p| + |x| ..] == q
  {
  }

  /** Splitting a 16-bit value into Lo and Hi and joining them is the identity. */
  lemma SplitJoin16(v: int)
    requires 0 <= v < 65536
    ensures LE16(Lo(v), Hi(v)) == v
  {
  }

  /** Little-endian packing of an unsigned 32-bit value (`struct.pack('<I', v)`). */
  function U32LE(v: int): (r: seq<byte>)
    requires 0 <= v < 0x1_0000_0000
    ensures |r| == 4
  {
    [v % 256, (v / 256) % 256, (v / 256 / 256) % 256, v / 256 / 256 / 256]
  }

  /** `struct.unpack('<I', ...)`. */
  function DecodeU32LE(s: seq<int>): int
    requires |s| == 4
  {
    s[0] + 256 * s[1] + 65536 * s[2] + 16777216 * s[3]
  }

  /** `struct.pack('<i', v)`: two's complement of a signed 32-bit value. */
  function I32LE(v: int): (r: seq<byte>)
    requires -0x8000_0000 <= v < 0x8000_0000
    ensures |r| == 4
  {
    U32LE(if v < 0 then v + 0x1_0000_0000 else v)
  }

  /** `struct.unpack('<i', ...)`. */
  function DecodeI32LE(s: seq<int>): int
    requires |s| == 4
  {
    var u := DecodeU32LE(s);
    if u >= 0x8000_0000 then u - 0x1_0000_0000 else u
  }

  /** `struct.pack('<H', v)`. */
  function U16LE(v: int): (r: seq<byte>)
    requires 0 <= v < 65536
    ensures |r| == 2
  {
    [Lo(v), Hi(v)]
  }

  lemma U32RoundTrip(v: int)
    requires 0 <= v < 0x1_0000_0000
    ensures DecodeU32LE(U32LE(v)) == v
  {
    var q1 := v / 256;
    var q2 := q1 / 256;
    var q3 := q2 / 256;
    assert v == 256 * q1 + v % 256;
    assert q1 == 256 * q2 + q1 % 256;
    assert q2 == 256 * q3 + q2 % 256;
    assert U32LE(v) == [v % 256, q1 % 256, q2 % 256, q3];
  }

  lemma I32RoundTrip(v: int)
    requires -0x8000_0000 <= v < 0x8000_0000
    ensures DecodeI32LE(I32LE(v)) == v
  {
    U32RoundTrip(if v < 0 then v + 0x1_0000_0000 else v);
  }
}

/** Bytes, fixed-width little-endian integers and 32-byte digests, as used by the
    Silo stream format. */
module Bytes {

  type byte = b: int | 0 <= b < 256

  const HASH_BYTES := 32

  /** A SHA-256 digest.  The hash function itself is always a parameter, so
      every result holds for every hash function. */
  type Hash = h: seq<byte> | |h| == HASH_BYTES witness seq(HASH_BYTES, i => 0)
  type HashFunction = seq<byte> -> Hash

  /** The low `width` bytes of v, least significant first. */
  function LittleEndian(v: nat, width: nat): (r: seq<byte>)
    ensures |r| == width
    decreases width
  {
    if width == 0 then [] else [v % 256] + LittleEndian(v / 256, width - 1)
  }

  function FromLittleEndian(b: seq<byte>): nat {
    if b == [] then 0 else b[0] + 256 * FromLittleEndian(b[1..])
  }

  /** The number of bytes a scalar occupies; zero still occupies one. */
  function Width(v: nat): (w: nat)
    ensures w >= 1
  {
    if v < 256 then 1 else 1 + Width(v / 256)
  }

  lemma {:induction false} LittleEndianRoundTrip(v: nat, width: nat)
    requires Width(v) <= width
    ensures FromLittleEndian(LittleEndian(v, width)) == v
    decreases width
  {
    var le := LittleEndian(v, width);
    assert le[1..] == LittleEndian(v / 256, width - 1);
    if v < 256 {
      ZeroRoundTrip(width - 1);
    } else {
      LittleEndianRoundTrip(v / 256, width - 1);
    }
  }

  lemma {:induction false} ZeroRoundTrip(width: nat)
    ensures FromLittleEndian(LittleEndian(0, width)) == 0
  {
    if width > 0 {
      assert LittleEndian(0, width)[1..] == LittleEndian(0, width - 1);
      ZeroRoundTrip(width - 1);
    }
  }

  lemma {:induction false} BytesRoundTrip(b: seq<byte>)
    ensures LittleEndian(FromLittleEndian(b), |b|) == b
  {
    if b != [] {
      BytesRoundTrip(b[1..]);
      assert b == [b[0]] + b[1..];
    }
  }

  /** A byte string without a trailing zero is exactly as wide as its value. */
  lemma {:induction false} WidthOfBytes(b: seq<byte>)
    requires b != [] && b[|b| - 1] != 0
    ensures Width(FromLittleEndian(b)) == |b|
    ensures FromLittleEndian(b) > 0
  {
    if |b| > 1 {
      WidthOfBytes(b[1..]);
    } else {
      assert b[1..] == [];
    }
  }

  /** Values of at most k bytes are below 256^k; stated for the two bounds used. */
  lemma {:induction false} WidthMonotone(a: nat, b: nat)
    requires a <= b
    ensures Width(a) <= Width(b)
    decreases b
  {
    if a >= 256 {
      WidthMonotone(a / 256, b / 256);
    }
  }

  /** The little-endian bytes of v > 0 at its own width end in a nonzero byte. */
  lemma {:induction false} LastByteNonzero(v: nat)
    requires v > 0
    ensures LittleEndian(v, Width(v))[Width(v) - 1] != 0
  {
    if v >= 256 {
      LastByteNonzero(v / 256);
    }
  }
}

/**
  Bytes, digests and big-endian numbers.

  SHA-256 is a parameter `H` of everything that hashes, so every statement holds for every
  hash function. Nothing assumes that `H` is injective, which no function onto 32 bytes is:
  a security statement names the finite set of byte strings that were actually hashed and
  asks that no two of *those* collide.
 */
module Bytes {

  type byte = b: nat | b < 256
  type Bytes = seq<byte>

  const DIGEST_SIZE := 32
  type Digest = d: Bytes | |d| == DIGEST_SIZE witness seq(DIGEST_SIZE, _ => 0)
  type Hash = Bytes -> Digest

  /** No two of the listed inputs have the same digest. */
  ghost predicate CollisionFree(H: Hash, inputs: set<Bytes>) {
    forall x, y | x in inputs && y in inputs && H(x) == H(y) :: x == y
  }

  function Power256(width: nat): (p: nat)
    ensures p > 0
  {
    if width == 0 then 1 else 256 * Power256(width - 1)
  }

  /** `value.to_bytes(width, "big")`, for a value that fits. */
  function ToBigEndian(value: nat, width: nat): (s: Bytes)
    ensures |s| == width
  {
    if width == 0 then [] else ToBigEndian(value / 256, width - 1) + [value % 256]
  }

  /** `int.from_bytes(s, "big")`. */
  function FromBigEndian(s: Bytes): nat {
    if s == [] then 0 else 256 * FromBigEndian(s[..|s| - 1]) + s[|s| - 1]
  }

  lemma {:induction false} BigEndianRoundTrip(value: nat, width: nat)
    requires value < Power256(width)
    ensures FromBigEndian(ToBigEndian(value, width)) == value
  {
    if width > 0 {
      BigEndianRoundTrip(value / 256, width - 1);
      var s := ToBigEndian(value, width);
      assert s[..|s| - 1] == ToBigEndian(value / 256, width - 1);
    }
  }

  lemma {:induction false} BigEndianUnique(s: Bytes)
    ensures FromBigEndian(s) < Power256(|s|)
    ensures ToBigEndian(FromBigEndian(s), |s|) == s
  {
    if s != [] {
      var init := s[..|s| - 1];
      BigEndianUnique(init);
      assert s == init + [s[|s| - 1]];
    }
  }

  /** Number of bytes needed to write `value` without leading zeros; zero needs none. */
  function ByteLength(value: nat): nat {
    if value == 0 then 0 else 1 + ByteLength(value / 256)
  }

  /** `value.bit_length()`. */
  function BitLength(value: nat): nat {
    if value == 0 then 0 else 1 + BitLength(value / 2)
  }

  /** A string whose first byte is not zero is as short as its number allows. */
  lemma {:induction false} ByteLengthOfNumber(s: Bytes)
    requires s != [] && s[0] != 0
    ensures ByteLength(FromBigEndian(s)) == |s|
    ensures FromBigEndian(s) > 0
  {
    var init := s[..|s| - 1];
    if |s| > 1 {
      ByteLengthOfNumber(init);
    } else {
      assert FromBigEndian(init) == 0;
    }
    assert FromBigEndian(s) / 256 == FromBigEndian(init);
  }

  /** The shortest spelling fits, and does not start with a zero byte. */
  lemma {:induction false} ShortestBytes(value: nat)
    requires value > 0
    ensures ByteLength(value) >= 1
    ensures value < Power256(ByteLength(value))
    ensures ToBigEndian(value, ByteLength(value))[0] != 0
  {
    if value >= 256 {
      ShortestBytes(value / 256);
    } else {
      assert ByteLength(value) == 1 + ByteLength(0);
      assert ToBigEndian(value, 1) == ToBigEndian(0, 0) + [value];
    }
  }

  lemma {:induction false} ByteLengthMonotone(a: nat, b: nat)
    requires a <= b
    ensures ByteLength(a) <= ByteLength(b)
  {
    if a > 0 {
      ByteLengthMonotone(a / 256, b / 256);
    }
  }
}

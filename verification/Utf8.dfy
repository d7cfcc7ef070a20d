/** What a text string is: the UTF-8 form of a sequence of Unicode scalar values. */
module Utf8 {
  import opened Bytes
  import opened Cbor

  predicate Scalar(c: nat) { c < 0xD800 || 0xE000 <= c <= 0x10FFFF }

  /** The low six bits of `x`, as a continuation byte. */
  function Continuation(x: nat): byte { 0x80 + x % 64 }

  /** The bytes of one scalar value (section 3 of RFC 3629). */
  function Char(c: nat): Bytes
    requires Scalar(c)
  {
    if c < 0x80 then [c]
    else if c < 0x800 then [0xC0 + c / 64, Continuation(c)]
    else if c < 0x1_0000 then [0xE0 + c / 64 / 64, Continuation(c / 64), Continuation(c)]
    else [0xF0 + c / 64 / 64 / 64, Continuation(c / 64 / 64), Continuation(c / 64), Continuation(c)]
  }

  function Chars(cs: seq<nat>): Bytes
    requires forall c | c in cs :: Scalar(c)
  {
    if cs == [] then [] else Char(cs[0]) + Chars(cs[1..])
  }

  lemma Digit(a: nat, b: nat)
    requires b < 64
    ensures (64 * a + b) / 64 == a && (64 * a + b) % 64 == b
  {
  }

  /** The scalar value at the front of well-formed bytes. */
  lemma FirstChar(s: Bytes) returns (c: nat)
    requires ValidUtf8(s) && s != []
    ensures Scalar(c) && |Char(c)| <= |s| && s[..|Char(c)|] == Char(c) && ValidUtf8(s[|Char(c)|..])
  {
    if s[0] < 0x80 {
      c := s[0];
    } else if s[0] < 0xE0 {
      c := TwoBytes(s[0], s[1]);
    } else if s[0] < 0xF0 {
      c := ThreeBytes(s[0], s[1], s[2]);
    } else {
      c := FourBytes(s[0], s[1], s[2], s[3]);
    }
  }

  lemma TwoBytes(lead: int, x: int) returns (c: nat)
    requires 0xC2 <= lead <= 0xDF && 0x80 <= x <= 0xBF
    ensures Scalar(c) && Char(c) == [lead, x]
  {
    c := 64 * (lead - 0xC0) + (x - 0x80);
    Digit(lead - 0xC0, x - 0x80);
  }

  lemma ThreeBytes(lead: int, x: int, y: int) returns (c: nat)
    requires 0xE0 <= lead <= 0xEF && 0x80 <= x <= 0xBF && 0x80 <= y <= 0xBF
    requires (lead == 0xE0 ==> x >= 0xA0) && (lead == 0xED ==> x <= 0x9F)
    ensures Scalar(c) && Char(c) == [lead, x, y]
  {
    var high := 64 * (lead - 0xE0) + (x - 0x80);
    c := 64 * high + (y - 0x80);
    Digit(lead - 0xE0, x - 0x80);
    Digit(high, y - 0x80);
  }

  lemma FourBytes(lead: int, x: int, y: int, z: int) returns (c: nat)
    requires 0xF0 <= lead <= 0xF4 && 0x80 <= x <= 0xBF && 0x80 <= y <= 0xBF && 0x80 <= z <= 0xBF
    requires (lead == 0xF0 ==> x >= 0x90) && (lead == 0xF4 ==> x <= 0x8F)
    ensures Scalar(c) && Char(c) == [lead, x, y, z]
  {
    var top := 64 * (lead - 0xF0) + (x - 0x80);
    var high := 64 * top + (y - 0x80);
    c := 64 * high + (z - 0x80);
    Digit(lead - 0xF0, x - 0x80);
    Digit(top, y - 0x80);
    Digit(high, z - 0x80);
  }

  lemma CharThenValid(c: nat, rest: Bytes)
    requires Scalar(c) && ValidUtf8(rest)
    ensures ValidUtf8(Char(c) + rest)
  {
    var s := Char(c) + rest;
    assert s[|Char(c)|..] == rest;
  }

  lemma {:induction false} CharsAreValid(cs: seq<nat>)
    requires forall c | c in cs :: Scalar(c)
    ensures ValidUtf8(Chars(cs))
  {
    if cs != [] {
      CharsAreValid(cs[1..]);
      CharThenValid(cs[0], Chars(cs[1..]));
    }
  }

  lemma {:induction false} ValidIsChars(s: Bytes) returns (cs: seq<nat>)
    requires ValidUtf8(s)
    ensures (forall c | c in cs :: Scalar(c)) && Chars(cs) == s
  {
    if s == [] {
      cs := [];
    } else {
      var c := FirstChar(s);
      var rest := ValidIsChars(s[|Char(c)|..]);
      cs := [c] + rest;
      assert s == Char(c) + s[|Char(c)|..];
    }
  }

  /** Accepted text is exactly the encoding of scalar values: no surrogates, no overlong forms. */
  lemma ValidExactly(s: Bytes)
    ensures ValidUtf8(s) <==> exists cs :: (forall c | c in cs :: Scalar(c)) && Chars(cs) == s
  {
    hide *;
    if ValidUtf8(s) {
      var _ := ValidIsChars(s);
    }
    forall cs | (forall c | c in cs :: Scalar(c)) && Chars(cs) == s ensures ValidUtf8(s) {
      CharsAreValid(cs);
    }
  }
}

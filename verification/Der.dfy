/**
  The strict DER writer and reader used for RFC 3161 tokens (section 10.1 of ITU-T X.690):
  the reader accepts exactly what the writer writes, for values shorter than 2^32 bytes.
 */
module Der {
  import opened Bytes
  import opened Options

  const MAX_SIZE := 0x1_0000_0000
  const INTEGER_LIMIT := 128 * Power256(32)

  /** `(n.bit_length() + 7) // 8` */
  function BytesFor(n: nat): nat { (BitLength(n) + 7) / 8 }

  function LengthBytes(size: nat): Bytes {
    if size < 128 then [size] else [128 + BytesFor(size) % 128] + ToBigEndian(size, BytesFor(size))
  }

  function Der(tag: byte, value: Bytes): Bytes { [tag] + LengthBytes(|value|) + value }

  function IntegerBytes(value: nat): Bytes {
    var encoded := ToBigEndian(value, if BytesFor(value) > 1 then BytesFor(value) else 1);
    if encoded[0] >= 128 then [0] + encoded else encoded
  }

  function Integer(value: nat): Bytes { Der(2, IntegerBytes(value)) }

  // ---- lengths -------------------------------------------------------------------------------------

  lemma {:induction false} BytesForIsByteLength(n: nat)
    ensures BytesFor(n) == ByteLength(n)
  {
    if n >= 256 {
      BytesForIsByteLength(n / 256);
      var a := n / 2; var b := a / 2; var c := b / 2; var d := c / 2;
      var e := d / 2; var f := e / 2; var g := f / 2; var h := g / 2;
      assert BitLength(n) == 2 + BitLength(b) && BitLength(b) == 2 + BitLength(d);
      assert BitLength(d) == 2 + BitLength(f) && BitLength(f) == 2 + BitLength(h);
      assert h == n / 256;
    } else if n > 0 {
      SmallBitLength(n, 8, 256);
      assert ByteLength(n / 256) == 0;
    }
  }

  lemma {:induction false} SmallBitLength(n: nat, bits: nat, limit: nat)
    requires 0 < n < limit && limit == Power2(bits)
    ensures 1 <= BitLength(n) <= bits
  {
    if n > 1 {
      SmallBitLength(n / 2, bits - 1, limit / 2);
    }
  }

  function Power2(n: nat): nat { if n == 0 then 1 else 2 * Power2(n - 1) }

  lemma FourBytes(size: nat)
    requires 128 <= size < MAX_SIZE
    ensures 1 <= BytesFor(size) <= 4
    ensures ToBigEndian(size, BytesFor(size))[0] != 0
    ensures FromBigEndian(ToBigEndian(size, BytesFor(size))) == size
  {
    BytesForIsByteLength(size);
    ShortestBytes(size);
    BigEndianRoundTrip(size, ByteLength(size));
    ByteLengthMonotone(size, 0xFFFF_FFFF);
    assert ByteLength(0xFFFF_FFFF) == 2 + ByteLength(0xFFFF);
  }

  lemma ShortLength(size: byte)
    requires size < 128
    ensures LengthBytes(size) == [size]
  {
  }

  lemma ReadLength(s: Bytes)
    requires 1 <= |s| <= 4 && s[0] != 0
    ensures FromBigEndian(s) < MAX_SIZE
    ensures FromBigEndian(s) >= 128 ==> LengthBytes(FromBigEndian(s)) == [128 + |s|] + s
  {
    hide FromBigEndian, ToBigEndian, ByteLength, BitLength, BytesFor;
    var n := FromBigEndian(s);
    BigEndianUnique(s);
    ByteLengthOfNumber(s);
    BytesForIsByteLength(n);
    assert Power256(4) == 256 * 256 * Power256(2) && Power256(|s|) <= Power256(4);
  }

  /** The length octets: one below 128, otherwise a count and that many digits without a leading zero. */
  predicate LengthForm(l: Bytes, size: nat) {
    if size < 128 then l == [size]
    else 2 <= |l| <= 5 && l[0] == 127 + |l| && l[1] != 0 && FromBigEndian(l[1..]) == size
  }

  lemma WrittenLength(size: nat)
    requires size < MAX_SIZE
    ensures LengthForm(LengthBytes(size), size)
  {
    hide FromBigEndian, ToBigEndian, ByteLength, BitLength, BytesFor;
    if size >= 128 {
      FourBytes(size);
      assert LengthBytes(size)[1..] == ToBigEndian(size, BytesFor(size));
    }
  }

  // ---- the reader -------------------------------------------------------------------------------------

  /** The reader's view of a DER value at `at`. */
  ghost predicate HeaderAt(data: Bytes, at: nat, tag: byte, length: Bytes, value: Bytes) {
    at + 1 + |length| + |value| <= |data| && data[at] == tag && LengthForm(length, |value|)
    && data[at + 1..at + 1 + |length|] == length
    && data[at + 1 + |length|..at + 1 + |length| + |value|] == value
  }

  lemma Slices(data: Bytes, at: nat, tag: byte, length: Bytes, value: Bytes)
    requires at <= |data| && [tag] + length + value <= data[at..]
    ensures at + 1 + |length| + |value| <= |data| && data[at] == tag
    ensures data[at + 1..at + 1 + |length|] == length
    ensures data[at + 1 + |length|..at + 1 + |length| + |value|] == value
  {
    var d := [tag] + length + value;
    assert data[at..at + |d|] == d;
    assert d[1..1 + |length|] == length && d[1 + |length|..] == value;
    assert data[at + 1..at + 1 + |length|] == d[1..1 + |length|];
    assert data[at + 1 + |length|..at + |d|] == d[1 + |length|..];
    assert d[0] == tag;
  }

  lemma WrittenHeader(data: Bytes, at: nat, tag: byte, value: Bytes)
    requires at <= |data| && |value| < MAX_SIZE && Der(tag, value) <= data[at..]
    ensures HeaderAt(data, at, tag, LengthBytes(|value|), value)
  {
    hide LengthBytes, LengthForm;
    WrittenLength(|value|);
    Slices(data, at, tag, LengthBytes(|value|), value);
  }

  /** What the reader can see at `at` of a value of that many bytes. */
  predicate ComesNext(data: Bytes, at: nat, tag: byte, size: nat) {
    at + 2 <= |data| && data[at] == tag
    && if data[at + 1] < 128 then size == data[at + 1] && at + 2 + size <= |data|
       else
         var count := data[at + 1] - 128;
         1 <= count <= 4 && at + 2 + count + size <= |data| && data[at + 2] != 0
         && size == FromBigEndian(data[at + 2..at + 2 + count]) >= 128
  }

  lemma HeaderSize(data: Bytes, at: nat, tag: byte, length: Bytes, value: Bytes)
    requires HeaderAt(data, at, tag, length, value)
    ensures ComesNext(data, at, tag, |value|)
  {
    hide FromBigEndian;
    assert data[at + 1] == data[at + 1..at + 1 + |length|][0] == length[0];
    if |length| > 1 {
      assert data[at + 2..at + 1 + |length|] == length[1..];
      assert data[at + 2] == length[1];
    }
  }

  /** If a value written with this tag stands at `at`, then `r` is that value. */
  ghost predicate ReadsBack(data: Bytes, at: nat, tag: byte, r: Option<Bytes>)
    requires at <= |data|
  {
    forall v: Bytes | |v| < MAX_SIZE && Der(tag, v) <= data[at..] :: r == Some(v)
  }

  lemma NotWritten(data: Bytes, at: nat, tag: byte)
    requires at <= |data| && forall size :: !ComesNext(data, at, tag, size)
    ensures ReadsBack(data, at, tag, None)
  {
    hide Der, ComesNext, HeaderAt;
    forall v: Bytes | |v| < MAX_SIZE && Der(tag, v) <= data[at..] ensures false {
      WrittenHeader(data, at, tag, v);
      HeaderSize(data, at, tag, LengthBytes(|v|), v);
    }
  }

  lemma Written(data: Bytes, at: nat, tag: byte, size: nat)
    requires ComesNext(data, at, tag, size)
    ensures size < MAX_SIZE
    ensures var start := at + 2 + if data[at + 1] < 128 then 0 else data[at + 1] - 128;
            data[at..start + size] == Der(tag, data[start..start + size])
  {
    hide FromBigEndian, LengthBytes;
    var start := at + 2 + if data[at + 1] < 128 then 0 else data[at + 1] - 128;
    if data[at + 1] < 128 {
      ShortLength(size);
    } else {
      ReadLength(data[at + 2..start]);
      assert data[at + 1..start] == [data[at + 1]] + data[at + 2..start];
    }
    var value := data[start..start + size];
    assert data[at..start + size] == [data[at]] + data[at + 1..start] + value;
  }

  lemma WrittenOnce(data: Bytes, at: nat, tag: byte, end: nat, value: Bytes)
    requires at <= end <= |data| && |value| < MAX_SIZE && data[at..end] == Der(tag, value)
    ensures ReadsBack(data, at, tag, Some(value))
  {
    hide Der;
    assert Der(tag, value) <= data[at..];
    forall v: Bytes | |v| < MAX_SIZE && Der(tag, v) <= data[at..] ensures v == value {
      DerUnique(data, at, tag, v, value);
    }
  }

  class Reader {
    const data: Bytes
    var offset: nat

    ghost predicate Valid()
      reads this
    {
      offset <= |data|
    }

    constructor (data: Bytes)
      ensures Valid() && this.data == data && offset == 0
    {
      this.data, offset := data, 0;
    }

    function Peek(): Option<byte>
      reads this
    {
      if offset < |data| then Some(data[offset]) else None
    }

    /** `None` stands for the error, which is raised exactly when no DER value with this tag comes next. */
    method Read(tag: byte) returns (r: Option<Bytes>)
      requires Valid()
      modifies this
      ensures Valid()
      ensures r.Some? ==> |r.value| < MAX_SIZE && old(offset) <= offset
                          && data[old(offset)..offset] == Der(tag, r.value)
      ensures r.None? ==> offset == old(offset)
      ensures ReadsBack(data, old(offset), tag, r)
    {
      hide Der, FromBigEndian, LengthBytes, ReadsBack;
      if forall size :: !ComesNext(data, offset, tag, size) {
        NotWritten(data, offset, tag);
      }
      if Peek() != Some(tag) || offset + 2 > |data| {
        return None;
      }
      var start, size: nat := offset + 2, data[offset + 1];
      if size >= 128 {
        var count := size % 128;
        if !(1 <= count <= 4) || start + count > |data| {
          return None;
        }
        if data[start] == 0 {
          return None;
        }
        size := FromBigEndian(data[start..start + count]);
        start := start + count;
        if size < 128 {
          return None;
        }
      }
      var end := start + size;
      if end > |data| {
        return None;
      }
      Written(data, offset, tag, size);
      WrittenOnce(data, offset, tag, end, data[start..end]);
      offset := end;
      return Some(data[start..end]);
    }

    /** A non-negative INTEGER of at most 33 bytes, in its shortest spelling. */
    method ReadInteger() returns (r: Option<nat>)
      requires Valid()
      modifies this
      ensures Valid()
      ensures r.Some? ==> r.value < INTEGER_LIMIT && old(offset) <= offset
                          && data[old(offset)..offset] == Integer(r.value)
      ensures forall v: nat | v < INTEGER_LIMIT && Integer(v) <= data[old(offset)..] :: r == Some(v)
    {
      hide Der, FromBigEndian, LengthBytes, IntegerBytes, Power256;
      ghost var at := offset;
      var value := Read(2);
      forall v: nat | v < INTEGER_LIMIT && Integer(v) <= data[at..]
        ensures value == Some(IntegerBytes(v)) && IntegerForm(value.value) && FromBigEndian(value.value) == v
      {
        WrittenInteger(v);
      }
      if value == None {
        return None;
      }
      var s := value.value;
      if s == [] || |s| > 33 || s[0] >= 128 || (|s| > 1 && s[0] == 0 && !(s[1] >= 128)) {
        return None;
      }
      IntegerSpelling(s);
      return Some(FromBigEndian(s));
    }

    /** `finish` raises an error unless everything has been read. */
    method Finish() returns (ok: bool)
      requires Valid()
      ensures ok <==> offset == |data|
    {
      ok := Peek() == None;
    }
  }

  /** The shape `integer` asks for. */
  predicate IntegerForm(s: Bytes) {
    1 <= |s| <= 33 && s[0] < 128 && (|s| > 1 && s[0] == 0 ==> s[1] >= 128)
  }

  lemma {:induction false} ShortNumber(value: nat, width: nat)
    requires value < Power256(width)
    ensures ByteLength(value) <= width
  {
    if value > 0 {
      ShortNumber(value / 256, width - 1);
    }
  }

  lemma LeadingZero(s: Bytes)
    ensures FromBigEndian([0] + s) == FromBigEndian(s)
    decreases |s|
  {
    if s != [] {
      LeadingZero(s[..|s| - 1]);
      assert ([0] + s)[..|s|] == [0] + s[..|s| - 1];
    }
  }

  /** The first byte of a big-endian string decides on which side of half its range the number lies. */
  lemma {:induction false} TopBit(s: Bytes)
    requires s != []
    ensures s[0] >= 128 <==> FromBigEndian(s) >= 128 * Power256(|s| - 1)
  {
    var init := s[..|s| - 1];
    if |s| > 1 {
      TopBit(init);
    } else {
      assert FromBigEndian(init) == 0;
    }
  }

  /** The digits of a number, before the padding that keeps the sign bit clear. */
  ghost function Digits(value: nat): Bytes {
    ToBigEndian(value, if BytesFor(value) > 1 then BytesFor(value) else 1)
  }

  lemma DigitsOf(value: nat)
    ensures Digits(value) != [] && FromBigEndian(Digits(value)) == value
    ensures |Digits(value)| > 1 ==> Digits(value)[0] != 0
    ensures value > 0 ==> |Digits(value)| == ByteLength(value)
    ensures value == 0 ==> Digits(value) == [0]
  {
    BytesForIsByteLength(value);
    if value > 0 {
      ShortestBytes(value);
      BigEndianRoundTrip(value, ByteLength(value));
    } else {
      assert ToBigEndian(0, 1) == ToBigEndian(0, 0) + [0];
      assert FromBigEndian([0]) == 0;
    }
  }

  lemma DigitCount(value: nat)
    requires value < INTEGER_LIMIT
    ensures |Digits(value)| <= 33
  {
    hide ToBigEndian, ByteLength, BytesFor;
    DigitsOf(value);
    if value > 0 {
      ShortNumber(value, 33);
    }
  }

  lemma WrittenInteger(value: nat)
    requires value < INTEGER_LIMIT
    ensures IntegerForm(IntegerBytes(value)) && FromBigEndian(IntegerBytes(value)) == value
  {
    hide FromBigEndian, ToBigEndian, Power256, ByteLength, BytesFor;
    var digits := Digits(value);
    DigitsOf(value);
    DigitCount(value);
    LeadingZero(digits);
    if |digits| == 33 {
      TopBit(digits);
    }
    assert IntegerBytes(value) == if digits[0] >= 128 then [0] + digits else digits;
  }

  lemma {:induction false} PowersGrow(a: nat, b: nat)
    requires a <= b
    ensures Power256(a) <= Power256(b)
    decreases b
  {
    if a < b {
      PowersGrow(a, b - 1);
    }
  }

  lemma IntegerSpelling(s: Bytes)
    requires IntegerForm(s)
    ensures FromBigEndian(s) < INTEGER_LIMIT && IntegerBytes(FromBigEndian(s)) == s
  {
    hide FromBigEndian, ToBigEndian, Power256, ByteLength, BytesFor;
    var v := FromBigEndian(s);
    BytesForIsByteLength(v);
    TopBit(s);
    PowersGrow(|s| - 1, 32);
    if |s| == 1 {
      ShortNumber(v, 1) by { BigEndianUnique(s); }
      BigEndianUnique(s);
    } else if s[0] == 0 {
      var t := s[1..];
      assert s == [0] + t;
      LeadingZero(t);
      ByteLengthOfNumber(t);
      BigEndianUnique(t);
      assert Digits(v) == t;
    } else {
      ByteLengthOfNumber(s);
      BigEndianUnique(s);
      assert Digits(v) == s;
    }
  }

  /** `_single`: the whole input is one value. */
  method Single(data: Bytes, tag: byte) returns (r: Option<Bytes>)
    ensures r.Some? ==> |r.value| < MAX_SIZE && data == Der(tag, r.value)
    ensures forall v: Bytes | |v| < MAX_SIZE && data == Der(tag, v) :: r == Some(v)
  {
    hide Der;
    var reader := new Reader(data);
    assert data[0..] == data;
    var value := reader.Read(tag);
    if value == None {
      return None;
    }
    var done := reader.Finish();
    if !done {
      assert |Der(tag, value.value)| < |data|;
      return None;
    }
    return value;
  }

  /** The timestamp request over a root (section 2.4.1 of RFC 3161), asking for the TSA's certificate. */
  function TimestampRequest(root: Digest, nonce: nat): Bytes {
    var algorithm := Der(0x30, Der(6, [0x60, 0x86, 0x48, 1, 0x65, 3, 4, 2, 1]) + Der(5, []));
    var imprint := Der(0x30, algorithm + Der(4, root));
    Der(0x30, Integer(1) + imprint + Integer(nonce) + Der(1, [0xFF]))
  }

  // ---- main results -------------------------------------------------------------------------------------

  /** No DER value is a prefix of another with the same tag: what stands at a position is one value at most. */
  lemma DerUnique(data: Bytes, at: nat, tag: byte, v: Bytes, w: Bytes)
    requires at <= |data| && |v| < MAX_SIZE && |w| < MAX_SIZE
    requires Der(tag, v) <= data[at..] && Der(tag, w) <= data[at..]
    ensures v == w
  {
    hide FromBigEndian, LengthBytes;
    WrittenHeader(data, at, tag, v);
    WrittenHeader(data, at, tag, w);
    HeaderSize(data, at, tag, LengthBytes(|v|), v);
    HeaderSize(data, at, tag, LengthBytes(|w|), w);
  }

  lemma DerPrefixFree(tag: byte, v: Bytes, w: Bytes, r: Bytes, t: Bytes)
    requires |v| < MAX_SIZE && |w| < MAX_SIZE && Der(tag, v) + r == Der(tag, w) + t
    ensures v == w && r == t
  {
    hide Der;
    var data := Der(tag, v) + r;
    assert data[0..] == data && data[|Der(tag, v)|..] == r;
    DerUnique(data, 0, tag, v, w);
    assert data[|Der(tag, v)|..] == t;
  }

  lemma IntegerPrefixFree(v: nat, w: nat, r: Bytes, t: Bytes)
    requires v < INTEGER_LIMIT && w < INTEGER_LIMIT && Integer(v) + r == Integer(w) + t
    ensures v == w && r == t
  {
    hide Der, IntegerBytes;
    WrittenInteger(v);
    WrittenInteger(w);
    DerPrefixFree(2, IntegerBytes(v), IntegerBytes(w), r, t);
  }

  lemma SmallDer(tag: byte, v: Bytes)
    requires |v| < 128
    ensures |Der(tag, v)| == 2 + |v|
  {
  }

  /** A request asks about one root with one nonce. */
  lemma RequestBinds(root1: Digest, nonce1: nat, root2: Digest, nonce2: nat)
    requires nonce1 < INTEGER_LIMIT && nonce2 < INTEGER_LIMIT
    requires TimestampRequest(root1, nonce1) == TimestampRequest(root2, nonce2)
    ensures root1 == root2 && nonce1 == nonce2
  {
    hide Der, IntegerBytes;
    WrittenInteger(nonce1);
    WrittenInteger(nonce2);
    WrittenInteger(1);
    SmallDer(2, IntegerBytes(1));
    SmallDer(2, IntegerBytes(nonce1));
    SmallDer(2, IntegerBytes(nonce2));
    SmallDer(1, [0xFF]);
    var oid, nil := Der(6, [0x60, 0x86, 0x48, 1, 0x65, 3, 4, 2, 1]), Der(5, []);
    SmallDer(6, [0x60, 0x86, 0x48, 1, 0x65, 3, 4, 2, 1]);
    SmallDer(5, []);
    var algorithm := Der(0x30, oid + nil);
    SmallDer(0x30, oid + nil);
    SmallDer(4, root1);
    SmallDer(4, root2);
    var inner1, inner2 := algorithm + Der(4, root1), algorithm + Der(4, root2);
    SmallDer(0x30, inner1);
    SmallDer(0x30, inner2);
    var tail1, tail2 := Integer(nonce1) + Der(1, [0xFF]), Integer(nonce2) + Der(1, [0xFF]);
    var body1 := Integer(1) + Der(0x30, inner1) + Integer(nonce1) + Der(1, [0xFF]);
    var body2 := Integer(1) + Der(0x30, inner2) + Integer(nonce2) + Der(1, [0xFF]);
    DerPrefixFree(0x30, body1, body2, [], []) by {
      assert TimestampRequest(root1, nonce1) + [] == TimestampRequest(root2, nonce2) + [];
    }
    assert body1[|Integer(1)|..] == Der(0x30, inner1) + tail1;
    assert body2[|Integer(1)|..] == Der(0x30, inner2) + tail2;
    DerPrefixFree(0x30, inner1, inner2, tail1, tail2);
    IntegerPrefixFree(nonce1, nonce2, Der(1, [0xFF]), Der(1, [0xFF]));
    assert inner1[|algorithm|..] == Der(4, root1) && inner2[|algorithm|..] == Der(4, root2);
    DerPrefixFree(4, root1, root2, [], []) by {
      assert Der(4, root1) + [] == Der(4, root2) + [];
    }
  }
}

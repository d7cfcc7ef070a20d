/**
  The deterministic CBOR profile: values, the encoder, and the reader as a function of the bytes
  in front of it.
 */
module Cbor {
  import opened Bytes
  import opened Options

  // ---- values ----------------------------------------------------------------------------------

  /** Well-formed UTF-8 (section 4 of RFC 3629). */
  predicate ValidUtf8(s: Bytes) {
    s == [] ||
    (s[0] < 0x80 && ValidUtf8(s[1..])) ||
    (|s| >= 2 && 0xC2 <= s[0] <= 0xDF && Tail(s[1]) && ValidUtf8(s[2..])) ||
    (|s| >= 3 && 0xE0 <= s[0] <= 0xEF && Tail(s[1]) && Tail(s[2]) && ValidUtf8(s[3..])
     && (s[0] == 0xE0 ==> s[1] >= 0xA0) && (s[0] == 0xED ==> s[1] <= 0x9F)) ||
    (|s| >= 4 && 0xF0 <= s[0] <= 0xF4 && Tail(s[1]) && Tail(s[2]) && Tail(s[3]) && ValidUtf8(s[4..])
     && (s[0] == 0xF0 ==> s[1] >= 0x90) && (s[0] == 0xF4 ==> s[1] <= 0x8F))
  }

  predicate Tail(b: byte) { 0x80 <= b <= 0xBF }

  /** A text string, held as its UTF-8 bytes. */
  type Text = s: Bytes | ValidUtf8(s)

  datatype Value =
    | Null
    | Bool(b: bool)
    | Int(i: int)
    | BStr(bytes: Bytes)
    | TStr(text: Text)
    | Array(items: seq<Value>)
    | Map(entries: seq<Entry>)  // a dictionary, in insertion order
    | Tagged(tag: int, value: Value)

  datatype Entry = Entry(key: Value, value: Value)

  /** What a dictionary may use as a key at all. */
  predicate Hashable(key: Value) {
    key.Null? || key.Bool? || key.Int? || key.BStr? || key.TStr?
  }

  /** What the encoder takes as a key; truth values count as integers. */
  predicate Supported(key: Value) {
    Hashable(key) && !key.Null?
  }

  /** Dictionary identity of a key: true is 1 and false is 0. */
  function KeyId(key: Value): Value {
    if key.Bool? then Int(if key.b then 1 else 0) else key
  }

  predicate DistinctKeys(es: seq<Entry>) {
    forall i, j | 0 <= i < j < |es| :: KeyId(es[i].key) != KeyId(es[j].key)
  }

  /** No dictionary anywhere in `v` holds one key twice. */
  predicate WellFormed(v: Value)
    decreases v
  {
    match v
    case Array(items) => forall x | x in items :: WellFormed(x)
    case Map(es) => DistinctKeys(es) && forall e | e in es :: Hashable(e.key) && WellFormed(e.value)
    case Tagged(_, x) => WellFormed(x)
    case _ => true
  }

  predicate KeysSupported(v: Value)
    decreases v
  {
    match v
    case Array(items) => forall x | x in items :: KeysSupported(x)
    case Map(es) => forall e | e in es :: Supported(e.key) && KeysSupported(e.value)
    case Tagged(_, x) => KeysSupported(x)
    case _ => true
  }

  ghost function KeySet(es: seq<Entry>): set<Value> { set e | e in es :: e.key }

  /** The value stored under a key. */
  ghost function ValueAt(es: seq<Entry>, key: Value): (value: Value)
    requires key in KeySet(es)
    ensures Entry(key, value) in es
  {
    if es[0].key == key then es[0].value else ValueAt(es[1..], key)
  }

  /**
    The same value: at every depth dictionaries are compared as finite maps, whatever their insertion
    order. (A truth value is not the integer that it equals as a dictionary key.)
   */
  ghost predicate Alike(v: Value, w: Value)
    decreases v
  {
    match v
    case Array(items) => w.Array? && |items| == |w.items| && forall i | 0 <= i < |items| :: Alike(items[i], w.items[i])
    case Map(es) =>
      w.Map? && KeySet(es) == KeySet(w.entries)
      && forall k | k in KeySet(es) :: Alike(ValueAt(es, k), ValueAt(w.entries, k))
    case Tagged(tag, x) => w.Tagged? && tag == w.tag && Alike(x, w.value)
    case _ => v == w
  }

  // ---- the encoder -------------------------------------------------------------------------------

  /** The major type and its argument in the shortest form. */
  function Head(major: nat, value: int): (h: Option<Bytes>)
    requires major < 8
    ensures h.Some? ==> |h.value| > 0
  {
    var prefix := major * 32;
    if value < 0 then None
    else if value < 24 then Some([prefix + value])
    else if value < 0x100 then Some([prefix + 24] + ToBigEndian(value, 1))
    else if value < 0x1_0000 then Some([prefix + 25] + ToBigEndian(value, 2))
    else if value < 0x1_0000_0000 then Some([prefix + 26] + ToBigEndian(value, 4))
    else if value < 0x1_0000_0000_0000_0000 then Some([prefix + 27] + ToBigEndian(value, 8))
    else None
  }

  function Append(a: Option<Bytes>, b: Option<Bytes>): Option<Bytes> {
    if a.Some? && b.Some? then Some(a.value + b.value) else None
  }

  /** Byte strings in dictionary order: a proper prefix comes first. */
  predicate Less(a: Bytes, b: Bytes) {
    b != [] && (a == [] || a[0] < b[0] || (a[0] == b[0] && Less(a[1..], b[1..])))
  }

  /** A dictionary entry with both halves encoded, and its value in canonical form. */
  datatype Item = Item(k: Bytes, v: Bytes, entry: Entry, canon: Value)

  function Insert(x: Item, s: seq<Item>): seq<Item> {
    if s == [] || !Less(s[0].k, x.k) then [x] + s else [s[0]] + Insert(x, s[1..])
  }

  /** `items.sort(key=lambda pair: pair[0])`. */
  function Sort(items: seq<Item>): seq<Item> {
    if items == [] then [] else Insert(items[0], Sort(items[1..]))
  }

  function Flatten(items: seq<Item>): Bytes {
    if items == [] then [] else items[0].k + items[0].v + Flatten(items[1..])
  }

  function CanonicalEntries(items: seq<Item>): seq<Entry> {
    seq(|items|, i requires 0 <= i < |items| => Entry(items[i].entry.key, items[i].canon))
  }

  predicate DistinctKeyBytes(items: seq<Item>) {
    forall i, j | 0 <= i < j < |items| :: items[i].k != items[j].k
  }

  /** The encoder; `None` stands for `CBORError`. */
  function Encode(v: Value): Option<Bytes>
    decreases v, 1
  {
    match v
    case Null => Some([0xf6])
    case Bool(b) => Some([if b then 0xf5 else 0xf4])
    case Int(i) => if i >= 0 then Head(0, i) else Head(1, -i - 1)
    case BStr(s) => Append(Head(2, |s|), Some(s))
    case TStr(s) => Append(Head(3, |s|), Some(s))
    case Array(items) => Append(Head(4, |items|), EncodeAll(items))
    case Map(es) =>
      (match Items(es)
       case None => None
       case Some(items) =>
         if !DistinctKeyBytes(items) then None else Append(Head(5, |items|), Some(Flatten(Sort(items)))))
    case Tagged(tag, x) => Append(Head(6, tag), Encode(x))
  }

  function EncodeAll(vs: seq<Value>): Option<Bytes>
    decreases vs, 0
  {
    if vs == [] then Some([]) else Append(Encode(vs[0]), EncodeAll(vs[1..]))
  }

  function Items(es: seq<Entry>): (r: Option<seq<Item>>)
    decreases es, 0
  {
    if es == [] then Some([])
    else
      var e := es[0];
      assert e.key < e && e.value < e;
      if !Supported(e.key) then None
      else
        var k, v, rest := Encode(e.key), Encode(e.value), Items(es[1..]);
        if k.Some? && v.Some? && rest.Some? then
          Some([Item(k.value, v.value, e, Canonical(e.value))] + rest.value)
        else None
  }

  /** The same value with every dictionary in the order of its encoded keys. */
  function Canonical(v: Value): Value
    decreases v, 1
  {
    match v
    case Array(items) => Array(CanonicalAll(items))
    case Map(es) =>
      (match Items(es)
       case None => v
       case Some(items) => Map(CanonicalEntries(Sort(items))))
    case Tagged(tag, x) => Tagged(tag, Canonical(x))
    case _ => v
  }

  function CanonicalAll(vs: seq<Value>): (r: seq<Value>)
    ensures |r| == |vs|
    decreases vs, 0
  {
    if vs == [] then [] else [Canonical(vs[0])] + CanonicalAll(vs[1..])
  }

  // ---- the reader as a function --------------------------------------------------------------------

  function Width(info: nat): nat
    requires 24 <= info <= 27
  {
    if info == 24 then 1 else if info == 25 then 2 else if info == 26 then 4 else 8
  }

  /** The argument of the first item in `b` and the number of bytes it takes. */
  function ParseArgument(b: Bytes): (r: Option<(nat, nat)>)
    requires b != []
    ensures r.Some? ==> 1 <= r.value.1 <= |b|
  {
    var info := b[0] % 32;
    if info < 24 then Some((info, 1))
    else if info > 27 then None
    else
      var width := Width(info);
      if |b| < 1 + width then None
      else
        var value := FromBigEndian(b[1..1 + width]);
        var minimal := Head(b[0] / 32, value);
        if minimal.Some? && |minimal.value| == width + 1 then Some((value, 1 + width)) else None
  }

  /** The first item in `b` and its length; `None` stands for any error. */
  function ParseItem(b: Bytes): (r: Option<(Value, nat)>)
    ensures r.Some? ==> 1 <= r.value.1 <= |b|
    decreases |b|, 0, 0
  {
    if b == [] then None
    else if b[0] / 32 == 7 then
      var info := b[0] % 32;
      if info == 20 then Some((Bool(false), 1))
      else if info == 21 then Some((Bool(true), 1))
      else if info == 22 then Some((Null, 1))
      else None
    else
      match ParseArgument(b)
      case None => None
      case Some((arg, h)) =>
        var major, rest := b[0] / 32, b[h..];
        if major == 0 then Some((Int(arg), h))
        else if major == 1 then Some((Int(-1 - arg as int), h))
        else if major == 2 then if |rest| < arg then None else Some((BStr(rest[..arg]), h + arg))
        else if major == 3 then
          if |rest| < arg || !ValidUtf8(rest[..arg]) then None else Some((TStr(rest[..arg]), h + arg))
        else if major == 4 then
          match ParseItems(rest, arg)
          case None => None
          case Some((items, n)) => Some((Array(items), h + n))
        else if major == 5 then
          match ParseEntries(rest, arg, None, {})
          case None => None
          case Some((es, n)) => Some((Map(es), h + n))
        else
          match ParseItem(rest)
          case None => None
          case Some((x, n)) => Some((Tagged(arg, x), h + n))
  }

  function ParseItems(b: Bytes, count: nat): (r: Option<(seq<Value>, nat)>)
    ensures r.Some? ==> r.value.1 <= |b| && |r.value.0| == count
    decreases |b|, 1, count
  {
    if count == 0 then Some(([], 0))
    else
      match ParseItem(b)
      case None => None
      case Some((x, n)) =>
        match ParseItems(b[n..], count - 1)
        case None => None
        case Some((xs, m)) => Some(([x] + xs, n + m))
  }

  predicate InOrder(previous: Option<Bytes>, encoded: Bytes) {
    previous.None? || Less(previous.value, encoded)
  }

  /** `count` entries whose keys are new and stand in ascending order of their encodings. */
  function ParseEntries(b: Bytes, count: nat, previous: Option<Bytes>, seen: set<Value>)
    : (r: Option<(seq<Entry>, nat)>)
    ensures r.Some? ==> r.value.1 <= |b| && |r.value.0| == count
    decreases |b|, 1, count
  {
    if count == 0 then Some(([], 0))
    else
      match ParseItem(b)
      case None => None
      case Some((key, n)) =>
        if !Hashable(key) || KeyId(key) in seen || !InOrder(previous, b[..n]) then None
        else
          match ParseItem(b[n..])
          case None => None
          case Some((value, m)) =>
            match ParseEntries(b[n + m..], count - 1, Some(b[..n]), seen + {KeyId(key)})
            case None => None
            case Some((es, l)) => Some(([Entry(key, value)] + es, n + m + l))
  }

  function Decode(data: Bytes): Option<Value> {
    match ParseItem(data)
    case Some((v, n)) => if n == |data| then Some(v) else None
    case None => None
  }
}

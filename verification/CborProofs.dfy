/** The encoder and the reader undo each other, and encodings are canonical. */
module CborProofs {
  import opened Bytes
  import opened Options
  import opened Cbor

  // ---- heads ------------------------------------------------------------------------------------

  lemma Powers()
    ensures Power256(1) == 0x100 && Power256(2) == 0x1_0000 && Power256(4) == 0x1_0000_0000
    ensures Power256(8) == 0x1_0000_0000_0000_0000
  {
    assert Power256(0) == 1 && Power256(1) == 256;
    assert Power256(2) == 256 * Power256(1) && Power256(3) == 256 * Power256(2) && Power256(4) == 256 * Power256(3);
    assert Power256(5) == 256 * Power256(4) && Power256(6) == 256 * Power256(5) && Power256(7) == 256 * Power256(6);
  }

  lemma HeadRoundTrip(major: nat, value: int, rest: Bytes)
    requires major < 8 && Head(major, value).Some?
    ensures var h := Head(major, value).value;
            h[0] / 32 == major && ParseArgument(h + rest) == Some((value, |h|))
  {
    hide ToBigEndian, FromBigEndian, Power256;
    var h := Head(major, value).value;
    if value >= 24 {
      Powers();
      var width := |h| - 1;
      BigEndianRoundTrip(value, width);
      assert (h + rest)[1..1 + width] == h[1..] == ToBigEndian(value, width);
    }
  }

  lemma HeadCanonical(b: Bytes)
    requires b != [] && ParseArgument(b).Some?
    ensures var (value, n) := ParseArgument(b).value; Head(b[0] / 32, value) == Some(b[..n])
  {
    hide ToBigEndian, FromBigEndian;
    var (value, n) := ParseArgument(b).value;
    if n > 1 {
      BigEndianUnique(b[1..n]);
      assert b[..n] == [b[0]] + b[1..n];
    } else {
      assert b[..1] == [b[0]];
    }
  }

  // ---- dictionary order ---------------------------------------------------------------------------

  lemma {:induction false} LessTrichotomy(a: Bytes, b: Bytes)
    ensures Less(a, b) || a == b || Less(b, a)
    ensures !(Less(a, b) && Less(b, a)) && !Less(a, a)
  {
    if a != [] && b != [] && a[0] == b[0] {
      LessTrichotomy(a[1..], b[1..]);
      assert a == [a[0]] + a[1..] && b == [b[0]] + b[1..];
    }
    if a != [] {
      LessTrichotomy(a[1..], a[1..]);
    }
  }

  lemma {:induction false} LessTransitive(a: Bytes, b: Bytes, c: Bytes)
    requires Less(a, b) && Less(b, c)
    ensures Less(a, c)
  {
    if a != [] && a[0] == b[0] && b[0] == c[0] {
      LessTransitive(a[1..], b[1..], c[1..]);
    }
  }

  ghost predicate Ascending(previous: Option<Bytes>, items: seq<Item>)
    decreases items
  {
    items == [] || (InOrder(previous, items[0].k) && Ascending(Some(items[0].k), items[1..]))
  }

  lemma {:induction false} AscendingBelow(previous: Option<Bytes>, items: seq<Item>, x: Item)
    requires Ascending(previous, items) && x in items
    ensures InOrder(previous, x.k)
    decreases items
  {
    if x != items[0] {
      AscendingBelow(Some(items[0].k), items[1..], x);
      if previous.Some? {
        LessTransitive(previous.value, items[0].k, x.k);
      }
    }
  }

  lemma {:induction false} InsertSorted(previous: Option<Bytes>, x: Item, s: seq<Item>)
    requires Ascending(previous, s) && InOrder(previous, x.k)
    requires forall y | y in s :: y.k != x.k
    ensures Ascending(previous, Insert(x, s))
    ensures multiset(Insert(x, s)) == multiset(s) + multiset{x}
    decreases s
  {
    if s != [] {
      LessTrichotomy(s[0].k, x.k);
      assert s == [s[0]] + s[1..];
      if Less(s[0].k, x.k) {
        InsertSorted(Some(s[0].k), x, s[1..]);
      }
    }
  }

  lemma {:induction false} SortSorts(items: seq<Item>)
    requires DistinctKeyBytes(items)
    ensures Ascending(None, Sort(items))
    ensures multiset(Sort(items)) == multiset(items)
    ensures |Sort(items)| == |items|
  {
    if items != [] {
      SortSorts(items[1..]);
      assert items == [items[0]] + items[1..];
      SameMembers(Sort(items[1..]), items[1..]);
      InsertSorted(None, items[0], Sort(items[1..]));
      assert |multiset(Sort(items))| == |multiset(items)|;
    }
  }

  lemma SameMembers(a: seq<Item>, b: seq<Item>)
    requires multiset(a) == multiset(b)
    ensures forall x :: x in a <==> x in b
  {
    forall x ensures x in a <==> x in b {
      assert x in a <==> x in multiset(a);
      assert x in b <==> x in multiset(b);
    }
  }

  lemma InTail(s: seq<Item>, x: Item)
    requires x in s && x != s[0]
    ensures x in s[1..]
  {
  }

  lemma {:induction false} AscendingIsSorted(previous: Option<Bytes>, items: seq<Item>)
    requires Ascending(previous, items)
    ensures Sort(items) == items && DistinctKeyBytes(items)
    decreases items
  {
    if items != [] {
      var x, s := items[0], items[1..];
      AscendingIsSorted(Some(x.k), s);
      forall y | y in s ensures x.k != y.k {
        AscendingBelow(Some(x.k), s, y);
        LessTrichotomy(x.k, y.k);
      }
      if s != [] {
        LessTrichotomy(s[0].k, x.k);
      }
    }
  }

  // ---- items of a dictionary -----------------------------------------------------------------------

  /** The two halves of `it` are the encodings of its entry. */
  ghost predicate Encodes(it: Item) {
    Supported(it.entry.key) && Encode(it.entry.key) == Some(it.k)
    && Encode(it.entry.value) == Some(it.v) && it.canon == Canonical(it.entry.value)
  }

  lemma {:induction false} ItemsOfEntries(es: seq<Entry>)
    requires Items(es).Some?
    ensures var items := Items(es).value;
            |items| == |es| && forall i | 0 <= i < |es| :: items[i].entry == es[i] && Encodes(items[i])
  {
    if es != [] {
      ItemsOfEntries(es[1..]);
    }
  }

  /** No two members are entries for one dictionary key. */
  ghost predicate OneEntryPerKey(items: seq<Item>) {
    forall x, y | x in items && y in items && x != y :: KeyId(x.entry.key) != KeyId(y.entry.key)
  }

  lemma SortedItems(es: seq<Entry>)
    requires Items(es).Some? && DistinctKeyBytes(Items(es).value) && DistinctKeys(es)
    ensures var s := Sort(Items(es).value);
            |s| == |es| && Ascending(None, s) && OneEntryPerKey(s)
            && (forall it | it in s :: Encodes(it) && it.entry in es)
            && forall e | e in es :: exists it :: it in s && it.entry == e
  {
    hide Encode, Canonical, Items, Sort, Less, KeyId, Supported;
    var items := Items(es).value;
    ItemsOfEntries(es);
    SortSorts(items);
    SameMembers(Sort(items), items);
    forall e | e in es ensures exists it :: it in Sort(items) && it.entry == e {
      var i :| 0 <= i < |es| && es[i] == e;
      assert items[i] in items;
    }
  }

  // ---- reading what was written ----------------------------------------------------------------------

  /** A head is read off the front, whatever follows it. */
  lemma ReadHead(major: nat, value: int, body: Bytes, rest: Bytes)
    requires major < 8 && Head(major, value).Some?
    ensures var h := Head(major, value).value;
            var b := (h + body) + rest;
            b[0] / 32 == major && ParseArgument(b) == Some((value, |h|)) && b[|h|..] == body + rest
  {
    HeadRoundTrip(major, value, body + rest);
    var h := Head(major, value).value;
    assert (h + body) + rest == h + (body + rest);
  }

  lemma ReadScalar(v: Value, rest: Bytes)
    requires Hashable(v) && Encode(v).Some?
    ensures ParseItem(Encode(v).value + rest) == Some((v, |Encode(v).value|)) && Canonical(v) == v
  {
    hide Head, ParseArgument, ParseItems, ParseEntries;
    match v
    case Int(i) =>
      var major, arg := if i >= 0 then 0 else 1, if i >= 0 then i else -i - 1;
      ReadHead(major, arg, [], rest);
      assert Head(major, arg).value + [] == Head(major, arg).value;
    case BStr(s) =>
      ReadHead(2, |s|, s, rest);
      assert (s + rest)[..|s|] == s;
    case TStr(s) =>
      ReadHead(3, |s|, s, rest);
      assert (s + rest)[..|s|] == s;
    case _ =>
  }

  /** The items after a container's head decide what is read. */
  lemma ReadArray(n: nat, body: Bytes, rest: Bytes, items: seq<Value>)
    requires Head(4, n).Some? && ParseItems(body + rest, n) == Some((items, |body|))
    ensures ParseItem((Head(4, n).value + body) + rest) == Some((Array(items), |Head(4, n).value| + |body|))
  {
    hide Head, ParseArgument, ParseItems, ParseEntries;
    ReadHead(4, n, body, rest);
  }

  lemma ReadMap(n: nat, body: Bytes, rest: Bytes, es: seq<Entry>)
    requires Head(5, n).Some? && ParseEntries(body + rest, n, None, {}) == Some((es, |body|))
    ensures ParseItem((Head(5, n).value + body) + rest) == Some((Map(es), |Head(5, n).value| + |body|))
  {
    hide Head, ParseArgument, ParseItems, ParseEntries;
    ReadHead(5, n, body, rest);
  }

  lemma ReadTagged(tag: int, body: Bytes, rest: Bytes, x: Value)
    requires Head(6, tag).Some? && ParseItem(body + rest) == Some((x, |body|))
    ensures ParseItem((Head(6, tag).value + body) + rest) == Some((Tagged(tag, x), |Head(6, tag).value| + |body|))
  {
    hide Head, ParseArgument, ParseItems, ParseEntries;
    ReadHead(6, tag, body, rest);
  }

  /** The reader returns what was encoded and stops exactly at its end. */
  lemma {:induction false} ReadBack(v: Value, rest: Bytes)
    requires WellFormed(v) && Encode(v).Some?
    ensures ParseItem(Encode(v).value + rest) == Some((Canonical(v), |Encode(v).value|))
    decreases v, 2
  {
    hide Head, ParseArgument, ParseItem, ParseItems, ParseEntries, Sort, Flatten, Less;
    match v
    case Array(items) =>
      RoundTripAll(items, rest);
      ReadArray(|items|, EncodeAll(items).value, rest, CanonicalAll(items));
    case Map(es) =>
      var s := Sort(Items(es).value);
      SortedItems(es);
      ItemsOfEntries(es);
      RoundTripEntries(v, s, rest, None, {});
      ReadMap(|es|, Flatten(s), rest, CanonicalEntries(s));
    case Tagged(tag, x) =>
      ReadBack(x, rest);
      ReadTagged(tag, Encode(x).value, rest, Canonical(x));
    case _ => ReadScalar(v, rest);
  }

  lemma {:induction false} RoundTripAll(vs: seq<Value>, rest: Bytes)
    requires EncodeAll(vs).Some? && forall x | x in vs :: WellFormed(x)
    ensures ParseItems(EncodeAll(vs).value + rest, |vs|) == Some((CanonicalAll(vs), |EncodeAll(vs).value|))
    decreases vs, 1
  {
    hide Encode, Canonical, ParseItem, ParseEntries, WellFormed;
    if vs != [] {
      var first, others := Encode(vs[0]).value, EncodeAll(vs[1..]).value;
      ReadBack(vs[0], others + rest);
      RoundTripAll(vs[1..], rest);
      assert (first + others) + rest == first + (others + rest);
      assert (first + (others + rest))[|first|..] == others + rest;
    }
  }

  lemma FlattenFirst(items: seq<Item>, rest: Bytes)
    requires items != []
    ensures var it := items[0];
            Flatten(items) + rest == it.k + (it.v + (Flatten(items[1..]) + rest))
            && |Flatten(items)| == |it.k| + |it.v| + |Flatten(items[1..])|
  {
    ConcatThrice(items[0].k, items[0].v, Flatten(items[1..]), rest);
  }

  lemma ConcatThrice(a: Bytes, b: Bytes, c: Bytes, d: Bytes)
    ensures (a + b + c) + d == a + (b + (c + d))
  {
  }

  /** One entry read off the front. */
  lemma ReadEntry(b: Bytes, count: nat, previous: Option<Bytes>, seen: set<Value>, key: Value, n: nat,
                  value: Value, m: nat)
    requires ParseItem(b) == Some((key, n)) && n <= |b| && ParseItem(b[n..]) == Some((value, m)) && n + m <= |b|
    requires Hashable(key) && KeyId(key) !in seen && InOrder(previous, b[..n])
    ensures ParseEntries(b, count + 1, previous, seen) ==
            match ParseEntries(b[n + m..], count, Some(b[..n]), seen + {KeyId(key)})
            case None => None
            case Some((es, l)) => Some(([Entry(key, value)] + es, n + m + l))
  {
    hide ParseItem, KeyId, Less, InOrder;
  }

  lemma SliceTwo(k: Bytes, v: Bytes, tail: Bytes)
    ensures var b := k + (v + tail);
            b[..|k|] == k && b[|k|..] == v + tail && b[|k| + |v|..] == tail
  {
  }

  lemma {:induction false} RoundTripEntries(v: Value, items: seq<Item>, rest: Bytes, previous: Option<Bytes>,
                                            seen: set<Value>)
    requires v.Map? && WellFormed(v)
    requires forall it | it in items :: Encodes(it) && it.entry in v.entries && KeyId(it.entry.key) !in seen
    requires Ascending(previous, items) && OneEntryPerKey(items)
    ensures ParseEntries(Flatten(items) + rest, |items|, previous, seen)
            == Some((CanonicalEntries(items), |Flatten(items)|))
    decreases v, 1, |items|
  {
    hide Encode, Canonical, ParseItem, ParseItems, ParseEntries, Flatten, KeyId, Less;
    if items == [] {
      EmptyFlatten(items, rest, previous, seen);
    } else {
      var it, others := items[0], items[1..];
      var tail := Flatten(others) + rest;
      FlattenFirst(items, rest);
      EntryWithin(v, it.entry);
      ReadScalar(it.entry.key, it.v + tail);
      ReadBack(it.entry.value, tail);
      FirstIsOnly(previous, items);
      RoundTripEntries(v, others, rest, Some(it.k), seen + {KeyId(it.entry.key)});
      SliceTwo(it.k, it.v, tail);
      ReadEntry(it.k + (it.v + tail), |others|, previous, seen, it.entry.key, |it.k|, it.canon, |it.v|);
      assert CanonicalEntries(items) == [Entry(it.entry.key, it.canon)] + CanonicalEntries(others);
    }
  }

  lemma EmptyFlatten(items: seq<Item>, rest: Bytes, previous: Option<Bytes>, seen: set<Value>)
    requires items == []
    ensures ParseEntries(Flatten(items) + rest, 0, previous, seen) == Some((CanonicalEntries(items), |Flatten(items)|))
  {
    assert CanonicalEntries(items) == [];
  }

  lemma EntryWithin(v: Value, e: Entry)
    requires v.Map? && e in v.entries && WellFormed(v)
    ensures e.key < v && e.value < v && WellFormed(e.value)
  {
    assert e.key < e && e.value < e;
  }

  lemma FirstIsOnly(previous: Option<Bytes>, items: seq<Item>)
    requires items != [] && Ascending(previous, items)
    ensures items[0] !in items[1..]
  {
    AscendingIsSorted(previous, items);
  }

  // ---- everything accepted is canonical ------------------------------------------------------------

  /** What stands behind an accepted item. */
  lemma Shape(b: Bytes)
    requires ParseItem(b).Some?
    ensures b != []
    ensures var (v, n) := ParseItem(b).value;
            if b[0] / 32 == 7 then (v.Null? || v.Bool?) && Encode(v) == Some(b[..n])
            else
              ParseArgument(b).Some? &&
              var (arg, h) := ParseArgument(b).value;
              var major, rest := b[0] / 32, b[h..];
              match v
              case Int(i) => n == h && ((major == 0 && i == arg) || (major == 1 && i == -1 - arg))
              case BStr(s) => major == 2 && arg <= |rest| && n == h + arg && s == rest[..arg]
              case TStr(s) => major == 3 && arg <= |rest| && n == h + arg && s == rest[..arg]
              case Array(items) => major == 4 && n >= h && ParseItems(rest, arg) == Some((items, n - h))
              case Map(es) => major == 5 && n >= h && ParseEntries(rest, arg, None, {}) == Some((es, n - h))
              case Tagged(tag, x) => major == 6 && tag == arg && n >= h && ParseItem(rest) == Some((x, n - h))
              case _ => false
  {
    hide ParseArgument, ParseItems, ParseEntries, Head, ValidUtf8;
    if b[0] / 32 == 7 {
      assert b[..1] == [b[0]];
    }
  }

  lemma Slices(b: Bytes, n: nat, m: nat)
    requires n + m <= |b|
    ensures b[..n] + b[n..][..m] == b[..n + m] && b[n..][m..] == b[n + m..]
  {
  }

  /** Accepted bytes are the encoding of their value, which is in canonical form already. */
  lemma {:induction false} Canonicity(b: Bytes)
    requires ParseItem(b).Some? && KeysSupported(ParseItem(b).value.0)
    ensures var (v, n) := ParseItem(b).value;
            Encode(v) == Some(b[..n]) && Canonical(v) == v && WellFormed(v)
    decreases |b|, 0, 0
  {
    hide Head, ParseArgument, ParseItem, ParseItems, ParseEntries, Sort, Flatten, Less;
    var (v, n) := ParseItem(b).value;
    Shape(b);
    if b[0] / 32 != 7 {
      HeadCanonical(b);
      var (arg, h) := ParseArgument(b).value;
      var rest := b[h..];
      Slices(b, h, n - h);
      match v
      case Array(items) => CanonicityAll(rest, arg);
      case Map(es) => CanonicityMap(rest, arg);
      case Tagged(_, _) => Canonicity(rest);
      case _ =>
    }
  }

  lemma {:induction false} CanonicityAll(b: Bytes, count: nat)
    requires ParseItems(b, count).Some?
    requires forall x | x in ParseItems(b, count).value.0 :: KeysSupported(x)
    ensures var (xs, n) := ParseItems(b, count).value;
            EncodeAll(xs) == Some(b[..n]) && CanonicalAll(xs) == xs && forall x | x in xs :: WellFormed(x)
    decreases |b|, 1, count
  {
    hide Encode, Canonical, ParseItem, ParseEntries, WellFormed, KeysSupported;
    if count > 0 {
      var (x, n) := ParseItem(b).value;
      var (others, m) := ParseItems(b[n..], count - 1).value;
      var xs := ParseItems(b, count).value.0;
      assert xs[0] == x && xs[1..] == others;
      Canonicity(b);
      CanonicityAll(b[n..], count - 1);
      Slices(b, n, m);
    }
  }

  lemma CanonicityMap(b: Bytes, count: nat)
    requires ParseEntries(b, count, None, {}).Some?
    requires forall e | e in ParseEntries(b, count, None, {}).value.0 :: Supported(e.key) && KeysSupported(e.value)
    ensures var (es, n) := ParseEntries(b, count, None, {}).value;
            Items(es).Some? && DistinctKeyBytes(Items(es).value) && |Items(es).value| == count
            && Flatten(Sort(Items(es).value)) == b[..n] && CanonicalEntries(Sort(Items(es).value)) == es
            && DistinctKeys(es) && forall e | e in es :: Hashable(e.key) && WellFormed(e.value)
    decreases |b|, 1, count + 1
  {
    hide Encode, Canonical, ParseItem, ParseItems, ParseEntries, WellFormed, KeysSupported, Sort, Flatten, KeyId;
    var (es, n) := ParseEntries(b, count, None, {}).value;
    CanonicityEntries(b, count, None, {});
    ItemsOfEntries(es);
    AscendingIsSorted(None, Items(es).value);
  }

  lemma {:induction false} CanonicityEntries(b: Bytes, count: nat, previous: Option<Bytes>, seen: set<Value>)
    requires ParseEntries(b, count, previous, seen).Some?
    requires forall e | e in ParseEntries(b, count, previous, seen).value.0 ::
               Supported(e.key) && KeysSupported(e.value)
    ensures var (es, n) := ParseEntries(b, count, previous, seen).value;
            Items(es).Some? && Ascending(previous, Items(es).value)
            && Flatten(Items(es).value) == b[..n] && CanonicalEntries(Items(es).value) == es
            && DistinctKeys(es) && forall e | e in es :: KeyId(e.key) !in seen && Hashable(e.key) && WellFormed(e.value)
    decreases |b|, 1, count
  {
    hide Encode, Canonical, Items, ParseItem, ParseItems, ParseEntries, WellFormed, KeysSupported, KeyId, InOrder,
         DistinctKeys, Supported, Hashable;
    var (es, total) := ParseEntries(b, count, previous, seen).value;
    if count > 0 {
      var n, m := FirstEntry(b, count, previous, seen);
      var e, others := es[0], es[1..];
      assert es == [e] + others;
      ScalarKey(e.key);
      Canonicity(b);
      Canonicity(b[n..]);
      CanonicityEntries(b[n + m..], count - 1, Some(b[..n]), seen + {KeyId(e.key)});
      ItemsStep(es, b[..n], b[n..][..m]);
      var tail := Items(others).value;
      assert Items(es).value[1..] == tail;
      Slices(b, n, m);
      Slices(b, n + m, total - n - m);
      assert CanonicalEntries(Items(es).value) == [e] + CanonicalEntries(tail);
      DistinctStep(e, others);
    } else {
      NoEntries(b, previous, seen);
    }
  }

  lemma ScalarKey(key: Value)
    requires Hashable(key)
    ensures KeysSupported(key) && WellFormed(key)
  {
  }

  lemma NoEntries(b: Bytes, previous: Option<Bytes>, seen: set<Value>)
    ensures ParseEntries(b, 0, previous, seen) == Some(([], 0))
    ensures Items([]) == Some([]) && Flatten([]) == [] && CanonicalEntries([]) == [] && DistinctKeys([])
  {
  }

  lemma DistinctStep(e: Entry, others: seq<Entry>)
    requires DistinctKeys(others) && forall x | x in others :: KeyId(x.key) != KeyId(e.key)
    ensures DistinctKeys([e] + others)
  {
  }

  lemma FirstEntry(b: Bytes, count: nat, previous: Option<Bytes>, seen: set<Value>) returns (n: nat, m: nat)
    requires count > 0 && ParseEntries(b, count, previous, seen).Some?
    ensures var (es, total) := ParseEntries(b, count, previous, seen).value;
            es != [] && n + m <= total <= |b| && 1 <= n
            && ParseItem(b) == Some((es[0].key, n)) && ParseItem(b[n..]) == Some((es[0].value, m))
            && Hashable(es[0].key) && KeyId(es[0].key) !in seen && InOrder(previous, b[..n])
            && ParseEntries(b[n + m..], count - 1, Some(b[..n]), seen + {KeyId(es[0].key)})
               == Some((es[1..], total - n - m))
  {
    hide ParseItem, KeyId, InOrder;
    n := ParseItem(b).value.1;
    m := ParseItem(b[n..]).value.1;
  }

  lemma ItemsStep(es: seq<Entry>, k: Bytes, v: Bytes)
    requires es != [] && Supported(es[0].key) && Encode(es[0].key) == Some(k) && Encode(es[0].value) == Some(v)
    requires Items(es[1..]).Some? && Canonical(es[0].value) == es[0].value
    ensures Items(es) == Some([Item(k, v, es[0], es[0].value)] + Items(es[1..]).value)
  {
  }

  // ---- main results -----------------------------------------------------------------------------------

  /** The reader returns the value that was encoded and stops exactly at its end. */
  lemma RoundTrip(v: Value, rest: Bytes)
    requires WellFormed(v) && Encode(v).Some?
    ensures ParseItem(Encode(v).value + rest) == Some((Canonical(v), |Encode(v).value|))
    ensures Alike(v, Canonical(v))
  {
    hide ParseItem, Encode, Canonical, Alike;
    ReadBack(v, rest);
    CanonicalIsAlike(v);
  }

  /** Decoding an encoding gives the value back, its dictionaries in the order of their keys. */
  lemma DecodeOfEncode(v: Value)
    requires WellFormed(v) && Encode(v).Some?
    ensures Decode(Encode(v).value) == Some(Canonical(v)) && Alike(v, Canonical(v))
  {
    hide ParseItem, Encode, Canonical, Alike;
    RoundTrip(v, []);
    assert Encode(v).value + [] == Encode(v).value;
  }

  /** Equal encodings mean equal values. */
  lemma EncodeInjective(v: Value, w: Value)
    requires WellFormed(v) && WellFormed(w) && Encode(v).Some? && Encode(v) == Encode(w)
    ensures Alike(v, w) && Canonical(v) == Canonical(w)
  {
    hide Decode, Encode, Canonical, Alike, WellFormed;
    DecodeOfEncode(v);
    DecodeOfEncode(w);
    AlikeJoin(v, w, Canonical(v));
  }

  /** Re-encoding an accepted string restores it, unless some dictionary in it has a null key. */
  lemma EncodeOfDecode(data: Bytes)
    requires Decode(data).Some?
    ensures Encode(Decode(data).value) == Some(data) <==> KeysSupported(Decode(data).value)
    ensures KeysSupported(Decode(data).value) ==> Canonical(Decode(data).value) == Decode(data).value
  {
    var v := Decode(data).value;
    if KeysSupported(v) {
      Canonicity(data);
      assert data[..|data|] == data;
    } else if Encode(v).Some? {
      EncodedKeys(v);
    }
  }

  /** {null: null} is read but never written. */
  lemma NullKeyAccepted()
    ensures Decode([0xa1, 0xf6, 0xf6]) == Some(Map([Entry(Null, Null)]))
    ensures Encode(Map([Entry(Null, Null)])) == None
  {
    hide ParseItem, ParseEntries, Encode;
    var es := [Entry(Null, Null)];
    SimpleNull();
    NoEntries([], Some([0xf6]), {} + {KeyId(Null)});
    var b: Bytes := [0xf6, 0xf6];
    assert b[1..] == [0xf6] && b[..1] == [0xf6] && b[2..] == [] && b + [] == b && [Entry(Null, Null)] + [] == es;
    ReadEntry(b, 0, None, {}, Null, 1, Null, 1);
    ReadMap(1, b, [], es);
    assert (Head(5, 1).value + b) + [] == [0xa1, 0xf6, 0xf6];
    NullNeverWritten();
  }

  lemma SimpleNull()
    ensures ParseItem([0xf6, 0xf6]) == Some((Null, 1)) && ParseItem([0xf6]) == Some((Null, 1))
  {
  }

  lemma NullNeverWritten()
    ensures Encode(Map([Entry(Null, Null)])) == None
  {
  }

  lemma {:induction false} EncodedKeys(v: Value)
    requires Encode(v).Some?
    ensures KeysSupported(v)
    decreases v, 1
  {
    hide Head, Sort, Flatten, Canonical;
    match v
    case Array(items) => EncodedKeysAll(items);
    case Map(es) =>
      ItemsOfEntries(es);
      forall e | e in es ensures Supported(e.key) && KeysSupported(e.value) {
        var i :| 0 <= i < |es| && es[i] == e;
        assert Encodes(Items(es).value[i]);
        assert es[i].value < es[i];
        EncodedKeys(e.value);
      }
    case Tagged(_, x) => EncodedKeys(x);
    case _ =>
  }

  lemma {:induction false} EncodedKeysAll(vs: seq<Value>)
    requires EncodeAll(vs).Some?
    ensures forall x | x in vs :: KeysSupported(x)
    decreases vs, 0
  {
    if vs != [] {
      EncodedKeys(vs[0]);
      EncodedKeysAll(vs[1..]);
    }
  }

  /** The encoder's own duplicate test never fires on a dictionary. */
  lemma DictionaryKeysDiffer(es: seq<Entry>)
    requires Items(es).Some? && DistinctKeys(es)
    ensures DistinctKeyBytes(Items(es).value)
  {
    hide Encode, Canonical, Items, KeyId;
    var items := Items(es).value;
    ItemsOfEntries(es);
    forall i, j | 0 <= i < j < |items| ensures items[i].k != items[j].k {
      assert Encodes(items[i]) && Encodes(items[j]) && items[i].entry == es[i] && items[j].entry == es[j];
      ReadScalar(es[i].key, []);
      ReadScalar(es[j].key, []);
    }
  }

  // ---- values up to insertion order --------------------------------------------------------------------

  lemma {:induction false} CanonicalAt(vs: seq<Value>, i: nat)
    requires EncodeAll(vs).Some? && i < |vs|
    ensures CanonicalAll(vs)[i] == Canonical(vs[i]) && Encode(vs[i]).Some?
  {
    hide Encode, Canonical;
    if i > 0 {
      CanonicalAt(vs[1..], i - 1);
    }
  }

  lemma {:induction false} CanonicalIsAlike(v: Value)
    requires WellFormed(v) && Encode(v).Some?
    ensures Alike(v, Canonical(v))
    decreases v
  {
    hide Head, Sort, Flatten, KeyId, Supported;
    match v
    case Array(items) =>
      forall i | 0 <= i < |items| ensures Alike(items[i], CanonicalAll(items)[i]) {
        CanonicalAt(items, i);
        CanonicalIsAlike(items[i]);
      }
    case Map(es) =>
      SortedItems(es);
      var s := Sort(Items(es).value);
      forall it | it in s ensures Alike(it.entry.value, it.canon) {
        EntryWithin(v, it.entry);
        CanonicalIsAlike(it.entry.value);
      }
      EntriesAlike(es, s);
    case Tagged(_, x) => CanonicalIsAlike(x);
    case _ =>
  }

  lemma EntriesAlike(es: seq<Entry>, s: seq<Item>)
    requires DistinctKeys(es) && forall it | it in s :: it.entry in es && Alike(it.entry.value, it.canon)
    requires forall e | e in es :: exists it :: it in s && it.entry == e
    ensures Alike(Map(es), Map(CanonicalEntries(s)))
  {
    hide KeyId;
    var fs := CanonicalEntries(s);
    forall k ensures k in KeySet(es) <==> k in KeySet(fs) {
      if k in KeySet(es) {
        var e :| e in es && e.key == k;
        var it :| it in s && it.entry == e;
        var i :| 0 <= i < |s| && s[i] == it;
        assert fs[i] in fs;
      }
      if k in KeySet(fs) {
        var f :| f in fs && f.key == k;
        var i :| 0 <= i < |fs| && fs[i] == f;
        assert s[i] in s;
      }
    }
    forall k | k in KeySet(es) ensures Alike(ValueAt(es, k), ValueAt(fs, k)) {
      var f := Entry(k, ValueAt(fs, k));
      var i :| 0 <= i < |fs| && fs[i] == f;
      assert s[i] in s;
      OneValuePerKey(es, s[i].entry);
    }
  }

  lemma OneValuePerKey(es: seq<Entry>, e: Entry)
    requires DistinctKeys(es) && e in es
    ensures e.key in KeySet(es) && ValueAt(es, e.key) == e.value
  {
    var f := Entry(e.key, ValueAt(es, e.key));
    var i :| 0 <= i < |es| && es[i] == e;
    var j :| 0 <= j < |es| && es[j] == f;
    assert KeyId(es[i].key) == KeyId(es[j].key);
  }

  lemma {:induction false} AlikeJoin(v: Value, w: Value, c: Value)
    requires Alike(v, c) && Alike(w, c)
    ensures Alike(v, w)
    decreases v
  {
    hide ValueAt, KeySet;
    match v
    case Array(items) =>
      forall i | 0 <= i < |items| ensures Alike(items[i], w.items[i]) {
        AlikeJoin(items[i], w.items[i], c.items[i]);
      }
    case Map(es) =>
      forall k | k in KeySet(es) ensures Alike(ValueAt(es, k), ValueAt(w.entries, k)) {
        assert Entry(k, ValueAt(es, k)) in es;
        AlikeJoin(ValueAt(es, k), ValueAt(w.entries, k), ValueAt(c.entries, k));
      }
    case Tagged(_, x) => AlikeJoin(x, w.value, c.value);
    case _ =>
  }

  lemma {:induction false} AlikeItself(v: Value)
    ensures Alike(v, v)
    decreases v
  {
    hide ValueAt, KeySet;
    match v
    case Array(items) =>
      forall i | 0 <= i < |items| ensures Alike(items[i], items[i]) {
        AlikeItself(items[i]);
      }
    case Map(es) =>
      forall k | k in KeySet(es) ensures Alike(ValueAt(es, k), ValueAt(es, k)) {
        assert Entry(k, ValueAt(es, k)) in es;
        AlikeItself(ValueAt(es, k));
      }
    case Tagged(_, x) => AlikeItself(x);
    case _ =>
  }

  /** A dictionary filled in another order is the same value. */
  lemma PermutedIsAlike(es: seq<Entry>, fs: seq<Entry>)
    requires multiset(es) == multiset(fs) && DistinctKeys(es) && DistinctKeys(fs)
    ensures Alike(Map(es), Map(fs))
  {
    hide KeyId, ValueAt;
    assert forall e :: e in es <==> e in multiset(es);
    assert forall f :: f in fs <==> f in multiset(fs);
    assert KeySet(es) == KeySet(fs);
    forall k | k in KeySet(es) ensures Alike(ValueAt(es, k), ValueAt(fs, k)) {
      OneValuePerKey(fs, Entry(k, ValueAt(es, k)));
      AlikeItself(ValueAt(es, k));
    }
  }

  /** Each of these items has one of those with the same bytes. */
  ghost predicate Covers(a: seq<Item>, b: seq<Item>) {
    forall x | x in b :: exists y :: y in a && y.k == x.k && y.v == x.v
  }

  /** Two ascending lists that hold the same bytes are written alike. */
  lemma {:induction false} SameBytes(previous: Option<Bytes>, a: seq<Item>, b: seq<Item>)
    requires Ascending(previous, a) && Ascending(previous, b) && Covers(a, b) && Covers(b, a)
    ensures |a| == |b| && Flatten(a) == Flatten(b)
    decreases a
  {
    hide Less;
    if a != [] {
      var _ := FirstMatch(previous, a, b);
    }
    if b != [] {
      var _ := FirstMatch(previous, b, a);
    }
    if a != [] {
      SameFirst(previous, a, b);
      TailCovers(previous, a, b);
      TailCovers(previous, b, a);
      hide Covers;
      SameBytes(Some(a[0].k), a[1..], b[1..]);
    }
  }

  /** The item with the bytes of the first one of `a`. */
  lemma FirstMatch(previous: Option<Bytes>, a: seq<Item>, b: seq<Item>) returns (x: Item)
    requires a != [] && Ascending(previous, b) && Covers(b, a)
    ensures b != [] && x.k == a[0].k && x.v == a[0].v && (x == b[0] || Less(b[0].k, x.k))
  {
    hide Less, Ascending;
    assert a[0] in a;
    x :| x in b && x.k == a[0].k && x.v == a[0].v;
    NoneBelowFirst(previous, b, x);
  }

  lemma SameFirst(previous: Option<Bytes>, a: seq<Item>, b: seq<Item>)
    requires a != [] && b != [] && Ascending(previous, a) && Ascending(previous, b) && Covers(a, b) && Covers(b, a)
    ensures a[0].k == b[0].k && a[0].v == b[0].v
  {
    hide Less, Ascending, Covers;
    var x := FirstMatch(previous, a, b);
    var y := FirstMatch(previous, b, a);
    LessTrichotomy(a[0].k, b[0].k);
  }

  lemma NoneBelowFirst(previous: Option<Bytes>, s: seq<Item>, x: Item)
    requires x in s && Ascending(previous, s)
    ensures x == s[0] || Less(s[0].k, x.k)
  {
    hide Less;
    if x != s[0] {
      InTail(s, x);
      AscendingBelow(Some(s[0].k), s[1..], x);
    }
  }

  lemma TailCovers(previous: Option<Bytes>, a: seq<Item>, b: seq<Item>)
    requires a != [] && b != [] && Ascending(previous, b) && Covers(a, b) && a[0].k == b[0].k
    ensures Covers(a[1..], b[1..])
  {
    forall x | x in b[1..] ensures exists y :: y in a[1..] && y.k == x.k && y.v == x.v {
      AscendingBelow(Some(b[0].k), b[1..], x);
      LessTrichotomy(b[0].k, x.k);
      var y :| y in a && y.k == x.k && y.v == x.v;
      InTail(a, y);
    }
  }

  /** The same value has the same encoding. */
  lemma {:induction false} AlikeEncodesAlike(v: Value, w: Value)
    requires WellFormed(v) && WellFormed(w) && Alike(v, w) && Encode(v).Some?
    ensures Encode(w) == Encode(v)
    decreases v
  {
    hide Head, Sort, Flatten, KeyId, Supported, Canonical, ValueAt, KeySet, Items;
    match v
    case Array(items) =>
      forall i | 0 <= i < |items| ensures Encode(w.items[i]) == Encode(items[i]) {
        CanonicalAt(items, i);
        AlikeEncodesAlike(items[i], w.items[i]);
      }
      EncodeAllPointwise(items, w.items);
    case Map(es) =>
      forall k | k in KeySet(es) ensures Encode(ValueAt(w.entries, k)) == Encode(ValueAt(es, k)) {
        EntryWithin(v, Entry(k, ValueAt(es, k)));
        EntryWithin(w, Entry(k, ValueAt(w.entries, k)));
        EncodedEntry(es, Entry(k, ValueAt(es, k)));
        AlikeEncodesAlike(ValueAt(es, k), ValueAt(w.entries, k));
      }
      SameDictionary(es, w.entries);
    case Tagged(_, x) => AlikeEncodesAlike(x, w.value);
    case _ =>
  }

  lemma EncodedEntry(es: seq<Entry>, e: Entry)
    requires Items(es).Some? && e in es
    ensures Supported(e.key) && Encode(e.key).Some? && Encode(e.value).Some?
  {
    ItemsOfEntries(es);
    var i :| 0 <= i < |es| && es[i] == e;
    assert Encodes(Items(es).value[i]);
  }

  lemma {:induction false} EncodeAllPointwise(a: seq<Value>, b: seq<Value>)
    requires |a| == |b| && forall i | 0 <= i < |a| :: Encode(a[i]) == Encode(b[i])
    ensures EncodeAll(a) == EncodeAll(b)
  {
    hide Encode;
    if a != [] {
      EncodeAllPointwise(a[1..], b[1..]);
    }
  }

  lemma {:induction false} ItemsExist(es: seq<Entry>)
    requires forall e | e in es :: Supported(e.key) && Encode(e.key).Some? && Encode(e.value).Some?
    ensures Items(es).Some?
  {
    hide Encode, Canonical, Supported;
    if es != [] {
      ItemsExist(es[1..]);
    }
  }

  /** Every entry of the second dictionary has its bytes in the items of the first. */
  lemma DictionaryCovers(es: seq<Entry>, fs: seq<Entry>)
    requires Items(es).Some? && Items(fs).Some? && DistinctKeys(es) && DistinctKeys(fs)
    requires DistinctKeyBytes(Items(es).value) && DistinctKeyBytes(Items(fs).value)
    requires KeySet(es) == KeySet(fs)
    requires forall k | k in KeySet(es) :: Encode(ValueAt(fs, k)) == Encode(ValueAt(es, k))
    ensures Covers(Sort(Items(es).value), Sort(Items(fs).value))
  {
    hide Encode, Sort, KeyId, Supported, Canonical, Items, ValueAt, Ascending, OneEntryPerKey;
    SortedItems(es);
    SortedItems(fs);
    var a, b := Sort(Items(es).value), Sort(Items(fs).value);
    forall x | x in b ensures exists y :: y in a && y.k == x.k && y.v == x.v {
      OneValuePerKey(fs, x.entry);
      var k := x.entry.key;
      var y :| y in a && y.entry == Entry(k, ValueAt(es, k));
    }
  }

  lemma SameDictionary(es: seq<Entry>, fs: seq<Entry>)
    requires Items(es).Some? && DistinctKeys(es) && DistinctKeys(fs) && KeySet(es) == KeySet(fs)
    requires forall k | k in KeySet(es) :: Encode(ValueAt(fs, k)) == Encode(ValueAt(es, k))
    ensures Encode(Map(fs)) == Encode(Map(es))
  {
    hide Encode, Head, Sort, Flatten, KeyId, Supported, Canonical, Items, ValueAt, Ascending, Covers;
    forall f | f in fs ensures Supported(f.key) && Encode(f.key).Some? && Encode(f.value).Some? {
      OneValuePerKey(fs, f);
      EncodedEntry(es, Entry(f.key, ValueAt(es, f.key)));
    }
    ItemsExist(fs);
    DictionaryKeysDiffer(es);
    DictionaryKeysDiffer(fs);
    SortedItems(es);
    SortedItems(fs);
    DictionaryCovers(es, fs);
    DictionaryCovers(fs, es);
    SortSorts(Items(es).value);
    SortSorts(Items(fs).value);
    SameBytes(None, Sort(Items(es).value), Sort(Items(fs).value));
    EncodedMap(es);
    EncodedMap(fs);
  }

  lemma EncodedMap(es: seq<Entry>)
    requires Items(es).Some? && DistinctKeyBytes(Items(es).value)
    ensures Encode(Map(es)) == Append(Head(5, |Items(es).value|), Some(Flatten(Sort(Items(es).value))))
  {
  }

  /** Two values have one encoding exactly when they are the same value; insertion order never matters. */
  lemma EncodeIgnoresOrder(v: Value, w: Value)
    requires WellFormed(v) && WellFormed(w) && Encode(v).Some?
    ensures Encode(v) == Encode(w) <==> Alike(v, w)
    ensures Alike(v, w) ==> Canonical(v) == Canonical(w)
  {
    hide Encode, Alike, Canonical, WellFormed;
    if Alike(v, w) {
      AlikeEncodesAlike(v, w);
    }
    if Encode(v) == Encode(w) {
      EncodeInjective(v, w);
    }
  }
}

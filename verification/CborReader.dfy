/** The reader as the program has it: a position moving over the data, raising on the first error. */
module CborReader {
  import opened Bytes
  import opened Options
  import opened Cbor

  class Reader {
    const data: Bytes
    var pos: nat

    constructor (data: Bytes)
      ensures this.data == data && pos == 0
    {
      this.data := data;
      pos := 0;
    }

    ghost predicate Valid()
      reads this
    {
      pos <= |data|
    }

    method Take(n: nat) returns (r: Option<Bytes>)
      requires Valid()
      modifies this
      ensures Valid()
      ensures r == if old(pos) + n > |data| then None else Some(data[old(pos)..old(pos) + n])
      ensures pos == if r.Some? then old(pos) + n else old(pos)
    {
      if pos + n > |data| {
        return None;
      }
      r := Some(data[pos..pos + n]);
      pos := pos + n;
    }

    /** The argument that the initial byte, taken just before, announces. */
    method Argument(initial: byte) returns (r: Option<nat>)
      requires Valid() && pos > 0 && data[pos - 1] == initial
      modifies this
      ensures Valid() && pos >= old(pos)
      ensures var parsed := ParseArgument(data[old(pos) - 1..]);
              r.Some? == parsed.Some? && (r.Some? ==> parsed.value == (r.value, pos - (old(pos) - 1)))
    {
      ghost var b := data[pos - 1..];
      var info := initial % 32;
      if info < 24 {
        return Some(info);
      }
      if info == 31 {
        return None;
      }
      if info > 27 {
        return None;
      }
      var width := if info == 24 then 1 else if info == 25 then 2 else if info == 26 then 4 else 8;
      var chunk := Take(width);
      if chunk.None? {
        return None;
      }
      assert chunk.value == b[1..1 + width];
      var value := FromBigEndian(chunk.value);
      var minimal := Head(initial / 32, value);
      if minimal.None? || |minimal.value| != width + 1 {
        return None;
      }
      return Some(value);
    }

    /** Reads one item; what it returns and where it stops is what `ParseItem` says. */
    method Item() returns (r: Option<Value>)
      requires Valid()
      modifies this
      ensures Valid() && pos >= old(pos)
      ensures var parsed := ParseItem(data[old(pos)..]);
              r.Some? == parsed.Some? && (r.Some? ==> parsed.value == (r.value, pos - old(pos)))
      decreases |data| - pos, 0
    {
      hide ParseArgument, ParseItems, ParseEntries, ValidUtf8;
      ghost var start := pos;
      ghost var b := data[pos..];
      var first := Take(1);
      if first.None? {
        return None;
      }
      var initial := first.value[0];
      assert b[0] == initial;
      var major := initial / 32;
      if major == 7 {
        var info := initial % 32;
        if info == 20 {
          return Some(Bool(false));
        }
        if info == 21 {
          return Some(Bool(true));
        }
        if info == 22 {
          return Some(Null);
        }
        return None;
      }
      var argument := Argument(initial);
      if argument.None? {
        return None;
      }
      var arg := argument.value;
      ghost var rest := b[pos - start..];
      assert data[pos..] == rest;
      assert arg <= |rest| ==> data[pos..pos + arg] == rest[..arg];
      if major == 0 {
        return Some(Int(arg));
      }
      if major == 1 {
        var negative := -1 - (arg as int);
        return Some(Int(negative));
      }
      if major == 2 {
        var s := Take(arg);
        return if s.Some? then Some(BStr(s.value)) else None;
      }
      if major == 3 {
        var s := Take(arg);
        return if s.Some? && ValidUtf8(s.value) then Some(TStr(s.value)) else None;
      }
      if major == 4 {
        var items := ArrayItems(arg);
        return if items.Some? then Some(Array(items.value)) else None;
      }
      if major == 5 {
        var es := MapEntries(arg);
        return if es.Some? then Some(Map(es.value)) else None;
      }
      var x := Item();
      return if x.Some? then Some(Tagged(arg, x.value)) else None;
    }

    method ArrayItems(count: nat) returns (r: Option<seq<Value>>)
      requires Valid()
      modifies this
      ensures Valid() && pos >= old(pos)
      ensures var parsed := ParseItems(data[old(pos)..], count);
              r.Some? == parsed.Some? && (r.Some? ==> parsed.value == (r.value, pos - old(pos)))
      decreases |data| - pos, 1
    {
      hide ParseItem, ParseItems, ParseEntries;
      ghost var start := pos;
      ghost var parsed := ParseItems(data[start..], count);
      var items: seq<Value> := [];
      AfterNothing(parsed);
      for i := 0 to count
        invariant Valid() && start <= pos
        invariant parsed == After(items, pos - start, ParseItems(data[pos..], count - i))
      {
        ghost var b := data[pos..];
        ItemsStep(items, pos - start, b, count - i);
        ghost var here := pos;
        var x := Item();
        if x.None? {
          return None;
        }
        assert b[pos - here..] == data[pos..];
        items := items + [x.value];
      }
      NothingLeft(items, pos - start, data[pos..]);
      return Some(items);
    }

    method MapEntries(count: nat) returns (r: Option<seq<Entry>>)
      requires Valid()
      modifies this
      ensures Valid() && pos >= old(pos)
      ensures var parsed := ParseEntries(data[old(pos)..], count, None, {});
              r.Some? == parsed.Some? && (r.Some? ==> parsed.value == (r.value, pos - old(pos)))
      decreases |data| - pos, 1
    {
      hide ParseItem, ParseItems, ParseEntries, Less, KeyId, Hashable;
      ghost var start := pos;
      ghost var parsed := ParseEntries(data[start..], count, None, {});
      var out: seq<Entry> := [];
      var seen: set<Value> := {};
      var previous: Option<Bytes> := None;
      AfterNothing(parsed);
      for i := 0 to count
        invariant Valid() && start <= pos
        invariant parsed == After(out, pos - start, ParseEntries(data[pos..], count - i, previous, seen))
      {
        ghost var b := data[pos..];
        EntriesStep(out, pos - start, b, count - i, previous, seen);
        var here := pos;
        var key := Item();
        if key.None? {
          return None;
        }
        var encoded := data[here..pos];
        assert encoded == b[..pos - here] && b[pos - here..] == data[pos..];
        if !Hashable(key.value) || KeyId(key.value) in seen {
          return None;
        }
        if previous.Some? && !Less(previous.value, encoded) {
          return None;
        }
        var value := Item();
        if value.None? {
          return None;
        }
        assert b[pos - here..] == data[pos..];
        previous, seen := Some(encoded), seen + {KeyId(key.value)};
        out := out + [Entry(key.value, value.value)];
      }
      NoEntriesLeft(out, pos - start, data[pos..], previous, seen);
      return Some(out);
    }
  }

  // ---- what the two loops have read so far, in front of what is still to come ----------------------

  ghost function After<T>(done: seq<T>, length: nat, r: Option<(seq<T>, nat)>): Option<(seq<T>, nat)> {
    match r
    case None => None
    case Some((xs, n)) => Some((done + xs, length + n))
  }

  lemma AfterNothing<T>(r: Option<(seq<T>, nat)>)
    ensures After([], 0, r) == r
  {
    if r.Some? {
      assert [] + r.value.0 == r.value.0;
    }
  }

  lemma ItemsStep(done: seq<Value>, length: nat, b: Bytes, count: nat)
    requires count > 0
    ensures match ParseItem(b)
            case None => ParseItems(b, count) == None
            case Some((x, n)) =>
              After(done, length, ParseItems(b, count)) ==
              After(done + [x], length + n, ParseItems(b[n..], count - 1))
  {
    hide ParseItem;
    if ParseItem(b).Some? {
      var (x, n) := ParseItem(b).value;
      var others := ParseItems(b[n..], count - 1);
      if others.Some? {
        assert done + ([x] + others.value.0) == done + [x] + others.value.0;
      }
    }
  }

  lemma NothingLeft(done: seq<Value>, length: nat, b: Bytes)
    ensures After(done, length, ParseItems(b, 0)) == Some((done, length))
  {
    assert done + [] == done;
  }

  lemma EntriesStep(done: seq<Entry>, length: nat, b: Bytes, count: nat, previous: Option<Bytes>, seen: set<Value>)
    requires count > 0
    ensures match ParseItem(b)
            case None => ParseEntries(b, count, previous, seen) == None
            case Some((key, n)) =>
              if !Hashable(key) || KeyId(key) in seen || !InOrder(previous, b[..n])
              then ParseEntries(b, count, previous, seen) == None
              else match ParseItem(b[n..])
                   case None => ParseEntries(b, count, previous, seen) == None
                   case Some((value, m)) =>
                     After(done, length, ParseEntries(b, count, previous, seen)) ==
                     After(done + [Entry(key, value)], length + n + m,
                           ParseEntries(b[n + m..], count - 1, Some(b[..n]), seen + {KeyId(key)}))
  {
    hide ParseItem, Hashable, KeyId, InOrder;
    if ParseEntries(b, count, previous, seen).Some? {
      var (key, n) := ParseItem(b).value;
      var (value, m) := ParseItem(b[n..]).value;
      var es := ParseEntries(b[n + m..], count - 1, Some(b[..n]), seen + {KeyId(key)}).value.0;
      assert done + ([Entry(key, value)] + es) == done + [Entry(key, value)] + es;
    }
  }

  lemma NoEntriesLeft(done: seq<Entry>, length: nat, b: Bytes, previous: Option<Bytes>, seen: set<Value>)
    ensures After(done, length, ParseEntries(b, 0, previous, seen)) == Some((done, length))
  {
    assert done + [] == done;
  }

  method DecodeBytes(data: Bytes) returns (r: Option<Value>)
    ensures r == Decode(data)
  {
    var reader := new Reader(data);
    assert data[0..] == data;
    var value := reader.Item();
    if value.Some? && reader.pos != |data| {
      return None;
    }
    return value;
  }
}

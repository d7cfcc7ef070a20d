/** What an accepted COSE_Sign1 message is, and that only the holder of the key can have made it. */
module CoseProofs {
  import opened Bytes
  import opened Options
  import opened Cbor
  import opened CborProofs
  import opened Signatures
  import opened Cose

  // ---- decoded dictionaries -------------------------------------------------------------------------

  /** Whatever the decoder returns is well formed, null keys included. */
  lemma {:induction false} ParsedWellFormed(b: Bytes)
    requires ParseItem(b).Some?
    ensures WellFormed(ParseItem(b).value.0)
    decreases |b|, 0, 0
  {
    hide ParseArgument, ParseItems, ParseEntries, ParseItem;
    Shape(b);
    var v := ParseItem(b).value.0;
    if b[0] / 32 != 7 {
      var (arg, h) := ParseArgument(b).value;
      match v
      case Array(_) => ParsedAllWellFormed(b[h..], arg);
      case Map(_) => ParsedEntriesWellFormed(b[h..], arg, None, {});
      case Tagged(_, _) => ParsedWellFormed(b[h..]);
      case _ =>
    }
  }

  lemma {:induction false} ParsedAllWellFormed(b: Bytes, count: nat)
    requires ParseItems(b, count).Some?
    ensures forall x | x in ParseItems(b, count).value.0 :: WellFormed(x)
    decreases |b|, 1, count
  {
    hide WellFormed, ParseItem;
    if count > 0 {
      ParsedWellFormed(b);
      ParsedAllWellFormed(b[ParseItem(b).value.1..], count - 1);
    }
  }

  lemma {:induction false} ParsedEntriesWellFormed(b: Bytes, count: nat, previous: Option<Bytes>, seen: set<Value>)
    requires ParseEntries(b, count, previous, seen).Some?
    ensures var es := ParseEntries(b, count, previous, seen).value.0;
            DistinctKeys(es) && forall e | e in es :: KeyId(e.key) !in seen && Hashable(e.key) && WellFormed(e.value)
    decreases |b|, 1, count
  {
    hide WellFormed, ParseItem, ParseEntries, KeyId, Hashable, InOrder;
    var es := ParseEntries(b, count, previous, seen).value.0;
    if count > 0 {
      var n, m := FirstEntry(b, count, previous, seen);
      ParsedWellFormed(b[n..]);
      ParsedEntriesWellFormed(b[n + m..], count - 1, Some(b[..n]), seen + {KeyId(es[0].key)});
      assert es == [es[0]] + es[1..];
    } else {
      NoEntries(b, previous, seen);
    }
  }

  lemma NoEntries(b: Bytes, previous: Option<Bytes>, seen: set<Value>)
    ensures ParseEntries(b, 0, previous, seen) == Some(([], 0))
  {
  }

  // ---- what an accepted message is ------------------------------------------------------------------

  /** The four elements of a message, and its decoded header and claims. */
  datatype Envelope = Envelope(protected: Bytes, unprotected: seq<Entry>, payload: Bytes, signature: Bytes,
                               header: seq<Entry>, claims: seq<Entry>)

  /** The label, which true and false can spell as 1 and 0. */
  ghost predicate Names(e: Entry, name: int) {
    e.key == Int(name) || (name == 1 && e.key == Bool(true)) || (name == 0 && e.key == Bool(false))
  }

  ghost predicate Has(es: seq<Entry>, name: int, v: Value) { exists e :: e in es && Names(e, name) && e.value == v }

  ghost predicate IsMessage(data: Bytes, m: Envelope) {
    Decode(data) == Some(Tagged(18, Array([BStr(m.protected), Map(m.unprotected), BStr(m.payload), BStr(m.signature)])))
    && if m.protected == [] then m.header == [] else Decode(m.protected) == Some(Map(m.header))
  }

  /** No critical header, no label in both headers, EdDSA, and a key identifier. */
  ghost predicate HeadersFit(m: Envelope, kid: Text) {
    (forall e | e in m.header :: !Names(e, 2))
    && (forall x, y | x in m.header && y in m.unprotected :: KeyId(x.key) != KeyId(y.key))
    && Has(m.header, 1, Int(-8)) && Has(m.header, 4, BStr(kid))
  }

  /** Sig_structure bytes: an array of four, the text "Signature1", then three byte strings. */
  ghost predicate Signs(S: Scheme<Bytes>, publicKey: Bytes, m: Envelope) {
    var p, b := Head(2, |m.protected|), Head(2, |m.payload|);
    p.Some? && b.Some?
    && S.verify(publicKey, [0x84, 0x6a] + CONTEXT + p.value + m.protected + [0x40] + b.value + m.payload, m.signature)
  }

  /** What comes back stands in the signed header and payload. */
  ghost predicate Carries(m: Envelope, r: Received) {
    Has(m.header, 3, TStr(r.contentType)) && Has(m.header, 15, Map(m.claims))
    && Has(m.claims, 1, r.iss) && Has(m.claims, 2, r.sub) && Has(m.claims, 6, r.issuedAt)
    && Decode(m.payload) == Some(r.payload) && r.signature == m.signature
  }

  ghost predicate Accepts(S: Scheme<Bytes>, data: Bytes, publicKey: Bytes, m: Envelope, r: Received) {
    IsMessage(data, m) && HeadersFit(m, r.kid) && Signs(S, publicKey, m) && Carries(m, r)
  }

  lemma NamesExactly(e: Entry, name: int)
    ensures Names(e, name) <==> KeyId(e.key) == Int(name)
  {
  }

  lemma {:induction false} LookupHas(es: seq<Entry>, name: int)
    ensures Lookup(es, name).Some? ==> Has(es, name, Lookup(es, name).value)
    ensures Lookup(es, name).None? ==> forall e | e in es :: !Names(e, name)
  {
    hide KeyId, Names;
    if es != [] {
      NamesExactly(es[0], name);
      LookupHas(es[1..], name);
      assert forall e :: e in es <==> e == es[0] || e in es[1..];
      if Lookup(es, name).Some? && KeyId(es[0].key) != Int(name) {
        var e :| e in es[1..] && Names(e, name) && e.value == Lookup(es, name).value;
        assert e in es;
      }
    }
  }

  lemma LookupExactly(es: seq<Entry>, name: int, v: Value)
    requires DistinctKeys(es)
    ensures Lookup(es, name) == Some(v) <==> Has(es, name, v)
  {
    hide KeyId, Names, Lookup;
    LookupHas(es, name);
    if Has(es, name, v) {
      var e :| e in es && Names(e, name) && e.value == v;
      if Lookup(es, name).Some? {
        var f :| f in es && Names(f, name) && f.value == Lookup(es, name).value;
        NamesExactly(e, name);
        NamesExactly(f, name);
        var i :| 0 <= i < |es| && es[i] == e;
        var j :| 0 <= j < |es| && es[j] == f;
        assert i == j;
      }
    }
  }

  /** The layout of what is signed. */
  lemma SigStructureLayout(protected: Bytes, payload: Bytes)
    ensures var p, b := Head(2, |protected|), Head(2, |payload|);
            SigStructure(protected, payload, []) ==
            if p.Some? && b.Some?
            then Some([0x84, 0x6a] + CONTEXT + p.value + protected + [0x40] + b.value + payload) else None
  {
    HeadsOf();
    var v := SigValue(protected, payload, []);
    FourItems(v.items);
    EncodedParts(v);
    EncodedParts(v.items[0]);
    EncodedParts(v.items[1]);
    EncodedParts(v.items[2]);
    EncodedParts(v.items[3]);
    hide *;
    JoinParts(Head(2, |protected|), protected, Head(2, |payload|), payload);
  }

  lemma JoinParts(p: Option<Bytes>, protected: Bytes, b: Option<Bytes>, payload: Bytes)
    ensures Append(Some([0x84]), Append(Append(Some([0x6a]), Some(CONTEXT)),
                   Append(Append(p, Some(protected)), Append(Append(Some([0x40]), Some([])),
                          Append(Append(b, Some(payload)), Some([])))))) ==
            if p.Some? && b.Some?
            then Some([0x84, 0x6a] + CONTEXT + p.value + protected + [0x40] + b.value + payload) else None
  {
    if p.Some? && b.Some? {
      assert [0x84] + (([0x6a] + CONTEXT) + ((p.value + protected) + (([0x40] + []) + ((b.value + payload) + [])))) ==
             [0x84, 0x6a] + CONTEXT + p.value + protected + [0x40] + b.value + payload;
    }
  }

  lemma HeadsOf()
    ensures Head(4, 4) == Some([0x84]) && Head(3, 10) == Some([0x6a]) && Head(2, 0) == Some([0x40]) && |CONTEXT| == 10
  {
  }

  lemma EncodedParts(v: Value)
    ensures v.Array? ==> Encode(v) == Append(Head(4, |v.items|), EncodeAll(v.items))
    ensures v.TStr? ==> Encode(v) == Append(Head(3, |v.text|), Some(v.text))
    ensures v.BStr? ==> Encode(v) == Append(Head(2, |v.bytes|), Some(v.bytes))
  {
    hide Head, EncodeAll;
  }

  lemma FourItems(vs: seq<Value>)
    requires |vs| == 4
    ensures EncodeAll(vs) ==
            Append(Encode(vs[0]), Append(Encode(vs[1]), Append(Encode(vs[2]), Append(Encode(vs[3]), Some([])))))
  {
    hide Encode, Append;
    assert vs[1..][1..] == vs[2..] && vs[2..][1..] == vs[3..] && vs[3..][1..] == [];
    assert EncodeAll([]) == Some([]);
    assert EncodeAll(vs[3..]) == Append(Encode(vs[3]), EncodeAll([]));
    assert EncodeAll(vs[2..]) == Append(Encode(vs[2]), EncodeAll(vs[3..]));
    assert EncodeAll(vs[1..]) == Append(Encode(vs[1]), EncodeAll(vs[2..]));
  }

  // ---- acceptance, exactly -----------------------------------------------------------------------------

  lemma HeaderIsWellFormed(m: Envelope, data: Bytes)
    requires IsMessage(data, m) && Has(m.header, 15, Map(m.claims))
    ensures DistinctKeys(m.header) && DistinctKeys(m.claims)
  {
    hide ParseItem, Names, KeyId, Hashable;
    if m.protected != [] {
      ParsedWellFormed(m.protected);
      var e :| e in m.header && Names(e, 15) && e.value == Map(m.claims);
      assert WellFormed(e.value);
    }
  }

  /** `from_sign1` returns `r` exactly for messages of this kind that carry `r`. */
  lemma AcceptedExactly(S: Scheme<Bytes>, data: Bytes, publicKey: Bytes, r: Received)
    ensures FromSign1(S, data, publicKey) == Some(r) <==> exists m :: Accepts(S, data, publicKey, m, r)
  {
    if FromSign1(S, data, publicKey) == Some(r) {
      var m := EnvelopeOf(S, data, publicKey, r);
    }
    forall m | Accepts(S, data, publicKey, m, r) ensures FromSign1(S, data, publicKey) == Some(r) {
      AcceptedBack(S, data, publicKey, m, r);
    }
  }

  lemma EnvelopeOf(S: Scheme<Bytes>, data: Bytes, publicKey: Bytes, r: Received) returns (m: Envelope)
    requires FromSign1(S, data, publicKey) == Some(r)
    ensures Accepts(S, data, publicKey, m, r)
  {
    hide ParseItem, KeyId, Names, Lookup, ValidUtf8, Head, SigStructure;
    var parsed := Parse(data).value;
    var body := Decode(data).value.value.items;
    var claims := Lookup(parsed.header, HDR_CWT_CLAIMS).value.entries;
    m := Envelope(parsed.protected, parsed.unprotected, parsed.payload.value, parsed.signature, parsed.header, claims);
    assert body == [BStr(m.protected), Map(m.unprotected), BStr(m.payload), BStr(m.signature)];
    SigStructureLayout(m.protected, m.payload);
    LookupHas(m.header, HDR_ALG);
    LookupHas(m.header, HDR_CRIT);
    LookupHas(m.header, HDR_CONTENT_TYPE);
    LookupHas(m.header, HDR_KID);
    LookupHas(m.header, HDR_CWT_CLAIMS);
    LookupHas(claims, CWT_ISS);
    LookupHas(claims, CWT_SUB);
    LookupHas(claims, CWT_IAT);
  }

  lemma AcceptedBack(S: Scheme<Bytes>, data: Bytes, publicKey: Bytes, m: Envelope, r: Received)
    requires Accepts(S, data, publicKey, m, r)
    ensures FromSign1(S, data, publicKey) == Some(r)
  {
    hide ParseItem, KeyId, Names, Lookup, ValidUtf8, Head, SigStructure;
    HeaderIsWellFormed(m, data);
    SigStructureLayout(m.protected, m.payload);
    LookupExactly(m.header, HDR_ALG, Int(-8));
    LookupHas(m.header, HDR_CRIT);
    LookupExactly(m.header, HDR_CONTENT_TYPE, TStr(r.contentType));
    LookupExactly(m.header, HDR_KID, BStr(r.kid));
    LookupExactly(m.header, HDR_CWT_CLAIMS, Map(m.claims));
    LookupExactly(m.claims, CWT_ISS, r.iss);
    LookupExactly(m.claims, CWT_SUB, r.sub);
    LookupExactly(m.claims, CWT_IAT, r.issuedAt);
  }

  /** `parse` returns the parts of a tag-18 array of four; a payload that is null is none. */
  lemma ParsedIs(data: Bytes, p: Parsed)
    requires Parse(data) == Some(p)
    ensures Decode(data) ==
            Some(Tagged(18, Array([BStr(p.protected), Map(p.unprotected),
                                   match p.payload case Some(b) => BStr(b) case None => Null, BStr(p.signature)])))
  {
    hide Lookup, ParseHeader, ValidUtf8, ParseItem;
    var body := Decode(data).value.value.items;
    assert body == [body[0], body[1], body[2], body[3]];
  }

  /** A statement is re-issued exactly with the key it names, if it can be encoded and signed. */
  lemma ReissuedExactly(S: Scheme<Bytes>, key: KeyPair, kid: Text, s: Cose.Statement)
    ensures ToSign1(S, key, kid, s).Some? <==>
              kid == s.kid && SignedFor(s).Some?
              && Encode(Message(Encode(Map(Header(s))).value, Encode(s.payload).value,
                                S.sign(key, SignedFor(s).value))).Some?
  {
    hide Encode, SigStructure;
  }

  // ---- only the holder of the key ------------------------------------------------------------------------

  /** What the holder of the key signs when it issues `s`. */
  ghost function SignedFor(s: Cose.Statement): Option<Bytes> {
    var protected, payload := Encode(Map(Header(s))), Encode(s.payload);
    if protected.Some? && payload.Some? then SigStructure(protected.value, payload.value, []) else None
  }

  /** The key verifies only what its holder signed for one of these statements. */
  ghost predicate SignedOnly(S: Scheme<Bytes>, publicKey: Bytes, issued: seq<Cose.Statement>) {
    forall signed, signature | S.verify(publicKey, signed, signature) ::
      exists i :: 0 <= i < |issued| && SignedFor(issued[i]) == Some(signed)
  }

  /** Every field is that of the statement; its payload is the same value. */
  ghost predicate SameStatement(s: Cose.Statement, r: Received) {
    r.iss == TStr(s.iss) && r.sub == TStr(s.sub) && r.contentType == s.contentType && r.kid == s.kid
    && r.issuedAt == Int(s.issuedAt) && Alike(s.payload, r.payload)
  }

  /**
    An accepted message has header and payload, byte for byte, of a statement that the holder of the key issued,
    and that statement is what comes back; a change of either is refused.
   */
  lemma AcceptedIsIssued(S: Scheme<Bytes>, data: Bytes, publicKey: Bytes, issued: seq<Cose.Statement>, r: Received)
    returns (i: nat)
    requires SignedOnly(S, publicKey, issued) && forall i | 0 <= i < |issued| :: WellFormed(issued[i].payload)
    requires FromSign1(S, data, publicKey) == Some(r)
    ensures i < |issued| && SameStatement(issued[i], r)
    ensures exists m: Envelope :: IsMessage(data, m) && Some(m.protected) == Encode(Map(Header(issued[i])))
                                  && Some(m.payload) == Encode(issued[i].payload)
  {
    hide Encode, ParseItem, SigStructure, Decode, Canonical, WellFormed, Head, Lookup, KeyId, Alike, Overlap;
    var m := EnvelopeOf(S, data, publicKey, r);
    SigStructureLayout(m.protected, m.payload);
    var signed := SigStructure(m.protected, m.payload, []).value;
    assert S.verify(publicKey, signed, m.signature);
    i :| 0 <= i < |issued| && SignedFor(issued[i]) == Some(signed);
    var s := issued[i];
    var protected, payload := Encode(Map(Header(s))).value, Encode(s.payload).value;
    SigStructureInjective(m.protected, m.payload, [], protected, payload, []);
    IssuedFields(s, m, data, r);
  }

  lemma IssuedFields(s: Cose.Statement, m: Envelope, data: Bytes, r: Received)
    requires WellFormed(s.payload)
    requires Encode(Map(Header(s))) == Some(m.protected) && Encode(s.payload) == Some(m.payload)
    requires IsMessage(data, m) && HeadersFit(m, r.kid) && Carries(m, r)
    ensures SameStatement(s, r)
  {
    hide Encode, Decode, Canonical, WellFormed, Lookup, Has, Alike;
    HeaderIsCanonical(s);
    DecodeOfEncode(Map(Header(s)));
    DecodeOfEncode(s.payload);
    NotEmpty(Map(Header(s)));
    assert m.header == Header(s);
    HeaderIsWellFormed(m, data);
    HeaderFields(s);
    LookupExactly(m.header, HDR_CONTENT_TYPE, TStr(r.contentType));
    LookupExactly(m.header, HDR_KID, BStr(r.kid));
    LookupExactly(m.header, HDR_CWT_CLAIMS, Map(m.claims));
    LookupExactly(m.claims, CWT_ISS, r.iss);
    LookupExactly(m.claims, CWT_SUB, r.sub);
    LookupExactly(m.claims, CWT_IAT, r.issuedAt);
  }
}

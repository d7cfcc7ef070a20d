/** COSE_Sign1 messages (RFC 9052) and the statements they carry. */
module Cose {
  import opened Bytes
  import opened Options
  import opened Cbor
  import opened CborProofs
  import opened Signatures

  const TAG_SIGN1 := 18
  const HDR_ALG := 1
  const HDR_CRIT := 2
  const HDR_CONTENT_TYPE := 3
  const HDR_KID := 4
  const HDR_CWT_CLAIMS := 15
  const ALG_EDDSA := -8
  const CWT_ISS := 1
  const CWT_SUB := 2
  const CWT_IAT := 6

  /** "Signature1" */
  const CONTEXT: Bytes := [0x53, 0x69, 0x67, 0x6e, 0x61, 0x74, 0x75, 0x72, 0x65, 0x31]

  lemma {:induction false} AsciiIsUtf8(s: Bytes)
    requires forall i | 0 <= i < |s| :: s[i] < 0x80
    ensures ValidUtf8(s)
  {
    if s != [] {
      AsciiIsUtf8(s[1..]);
    }
  }

  /** Sig_structure: the value whose encoding is signed (section 4.4 of RFC 9052). */
  function SigValue(protected: Bytes, payload: Bytes, aad: Bytes): Value {
    AsciiIsUtf8(CONTEXT);
    Array([TStr(CONTEXT), BStr(protected), BStr(aad), BStr(payload)])
  }

  function SigStructure(protected: Bytes, payload: Bytes, aad: Bytes): Option<Bytes> {
    Encode(SigValue(protected, payload, aad))
  }

  // ---- reading a message ---------------------------------------------------------------------------

  /** `header.get(name)` */
  function Lookup(es: seq<Entry>, name: int): Option<Value> {
    if es == [] then None
    else if KeyId(es[0].key) == Int(name) then Some(es[0].value)
    else Lookup(es[1..], name)
  }

  predicate Overlap(a: seq<Entry>, b: seq<Entry>) {
    exists x, y | x in a && y in b :: KeyId(x.key) == KeyId(y.key)
  }

  datatype Parsed = Parsed(protected: Bytes, header: seq<Entry>, unprotected: seq<Entry>, payload: Option<Bytes>,
                           signature: Bytes, kid: Text, contentType: Option<Value>)

  function ParseHeader(protected: Bytes): Option<seq<Entry>> {
    if protected == [] then Some([])
    else
      match Decode(protected)
      case Some(Map(es)) => Some(es)
      case _ => None
  }

  /** Reads the structure only; `None` stands for `COSEError`. */
  function Parse(data: Bytes): Option<Parsed> {
    match Decode(data)
    case Some(Tagged(tag, Array(body))) =>
      if tag != TAG_SIGN1 || |body| != 4 then None
      else if !body[0].BStr? || !body[1].Map? || !(body[2].Null? || body[2].BStr?) || !body[3].BStr? then None
      else
        (match ParseHeader(body[0].bytes)
         case None => None
         case Some(header) =>
           if Overlap(header, body[1].entries) || Lookup(header, HDR_CRIT).Some? then None
           else if Lookup(header, HDR_ALG) != Some(Int(ALG_EDDSA)) then None
           else
             match Lookup(header, HDR_KID)
             case Some(BStr(kid)) =>
               if !ValidUtf8(kid) then None
               else Some(Parsed(body[0].bytes, header, body[1].entries,
                                if body[2].BStr? then Some(body[2].bytes) else None,
                                body[3].bytes, kid, Lookup(header, HDR_CONTENT_TYPE)))
             case _ => None)
    case _ => None
  }

  function VerifySignature(S: Scheme<Bytes>, data: Bytes, publicKey: Bytes, aad: Bytes): Option<Parsed> {
    match Parse(data)
    case None => None
    case Some(parsed) =>
      if parsed.payload.None? then None
      else
        match SigStructure(parsed.protected, parsed.payload.value, aad)
        case None => None
        case Some(signed) => if S.verify(publicKey, signed, parsed.signature) then Some(parsed) else None
  }

  // ---- statements ------------------------------------------------------------------------------------

  datatype Statement = Statement(iss: Text, sub: Text, contentType: Text, kid: Text, issuedAt: int, payload: Value)

  /** What comes back: the claims are handed on with whatever type they were signed with. */
  datatype Received = Received(iss: Value, sub: Value, contentType: Text, kid: Text, issuedAt: Value,
                               payload: Value, signature: Bytes)

  function Claims(s: Statement): seq<Entry> {
    [Entry(Int(CWT_ISS), TStr(s.iss)), Entry(Int(CWT_SUB), TStr(s.sub)), Entry(Int(CWT_IAT), Int(s.issuedAt))]
  }

  function Header(s: Statement): seq<Entry> {
    [Entry(Int(HDR_ALG), Int(ALG_EDDSA)), Entry(Int(HDR_CONTENT_TYPE), TStr(s.contentType)),
     Entry(Int(HDR_KID), BStr(s.kid)), Entry(Int(HDR_CWT_CLAIMS), Map(Claims(s)))]
  }

  function Message(protected: Bytes, payload: Bytes, signature: Bytes): Value {
    Tagged(TAG_SIGN1, Array([BStr(protected), Map([]), BStr(payload), BStr(signature)]))
  }

  /** Re-issues a statement with the key that it names (`kid` as text); `None` stands for any error. */
  function ToSign1(S: Scheme<Bytes>, key: KeyPair, kid: Text, s: Statement): Option<Bytes> {
    if kid != s.kid then None
    else
      match (Encode(Map(Header(s))), Encode(s.payload))
      case (Some(protected), Some(payload)) =>
        (match SigStructure(protected, payload, [])
         case None => None
         case Some(signed) => Encode(Message(protected, payload, S.sign(key, signed))))
      case _ => None
  }

  function FromSign1(S: Scheme<Bytes>, data: Bytes, publicKey: Bytes): Option<Received> {
    match VerifySignature(S, data, publicKey, [])
    case None => None
    case Some(parsed) =>
      match (Lookup(parsed.header, HDR_CWT_CLAIMS), parsed.contentType)
      case (Some(Map(claims)), Some(TStr(contentType))) =>
        var iss, sub, iat := Lookup(claims, CWT_ISS), Lookup(claims, CWT_SUB), Lookup(claims, CWT_IAT);
        if iss.None? || sub.None? || iat.None? then None
        else
          (match Decode(parsed.payload.value)
           case None => None
           case Some(payload) =>
             Some(Received(iss.value, sub.value, contentType, parsed.kid, iat.value, payload, parsed.signature)))
      case _ => None
  }

  // ---- main results ------------------------------------------------------------------------------------

  lemma {:induction false} CanonicalPointwise(vs: seq<Value>)
    requires forall i | 0 <= i < |vs| :: Canonical(vs[i]) == vs[i]
    ensures CanonicalAll(vs) == vs
  {
    if vs != [] {
      CanonicalPointwise(vs[1..]);
      assert vs == [vs[0]] + vs[1..];
    }
  }

  lemma ScalarIsCanonical(v: Value)
    requires Hashable(v)
    ensures Canonical(v) == v && WellFormed(v)
  {
  }

  lemma SigValueIsCanonical(protected: Bytes, payload: Bytes, aad: Bytes)
    ensures var v := SigValue(protected, payload, aad); Canonical(v) == v && WellFormed(v)
  {
    CanonicalPointwise(SigValue(protected, payload, aad).items);
  }

  /** The signed bytes determine the protected header, the external data and the payload. */
  lemma SigStructureInjective(p1: Bytes, b1: Bytes, a1: Bytes, p2: Bytes, b2: Bytes, a2: Bytes)
    requires SigStructure(p1, b1, a1).Some? && SigStructure(p1, b1, a1) == SigStructure(p2, b2, a2)
    ensures p1 == p2 && b1 == b2 && a1 == a2
  {
    hide Encode, Canonical;
    var v, w := SigValue(p1, b1, a1), SigValue(p2, b2, a2);
    SigValueIsCanonical(p1, b1, a1);
    SigValueIsCanonical(p2, b2, a2);
    EncodeInjective(v, w);
    assert v.items[1] == w.items[1] && v.items[2] == w.items[2] && v.items[3] == w.items[3];
  }

  /** What was signed decides every field of the statement that comes back. */
  lemma SignedBytesDecideStatement(S: Scheme<Bytes>, d1: Bytes, d2: Bytes, publicKey: Bytes)
    requires FromSign1(S, d1, publicKey).Some? && FromSign1(S, d2, publicKey).Some?
    requires var m1, m2 := Parse(d1).value, Parse(d2).value;
             SigStructure(m1.protected, m1.payload.value, []) == SigStructure(m2.protected, m2.payload.value, [])
    ensures FromSign1(S, d1, publicKey).value.(signature := []) == FromSign1(S, d2, publicKey).value.(signature := [])
  {
    hide SigStructure, Decode, Lookup;
    var m1, m2 := Parse(d1).value, Parse(d2).value;
    SigStructureInjective(m1.protected, m1.payload.value, [], m2.protected, m2.payload.value, []);
  }

  /** A dictionary whose small integer keys are written in ascending order is in canonical form. */
  lemma {:induction false} SmallKeysInOrder(es: seq<Entry>, previous: Option<Bytes>)
    requires Items(es).Some?
    requires forall i | 0 <= i < |es| ::
               es[i].key.Int? && 0 <= es[i].key.i < 24 && Canonical(es[i].value) == es[i].value
    requires forall i, j | 0 <= i < j < |es| :: es[i].key.i < es[j].key.i
    requires previous.Some? ==> |previous.value| == 1 && (es != [] ==> previous.value[0] < es[0].key.i)
    ensures Ascending(previous, Items(es).value) && CanonicalEntries(Items(es).value) == es
    decreases es
  {
    hide Canonical, Encode, Head, Items;
    ItemsOfEntries(es);
    if es != [] {
      var e, items := es[0], Items(es).value;
      SmallKey(items[0]);
      ItemsTail(es);
      SmallKeysInOrder(es[1..], Some([e.key.i]));
      assert CanonicalEntries(items) == [e] + CanonicalEntries(items[1..]);
    }
  }

  lemma SmallKey(item: Item)
    requires Encodes(item) && item.entry.key.Int? && 0 <= item.entry.key.i < 24
    ensures item.k == [item.entry.key.i]
  {
    hide Canonical, Items;
  }

  lemma ItemsTail(es: seq<Entry>)
    requires es != [] && Items(es).Some?
    ensures Items(es).value != [] && Items(es[1..]).Some? && Items(es).value[1..] == Items(es[1..]).value
  {
    hide Canonical, Encode;
  }

  lemma SmallMapIsCanonical(es: seq<Entry>)
    requires Encode(Map(es)).Some?
    requires forall i | 0 <= i < |es| :: es[i].key.Int? && 0 <= es[i].key.i < 24
    requires forall i | 0 <= i < |es| :: Canonical(es[i].value) == es[i].value && WellFormed(es[i].value)
    requires forall i, j | 0 <= i < j < |es| :: es[i].key.i < es[j].key.i
    ensures Canonical(Map(es)) == Map(es) && WellFormed(Map(es))
  {
    hide Sort, Items, Flatten, Head;
    SmallKeysInOrder(es, None);
    AscendingIsSorted(None, Items(es).value);
  }

  lemma ClaimsAreCanonical(s: Statement)
    requires Encode(Map(Claims(s))).Some?
    ensures Canonical(Map(Claims(s))) == Map(Claims(s)) && WellFormed(Map(Claims(s)))
  {
    hide Encode, Items, Sort;
    SmallMapIsCanonical(Claims(s));
  }

  lemma HeaderIsCanonical(s: Statement)
    requires Encode(Map(Header(s))).Some?
    ensures Canonical(Map(Header(s))) == Map(Header(s)) && WellFormed(Map(Header(s)))
  {
    hide Items, Sort, Claims, Flatten, Head;
    var header := Header(s);
    assert Encode(header[3].value).Some? by {
      ItemsOfEntries(header);
      assert Encodes(Items(header).value[3]);
    }
    ClaimsAreCanonical(s);
    hide Encode;
    ScalarIsCanonical(header[0].value);
    ScalarIsCanonical(header[1].value);
    ScalarIsCanonical(header[2].value);
    SmallMapIsCanonical(header);
  }

  /** Nothing of a statement is lost: each field comes back, the payload as the same value in canonical order. */
  lemma ReissueRoundTrip(S: Scheme<Bytes>, key: KeyPair, kid: Text, s: Statement)
    requires Genuine(S, key) && WellFormed(s.payload) && ToSign1(S, key, kid, s).Some?
    ensures var r := FromSign1(S, ToSign1(S, key, kid, s).value, key.publicKey);
            r.Some? && r.value.iss == TStr(s.iss) && r.value.sub == TStr(s.sub) && r.value.contentType == s.contentType
            && r.value.kid == s.kid && r.value.issuedAt == Int(s.issuedAt) && Alike(s.payload, r.value.payload)
            && r.value.payload == Canonical(s.payload)
  {
    hide Encode, Canonical, Decode, ValidUtf8, WellFormed, SigStructure, Alike;
    var protected, payload := Encode(Map(Header(s))).value, Encode(s.payload).value;
    var signed := SigStructure(protected, payload, []).value;
    var signature := S.sign(key, signed);
    var data := ToSign1(S, key, kid, s).value;
    MessageDecodes(protected, payload, signature);
    HeaderIsCanonical(s);
    DecodeOfEncode(Map(Header(s)));
    DecodeOfEncode(s.payload);
    HeaderFields(s);
    NotEmpty(Map(Header(s)));
    assert Parse(data)
           == Some(Parsed(protected, Header(s), [], Some(payload), signature, s.kid, Some(TStr(s.contentType))));
  }

  lemma NotEmpty(v: Value)
    requires v.Map? && Encode(v).Some?
    ensures Encode(v).value != []
  {
  }

  lemma HeaderFields(s: Statement)
    ensures Lookup(Header(s), HDR_CRIT) == None && Lookup(Header(s), HDR_ALG) == Some(Int(ALG_EDDSA))
    ensures Lookup(Header(s), HDR_KID) == Some(BStr(s.kid))
    ensures Lookup(Header(s), HDR_CONTENT_TYPE) == Some(TStr(s.contentType))
    ensures Lookup(Header(s), HDR_CWT_CLAIMS) == Some(Map(Claims(s)))
    ensures Lookup(Claims(s), CWT_ISS) == Some(TStr(s.iss)) && Lookup(Claims(s), CWT_SUB) == Some(TStr(s.sub))
    ensures Lookup(Claims(s), CWT_IAT) == Some(Int(s.issuedAt))
  {
    LookupNone(Header(s), HDR_CRIT);
    LookupAt(Header(s), HDR_ALG, 0);
    LookupAt(Header(s), HDR_CONTENT_TYPE, 1);
    LookupAt(Header(s), HDR_KID, 2);
    LookupAt(Header(s), HDR_CWT_CLAIMS, 3);
    LookupAt(Claims(s), CWT_ISS, 0);
    LookupAt(Claims(s), CWT_SUB, 1);
    LookupAt(Claims(s), CWT_IAT, 2);
  }

  lemma {:induction false} LookupAt(es: seq<Entry>, name: int, j: nat)
    requires j < |es| && KeyId(es[j].key) == Int(name)
    requires forall i | 0 <= i < j :: KeyId(es[i].key) != Int(name)
    ensures Lookup(es, name) == Some(es[j].value)
  {
    if j > 0 {
      LookupAt(es[1..], name, j - 1);
    }
  }

  lemma {:induction false} LookupNone(es: seq<Entry>, name: int)
    requires forall i | 0 <= i < |es| :: KeyId(es[i].key) != Int(name)
    ensures Lookup(es, name) == None
  {
    if es != [] {
      LookupNone(es[1..], name);
    }
  }

  lemma MessageDecodes(protected: Bytes, payload: Bytes, signature: Bytes)
    requires Encode(Message(protected, payload, signature)).Some?
    ensures Decode(Encode(Message(protected, payload, signature)).value) == Some(Message(protected, payload, signature))
  {
    hide Encode, Decode;
    var m := Message(protected, payload, signature);
    EmptyMapCanonical();
    CanonicalPointwise(m.value.items);
    assert WellFormed(m.value);
    DecodeOfEncode(m);
  }

  lemma EmptyMapCanonical()
    ensures Canonical(Map([])) == Map([])
  {
    assert CanonicalEntries([]) == [];
  }
}

/** T's verdicts, and their independent recomputation from an export of the log. */
module Replay {
  import opened Bytes
  import opened Options
  import opened Statements
  import opened Log
  import opened Reconcile
  import opened Service

  const PARTIES := ["U", "R", "M"]

  /** The hash a verdict names its private evidence by; `ser` is its serialisation. */
  function PrivateHash(H: Hash, ser: PrivateEvidence -> Bytes, p: PrivateEvidence): Digest { H(ser(p)) }

  predicate IsEvidenceFor(e: LogEntry, sub: string) {
    e.statement.sub == sub && e.statement.contentType != CT_VERDICT
  }

  /** The evidence about a request, in log order. */
  function EvidenceFor(entries: seq<LogEntry>, sub: string): seq<LogEntry> {
    if entries == [] then []
    else
      var n := |entries| - 1;
      EvidenceFor(entries[..n], sub) + if IsEvidenceFor(entries[n], sub) then [entries[n]] else []
  }

  // ---- T -------------------------------------------------------------------------------------------------

  const VERDICT_LIFETIME := 30000

  /** The evidence about a request as T takes it from what is registered. */
  function GatheredFor(g: Engine, entries: seq<LogEntry>, sub: string): Gathered {
    UsePresented(g, GatherAll(g, EvidenceFor(entries, sub)))
  }

  /** A verdict names its contract and the private evidence behind it, and how long it may be relied on. */
  function Bound(g: Engine, v: Verdict, ev: Gathered, ph: Digest, now: int): Verdict {
    v.(contractHash := if ev.contract.Some? then Some(StatementHash(g.E, ev.contract.value)) else None,
       privateEvidenceHash := Some(ph), validUntil := Some(now + VERDICT_LIFETIME))
  }

  /** What T decides about a request when it holds `entries` and the private evidence `p`. */
  function VerdictOfT(g: Engine, ser: PrivateEvidence -> Bytes, entries: seq<LogEntry>, sub: string,
                      p: PrivateEvidence, now: int): Verdict
  {
    Bound(g, Judge(g, EvidenceFor(entries, sub), Some(p), PARTIES), GatheredFor(g, entries, sub),
          PrivateHash(g.E.H, ser, p), now)
  }

  /** The contract of the request is among the evidence. */
  predicate KnownRequest(g: Engine, entries: seq<LogEntry>, sub: string, p: PrivateEvidence) {
    EvidenceOf(g, GatheredFor(g, entries, sub), Some(p)).c.Some?
  }

  /** T's verdict as a statement of T. */
  function VerdictStatement(c: Config, entries: seq<LogEntry>, sub: string, p: PrivateEvidence, now: int): Statement {
    IssueStatement(c.S, c.key, c.tsIss, sub, CT_VERDICT,
                   VerdictPayload(VerdictOfT(EngineOf(c), c.privateBytes, entries, sub, p, now)), now)
  }

  datatype VerdictReply = NoPrivateEvidence | UnknownRequest | Refused
                        | Issued(statement: Statement, receipt: RegistrationReceipt)

  /** T judges over what is registered so far, and registers its verdict like any statement. */
  method IssueVerdict(t: ThirdParty, sub: string, now: int, stored: bool) returns (reply: VerdictReply)
    requires t.Valid()
    modifies t.Repr()
    ensures t.Valid() && fresh(t.Repr() - old(t.Repr())) && t.privates == old(t.privates)
    ensures reply == NoPrivateEvidence <==> sub !in t.privates
    ensures reply == UnknownRequest <==>
              sub in t.privates && !KnownRequest(EngineOf(t.c), old(t.log.entries), sub, t.privates[sub])
    ensures sub in t.privates && KnownRequest(EngineOf(t.c), old(t.log.entries), sub, t.privates[sub]) ==>
              var s := VerdictStatement(t.c, old(t.log.entries), sub, t.privates[sub], now);
              var r := ReplyTo(t.c, old(t.rows), s, now, stored);
              reply == (if r.Some? then Issued(s, r.value) else Refused)
              && t.rows == NextRows(t.c, old(t.rows), s, now, stored)
    ensures !reply.Issued? ==> t.rows == old(t.rows)
  {
    hide Judge, GatherAll, UsePresented, EvidenceFor, ReplyTo, NextRows, EngineOf;
    if sub !in t.privates {
      return NoPrivateEvidence;
    }
    var p := t.privates[sub];
    if !KnownRequest(EngineOf(t.c), t.log.entries, sub, p) {
      return UnknownRequest;
    }
    var statement := VerdictStatement(t.c, t.log.entries, sub, p, now);
    RefusedUnchanged(t.c, t.rows, statement, now, stored);
    var r := t.Register(statement, now, stored);
    return if r.Some? then Issued(statement, r.value) else Refused;
  }

  lemma RefusedUnchanged(c: Config, rows: seq<Row>, s: Statement, now: int, stored: bool)
    ensures ReplyTo(c, rows, s, now, stored) == None ==> NextRows(c, rows, s, now, stored) == rows
  {
    hide Conflicts, CheckPolicy, StatementHash, IssuedReceipt;
  }

  /** What is exported later begins with what T judged over, and the verdict stands behind it. */
  lemma VerdictFollowsEvidence(c: Config, rows: seq<Row>, before: seq<LogEntry>, after: seq<LogEntry>, s: Statement,
                               now: int)
    requires Mirrors(before, rows) && Mirrors(after, NextRows(c, rows, s, now, true)) && Admits(c, rows, s)
    requires forall i | 0 <= i < |before| ::
               before[i].index == i && before[i].leafHash == LeafOf(c.E, before[i].statement)
    requires forall i | 0 <= i < |after| ::
               after[i].index == i && after[i].leafHash == LeafOf(c.E, after[i].statement)
    ensures |after| == |before| + 1 && after[..|before|] == before && after[|before|].statement == s
  {
    hide Admits, IssuedReceipt, StatementHash;
    var next := rows + [NewRow(c, rows, s, now)];
    MirrorFacts(before, rows);
    MirrorFacts(after, next);
    forall i | 0 <= i < |before| ensures after[i] == before[i] {
      assert next[i] == rows[i];
    }
  }

  // ---- the auditor ---------------------------------------------------------------------------------------

  datatype ReplayStatus = Full(status: VerificationStatus) | PassedExcludingPrivate

  /** What two verdicts are compared by. */
  datatype Signature = Signature(status: ReplayStatus, completeness: string, codes: multiset<string>,
                                 equations: map<Equation, Outcome>, policyHash: Digest, checkerVersion: string,
                                 keysVersion: string, evidence: multiset<Digest>)

  /** Without the private evidence E1 and E4, and what they lead to, are left out of the comparison. */
  function SignatureOf(v: Verdict, withoutPrivate: bool): Signature {
    var equations := if withoutPrivate then v.equations - {E1, E4} else v.equations;
    var codes := if withoutPrivate then v.codes["D-USER-SELF" := 0]["D-REQ-UNAPPROVED" := 0] else v.codes;
    var publicPass := forall e: Equation | RequiredForPass(e) && e != E1 && e != E4 ::
                        e in v.equations && v.equations[e] == Pass;
    var status := if withoutPrivate && (v.status == Passed || (v.status == InsufficientEvidence && publicPass))
                  then PassedExcludingPrivate else Full(v.status);
    Signature(status, v.completeness, codes, equations, v.policyHash, v.checkerVersion, v.keysVersion, v.evidence)
  }

  /** The auditor's pinned inputs. */
  datatype Auditor = Auditor(g: Engine, ser: PrivateEvidence -> Bytes, tsIss: string, tsKid: string, tsKey: Bytes,
                             privateByHash: map<Digest, PrivateEvidence>)

  /** A verdict that T really issued. */
  predicate AuthenticVerdict(a: Auditor, e: LogEntry, sub: string) {
    e.statement.sub == sub && e.statement.contentType == CT_VERDICT && e.statement.iss == a.tsIss
    && e.statement.kid == a.tsKid && a.g.S.verify(a.tsKey, ToBeSigned(e.statement), e.statement.signature)
  }

  /** The private evidence to use for a verdict that names `ph`. */
  function PrivateFor(a: Auditor, ph: Option<Digest>, bySub: Option<PrivateEvidence>): Option<PrivateEvidence> {
    if ph.None? then bySub
    else
      var candidate := if ph.value in a.privateByHash then Some(a.privateByHash[ph.value]) else bySub;
      if candidate.Some? && PrivateHash(a.g.E.H, a.ser, candidate.value) == ph.value then candidate else None
  }

  /** The entries of a list that stand before log position `cutoff`. */
  function Before(entries: seq<LogEntry>, cutoff: nat): seq<LogEntry> {
    if entries == [] then []
    else
      var n := |entries| - 1;
      Before(entries[..n], cutoff) + if entries[n].index < cutoff then [entries[n]] else []
  }

  /** The recomputed verdict for an entry that holds one of T's. */
  function Recompute(a: Auditor, entries: seq<LogEntry>, e: LogEntry, bySub: Option<PrivateEvidence>,
                     expected: seq<string>): Verdict
    requires e.statement.payload.VerdictPayload?
  {
    var ph := e.statement.payload.v.privateEvidenceHash;
    Judge(a.g, Before(EvidenceFor(entries, e.statement.sub), e.index), PrivateFor(a, ph, bySub), expected)
  }

  predicate Matches(a: Auditor, entries: seq<LogEntry>, e: LogEntry, bySub: Option<PrivateEvidence>,
                    expected: seq<string>)
  {
    e.statement.payload.VerdictPayload? &&
    var v := e.statement.payload.v;
    var without := PrivateFor(a, v.privateEvidenceHash, bySub).None?;
    SignatureOf(v, without) == SignatureOf(Recompute(a, entries, e, bySub, expected), without)
  }

  // ---- what is compared, in the fields of the verdicts ----------------------------------------------------

  /** Everything that a verdict concludes, and what from. */
  ghost predicate SameVerdict(v: Verdict, u: Verdict) {
    v.status == u.status && v.completeness == u.completeness && v.codes == u.codes && v.equations == u.equations
    && v.policyHash == u.policyHash && v.checkerVersion == u.checkerVersion && v.keysVersion == u.keysVersion
    && v.evidence == u.evidence
  }

  /** Passed, or kept from it by the two equations alone that need the private evidence. */
  ghost predicate PassesApart(v: Verdict) {
    v.status == Passed
    || (v.status == InsufficientEvidence
        && forall e | e in {E5, E8, E9, E10, E11, E12} :: e in v.equations && v.equations[e] == Pass)
  }

  /** The same but for E1, E4 and their two discrepancies, which take the private evidence. */
  ghost predicate SameButPrivate(v: Verdict, u: Verdict) {
    (PassesApart(v) <==> PassesApart(u)) && (PassesApart(v) || v.status == u.status)
    && v.completeness == u.completeness
    && (forall code | code != "D-USER-SELF" && code != "D-REQ-UNAPPROVED" :: v.codes[code] == u.codes[code])
    && (forall e | e != E1 && e != E4 ::
          (e in v.equations <==> e in u.equations) && (e in v.equations ==> v.equations[e] == u.equations[e]))
    && v.policyHash == u.policyHash && v.checkerVersion == u.checkerVersion && v.keysVersion == u.keysVersion
    && v.evidence == u.evidence
  }

  /** The auditor has `p` for a verdict that names `ph`: under that hash or for the request, and of that hash. */
  ghost predicate Supplies(a: Auditor, ph: Option<Digest>, bySub: Option<PrivateEvidence>, p: PrivateEvidence) {
    if ph.None? then bySub == Some(p)
    else
      a.g.E.H(a.ser(p)) == ph.value
      && if ph.value in a.privateByHash then a.privateByHash[ph.value] == p else bySub == Some(p)
  }

  /** The verdict is the one that T's rules give over what was registered before it. */
  ghost predicate Confirmed(a: Auditor, entries: seq<LogEntry>, e: LogEntry, bySub: Option<PrivateEvidence>,
                            expected: seq<string>)
  {
    e.statement.payload.VerdictPayload? &&
    var v, before := e.statement.payload.v, Before(EvidenceFor(entries, e.statement.sub), e.index);
    (forall p | Supplies(a, v.privateEvidenceHash, bySub, p) :: SameVerdict(v, Judge(a.g, before, Some(p), expected)))
    && ((forall p :: !Supplies(a, v.privateEvidenceHash, bySub, p)) ==>
          SameButPrivate(v, Judge(a.g, before, None, expected)))
  }

  lemma SuppliesExactly(a: Auditor, ph: Option<Digest>, bySub: Option<PrivateEvidence>)
    ensures forall p :: Supplies(a, ph, bySub, p) <==> PrivateFor(a, ph, bySub) == Some(p)
  {
  }

  lemma SignaturesExactly(v: Verdict, u: Verdict)
    ensures SignatureOf(v, false) == SignatureOf(u, false) <==> SameVerdict(v, u)
    ensures SignatureOf(v, true) == SignatureOf(u, true) <==> SameButPrivate(v, u)
  {
    PublicPassExactly(v);
    PublicPassExactly(u);
    CodesApart(v, u);
    EquationsApart(v, u);
  }

  lemma PublicPassExactly(v: Verdict)
    ensures SignatureOf(v, true).status == if PassesApart(v) then PassedExcludingPrivate else Full(v.status)
  {
  }

  lemma CodesApart(v: Verdict, u: Verdict)
    ensures v.codes["D-USER-SELF" := 0]["D-REQ-UNAPPROVED" := 0] == u.codes["D-USER-SELF" := 0]["D-REQ-UNAPPROVED" := 0]
            <==> forall code | code != "D-USER-SELF" && code != "D-REQ-UNAPPROVED" :: v.codes[code] == u.codes[code]
  {
    var a := v.codes["D-USER-SELF" := 0]["D-REQ-UNAPPROVED" := 0];
    var b := u.codes["D-USER-SELF" := 0]["D-REQ-UNAPPROVED" := 0];
    if a == b {
      forall code | code != "D-USER-SELF" && code != "D-REQ-UNAPPROVED" ensures v.codes[code] == u.codes[code] {
        assert a[code] == b[code];
      }
    } else {
      var code :| a[code] != b[code];
    }
  }

  lemma EquationsApart(v: Verdict, u: Verdict)
    ensures v.equations - {E1, E4} == u.equations - {E1, E4}
            <==> forall e | e != E1 && e != E4 ::
                   (e in v.equations <==> e in u.equations) && (e in v.equations ==> v.equations[e] == u.equations[e])
  {
    var a, b := v.equations - {E1, E4}, u.equations - {E1, E4};
    if a == b {
      forall e | e != E1 && e != E4
        ensures (e in v.equations <==> e in u.equations) && (e in v.equations ==> v.equations[e] == u.equations[e])
      {
        assert e in a <==> e in b;
        assert e in a ==> a[e] == b[e];
      }
    }
  }

  lemma MatchesExactly(a: Auditor, entries: seq<LogEntry>, e: LogEntry, bySub: Option<PrivateEvidence>,
                       expected: seq<string>)
    ensures Matches(a, entries, e, bySub, expected) <==> Confirmed(a, entries, e, bySub, expected)
  {
    hide SignatureOf, SameVerdict, SameButPrivate, Judge, Before, EvidenceFor, PrivateFor, Supplies;
    if e.statement.payload.VerdictPayload? {
      var v := e.statement.payload.v;
      SuppliesExactly(a, v.privateEvidenceHash, bySub);
      SignaturesExactly(v, Recompute(a, entries, e, bySub, expected));
    }
  }

  /** A statement that counts as T's verdict was signed by T, if T's key verifies only what T signed. */
  lemma AuthenticIsIssued(a: Auditor, e: LogEntry, sub: string, signed: set<Message>)
    requires AuthenticVerdict(a, e, sub)
    requires forall m, signature | a.g.S.verify(a.tsKey, m, signature) :: m in signed
    ensures ToBeSigned(e.statement) in signed && e.statement.iss == a.tsIss && e.statement.kid == a.tsKid
    ensures e.statement.sub == sub && e.statement.contentType == CT_VERDICT
  {
  }

  /** Replays every verdict about one request; one wrong verdict, or none at all, spoils it. */
  method ReplaySub(a: Auditor, entries: seq<LogEntry>, sub: string, bySub: Option<PrivateEvidence>,
                   expected: seq<string>)
    returns (match': bool, unauthenticated: seq<nat>, count: nat)
    ensures match' <==>
              (exists e :: e in entries && AuthenticVerdict(a, e, sub))
              && forall e | e in entries && AuthenticVerdict(a, e, sub) :: Confirmed(a, entries, e, bySub, expected)
    ensures forall at :: at in unauthenticated <==>
              exists e :: e in entries && e.index == at && e.statement.sub == sub
                          && e.statement.contentType == CT_VERDICT && !AuthenticVerdict(a, e, sub)
    ensures count == |set j | 0 <= j < |entries| && AuthenticVerdict(a, entries[j], sub)|
  {
    hide Matches, Confirmed, AuthenticVerdict;
    var allMatch := true;
    unauthenticated, count := [], 0;
    ghost var found: set<int> := {};
    for i := 0 to |entries|
      invariant allMatch <==>
                  forall e | e in entries[..i] && AuthenticVerdict(a, e, sub) ::
                    Confirmed(a, entries, e, bySub, expected)
      invariant forall at :: at in unauthenticated <==>
                  exists e :: e in entries[..i] && e.index == at && e.statement.sub == sub
                              && e.statement.contentType == CT_VERDICT && !AuthenticVerdict(a, e, sub)
      invariant found == (set j | 0 <= j < i && AuthenticVerdict(a, entries[j], sub)) && count == |found|
      invariant count > 0 <==> exists e :: e in entries[..i] && AuthenticVerdict(a, e, sub)
    {
      var e := entries[i];
      assert entries[..i + 1] == entries[..i] + [e];
      MatchesExactly(a, entries, e, bySub, expected);
      VerdictIsAbout(a, e, sub);
      if e.statement.sub == sub && e.statement.contentType == CT_VERDICT {
        if AuthenticVerdict(a, e, sub) {
          found := found + {i};
          count := count + 1;
          allMatch := allMatch && Matches(a, entries, e, bySub, expected);
        } else {
          unauthenticated := unauthenticated + [e.index];
        }
      }
    }
    assert entries[..|entries|] == entries;
    match' := count > 0 && allMatch;
  }

  lemma VerdictIsAbout(a: Auditor, e: LogEntry, sub: string)
    ensures AuthenticVerdict(a, e, sub) ==> e.statement.sub == sub && e.statement.contentType == CT_VERDICT
  {
  }

  // ---- main results ----------------------------------------------------------------------------------------

  /** Evidence is taken entry by entry, in order: what is about the request and no verdict. */
  lemma {:induction false} EvidenceForExactly(a: seq<LogEntry>, b: seq<LogEntry>, sub: string)
    ensures EvidenceFor(a + b, sub) == EvidenceFor(a, sub) + EvidenceFor(b, sub)
    ensures |b| == 1 ==>
              EvidenceFor(b, sub) ==
              if b[0].statement.sub == sub && b[0].statement.contentType != CT_VERDICT then b else []
  {
    if b == [] {
      assert a + b == a;
    } else {
      var n := |b| - 1;
      assert (a + b)[..|a| + n] == a + b[..n] && (a + b)[|a| + n] == b[n];
      EvidenceForExactly(a, b[..n], sub);
      assert n == 0 ==> EvidenceFor(b[..n], sub) == [] && b == [b[0]];
    }
  }

  /** The auditor's cutoff picks exactly the evidence T had. */
  lemma {:induction false} CutoffIsSnapshot(entries: seq<LogEntry>, sub: string, j: nat)
    requires j <= |entries| && forall i | 0 <= i < |entries| :: entries[i].index == i
    ensures Before(EvidenceFor(entries, sub), j) == EvidenceFor(entries[..j], sub)
  {
    var n := |entries| - 1;
    if j == |entries| {
      assert entries[..j] == entries;
      AllBefore(entries, sub, j);
    } else {
      CutoffIsSnapshot(entries[..n], sub, j);
      assert entries[..n][..j] == entries[..j];
      var rest := EvidenceFor(entries[..n], sub);
      BeforeAppend(rest, entries[n], j);
      assert rest + [] == rest;
    }
  }

  lemma BeforeAppend(entries: seq<LogEntry>, e: LogEntry, cutoff: nat)
    ensures Before(entries + [e], cutoff) == Before(entries, cutoff) + if e.index < cutoff then [e] else []
  {
    assert (entries + [e])[..|entries|] == entries;
  }

  lemma {:induction false} AllBefore(entries: seq<LogEntry>, sub: string, j: nat)
    requires |entries| <= j && forall i | 0 <= i < |entries| :: entries[i].index == i
    ensures Before(EvidenceFor(entries, sub), j) == EvidenceFor(entries, sub)
  {
    if entries != [] {
      var n := |entries| - 1;
      AllBefore(entries[..n], sub, j);
      var rest := EvidenceFor(entries[..n], sub);
      BeforeAppend(rest, entries[n], j);
      assert rest + [] == rest;
    }
  }

  /**
    A verdict T issued by its rules is recomputed identically from any later export, when the auditor
    is given the private evidence that the verdict names.
   */
  lemma HonestVerdictReplays(a: Auditor, entries: seq<LogEntry>, j: nat, p: PrivateEvidence, now: int,
                             bySub: Option<PrivateEvidence>)
    requires j < |entries| && forall i | 0 <= i < |entries| :: entries[i].index == i
    requires entries[j].statement.payload ==
             VerdictPayload(VerdictOfT(a.g, a.ser, entries[..j], entries[j].statement.sub, p, now))
    requires PrivateFor(a, Some(PrivateHash(a.g.E.H, a.ser, p)), bySub) == Some(p)
    ensures Matches(a, entries, entries[j], bySub, PARTIES)
    ensures var sub := entries[j].statement.sub;
            Bound(a.g, Recompute(a, entries, entries[j], bySub, PARTIES), GatheredFor(a.g, entries[..j], sub),
                  PrivateHash(a.g.E.H, a.ser, p), now) == entries[j].statement.payload.v
  {
    hide SignatureOf, Judge, EvidenceFor, Before, PrivateHash, PrivateFor, GatheredFor;
    var sub, ph := entries[j].statement.sub, PrivateHash(a.g.E.H, a.ser, p);
    CutoffIsSnapshot(entries, sub, j);
    BoundIsNotCompared(a.g, Judge(a.g, EvidenceFor(entries[..j], sub), Some(p), PARTIES),
                       GatheredFor(a.g, entries[..j], sub), ph, now);
  }

  lemma BoundIsNotCompared(g: Engine, v: Verdict, ev: Gathered, ph: Digest, now: int)
    ensures forall withoutPrivate ::
              SignatureOf(Bound(g, v, ev, ph, now), withoutPrivate) == SignatureOf(v, withoutPrivate)
  {
    hide StatementHash;
  }

  // ---- without the private evidence --------------------------------------------------------------------------

  predicate Private(e: Equation) { e == E1 || e == E4 }

  /** Something fails that the private evidence has no part in. */
  ghost predicate PublicFailure(g: Engine, ev: Gathered, x: Evidence) {
    ev.invalid != [] || ev.unauthorized != [] || PresentedDiffers(g, ev)
    || exists e :: !Private(e) && Evaluate(g.E.H, x, e) == Fail
  }

  lemma OthersIgnorePrivate(H: Hash, x: Evidence, e: Equation)
    ensures !Private(e) ==> Evaluate(H, x.(p := None), e) == Evaluate(H, x, e)
    ensures CodeOf(x.(p := None), e) == CodeOf(x, e)
    ensures Private(e) ==> CodeOf(x, e) in {"D-USER-SELF", "D-REQ-UNAPPROVED"}
    ensures Evaluate(H, x.(p := None), E1) == NotEvaluable
  {
  }

  lemma {:induction false} CodesIgnorePrivate(H: Hash, x: Evidence, es: seq<Equation>, code: string)
    requires code !in {"D-USER-SELF", "D-REQ-UNAPPROVED"}
    ensures FailureCodes(H, x.(p := None), es)[code] == FailureCodes(H, x, es)[code]
  {
    hide Evaluate, CodeOf;
    if es != [] {
      CodesIgnorePrivate(H, x, es[1..], code);
      OthersIgnorePrivate(H, x, es[0]);
    }
  }

  /** The codes that no equation stands behind. */
  ghost function OtherCodes(g: Engine, ev: Gathered, x: Evidence): multiset<string> {
    Repeat("D-SIG-INVALID", |ev.invalid|) + Repeat("D-ISSUER-UNAUTHORIZED", |ev.unauthorized|)
    + Repeat("D-RECEIPT-PRESENTED-DIFFERS", if PresentedDiffers(g, ev) then 1 else 0)
    + Repeat("D-GAP", if Completeness(x, MissingEvidence(ev, PARTIES)) == "gap" then 1 else 0)
    + Repeat("D-LATE", if Late(g, ev, x) then 1 else 0)
  }

  lemma JudgeFields(g: Engine, entries: seq<LogEntry>, p: Option<PrivateEvidence>)
    ensures var ev := UsePresented(g, GatherAll(g, entries));
            var x := EvidenceOf(g, ev, p);
            var v := Judge(g, entries, p, PARTIES);
            v.status == Status(g, ev, x) && v.completeness == Completeness(x, MissingEvidence(ev, PARTIES))
            && v.codes == FailureCodes(g.E.H, x, ALL_EQUATIONS) + OtherCodes(g, ev, x)
            && (forall e :: e in v.equations && v.equations[e] == Evaluate(g.E.H, x, e))
    ensures Judge(g, entries, p, PARTIES) == Judge(g, entries, None, PARTIES).(
              status := Judge(g, entries, p, PARTIES).status, codes := Judge(g, entries, p, PARTIES).codes,
              completeness := Judge(g, entries, p, PARTIES).completeness,
              equations := Judge(g, entries, p, PARTIES).equations)
  {
    hide Status, Completeness, FailureCodes, Evaluate, GatherAll, UsePresented, EvidenceOf, PresentedDiffers, Late,
         MissingEvidence, Repeat, StatementHash;
    AllListed();
  }

  lemma AllListed()
    ensures forall e: Equation :: e in ALL_EQUATIONS
  {
    forall e: Equation ensures e in ALL_EQUATIONS {
      var place := match e
        case E1 => 0 case E2 => 1 case E3 => 2 case E4 => 3 case E5 => 4 case E6 => 5
        case E7 => 6 case E8 => 7 case E9 => 8 case E10 => 9 case E11 => 10 case E12 => 11;
      assert ALL_EQUATIONS[place] == e;
    }
  }

  /** Without E1 and E4 the tables of equations agree, and so do the codes. */
  lemma TablesAgree(g: Engine, ev: Gathered, x: Evidence, v: Verdict, u: Verdict)
    requires x.p.Some? && (forall e :: e in v.equations && v.equations[e] == Evaluate(g.E.H, x, e))
    requires forall e :: e in u.equations && u.equations[e] == Evaluate(g.E.H, x.(p := None), e)
    requires v.codes == FailureCodes(g.E.H, x, ALL_EQUATIONS) + OtherCodes(g, ev, x)
    requires u.codes == FailureCodes(g.E.H, x.(p := None), ALL_EQUATIONS) + OtherCodes(g, ev, x.(p := None))
    ensures v.equations - {E1, E4} == u.equations - {E1, E4}
    ensures v.codes["D-USER-SELF" := 0]["D-REQ-UNAPPROVED" := 0] == u.codes["D-USER-SELF" := 0]["D-REQ-UNAPPROVED" := 0]
    ensures forall e | !Private(e) :: v.equations[e] == u.equations[e]
  {
    hide Evaluate, FailureCodes, OtherCodes;
    forall e | !Private(e) ensures v.equations[e] == u.equations[e] {
      OthersIgnorePrivate(g.E.H, x, e);
    }
    OthersIgnore(g, ev, x);
    forall code | code !in {"D-USER-SELF", "D-REQ-UNAPPROVED"} ensures v.codes[code] == u.codes[code] {
      CodesIgnorePrivate(g.E.H, x, ALL_EQUATIONS, code);
    }
  }

  lemma OthersIgnore(g: Engine, ev: Gathered, x: Evidence)
    ensures OtherCodes(g, ev, x.(p := None)) == OtherCodes(g, ev, x)
    ensures forall missing :: Completeness(x.(p := None), missing) == Completeness(x, missing)
  {
    hide Repeat, PresentedDiffers, MissingEvidence;
  }

  /** Nothing that is compared, the status apart, depends on the private evidence. */
  lemma SignaturesDifferInStatus(g: Engine, entries: seq<LogEntry>, p: PrivateEvidence)
    ensures var v := SignatureOf(Judge(g, entries, Some(p), PARTIES), true);
            var u := SignatureOf(Judge(g, entries, None, PARTIES), true);
            v == u.(status := v.status)
  {
    hide Status, Completeness, Evaluate, FailureCodes, OtherCodes, GatherAll, UsePresented, Judge;
    var ev := UsePresented(g, GatherAll(g, entries));
    var x := EvidenceOf(g, ev, Some(p));
    var v, u := Judge(g, entries, Some(p), PARTIES), Judge(g, entries, None, PARTIES);
    JudgeFields(g, entries, Some(p));
    JudgeFields(g, entries, None);
    assert EvidenceOf(g, ev, None) == x.(p := None);
    OthersIgnore(g, ev, x);
    TablesAgree(g, ev, x, v, u);
  }

  /**
    When the auditor lacks the private evidence a verdict names, an honest verdict still matches exactly
    if something public fails as well, or if E4 fails for the auditor just when E1 or E4 failed for T.
    Otherwise the audit accuses an honest T.
   */
  lemma MatchWithoutEvidence(a: Auditor, entries: seq<LogEntry>, j: nat, p: PrivateEvidence, now: int,
                             bySub: Option<PrivateEvidence>)
    requires j < |entries| && forall i | 0 <= i < |entries| :: entries[i].index == i
    requires entries[j].statement.payload ==
             VerdictPayload(VerdictOfT(a.g, a.ser, entries[..j], entries[j].statement.sub, p, now))
    requires PrivateFor(a, Some(PrivateHash(a.g.E.H, a.ser, p)), bySub) == None
    ensures var ev := GatheredFor(a.g, entries[..j], entries[j].statement.sub);
            var x := EvidenceOf(a.g, ev, Some(p));
            Matches(a, entries, entries[j], bySub, PARTIES) <==>
              PublicFailure(a.g, ev, x)
              || ((Evaluate(a.g.E.H, x, E1) == Fail || Evaluate(a.g.E.H, x, E4) == Fail)
                  <==> Evaluate(a.g.E.H, x.(p := None), E4) == Fail)
  {
    hide Evaluate, GatherAll, UsePresented, Judge, EvidenceFor, Before, PrivateHash, PrivateFor, Status, SignatureOf;
    var sub, ph := entries[j].statement.sub, PrivateHash(a.g.E.H, a.ser, p);
    var es := EvidenceFor(entries[..j], sub);
    var ev := GatheredFor(a.g, entries[..j], sub);
    var x := EvidenceOf(a.g, ev, Some(p));
    CutoffIsSnapshot(entries, sub, j);
    SignaturesDifferInStatus(a.g, es, p);
    assert EvidenceOf(a.g, ev, None) == x.(p := None);
    JudgeFields(a.g, es, Some(p));
    JudgeFields(a.g, es, None);
    var v, u := Judge(a.g, es, Some(p), PARTIES), Judge(a.g, es, None, PARTIES);
    BoundIsNotCompared(a.g, v, ev, ph, now);
    StatusWithoutPrivate(a.g, ev, x, v, u);
  }

  lemma StatusWithoutPrivate(g: Engine, ev: Gathered, x: Evidence, v: Verdict, u: Verdict)
    requires v.status == Status(g, ev, x) && u.status == Status(g, ev, x.(p := None))
    requires forall e :: e in v.equations && v.equations[e] == Evaluate(g.E.H, x, e)
    requires forall e :: e in u.equations && u.equations[e] == Evaluate(g.E.H, x.(p := None), e)
    ensures SignatureOf(v, true).status == SignatureOf(u, true).status <==>
              PublicFailure(g, ev, x)
              || ((Evaluate(g.E.H, x, E1) == Fail || Evaluate(g.E.H, x, E4) == Fail)
                  <==> Evaluate(g.E.H, x.(p := None), E4) == Fail)
  {
    hide Evaluate, PresentedDiffers;
    forall e ensures !Private(e) ==> Evaluate(g.E.H, x.(p := None), e) == Evaluate(g.E.H, x, e)
             ensures Evaluate(g.E.H, x.(p := None), E1) == NotEvaluable
    {
      OthersIgnorePrivate(g.E.H, x, e);
    }
    assert RequiredForPass(E1);
  }

  /**
    The smallest accusation: after the policy a genuine contract that does not commit to the request in U's
    evidence, T's verdict on it, and an auditor without that evidence.
   */
  lemma FalseMismatch(a: Auditor, zero: LogEntry, first: LogEntry, second: LogEntry, c: Contract, p: PrivateEvidence,
                      now: int)
    requires zero.index == 0 && first.index == 1 && second.index == 2
    requires zero.statement.contentType == CT_POLICY && zero.statement.sub != first.statement.sub
    requires first.statement.contentType == CT_CONTRACT && first.statement.payload == ContractPayload(c)
    requires ValidSignature(a.g, first.statement) && Authorized(a.g, first.statement)
    requires c.reqCommit != Commit(a.g.E.H, p.salt, p.requestHash) && a.privateByHash == map[]
    requires AuthenticVerdict(a, second, first.statement.sub)
    requires second.statement.payload ==
             VerdictPayload(VerdictOfT(a.g, a.ser, [zero, first], first.statement.sub, p, now))
    ensures !Matches(a, [zero, first, second], second, None, PARTIES)
  {
    hide *;
    var entries := [zero, first, second];
    assert entries[..2] == [zero, first];
    assert second.statement.sub == first.statement.sub by {
      VerdictIsAbout(a, second, first.statement.sub);
    }
    OnlyContract(a.g, zero, first, p, c);
    NoEvidence(a, PrivateHash(a.g.E.H, a.ser, p));
    MatchWithoutEvidence(a, entries, 2, p, now, None);
  }

  lemma NoEvidence(a: Auditor, ph: Digest)
    requires a.privateByHash == map[]
    ensures PrivateFor(a, Some(ph), None) == None
  {
  }

  lemma OnlyContract(g: Engine, zero: LogEntry, e: LogEntry, p: PrivateEvidence, c: Contract)
    requires zero.statement.sub != e.statement.sub
    requires e.statement.contentType == CT_CONTRACT && e.statement.payload == ContractPayload(c)
    requires ValidSignature(g, e.statement) && Authorized(g, e.statement)
    requires c.reqCommit != Commit(g.E.H, p.salt, p.requestHash)
    ensures var ev := GatheredFor(g, [zero, e], e.statement.sub);
            var x := EvidenceOf(g, ev, Some(p));
            !PublicFailure(g, ev, x) && Evaluate(g.E.H, x, E1) == Fail && Evaluate(g.E.H, x.(p := None), E4) != Fail
  {
    assert [zero, e][..1] == [zero] && [zero][..0] == [] && [e][..0] == [];
    assert EvidenceFor([], e.statement.sub) == [] && EvidenceFor([zero], e.statement.sub) == [];
    assert EvidenceFor([zero, e], e.statement.sub) == [e];
    assert GatherAll(g, []) == NOTHING;
    assert GatherAll(g, [e]) == NOTHING.(contract := Some(e.statement), refs := [(e.statement, Some(e.registeredAt))]);
  }
}

/** T's reconciliation: the equations between statements, gathering of evidence, and the verdict. */
module Reconcile {
  import opened Bytes
  import opened Options
  import opened Signatures
  import opened Statements
  import opened Log

  const IDENTITY := "identity"
  const PUBLIC_FORMATTER_V1 := "public-formatter-v1"

  predicate Recomputable(t: string) { t == IDENTITY || t == PUBLIC_FORMATTER_V1 }

  /** The salted commitment `H(salt || content hash)`. */
  function Commit(H: Hash, salt: Digest, contentHash: Digest): Digest { H(salt + contentHash) }

  datatype PrivateEvidence = PrivateEvidence(salt: Digest, requestHash: Digest, responseHash: Option<Digest>,
                                             expected: map<string, Digest>)

  /** The four statements of one request, and what T alone knows. */
  datatype Evidence = Evidence(c: Option<Contract>, r: Option<Relay>, m: Option<Receipt>, o: Option<Observation>,
                               p: Option<PrivateEvidence>, refs: map<string, Digest>)

  function Same(equal: bool): Outcome { if equal then Pass else Fail }

  // ---- the equations ---------------------------------------------------------------------------------

  /** The commitments that approved transforms may lead to; U's own value for a transform wins. */
  function Approved(ev: Evidence, c: Contract): map<string, Digest> {
    (if IDENTITY in c.allowedRequestTransforms then map[IDENTITY := c.reqCommit] else map[])
    + (if ev.p.None? then map[]
       else map t | t in ev.p.value.expected && t in c.allowedRequestTransforms :: ev.p.value.expected[t])
  }

  function EvalRequestTransform(ev: Evidence): Outcome {
    if ev.c.None? then NotEvaluable
    else if !(ev.m.Some? && ev.m.value.requestCommit.Some?) && ev.r.None? then NotEvaluable
    else
      var c := ev.c.value;
      var actual := if ev.m.Some? && ev.m.value.requestCommit.Some? then ev.m.value.requestCommit.value
                    else ev.r.value.outCommit;
      var allowed, approved := c.allowedRequestTransforms, Approved(ev, c);
      if ev.r.Some? && ev.r.value.requestTransformId !in allowed then Fail
      else if actual in approved.Values then Pass
      else if exists t | t in allowed :: !Recomputable(t) then NotEvaluable
      else if ev.p.None? && exists t | t in allowed :: t != IDENTITY then NotEvaluable
      else Fail
  }

  datatype RouteKind = Requested | Unapproved | Forbidden | DeclarationUnknown | DeclaredFallback
                       | UndeclaredFallback | NoRoute

  function Route(ev: Evidence): RouteKind {
    if ev.c.None? || (ev.m.None? && ev.r.None?) then NoRoute
    else
      var c := ev.c.value;
      var actual := if ev.m.Some? then ev.m.value.modelId else Some(ev.r.value.upstreamModel);
      if actual == Some(c.requestedModel) then Requested
      else if actual.None? || actual.value !in c.allowedModels then Unapproved
      else if c.fallbackPolicy == "none" then Forbidden
      else if ev.r.None? then DeclarationUnknown
      else if ev.r.value.policyDecision == "fallback" then DeclaredFallback
      else UndeclaredFallback
  }

  function EvalRoute(ev: Evidence): Outcome {
    match Route(ev)
    case Requested => Pass
    case DeclaredFallback => Pass
    case NoRoute => NotEvaluable
    case DeclarationUnknown => NotEvaluable
    case _ => Fail
  }

  function EvalEndToEndResponse(ev: Evidence): Outcome {
    if ev.m.None? || ev.m.value.responseCommit.None? then NotEvaluable
    else if ev.o.None? then NotEvaluable
    else
      var allowed := if ev.c.Some? then ev.c.value.allowedResponseTransforms else [IDENTITY];
      if ev.r.Some? && ev.r.value.responseTransformId !in allowed then Fail
      else if allowed != [IDENTITY] then NotEvaluable
      else Same(ev.m.value.responseCommit.value == ev.o.value.respCommit)
  }

  function AttemptIds(ev: Evidence): seq<string> {
    (if ev.c.Some? then [ev.c.value.attemptId] else []) + (if ev.r.Some? then [ev.r.value.attemptId] else [])
    + (if ev.m.Some? then [ev.m.value.attemptId] else []) + (if ev.o.Some? then [ev.o.value.attemptId] else [])
  }

  function Evaluate(H: Hash, ev: Evidence, e: Equation): Outcome {
    match e
    case E1 =>
      if ev.c.None? || ev.p.None? then NotEvaluable
      else Same(ev.c.value.reqCommit == Commit(H, ev.p.value.salt, ev.p.value.requestHash))
    case E2 =>
      if ev.c.None? || ev.r.None? then NotEvaluable else Same(ev.r.value.inCommit == ev.c.value.reqCommit)
    case E3 =>
      if ev.r.None? || ev.m.None? || ev.m.value.requestCommit.None? then NotEvaluable
      else Same(ev.r.value.outCommit == ev.m.value.requestCommit.value)
    case E4 => EvalRequestTransform(ev)
    case E5 =>
      if ev.c.None? || (ev.m.None? && ev.r.None?) then NotEvaluable
      else Same((ev.m.Some? ==> ev.m.value.eatNonce == Some(ev.c.value.nonce))
                && (ev.r.Some? ==> ev.r.value.nonceForwarded == Some(ev.c.value.nonce)))
    case E6 =>
      if ev.r.None? || ev.m.None? || ev.m.value.responseCommit.None? || ev.r.value.respInCommit.None? then NotEvaluable
      else Same(ev.m.value.responseCommit == ev.r.value.respInCommit)
    case E7 =>
      if ev.r.None? || ev.o.None? || ev.r.value.respOutCommit.None? then NotEvaluable
      else Same(ev.r.value.respOutCommit.value == ev.o.value.respCommit)
    case E8 => EvalRoute(ev)
    case E9 =>
      if ev.m.None? || ev.m.value.modelId.None? || ev.m.value.modelId.value !in ev.refs then NotEvaluable
      else Same(ev.m.value.modelHash == Some(ev.refs[ev.m.value.modelId.value]))
    case E10 => EvalEndToEndResponse(ev)
    case E11 =>
      var ids := AttemptIds(ev);
      if |ids| < 2 then NotEvaluable else Same(forall i | 0 <= i < |ids| :: ids[i] == ids[0])
    case E12 =>
      if ev.c.None? || ev.o.None? then NotEvaluable else Same(ev.o.value.receivedAt <= ev.c.value.expiresAt)
  }

  predicate RequiredForPass(e: Equation) {
    e == E1 || e == E4 || e == E5 || e == E8 || e == E9 || e == E10 || e == E11 || e == E12
  }

  /** The discrepancy a failed equation is recorded as; each is a violation or a contradiction. */
  function CodeOf(ev: Evidence, e: Equation): string {
    match e
    case E1 => "D-USER-SELF"
    case E2 => "D-REQ-CONTRADICT"
    case E3 => "D-REQ-CONTRADICT"
    case E4 => "D-REQ-UNAPPROVED"
    case E5 => "D-NONCE"
    case E6 => "D-RESP-CONTRADICT"
    case E7 => "D-RESP-CONTRADICT"
    case E8 => if Route(ev) == UndeclaredFallback then "D-ROUTE-UNDECLARED" else "D-ROUTE-UNAPPROVED"
    case E9 => "D-MODEL-ART"
    case E10 => "D-RESP-UNAPPROVED"
    case E11 => "D-ATTEMPT-MISMATCH"
    case E12 => "D-EXPIRED"
  }

  const ALL_EQUATIONS := [E1, E2, E3, E4, E5, E6, E7, E8, E9, E10, E11, E12]

  function FailureCodes(H: Hash, ev: Evidence, es: seq<Equation>): multiset<string> {
    if es == [] then multiset{}
    else (if Evaluate(H, ev, es[0]) == Fail then multiset{CodeOf(ev, es[0])} else multiset{})
         + FailureCodes(H, ev, es[1..])
  }

  // ---- gathering ---------------------------------------------------------------------------------------

  /** Where a receipt came from. */
  datatype ReceiptSource = Registered | PresentedToUser | NoReceipt

  datatype Gathered = Gathered(contract: Option<Statement>, relay: Option<Statement>, receipt: Option<Statement>,
                               observation: Option<Statement>, manifest: Option<Statement>,
                               refs: seq<(Statement, Option<int>)>, invalid: seq<Statement>,
                               unauthorized: seq<Statement>, source: ReceiptSource)

  datatype Engine = Engine(E: Encoding, S: Scheme<Message>, trusted: map<string, (string, Bytes)>,
                           refs: map<string, Digest>, policyHash: Digest, keysVersion: string,
                           issuerContentTypes: map<string, seq<string>>, checkerVersion: string, lateThreshold: int)

  const NOTHING := Gathered(None, None, None, None, None, [], [], [], Registered)

  predicate ValidSignature(g: Engine, s: Statement) {
    s.kid in g.trusted && g.trusted[s.kid].0 == s.iss && g.S.verify(g.trusted[s.kid].1, ToBeSigned(s), s.signature)
  }

  predicate Authorized(g: Engine, s: Statement) {
    s.iss in g.issuerContentTypes && s.contentType in g.issuerContentTypes[s.iss]
  }

  /** One log entry; a later statement of a type replaces an earlier one. */
  function GatherOne(g: Engine, ev: Gathered, e: LogEntry): Gathered {
    var s, ref := e.statement, (e.statement, Some(e.registeredAt));
    if !ValidSignature(g, s) then ev.(invalid := ev.invalid + [s])
    else if !Authorized(g, s) then ev.(unauthorized := ev.unauthorized + [s])
    else if s.contentType == CT_CONTRACT then ev.(contract := Some(s), refs := ev.refs + [ref])
    else if s.contentType == CT_RELAY then ev.(relay := Some(s), refs := ev.refs + [ref])
    else if s.contentType == CT_RECEIPT then ev.(receipt := Some(s), refs := ev.refs + [ref])
    else if s.contentType == CT_OBSERVATION then ev.(observation := Some(s), refs := ev.refs + [ref])
    else if s.contentType == CT_MANIFEST then ev.(manifest := Some(s), refs := ev.refs + [ref])
    else ev
  }

  function GatherAll(g: Engine, entries: seq<LogEntry>): Gathered {
    if entries == [] then NOTHING
    else GatherOne(g, GatherAll(g, entries[..|entries| - 1]), entries[|entries| - 1])
  }

  function ObservationOf(ev: Gathered): Option<Observation> {
    if ev.observation.Some? && ev.observation.value.payload.ObservationPayload?
    then Some(ev.observation.value.payload.o)
    else None
  }

  /** Without a registered receipt, the copy that was shown to U stands in, if it is genuine. */
  function UsePresented(g: Engine, ev: Gathered): Gathered {
    var o := ObservationOf(ev);
    if ev.receipt.Some? then ev
    else if o.Some? && o.value.presentedReceipt.Some?
            && o.value.presentedReceipt.value.contentType == CT_RECEIPT
            && ValidSignature(g, o.value.presentedReceipt.value) && Authorized(g, o.value.presentedReceipt.value) then
      ev.(receipt := o.value.presentedReceipt, source := PresentedToUser,
          refs := ev.refs + [(o.value.presentedReceipt.value, None)])
    else ev.(source := NoReceipt)
  }

  // ---- what gathering computes ---------------------------------------------------------------------------

  /** A statement of this type that the engine takes as evidence. */
  predicate Counted(g: Engine, s: Statement, contentType: string) {
    ValidSignature(g, s) && Authorized(g, s) && s.contentType == contentType
  }

  /** `found` is the last such statement in the log. */
  ghost predicate IsLast(g: Engine, entries: seq<LogEntry>, contentType: string, found: Option<Statement>) {
    match found
    case None => forall i | 0 <= i < |entries| :: !Counted(g, entries[i].statement, contentType)
    case Some(s) =>
      exists i :: 0 <= i < |entries| && entries[i].statement == s && Counted(g, s, contentType)
                  && forall j | i < j < |entries| :: !Counted(g, entries[j].statement, contentType)
  }

  /** The statements of the log that satisfy `keep`, in order. */
  function Select(entries: seq<LogEntry>, keep: Statement -> bool): seq<Statement> {
    if entries == [] then []
    else
      var n := |entries| - 1;
      Select(entries[..n], keep) + if keep(entries[n].statement) then [entries[n].statement] else []
  }

  /** The statements taken as evidence, with their registration times, in order. */
  function Taken(g: Engine, entries: seq<LogEntry>): seq<(Statement, Option<int>)> {
    if entries == [] then []
    else
      var n := |entries| - 1;
      var s := entries[n].statement;
      Taken(g, entries[..n])
      + if ValidSignature(g, s) && Authorized(g, s)
           && s.contentType in {CT_CONTRACT, CT_RELAY, CT_RECEIPT, CT_OBSERVATION, CT_MANIFEST}
        then [(s, Some(entries[n].registeredAt))] else []
  }

  lemma {:induction false} RefsAreTaken(g: Engine, entries: seq<LogEntry>)
    ensures GatherAll(g, entries).refs == Taken(g, entries)
  {
    hide ValidSignature, Authorized;
    if entries != [] {
      RefsAreTaken(g, entries[..|entries| - 1]);
    }
  }

  lemma PresentedRefs(g: Engine, all: Gathered)
    requires all.source == Registered
    ensures var ev := UsePresented(g, all);
            ev.refs == all.refs + if ev.source == PresentedToUser && ev.receipt.Some? then [(ev.receipt.value, None)]
                                  else []
  {
  }

  ghost predicate ByType(g: Engine, entries: seq<LogEntry>, ev: Gathered) {
    IsLast(g, entries, CT_CONTRACT, ev.contract) && IsLast(g, entries, CT_RELAY, ev.relay)
    && IsLast(g, entries, CT_OBSERVATION, ev.observation) && IsLast(g, entries, CT_MANIFEST, ev.manifest)
    && ev.invalid == Select(entries, s => !ValidSignature(g, s))
    && ev.unauthorized == Select(entries, s => ValidSignature(g, s) && !Authorized(g, s))
  }

  /** The copy of a genuine receipt that was shown to U. */
  function PresentedReceipt(g: Engine, ev: Gathered): Option<Statement> {
    var o := ObservationOf(ev);
    if o.Some? && o.value.presentedReceipt.Some? && Counted(g, o.value.presentedReceipt.value, CT_RECEIPT)
    then o.value.presentedReceipt else None
  }

  lemma LastStep(g: Engine, entries: seq<LogEntry>, e: LogEntry, contentType: string, found: Option<Statement>)
    requires IsLast(g, entries, contentType, found)
    ensures IsLast(g, entries + [e], contentType,
                   if Counted(g, e.statement, contentType) then Some(e.statement) else found)
  {
    hide Counted;
    var all := entries + [e];
    if Counted(g, e.statement, contentType) {
      assert all[|entries|].statement == e.statement;
    } else if found.Some? {
      var i :| 0 <= i < |entries| && entries[i].statement == found.value && Counted(g, found.value, contentType)
               && forall j | i < j < |entries| :: !Counted(g, entries[j].statement, contentType);
      assert all[i].statement == found.value;
    }
  }

  function FieldOf(ev: Gathered, contentType: string): Option<Statement> {
    if contentType == CT_CONTRACT then ev.contract
    else if contentType == CT_RELAY then ev.relay
    else if contentType == CT_RECEIPT then ev.receipt
    else if contentType == CT_OBSERVATION then ev.observation
    else ev.manifest
  }

  lemma FieldStep(g: Engine, ev: Gathered, e: LogEntry, contentType: string)
    requires contentType in {CT_CONTRACT, CT_RELAY, CT_RECEIPT, CT_OBSERVATION, CT_MANIFEST}
    ensures FieldOf(GatherOne(g, ev, e), contentType) ==
            if Counted(g, e.statement, contentType) then Some(e.statement) else FieldOf(ev, contentType)
    ensures GatherOne(g, ev, e).source == ev.source
  {
    hide ValidSignature, Authorized;
  }

  /** The fold keeps the last genuine statement of each type. */
  lemma {:induction false} FieldIsLast(g: Engine, entries: seq<LogEntry>, contentType: string)
    requires contentType in {CT_CONTRACT, CT_RELAY, CT_RECEIPT, CT_OBSERVATION, CT_MANIFEST}
    ensures IsLast(g, entries, contentType, FieldOf(GatherAll(g, entries), contentType))
    ensures GatherAll(g, entries).source == Registered
  {
    hide IsLast, FieldOf, GatherOne, Counted;
    if entries == [] {
      NothingThere(g, contentType);
    } else {
      var n := |entries| - 1;
      FieldIsLast(g, entries[..n], contentType);
      FieldStep(g, GatherAll(g, entries[..n]), entries[n], contentType);
      assert entries == entries[..n] + [entries[n]];
      LastStep(g, entries[..n], entries[n], contentType, FieldOf(GatherAll(g, entries[..n]), contentType));
    }
  }

  /** And it sets the others aside, in order. */
  lemma {:induction false} OthersSetAside(g: Engine, entries: seq<LogEntry>)
    ensures GatherAll(g, entries).invalid == Select(entries, s => !ValidSignature(g, s))
    ensures GatherAll(g, entries).unauthorized == Select(entries, s => ValidSignature(g, s) && !Authorized(g, s))
  {
    hide ValidSignature, Authorized;
    if entries != [] {
      OthersSetAside(g, entries[..|entries| - 1]);
    }
  }

  lemma GatherAllMeans(g: Engine, entries: seq<LogEntry>)
    ensures var ev := GatherAll(g, entries);
            ByType(g, entries, ev) && IsLast(g, entries, CT_RECEIPT, ev.receipt) && ev.source == Registered
  {
    hide ValidSignature, Authorized, IsLast, GatherAll, Select;
    OthersSetAside(g, entries);
    FieldIsLast(g, entries, CT_CONTRACT);
    FieldIsLast(g, entries, CT_RELAY);
    FieldIsLast(g, entries, CT_RECEIPT);
    FieldIsLast(g, entries, CT_OBSERVATION);
    FieldIsLast(g, entries, CT_MANIFEST);
  }

  lemma NothingThere(g: Engine, contentType: string)
    ensures IsLast(g, [], contentType, FieldOf(NOTHING, contentType))
  {
  }

  lemma PresentedMeans(g: Engine, entries: seq<LogEntry>, all: Gathered)
    requires ByType(g, entries, all) && IsLast(g, entries, CT_RECEIPT, all.receipt) && all.source == Registered
    ensures var ev := UsePresented(g, all);
            ByType(g, entries, ev)
            && (ev.source == Registered ==> ev.receipt.Some? && IsLast(g, entries, CT_RECEIPT, ev.receipt))
            && (ev.source != Registered ==>
                  IsLast(g, entries, CT_RECEIPT, None) && ev.receipt == PresentedReceipt(g, ev))
            && (ev.source == NoReceipt <==> ev.receipt == None)
  {
    hide IsLast, ValidSignature, Authorized;
  }

  /** Evidence by type: the last genuine statement, or for a receipt the copy shown to U if none is registered. */
  method Gather(g: Engine, entries: seq<LogEntry>) returns (ev: Gathered)
    ensures ByType(g, entries, ev)
    ensures ev.source == Registered ==> ev.receipt.Some? && IsLast(g, entries, CT_RECEIPT, ev.receipt)
    ensures ev.source != Registered ==> IsLast(g, entries, CT_RECEIPT, None) && ev.receipt == PresentedReceipt(g, ev)
    ensures ev.source == NoReceipt <==> ev.receipt == None
    ensures ev.refs == Taken(g, entries) + if ev.source == PresentedToUser then [(ev.receipt.value, None)] else []
    ensures ev == UsePresented(g, GatherAll(g, entries))
  {
    ev := NOTHING;
    for i := 0 to |entries|
      invariant ev == GatherAll(g, entries[..i])
    {
      assert entries[..i + 1][..i] == entries[..i];
      ev := GatherOne(g, ev, entries[i]);
    }
    assert entries[..|entries|] == entries;
    hide *;
    GatherAllMeans(g, entries);
    PresentedMeans(g, entries, ev);
    RefsAreTaken(g, entries);
    PresentedRefs(g, ev);
    ev := UsePresented(g, ev);
  }

  function EvidenceOf(g: Engine, ev: Gathered, p: Option<PrivateEvidence>): Evidence {
    Evidence(
      if ev.contract.Some? && ev.contract.value.payload.ContractPayload? then Some(ev.contract.value.payload.c)
      else None,
      if ev.relay.Some? && ev.relay.value.payload.RelayPayload? then Some(ev.relay.value.payload.r) else None,
      if ev.receipt.Some? && ev.receipt.value.payload.ReceiptPayload? then Some(ev.receipt.value.payload.m) else None,
      ObservationOf(ev), p, g.refs)
  }

  // ---- the verdict ------------------------------------------------------------------------------------

  /** The receipt R showed to U is not the one that M registered. */
  predicate PresentedDiffers(g: Engine, ev: Gathered) {
    var o := ObservationOf(ev);
    o.Some? && o.value.presentedReceipt.Some? && ev.source == Registered && ev.receipt.Some?
    && StatementHash(g.E, o.value.presentedReceipt.value) != StatementHash(g.E, ev.receipt.value)
  }

  /** Evidence the agreed parties have not registered. */
  function MissingEvidence(ev: Gathered, expected: seq<string>): set<string> {
    (if "U" in expected && ev.contract.None? then {"U.contract"} else {})
    + (if "U" in expected && ev.observation.None? then {"U.observation"} else {})
    + (if "R" in expected && ev.relay.None? then {"R.relay"} else {})
    + (if "M" in expected && ev.receipt.None? then {"M.receipt"} else {})
  }

  function Completeness(x: Evidence, missing: set<string>): string {
    if missing == {} then "complete"
    else if x.r.Some? && x.r.value.policyDecision == "refused" && missing <= {"M.receipt", "U.observation"}
    then "not_observable"
    else if x.m.Some? && x.m.value.decision == "refused" && missing <= {"U.observation"} then "not_observable"
    else "gap"
  }

  predicate Late(g: Engine, ev: Gathered, x: Evidence) {
    x.c.Some? && exists ref | ref in ev.refs ::
      ref.1.Some? && ref.1.value - x.c.value.clientTime > g.lateThreshold
  }

  function Status(g: Engine, ev: Gathered, x: Evidence): VerificationStatus {
    if ev.invalid != [] || ev.unauthorized != [] || PresentedDiffers(g, ev) then Failed
    else if exists e :: Evaluate(g.E.H, x, e) == Fail then Failed
    else if forall e | RequiredForPass(e) :: Evaluate(g.E.H, x, e) == Pass then Passed
    else InsufficientEvidence
  }

  function Repeat(code: string, n: nat): (r: multiset<string>) { multiset{}[code := n] }

  /** The verdict over `entries` and the private evidence `p`. */
  function Judge(g: Engine, entries: seq<LogEntry>, p: Option<PrivateEvidence>, expected: seq<string>): Verdict {
    var ev := UsePresented(g, GatherAll(g, entries));
    var x := EvidenceOf(g, ev, p);
    var completeness := Completeness(x, MissingEvidence(ev, expected));
    Verdict(Status(g, ev, x), completeness,
            FailureCodes(g.E.H, x, ALL_EQUATIONS)
            + Repeat("D-SIG-INVALID", |ev.invalid|) + Repeat("D-ISSUER-UNAUTHORIZED", |ev.unauthorized|)
            + Repeat("D-RECEIPT-PRESENTED-DIFFERS", if PresentedDiffers(g, ev) then 1 else 0)
            + Repeat("D-GAP", if completeness == "gap" then 1 else 0)
            + Repeat("D-LATE", if Late(g, ev, x) then 1 else 0),
            map e: Equation | e in ALL_EQUATIONS :: Evaluate(g.E.H, x, e),
            g.policyHash, g.checkerVersion, g.keysVersion,
            multiset(seq(|ev.refs|, i requires 0 <= i < |ev.refs| => StatementHash(g.E, ev.refs[i].0))),
            None, None, None)
  }
}

/**
  Two runs of T on which its verdict and U's gate differ, for every signature scheme and every hash
  function that tells the registered statements apart.
 */
module Cases {
  import opened Bytes
  import opened Options
  import opened Signatures
  import opened Statements
  import opened Log
  import opened Reconcile
  import opened Gate
  import opened Service
  import opened Agreement
  import opened Replay
  import opened Runs

  const SUB := "urn:itx:req:1"

  datatype Cast = Cast(E: Encoding, S: Scheme<Message>, u: KeyPair, r: KeyPair, m: KeyPair, t: KeyPair,
                       privateBytes: PrivateEvidence -> Bytes)

  ghost predicate Sound(w: Cast) {
    Genuine(w.S, w.u) && Genuine(w.S, w.r) && Genuine(w.S, w.m) && Genuine(w.S, w.t)
    && w.u.kid != w.r.kid && w.u.kid != w.m.kid && w.u.kid != w.t.kid
    && w.r.kid != w.m.kid && w.r.kid != w.t.kid && w.m.kid != w.t.kid
  }

  function KeyOf(w: Cast, role: string): KeyPair {
    if role == "U" then w.u else if role == "R" then w.r else w.m
  }

  function Zeros(): Digest { seq(32, _ => 0) }

  /** `validate_payload`, for the fields that are modelled. */
  predicate ValidPayload(contentType: string, payload: Payload) {
    match payload
    case ContractPayload(c) =>
      contentType == CT_CONTRACT && |c.nonce| == DIGEST_SIZE && c.fallbackPolicy in {"none", "declared_only"}
      && c.requestedModel in c.allowedModels
    case RelayPayload(r) =>
      contentType == CT_RELAY && r.policyDecision in {"forwarded", "refused", "fallback", "error"}
      && (r.nonceForwarded.Some? ==> |r.nonceForwarded.value| == DIGEST_SIZE)
    case ReceiptPayload(m) =>
      contentType == CT_RECEIPT && m.decision in {"served", "refused"}
      && (m.eatNonce.Some? ==> |m.eatNonce.value| == DIGEST_SIZE)
    case ObservationPayload(_) => contentType == CT_OBSERVATION
    case VerdictPayload(_) => contentType == CT_VERDICT
    case OtherPayload(_) => contentType in {CT_POLICY, CT_MANIFEST}
  }

  predicate AnySubject(sub: string) { true }

  function RulesOf(w: Cast): Policy {
    Policy({CT_CONTRACT, CT_RELAY, CT_RECEIPT, CT_OBSERVATION, CT_MANIFEST, CT_VERDICT, CT_POLICY}, AnySubject,
           map[w.u.kid := ("U", w.u.publicKey), w.r.kid := ("R", w.r.publicKey), w.m.kid := ("M", w.m.publicKey)],
           map["U" := TYPES["U"], "R" := TYPES["R"], "M" := TYPES["M"]], ValidPayload)
  }

  function IdentityOf(w: Cast, role: string): Identity { Identity(role, KeyOf(w, role).kid, KeyOf(w, role).publicKey) }

  function ConfigOf(w: Cast): Config {
    Config(w.E, w.S, w.t, "log", RulesOf(w), "T", "1", [], 0,
           map["U" := IdentityOf(w, "U"), "R" := IdentityOf(w, "R"), "M" := IdentityOf(w, "M")], 100000,
           map["m" := Zeros()], w.privateBytes)
  }

  // ---- registering a list of statements -------------------------------------------------------------------

  datatype Submitted = Submitted(actor: string, s: Statement)

  function Submissions(list: seq<Submitted>): seq<Step> {
    seq(|list|, i requires 0 <= i < |list| => Request(Submission(list[i].actor, list[i].s, true, 0, true)))
  }

  ghost predicate Differ(E: Encoding, a: Statement, b: Statement) {
    StatementHash(E, a) != StatementHash(E, b) && (a.sub != b.sub || a.contentType != b.contentType)
  }

  /** Each may be submitted, and nothing stands in the way of another. */
  ghost predicate Registrable(c: Config, list: seq<Submitted>) {
    |list| < c.capacity
    && (forall i | 0 <= i < |list| ::
          MaySubmit(c, list[i].actor, list[i].s, true) && CheckPolicy(c.S, PolicyOf(c), list[i].s) == []
          && Differ(c.E, PolicyStatementOf(c), list[i].s))
    && forall i, j | 0 <= i < j < |list| :: Differ(c.E, list[i].s, list[j].s)
  }

  ghost predicate Holds(c: Config, st: State, list: seq<Submitted>) {
    |st.rows| == |list| + 1 && st.privates == map[] && st.rows[0] == PolicyRow(c)
    && forall i | 0 <= i < |list| :: st.rows[i + 1].statement == list[i].s
  }

  lemma {:induction false} AllRegistered(c: Config, list: seq<Submitted>)
    requires Registrable(c, list)
    ensures Holds(c, AfterSteps(c, Submissions(list)), list)
  {
    hide *;
    if list == [] {
      NoneRegistered(c);
    } else {
      var n := |list| - 1;
      FewerRegistrable(c, list, n);
      AllRegistered(c, list[..n]);
      RunJournalOk(c, Submissions(list[..n]));
      OneRegistered(c, AfterSteps(c, Submissions(list[..n])), list, n);
      LastSubmission(c, list);
      assert list[..n + 1] == list;
    }
  }

  lemma NoneRegistered(c: Config)
    ensures Holds(c, AfterSteps(c, Submissions([])), [])
  {
  }

  lemma FewerRegistrable(c: Config, list: seq<Submitted>, n: nat)
    requires Registrable(c, list) && n <= |list|
    ensures Registrable(c, list[..n])
  {
    hide MaySubmit, PolicyStatementOf, CheckPolicy, Differ;
  }

  lemma LastSubmission(c: Config, list: seq<Submitted>)
    requires list != []
    ensures var n := |list| - 1;
            AfterSteps(c, Submissions(list)) ==
            Served(c, AfterSteps(c, Submissions(list[..n])), Submission(list[n].actor, list[n].s, true, 0, true))
  {
    hide Served;
    assert Submissions(list)[..|list| - 1] == Submissions(list[..|list| - 1]);
  }

  lemma OneRegistered(c: Config, st: State, list: seq<Submitted>, n: nat)
    requires Registrable(c, list) && n < |list| && Holds(c, st, list[..n]) && JournalOk(c, st.rows)
    ensures Holds(c, Served(c, st, Submission(list[n].actor, list[n].s, true, 0, true)), list[..n + 1])
  {
    hide MaySubmit, PolicyStatementOf, StatementHash, CheckPolicy, IssuedReceipt;
    var s := list[n].s;
    forall i | 0 <= i < |st.rows| ensures Differ(c.E, st.rows[i].statement, s) {
      if i > 0 {
        assert st.rows[i].statement == list[..n][i - 1].s == list[i - 1].s;
      }
    }
    forall i | 0 <= i < |st.rows| ensures st.rows[i].hash == StatementHash(c.E, st.rows[i].statement) {
      assert RowOk(c, st.rows, i);
    }
    assert Admits(c, st.rows, s);
  }

  // ---- the two runs ---------------------------------------------------------------------------------------

  /** One request on which everything agrees, apart from what M's receipt leaves open. */
  datatype Case = Case(steps: seq<Step>, g: Engine, gate: UserGate, ev: Gathered, x: Evidence, d: Delivery)

  function SignedBy(w: Cast, role: string, contentType: string, payload: Payload): Statement {
    IssueStatement(w.S, KeyOf(w, role), role, SUB, contentType, payload, 0)
  }

  function ContractOf(w: Cast): Contract {
    Contract("a", Zeros(), Commit(w.E.H, Zeros(), Zeros()), "m", ["m"], "none", [IDENTITY], [IDENTITY], 0, 0)
  }

  function ReceiptIn(w: Cast, requestCommits: bool, namesModel: bool): Receipt {
    Receipt("a", if requestCommits then Some(ContractOf(w).reqCommit) else None, Some(Zeros()),
            if namesModel then Some("m") else None, Some(Zeros()), Some(Zeros()), "served")
  }

  function RelayIn(w: Cast): Relay {
    var commit := ContractOf(w).reqCommit;
    Relay("a", commit, commit, IDENTITY, "m", Some(Zeros()), Some(Zeros()), IDENTITY, "forwarded", Some(Zeros()))
  }

  function PrivateIn(): PrivateEvidence { PrivateEvidence(Zeros(), Zeros(), None, map[]) }

  function SignedContract(w: Cast): Statement { SignedBy(w, "U", CT_CONTRACT, ContractPayload(ContractOf(w))) }

  function SignedRelay(w: Cast): Statement { SignedBy(w, "R", CT_RELAY, RelayPayload(RelayIn(w))) }

  function SignedReceipt(w: Cast, m: Receipt): Statement { SignedBy(w, "M", CT_RECEIPT, ReceiptPayload(m)) }

  function ObservationIn(w: Cast, m: Receipt): Observation {
    Observation("a", Zeros(), 0, Some(SignedReceipt(w, m)))
  }

  function SignedObservation(w: Cast, m: Receipt): Statement {
    SignedBy(w, "U", CT_OBSERVATION, ObservationPayload(ObservationIn(w, m)))
  }

  /** What U, R (unless it keeps silent) and M submit. */
  function ListOf(w: Cast, m: Receipt, relayed: bool): seq<Submitted> {
    [Submitted("U", SignedContract(w))] + (if relayed then [Submitted("R", SignedRelay(w))] else [])
    + [Submitted("M", SignedReceipt(w, m)), Submitted("U", SignedObservation(w, m))]
  }

  function StepsOf(w: Cast, m: Receipt, relayed: bool): seq<Step> {
    Submissions(ListOf(w, m, relayed)) + [Request(PrivateSubmission("U", SUB, PrivateIn()))]
  }

  /** The hash inputs that T tells statements apart by. */
  ghost function HashedIn(w: Cast, m: Receipt): set<Bytes> {
    {w.E.signedBytes(PolicyStatementOf(ConfigOf(w))), w.E.signedBytes(SignedContract(w)),
     w.E.signedBytes(SignedRelay(w)), w.E.signedBytes(SignedReceipt(w, m)),
     w.E.signedBytes(SignedObservation(w, m))}
  }

  ghost predicate Usable(w: Cast, m: Receipt) {
    Sound(w) && Lossless(w.E) && CollisionFree(w.E.H, HashedIn(w, m))
  }

  function CaseOf(w: Cast, m: Receipt, relayed: bool): Case {
    var c := ConfigOf(w);
    var ev := GatheredFor(EngineOf(c), LogOf(c, AfterSteps(c, StepsOf(w, m, relayed)).rows), SUB);
    Case(StepsOf(w, m, relayed), EngineOf(c),
         UserGate(w.S, Protect, map[w.m.kid := w.m.publicKey], c.modelHashes, false), ev,
         EvidenceOf(EngineOf(c), ev, Some(PrivateIn())),
         DeliveryIn(w, m, relayed))
  }

  // ---- what T gathers in them ------------------------------------------------------------------------------

  lemma SignedIsGenuine(w: Cast, role: string, contentType: string, payload: Payload)
    requires Sound(w) && role in {"U", "R", "M"} && contentType in TYPES[role] && ValidPayload(contentType, payload)
    ensures var s, c := SignedBy(w, role, contentType, payload), ConfigOf(w);
            MaySubmit(c, role, s, true) && CheckPolicy(c.S, PolicyOf(c), s) == []
            && ValidSignature(EngineOf(c), s) && Authorized(EngineOf(c), s)
  {
    hide ValidPayload, PolicyStatementOf, StatementHash;
    var s := SignedBy(w, role, contentType, payload);
    assert ToBeSigned(s) == StatementMessage(s.(signature := []));
    assert w.S.verify(KeyOf(w, role).publicKey, ToBeSigned(s), s.signature);
  }

  lemma ListGenuine(w: Cast, m: Receipt)
    requires Sound(w) && ValidPayload(CT_RECEIPT, ReceiptPayload(m))
    ensures var c := ConfigOf(w);
            forall a | a in ListOf(w, m, true) ::
              MaySubmit(c, a.actor, a.s, true) && CheckPolicy(c.S, PolicyOf(c), a.s) == []
              && ValidSignature(EngineOf(c), a.s) && Authorized(EngineOf(c), a.s)
  {
    hide MaySubmit, CheckPolicy, ValidSignature, Authorized, EngineOf, PolicyOf, ConfigOf, Commit, Sound, SignedBy;
    SignedIsGenuine(w, "U", CT_CONTRACT, ContractPayload(ContractOf(w)));
    SignedIsGenuine(w, "R", CT_RELAY, RelayPayload(RelayIn(w)));
    SignedIsGenuine(w, "M", CT_RECEIPT, ReceiptPayload(m));
    SignedIsGenuine(w, "U", CT_OBSERVATION, ObservationPayload(ObservationIn(w, m)));
  }

  /** Statements of different types are told apart. */
  lemma TypesDiffer(w: Cast, m: Receipt, a: Statement, b: Statement)
    requires Usable(w, m) && a.contentType != b.contentType
    requires w.E.signedBytes(a) in HashedIn(w, m) && w.E.signedBytes(b) in HashedIn(w, m)
    ensures Differ(w.E, a, b)
  {
    hide HashedIn;
    assert a.(signature := []) != b.(signature := []);
  }

  lemma ListRegistrable(w: Cast, m: Receipt, relayed: bool)
    requires Usable(w, m) && ValidPayload(CT_RECEIPT, ReceiptPayload(m))
    ensures Registrable(ConfigOf(w), ListOf(w, m, relayed))
  {
    hide MaySubmit, CheckPolicy, ValidSignature, Authorized, EngineOf, PolicyOf, Commit, Sound, Differ, HashedIn;
    ListGenuine(w, m);
    var c, list := ConfigOf(w), ListOf(w, m, relayed);
    var policy := PolicyStatementOf(c);
    TypesApart(w, m, relayed);
    forall i | 0 <= i < |list|
      ensures list[i] in ListOf(w, m, true) && Differ(c.E, policy, list[i].s)
    {
      InList(w, m, relayed, i);
      TypesDiffer(w, m, policy, list[i].s);
    }
    forall i, j | 0 <= i < j < |list| ensures Differ(c.E, list[i].s, list[j].s) {
      InList(w, m, relayed, i);
      InList(w, m, relayed, j);
      TypesDiffer(w, m, list[i].s, list[j].s);
    }
  }

  function TypesIn(relayed: bool): seq<string> {
    if relayed then [CT_CONTRACT, CT_RELAY, CT_RECEIPT, CT_OBSERVATION] else [CT_CONTRACT, CT_RECEIPT, CT_OBSERVATION]
  }

  lemma InList(w: Cast, m: Receipt, relayed: bool, i: nat)
    requires i < |ListOf(w, m, relayed)|
    ensures var a := ListOf(w, m, relayed)[i];
            a in ListOf(w, m, true) && a.s.sub == SUB && i < |TypesIn(relayed)|
            && a.s.contentType == TypesIn(relayed)[i] && w.E.signedBytes(a.s) in HashedIn(w, m)
  {
    hide Commit, ContractOf;
  }

  lemma TypesApart(w: Cast, m: Receipt, relayed: bool)
    ensures forall i, j | 0 <= i < j < |TypesIn(relayed)| :: TypesIn(relayed)[i] != TypesIn(relayed)[j]
    ensures forall i | 0 <= i < |TypesIn(relayed)| :: TypesIn(relayed)[i] != CT_POLICY
    ensures PolicyStatementOf(ConfigOf(w)).contentType == CT_POLICY
    ensures w.E.signedBytes(PolicyStatementOf(ConfigOf(w))) in HashedIn(w, m)
  {
  }

  /** The log of the case after its last step. */
  lemma CaseState(w: Cast, m: Receipt, relayed: bool)
    requires Usable(w, m) && ValidPayload(CT_RECEIPT, ReceiptPayload(m))
    ensures var st := AfterSteps(ConfigOf(w), StepsOf(w, m, relayed));
            Holds(ConfigOf(w), State(st.rows, map[]), ListOf(w, m, relayed))
            && SUB in st.privates && st.privates[SUB] == PrivateIn()
  {
    hide Usable, ValidPayload, Registrable, Submissions, ConfigOf, SameRequest;
    var c, list := ConfigOf(w), ListOf(w, m, relayed);
    ListRegistrable(w, m, relayed);
    AllRegistered(c, list);
    var st := AfterSteps(c, Submissions(list));
    assert StepsOf(w, m, relayed)[..|StepsOf(w, m, relayed)| - 1] == Submissions(list);
    assert st.rows[0 + 1].statement == list[0].s;
    assert HasContract(st.rows, SUB);
  }

  lemma {:induction false} EvidenceIsRest(entries: seq<LogEntry>, sub: string)
    requires entries != [] && !IsEvidenceFor(entries[0], sub)
    requires forall i | 0 < i < |entries| :: IsEvidenceFor(entries[i], sub)
    ensures EvidenceFor(entries, sub) == entries[1..]
  {
    hide IsEvidenceFor;
    var n := |entries| - 1;
    if n == 0 {
      assert EvidenceFor(entries[..0], sub) == [];
    } else {
      EvidenceIsRest(entries[..n], sub);
      assert entries[1..] == entries[..n][1..] + [entries[n]];
    }
  }

  lemma FieldsGathered(g: Engine, es: seq<LogEntry>, relayed: bool)
    requires |es| == |TypesIn(relayed)|
    requires forall i | 0 <= i < |es| ::
               es[i].statement.contentType == TypesIn(relayed)[i]
               && ValidSignature(g, es[i].statement) && Authorized(g, es[i].statement)
    ensures var ev := GatherAll(g, es);
            ev == NOTHING.(contract := Some(es[0].statement), relay := if relayed then Some(es[1].statement) else None,
                           receipt := Some(es[|es| - 2].statement), observation := Some(es[|es| - 1].statement),
                           refs := ev.refs)
  {
    hide ValidSignature, Authorized;
    assert es[..1][..0] == [] && es[..2][..1] == es[..1] && es[..3][..2] == es[..2];
    assert GatherAll(g, []) == NOTHING;
    assert GatherAll(g, es[..1]) == GatherOne(g, NOTHING, es[0]);
    assert GatherAll(g, es[..2]) == GatherOne(g, GatherAll(g, es[..1]), es[1]);
    assert GatherAll(g, es[..3]) == GatherOne(g, GatherAll(g, es[..2]), es[2]);
    if relayed {
      assert es[..4] == es && es[..4][..3] == es[..3];
    } else {
      assert es[..3] == es;
    }
  }

  lemma ListShape(w: Cast, m: Receipt, relayed: bool)
    ensures var list := ListOf(w, m, relayed);
            var n := |list|;
            n == |TypesIn(relayed)| && list[0].s == SignedContract(w) && (relayed ==> list[1].s == SignedRelay(w))
            && list[n - 2].s == SignedReceipt(w, m) && list[n - 1].s == SignedObservation(w, m)
  {
    hide SignedContract, SignedRelay, SignedReceipt, SignedObservation;
  }

  lemma SubmittedIsEvidence(w: Cast, m: Receipt, relayed: bool, i: nat)
    requires Sound(w) && ValidPayload(CT_RECEIPT, ReceiptPayload(m)) && i < |ListOf(w, m, relayed)|
    ensures var s, g := ListOf(w, m, relayed)[i].s, EngineOf(ConfigOf(w));
            |ListOf(w, m, relayed)| == |TypesIn(relayed)| && s.sub == SUB && s.contentType == TypesIn(relayed)[i]
            && s.contentType != CT_VERDICT && ValidSignature(g, s) && Authorized(g, s)
  {
    hide EngineOf, ValidSignature, Authorized, HashedIn, ValidPayload, Sound, ConfigOf, ListOf;
    ListGenuine(w, m);
    ListShape(w, m, relayed);
    InList(w, m, relayed, i);
  }

  lemma PolicyIsNoEvidence(w: Cast)
    ensures PolicyStatementOf(ConfigOf(w)).sub != SUB
  {
    assert |PolicyStatementOf(ConfigOf(w)).sub| > |SUB|;
  }

  /** What T gathers about the request is what the parties submitted. */
  lemma CaseGathered(w: Cast, m: Receipt, relayed: bool)
    requires Usable(w, m) && ValidPayload(CT_RECEIPT, ReceiptPayload(m))
    ensures var ev := CaseOf(w, m, relayed).ev;
            ev == NOTHING.(contract := Some(SignedContract(w)),
                           relay := if relayed then Some(SignedRelay(w)) else None,
                           receipt := Some(SignedReceipt(w, m)),
                           observation := Some(SignedObservation(w, m)), refs := ev.refs)
            && ev.invalid == [] && ev.unauthorized == []
    ensures ValidSignature(EngineOf(ConfigOf(w)), SignedReceipt(w, m))
  {
    hide Sound, ValidPayload, EngineOf, ConfigOf, StepsOf, ListOf, AfterSteps, EvidenceFor, ValidSignature, Authorized,
         SignedContract, SignedRelay, SignedReceipt, SignedObservation, PolicyStatementOf, GatherAll, HashedIn;
    var c, list := ConfigOf(w), ListOf(w, m, relayed);
    CaseState(w, m, relayed);
    ListShape(w, m, relayed);
    PolicyIsNoEvidence(w);
    var entries := LogOf(c, AfterSteps(c, StepsOf(w, m, relayed)).rows);
    forall i | 0 <= i < |list|
      ensures entries[1..][i].statement == list[i].s && entries[i + 1].statement == list[i].s
      ensures IsEvidenceFor(entries[i + 1], SUB) && list[i].s.contentType == TypesIn(relayed)[i]
      ensures ValidSignature(EngineOf(c), list[i].s) && Authorized(EngineOf(c), list[i].s)
    {
      SubmittedIsEvidence(w, m, relayed, i);
    }
    forall i | 0 < i < |entries| ensures IsEvidenceFor(entries[i], SUB) {
      assert IsEvidenceFor(entries[(i - 1) + 1], SUB);
    }
    EvidenceIsRest(entries, SUB);
    FieldsGathered(EngineOf(c), entries[1..], relayed);
    assert list[|list| - 2].s == SignedReceipt(w, m);
  }

  // ---- the two exceptions occur ------------------------------------------------------------------------------

  /** T reaches this case by the steps, and answers a request for a verdict. */
  ghost predicate Reached(w: Cast, t: Case) {
    var c, st := ConfigOf(w), AfterSteps(ConfigOf(w), t.steps);
    HonestSteps(t.steps) && Answerable(c, st, SUB) && t.g == EngineOf(c)
    && t.ev == GatheredFor(t.g, LogOf(c, st.rows), SUB) && t.x == EvidenceOf(t.g, t.ev, Some(st.privates[SUB]))
  }

  /** The verdict with which it answers. */
  ghost function VerdictIn(w: Cast, t: Case, now: int): Verdict
    requires Reached(w, t)
  {
    var c, st := ConfigOf(w), AfterSteps(ConfigOf(w), t.steps);
    VerdictOfT(EngineOf(c), c.privateBytes, LogOf(c, st.rows), SUB, st.privates[SUB], now)
  }

  function EvidenceIn(w: Cast, m: Receipt, relayed: bool): Evidence {
    Evidence(Some(ContractOf(w)), if relayed then Some(RelayIn(w)) else None, Some(m), Some(ObservationIn(w, m)),
             Some(PrivateIn()), map["m" := Zeros()])
  }

  lemma CaseEvidence(w: Cast, m: Receipt, relayed: bool)
    requires Usable(w, m) && ValidPayload(CT_RECEIPT, ReceiptPayload(m))
    ensures CaseOf(w, m, relayed).x == EvidenceIn(w, m, relayed)
  {
    hide Usable, ValidPayload, GatheredFor, StepsOf, RulesOf, Commit;
    CaseGathered(w, m, relayed);
  }

  lemma StepsAreHonest(w: Cast, m: Receipt, relayed: bool)
    ensures HonestSteps(StepsOf(w, m, relayed))
  {
    hide SignedContract, SignedRelay, SignedReceipt, SignedObservation, PrivateIn;
  }

  lemma CaseReached(w: Cast, m: Receipt, relayed: bool, now: int)
    requires Usable(w, m) && ValidPayload(CT_RECEIPT, ReceiptPayload(m))
    ensures var t := CaseOf(w, m, relayed);
            Reached(w, t) && VerdictIn(w, t, now).status == Status(t.g, t.ev, t.x)
  {
    hide Usable, ValidPayload, EngineOf, ConfigOf, StepsOf, AfterSteps, EvidenceFor, ListOf, HonestSteps, Judge,
         EvidenceIn, GatherAll, UsePresented, Status;
    var c := ConfigOf(w);
    var t := CaseOf(w, m, relayed);
    CaseState(w, m, relayed);
    CaseEvidence(w, m, relayed);
    StepsAreHonest(w, m, relayed);
    assert t.x.c.Some? by {
      ContractIsKnown(w, m, relayed);
    }
    var es := EvidenceFor(LogOf(c, AfterSteps(c, t.steps).rows), SUB);
    JudgeFields(t.g, es, Some(PrivateIn()));
  }

  lemma ContractIsKnown(w: Cast, m: Receipt, relayed: bool)
    ensures EvidenceIn(w, m, relayed).c.Some?
  {
  }

  lemma CaseSetting(w: Cast, m: Receipt, relayed: bool)
    requires Sound(w)
    ensures var t := CaseOf(w, m, relayed);
            t.g.E == w.E && t.g.S == t.gate.S == w.S && t.g.refs == t.gate.refs == map["m" := Zeros()]
            && t.gate.trustedModelKeys == map[w.m.kid := w.m.publicKey] && t.gate.mode == Protect
            && w.m.kid in t.g.trusted && t.g.trusted[w.m.kid].1 == w.m.publicKey
            && SignedReceipt(w, m).kid == w.m.kid && t.g == EngineOf(ConfigOf(w))
            && t.d == DeliveryIn(w, m, relayed)
  {
    hide GatheredFor, StepsOf, ContractOf, PolicyStatementOf, SignedRelay, EvidenceOf;
  }

  function DeliveryIn(w: Cast, m: Receipt, relayed: bool): Delivery {
    Delivery(ContractOf(w), Zeros(), false, Some(SignedReceipt(w, m)), if relayed then Some(SignedRelay(w)) else None,
             0, map[])
  }

  /** U's delivery is about the same statements, under the same key. */
  lemma CaseIsShared(w: Cast, m: Receipt, relayed: bool)
    requires Usable(w, m) && ValidPayload(CT_RECEIPT, ReceiptPayload(m))
    ensures var t := CaseOf(w, m, relayed);
            SameCase(t.g, t.gate, t.ev, t.x, t.d) && SameKey(t.g, t.gate, t.ev) && t.d.now == t.x.o.value.receivedAt
  {
    hide *;
    UsableIsSound(w, m);
    CaseSetting(w, m, relayed);
    CaseGathered(w, m, relayed);
    CaseEvidence(w, m, relayed);
    CaseFromParts(w, m, relayed);
    var t := CaseOf(w, m, relayed);
    SharedParts(w, m, relayed, t.g, t.gate, t.ev, t.x);
  }

  lemma UsableIsSound(w: Cast, m: Receipt)
    requires Usable(w, m)
    ensures Sound(w)
  {
    hide Sound;
  }

  lemma SharedParts(w: Cast, m: Receipt, relayed: bool, g: Engine, gate: UserGate, ev: Gathered, x: Evidence)
    requires g.S == gate.S && g.refs == gate.refs && gate.trustedModelKeys == map[w.m.kid := w.m.publicKey]
    requires w.m.kid in g.trusted && g.trusted[w.m.kid].1 == w.m.publicKey && SignedReceipt(w, m).kid == w.m.kid
    requires ValidSignature(g, SignedReceipt(w, m)) && ev.receipt == Some(SignedReceipt(w, m))
    requires ev.relay == if relayed then Some(SignedRelay(w)) else None
    requires x == EvidenceIn(w, m, relayed) == EvidenceOf(g, ev, Some(PrivateIn()))
    ensures var d := DeliveryIn(w, m, relayed);
            SameCase(g, gate, ev, x, d) && SameKey(g, gate, ev) && d.now == x.o.value.receivedAt
  {
    hide ContractOf, EvidenceOf, ValidSignature, SignedRelay, SignedReceipt, RelayIn;
  }

  lemma CaseFromParts(w: Cast, m: Receipt, relayed: bool)
    ensures var t := CaseOf(w, m, relayed); t.x == EvidenceOf(t.g, t.ev, Some(PrivateIn()))
  {
    hide GatheredFor, StepsOf, EvidenceOf, EngineOf, ConfigOf, Commit;
  }

  /** T passes a receipt that commits to no request, on R's word; U's request binding fails. */
  lemma PassedWithoutBinding(w: Cast, now: int) returns (t: Case)
    requires Usable(w, ReceiptIn(w, false, true))
    ensures Reached(w, t) && VerdictIn(w, t, now).status == Passed == Status(t.g, t.ev, t.x)
    ensures SameCase(t.g, t.gate, t.ev, t.x, t.d) && SameKey(t.g, t.gate, t.ev) && t.d.now == t.x.o.value.receivedAt
    ensures t.gate.Value(t.d, RequestBinding) == Fail
  {
    hide *;
    var m := ReceiptIn(w, false, true);
    t := CaseOf(w, m, true);
    ReceiptInIsValid(w, false, true);
    CaseReached(w, m, true, now);
    CaseIsShared(w, m, true);
    RelayVouches(w);
    BindingFails(w);
  }

  lemma RelayVouches(w: Cast)
    requires Usable(w, ReceiptIn(w, false, true))
    ensures var t := CaseOf(w, ReceiptIn(w, false, true), true); Status(t.g, t.ev, t.x) == Passed
  {
    hide *;
    var m := ReceiptIn(w, false, true);
    var t := CaseOf(w, m, true);
    ReceiptInIsValid(w, false, true);
    UsableIsSound(w, m);
    CaseSetting(w, m, true);
    CaseGathered(w, m, true);
    CaseEvidence(w, m, true);
    EquationsHold(w, t.x);
    NothingDiffers(w, m, t.g, t.ev);
    AllPass(t.g, t.ev, t.x);
  }

  lemma ReceiptInIsValid(w: Cast, requestCommits: bool, namesModel: bool)
    ensures ValidPayload(CT_RECEIPT, ReceiptPayload(ReceiptIn(w, requestCommits, namesModel)))
  {
    hide Commit;
  }

  lemma NothingDiffers(w: Cast, m: Receipt, g: Engine, ev: Gathered)
    requires ev.receipt == Some(SignedReceipt(w, m)) && ev.observation == Some(SignedObservation(w, m))
    ensures !PresentedDiffers(g, ev) && ObservationOf(ev) == Some(ObservationIn(w, m))
  {
    hide SignedReceipt;
  }

  lemma AllPass(g: Engine, ev: Gathered, x: Evidence)
    requires ev.invalid == [] && ev.unauthorized == [] && !PresentedDiffers(g, ev)
    requires forall e :: Evaluate(g.E.H, x, e) != Fail && (RequiredForPass(e) ==> Evaluate(g.E.H, x, e) == Pass)
    ensures Status(g, ev, x) == Passed
  {
    hide Evaluate, PresentedDiffers;
  }

  lemma EquationsHold(w: Cast, x: Evidence)
    requires x == EvidenceIn(w, ReceiptIn(w, false, true), true)
    ensures forall e :: Evaluate(w.E.H, x, e) != Fail && (RequiredForPass(e) ==> Evaluate(w.E.H, x, e) == Pass)
  {
    hide Commit;
    assert x.c.value.reqCommit in Approved(x, x.c.value).Values by {
      assert Approved(x, x.c.value)[IDENTITY] == x.c.value.reqCommit;
    }
  }

  lemma BindingFails(w: Cast)
    requires Usable(w, ReceiptIn(w, false, true))
    ensures var t := CaseOf(w, ReceiptIn(w, false, true), true); t.gate.Value(t.d, RequestBinding) == Fail
  {
    hide *;
    var m := ReceiptIn(w, false, true);
    var t := CaseOf(w, m, true);
    UsableIsSound(w, m);
    CaseSetting(w, m, true);
    SignedByM(w, m, t.gate);
    BindingIn(w, t.gate);
  }

  lemma BindingIn(w: Cast, gate: UserGate)
    requires gate.SignedByModel(SignedReceipt(w, ReceiptIn(w, false, true)))
    requires SignedReceipt(w, ReceiptIn(w, false, true)).payload == ReceiptPayload(ReceiptIn(w, false, true))
    ensures gate.Value(DeliveryIn(w, ReceiptIn(w, false, true), true), RequestBinding) == Fail
  {
    hide ContractOf, UserGate.Value, SignedReceipt, UserGate.SignedByModel, RouteCheck, SignedRelay;
    gate.SignedValues(DeliveryIn(w, ReceiptIn(w, false, true), true));
    OnlyIdentity(w);
  }

  lemma OnlyIdentity(w: Cast)
    ensures ContractOf(w).allowedRequestTransforms == [IDENTITY]
  {
  }

  lemma SignedByM(w: Cast, m: Receipt, gate: UserGate)
    requires Sound(w) && gate.S == w.S && gate.trustedModelKeys == map[w.m.kid := w.m.publicKey]
    ensures gate.SignedByModel(SignedReceipt(w, m)) && SignedReceipt(w, m).payload == ReceiptPayload(m)
  {
    var s := SignedReceipt(w, m);
    assert ToBeSigned(s) == StatementMessage(s.(signature := []));
  }

  /** U accepts a receipt that names no model; T judges "failed". */
  lemma AcceptedButFailed(w: Cast, now: int) returns (t: Case, checks: map<Check, Outcome>)
    requires Usable(w, ReceiptIn(w, true, false))
    ensures Reached(w, t) && VerdictIn(w, t, now).status == Failed == Status(t.g, t.ev, t.x)
    ensures SameCase(t.g, t.gate, t.ev, t.x, t.d) && HonestUserSilentRelay(t.g, t.ev, t.x, t.d)
    ensures checks.Keys == LOCAL_CHECKS && forall c | c in checks :: checks[c] == t.gate.Value(t.d, c)
    ensures t.gate.Decide(checks, 0, 0, None, false).action == Accept
  {
    hide *;
    var m := ReceiptIn(w, true, false);
    t := CaseOf(w, m, false);
    checks := map c | c in LOCAL_CHECKS :: t.gate.Value(t.d, c);
    ReceiptInIsValid(w, true, false);
    UsableIsSound(w, m);
    CaseSetting(w, m, false);
    CaseReached(w, m, false, now);
    CaseIsShared(w, m, false);
    NobodyCheats(w);
    ChecksAreSound(w, checks);
    RouteUnknown(w);
  }

  lemma NobodyCheats(w: Cast)
    requires Usable(w, ReceiptIn(w, true, false))
    ensures var t := CaseOf(w, ReceiptIn(w, true, false), false); HonestUserSilentRelay(t.g, t.ev, t.x, t.d)
  {
    hide *;
    var m := ReceiptIn(w, true, false);
    var t := CaseOf(w, m, false);
    ReceiptInIsValid(w, true, false);
    UsableIsSound(w, m);
    CaseSetting(w, m, false);
    CaseGathered(w, m, false);
    CaseEvidence(w, m, false);
    HonestParts(w, m, t.g, t.ev);
  }

  lemma HonestParts(w: Cast, m: Receipt, g: Engine, ev: Gathered)
    requires g.E == w.E && ev.receipt == Some(SignedReceipt(w, m)) && ev.invalid == [] && ev.unauthorized == []
    ensures HonestUserSilentRelay(g, ev, EvidenceIn(w, m, false), DeliveryIn(w, m, false))
  {
    hide SignedReceipt, Commit;
  }

  lemma ChecksAreSound(w: Cast, checks: map<Check, Outcome>)
    requires Usable(w, ReceiptIn(w, true, false))
    requires var t := CaseOf(w, ReceiptIn(w, true, false), false);
             checks.Keys == LOCAL_CHECKS && forall c | c in checks :: checks[c] == t.gate.Value(t.d, c)
    ensures CaseOf(w, ReceiptIn(w, true, false), false).gate.LocallySound(checks)
  {
    hide *;
    var m := ReceiptIn(w, true, false);
    var t := CaseOf(w, m, false);
    UsableIsSound(w, m);
    CaseSetting(w, m, false);
    SignedByM(w, m, t.gate);
    SoundIn(w, t.gate, checks);
  }

  lemma SoundIn(w: Cast, gate: UserGate, checks: map<Check, Outcome>)
    requires var m := ReceiptIn(w, true, false);
             gate.SignedByModel(SignedReceipt(w, m)) && SignedReceipt(w, m).payload == ReceiptPayload(m)
             && checks.Keys == LOCAL_CHECKS
             && forall c | c in checks :: checks[c] == gate.Value(DeliveryIn(w, m, false), c)
    ensures gate.LocallySound(checks)
  {
    hide Commit, UserGate.Value, SignedReceipt, UserGate.SignedByModel;
    var d := DeliveryIn(w, ReceiptIn(w, true, false), false);
    gate.PlainValues(d);
    gate.SignedValues(d);
    assert d.contract.reqCommit in ApprovedCommits(d);
  }

  lemma RouteUnknown(w: Cast)
    requires Usable(w, ReceiptIn(w, true, false))
    ensures var t := CaseOf(w, ReceiptIn(w, true, false), false); Status(t.g, t.ev, t.x) == Failed
  {
    hide *;
    var m := ReceiptIn(w, true, false);
    var t := CaseOf(w, m, false);
    ReceiptInIsValid(w, true, false);
    CaseEvidence(w, m, false);
    NoModelFails(w, t.g, t.ev);
  }

  lemma NoModelFails(w: Cast, g: Engine, ev: Gathered)
    ensures Status(g, ev, EvidenceIn(w, ReceiptIn(w, true, false), false)) == Failed
  {
    hide Commit;
    assert Evaluate(g.E.H, EvidenceIn(w, ReceiptIn(w, true, false), false), E8) == Fail;
  }
}

/** Nobody is accused who is honest: T passes, and U accepts, what honest U, R and M did. */
module Honest {
  import opened Bytes
  import opened Options
  import opened Signatures
  import opened Statements
  import opened Log
  import opened Reconcile
  import opened Gate
  import opened Agreement
  import opened EndToEnd
  import opened Replay
  import opened Verdicts

  /** The honest parties' keys and names, as T knows them, and U's gate. */
  datatype Setting = Setting(g: Engine, gate: UserGate, u: KeyPair, uIss: string, r: KeyPair, rIss: string,
                             sub: string, format: Formatter)

  /** T takes statements of these types from the holder of this key. */
  ghost predicate Enrolled(g: Engine, key: KeyPair, iss: string, types: seq<string>) {
    Genuine(g.S, key) && key.kid in g.trusted && g.trusted[key.kid] == (iss, key.publicKey)
    && iss in g.issuerContentTypes && forall t | t in types :: t in g.issuerContentTypes[iss]
  }

  lemma IssuedCounts(g: Engine, key: KeyPair, iss: string, s: Statement, contentType: string)
    requires Enrolled(g, key, iss, [contentType])
    requires s.kid == key.kid && s.iss == iss && s.contentType == contentType
    requires s.signature == g.S.sign(key, ToBeSigned(s))
    ensures ValidSignature(g, s) && Authorized(g, s)
  {
  }

  // ---- R ------------------------------------------------------------------------------------------------

  /** What an honest R says it did: forwarded as named, or as a declared fallback. */
  function RelaySays(H: Hash, wire: WireRequest, requestedModel: string, t: string, forwarded: Bytes, upstream: string,
                     response: Bytes): Relay
    requires wire.salt.Some?
  {
    Relay(wire.attemptId, Commit(H, wire.salt.value, H(wire.body)), Commit(H, wire.salt.value, H(forwarded)), t,
          upstream, CommitTo(H, wire.salt, response), CommitTo(H, wire.salt, response), IDENTITY,
          if upstream == requestedModel then "forwarded" else "fallback", wire.nonce)
  }

  /** R applies one transform, asks M, signs what it did, and hands on what M answered. */
  method Forward(p: Setting, m: ModelOperator, requestedModel: string, t: string, upstream: string, wire: WireRequest,
                 lookup: Lookup, now: int)
    returns (response: Option<WireResponse>, relay: Option<Statement>)
    requires m.Valid() && wire.salt.Some?
    modifies m
    ensures m.Valid() && old(m.served) <= m.served
    ensures response.None? <==>
              upstream !in m.models
              || PreExecCheck(m.H, m.preExecEnforce, wire.(body := Transformed(p.format, t, wire.body)), lookup)
                 == Refuse
    ensures response.Some? ==>
              relay.Some? && response.value.relay == relay && !response.value.toolCall
              && |m.served| == |old(m.served)| + 1 && response.value.receipt.Some?
              && var forwarded := Transformed(p.format, t, wire.body);
                 m.served[|old(m.served)|] == Execution(m.models[upstream], wire.(body := forwarded),
                                                        Some(response.value.body), response.value.receipt.value)
                 && relay.value == IssueStatement(p.g.S, p.r, p.rIss, wire.sub, CT_RELAY,
                                                  RelayPayload(RelaySays(m.H, wire, requestedModel, t, forwarded,
                                                                         m.models[upstream].modelId,
                                                                         response.value.body)), now)
    ensures response.Some? ==>
              relay.value.payload.r.policyDecision ==
              if m.models[upstream].modelId == requestedModel then "forwarded" else "fallback"
  {
    hide HonestExecution, PreExecCheck;
    var forwarded := Transformed(p.format, t, wire.body);
    var answer, receipt := m.Serve(upstream, wire.(body := forwarded), lookup, now);
    if answer == None {
      return None, None;
    }
    var says := RelaySays(m.H, wire, requestedModel, t, forwarded, m.models[upstream].modelId, answer.value);
    relay := Some(IssueStatement(p.g.S, p.r, p.rIss, wire.sub, CT_RELAY, RelayPayload(says), now));
    response := Some(WireResponse(answer.value, false, receipt, relay));
  }

  // ---- T ------------------------------------------------------------------------------------------------

  /** These statements, and no others, are registered about the request, in any order. */
  ghost predicate HoldsExactly(entries: seq<LogEntry>, statements: seq<Statement>) {
    (forall i | 0 <= i < |entries| :: entries[i].statement in statements)
    && forall s | s in statements :: exists i :: 0 <= i < |entries| && entries[i].statement == s
  }

  lemma OneOfItsType(g: Engine, entries: seq<LogEntry>, statements: seq<Statement>, s: Statement)
    requires HoldsExactly(entries, statements) && s in statements
    requires forall q | q in statements && q.contentType == s.contentType :: q == s
    requires ValidSignature(g, s) && Authorized(g, s)
    requires s.contentType in {CT_CONTRACT, CT_RELAY, CT_RECEIPT, CT_OBSERVATION}
    ensures FieldOf(GatherAll(g, entries), s.contentType) == Some(s)
  {
    hide ValidSignature, Authorized, FieldOf, GatherAll;
    FieldIsLast(g, entries, s.contentType);
    var i :| 0 <= i < |entries| && entries[i].statement == s;
    assert Counted(g, entries[i].statement, s.contentType);
  }

  /** What the four parties' statements say of one honest request. */
  datatype Story = Story(a: Attempt, t: string, e: Execution, receivedAt: int)

  /** M's answer to U's request, on the body itself or an allowed transform, from a model the contract allows. */
  ghost predicate HonestStory(H: Hash, S: Scheme<Message>, format: Formatter, key: KeyPair, refs: map<string, Digest>,
                              s: Story)
  {
    var c, e := s.a.contract, s.e;
    c.reqCommit == Commit(H, s.a.salt, H(s.a.body)) && c.allowedResponseTransforms == [IDENTITY]
    && s.t in {IDENTITY, PUBLIC_FORMATTER_V1} && s.t in c.allowedRequestTransforms
    && HonestExecution(H, S, key, e) && e.response.Some?
    && e.wire.attemptId == c.attemptId && e.wire.nonce == Some(c.nonce) && e.wire.salt == Some(s.a.salt)
    && e.wire.body == Transformed(format, s.t, s.a.body)
    && (e.model.modelId == c.requestedModel || (e.model.modelId in c.allowedModels && c.fallbackPolicy != "none"))
    && e.model.modelId in refs && refs[e.model.modelId] == e.model.manifestHash && s.receivedAt <= c.expiresAt
  }

  function RelayIn(H: Hash, s: Story): Relay
    requires s.e.response.Some?
  {
    var c := s.a.contract;
    RelaySays(H, WireRequest("", c.attemptId, Some(c.nonce), Some(s.a.salt), s.a.body), c.requestedModel, s.t,
              s.e.wire.body, s.e.model.modelId, s.e.response.value)
  }

  function ObservationIn(H: Hash, s: Story): Observation
    requires s.e.response.Some?
  {
    Observation(s.a.contract.attemptId, Commit(H, s.a.salt, H(s.e.response.value)), s.receivedAt, Some(s.e.statement))
  }

  lemma HonestPayload(H: Hash, S: Scheme<Message>, format: Formatter, key: KeyPair, refs: map<string, Digest>, s: Story)
    requires HonestStory(H, S, format, key, refs, s)
    ensures s.e.statement.payload.ReceiptPayload?
    ensures var m, c, answer := s.e.statement.payload.m, s.a.contract, s.e.response.value;
            m.attemptId == c.attemptId && m.eatNonce == Some(c.nonce)
            && m.requestCommit == Some(Commit(H, s.a.salt, H(s.e.wire.body)))
            && m.responseCommit == Some(Commit(H, s.a.salt, H(answer)))
            && m.modelId == Some(s.e.model.modelId) && m.modelHash == Some(s.e.model.manifestHash)
  {
  }

  /** Honest statements agree in every equation. */
  lemma HonestAgree(H: Hash, S: Scheme<Message>, format: Formatter, key: KeyPair, refs: map<string, Digest>, s: Story,
                    e: Equation)
    requires HonestStory(H, S, format, key, refs, s) && s.e.statement.payload.ReceiptPayload?
    ensures Agree(H, Evidence(Some(s.a.contract), Some(RelayIn(H, s)), Some(s.e.statement.payload.m),
                              Some(ObservationIn(H, s)), Some(PrivateOf(H, format, s.a)), refs), e)
  {
    HonestPayload(H, S, format, key, refs, s);
    hide HonestExecution;
    var x := Evidence(Some(s.a.contract), Some(RelayIn(H, s)), Some(s.e.statement.payload.m), Some(ObservationIn(H, s)),
                      Some(PrivateOf(H, format, s.a)), refs);
    match e
    case E4 =>
      var d := Commit(H, s.a.salt, H(s.e.wire.body));
      assert Reached(x, d) && Allowed(x, s.a.contract, d);
    case E8 => assert Ran(x, Some(s.e.model.modelId));
    case _ =>
  }

  /** The four statements of a story, each issued by its party. */
  ghost predicate Tells(p: Setting, H: Hash, key: KeyPair, iss: string, s: Story, four: seq<Statement>) {
    HonestStory(H, p.g.S, p.format, key, p.g.refs, s) && |four| == 4 && four[2] == s.e.statement && four[2].iss == iss
    && (exists at :: four[0] == IssueStatement(p.g.S, p.u, p.uIss, p.sub, CT_CONTRACT,
                                               ContractPayload(s.a.contract), at))
    && (exists at :: four[1] == IssueStatement(p.g.S, p.r, p.rIss, p.sub, CT_RELAY, RelayPayload(RelayIn(H, s)), at))
    && (exists at :: four[3] == IssueStatement(p.g.S, p.u, p.uIss, p.sub, CT_OBSERVATION,
                                               ObservationPayload(ObservationIn(H, s)), at))
  }

  ghost predicate AllEnrolled(p: Setting, key: KeyPair, iss: string) {
    Enrolled(p.g, p.u, p.uIss, [CT_CONTRACT]) && Enrolled(p.g, p.u, p.uIss, [CT_OBSERVATION])
    && Enrolled(p.g, p.r, p.rIss, [CT_RELAY]) && Enrolled(p.g, key, iss, [CT_RECEIPT])
  }

  lemma AllCount(p: Setting, H: Hash, key: KeyPair, iss: string, s: Story, four: seq<Statement>)
    requires AllEnrolled(p, key, iss) && Tells(p, H, key, iss, s, four)
    ensures forall i | 0 <= i < 4 :: ValidSignature(p.g, four[i]) && Authorized(p.g, four[i])
    ensures four[0].contentType == CT_CONTRACT && four[1].contentType == CT_RELAY && four[2].contentType == CT_RECEIPT
            && four[3].contentType == CT_OBSERVATION
    ensures four[0].payload == ContractPayload(s.a.contract) && four[1].payload == RelayPayload(RelayIn(H, s))
            && four[2].payload.ReceiptPayload? && four[3].payload == ObservationPayload(ObservationIn(H, s))
  {
    hide Enrolled, RelayIn, ObservationIn, ValidSignature, Authorized;
    IssuedSigns(p.g.S, p.u, p.uIss, p.sub);
    IssuedSigns(p.g.S, p.r, p.rIss, p.sub);
    IssuedCounts(p.g, p.u, p.uIss, four[0], CT_CONTRACT);
    IssuedCounts(p.g, p.r, p.rIss, four[1], CT_RELAY);
    IssuedCounts(p.g, key, iss, four[2], CT_RECEIPT);
    IssuedCounts(p.g, p.u, p.uIss, four[3], CT_OBSERVATION);
  }

  lemma IssuedSigns(S: Scheme<Message>, key: KeyPair, iss: string, sub: string)
    ensures forall contentType, payload, at ::
              var s := IssueStatement(S, key, iss, sub, contentType, payload, at);
              s.signature == S.sign(key, ToBeSigned(s))
  {
  }

  lemma OneEach(g: Engine, entries: seq<LogEntry>, four: seq<Statement>, i: nat)
    requires i < |four| == 4 && HoldsExactly(entries, four) && ValidSignature(g, four[i]) && Authorized(g, four[i])
    requires four[0].contentType == CT_CONTRACT && four[1].contentType == CT_RELAY
    requires four[2].contentType == CT_RECEIPT && four[3].contentType == CT_OBSERVATION
    ensures FieldOf(GatherAll(g, entries), four[i].contentType) == Some(four[i])
  {
    hide ValidSignature, Authorized, FieldOf, GatherAll, HoldsExactly;
    forall q | q in four && q.contentType == four[i].contentType ensures q == four[i] {
      var k :| 0 <= k < 4 && four[k] == q;
      assert k == i;
    }
    OneOfItsType(g, entries, four, four[i]);
  }

  /** T gathers the four statements, and nothing is set aside. */
  lemma StoryGathered(p: Setting, H: Hash, key: KeyPair, iss: string, s: Story, four: seq<Statement>,
                      entries: seq<LogEntry>)
    requires AllEnrolled(p, key, iss) && Tells(p, H, key, iss, s, four) && HoldsExactly(entries, four)
    ensures var ev := UsePresented(p.g, GatherAll(p.g, entries));
            ev.contract == Some(four[0]) && ev.relay == Some(four[1]) && ev.receipt == Some(four[2])
            && ev.observation == Some(four[3]) && ev.invalid == [] && ev.unauthorized == []
  {
    AllCount(p, H, key, iss, s, four);
    hide AllEnrolled, Tells, ValidSignature, Authorized, GatherAll, FieldOf;
    FieldNames(GatherAll(p.g, entries));
    forall e | e in entries ensures ValidSignature(p.g, e.statement) && Authorized(p.g, e.statement) {
      var i :| 0 <= i < |entries| && entries[i] == e;
      assert entries[i].statement in four;
    }
    GenuineIsGathered(p.g, entries);
    OneEach(p.g, entries, four, 0);
    OneEach(p.g, entries, four, 1);
    OneEach(p.g, entries, four, 2);
    OneEach(p.g, entries, four, 3);
  }

  lemma FieldNames(ev: Gathered)
    ensures FieldOf(ev, CT_CONTRACT) == ev.contract && FieldOf(ev, CT_RELAY) == ev.relay
    ensures FieldOf(ev, CT_RECEIPT) == ev.receipt && FieldOf(ev, CT_OBSERVATION) == ev.observation
  {
  }

  /** T says "passed" over these entries, in whatever order, and records nothing but perhaps their delay. */
  ghost predicate PassedOver(p: Setting, entries: seq<LogEntry>, private: PrivateEvidence) {
    var v := Judge(p.g, entries, Some(private), PARTIES);
    v.status == Passed && v.completeness == "complete" && forall code | code != "D-LATE" :: v.codes[code] == 0
  }

  /** T passes an honest request, whichever allowed transform or fallback R used, and accuses nobody. */
  lemma HonestPasses(p: Setting, H: Hash, key: KeyPair, iss: string, s: Story, four: seq<Statement>,
                     entries: seq<LogEntry>)
    requires p.g.E.H == H && AllEnrolled(p, key, iss) && Tells(p, H, key, iss, s, four) && HoldsExactly(entries, four)
    ensures PassedOver(p, entries, PrivateOf(H, p.format, s.a))
  {
    hide *;
    StoryGathered(p, H, key, iss, s, four, entries);
    AllCount(p, H, key, iss, s, four);
    var ev := UsePresented(p.g, GatherAll(p.g, entries));
    var x := EvidenceOf(p.g, ev, Some(PrivateOf(H, p.format, s.a)));
    StoryTold(p, H, key, iss, s, four);
    StoryEvidence(p, H, s, four, ev);
    forall e ensures Agree(H, x, e) && !Disagree(H, x, e) {
      HonestAgree(H, p.g.S, p.format, key, p.g.refs, s, e);
      EquationExactly(H, x, e);
    }
    var v := Judge(p.g, entries, Some(PrivateOf(H, p.format, s.a)), PARTIES);
    forall code ensures v.status == Passed && v.completeness == "complete"
                ensures code != "D-LATE" ==> v.codes[code] == 0
    {
      VerdictExactly(p.g, entries, Some(PrivateOf(H, p.format, s.a)), code);
      NoObjection(p.g, ev, x, code);
    }
    assert v.codes["D-LATE"] >= 0;
    PassedIs(p, entries, PrivateOf(H, p.format, s.a), v);
  }

  lemma PassedIs(p: Setting, entries: seq<LogEntry>, private: PrivateEvidence, v: Verdict)
    requires v == Judge(p.g, entries, Some(private), PARTIES) && v.status == Passed && v.completeness == "complete"
    requires forall code | code != "D-LATE" :: v.codes[code] == 0
    ensures PassedOver(p, entries, private)
  {
    hide Judge;
  }

  lemma StoryTold(p: Setting, H: Hash, key: KeyPair, iss: string, s: Story, four: seq<Statement>)
    requires Tells(p, H, key, iss, s, four)
    ensures HonestStory(H, p.g.S, p.format, key, p.g.refs, s) && |four| == 4 && four[2] == s.e.statement
    ensures s.e.response.Some?
  {
    hide HonestExecution, RelayIn, ObservationIn;
  }

  lemma StoryEvidence(p: Setting, H: Hash, s: Story, four: seq<Statement>, ev: Gathered)
    requires |four| == 4 && s.e.response.Some? && four[2].payload.ReceiptPayload? && four[2] == s.e.statement
    requires four[0].payload == ContractPayload(s.a.contract) && four[1].payload == RelayPayload(RelayIn(H, s))
    requires four[3].payload == ObservationPayload(ObservationIn(H, s))
    requires ev.contract == Some(four[0]) && ev.relay == Some(four[1]) && ev.receipt == Some(four[2])
    requires ev.observation == Some(four[3])
    ensures EvidenceOf(p.g, ev, Some(PrivateOf(H, p.format, s.a))) ==
            Evidence(Some(s.a.contract), Some(RelayIn(H, s)), Some(s.e.statement.payload.m), Some(ObservationIn(H, s)),
                     Some(PrivateOf(H, p.format, s.a)), p.g.refs)
    ensures !ShownAnother(p.g, ev)
  {
    hide RelayIn, PrivateOf;
  }

  lemma NoObjection(g: Engine, ev: Gathered, x: Evidence, code: string)
    requires ev.invalid == [] && ev.unauthorized == [] && !ShownAnother(g, ev)
    requires ev.contract.Some? && ev.relay.Some? && ev.receipt.Some? && ev.observation.Some?
    requires forall e :: !Disagree(g.E.H, x, e)
    ensures !Objection(g, ev, x) && AllRegistered(ev) && (code != "D-LATE" ==> TimesRecorded(g, ev, x, code) == 0)
  {
    hide Disagree, ShownAnother;
    assert (set e: Equation | Recorded(g.E.H, x, e, code)) == {};
  }

  // ---- the exchange -----------------------------------------------------------------------------------------

  /** U's attempt, as `MakeAttempt` makes it, and a model that its contract allows and T knows. */
  ghost predicate Sendable(p: Setting, m: ModelOperator, a: Attempt, t: string, upstream: string) {
    var c := a.contract;
    c.reqCommit == Commit(m.H, a.salt, m.H(a.body)) && c.allowedResponseTransforms == [IDENTITY]
    && t in {IDENTITY, PUBLIC_FORMATTER_V1} && t in c.allowedRequestTransforms
    && upstream in m.models && m.models[upstream].modelId == upstream
    && (upstream == c.requestedModel || (upstream in c.allowedModels && c.fallbackPolicy != "none"))
    && upstream in p.g.refs && p.g.refs[upstream] == m.models[upstream].manifestHash
  }

  lemma AttemptIsSendable(H: Hash, body: Bytes, attemptId: string, nonce: Bytes, salt: Digest, requestedModel: string,
                          allowedModels: seq<string>, fallbackPolicy: string, transforms: seq<string>, now: int,
                          ttl: int)
    ensures var a := MakeAttempt(H, body, attemptId, nonce, salt, requestedModel, allowedModels, fallbackPolicy,
                                 transforms, now, ttl);
            a.contract.reqCommit == Commit(H, a.salt, H(a.body)) && a.contract.allowedResponseTransforms == [IDENTITY]
            && a.contract.expiresAt == now + ttl && a.contract.allowedRequestTransforms == transforms
            && a.contract.requestedModel == requestedModel && a.contract.allowedModels == allowedModels
            && a.contract.fallbackPolicy == fallbackPolicy && a.contract.clientTime == now
  {
  }

  /** What U sends, what R forwards of it, and what U signs about the answer. */
  function WireOf(p: Setting, a: Attempt): WireRequest {
    WireRequest(p.sub, a.contract.attemptId, Some(a.contract.nonce), Some(a.salt), a.body)
  }

  function ContractStatement(p: Setting, a: Attempt): Statement {
    IssueStatement(p.g.S, p.u, p.uIss, p.sub, CT_CONTRACT, ContractPayload(a.contract), a.contract.clientTime)
  }

  function ObservationStatement(p: Setting, H: Hash, a: Attempt, w: WireResponse, receivedAt: int): Statement {
    IssueStatement(p.g.S, p.u, p.uIss, p.sub, CT_OBSERVATION,
                   ObservationPayload(Observation(a.contract.attemptId, Commit(H, a.salt, H(w.body)), receivedAt,
                                                  w.receipt)), receivedAt)
  }

  /** U makes an attempt, R forwards it honestly, and U checks what comes back and signs what it received. */
  method HonestExchange(p: Setting, m: ModelOperator, a: Attempt, t: string, upstream: string, lookup: Lookup, now: int,
                        receivedAt: int)
    returns (d: Decision, four: seq<Statement>)
    requires m.Valid() && m.H == p.g.E.H && m.S == p.g.S == p.gate.S && AllEnrolled(p, m.key, m.iss)
    requires p.gate.mode == Protect && p.gate.refs == p.g.refs && m.key.kid in p.gate.trustedModelKeys
    requires p.gate.trustedModelKeys[m.key.kid] == m.key.publicKey && receivedAt <= a.contract.expiresAt
    requires Sendable(p, m, a, t, upstream) && (lookup.Found? ==> lookup.contract == a.contract)
    modifies m
    ensures m.Valid() && old(m.served) <= m.served && d.action == Accept
    ensures forall entries | HoldsExactly(entries, four) :: PassedOver(p, entries, PrivateOf(m.H, p.format, a))
  {
    hide HonestExecution, UserGate.Value, UserGate.LocallySound, AllEnrolled, PreExecCheck, Evaluate, Judge, Commit,
         HoldsExactly, IssueStatement, RelaySays, Transformed, Tells, Sendable, ContractStatement, ObservationStatement,
         DeliveryOf, PrivateOf;
    SendableParts(p, m, a, t, upstream);
    MIsGenuine(p, m.key, m.iss);
    HonestIsNotRefused(m.H, m.preExecEnforce, a, p.format, t, WireOf(p, a), lookup);
    var w, relay := Forward(p, m, a.contract.requestedModel, t, upstream, WireOf(p, a), lookup, now);
    ghost var e := m.served[|m.served| - 1];
    four := [ContractStatement(p, a), relay.value, w.value.receipt.value,
             ObservationStatement(p, m.H, a, w.value, receivedAt)];
    var checks := p.gate.LocalChecks(DeliveryOf(m.H, p.format, a, w.value, receivedAt));
    d := p.gate.Decide(checks, receivedAt, receivedAt, None, false);
    ExchangeIsSound(p, m, a, t, upstream, w.value, e, checks, now, receivedAt);
    ExchangeTells(p, m, a, t, upstream, w.value, e, now, receivedAt);
    hide *;
    forall entries | HoldsExactly(entries, four) ensures PassedOver(p, entries, PrivateOf(m.H, p.format, a)) {
      HonestPasses(p, m.H, m.key, m.iss, Story(a, t, e, receivedAt), four, entries);
    }
  }

  lemma MIsGenuine(p: Setting, key: KeyPair, iss: string)
    requires AllEnrolled(p, key, iss)
    ensures Genuine(p.g.S, key)
  {
  }

  lemma SendableParts(p: Setting, m: ModelOperator, a: Attempt, t: string, upstream: string)
    requires Sendable(p, m, a, t, upstream)
    ensures upstream in m.models && m.models[upstream].modelId == upstream
    ensures t in {IDENTITY, PUBLIC_FORMATTER_V1} && t in a.contract.allowedRequestTransforms
    ensures a.contract.reqCommit == Commit(m.H, a.salt, m.H(a.body))
  {
    hide Commit;
  }

  lemma ExchangeIsSound(p: Setting, m: ModelOperator, a: Attempt, t: string, upstream: string, w: WireResponse,
                        e: Execution, checks: map<Check, Outcome>, now: int, receivedAt: int)
    requires m.H == p.g.E.H && m.S == p.g.S == p.gate.S && Genuine(m.S, m.key) && p.gate.refs == p.g.refs
    requires m.key.kid in p.gate.trustedModelKeys && p.gate.trustedModelKeys[m.key.kid] == m.key.publicKey
    requires receivedAt <= a.contract.expiresAt && Sendable(p, m, a, t, upstream)
    requires w.receipt.Some? && w.relay.Some? && !w.toolCall
    requires e == Execution(m.models[upstream], WireOf(p, a).(body := Transformed(p.format, t, a.body)), Some(w.body),
                            w.receipt.value)
    requires HonestExecution(m.H, m.S, m.key, e) && e.statement.iss == m.iss
    requires w.relay.value == IssueStatement(p.g.S, p.r, p.rIss, p.sub, CT_RELAY,
                                             RelayPayload(RelaySays(m.H, WireOf(p, a), a.contract.requestedModel, t,
                                                                    e.wire.body, upstream, w.body)), now)
    requires checks.Keys == LOCAL_CHECKS
    requires forall c | c in checks :: checks[c] == p.gate.Value(DeliveryOf(m.H, p.format, a, w, receivedAt), c)
    ensures p.gate.LocallySound(checks)
  {
    hide HonestExecution, UserGate.Value, UserGate.LocallySound, Commit;
    HonestRelayAccepted(p.gate, m.H, p.format, m.key, a, w, receivedAt, checks, e, t);
  }

  lemma ExchangeTells(p: Setting, m: ModelOperator, a: Attempt, t: string, upstream: string, w: WireResponse,
                      e: Execution, now: int, receivedAt: int)
    requires m.H == p.g.E.H && m.S == p.g.S && receivedAt <= a.contract.expiresAt && Sendable(p, m, a, t, upstream)
    requires w.receipt.Some? && w.relay.Some?
    requires e == Execution(m.models[upstream], WireOf(p, a).(body := Transformed(p.format, t, a.body)), Some(w.body),
                            w.receipt.value)
    requires HonestExecution(m.H, m.S, m.key, e) && e.statement.iss == m.iss
    requires w.relay.value == IssueStatement(p.g.S, p.r, p.rIss, p.sub, CT_RELAY,
                                             RelayPayload(RelaySays(m.H, WireOf(p, a), a.contract.requestedModel, t,
                                                                    e.wire.body, upstream, w.body)), now)
    ensures Tells(p, m.H, m.key, m.iss, Story(a, t, e, receivedAt),
                  [ContractStatement(p, a), w.relay.value, w.receipt.value,
                   ObservationStatement(p, m.H, a, w, receivedAt)])
  {
    hide HonestExecution, Commit, IssueStatement;
    var s := Story(a, t, e, receivedAt);
    assert HonestStory(m.H, p.g.S, p.format, m.key, p.g.refs, s);
    hide HonestStory;
    assert RelayIn(m.H, s) == RelaySays(m.H, WireOf(p, a), a.contract.requestedModel, t, e.wire.body, upstream, w.body);
    assert ObservationIn(m.H, s) ==
           Observation(a.contract.attemptId, Commit(m.H, a.salt, m.H(w.body)), receivedAt, w.receipt);
  }

  /** An M that checks before it executes refuses nothing honest. */
  lemma HonestIsNotRefused(H: Hash, enforce: bool, a: Attempt, format: Formatter, t: string, wire: WireRequest,
                           lookup: Lookup)
    requires a.contract.reqCommit == Commit(H, a.salt, H(a.body))
    requires lookup.Found? ==> lookup.contract == a.contract
    requires wire.nonce == Some(a.contract.nonce) && wire.salt == Some(a.salt) && wire.body == a.body
    requires t in {IDENTITY, PUBLIC_FORMATTER_V1} && t in a.contract.allowedRequestTransforms
    ensures PreExecCheck(H, enforce, wire.(body := Transformed(format, t, wire.body)), lookup) != Refuse
  {
    hide Commit;
  }
}

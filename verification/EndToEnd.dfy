/**
  One request from U to M and back, with an arbitrary relay in between: between U's contract and
  U's decision the relay may have called M any number of times with anything, and it hands U
  whatever body and receipt it likes.
 */
module EndToEnd {
  import opened Bytes
  import opened Options
  import opened Signatures
  import opened Statements
  import opened Log
  import opened Reconcile
  import opened Gate
  import opened Agreement

  /** `infer` maps the canonical bytes of a request body to those of the response body. */
  datatype Model = Model(modelId: string, infer: Bytes -> Bytes, manifestHash: Digest)

  datatype WireRequest = WireRequest(sub: string, attemptId: string, nonce: Option<Bytes>, salt: Option<Digest>,
                                     body: Bytes)

  /** The salted commitment to a body; without the salt there is none. */
  function CommitTo(H: Hash, salt: Option<Digest>, body: Bytes): Option<Digest> {
    if salt.None? then None else Some(Commit(H, salt.value, H(body)))
  }

  // ---- M ------------------------------------------------------------------------------------------------

  datatype PreExec = Skipped | Unavailable | Refuse | Match | Unverifiable

  /** What M can learn about the contract before executing. */
  datatype Lookup = Down | NotRegistered | Found(contract: Contract)

  function PreExecCheck(H: Hash, enforce: bool, wire: WireRequest, lookup: Lookup): PreExec {
    if !enforce then Skipped
    else
      match lookup
      case Down => Unavailable
      case NotRegistered => Unavailable
      case Found(c) =>
        if wire.nonce != Some(c.nonce) || wire.salt.None? then Refuse
        else if IDENTITY in c.allowedRequestTransforms && CommitTo(H, wire.salt, wire.body) == Some(c.reqCommit)
        then Match
        else if exists t | t in c.allowedRequestTransforms :: t != IDENTITY then Unverifiable
        else Refuse
  }

  /** A contract that M knows and that allows no transform is executed only on the body that U committed to. */
  lemma EnforcedRunsCommittedBody(H: Hash, wire: WireRequest, c: Contract, salt: Digest, body: Bytes)
    requires forall t | t in c.allowedRequestTransforms :: t == "identity"
    requires c.reqCommit == H(salt + H(body))
    ensures PreExecCheck(H, true, wire, Found(c)) != Refuse <==>
              wire.nonce == Some(c.nonce) && wire.salt.Some? && c.allowedRequestTransforms != []
              && H(wire.salt.value + H(wire.body)) == c.reqCommit
    ensures PreExecCheck(H, true, wire, Found(c)) != Refuse ==>
              CollisionFree(H, {body, wire.body, salt + H(body), wire.salt.value + H(wire.body)}) ==> wire.body == body
  {
    assert c.allowedRequestTransforms != [] ==> c.allowedRequestTransforms[0] in c.allowedRequestTransforms;
    if PreExecCheck(H, true, wire, Found(c)) != Refuse
       && CollisionFree(H, {body, wire.body, salt + H(body), wire.salt.value + H(wire.body)})
    {
      var x, y := salt + H(body), wire.salt.value + H(wire.body);
      assert x == y && x[32..] == H(body) && y[32..] == H(wire.body);
    }
  }

  /** In all other cases an enforcing M refuses exactly without U's nonce or salt, and otherwise goes on. */
  lemma EnforcedRefusals(H: Hash, wire: WireRequest, lookup: Lookup)
    ensures PreExecCheck(H, false, wire, lookup) != Refuse && PreExecCheck(H, true, wire, Down) != Refuse
            && PreExecCheck(H, true, wire, NotRegistered) != Refuse
    ensures lookup.Found? && (exists t | t in lookup.contract.allowedRequestTransforms :: t != "identity") ==>
              (PreExecCheck(H, true, wire, lookup) == Refuse <==>
                 wire.nonce != Some(lookup.contract.nonce) || wire.salt.None?)
  {
  }

  /** One call of M: what it was asked, what it answered, what it signed. */
  datatype Execution = Execution(model: Model, wire: WireRequest, response: Option<Bytes>, statement: Statement)

  /** M ran the named model on what it received, and its receipt says so. */
  ghost predicate HonestExecution(H: Hash, S: Scheme<Message>, key: KeyPair, e: Execution) {
    e.statement.payload ==
    ReceiptPayload(Receipt(e.wire.attemptId, CommitTo(H, e.wire.salt, e.wire.body),
                           if e.response.Some? then CommitTo(H, e.wire.salt, e.response.value) else None,
                           Some(e.model.modelId), Some(e.model.manifestHash), e.wire.nonce,
                           if e.response.Some? then "served" else "refused"))
    && (e.response.Some? ==> e.response.value == e.model.infer(e.wire.body))
    && e.statement.signature == S.sign(key, ToBeSigned(e.statement)) && e.statement.kid == key.kid
    && e.statement.contentType == CT_RECEIPT && e.statement.sub == e.wire.sub
  }

  class ModelOperator {
    const H: Hash
    const S: Scheme<Message>
    const key: KeyPair
    const iss: string
    const models: map<string, Model>
    const preExecEnforce: bool
    ghost var served: seq<Execution>

    ghost predicate Valid()
      reads this
    {
      forall e | e in served :: HonestExecution(H, S, key, e) && e.statement.iss == iss
    }

    constructor (H: Hash, S: Scheme<Message>, key: KeyPair, iss: string, models: map<string, Model>, enforce: bool)
      ensures Valid() && served == []
      ensures this.H == H && this.S == S && this.key == key && this.iss == iss && this.models == models
    {
      this.H, this.S, this.key, this.iss, this.models, preExecEnforce := H, S, key, iss, models, enforce;
      served := [];
    }

    /** `None` as a result stands for the error on a model that M does not have. */
    method Serve(upstreamModel: string, wire: WireRequest, lookup: Lookup, now: int)
      returns (response: Option<Bytes>, receipt: Option<Statement>)
      requires Valid()
      modifies this
      ensures Valid()
      ensures upstreamModel !in models ==> served == old(served) && response.None? && receipt.None?
      ensures upstreamModel in models ==>
                receipt.Some?
                && served == old(served) + [Execution(models[upstreamModel], wire, response, receipt.value)]
                && (response.None? <==> PreExecCheck(H, preExecEnforce, wire, lookup) == Refuse)
    {
      if upstreamModel !in models {
        return None, None;
      }
      var model := models[upstreamModel];
      var check := PreExecCheck(H, preExecEnforce, wire, lookup);
      if check == Refuse {
        response := None;
      } else {
        response := Some(model.infer(wire.body));
      }
      var responseCommit := if response.Some? then CommitTo(H, wire.salt, response.value) else None;
      var payload := Receipt(wire.attemptId, CommitTo(H, wire.salt, wire.body), responseCommit, Some(model.modelId),
                             Some(model.manifestHash), wire.nonce, if response.Some? then "served" else "refused");
      var statement := IssueStatement(S, key, iss, wire.sub, CT_RECEIPT, ReceiptPayload(payload), now);
      served := served + [Execution(model, wire, response, statement)];
      receipt := Some(statement);
    }
  }

  // ---- U ------------------------------------------------------------------------------------------------

  /** The public deterministic formatter, on canonical bytes. */
  type Formatter = Bytes -> Bytes

  /** U's side of one attempt. */
  datatype Attempt = Attempt(contract: Contract, salt: Digest, body: Bytes)

  function ExpectedCommits(H: Hash, format: Formatter, a: Attempt): map<string, Digest> {
    if PUBLIC_FORMATTER_V1 in a.contract.allowedRequestTransforms
    then map[PUBLIC_FORMATTER_V1 := Commit(H, a.salt, H(format(a.body)))] else map[]
  }

  /** What U hands to T about the attempt. */
  function PrivateOf(H: Hash, format: Formatter, a: Attempt): PrivateEvidence {
    PrivateEvidence(a.salt, H(a.body), None, ExpectedCommits(H, format, a))
  }

  /** The contract U signs before sending, with fresh identifiers chosen by the caller; T's first equation holds. */
  function MakeAttempt(H: Hash, body: Bytes, attemptId: string, nonce: Bytes, salt: Digest, requestedModel: string,
                       allowedModels: seq<string>, fallbackPolicy: string, transforms: seq<string>,
                       now: int, ttl: int): (a: Attempt)
    ensures a.salt == salt && a.body == body && a.contract.nonce == nonce && a.contract.attemptId == attemptId
    ensures a.contract.reqCommit == Commit(H, a.salt, H(a.body))
    ensures forall format, refs ::
              Evaluate(H, Evidence(Some(a.contract), None, None, None, Some(PrivateOf(H, format, a)), refs), E1) == Pass
  {
    Attempt(Contract(attemptId, nonce, Commit(H, salt, H(body)), requestedModel, allowedModels, fallbackPolicy,
                     transforms, [IDENTITY], now + ttl, now), salt, body)
  }

  /** What reaches U. */
  datatype WireResponse = WireResponse(body: Bytes, toolCall: bool, receipt: Option<Statement>,
                                       relay: Option<Statement>)

  function DeliveryOf(H: Hash, format: Formatter, a: Attempt, w: WireResponse, now: int): Delivery {
    Delivery(a.contract, Commit(H, a.salt, H(w.body)), w.toolCall, w.receipt, w.relay, now,
             ExpectedCommits(H, format, a))
  }

  /** T's answer to a poll: only a decisive verdict is signed. */
  datatype Poll = Unreachable | Preview | Signed(status: VerificationStatus)

  /** When poll `i` is made. */
  ghost function PollTime(now: int, pollMs: int, i: nat): int { now + i * pollMs }

  lemma NextPoll(now: int, pollMs: int, i: nat)
    ensures PollTime(now, pollMs, i + 1) == PollTime(now, pollMs, i) + pollMs && PollTime(now, pollMs, 0) == now
  {
  }

  /** In strict mode U polls T until a signed verdict or the deadline, unless a local check has failed already. */
  method DecideInTime(gate: UserGate, checks: map<Check, Outcome>, receivedAt: int, now: int, deadline: int,
                      pollMs: int, polls: nat -> Poll)
    returns (d: Decision)
    requires pollMs > 0
    ensures d.mode == gate.mode && d.checks == checks
    ensures d.action == Accept ==> gate.mode != Observe && gate.LocallySound(checks)
    ensures d.action == Accept && gate.mode == Strict ==>
              exists i: nat :: polls(i) == Signed(Passed) && (i == 0 || PollTime(now, pollMs, i) <= deadline)
    ensures gate.mode == Protect && gate.LocallySound(checks) ==> d.action == Accept
  {
    hide PollTime, UserGate.LocallySound;
    if gate.mode != Strict || exists c | c in checks :: checks[c] == Fail {
      d := gate.Decide(checks, receivedAt, now, None, false);
      return;
    }
    var time, i := now, 0;
    NextPoll(now, pollMs, 0);
    var seen: Option<VerificationStatus> := None;
    while true
      invariant seen == None || seen == Some(InsufficientEvidence)
      invariant i >= 0 && time == PollTime(now, pollMs, i) && (i == 0 || time <= deadline)
      decreases deadline - time
    {
      match polls(i) {
        case Signed(status) =>
          d := gate.Decide(checks, receivedAt, time, Some(status), false);
          return;
        case Preview => seen := Some(InsufficientEvidence);
        case Unreachable =>
      }
      if time + pollMs > deadline {
        d := gate.Decide(checks, receivedAt, time, seen, true);
        return;
      }
      NextPoll(now, pollMs, i);
      time, i := time + pollMs, i + 1;
    }
  }

  /** U checks a response and decides. A verdict that counts was signed by T in a poll made before the deadline. */
  method Receive(gate: UserGate, H: Hash, format: Formatter, a: Attempt, w: WireResponse, receivedAt: int, now: int,
                 deadline: int, pollMs: int, polls: nat -> Poll)
    returns (d: Decision)
    requires pollMs > 0
    ensures d.mode == gate.mode
    ensures d.checks.Keys == LOCAL_CHECKS
    ensures forall c | c in d.checks :: d.checks[c] == gate.Value(DeliveryOf(H, format, a, w, now), c)
    ensures d.action == Accept ==> gate.mode != Observe && gate.LocallySound(d.checks)
    ensures d.action == Accept && gate.mode == Strict ==>
              exists i: nat :: polls(i) == Signed(Passed) && (i == 0 || PollTime(now, pollMs, i) <= deadline)
    ensures gate.mode == Protect && gate.LocallySound(d.checks) ==> d.action == Accept
  {
    hide UserGate.Value, UserGate.LocallySound;
    var checks := gate.LocalChecks(DeliveryOf(H, format, a, w, now));
    d := DecideInTime(gate, checks, receivedAt, now, deadline, pollMs, polls);
  }

  // ---- the whole exchange ----------------------------------------------------------------------------------

  /** M's answer to one call. */
  datatype Answer = Answer(response: Option<Bytes>, receipt: Option<Statement>)

  /** What the relay asks of M: a model, a request, what M finds when it looks the contract up, and M's clock. */
  datatype Question = Question(upstreamModel: string, wire: WireRequest, lookup: Lookup, now: int)

  /** Any strategy: how often to call M, what to ask next, and what to hand to U, given all it has seen. */
  datatype RelayStrategy = RelayStrategy(calls: nat, ask: (Contract, WireRequest, seq<Answer>) -> Question,
                         reply: (Contract, WireRequest, seq<Answer>) -> WireResponse)

  // ---- main result -------------------------------------------------------------------------------------

  /** M's key verifies a statement only if M signed it. */
  ghost predicate Unforged(S: Scheme<Message>, gate: UserGate, served: seq<Execution>, receipt: Option<Statement>) {
    receipt.Some? && receipt.value.kid in gate.trustedModelKeys
    && S.verify(gate.trustedModelKeys[receipt.value.kid], ToBeSigned(receipt.value), receipt.value.signature) ==>
      exists e :: e in served && ToBeSigned(e.statement) == ToBeSigned(receipt.value)
  }

  /** Everything hashed for a commitment to `body` under `salt`. */
  ghost function CommitInputs(H: Hash, salt: Option<Digest>, body: Bytes): set<Bytes> {
    {body} + if salt.Some? then {salt.value + H(body)} else {}
  }

  ghost function AttemptInputs(H: Hash, format: Formatter, a: Attempt, w: WireResponse, e: Execution): set<Bytes> {
    CommitInputs(H, Some(a.salt), a.body) + CommitInputs(H, Some(a.salt), format(a.body))
    + CommitInputs(H, Some(a.salt), w.body) + CommitInputs(H, e.wire.salt, e.wire.body)
    + if e.response.Some? then CommitInputs(H, e.wire.salt, e.response.value) else {}
  }

  lemma CommitBinds(H: Hash, s1: Digest, b1: Bytes, s2: Digest, b2: Bytes, inputs: set<Bytes>)
    requires CollisionFree(H, inputs)
    requires CommitInputs(H, Some(s1), b1) + CommitInputs(H, Some(s2), b2) <= inputs
    requires Commit(H, s1, H(b1)) == Commit(H, s2, H(b2))
    ensures s1 == s2 && b1 == b2
  {
    var x, y := s1 + H(b1), s2 + H(b2);
    assert x in inputs && y in inputs && x == y;
    assert s1 == x[..32] && s2 == y[..32] && H(b1) == x[32..] && H(b2) == y[32..];
    assert b1 in inputs && b2 in inputs;
  }

  /** The body M worked on is U's own, or an approved transform of it. */
  ghost predicate ApprovedBody(format: Formatter, a: Attempt, body: Bytes) {
    var allowed := a.contract.allowedRequestTransforms;
    (IDENTITY in allowed && body == a.body) || (PUBLIC_FORMATTER_V1 in allowed && body == format(a.body))
  }

  /** The execution that an accepted response comes from. */
  ghost predicate Explains(format: Formatter, a: Attempt, w: WireResponse, e: Execution) {
    e.response == Some(w.body) && w.body == e.model.infer(e.wire.body)
    && ApprovedBody(format, a, e.wire.body)
    && (e.model.modelId == a.contract.requestedModel
        || (e.model.modelId in a.contract.allowedModels && a.contract.fallbackPolicy != "none"))
    && e.wire.nonce == Some(a.contract.nonce) && e.wire.attemptId == a.contract.attemptId
  }

  /**
    Whatever the relay did: the body of an accepted response is the output of a requested or allowed
    model of M on U's own request or an approved transform of it, in a call carrying U's nonce. If the
    nonce was fresh, that call was made after the contract.
   */
  lemma AcceptedComesFromModel(gate: UserGate, H: Hash, format: Formatter, key: KeyPair, a: Attempt, w: WireResponse,
                               now: int, checks: map<Check, Outcome>, earlier: seq<Execution>, later: seq<Execution>)
    returns (i: nat)
    requires a.contract.reqCommit == Commit(H, a.salt, H(a.body))
    requires forall e | e in earlier + later :: HonestExecution(H, gate.S, key, e)
    requires Unforged(gate.S, gate, earlier + later, w.receipt)
    requires checks.Keys == LOCAL_CHECKS
    requires forall c | c in checks :: checks[c] == gate.Value(DeliveryOf(H, format, a, w, now), c)
    requires gate.LocallySound(checks)
    requires forall e | e in earlier :: e.wire.nonce != Some(a.contract.nonce)
    requires forall e | e in later :: CollisionFree(H, AttemptInputs(H, format, a, w, e))
    ensures i < |later| && Explains(format, a, w, later[i])
  {
    hide UserGate.Value, UserGate.LocallySound, ApprovedCommits, RouteCheck, CommitInputs, ExpectedCommits;
    var d := DeliveryOf(H, format, a, w, now);
    SoundChecksMean(gate, d, checks);
    var e :| e in earlier + later && ToBeSigned(e.statement) == ToBeSigned(w.receipt.value);
    assert e.statement.payload == w.receipt.value.payload;
    assert e in earlier || e in later;
    assert e in later;
    i :| 0 <= i < |later| && later[i] == e;
    AcceptedExecution(gate, H, format, key, a, w, now, e);
  }

  lemma AcceptedExecution(gate: UserGate, H: Hash, format: Formatter, key: KeyPair, a: Attempt, w: WireResponse,
                          now: int, e: Execution)
    requires a.contract.reqCommit == Commit(H, a.salt, H(a.body))
    requires HonestExecution(H, gate.S, key, e) && CollisionFree(H, AttemptInputs(H, format, a, w, e))
    requires e.statement.payload.ReceiptPayload?
    requires var d := DeliveryOf(H, format, a, w, now);
             var m := e.statement.payload.m;
             m.eatNonce == Some(a.contract.nonce) && m.attemptId == a.contract.attemptId
             && m.requestCommit.Some? && m.requestCommit.value in ApprovedCommits(d)
             && m.responseCommit == Some(d.receivedCommit) && RouteCheck(a.contract, m.modelId, w.relay) != Fail
    ensures Explains(format, a, w, e)
  {
    hide CommitInputs, Commit;
    var inputs := AttemptInputs(H, format, a, w, e);
    var salt := e.wire.salt.value;
    CommitBinds(H, salt, e.response.value, a.salt, w.body, inputs);
    var commit := e.statement.payload.m.requestCommit.value;
    if commit == a.contract.reqCommit && IDENTITY in a.contract.allowedRequestTransforms {
      CommitBinds(H, salt, e.wire.body, a.salt, a.body, inputs);
    } else {
      CommitBinds(H, salt, e.wire.body, a.salt, format(a.body), inputs);
    }
  }

  /**
    U makes an attempt and sends it to the relay, which does as it likes with M before it answers; U checks and
    decides. If U accepts, one of M's executions since then explains the body, provided that M's signature was
    not forged and that no two strings hashed for the commitments collide.
   */
  method Exchange(gate: UserGate, m: ModelOperator, relay: RelayStrategy, H: Hash, format: Formatter, sub: string,
                  body: Bytes, attemptId: string, nonce: Bytes, salt: Digest, requestedModel: string,
                  allowedModels: seq<string>, fallbackPolicy: string, transforms: seq<string>, now: int, ttl: int,
                  receivedAt: int, deadline: int, pollMs: int, polls: nat -> Poll)
    returns (a: Attempt, w: WireResponse, d: Decision)
    requires m.Valid() && m.H == H && m.S == gate.S && pollMs > 0
    requires forall e | e in m.served :: e.wire.nonce != Some(nonce)
    modifies m
    ensures m.Valid() && old(m.served) <= m.served
    ensures a.body == body && a.salt == salt && a.contract.nonce == nonce
    ensures d.action == Accept && Unforged(gate.S, gate, m.served, w.receipt)
            && (forall e | e in m.served[|old(m.served)|..] :: CollisionFree(H, AttemptInputs(H, format, a, w, e)))
            ==> exists i :: |old(m.served)| <= i < |m.served| && Explains(format, a, w, m.served[i])
  {
    hide UserGate.Value, UserGate.LocallySound, HonestExecution, Explains, AttemptInputs, Unforged, Evaluate;
    a := MakeAttempt(H, body, attemptId, nonce, salt, requestedModel, allowedModels, fallbackPolicy, transforms, now,
                     ttl);
    ghost var earlier := m.served;
    var sent := WireRequest(sub, attemptId, Some(nonce), Some(salt), body);
    var seen: seq<Answer> := [];
    for k := 0 to relay.calls
      invariant m.Valid() && earlier <= m.served
    {
      var q := relay.ask(a.contract, sent, seen);
      var response, receipt := m.Serve(q.upstreamModel, q.wire, q.lookup, q.now);
      seen := seen + [Answer(response, receipt)];
    }
    w := relay.reply(a.contract, sent, seen);
    d := Receive(gate, H, format, a, w, receivedAt, receivedAt, deadline, pollMs, polls);
    ghost var later := m.served[|earlier|..];
    if d.action == Accept && Unforged(gate.S, gate, m.served, w.receipt)
       && forall e | e in later :: CollisionFree(H, AttemptInputs(H, format, a, w, e))
    {
      assert m.served == earlier + later;
      var i := AcceptedComesFromModel(gate, H, format, m.key, a, w, receivedAt, d.checks, earlier, later);
      assert m.served[|earlier| + i] == later[i];
    }
  }

  /** A body that the contract lets M work on, as U computes it. */
  function Transformed(format: Formatter, t: string, body: Bytes): Bytes {
    if t == PUBLIC_FORMATTER_V1 then format(body) else body
  }

  /**
    Conversely, what an honest relay brings back is found sound: from the requested model, or from an allowed one
    by a declared fallback, on the request as it is or after an allowed transform.
   */
  lemma HonestRelayAccepted(gate: UserGate, H: Hash, format: Formatter, key: KeyPair, a: Attempt, w: WireResponse,
                            now: int, checks: map<Check, Outcome>, e: Execution, t: string)
    requires Genuine(gate.S, key) && key.kid in gate.trustedModelKeys && gate.trustedModelKeys[key.kid] == key.publicKey
    requires a.contract.reqCommit == Commit(H, a.salt, H(a.body))
    requires t in {IDENTITY, PUBLIC_FORMATTER_V1} && t in a.contract.allowedRequestTransforms
    requires HonestExecution(H, gate.S, key, e) && e.response.Some?
    requires e.wire == WireRequest(e.wire.sub, a.contract.attemptId, Some(a.contract.nonce), Some(a.salt),
                                   Transformed(format, t, a.body))
    requires e.model.modelId == a.contract.requestedModel
             || (e.model.modelId in a.contract.allowedModels && a.contract.fallbackPolicy != "none"
                 && RelayOf(w.relay).Some? && RelayOf(w.relay).value.policyDecision == "fallback")
    requires e.model.modelId in gate.refs ==> gate.refs[e.model.modelId] == e.model.manifestHash
    requires w.body == e.response.value && w.receipt == Some(e.statement) && !w.toolCall && now <= a.contract.expiresAt
    requires checks.Keys == LOCAL_CHECKS
    requires forall c | c in checks :: checks[c] == gate.Value(DeliveryOf(H, format, a, w, now), c)
    ensures gate.LocallySound(checks)
  {
    hide UserGate.Value, Commit;
    var d := DeliveryOf(H, format, a, w, now);
    assert gate.SignedByModel(e.statement);
    gate.PlainValues(d);
    gate.SignedValues(d);
    if t == IDENTITY {
      assert a.contract.reqCommit in ApprovedCommits(d);
    } else {
      assert d.expected[t] in ApprovedCommits(d);
    }
  }
}

/**
  U's gate and T's equation engine judge the same statements by two separate case analyses.
  Here they are compared on the same inputs.
 */
module Agreement {
  import opened Bytes
  import opened Options
  import opened Signatures
  import opened Statements
  import opened Log
  import opened Reconcile
  import opened Gate

  // ---- what gathering guarantees ------------------------------------------------------------------------

  ghost predicate Genuinely(g: Engine, s: Option<Statement>) {
    s.Some? ==>
      s.value.kid in g.trusted && g.trusted[s.value.kid].0 == s.value.iss
      && g.S.verify(g.trusted[s.value.kid].1, ToBeSigned(s.value), s.value.signature)
      && s.value.iss in g.issuerContentTypes && s.value.contentType in g.issuerContentTypes[s.value.iss]
  }

  ghost predicate AllGenuine(g: Engine, ev: Gathered) {
    Genuinely(g, ev.contract) && Genuinely(g, ev.relay) && Genuinely(g, ev.receipt) && Genuinely(g, ev.observation)
  }

  /** Evidence is signed with its issuer's pinned key, and the issuer may make such statements. */
  lemma {:induction false} GatheredIsGenuine(g: Engine, entries: seq<LogEntry>)
    ensures AllGenuine(g, UsePresented(g, GatherAll(g, entries)))
    ensures AllGenuine(g, GatherAll(g, entries))
  {
    hide Genuinely, UsePresented, GatherOne;
    NothingIsGenuine(g);
    if entries != [] {
      GatheredIsGenuine(g, entries[..|entries| - 1]);
      GatherOneGenuine(g, GatherAll(g, entries[..|entries| - 1]), entries[|entries| - 1]);
    }
    PresentedGenuine(g, GatherAll(g, entries));
  }

  lemma NothingIsGenuine(g: Engine)
    ensures AllGenuine(g, NOTHING)
  {
  }

  lemma PresentedGenuine(g: Engine, ev: Gathered)
    requires AllGenuine(g, ev)
    ensures AllGenuine(g, UsePresented(g, ev))
  {
    hide ToBeSigned;
  }

  lemma GatherOneGenuine(g: Engine, ev: Gathered, e: LogEntry)
    requires AllGenuine(g, ev)
    ensures AllGenuine(g, GatherOne(g, ev, e))
  {
    hide ToBeSigned;
    assert Genuinely(g, Some(e.statement)) || !ValidSignature(g, e.statement) || !Authorized(g, e.statement);
  }

  lemma {:induction false} GenuineIsGathered(g: Engine, entries: seq<LogEntry>)
    requires forall e | e in entries :: ValidSignature(g, e.statement) && Authorized(g, e.statement)
    ensures GatherAll(g, entries).invalid == [] && GatherAll(g, entries).unauthorized == []
  {
    hide ValidSignature, Authorized;
    if entries != [] {
      assert entries[|entries| - 1] in entries;
      GenuineIsGathered(g, entries[..|entries| - 1]);
    }
  }

  /** Statements that T's registration policy admitted are never set aside when gathering. */
  lemma {:induction false} AdmittedIsGathered(g: Engine, p: Policy, entries: seq<LogEntry>)
    requires p.trusted == g.trusted && p.issuerContentTypes == g.issuerContentTypes
    requires forall e | e in entries :: CheckPolicy(g.S, p, e.statement) == []
    ensures GatherAll(g, entries).invalid == [] && GatherAll(g, entries).unauthorized == []
  {
    forall e | e in entries ensures ValidSignature(g, e.statement) && Authorized(g, e.statement) {
      AdmittedIsAuthentic(g.S, p, e.statement);
    }
    GenuineIsGathered(g, entries);
  }

  // ---- the same case, seen by both -----------------------------------------------------------------------

  /** U's delivery and T's evidence are about the same statements. */
  ghost predicate SameCase(g: Engine, gate: UserGate, ev: Gathered, x: Evidence, d: Delivery) {
    gate.refs == g.refs
    && x.c == Some(d.contract) && x.o.Some? && x.p.Some?
    && d.receipt == ev.receipt && d.relay == ev.relay
    && d.receivedCommit == x.o.value.respCommit && d.expected == x.p.value.expected
    && x == EvidenceOf(g, ev, x.p)
  }

  /** T's keys for the registered receipt are U's. */
  ghost predicate SameKey(g: Engine, gate: UserGate, ev: Gathered) {
    gate.S == g.S &&
    (ev.receipt.Some? ==>
       var kid := ev.receipt.value.kid;
       ValidSignature(g, ev.receipt.value) && kid in gate.trustedModelKeys && kid in g.trusted
       && gate.trustedModelKeys[kid] == g.trusted[kid].1)
  }

  lemma ApprovedByTApprovedByU(x: Evidence, d: Delivery, commit: Digest)
    requires x.c == Some(d.contract) && x.p.Some? && d.expected == x.p.value.expected
    requires commit in Approved(x, d.contract).Values
    ensures commit in ApprovedCommits(d)
  {
    var t :| t in Approved(x, d.contract) && Approved(x, d.contract)[t] == commit;
    if t in d.expected && t in d.contract.allowedRequestTransforms {
      assert commit == d.expected[t];
    }
  }

  /**
    T's "passed" means that every check of U passes, tool policy apart, and that the request binding
    passes exactly when M's receipt has a request commitment (without one, T takes R's word for it).
   */
  lemma PassedMeansChecksPass(g: Engine, gate: UserGate, ev: Gathered, x: Evidence, d: Delivery)
    requires SameCase(g, gate, ev, x, d) && SameKey(g, gate, ev)
    requires d.now == x.o.value.receivedAt
    requires Status(g, ev, x) == Passed
    ensures forall c | c in LOCAL_CHECKS && c != ToolPolicy && c != RequestBinding :: gate.Value(d, c) == Pass
    ensures x.m.Some? && (gate.Value(d, RequestBinding) == Pass <==> x.m.value.requestCommit.Some?)
  {
    hide Evaluate, Status, EvidenceOf, ApprovedCommits, RouteCheck, ToBeSigned;
    PassedEquations(g, ev, x);
    PassedHasReceipt(g, ev, x);
    ChecksFromEquations(g, gate, ev, x, d);
    gate.SignedValues(d);
    gate.PlainValues(d);
  }

  lemma PassedEquations(g: Engine, ev: Gathered, x: Evidence)
    requires Status(g, ev, x) == Passed
    ensures forall e | RequiredForPass(e) :: Evaluate(g.E.H, x, e) == Pass
    ensures RequiredForPass(E4) && RequiredForPass(E5) && RequiredForPass(E8) && RequiredForPass(E9)
            && RequiredForPass(E10) && RequiredForPass(E11) && RequiredForPass(E12)
  {
    hide Evaluate;
  }

  lemma ChecksFromEquations(g: Engine, gate: UserGate, ev: Gathered, x: Evidence, d: Delivery)
    requires SameCase(g, gate, ev, x, d) && d.now == x.o.value.receivedAt
    requires x.m.Some? && ev.receipt.Some? && ev.receipt.value.payload == ReceiptPayload(x.m.value)
    requires Evaluate(g.E.H, x, E4) == Pass && Evaluate(g.E.H, x, E5) == Pass && Evaluate(g.E.H, x, E8) == Pass
    requires Evaluate(g.E.H, x, E10) == Pass && Evaluate(g.E.H, x, E11) == Pass && Evaluate(g.E.H, x, E12) == Pass
    ensures d.now <= d.contract.expiresAt
    ensures x.m.value.eatNonce == Some(d.contract.nonce) && x.m.value.responseCommit == Some(d.receivedCommit)
    ensures x.m.value.attemptId == d.contract.attemptId
    ensures RouteCheck(d.contract, x.m.value.modelId, d.relay) == Pass
    ensures RequestCheck(d, x.m.value) == Pass <==> x.m.value.requestCommit.Some?
  {
    hide EvidenceOf, ApprovedCommits, RouteCheck, Route, Approved;
    RouteAgrees(g, ev, x, d);
    AttemptsAgree(g, ev, x);
    if x.m.value.requestCommit.Some? {
      ApprovedByTApprovedByU(x, d, x.m.value.requestCommit.value);
    }
  }

  lemma PassedHasReceipt(g: Engine, ev: Gathered, x: Evidence)
    requires x == EvidenceOf(g, ev, x.p) && Evaluate(g.E.H, x, E9) == Pass
    ensures x.m.Some? && ev.receipt.Some? && ev.receipt.value.payload == ReceiptPayload(x.m.value)
    ensures x.m.value.modelId.Some? && x.m.value.modelId.value in g.refs
    ensures x.m.value.modelHash == Some(g.refs[x.m.value.modelId.value])
  {
  }

  lemma RouteAgrees(g: Engine, ev: Gathered, x: Evidence, d: Delivery)
    requires x == EvidenceOf(g, ev, x.p) && x.c == Some(d.contract) && d.relay == ev.relay && x.m.Some?
    requires EvalRoute(x) == Pass
    ensures RouteCheck(d.contract, x.m.value.modelId, d.relay) == Pass
  {
  }

  lemma AttemptsAgree(g: Engine, ev: Gathered, x: Evidence)
    requires x.c.Some? && x.m.Some? && Evaluate(g.E.H, x, E11) == Pass
    ensures x.m.value.attemptId == x.c.value.attemptId
  {
    var ids := AttemptIds(x);
    assert ids[0] == x.c.value.attemptId;
    assert ids[if x.r.Some? then 2 else 1] == x.m.value.attemptId;
  }

  // ---- accepted by U, judged by T --------------------------------------------------------------------------

  /** U made its evidence honestly, the receipt it was shown is the registered one, and R kept silent. */
  ghost predicate HonestUserSilentRelay(g: Engine, ev: Gathered, x: Evidence, d: Delivery) {
    x.c.Some? && x.o.Some? && x.p.Some? && x.r.None? && d.relay.None?
    && x.c.value.reqCommit == Commit(g.E.H, x.p.value.salt, x.p.value.requestHash)
    && (IDENTITY in d.expected ==> d.expected[IDENTITY] == d.contract.reqCommit)
    && x.o.value.attemptId == d.contract.attemptId && x.o.value.receivedAt <= d.now
    && x.o.value.presentedReceipt == ev.receipt && ev.invalid == [] && ev.unauthorized == []
  }

  lemma ApprovedByUApprovedByT(x: Evidence, d: Delivery, commit: Digest)
    requires x.c == Some(d.contract) && x.p.Some? && d.expected == x.p.value.expected
    requires IDENTITY in d.expected ==> d.expected[IDENTITY] == d.contract.reqCommit
    requires commit in ApprovedCommits(d)
    ensures commit in Approved(x, d.contract).Values
  {
    var a := Approved(x, d.contract);
    if commit == d.contract.reqCommit && IDENTITY in d.contract.allowedRequestTransforms {
      assert IDENTITY in a && a[IDENTITY] == commit;
    } else {
      var t :| t in d.expected && t in d.contract.allowedRequestTransforms && d.expected[t] == commit;
      assert t in a && a[t] == commit;
    }
  }

  /** What U has established when no check failed and all required ones passed. */
  lemma SoundChecksMean(gate: UserGate, d: Delivery, checks: map<Check, Outcome>)
    requires checks.Keys == LOCAL_CHECKS && forall c | c in checks :: checks[c] == gate.Value(d, c)
    requires gate.LocallySound(checks)
    ensures d.receipt.Some? && gate.SignedByModel(d.receipt.value) && d.receipt.value.payload.ReceiptPayload?
    ensures var m := d.receipt.value.payload.m;
            d.now <= d.contract.expiresAt && m.eatNonce == Some(d.contract.nonce)
            && m.requestCommit.Some? && m.requestCommit.value in ApprovedCommits(d)
            && m.responseCommit == Some(d.receivedCommit) && m.attemptId == d.contract.attemptId
            && RouteCheck(d.contract, m.modelId, d.relay) != Fail
            && (m.modelId.Some? && m.modelId.value in gate.refs ==> m.modelHash == Some(gate.refs[m.modelId.value]))
  {
    hide UserGate.Value, ApprovedCommits, RouteCheck, ToBeSigned;
    assert forall c | c in LOCAL_CHECKS :: c in checks;
    gate.PlainValues(d);
    assert checks[NonceMatch] == Pass && checks[ReceiptPresent] == Pass;
    gate.SignedValues(d);
  }

  /**
    A response U accepts is never judged "failed" by T, unless M's receipt names no model; it is judged
    "passed" exactly when the model is a registered one and the contract allows no response transform.
   */
  lemma AcceptedIsNotFailed(g: Engine, gate: UserGate, ev: Gathered, x: Evidence, d: Delivery,
                            checks: map<Check, Outcome>)
    requires SameCase(g, gate, ev, x, d) && HonestUserSilentRelay(g, ev, x, d)
    requires checks.Keys == LOCAL_CHECKS && forall c | c in checks :: checks[c] == gate.Value(d, c)
    requires gate.LocallySound(checks)
    ensures x.m.Some?
    ensures Status(g, ev, x) == Failed <==> x.m.value.modelId.None?
    ensures Status(g, ev, x) == Passed <==>
              x.m.value.modelId.Some? && x.m.value.modelId.value in g.refs
              && d.contract.allowedResponseTransforms == [IDENTITY]
  {
    hide UserGate.Value, UserGate.LocallySound, ApprovedCommits, RouteCheck, Approved, Evaluate;
    SoundChecksMean(gate, d, checks);
    var m := x.m.value;
    ApprovedByUApprovedByT(x, d, m.requestCommit.value);
    RequestEquations(g, x, d);
    ResponseEquations(g, x, d);
    assert !PresentedDiffers(g, ev);
    if m.modelId.None? {
      assert Evaluate(g.E.H, x, E8) == Fail;
    } else {
      forall e ensures Evaluate(g.E.H, x, e) != Fail {
        AllEquations(e);
      }
      assert RequiredForPass(E9) && RequiredForPass(E10);
    }
  }

  lemma AllEquations(e: Equation)
    ensures e in {E1, E2, E3, E4, E5, E6, E7, E8, E9, E10, E11, E12}
  {
  }

  lemma RequestEquations(g: Engine, x: Evidence, d: Delivery)
    requires x.c == Some(d.contract) && x.m.Some? && x.p.Some? && x.r.None? && d.relay.None?
    requires d.contract.reqCommit == Commit(g.E.H, x.p.value.salt, x.p.value.requestHash)
    requires x.m.value.requestCommit.Some? && x.m.value.requestCommit.value in Approved(x, d.contract).Values
    requires x.m.value.eatNonce == Some(d.contract.nonce)
    requires RouteCheck(d.contract, x.m.value.modelId, None) != Fail
    ensures Evaluate(g.E.H, x, E1) == Pass && Evaluate(g.E.H, x, E4) == Pass && Evaluate(g.E.H, x, E5) == Pass
    ensures Evaluate(g.E.H, x, E2) == NotEvaluable && Evaluate(g.E.H, x, E3) == NotEvaluable
    ensures Evaluate(g.E.H, x, E8) == if x.m.value.modelId.None? then Fail else Pass
  {
    hide Approved;
  }

  lemma ResponseEquations(g: Engine, x: Evidence, d: Delivery)
    requires x.c == Some(d.contract) && x.m.Some? && x.o.Some? && x.r.None?
    requires x.m.value.responseCommit == Some(d.receivedCommit) && d.receivedCommit == x.o.value.respCommit
    requires x.m.value.attemptId == d.contract.attemptId == x.o.value.attemptId
    requires x.o.value.receivedAt <= d.now <= d.contract.expiresAt
    requires x.m.value.modelId.Some? && x.m.value.modelId.value in x.refs ==>
               x.m.value.modelHash == Some(x.refs[x.m.value.modelId.value])
    ensures Evaluate(g.E.H, x, E6) == NotEvaluable && Evaluate(g.E.H, x, E7) == NotEvaluable
    ensures Evaluate(g.E.H, x, E9) ==
            if x.m.value.modelId.Some? && x.m.value.modelId.value in x.refs then Pass else NotEvaluable
    ensures Evaluate(g.E.H, x, E10) == if d.contract.allowedResponseTransforms == [IDENTITY] then Pass else NotEvaluable
    ensures Evaluate(g.E.H, x, E11) == Pass && Evaluate(g.E.H, x, E12) == Pass
  {
  }

  // ---- the route, check by check ----------------------------------------------------------------------------

  /** What U's route check says of the model that a receipt or a relay statement names. */
  lemma RouteCheckExactly(c: Contract, modelId: Option<string>, relay: Option<Statement>)
    ensures modelId.None? ==> RouteCheck(c, modelId, relay) == NotEvaluable
    ensures modelId.Some? ==>
              var declared := relay.Some? && relay.value.payload.RelayPayload?
                              && relay.value.payload.r.policyDecision == "fallback";
              RouteCheck(c, modelId, relay) ==
              if modelId.value == c.requestedModel
                 || (modelId.value in c.allowedModels && c.fallbackPolicy != "none" && declared) then Pass else Fail
  {
  }

  /** What U's request check says of the commitment in a receipt. */
  lemma RequestCheckExactly(d: Delivery, m: Receipt)
    ensures RequestCheck(d, m) == Pass <==>
              exists t | t in d.contract.allowedRequestTransforms ::
                (t == "identity" && m.requestCommit == Some(d.contract.reqCommit))
                || (t in d.expected && m.requestCommit == Some(d.expected[t]))
    ensures RequestCheck(d, m) == Fail <==>
              RequestCheck(d, m) != Pass
              && forall t | t in d.contract.allowedRequestTransforms :: t == "identity" || t in d.expected
  {
    if t :| t in d.contract.allowedRequestTransforms
            && ((t == "identity" && m.requestCommit == Some(d.contract.reqCommit))
                || (t in d.expected && m.requestCommit == Some(d.expected[t]))) {
      assert m.requestCommit.value in ApprovedCommits(d);
    }
  }

  /** U and T agree on the route once R has spoken; while R is silent U also fails what T leaves open. */
  lemma RouteFailsAlike(g: Engine, ev: Gathered, x: Evidence, d: Delivery, modelId: string)
    requires x == EvidenceOf(g, ev, x.p) && x.c == Some(d.contract) && d.relay == ev.relay
    requires if x.m.Some? then x.m.value.modelId == Some(modelId)
             else x.r.Some? && x.r.value.upstreamModel == modelId
    ensures RouteCheck(d.contract, Some(modelId), d.relay) == Pass <==> Evaluate(g.E.H, x, E8) == Pass
    ensures RouteCheck(d.contract, Some(modelId), d.relay) == Fail <==>
              Evaluate(g.E.H, x, E8) == Fail
              || (x.r.None? && modelId != d.contract.requestedModel && modelId in d.contract.allowedModels
                  && d.contract.fallbackPolicy != "none")
  {
    RouteCheckExactly(d.contract, Some(modelId), d.relay);
  }
}

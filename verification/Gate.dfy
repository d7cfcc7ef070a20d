/** U's gate: local checks on a response and the decision whether to use it. */
module Gate {
  import opened Bytes
  import opened Options
  import opened Signatures
  import opened Statements
  import opened Reconcile

  datatype Mode = Observe | Protect | Strict

  datatype Check =
    | NotExpired | ReceiptPresent | ReceiptSignature | NonceMatch | RequestBinding | ResponseBinding
    | AttemptMatch | ModelHashReference | RouteAllowed | ToolPolicy

  /** What the gate looks at. */
  datatype Delivery = Delivery(contract: Contract, receivedCommit: Digest, toolCall: bool,
                               receipt: Option<Statement>, relay: Option<Statement>, now: int,
                               expected: map<string, Digest>)

  const LOCAL_CHECKS := {NotExpired, ReceiptPresent, ReceiptSignature, NonceMatch, RequestBinding, ResponseBinding,
                         AttemptMatch, ModelHashReference, RouteAllowed, ToolPolicy}

  const NEED_SIGNATURE := {NonceMatch, RequestBinding, ResponseBinding, AttemptMatch, ModelHashReference}

  /** Checks that quarantine a response when they cannot be made. */
  const REQUIRED_LOCAL_CHECKS := {ReceiptPresent, RequestBinding, ResponseBinding, NonceMatch}

  function RelayOf(s: Option<Statement>): Option<Relay> {
    if s.Some? && s.value.payload.RelayPayload? then Some(s.value.payload.r) else None
  }

  function RouteCheck(contract: Contract, actual: Option<string>, relay: Option<Statement>): Outcome {
    if actual.None? then NotEvaluable
    else if actual.value == contract.requestedModel then Pass
    else if actual.value !in contract.allowedModels || contract.fallbackPolicy == "none" then Fail
    else Same(RelayOf(relay).Some? && RelayOf(relay).value.policyDecision == "fallback")
  }

  /** Commitments the contract approves for the request M received. */
  function ApprovedCommits(d: Delivery): set<Digest> {
    (if IDENTITY in d.contract.allowedRequestTransforms then {d.contract.reqCommit} else {})
    + (set t | t in d.expected && t in d.contract.allowedRequestTransforms :: d.expected[t])
  }

  function RequestCheck(d: Delivery, m: Receipt): Outcome {
    if m.requestCommit.Some? && m.requestCommit.value in ApprovedCommits(d) then Pass
    else if exists t | t in d.contract.allowedRequestTransforms :: t != IDENTITY && t !in d.expected then NotEvaluable
    else Fail
  }

  datatype Action = Accept | AcceptUnverified | Quarantine | Reject | RejectTimeout

  datatype Decision = Decision(mode: Mode, action: Action, checks: map<Check, Outcome>,
                               verdictStatus: Option<VerificationStatus>, receivedAt: int, decidedAt: int,
                               consumedAt: Option<int>, waited: int)

  /** The receipt's payload; another payload has none of a receipt's fields. */
  function ReceiptOf(s: Statement): Receipt {
    if s.payload.ReceiptPayload? then s.payload.m else Receipt("", None, None, None, None, None, "")
  }

  datatype UserGate = UserGate(S: Scheme<Message>, mode: Mode, trustedModelKeys: map<string, Bytes>,
                               refs: map<string, Digest>, allowTools: bool)
  {
    predicate SignedByModel(s: Statement) {
      s.kid in trustedModelKeys && S.verify(trustedModelKeys[s.kid], ToBeSigned(s), s.signature)
    }

    /** What each check says. */
    function Value(d: Delivery, c: Check): Outcome {
      var signed := d.receipt.Some? && SignedByModel(d.receipt.value);
      var m := if d.receipt.Some? then ReceiptOf(d.receipt.value) else Receipt("", None, None, None, None, None, "");
      match c
      case NotExpired => Same(d.now <= d.contract.expiresAt)
      case ReceiptPresent => Same(d.receipt.Some?)
      case ReceiptSignature => if d.receipt.None? then NotEvaluable else Same(signed)
      case NonceMatch => if !signed then NotEvaluable else Same(m.eatNonce == Some(d.contract.nonce))
      case RequestBinding => if !signed then NotEvaluable else RequestCheck(d, m)
      case ResponseBinding => if !signed then NotEvaluable else Same(m.responseCommit == Some(d.receivedCommit))
      case AttemptMatch =>
        if !signed then NotEvaluable
        else Same(d.receipt.value.payload.ReceiptPayload? && m.attemptId == d.contract.attemptId)
      case ModelHashReference =>
        if !signed || m.modelId.None? || m.modelId.value !in refs then NotEvaluable
        else Same(m.modelHash == Some(refs[m.modelId.value]))
      case RouteAllowed =>
        if signed then RouteCheck(d.contract, m.modelId, d.relay)
        else if d.receipt.Some? || d.relay.None? then NotEvaluable
        else
          var upstream := if RelayOf(d.relay).Some? then Some(RelayOf(d.relay).value.upstreamModel) else None;
          RouteCheck(d.contract, upstream, d.relay)
      case ToolPolicy => Same(!d.toolCall || allowTools)
    }

    /** Fills the table of checks. */
    method LocalChecks(d: Delivery) returns (checks: map<Check, Outcome>)
      ensures checks.Keys == LOCAL_CHECKS
      ensures forall c | c in checks :: checks[c] == Value(d, c)
    {
      hide Value, RouteCheck, RequestCheck;
      PlainValues(d);
      checks := ReceiptChecks(d);
      checks := checks[NotExpired := Same(d.now <= d.contract.expiresAt)];
      if d.receipt.None? {
        if d.relay.Some? {
          var upstream := if RelayOf(d.relay).Some? then Some(RelayOf(d.relay).value.upstreamModel) else None;
          checks := checks[RouteAllowed := RouteCheck(d.contract, upstream, d.relay)];
        } else {
          checks := checks[RouteAllowed := NotEvaluable];
        }
      }
      checks := checks[ToolPolicy := Same(!d.toolCall || allowTools)];
    }

    /** The checks that depend on the receipt. */
    method ReceiptChecks(d: Delivery) returns (checks: map<Check, Outcome>)
      ensures checks.Keys == LOCAL_CHECKS - {NotExpired, ToolPolicy} - if d.receipt.None? then {RouteAllowed} else {}
      ensures forall c | c in checks :: checks[c] == Value(d, c)
    {
      hide Value, RouteCheck, RequestCheck;
      PlainValues(d);
      if d.receipt.None? {
        checks := map c | c in NEED_SIGNATURE + {ReceiptSignature} :: NotEvaluable;
        checks := checks[ReceiptPresent := Fail];
        return;
      }
      var s := d.receipt.value;
      var signed := s.kid in trustedModelKeys && S.verify(trustedModelKeys[s.kid], ToBeSigned(s), s.signature);
      if signed {
        var bindings := BindingChecks(d);
        var model := ModelChecks(d);
        checks := bindings + model;
      } else {
        checks := map c | c in NEED_SIGNATURE + {RouteAllowed} :: NotEvaluable;
      }
      checks := checks[ReceiptPresent := Pass][ReceiptSignature := Same(signed)];
    }

    /** What a receipt with M's signature is bound to. */
    method BindingChecks(d: Delivery) returns (checks: map<Check, Outcome>)
      requires d.receipt.Some? && SignedByModel(d.receipt.value)
      ensures checks.Keys == {NonceMatch, RequestBinding, ResponseBinding, AttemptMatch}
      ensures forall c | c in checks :: checks[c] == Value(d, c)
    {
      hide Value, RouteCheck, RequestCheck;
      SignedValues(d);
      var m := ReceiptOf(d.receipt.value);
      var sameAttempt := d.receipt.value.payload.ReceiptPayload? && m.attemptId == d.contract.attemptId;
      checks := map[NonceMatch := Same(m.eatNonce == Some(d.contract.nonce)), RequestBinding := RequestCheck(d, m),
                    ResponseBinding := Same(m.responseCommit == Some(d.receivedCommit)),
                    AttemptMatch := Same(sameAttempt)];
    }

    /** Which model a receipt with M's signature names. */
    method ModelChecks(d: Delivery) returns (checks: map<Check, Outcome>)
      requires d.receipt.Some? && SignedByModel(d.receipt.value)
      ensures checks.Keys == {ModelHashReference, RouteAllowed}
      ensures forall c | c in checks :: checks[c] == Value(d, c)
    {
      hide Value, RouteCheck, RequestCheck;
      SignedValues(d);
      var m := ReceiptOf(d.receipt.value);
      var reference := if m.modelId.None? || m.modelId.value !in refs then NotEvaluable
                       else Same(m.modelHash == Some(refs[m.modelId.value]));
      checks := map[ModelHashReference := reference, RouteAllowed := RouteCheck(d.contract, m.modelId, d.relay)];
    }

    lemma PlainValues(d: Delivery)
      ensures Value(d, NotExpired) == Same(d.now <= d.contract.expiresAt)
      ensures Value(d, ReceiptPresent) == Same(d.receipt.Some?)
      ensures Value(d, ToolPolicy) == Same(!d.toolCall || allowTools)
      ensures d.receipt.Some? ==> Value(d, ReceiptSignature) == Same(SignedByModel(d.receipt.value))
      ensures d.receipt.None? ==> Value(d, ReceiptSignature) == NotEvaluable
      ensures d.receipt.None? || !SignedByModel(d.receipt.value) ==>
                forall c | c in NEED_SIGNATURE ::
                  Value(d, c) == NotEvaluable
      ensures d.receipt.Some? && !SignedByModel(d.receipt.value) ==> Value(d, RouteAllowed) == NotEvaluable
      ensures d.receipt.None? ==>
                Value(d, RouteAllowed) ==
                if d.relay.None? then NotEvaluable
                else RouteCheck(d.contract, if RelayOf(d.relay).Some? then Some(RelayOf(d.relay).value.upstreamModel)
                                            else None, d.relay)
    {
      hide RouteCheck, RequestCheck;
    }

    lemma SignedValues(d: Delivery)
      requires d.receipt.Some? && SignedByModel(d.receipt.value)
      ensures var m := ReceiptOf(d.receipt.value);
              Value(d, ReceiptPresent) == Pass && Value(d, ReceiptSignature) == Pass
              && Value(d, NonceMatch) == Same(m.eatNonce == Some(d.contract.nonce))
              && Value(d, RequestBinding) == RequestCheck(d, m)
              && Value(d, ResponseBinding) == Same(m.responseCommit == Some(d.receivedCommit))
              && Value(d, AttemptMatch) ==
                 Same(d.receipt.value.payload.ReceiptPayload? && m.attemptId == d.contract.attemptId)
              && Value(d, ModelHashReference) ==
                 (if m.modelId.None? || m.modelId.value !in refs then NotEvaluable
                  else Same(m.modelHash == Some(refs[m.modelId.value])))
              && Value(d, RouteAllowed) == RouteCheck(d.contract, m.modelId, d.relay)
    {
      hide RouteCheck, RequestCheck;
    }

    /** No check failed and every required one could be made. */
    predicate LocallySound(checks: map<Check, Outcome>) {
      forall c | c in checks :: checks[c] != Fail && (c in REQUIRED_LOCAL_CHECKS ==> checks[c] == Pass)
    }

    function Decide(checks: map<Check, Outcome>, receivedAt: int, now: int, verdictStatus: Option<VerificationStatus>,
                    deadlineHit: bool): (d: Decision)
      ensures d.action == Accept <==>
                mode != Observe && LocallySound(checks) && (mode == Strict ==> verdictStatus == Some(Passed))
      ensures d.action == Quarantine <==> mode != Observe && !LocallySound(checks)
      ensures d.action == RejectTimeout <==>
                mode == Strict && LocallySound(checks) && deadlineHit
                && verdictStatus != Some(Passed) && verdictStatus != Some(Failed)
      ensures d.consumedAt.Some? <==> d.action == Accept || d.action == AcceptUnverified
      ensures d.action == Accept ==> d.consumedAt.value == d.decidedAt == now
      ensures d.action == AcceptUnverified <==> mode == Observe
      ensures d.mode == mode && d.checks == checks && d.verdictStatus == verdictStatus
      ensures d.receivedAt == receivedAt && d.decidedAt == now
      ensures d.action != AcceptUnverified ==> d.waited == now - receivedAt
      ensures d.action == AcceptUnverified ==> d.waited == 0 && d.consumedAt == Some(receivedAt)
    {
      if mode == Observe then
        Decision(mode, AcceptUnverified, checks, verdictStatus, receivedAt, now, Some(receivedAt), 0)
      else if exists c | c in checks :: checks[c] == Fail then
        Decision(mode, Quarantine, checks, verdictStatus, receivedAt, now, None, now - receivedAt)
      else if exists c | c in checks :: checks[c] == NotEvaluable && c in REQUIRED_LOCAL_CHECKS then
        Decision(mode, Quarantine, checks, verdictStatus, receivedAt, now, None, now - receivedAt)
      else if mode == Protect then
        Decision(mode, Accept, checks, verdictStatus, receivedAt, now, Some(now), now - receivedAt)
      else
        assert mode.Strict?;
        if verdictStatus == Some(Passed) then
          Decision(mode, Accept, checks, verdictStatus, receivedAt, now, Some(now), now - receivedAt)
        else if verdictStatus == Some(Failed) then
          Decision(mode, Reject, checks, verdictStatus, receivedAt, now, None, now - receivedAt)
        else if deadlineHit then
          Decision(mode, RejectTimeout, checks, verdictStatus, receivedAt, now, None, now - receivedAt)
        else
          Decision(mode, Reject, checks, verdictStatus, receivedAt, now, None, now - receivedAt)
    }
  }
}

/** T's verdict in the fields of the statements: what fails it, what passes it, and what it records. */
module Verdicts {
  import opened Bytes
  import opened Options
  import opened Signatures
  import opened Statements
  import opened Log
  import opened Reconcile
  import opened Replay

  // ---- what the statements say ----------------------------------------------------------------------------

  /** M, or R if M does not say, names `d` as the commitment to the request that reached M. */
  ghost predicate Reached(x: Evidence, d: Digest) {
    if x.m.Some? && x.m.value.requestCommit.Some? then x.m.value.requestCommit.value == d
    else x.r.Some? && x.r.value.outCommit == d
  }

  /** `d` commits to U's request or to an allowed transform of it that U computed. */
  ghost predicate Allowed(x: Evidence, c: Contract, d: Digest) {
    exists t | t in c.allowedRequestTransforms ::
      if x.p.Some? && t in x.p.value.expected then x.p.value.expected[t] == d else t == "identity" && c.reqCommit == d
  }

  /** T can compute what every allowed transform leads to. */
  ghost predicate Decidable(x: Evidence, c: Contract) {
    forall t | t in c.allowedRequestTransforms :: t == "identity" || (t == "public-formatter-v1" && x.p.Some?)
  }

  /** M, or R if there is no receipt, names this model. */
  ghost predicate Ran(x: Evidence, modelId: Option<string>) {
    if x.m.Some? then x.m.value.modelId == modelId else x.r.Some? && Some(x.r.value.upstreamModel) == modelId
  }

  ghost predicate SaysAttempt(x: Evidence, id: string) {
    (x.c.Some? && x.c.value.attemptId == id) || (x.r.Some? && x.r.value.attemptId == id)
    || (x.m.Some? && x.m.value.attemptId == id) || (x.o.Some? && x.o.value.attemptId == id)
  }

  ghost predicate TwoStatements(x: Evidence) {
    (x.c.Some? && (x.r.Some? || x.m.Some? || x.o.Some?)) || (x.r.Some? && (x.m.Some? || x.o.Some?))
    || (x.m.Some? && x.o.Some?)
  }

  ghost function ResponseTransforms(x: Evidence): seq<string> {
    if x.c.Some? then x.c.value.allowedResponseTransforms else ["identity"]
  }

  /** Two of the parties, or a party and the contract, disagree. */
  ghost predicate Disagree(H: Hash, x: Evidence, e: Equation) {
    match e
    case E1 => x.c.Some? && x.p.Some? && x.c.value.reqCommit != H(x.p.value.salt + x.p.value.requestHash)
    case E2 => x.c.Some? && x.r.Some? && x.r.value.inCommit != x.c.value.reqCommit
    case E3 =>
      x.r.Some? && x.m.Some? && x.m.value.requestCommit.Some? && x.m.value.requestCommit.value != x.r.value.outCommit
    case E4 =>
      x.c.Some? && exists d :: (
        Reached(x, d) && ((x.r.Some? && x.r.value.requestTransformId !in x.c.value.allowedRequestTransforms)
                          || (Decidable(x, x.c.value) && !Allowed(x, x.c.value, d))))
    case E5 =>
      x.c.Some? && ((x.m.Some? && x.m.value.eatNonce != Some(x.c.value.nonce))
                    || (x.r.Some? && x.r.value.nonceForwarded != Some(x.c.value.nonce)))
    case E6 =>
      x.m.Some? && x.r.Some? && x.m.value.responseCommit.Some? && x.r.value.respInCommit.Some?
      && x.m.value.responseCommit != x.r.value.respInCommit
    case E7 =>
      x.r.Some? && x.o.Some? && x.r.value.respOutCommit.Some? && x.r.value.respOutCommit.value != x.o.value.respCommit
    case E8 =>
      x.c.Some? && exists modelId :: (
        Ran(x, modelId) && modelId != Some(x.c.value.requestedModel)
        && (modelId.None? || modelId.value !in x.c.value.allowedModels || x.c.value.fallbackPolicy == "none"
            || (x.r.Some? && x.r.value.policyDecision != "fallback")))
    case E9 =>
      x.m.Some? && x.m.value.modelId.Some? && x.m.value.modelId.value in x.refs
      && x.m.value.modelHash != Some(x.refs[x.m.value.modelId.value])
    case E10 =>
      x.m.Some? && x.o.Some? && x.m.value.responseCommit.Some?
      && ((x.r.Some? && x.r.value.responseTransformId !in ResponseTransforms(x))
          || (ResponseTransforms(x) == ["identity"] && x.m.value.responseCommit.value != x.o.value.respCommit))
    case E11 => exists a, b :: SaysAttempt(x, a) && SaysAttempt(x, b) && a != b
    case E12 => x.c.Some? && x.o.Some? && x.o.value.receivedAt > x.c.value.expiresAt
  }

  /** What has to be said, has been said, and agrees. */
  ghost predicate Agree(H: Hash, x: Evidence, e: Equation) {
    match e
    case E1 => x.c.Some? && x.p.Some? && x.c.value.reqCommit == H(x.p.value.salt + x.p.value.requestHash)
    case E2 => x.c.Some? && x.r.Some? && x.r.value.inCommit == x.c.value.reqCommit
    case E3 => x.r.Some? && x.m.Some? && x.m.value.requestCommit == Some(x.r.value.outCommit)
    case E4 =>
      x.c.Some? && (exists d :: Reached(x, d) && Allowed(x, x.c.value, d))
      && (x.r.Some? ==> x.r.value.requestTransformId in x.c.value.allowedRequestTransforms)
    case E5 =>
      x.c.Some? && (x.m.Some? || x.r.Some?) && (x.m.Some? ==> x.m.value.eatNonce == Some(x.c.value.nonce))
      && (x.r.Some? ==> x.r.value.nonceForwarded == Some(x.c.value.nonce))
    case E6 =>
      x.m.Some? && x.r.Some? && x.m.value.responseCommit.Some? && x.m.value.responseCommit == x.r.value.respInCommit
    case E7 => x.r.Some? && x.o.Some? && x.r.value.respOutCommit == Some(x.o.value.respCommit)
    case E8 =>
      x.c.Some? && exists modelId :: (
        Ran(x, modelId)
        && (modelId == Some(x.c.value.requestedModel)
            || (modelId.Some? && modelId.value in x.c.value.allowedModels && x.c.value.fallbackPolicy != "none"
                && x.r.Some? && x.r.value.policyDecision == "fallback")))
    case E9 =>
      x.m.Some? && x.m.value.modelId.Some? && x.m.value.modelId.value in x.refs
      && x.m.value.modelHash == Some(x.refs[x.m.value.modelId.value])
    case E10 =>
      x.m.Some? && x.o.Some? && x.m.value.responseCommit == Some(x.o.value.respCommit)
      && ResponseTransforms(x) == ["identity"] && (x.r.Some? ==> x.r.value.responseTransformId == "identity")
    case E11 => TwoStatements(x) && forall a, b | SaysAttempt(x, a) && SaysAttempt(x, b) :: a == b
    case E12 => x.c.Some? && x.o.Some? && x.o.value.receivedAt <= x.c.value.expiresAt
  }

  // ---- the equations, exactly --------------------------------------------------------------------------------

  /** An equation fails exactly on a disagreement, and passes exactly on an agreement. */
  lemma EquationExactly(H: Hash, x: Evidence, e: Equation)
    ensures Evaluate(H, x, e) == Fail <==> Disagree(H, x, e)
    ensures Evaluate(H, x, e) == Pass <==> Agree(H, x, e)
  {
    match e
    case E4 => TransformExactly(H, x);
    case E8 => RouteExactly(H, x);
    case E11 => AttemptsExactly(H, x);
    case _ =>
  }

  lemma ApprovedExactly(x: Evidence, c: Contract, d: Digest)
    ensures d in Approved(x, c).Values <==> Allowed(x, c, d)
  {
    var a := Approved(x, c);
    if Allowed(x, c, d) {
      var t :| t in c.allowedRequestTransforms
               && if x.p.Some? && t in x.p.value.expected then x.p.value.expected[t] == d
                  else t == "identity" && c.reqCommit == d;
      assert t in a && a[t] == d;
    }
    if d in a.Values {
      var t :| t in a && a[t] == d;
      assert t in c.allowedRequestTransforms;
    }
  }

  lemma TransformExactly(H: Hash, x: Evidence)
    ensures EvalRequestTransform(x) == Fail <==> Disagree(H, x, E4)
    ensures EvalRequestTransform(x) == Pass <==> Agree(H, x, E4)
  {
    hide Approved;
    if x.c.Some? {
      forall d ensures d in Approved(x, x.c.value).Values <==> Allowed(x, x.c.value, d) {
        ApprovedExactly(x, x.c.value, d);
      }
      hide Allowed;
      if x.m.Some? && x.m.value.requestCommit.Some? {
        assert Reached(x, x.m.value.requestCommit.value);
      } else if x.r.Some? {
        assert Reached(x, x.r.value.outCommit);
      }
    }
  }

  lemma RouteExactly(H: Hash, x: Evidence)
    ensures EvalRoute(x) == Fail <==> Disagree(H, x, E8)
    ensures EvalRoute(x) == Pass <==> Agree(H, x, E8)
  {
    if x.m.Some? {
      assert Ran(x, x.m.value.modelId);
    } else if x.r.Some? {
      assert Ran(x, Some(x.r.value.upstreamModel));
    }
  }

  lemma AttemptsExactly(H: Hash, x: Evidence)
    ensures Evaluate(H, x, E11) == Fail <==> Disagree(H, x, E11)
    ensures Evaluate(H, x, E11) == Pass <==> Agree(H, x, E11)
  {
    var ids := AttemptIds(x);
    forall id ensures id in ids <==> SaysAttempt(x, id) {
    }
    assert |ids| >= 2 <==> TwoStatements(x);
    if |ids| > 0 {
      assert ids[0] in ids;
      assert forall i | 0 <= i < |ids| :: ids[i] in ids;
    }
  }

  // ---- the verdict, exactly -----------------------------------------------------------------------------------

  /** R showed U another receipt than the one that M registered. */
  ghost predicate ShownAnother(g: Engine, ev: Gathered) {
    ev.observation.Some? && ev.observation.value.payload.ObservationPayload? && ev.source == Registered
    && ev.receipt.Some? && ev.observation.value.payload.o.presentedReceipt.Some?
    && g.E.H(g.E.signedBytes(ev.observation.value.payload.o.presentedReceipt.value))
       != g.E.H(g.E.signedBytes(ev.receipt.value))
  }

  /** Something speaks against the request. */
  ghost predicate Objection(g: Engine, ev: Gathered, x: Evidence) {
    ev.invalid != [] || ev.unauthorized != [] || ShownAnother(g, ev) || exists e :: Disagree(g.E.H, x, e)
  }

  /** "Failed" is exactly an objection; "passed" is none, and agreement where it is required. */
  lemma StatusExactly(g: Engine, ev: Gathered, x: Evidence)
    ensures Status(g, ev, x) == Failed <==> Objection(g, ev, x)
    ensures Status(g, ev, x) == Passed <==>
              !Objection(g, ev, x) && forall e | e in {E1, E4, E5, E8, E9, E10, E11, E12} :: Agree(g.E.H, x, e)
  {
    hide Evaluate, Disagree, Agree;
    forall e ensures Evaluate(g.E.H, x, e) == Fail <==> Disagree(g.E.H, x, e)
             ensures Evaluate(g.E.H, x, e) == Pass <==> Agree(g.E.H, x, e)
    {
      EquationExactly(g.E.H, x, e);
    }
    assert PresentedDiffers(g, ev) <==> ShownAnother(g, ev);
  }

  /** An allowed model ran that the contract did not ask for, and R did not say so. */
  ghost predicate HiddenRoute(x: Evidence) {
    x.c.Some? && exists id: string :: (
      Ran(x, Some(id)) && id != x.c.value.requestedModel && id in x.c.value.allowedModels
      && x.c.value.fallbackPolicy != "none" && x.r.Some? && x.r.value.policyDecision != "fallback")
  }

  lemma HiddenRouteExactly(x: Evidence)
    ensures Route(x) == UndeclaredFallback <==> HiddenRoute(x)
  {
    if x.m.Some? && x.m.value.modelId.Some? {
      assert Ran(x, Some(x.m.value.modelId.value));
    } else if x.m.None? && x.r.Some? {
      assert Ran(x, Some(x.r.value.upstreamModel));
    }
  }

  /** A disagreement is recorded under this name. */
  ghost predicate Recorded(H: Hash, x: Evidence, e: Equation, code: string) {
    Disagree(H, x, e) &&
    match e
    case E1 => code == "D-USER-SELF"
    case E2 => code == "D-REQ-CONTRADICT"
    case E3 => code == "D-REQ-CONTRADICT"
    case E4 => code == "D-REQ-UNAPPROVED"
    case E5 => code == "D-NONCE"
    case E6 => code == "D-RESP-CONTRADICT"
    case E7 => code == "D-RESP-CONTRADICT"
    case E8 => if HiddenRoute(x) then code == "D-ROUTE-UNDECLARED" else code == "D-ROUTE-UNAPPROVED"
    case E9 => code == "D-MODEL-ART"
    case E10 => code == "D-RESP-UNAPPROVED"
    case E11 => code == "D-ATTEMPT-MISMATCH"
    case E12 => code == "D-EXPIRED"
  }

  lemma RecordedExactly(H: Hash, x: Evidence, e: Equation, code: string)
    ensures Recorded(H, x, e, code) <==> Evaluate(H, x, e) == Fail && CodeOf(x, e) == code
  {
    hide Evaluate, Disagree, Agree, Route, HiddenRoute;
    EquationExactly(H, x, e);
    HiddenRouteExactly(x);
  }

  lemma {:induction false} CodesCounted(H: Hash, x: Evidence, es: seq<Equation>, code: string)
    requires forall i, j | 0 <= i < j < |es| :: es[i] != es[j]
    ensures FailureCodes(H, x, es)[code] == |set e | e in es && Recorded(H, x, e, code)|
  {
    hide Recorded, Evaluate, CodeOf;
    if es != [] {
      CodesCounted(H, x, es[1..], code);
      RecordedExactly(H, x, es[0], code);
      hide FailureCodes;
      OneMoreCounted(H, x, es, code);
      FirstCode(H, x, es, code);
    }
  }

  lemma FirstCode(H: Hash, x: Evidence, es: seq<Equation>, code: string)
    requires es != []
    ensures FailureCodes(H, x, es)[code] ==
            (if Evaluate(H, x, es[0]) == Fail && CodeOf(x, es[0]) == code then 1 else 0)
            + FailureCodes(H, x, es[1..])[code]
  {
    hide Evaluate, CodeOf;
  }

  lemma OneMoreCounted(H: Hash, x: Evidence, es: seq<Equation>, code: string)
    requires es != [] && es[0] !in es[1..]
    ensures |set e | e in es && Recorded(H, x, e, code)| ==
            |set e | e in es[1..] && Recorded(H, x, e, code)| + if Recorded(H, x, es[0], code) then 1 else 0
  {
    hide Recorded;
    var rest, all := (set e | e in es[1..] && Recorded(H, x, e, code)), (set e | e in es && Recorded(H, x, e, code));
    assert forall e :: e in es <==> e == es[0] || e in es[1..];
    assert all == rest + if Recorded(H, x, es[0], code) then {es[0]} else {};
  }

  /** A discrepancy is recorded once for each disagreement of its name. */
  lemma CodesExactly(H: Hash, x: Evidence, code: string)
    ensures FailureCodes(H, x, ALL_EQUATIONS)[code] == |set e: Equation | Recorded(H, x, e, code)|
  {
    hide Recorded, FailureCodes;
    AllListed();
    CodesCounted(H, x, ALL_EQUATIONS, code);
    assert (set e | e in ALL_EQUATIONS && Recorded(H, x, e, code)) == (set e: Equation | Recorded(H, x, e, code));
  }

  ghost predicate AllRegistered(ev: Gathered) {
    ev.contract.Some? && ev.observation.Some? && ev.relay.Some? && ev.receipt.Some?
  }

  /** A signed refusal explains what is missing behind it. */
  ghost predicate Excused(ev: Gathered, x: Evidence) {
    ev.contract.Some? && ev.relay.Some?
    && ((x.r.Some? && x.r.value.policyDecision == "refused")
        || (ev.receipt.Some? && x.m.Some? && x.m.value.decision == "refused"))
  }

  lemma CompletenessExactly(ev: Gathered, x: Evidence)
    ensures Completeness(x, MissingEvidence(ev, PARTIES)) ==
            if AllRegistered(ev) then "complete" else if Excused(ev, x) then "not_observable" else "gap"
  {
    var missing := MissingEvidence(ev, PARTIES);
    assert "U.contract" in missing <==> ev.contract.None?;
    assert "U.observation" in missing <==> ev.observation.None?;
    assert "R.relay" in missing <==> ev.relay.None?;
    assert "M.receipt" in missing <==> ev.receipt.None?;
  }

  ghost predicate Delayed(g: Engine, ev: Gathered, x: Evidence) {
    x.c.Some? && exists s: Statement, at: int :: (s, Some(at)) in ev.refs && at > x.c.value.clientTime + g.lateThreshold
  }

  lemma LateExactly(g: Engine, ev: Gathered, x: Evidence)
    ensures Late(g, ev, x) <==> Delayed(g, ev, x)
  {
    if Late(g, ev, x) {
      var ref :| ref in ev.refs && ref.1.Some? && ref.1.value - x.c.value.clientTime > g.lateThreshold;
      assert (ref.0, Some(ref.1.value)) in ev.refs;
    }
  }

  /** How often T records a discrepancy. */
  ghost function TimesRecorded(g: Engine, ev: Gathered, x: Evidence, code: string): nat {
    |set e: Equation | Recorded(g.E.H, x, e, code)|
    + (if code == "D-SIG-INVALID" then |ev.invalid| else 0)
    + (if code == "D-ISSUER-UNAUTHORIZED" then |ev.unauthorized| else 0)
    + (if code == "D-RECEIPT-PRESENTED-DIFFERS" && ShownAnother(g, ev) then 1 else 0)
    + (if code == "D-GAP" && !AllRegistered(ev) && !Excused(ev, x) then 1 else 0)
    + (if code == "D-LATE" && Delayed(g, ev, x) then 1 else 0)
  }

  /** Everything T concludes from the evidence it gathered. */
  lemma VerdictExactly(g: Engine, entries: seq<LogEntry>, p: Option<PrivateEvidence>, code: string)
    ensures var ev := UsePresented(g, GatherAll(g, entries));
            var x, v := EvidenceOf(g, ev, p), Judge(g, entries, p, PARTIES);
            (v.status == Failed <==> Objection(g, ev, x))
            && (v.status == Passed <==>
                  !Objection(g, ev, x) && forall e | e in {E1, E4, E5, E8, E9, E10, E11, E12} :: Agree(g.E.H, x, e))
            && v.completeness ==
               (if AllRegistered(ev) then "complete" else if Excused(ev, x) then "not_observable" else "gap")
            && v.codes[code] == TimesRecorded(g, ev, x, code)
    ensures var ev := UsePresented(g, GatherAll(g, entries));
            var x, v := EvidenceOf(g, ev, p), Judge(g, entries, p, PARTIES);
            forall e :: e in v.equations && (v.equations[e] == Fail <==> Disagree(g.E.H, x, e))
                        && (v.equations[e] == Pass <==> Agree(g.E.H, x, e))
  {
    hide *;
    var ev := UsePresented(g, GatherAll(g, entries));
    var x := EvidenceOf(g, ev, p);
    JudgeFields(g, entries, p);
    StatusExactly(g, ev, x);
    CompletenessExactly(ev, x);
    forall e ensures Evaluate(g.E.H, x, e) == Fail <==> Disagree(g.E.H, x, e)
             ensures Evaluate(g.E.H, x, e) == Pass <==> Agree(g.E.H, x, e)
    {
      EquationExactly(g.E.H, x, e);
    }
    CodesExactly(g.E.H, x, code);
    OtherCodesExactly(g, ev, x, code);
  }

  lemma OtherCodesExactly(g: Engine, ev: Gathered, x: Evidence, code: string)
    ensures |set e: Equation | Recorded(g.E.H, x, e, code)| + OtherCodes(g, ev, x)[code]
            == TimesRecorded(g, ev, x, code)
  {
    hide Recorded, Completeness, Late, Delayed, AllRegistered, Excused;
    CompletenessExactly(ev, x);
    LateExactly(g, ev, x);
    assert PresentedDiffers(g, ev) <==> ShownAnother(g, ev);
  }

  /** A verdict names what it was judged by, and the hash of each statement that it was judged from. */
  lemma EvidenceNamed(g: Engine, entries: seq<LogEntry>, p: Option<PrivateEvidence>)
    ensures var ev, v := UsePresented(g, GatherAll(g, entries)), Judge(g, entries, p, PARTIES);
            v.policyHash == g.policyHash && v.checkerVersion == g.checkerVersion && v.keysVersion == g.keysVersion
            && |v.evidence| == |ev.refs|
            && forall h :: h in v.evidence <==>
                 exists i :: 0 <= i < |ev.refs| && h == g.E.H(g.E.signedBytes(ev.refs[i].0))
  {
    hide GatherAll, UsePresented, Status, Completeness, FailureCodes, Evaluate, Late, PresentedDiffers, EvidenceOf;
    var ev, v := UsePresented(g, GatherAll(g, entries)), Judge(g, entries, p, PARTIES);
    var hashes := seq(|ev.refs|, i requires 0 <= i < |ev.refs| => StatementHash(g.E, ev.refs[i].0));
    assert v.evidence == multiset(hashes);
    forall h ensures h in v.evidence <==> exists i :: 0 <= i < |ev.refs| && h == g.E.H(g.E.signedBytes(ev.refs[i].0)) {
      assert h in v.evidence <==> h in hashes;
      if i :| 0 <= i < |ev.refs| && h == g.E.H(g.E.signedBytes(ev.refs[i].0)) {
        assert hashes[i] == h;
      }
    }
  }
}

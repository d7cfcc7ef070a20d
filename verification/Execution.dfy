/**
  M answers a request at most once. Executions and nonces are durable; the process may stop between any
  two writes, and the caller may retry, reorder and reuse identifiers as it likes.
 */
module Execution {
  import opened Bytes
  import opened Options
  import opened Signatures
  import opened Statements
  import opened Log
  import opened Reconcile

  /** An authenticated inference call: U's contract, its request identifier, and the body with its salt. */
  datatype Request = Request(sub: string, contract: Contract, body: Bytes, salt: Digest)

  datatype Result = Result(response: Bytes, receipt: Statement)

  /** `ser` serialises contract, body and salt; `wellFormed` is the check of prompt, salt and relay. */
  datatype Config = Config(H: Hash, S: Scheme<Message>, key: KeyPair, iss: string, modelId: string, modelHash: Digest,
                           ser: Request -> Bytes, wellFormed: Request -> bool, preExec: bool, maxRequests: nat)

  /** The contract asks for M's only model, and for no transform. */
  predicate Supported(c: Config, q: Request) {
    c.wellFormed(q) && q.contract.requestedModel == c.modelId && q.contract.allowedModels == [c.modelId]
    && q.contract.allowedRequestTransforms == [IDENTITY] && q.contract.allowedResponseTransforms == [IDENTITY]
    && q.contract.fallbackPolicy == "none"
  }

  predicate BodyCommitted(c: Config, q: Request) { Commit(c.H, q.salt, c.H(q.body)) == q.contract.reqCommit }

  /** M's receipt for `output`. */
  function ReceiptOf(c: Config, q: Request, output: Bytes, at: int): Statement {
    IssueStatement(c.S, c.key, c.iss, q.sub, CT_RECEIPT,
                   ReceiptPayload(Receipt(q.contract.attemptId, Some(Commit(c.H, q.salt, c.H(q.body))),
                                          Some(Commit(c.H, q.salt, c.H(output))), Some(c.modelId), Some(c.modelHash),
                                          Some(q.contract.nonce), "served")), at)
  }

  function Binding(c: Config, q: Request): Digest { c.H(c.ser(q)) }

  /** A stored execution; without a result it is merely started. */
  datatype Execution = Execution(binding: Digest, result: Option<Result>)

  /** One run of the model: what it was given, and what it said, if anything. */
  datatype Run = Run(q: Request, output: Option<Bytes>)

  /** The durable state, and what M has done in the world. */
  datatype State = State(executions: map<string, Execution>, nonces: map<Bytes, string>, runs: seq<Run>,
                         queued: seq<Statement>)

  datatype Stop = Never | AfterClaim | AfterStart | AfterRun | AfterQueue

  /** What the surroundings decide: whether the epoch is active, the clock, the queue, the model, and a crash. */
  datatype World = World(active: bool, now: int, pending: nat, model: Option<Bytes>, stop: Stop)

  datatype Reply =
    | Refused | ReusedIdentifier | OutcomeUnknown | AtCapacity | NonceConsumed  // nothing was written
    | Stopped | QueueFull | Rejected | ModelFailed                              // the request is spent
    | Replayed(result: Result) | Served(result: Result)

  predicate Answered(r: Reply) { r.Replayed? || r.Served? }

  class Executor {
    const c: Config
    var executions: map<string, Execution>
    var nonces: map<Bytes, string>
    ghost var runs: seq<Run>
    ghost var queued: seq<Statement>

    ghost function Now(): State
      reads this
    {
      State(executions, nonces, runs, queued)
    }

    constructor (c: Config)
      ensures this.c == c && Now() == EMPTY
    {
      this.c := c;
      executions, nonces, runs, queued := map[], map[], [], [];
    }

    /** `infer`, in the role of M. Calls are serialised by the service's lock. */
    method Infer(q: Request, w: World) returns (reply: Reply)
      modifies this
      ensures reply == ReplyTo(c, old(Now()), q, w)
      ensures Now() == Step(c, old(Now()), q, w)
    {
      hide Binding, ResultOf, Supported, BodyCommitted;
      ghost var s := Now();
      if !w.active || !Supported(c, q) || q.contract.expiresAt < w.now {
        return Refused;
      }
      var binding := Binding(c, q);
      if q.sub in executions {
        var previous := executions[q.sub];
        if previous.binding != binding {
          return ReusedIdentifier;
        }
        if previous.result == None {
          return OutcomeUnknown;
        }
        return Replayed(previous.result.value);
      }
      if |executions| >= c.maxRequests {
        return AtCapacity;
      }
      if q.contract.nonce in nonces {
        return NonceConsumed;
      }
      assert Admitted(c, s, q, w);
      nonces := nonces[q.contract.nonce := q.sub];
      if w.stop == AfterClaim {
        return Stopped;
      }
      executions := executions[q.sub := Execution(binding, None)];
      if w.stop == AfterStart {
        return Stopped;
      }
      if w.pending >= 250 {
        return QueueFull;
      }
      if c.preExec && !BodyCommitted(c, q) {
        return Rejected;
      }
      assert Runs(c, s, q, w);
      runs := runs + [Run(q, w.model)];
      if w.model == None {
        return ModelFailed;
      }
      if w.stop == AfterRun {
        return Stopped;
      }
      var result := ResultOf(c, q, w);
      queued := queued + [result.receipt];
      if w.stop == AfterQueue {
        return Stopped;
      }
      executions := executions[q.sub := Execution(binding, Some(result))];
      assert executions == s.executions[q.sub := Execution(binding, Some(result))];
      return Served(result);
    }
  }

  // ---- specification -----------------------------------------------------------------------------------

  const EMPTY := State(map[], map[], [], [])

  /** The call gets past every check that can still turn it away unspent. */
  predicate Admitted(c: Config, s: State, q: Request, w: World) {
    w.active && Supported(c, q) && q.contract.expiresAt >= w.now
    && q.sub !in s.executions && |s.executions| < c.maxRequests && q.contract.nonce !in s.nonces
  }

  predicate Starts(c: Config, s: State, q: Request, w: World) { Admitted(c, s, q, w) && w.stop != AfterClaim }

  predicate Runs(c: Config, s: State, q: Request, w: World) {
    Starts(c, s, q, w) && w.stop != AfterStart && w.pending < 250
    && (c.preExec ==> BodyCommitted(c, q))
  }

  predicate Queues(c: Config, s: State, q: Request, w: World) {
    Runs(c, s, q, w) && w.model.Some? && w.stop != AfterRun
  }

  predicate Completes(c: Config, s: State, q: Request, w: World) { Queues(c, s, q, w) && w.stop != AfterQueue }

  function ResultOf(c: Config, q: Request, w: World): Result
    requires w.model.Some?
  {
    Result(w.model.value, ReceiptOf(c, q, w.model.value, w.now))
  }

  ghost function Step(c: Config, s: State, q: Request, w: World): State {
    State(
      if !Starts(c, s, q, w) then s.executions
      else
        var result := if Completes(c, s, q, w) then Some(ResultOf(c, q, w)) else None;
        s.executions[q.sub := Execution(Binding(c, q), result)],
      if Admitted(c, s, q, w) then s.nonces[q.contract.nonce := q.sub] else s.nonces,
      if Runs(c, s, q, w) then s.runs + [Run(q, w.model)] else s.runs,
      if Queues(c, s, q, w) then s.queued + [ResultOf(c, q, w).receipt] else s.queued)
  }

  function ReplyTo(c: Config, s: State, q: Request, w: World): Reply {
    if Completes(c, s, q, w) then Served(ResultOf(c, q, w))
    else if Runs(c, s, q, w) then if w.model == None then ModelFailed else Stopped
    else if Starts(c, s, q, w) then
      if w.stop == AfterStart then Stopped else if w.pending >= 250 then QueueFull else Rejected
    else if Admitted(c, s, q, w) then Stopped
    else if !w.active || !Supported(c, q) || q.contract.expiresAt < w.now then Refused
    else if q.sub in s.executions then
      var previous := s.executions[q.sub];
      if previous.binding != Binding(c, q) then ReusedIdentifier
      else if previous.result == None then OutcomeUnknown else Replayed(previous.result.value)
    else if |s.executions| >= c.maxRequests then AtCapacity
    else NonceConsumed
  }

  datatype Call = Call(q: Request, w: World)

  /** The state after a sequence of calls: any calls, with any crashes between their writes. */
  ghost function After(c: Config, calls: seq<Call>): State {
    if calls == [] then EMPTY
    else var last := calls[|calls| - 1]; Step(c, After(c, calls[..|calls| - 1]), last.q, last.w)
  }

  ghost function ReplyAt(c: Config, calls: seq<Call>, i: nat): Reply
    requires i < |calls|
  {
    ReplyTo(c, After(c, calls[..i]), calls[i].q, calls[i].w)
  }

  ghost predicate RunsAt(c: Config, calls: seq<Call>, i: nat)
    requires i < |calls|
  {
    Runs(c, After(c, calls[..i]), calls[i].q, calls[i].w)
  }

  /** Call `i` consumed its nonce. */
  ghost predicate ClaimsAt(c: Config, calls: seq<Call>, i: nat)
    requires i < |calls|
  {
    Admitted(c, After(c, calls[..i]), calls[i].q, calls[i].w)
  }

  ghost predicate StartsAt(c: Config, calls: seq<Call>, i: nat)
    requires i < |calls|
  {
    Starts(c, After(c, calls[..i]), calls[i].q, calls[i].w)
  }

  // ---- main results ------------------------------------------------------------------------------------

  lemma Unfold(c: Config, calls: seq<Call>, i: nat)
    requires i < |calls|
    ensures After(c, calls[..i + 1]) == Step(c, After(c, calls[..i]), calls[i].q, calls[i].w)
  {
    assert calls[..i + 1][..i] == calls[..i];
  }

  ghost predicate Keeps(s: State, t: State) {
    (forall sub | sub in s.executions :: sub in t.executions && t.executions[sub] == s.executions[sub])
    && (forall nonce | nonce in s.nonces :: nonce in t.nonces && t.nonces[nonce] == s.nonces[nonce])
  }

  lemma StepKeeps(c: Config, s: State, q: Request, w: World)
    ensures Keeps(s, Step(c, s, q, w))
  {
    hide Binding, Completes, ResultOf;
  }

  /** What is once stored for an identifier or a nonce never changes. */
  lemma {:induction false} Frozen(c: Config, calls: seq<Call>, i: nat, j: nat)
    requires i <= j <= |calls|
    ensures Keeps(After(c, calls[..i]), After(c, calls[..j]))
    decreases j
  {
    hide Step, After;
    if i < j {
      Frozen(c, calls, i, j - 1);
      Unfold(c, calls, j - 1);
      StepKeeps(c, After(c, calls[..j - 1]), calls[j - 1].q, calls[j - 1].w);
    }
  }

  /** The model runs at most once per identifier, and a nonce is consumed by at most one call. */
  lemma AtMostOnce(c: Config, calls: seq<Call>, i: nat, j: nat)
    requires i < j < |calls|
    ensures calls[i].q.sub == calls[j].q.sub && StartsAt(c, calls, i) ==> !RunsAt(c, calls, j) && !StartsAt(c, calls, j)
    ensures calls[i].q.contract.nonce == calls[j].q.contract.nonce && ClaimsAt(c, calls, i) ==> !ClaimsAt(c, calls, j)
  {
    Unfold(c, calls, i);
    Frozen(c, calls, i + 1, j);
  }

  /** An execution that began without completing is never run again and never answered. */
  lemma InterruptedStaysUnknown(c: Config, calls: seq<Call>, i: nat, j: nat)
    requires i < j < |calls| && calls[i].q.sub == calls[j].q.sub
    requires StartsAt(c, calls, i) && !ReplyAt(c, calls, i).Served?
    ensures !RunsAt(c, calls, j) && !Answered(ReplyAt(c, calls, j))
  {
    Unfold(c, calls, i);
    Frozen(c, calls, i + 1, j);
  }

  /** A call stopped between consuming its nonce and recording the start is not rerun either. */
  lemma BurntNonceStaysBurnt(c: Config, calls: seq<Call>, i: nat, j: nat)
    requires i < j < |calls| && calls[i].q == calls[j].q && ClaimsAt(c, calls, i)
    ensures !RunsAt(c, calls, j)
  {
    AtMostOnce(c, calls, i, j);
  }

  lemma AnswerIsStored(c: Config, calls: seq<Call>, i: nat)
    requires i < |calls| && Answered(ReplyAt(c, calls, i))
    ensures var t, q := After(c, calls[..i + 1]), calls[i].q;
            q.sub in t.executions && t.executions[q.sub] == Execution(Binding(c, q), Some(ReplyAt(c, calls, i).result))
  {
    Unfold(c, calls, i);
  }

  /** Every answer for an identifier is the same answer, to the same contract, body and salt. */
  lemma SameAnswer(c: Config, calls: seq<Call>, i: nat, j: nat)
    requires i < j < |calls| && calls[i].q.sub == calls[j].q.sub
    requires Answered(ReplyAt(c, calls, i)) && Answered(ReplyAt(c, calls, j))
    ensures ReplyAt(c, calls, i).result == ReplyAt(c, calls, j).result
    ensures CollisionFree(c.H, {c.ser(calls[i].q), c.ser(calls[j].q)}) ==> c.ser(calls[i].q) == c.ser(calls[j].q)
  {
    hide Step, ReplyTo, After;
    AnswerIsStored(c, calls, i);
    AnswerIsStored(c, calls, j);
    Frozen(c, calls, i + 1, j + 1);
  }

  lemma StepStores(c: Config, s: State, q: Request, w: World, sub: string, nonce: Bytes)
    ensures sub in Step(c, s, q, w).executions <==> sub in s.executions || (q.sub == sub && Starts(c, s, q, w))
    ensures nonce in Step(c, s, q, w).nonces
            <==> nonce in s.nonces || (q.contract.nonce == nonce && Admitted(c, s, q, w))
  {
    hide Admitted, Starts, Completes, Binding;
  }

  /** An identifier is stored exactly if some earlier call started it. */
  lemma {:induction false} StartedExactly(c: Config, calls: seq<Call>, j: nat, sub: string)
    requires j <= |calls|
    ensures sub in After(c, calls[..j]).executions
            <==> exists i :: 0 <= i < j && calls[i].q.sub == sub && StartsAt(c, calls, i)
    decreases j
  {
    hide Starts, Step;
    if j > 0 {
      StartedExactly(c, calls, j - 1, sub);
      Unfold(c, calls, j - 1);
      StepStores(c, After(c, calls[..j - 1]), calls[j - 1].q, calls[j - 1].w, sub, []);
    }
  }

  /** A nonce is stored exactly if some earlier call consumed it. */
  lemma {:induction false} ClaimedExactly(c: Config, calls: seq<Call>, j: nat, nonce: Bytes)
    requires j <= |calls|
    ensures nonce in After(c, calls[..j]).nonces
            <==> exists i :: 0 <= i < j && calls[i].q.contract.nonce == nonce && ClaimsAt(c, calls, i)
    decreases j
  {
    hide Admitted, Step;
    if j > 0 {
      ClaimedExactly(c, calls, j - 1, nonce);
      Unfold(c, calls, j - 1);
      StepStores(c, After(c, calls[..j - 1]), calls[j - 1].q, calls[j - 1].w, "", nonce);
    }
  }

  /** An earlier call for this identifier, with the same contract, body and salt, was served. */
  ghost predicate ServedBefore(c: Config, calls: seq<Call>, j: nat)
    requires j < |calls|
  {
    exists k :: 0 <= k < j && calls[k].q.sub == calls[j].q.sub && ReplyAt(c, calls, k).Served?
                && Binding(c, calls[k].q) == Binding(c, calls[j].q)
  }

  ghost predicate HoldsResult(s: State, sub: string, binding: Digest) {
    sub in s.executions && s.executions[sub].result.Some? && s.executions[sub].binding == binding
  }

  lemma StepCompletes(c: Config, s: State, q: Request, w: World, sub: string, binding: Digest)
    ensures HoldsResult(Step(c, s, q, w), sub, binding)
            <==> HoldsResult(s, sub, binding) || (q.sub == sub && Completes(c, s, q, w) && Binding(c, q) == binding)
    ensures ReplyTo(c, s, q, w).Served? <==> Completes(c, s, q, w)
  {
    hide Binding;
  }

  lemma {:induction false} ResultExactly(c: Config, calls: seq<Call>, j: nat, sub: string, binding: Digest)
    requires j <= |calls|
    ensures HoldsResult(After(c, calls[..j]), sub, binding)
            <==> exists k :: 0 <= k < j && calls[k].q.sub == sub && ReplyAt(c, calls, k).Served?
                             && Binding(c, calls[k].q) == binding
    decreases j
  {
    hide Completes, Binding, Step, ReplyTo, HoldsResult;
    if j > 0 {
      ResultExactly(c, calls, j - 1, sub, binding);
      Unfold(c, calls, j - 1);
      StepCompletes(c, After(c, calls[..j - 1]), calls[j - 1].q, calls[j - 1].w, sub, binding);
    } else {
      EmptyHolds(sub, binding);
    }
  }

  lemma EmptyHolds(sub: string, binding: Digest)
    ensures !HoldsResult(EMPTY, sub, binding)
  {
  }

  /** The epoch is active, and the contract is not expired and asks for M's only model and no transform. */
  predicate Usable(c: Config, q: Request, w: World) {
    var k := q.contract;
    w.active && c.wellFormed(q) && w.now <= k.expiresAt
    && k.requestedModel == c.modelId && k.allowedModels == [k.requestedModel] && k.fallbackPolicy == "none"
    && k.allowedRequestTransforms == k.allowedResponseTransforms == [IDENTITY]
  }

  lemma AnswerConditions(c: Config, s: State, q: Request, w: World)
    ensures Answered(ReplyTo(c, s, q, w)) <==>
              Usable(c, q, w)
              && (HoldsResult(s, q.sub, Binding(c, q))
                  || (q.sub !in s.executions && q.contract.nonce !in s.nonces
                      && |s.executions| < c.maxRequests && w.pending < 250 && w.model.Some? && w.stop == Never
                      && (c.preExec ==> q.contract.reqCommit == c.H(q.salt + c.H(q.body)))))
  {
    hide Binding, ResultOf;
  }

  /** A call is answered exactly if it repeats a served one, or completes as the first use of identifier and nonce. */
  lemma AnsweredExactly(c: Config, calls: seq<Call>, j: nat)
    requires j < |calls|
    ensures var s, q, w := After(c, calls[..j]), calls[j].q, calls[j].w;
            Answered(ReplyAt(c, calls, j)) <==>
              Usable(c, q, w)
              && (ServedBefore(c, calls, j)
                  || ((forall i | 0 <= i < j && calls[i].q.sub == q.sub :: !StartsAt(c, calls, i))
                      && (forall i | 0 <= i < j && calls[i].q.contract.nonce == q.contract.nonce ::
                            !ClaimsAt(c, calls, i))
                      && |s.executions| < c.maxRequests && w.pending < 250 && w.model.Some? && w.stop == Never
                      && (c.preExec ==> q.contract.reqCommit == c.H(q.salt + c.H(q.body)))))
  {
    hide Binding, StartsAt, ClaimsAt, HoldsResult, ReplyTo, After;
    AnswerConditions(c, After(c, calls[..j]), calls[j].q, calls[j].w);
    StartedExactly(c, calls, j, calls[j].q.sub);
    ClaimedExactly(c, calls, j, calls[j].q.contract.nonce);
    ResultExactly(c, calls, j, calls[j].q.sub, Binding(c, calls[j].q));
  }

  /** Once a call has consumed its nonce, the same call is answered exactly when it was served before. */
  lemma RetryAnsweredExactly(c: Config, calls: seq<Call>, i: nat, j: nat)
    requires i < j < |calls| && calls[i].q == calls[j].q && ClaimsAt(c, calls, i)
    ensures Answered(ReplyAt(c, calls, j)) <==> Usable(c, calls[j].q, calls[j].w) && ServedBefore(c, calls, j)
  {
    hide Binding, ReplyTo, ServedBefore;
    AnsweredExactly(c, calls, j);
  }

  /** M's own record of the world agrees: no identifier twice among the runs, and an answer only after a run. */
  lemma {:induction false} RunsAreRecorded(c: Config, calls: seq<Call>)
    ensures var s := After(c, calls);
            (forall k | 0 <= k < |s.runs| ::
               var q := s.runs[k].q;
               q.sub in s.executions && q.contract.nonce in s.nonces && s.nonces[q.contract.nonce] == q.sub
               && s.executions[q.sub].binding == Binding(c, q))
            && (forall k, l | 0 <= k < l < |s.runs| ::
                  s.runs[k].q.sub != s.runs[l].q.sub && s.runs[k].q.contract.nonce != s.runs[l].q.contract.nonce)
            && |s.queued| <= |s.runs|
            && (forall sub | sub in s.executions && s.executions[sub].result.Some? ::
                  s.executions[sub].result.value.receipt in s.queued
                  && exists k :: 0 <= k < |s.runs| && s.runs[k].q.sub == sub)
  {
    hide Binding, ResultOf, BodyCommitted, Supported;
    if calls != [] {
      RunsAreRecorded(c, calls[..|calls| - 1]);
      var s, last := After(c, calls[..|calls| - 1]), calls[|calls| - 1];
      var t := Step(c, s, last.q, last.w);
      forall sub | sub in t.executions && t.executions[sub].result.Some?
        ensures t.executions[sub].result.value.receipt in t.queued
        ensures exists k :: 0 <= k < |t.runs| && t.runs[k].q.sub == sub
      {
        if sub == last.q.sub && Completes(c, s, last.q, last.w) {
          assert t.runs[|s.runs|].q.sub == sub && t.queued[|s.queued|] == t.executions[sub].result.value.receipt;
        } else {
          var k :| 0 <= k < |s.runs| && s.runs[k].q.sub == sub;
          assert t.runs[k].q.sub == sub;
        }
      }
    }
  }

  // ---- what an answer contains ---------------------------------------------------------------------------

  /** A receipt of M for this request and this output of its model. */
  ghost predicate ReceiptSays(c: Config, q: Request, output: Bytes, s: Statement) {
    s.iss == c.iss && s.kid == c.key.kid && s.sub == q.sub && s.contentType == CT_RECEIPT && s.payload.ReceiptPayload?
    && (Genuine(c.S, c.key) ==> c.S.verify(c.key.publicKey, ToBeSigned(s), s.signature))
    && s.payload.m.attemptId == q.contract.attemptId && s.payload.m.eatNonce == Some(q.contract.nonce)
    && s.payload.m.requestCommit == Some(c.H(q.salt + c.H(q.body)))
    && s.payload.m.responseCommit == Some(c.H(q.salt + c.H(output)))
    && s.payload.m.modelId == Some(q.contract.requestedModel) && s.payload.m.modelHash == Some(c.modelHash)
    && s.payload.m.decision == "served"
  }

  /** In call `i` the model ran on a request for `sub` and said `output`. */
  ghost predicate ModelSaid(c: Config, calls: seq<Call>, i: nat, sub: string, output: Bytes)
    requires i < |calls|
  {
    RunsAt(c, calls, i) && calls[i].q.sub == sub && calls[i].w.model == Some(output)
  }

  lemma ResultSays(c: Config, s: State, q: Request, w: World)
    requires Queues(c, s, q, w)
    ensures ResultOf(c, q, w).response == w.model.value
    ensures ReceiptSays(c, q, w.model.value, ResultOf(c, q, w).receipt)
  {
    var r := ResultOf(c, q, w).receipt;
    assert ToBeSigned(r) == StatementMessage(r.(signature := []));
  }

  /** Every stored result is what the model said in the call that ran its identifier. */
  lemma {:induction false} StoredIsModelOutput(c: Config, calls: seq<Call>, sub: string) returns (i: nat)
    requires sub in After(c, calls).executions && After(c, calls).executions[sub].result.Some?
    ensures i < |calls|
    ensures var e := After(c, calls).executions[sub];
            ModelSaid(c, calls, i, sub, e.result.value.response) && e.binding == Binding(c, calls[i].q)
            && ReceiptSays(c, calls[i].q, e.result.value.response, e.result.value.receipt)
  {
    hide Binding, Queues, Starts, ReceiptSays, ResultOf;
    var n := |calls| - 1;
    var s, last := After(c, calls[..n]), calls[n];
    if sub == last.q.sub && Completes(c, s, last.q, last.w) {
      i := n;
      QueuesRuns(c, s, last.q, last.w);
      ResultSays(c, s, last.q, last.w);
    } else {
      KeptResult(c, s, last.q, last.w, sub);
      i := StoredIsModelOutput(c, calls[..n], sub);
      assert calls[..n][..i] == calls[..i];
    }
  }

  lemma QueuesRuns(c: Config, s: State, q: Request, w: World)
    requires Queues(c, s, q, w)
    ensures Runs(c, s, q, w) && Starts(c, s, q, w) && w.model.Some?
  {
    hide Starts;
  }

  lemma KeptResult(c: Config, s: State, q: Request, w: World, sub: string)
    requires sub in Step(c, s, q, w).executions && Step(c, s, q, w).executions[sub].result.Some?
    requires !(sub == q.sub && Completes(c, s, q, w))
    ensures sub in s.executions && s.executions[sub] == Step(c, s, q, w).executions[sub]
  {
    hide Binding, Starts, Completes, ResultOf;
  }

  /**
    Every answer, served or replayed, is what the model said in the one call that ran the identifier, on the
    same contract, body and salt up to a collision, with a receipt of M over exactly that.
   */
  lemma AnswerIsModelOutput(c: Config, calls: seq<Call>, j: nat) returns (i: nat)
    requires j < |calls| && Answered(ReplyAt(c, calls, j))
    ensures i <= j && ModelSaid(c, calls, i, calls[j].q.sub, ReplyAt(c, calls, j).result.response)
    ensures forall k | 0 <= k < |calls| && k != i && calls[k].q.sub == calls[j].q.sub :: !RunsAt(c, calls, k)
    ensures var r := ReplyAt(c, calls, j).result; ReceiptSays(c, calls[i].q, r.response, r.receipt)
    ensures CollisionFree(c.H, {c.ser(calls[i].q), c.ser(calls[j].q)}) ==> c.ser(calls[i].q) == c.ser(calls[j].q)
    ensures c.preExec ==> calls[i].q.contract.reqCommit == c.H(calls[i].q.salt + c.H(calls[i].q.body))
  {
    hide ReceiptSays, ReplyTo, Step;
    AnswerIsStored(c, calls, j);
    i := StoredIsModelOutput(c, calls[..j + 1], calls[j].q.sub);
    assert calls[..j + 1][..i] == calls[..i];
    forall k | 0 <= k < |calls| && k != i && calls[k].q.sub == calls[j].q.sub ensures !RunsAt(c, calls, k) {
      if k < i {
        AtMostOnce(c, calls, k, i);
      } else {
        AtMostOnce(c, calls, i, k);
      }
    }
  }

  ghost predicate RunIsCall(c: Config, calls: seq<Call>, run: Run) {
    exists i :: 0 <= i < |calls| && RunsAt(c, calls, i) && calls[i].q == run.q && calls[i].w.model == run.output
  }

  ghost predicate ReceiptOfRun(c: Config, runs: seq<Run>, s: Statement) {
    exists run :: run in runs && run.output.Some? && ReceiptSays(c, run.q, run.output.value, s)
  }

  /** The record of runs is that of the calls, and each queued receipt is over what the model said in one of them. */
  lemma {:induction false} QueuedIsModelOutput(c: Config, calls: seq<Call>)
    ensures forall run | run in After(c, calls).runs :: RunIsCall(c, calls, run)
    ensures forall s | s in After(c, calls).queued :: ReceiptOfRun(c, After(c, calls).runs, s)
  {
    hide Binding, Queues, Runs, ReceiptSays, ResultOf, RunIsCall, ReceiptOfRun;
    if calls != [] {
      var n := |calls| - 1;
      var before, last := After(c, calls[..n]), calls[n];
      QueuedIsModelOutput(c, calls[..n]);
      forall run | run in After(c, calls).runs ensures RunIsCall(c, calls, run) {
        if run in before.runs {
          EarlierRun(c, calls, run);
        } else {
          LastRun(c, calls, run);
        }
      }
      forall s | s in After(c, calls).queued ensures ReceiptOfRun(c, After(c, calls).runs, s) {
        if s in before.queued {
          EarlierReceipt(c, before.runs, After(c, calls).runs, s);
        } else {
          LastReceipt(c, before, last.q, last.w);
        }
      }
    }
  }

  lemma EarlierRun(c: Config, calls: seq<Call>, run: Run)
    requires calls != [] && RunIsCall(c, calls[..|calls| - 1], run)
    ensures RunIsCall(c, calls, run)
  {
    hide Runs, After;
    var before := calls[..|calls| - 1];
    var i :| 0 <= i < |before| && RunsAt(c, before, i) && before[i].q == run.q && before[i].w.model == run.output;
    assert before[..i] == calls[..i] && RunsAt(c, calls, i);
  }

  lemma LastRun(c: Config, calls: seq<Call>, run: Run)
    requires calls != [] && run in After(c, calls).runs && run !in After(c, calls[..|calls| - 1]).runs
    ensures RunIsCall(c, calls, run)
  {
    hide Runs;
    assert RunsAt(c, calls, |calls| - 1);
  }

  lemma EarlierReceipt(c: Config, before: seq<Run>, now: seq<Run>, s: Statement)
    requires before <= now && ReceiptOfRun(c, before, s)
    ensures ReceiptOfRun(c, now, s)
  {
    hide ReceiptSays;
  }

  lemma LastReceipt(c: Config, s: State, q: Request, w: World)
    requires Queues(c, s, q, w)
    ensures ReceiptOfRun(c, Step(c, s, q, w).runs, ResultOf(c, q, w).receipt)
  {
    hide ReceiptSays, Starts, Binding, Runs, Queues;
    QueuesRuns(c, s, q, w);
    ResultSays(c, s, q, w);
    assert Run(q, w.model) in Step(c, s, q, w).runs;
  }
}

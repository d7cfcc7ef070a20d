/** T over whole runs: submissions, private evidence, restarts and requests for verdicts, in any order. */
module Runs {
  import opened Bytes
  import opened Options
  import opened Signatures
  import opened Statements
  import opened Log
  import opened Reconcile
  import opened Service
  import opened Agreement
  import opened Replay

  datatype Step =
    | Request(other: Other)
    | VerdictRequest(sub: string, now: int, stored: bool)

  /** What is exported of a journal. */
  function LogOf(c: Config, rows: seq<Row>): (entries: seq<LogEntry>)
    ensures |entries| == |rows|
  {
    seq(|rows|, i requires 0 <= i < |rows| =>
          LogEntry(i, rows[i].statement, rows[i].at, LeafOf(c.E, rows[i].statement)))
  }

  /** T answers a request for a verdict: private evidence and contract are there. */
  predicate Answerable(c: Config, st: State, sub: string) {
    sub in st.privates && KnownRequest(EngineOf(c), LogOf(c, st.rows), sub, st.privates[sub])
  }

  function NextState(c: Config, st: State, step: Step): State {
    match step
    case Request(other) => Served(c, st, other)
    case VerdictRequest(sub, now, stored) =>
      if Answerable(c, st, sub)
      then
        var s := VerdictStatement(c, LogOf(c, st.rows), sub, st.privates[sub], now);
        st.(rows := NextRows(c, st.rows, s, now, stored))
      else st
  }

  function AfterSteps(c: Config, steps: seq<Step>): State {
    if steps == [] then State([PolicyRow(c)], map[])
    else NextState(c, AfterSteps(c, steps[..|steps| - 1]), steps[|steps| - 1])
  }

  lemma LogIsJournal(c: Config, entries: seq<LogEntry>, rows: seq<Row>)
    requires Mirrors(entries, rows)
    requires forall i | 0 <= i < |entries| ::
               entries[i].index == i && entries[i].leafHash == LeafOf(c.E, entries[i].statement)
    ensures entries == LogOf(c, rows)
  {
    MirrorFacts(entries, rows);
  }

  lemma StepTaken(c: Config, steps: seq<Step>, i: nat)
    requires i < |steps|
    ensures AfterSteps(c, steps[..i + 1]) == NextState(c, AfterSteps(c, steps[..i]), steps[i])
  {
    hide NextState;
    assert steps[..i + 1][..i] == steps[..i];
  }

  /** T's memory and journal follow the steps. */
  method Run(c: Config, steps: seq<Step>) returns (t: ThirdParty)
    ensures t.Valid() && t.c == c && State(t.rows, t.privates) == AfterSteps(c, steps)
    ensures t.log.entries == LogOf(c, AfterSteps(c, steps).rows)
  {
    hide JournalOk, Mirrors, Served, NextRows, ReplyTo, KnownRequest, VerdictStatement;
    t := new ThirdParty(c);
    for i := 0 to |steps|
      invariant t.Valid() && t.c == c && fresh(t.Repr())
      invariant State(t.rows, t.privates) == AfterSteps(c, steps[..i])
    {
      StepTaken(c, steps, i);
      LogIsJournal(c, t.log.entries, t.rows);
      match steps[i]
      case Request(other) => t.ServeOne(other);
      case VerdictRequest(sub, now, stored) => var _ := IssueVerdict(t, sub, now, stored);
    }
    assert steps[..|steps|] == steps;
    LogIsJournal(c, t.log.entries, t.rows);
  }

  // ---- what a run keeps -------------------------------------------------------------------------------------

  lemma NextJournalOk(c: Config, rows: seq<Row>, s: Statement, now: int, stored: bool)
    requires JournalOk(c, rows)
    ensures JournalOk(c, NextRows(c, rows, s, now, stored))
  {
    hide JournalOk, Admits, NewRow;
    if Admits(c, rows, s) {
      JournalGrows(c, rows, s, now);
    }
  }

  lemma {:induction false} RunJournalOk(c: Config, steps: seq<Step>)
    ensures JournalOk(c, AfterSteps(c, steps).rows)
  {
    hide JournalOk, NextRows, MaySubmit, HasContract, Answerable, VerdictStatement;
    if steps == [] {
      JournalOfPolicy(c);
    } else {
      var n := |steps| - 1;
      RunJournalOk(c, steps[..n]);
      var st := AfterSteps(c, steps[..n]);
      match steps[n]
      case Request(Submission(_, s, _, now, stored)) => NextJournalOk(c, st.rows, s, now, stored);
      case Request(_) =>
      case VerdictRequest(sub, now, stored) =>
        AnswerableHasEvidence(c, st, sub);
        if Answerable(c, st, sub) {
          var s := VerdictStatement(c, LogOf(c, st.rows), sub, st.privates[sub], now);
          NextJournalOk(c, st.rows, s, now, stored);
        }
    }
  }

  /** T itself submits nothing: its verdicts come from requests. */
  predicate HonestSteps(steps: seq<Step>) {
    forall step | step in steps && step.Request? && step.other.Submission? :: step.other.actor != "T"
  }

  /** Row `j` holds T's verdict over exactly the rows before it, and the private evidence T had then. */
  ghost predicate JudgedAt(c: Config, rows: seq<Row>, j: nat, before: State, q: Step)
    requires j < |rows|
  {
    q.VerdictRequest? && before.rows == rows[..j] && q.sub in before.privates
    && rows[j].statement == VerdictStatement(c, LogOf(c, rows[..j]), q.sub, before.privates[q.sub], q.now)
  }

  lemma OneMore(c: Config, rows: seq<Row>, s: Statement, now: int, stored: bool, j: nat)
    requires j < |NextRows(c, rows, s, now, stored)|
    ensures var next := NextRows(c, rows, s, now, stored);
            next[..|rows|] == rows && (j >= |rows| ==> j == |rows| && next[j].statement == s)
  {
    hide Admits, IssuedReceipt, StatementHash;
  }

  lemma OthersSubmitNoVerdict(c: Config, actor: string, s: Statement, active: bool)
    requires actor != "T"
    ensures MaySubmit(c, actor, s, active) ==> s.contentType != CT_VERDICT
  {
  }

  /** Every verdict in the journal of an honest T answers one of the requests. */
  lemma {:induction false} VerdictRowsAreJudged(c: Config, steps: seq<Step>, j: nat) returns (k: nat)
    requires HonestSteps(steps) && j < |AfterSteps(c, steps).rows|
    requires AfterSteps(c, steps).rows[j].statement.contentType == CT_VERDICT
    ensures k < |steps| && JudgedAt(c, AfterSteps(c, steps).rows, j, AfterSteps(c, steps[..k]), steps[k])
  {
    hide NextRows, MaySubmit, HasContract, SameRequest, KnownRequest, VerdictOfT;
    if steps == [] {
      assert false;
    } else {
      var n := |steps| - 1;
      var st, rows := AfterSteps(c, steps[..n]), AfterSteps(c, steps).rows;
      NewVerdict(c, st, steps[n], j);
      if j < |st.rows| {
        k := VerdictRowsAreJudged(c, steps[..n], j);
        assert steps[..n][..k] == steps[..k] && rows[..j] == st.rows[..j];
      } else {
        k := n;
      }
    }
  }

  lemma NewVerdict(c: Config, st: State, step: Step, j: nat)
    requires j < |NextState(c, st, step).rows| && NextState(c, st, step).rows[j].statement.contentType == CT_VERDICT
    requires step.Request? && step.other.Submission? ==> step.other.actor != "T"
    ensures NextState(c, st, step).rows[..|st.rows|] == st.rows
    ensures j >= |st.rows| ==> JudgedAt(c, NextState(c, st, step).rows, j, st, step)
  {
    hide NextRows, MaySubmit, HasContract, SameRequest, Answerable, VerdictStatement;
    match step
    case Request(Submission(actor, s, active, now, stored)) =>
      OthersSubmitNoVerdict(c, actor, s, active);
      if MaySubmit(c, actor, s, active) {
        OneMore(c, st.rows, s, now, stored, j);
      }
    case Request(_) =>
    case VerdictRequest(sub, now, stored) =>
      AnswerableHasEvidence(c, st, sub);
      if Answerable(c, st, sub) {
        OneMore(c, st.rows, VerdictStatement(c, LogOf(c, st.rows), sub, st.privates[sub], now), now, stored, j);
      }
  }

  lemma AnswerableHasEvidence(c: Config, st: State, sub: string)
    ensures Answerable(c, st, sub) ==> sub in st.privates
  {
  }

  // ---- who registered what ---------------------------------------------------------------------------------

  /** The statement is one that this party may make, under its own name and key, with a valid payload. */
  ghost predicate MadeBy(c: Config, role: string, s: Statement) {
    (match role
     case "U" => s.contentType == "contract" || s.contentType == "observation"
     case "R" => s.contentType == "relay"
     case "M" => s.contentType == "receipt"
     case _ => false)
    && role in c.identities && s.iss == c.identities[role].iss && s.kid == c.identities[role].kid
    && c.S.verify(c.identities[role].publicKey, ToBeSigned(s), s.signature)
    && c.rules.validPayload(s.contentType, s.payload)
  }

  /** Step `k` submits the statement, as its maker, and a contract while the epoch is active. */
  ghost predicate SubmittedAt(c: Config, step: Step, s: Statement) {
    step.Request? && step.other.Submission? && step.other.s == s && MadeBy(c, step.other.actor, s)
    && (s.contentType == "contract" ==> step.other.active)
  }

  /** Apart from T's policy and verdicts, every row was submitted by the party that may make such a statement. */
  lemma {:induction false} RowsComeFromParties(c: Config, steps: seq<Step>, j: nat) returns (k: nat)
    requires HonestSteps(steps) && 0 < j < |AfterSteps(c, steps).rows|
    requires AfterSteps(c, steps).rows[j].statement.contentType != CT_VERDICT
    ensures k < |steps| && SubmittedAt(c, steps[k], AfterSteps(c, steps).rows[j].statement)
  {
    hide NextRows, MaySubmit, HasContract, SameRequest, Answerable, VerdictOfT, SubmittedAt, Served;
    if steps == [] {
      assert false;
    } else {
      var n := |steps| - 1;
      var st := AfterSteps(c, steps[..n]);
      NewRowIsSubmitted(c, st, steps[n], j);
      if j < |st.rows| {
        k := RowsComeFromParties(c, steps[..n], j);
      } else {
        k := n;
      }
    }
  }

  lemma NewRowIsSubmitted(c: Config, st: State, step: Step, j: nat)
    requires j < |NextState(c, st, step).rows| && NextState(c, st, step).rows[j].statement.contentType != CT_VERDICT
    requires step.Request? && step.other.Submission? ==> step.other.actor != "T"
    ensures j < |st.rows| ==> NextState(c, st, step).rows[j] == st.rows[j]
    ensures j >= |st.rows| ==> SubmittedAt(c, step, NextState(c, st, step).rows[j].statement)
  {
    hide NextRows, MaySubmit, HasContract, SameRequest, Answerable, VerdictOfT, MadeBy;
    match step
    case Request(Submission(actor, s, active, now, stored)) =>
      SubmitsOwn(c, actor, s, active);
      if MaySubmit(c, actor, s, active) {
        OneMore(c, st.rows, s, now, stored, j);
      }
    case Request(_) =>
    case VerdictRequest(sub, now, stored) =>
      AnswerableHasEvidence(c, st, sub);
      if Answerable(c, st, sub) {
        OneMore(c, st.rows, VerdictStatement(c, LogOf(c, st.rows), sub, st.privates[sub], now), now, stored, j);
      }
  }

  lemma SubmitsOwn(c: Config, actor: string, s: Statement, active: bool)
    requires actor != "T"
    ensures MaySubmit(c, actor, s, active) <==> MadeBy(c, actor, s) && (s.contentType == "contract" ==> active)
  {
  }

  // ---- the auditor of a run ---------------------------------------------------------------------------------

  /** What the policy statement says that an engine needs. */
  datatype PolicyContent = PolicyContent(version: string, trusted: map<string, (string, Bytes)>,
                                         issuerContentTypes: map<string, seq<string>>)

  /** What an auditor pins; `read` reads the serialised rules. */
  datatype Pins = Pins(E: Encoding, S: Scheme<Message>, logId: string, ts: Identity, modelHashes: map<string, Digest>,
                       read: Bytes -> PolicyContent, privateBytes: PrivateEvidence -> Bytes,
                       privateByHash: map<Digest, PrivateEvidence>)

  function FirstPolicy(entries: seq<LogEntry>): Option<Statement> {
    if entries == [] then None
    else if entries[0].statement.contentType == CT_POLICY then Some(entries[0].statement)
    else FirstPolicy(entries[1..])
  }

  /** `replay_audit` builds its engine from the first policy statement of the export and T's pinned key. */
  function AuditEngine(pins: Pins, entries: seq<LogEntry>): Option<Engine> {
    match FirstPolicy(entries)
    case None => None
    case Some(policy) =>
      if !policy.payload.OtherPayload? then None
      else
        var rules := pins.read(policy.payload.content);
        Some(Engine(pins.E, pins.S, rules.trusted[pins.ts.kid := (pins.ts.iss, pins.ts.publicKey)], pins.modelHashes,
                    StatementHash(pins.E, policy), KeysVersion(pins.logId, rules.version),
                    rules.issuerContentTypes[pins.ts.iss := [CT_POLICY, CT_VERDICT]], CHECKER_VERSION, LATE_THRESHOLD))
  }

  function AuditorWith(pins: Pins, g: Engine): Auditor {
    Auditor(g, pins.privateBytes, pins.ts.iss, pins.ts.kid, pins.ts.publicKey, pins.privateByHash)
  }

  /** The auditor pinned this T, whose policy statement says what its rules are. */
  ghost predicate Pinned(pins: Pins, c: Config) {
    pins.E == c.E && pins.S == c.S && pins.logId == c.logId && pins.modelHashes == c.modelHashes
    && pins.ts == Identity(c.tsIss, c.key.kid, c.key.publicKey) && pins.privateBytes == c.privateBytes
    && pins.read(c.content) == PolicyContent(c.policyVersion, c.rules.trusted, c.rules.issuerContentTypes)
  }

  /** The auditor rebuilds exactly T's engine. */
  lemma EngineFromExport(pins: Pins, c: Config, steps: seq<Step>)
    requires Pinned(pins, c)
    ensures AuditEngine(pins, LogOf(c, AfterSteps(c, steps).rows)) == Some(EngineOf(c))
    ensures EngineOf(c).keysVersion == c.logId + "/keys-v" + c.policyVersion && EngineOf(c).lateThreshold == 1000
    ensures EngineOf(c).checkerVersion == "itx-reconcile/0.1.0" && EngineOf(c).refs == c.modelHashes
    ensures EngineOf(c).policyHash == c.E.H(c.E.signedBytes(PolicyStatementOf(c)))
  {
    hide AfterSteps;
    RunJournalOk(c, steps);
    RowFacts(c, AfterSteps(c, steps).rows, 0);
  }

  /** The auditor has what U told T in private, under its hash or under its request. */
  ghost predicate Given(a: Auditor, p: PrivateEvidence, bySub: Option<PrivateEvidence>) {
    PrivateFor(a, Some(PrivateHash(a.g.E.H, a.ser, p)), bySub) == Some(p)
  }

  /**
    Whatever happens between T and the others, every verdict in every later export of an honest T is
    authentic, and it is recomputed identically by an auditor who was given the private evidence behind it.
   */
  lemma HonestRunReplays(pins: Pins, c: Config, steps: seq<Step>, sub: string, bySub: Option<PrivateEvidence>)
    requires Pinned(pins, c) && Genuine(c.S, c.key) && HonestSteps(steps)
    requires forall k | 0 <= k < |steps| && steps[k].VerdictRequest? && steps[k].sub == sub
                        && sub in AfterSteps(c, steps[..k]).privates ::
               Given(AuditorWith(pins, EngineOf(c)), AfterSteps(c, steps[..k]).privates[sub], bySub)
    ensures var entries := LogOf(c, AfterSteps(c, steps).rows);
            AuditEngine(pins, entries).Some? &&
            var a := AuditorWith(pins, AuditEngine(pins, entries).value);
            forall e | e in entries && e.statement.sub == sub && e.statement.contentType == CT_VERDICT ::
              AuthenticVerdict(a, e, sub) && Matches(a, entries, e, bySub, PARTIES)
  {
    hide AfterSteps, Matches, AuthenticVerdict, AuditEngine, Given, Pinned, Genuine, EngineOf, VerdictOfT;
    EngineFromExport(pins, c, steps);
    var entries, a := LogOf(c, AfterSteps(c, steps).rows), AuditorWith(pins, EngineOf(c));
    forall e | e in entries && e.statement.sub == sub && e.statement.contentType == CT_VERDICT
      ensures AuthenticVerdict(a, e, sub) && Matches(a, entries, e, bySub, PARTIES)
    {
      var j :| 0 <= j < |entries| && entries[j] == e;
      var k := VerdictRowsAreJudged(c, steps, j);
      JudgedReplays(pins, c, AfterSteps(c, steps).rows, j, AfterSteps(c, steps[..k]), steps[k], bySub);
    }
  }

  lemma JudgedReplays(pins: Pins, c: Config, rows: seq<Row>, j: nat, before: State, q: Step,
                      bySub: Option<PrivateEvidence>)
    requires Pinned(pins, c) && Genuine(c.S, c.key) && j < |rows| && JudgedAt(c, rows, j, before, q)
    requires Given(AuditorWith(pins, EngineOf(c)), before.privates[q.sub], bySub)
    ensures var a, entries := AuditorWith(pins, EngineOf(c)), LogOf(c, rows);
            AuthenticVerdict(a, entries[j], entries[j].statement.sub) && Matches(a, entries, entries[j], bySub, PARTIES)
  {
    hide VerdictOfT, Matches, EngineOf, PrivateHash, PrivateFor;
    var a, entries := AuditorWith(pins, EngineOf(c)), LogOf(c, rows);
    assert entries[..j] == LogOf(c, rows[..j]);
    assert a.g.E == c.E && a.g.S == c.S by {
      EngineParts(c);
    }
    HonestVerdictReplays(a, entries, j, before.privates[q.sub], q.now, bySub);
  }

  lemma EngineParts(c: Config)
    ensures EngineOf(c).E == c.E && EngineOf(c).S == c.S
  {
  }

  /** Nothing an honest T judges over is ever set aside for its signature or its issuer. */
  lemma NothingSetAside(c: Config, steps: seq<Step>, sub: string)
    requires Genuine(c.S, c.key)
    ensures var ev := GatheredFor(EngineOf(c), LogOf(c, AfterSteps(c, steps).rows), sub);
            ev.invalid == [] && ev.unauthorized == []
  {
    hide AfterSteps, EngineOf, CheckPolicy, ValidSignature, Authorized, GatherAll, EvidenceFor;
    var rows, g := AfterSteps(c, steps).rows, EngineOf(c);
    var entries := LogOf(c, rows);
    RunJournalOk(c, steps);
    forall e | e in entries ensures ValidSignature(g, e.statement) && Authorized(g, e.statement) {
      var i :| 0 <= i < |entries| && entries[i] == e;
      RowFacts(c, rows, i);
      RegisteredIsGenuine(c, e.statement);
    }
    EvidenceIsRegistered(entries, sub);
    GenuineIsGathered(g, EvidenceFor(entries, sub));
  }

  lemma RegisteredIsGenuine(c: Config, s: Statement)
    requires Genuine(c.S, c.key)
    ensures CheckPolicy(c.S, PolicyOf(c), s) == [] || s == PolicyStatementOf(c) ==>
              ValidSignature(EngineOf(c), s) && Authorized(EngineOf(c), s)
  {
    AdmittedIsAuthentic(c.S, PolicyOf(c), s);
  }

  lemma {:induction false} EvidenceIsRegistered(entries: seq<LogEntry>, sub: string)
    ensures forall e | e in EvidenceFor(entries, sub) :: e in entries
  {
    if entries != [] {
      EvidenceIsRegistered(entries[..|entries| - 1], sub);
    }
  }
}

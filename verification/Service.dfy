/** T as a service: the durable journal, and the log rebuilt from it after a failed write or a restart. */
module Service {
  import opened Bytes
  import opened Options
  import opened Sequences
  import opened Merkle
  import opened Proofs
  import opened Signatures
  import opened Statements
  import opened Log
  import opened AuditProofs
  import opened Reconcile

  /** The statement types of each role. */
  const TYPES := map["U" := [CT_CONTRACT, CT_OBSERVATION], "R" := [CT_RELAY], "M" := [CT_RECEIPT], "T" := [CT_VERDICT]]

  datatype Config = Config(E: Encoding, S: Scheme<Message>, key: KeyPair, logId: string, rules: Policy, tsIss: string,
                           policyVersion: string, content: Bytes, createdAt: int, identities: map<string, Identity>,
                           capacity: nat, modelHashes: map<string, Digest>, privateBytes: PrivateEvidence -> Bytes)

  function PolicyOf(c: Config): Policy { Effective(c.rules, c.key, c.tsIss) }

  function PolicyStatementOf(c: Config): Statement {
    PolicyStatement(c.S, c.key, c.logId, c.tsIss, c.content, c.createdAt)
  }

  const CHECKER_VERSION := "itx-reconcile/0.1.0"
  const LATE_THRESHOLD := 1000

  function KeysVersion(logId: string, version: string): string { logId + "/keys-v" + version }

  /** T judges by the keys and types that its registration policy goes by. */
  function EngineOf(c: Config): Engine {
    Engine(c.E, c.S, PolicyOf(c).trusted, c.modelHashes, StatementHash(c.E, PolicyStatementOf(c)),
           KeysVersion(c.logId, c.policyVersion), PolicyOf(c).issuerContentTypes, CHECKER_VERSION, LATE_THRESHOLD)
  }

  /** `submit` up to `register`: a contract only while the epoch is active, and each role its own types and key. */
  predicate MaySubmit(c: Config, actor: string, s: Statement, active: bool) {
    (s.contentType == CT_CONTRACT ==> active) && actor in TYPES && s.contentType in TYPES[actor]
    && actor in c.identities && s.iss == c.identities[actor].iss && s.kid == c.identities[actor].kid
    && c.S.verify(c.identities[actor].publicKey, ToBeSigned(s), s.signature)
    && c.rules.validPayload(s.contentType, s.payload)
  }

  /** A journal row. The row of the policy holds no receipt. */
  datatype Row = Row(number: nat, hash: Digest, statement: Statement, at: int, receipt: Option<RegistrationReceipt>)

  function StatementsIn(rows: seq<Row>): seq<Statement> { Mapped((row: Row) => row.statement, rows) }

  function FindRow(rows: seq<Row>, hash: Digest): (r: Option<Row>)
    ensures r.Some? ==> r.value in rows && r.value.hash == hash
    ensures r.None? ==> forall i | 0 <= i < |rows| :: rows[i].hash != hash
  {
    if rows == [] then None
    else if rows[0].hash == hash then Some(rows[0])
    else FindRow(rows[1..], hash)
  }

  /** Another statement of the same type about the same request is there; verdicts may repeat. */
  predicate Conflicts(rows: seq<Row>, s: Statement) {
    s.contentType != CT_VERDICT
    && exists i :: 0 <= i < |rows| && rows[i].statement.sub == s.sub && rows[i].statement.contentType == s.contentType
  }

  predicate Admits(c: Config, rows: seq<Row>, s: Statement) {
    FindRow(rows, StatementHash(c.E, s)) == None && |rows| < c.capacity && !Conflicts(rows, s)
    && CheckPolicy(c.S, PolicyOf(c), s) == []
  }

  function NewRow(c: Config, rows: seq<Row>, s: Statement, at: int): Row {
    Row(|rows|, StatementHash(c.E, s), s, at,
        Some(IssuedReceipt(c.E, c.S, c.key, c.logId, StatementsIn(rows) + [s], |rows|, at)))
  }

  /** The journal after a registration; `stored` says whether the insertion succeeds. */
  function NextRows(c: Config, rows: seq<Row>, s: Statement, now: int, stored: bool): seq<Row> {
    if Admits(c, rows, s) && stored then rows + [NewRow(c, rows, s, now)] else rows
  }

  /** `None` stands for an error. A known statement gets the receipt it got before. */
  function ReplyTo(c: Config, rows: seq<Row>, s: Statement, now: int, stored: bool): Option<RegistrationReceipt> {
    var known := FindRow(rows, StatementHash(c.E, s));
    if known.Some? then known.value.receipt
    else if Admits(c, rows, s) && stored then NewRow(c, rows, s, now).receipt
    else None
  }

  function PolicyRow(c: Config): Row {
    Row(0, StatementHash(c.E, PolicyStatementOf(c)), PolicyStatementOf(c), c.createdAt, None)
  }

  ghost predicate RowOk(c: Config, rows: seq<Row>, i: nat)
    requires i < |rows|
  {
    if i == 0 then rows[0] == PolicyRow(c)
    else rows[i].number == i && rows[i].hash == StatementHash(c.E, rows[i].statement)
         && CheckPolicy(c.S, PolicyOf(c), rows[i].statement) == []
         && rows[i].receipt == Some(IssuedReceipt(c.E, c.S, c.key, c.logId, StatementsIn(rows), i, rows[i].at))
  }

  /** Neither the same statement twice nor, verdicts apart, two statements of one type about one request. */
  ghost predicate Apart(a: Row, b: Row) {
    a.hash != b.hash
    && (a.statement.sub == b.statement.sub && a.statement.contentType == b.statement.contentType
        ==> b.statement.contentType == CT_VERDICT)
  }

  ghost predicate JournalOk(c: Config, rows: seq<Row>) {
    rows != [] && (forall i | 0 <= i < |rows| :: RowOk(c, rows, i))
    && forall i, j | 0 <= i < j < |rows| :: Apart(rows[i], rows[j])
  }

  ghost predicate Mirrors(entries: seq<LogEntry>, rows: seq<Row>) {
    StatementsOf(entries) == StatementsIn(rows)
    && forall i | 0 <= i < |entries| :: entries[i].registeredAt == rows[i].at
  }

  class ThirdParty {
    const c: Config
    var log: TransparencyLog
    var rows: seq<Row>
    var privates: map<string, PrivateEvidence>

    ghost predicate LogOk()
      reads this, log, log.tree
    {
      log.Valid() && log.E == c.E && log.S == c.S && log.key == c.key && log.logId == c.logId
      && log.policy == PolicyOf(c)
    }

    /** The log in memory is the durable journal. */
    ghost predicate Valid()
      reads this, log, log.tree
    {
      LogOk() && JournalOk(c, rows) && Mirrors(log.entries, rows)
    }

    ghost function Repr(): set<object>
      reads this, log
    {
      {this, log, log.tree}
    }

    /** First start, with an empty journal. */
    constructor (c: Config)
      ensures this.c == c && Valid() && fresh(Repr()) && rows == [PolicyRow(c)] && privates == map[]
    {
      this.c := c;
      rows, privates := [], map[];
      log := new TransparencyLog(c.E, c.S, c.key, c.logId, c.rules, c.tsIss, c.content, c.createdAt);
      new;
      var _ := Reload();
    }

    /** `_reload_log` rebuilds the log from the journal alone, and raises no error. */
    method Reload() returns (ok: bool)
      requires rows == [] || JournalOk(c, rows)
      modifies this`log, this`rows
      ensures ok && Valid() && fresh(log) && fresh(log.tree)
      ensures rows == if old(rows) == [] then [PolicyRow(c)] else old(rows)
    {
      hide JournalOk, IssuedReceipt, CheckPolicy, StatementHash, Mirrors, StatementsIn, PolicyStatement;
      log := new TransparencyLog(c.E, c.S, c.key, c.logId, c.rules, c.tsIss, c.content, c.createdAt);
      var found := rows;
      if found == [] {
        rows := [PolicyRow(c)];
        JournalOfPolicy(c);
      }
      PolicyMirrored(c, log.entries);
      for i := 0 to |found|
        modifies log`entries, log.tree
        invariant LogOk() && fresh(log.tree)
        invariant Mirrors(log.entries, if i == 0 then [PolicyRow(c)] else found[..i])
      {
        RowFacts(c, found, i);
        MirrorFacts(log.entries, if i == 0 then [PolicyRow(c)] else found[..i]);
        MirrorNext(c.E, log.entries, found, i);
        if found[i].number == 0 {
          if found[i].statement != PolicyStatementOf(c) {
            return false;
          }
        } else if found[i].number != |log.entries| {
          return false;
        } else {
          var receipt := log.Register(found[i].statement, found[i].at);
          if receipt == None {
            return false;
          }
        }
      }
      assert found[..|found|] == found;
      return true;
    }

    method Register(s: Statement, now: int, stored: bool) returns (r: Option<RegistrationReceipt>)
      requires Valid()
      modifies Repr()
      ensures Valid() && fresh(Repr() - old(Repr())) && privates == old(privates)
      ensures rows == NextRows(c, old(rows), s, now, stored)
      ensures r == ReplyTo(c, old(rows), s, now, stored)
    {
      hide JournalOk, IssuedReceipt, CheckPolicy, StatementHash, Mirrors, StatementsIn;
      MirrorFacts(log.entries, rows);
      JournalNotEmpty(c, rows);
      var known := FindRow(rows, StatementHash(c.E, s));
      if known.Some? {
        return known.value.receipt;
      }
      if |log.entries| >= c.capacity {
        return None;
      }
      if s.contentType != CT_VERDICT
         && exists i :: 0 <= i < |log.entries| && log.entries[i].statement.sub == s.sub
                        && log.entries[i].statement.contentType == s.contentType
      {
        return None;
      }
      var receipt := log.Register(s, now);
      if receipt == None {
        return None;
      }
      if !stored {
        var _ := Reload();
        return None;
      }
      JournalGrows(c, rows, s, now);
      MirrorGrows(c, old(log.entries), rows, s, now);
      rows := rows + [Row(receipt.value.body.leafIndex, StatementHash(c.E, s), s, now, receipt)];
      return receipt;
    }

    /** A statement submitted by `actor`. */
    method Submit(actor: string, s: Statement, active: bool, now: int, stored: bool)
      returns (r: Option<RegistrationReceipt>)
      requires Valid()
      modifies Repr()
      ensures Valid() && fresh(Repr() - old(Repr())) && privates == old(privates)
      ensures rows == if MaySubmit(c, actor, s, active) then NextRows(c, old(rows), s, now, stored) else old(rows)
      ensures r == if MaySubmit(c, actor, s, active) then ReplyTo(c, old(rows), s, now, stored) else None
    {
      if s.contentType == CT_CONTRACT && !active {
        return None;
      }
      if actor !in TYPES || s.contentType !in TYPES[actor] {
        return None;
      }
      if !MaySubmit(c, actor, s, active) {
        return None;
      }
      r := Register(s, now, stored);
    }

    /** U's private evidence about a request: after its contract, and final in what it says of the request. */
    method SubmitPrivate(actor: string, sub: string, p: PrivateEvidence) returns (ok: bool)
      requires Valid()
      modifies this`privates
      ensures Valid()
      ensures ok <==>
                actor == "U" && HasContract(rows, sub)
                && (sub in old(privates) ==>
                      old(privates)[sub].salt == p.salt && old(privates)[sub].requestHash == p.requestHash
                      && old(privates)[sub].expected == p.expected)
      ensures privates == if ok then old(privates)[sub := p] else old(privates)
    {
      hide JournalOk, Mirrors;
      MirrorFacts(log.entries, rows);
      if actor != "U" {
        return false;
      }
      if !exists i :: 0 <= i < |log.entries| && log.entries[i].statement.sub == sub
                      && log.entries[i].statement.contentType == CT_CONTRACT
      {
        return false;
      }
      if sub in privates && !SameRequest(privates[sub], p) {
        return false;
      }
      privates := privates[sub := p];
      return true;
    }

    /** What anybody else does with T once: a submission, private evidence, or a restart. */
    method ServeOne(other: Other)
      requires Valid()
      modifies Repr()
      ensures Valid() && fresh(Repr() - old(Repr()))
      ensures State(rows, privates) == Served(c, State(old(rows), old(privates)), other)
    {
      hide JournalOk, LogOk, Mirrors, NextRows, ReplyTo, MaySubmit, HasContract;
      match other {
        case Submission(actor, s, active, now, stored) =>
          var _ := Submit(actor, s, active, now, stored);
        case PrivateSubmission(actor, sub, p) =>
          var _ := SubmitPrivate(actor, sub, p);
        case Restart =>
          JournalNotEmpty(c, rows);
          var _ := Reload();
      }
    }

    method Serve(others: seq<Other>)
      requires Valid()
      modifies Repr()
      ensures Valid() && fresh(Repr() - old(Repr()))
      ensures old(rows) <= rows && PrivatesKeep(old(privates), privates)
    {
      hide JournalOk, LogOk, Mirrors, Served, SameRequest;
      PrivatesReflexive(privates);
      for i := 0 to |others|
        invariant Valid() && fresh(Repr() - old(Repr()))
        invariant old(rows) <= rows && PrivatesKeep(old(privates), privates)
      {
        ServedGrows(c, old(privates), State(rows, privates), others[i]);
        ServeOne(others[i]);
      }
    }
  }

  datatype Other =
    | Submission(actor: string, s: Statement, active: bool, now: int, stored: bool)
    | PrivateSubmission(actor: string, sub: string, p: PrivateEvidence)
    | Restart

  /** What T keeps on disk. */
  datatype State = State(rows: seq<Row>, privates: map<string, PrivateEvidence>)

  function Served(c: Config, st: State, other: Other): State {
    match other
    case Submission(actor, s, active, now, stored) =>
      if MaySubmit(c, actor, s, active) then st.(rows := NextRows(c, st.rows, s, now, stored)) else st
    case PrivateSubmission(actor, sub, p) =>
      if actor == "U" && HasContract(st.rows, sub) && (sub in st.privates ==> SameRequest(st.privates[sub], p))
      then st.(privates := st.privates[sub := p]) else st
    case Restart => st
  }

  lemma ServedGrows(c: Config, before: map<string, PrivateEvidence>, st: State, other: Other)
    requires PrivatesKeep(before, st.privates)
    ensures st.rows <= Served(c, st, other).rows && PrivatesKeep(before, Served(c, st, other).privates)
  {
    hide NextRows, MaySubmit, SameRequest, PrivatesKeep;
    match other
    case Submission(_, s, _, now, stored) => RowsGrow(c, st.rows, s, now, stored);
    case PrivateSubmission(_, sub, p) => PrivatesStep(before, st.privates, sub, p);
    case Restart =>
  }

  /** Private evidence is never lost, nor rewritten in what it says of the request. */
  ghost predicate PrivatesKeep(a: map<string, PrivateEvidence>, b: map<string, PrivateEvidence>) {
    forall sub | sub in a ::
      sub in b && b[sub].salt == a[sub].salt && b[sub].requestHash == a[sub].requestHash
      && b[sub].expected == a[sub].expected
  }

  lemma PrivatesReflexive(a: map<string, PrivateEvidence>)
    ensures PrivatesKeep(a, a)
  {
  }

  lemma PrivatesStep(a: map<string, PrivateEvidence>, b: map<string, PrivateEvidence>, sub: string, p: PrivateEvidence)
    requires PrivatesKeep(a, b)
    ensures (sub in b ==> SameRequest(b[sub], p)) ==> PrivatesKeep(a, b[sub := p])
  {
  }

  lemma RowsGrow(c: Config, rows: seq<Row>, s: Statement, now: int, stored: bool)
    ensures rows <= NextRows(c, rows, s, now, stored)
  {
    hide Admits, NewRow;
  }

  predicate HasContract(rows: seq<Row>, sub: string) {
    exists i :: 0 <= i < |rows| && rows[i].statement.sub == sub && rows[i].statement.contentType == CT_CONTRACT
  }

  /** The response hash may be added later; the rest may not change. */
  predicate SameRequest(p: PrivateEvidence, q: PrivateEvidence) {
    p.salt == q.salt && p.requestHash == q.requestHash && p.expected == q.expected
  }

  lemma JournalNotEmpty(c: Config, rows: seq<Row>)
    requires JournalOk(c, rows)
    ensures rows != []
  {
  }

  lemma JournalOfPolicy(c: Config)
    ensures JournalOk(c, [PolicyRow(c)])
  {
  }

  lemma RowFacts(c: Config, rows: seq<Row>, i: nat)
    requires JournalOk(c, rows) && i < |rows|
    ensures rows[i].number == i && (i == 0 ==> rows[i] == PolicyRow(c))
    ensures i > 0 ==> CheckPolicy(c.S, PolicyOf(c), rows[i].statement) == []
  {
    assert RowOk(c, rows, i);
  }

  lemma MirrorFacts(entries: seq<LogEntry>, rows: seq<Row>)
    requires Mirrors(entries, rows)
    ensures |entries| == |rows|
    ensures forall i | 0 <= i < |rows| :: entries[i].statement == rows[i].statement
  {
    forall i | 0 <= i < |rows| ensures entries[i].statement == rows[i].statement {
      assert entries[i].statement == StatementsOf(entries)[i] == StatementsIn(rows)[i];
    }
  }

  lemma PolicyMirrored(c: Config, entries: seq<LogEntry>)
    requires |entries| == 1 && entries[0].statement == PolicyStatementOf(c) && entries[0].registeredAt == c.createdAt
    ensures Mirrors(entries, [PolicyRow(c)])
  {
  }

  lemma MirrorNext(E: Encoding, entries: seq<LogEntry>, rows: seq<Row>, i: nat)
    requires i < |rows|
    ensures i > 0 && Mirrors(entries, rows[..i]) ==>
              Mirrors(entries + [LogEntry(|entries|, rows[i].statement, rows[i].at, LeafOf(E, rows[i].statement))],
                      rows[..i + 1])
    ensures i == 0 ==> [rows[0]] == rows[..1]
  {
    if i > 0 && Mirrors(entries, rows[..i]) {
      MirrorFacts(entries, rows[..i]);
      assert rows[..i + 1] == rows[..i] + [rows[i]];
    }
  }

  lemma MirrorGrows(c: Config, entries: seq<LogEntry>, rows: seq<Row>, s: Statement, at: int)
    requires Mirrors(entries, rows)
    ensures Mirrors(entries + [LogEntry(|entries|, s, at, LeafOf(c.E, s))], rows + [NewRow(c, rows, s, at)])
    ensures NewRow(c, rows, s, at).receipt.value.body.leafIndex == |rows|
    ensures StatementsIn(rows) == StatementsOf(entries)
  {
    hide Mth, InclusionPath;
    assert StatementsIn(rows + [NewRow(c, rows, s, at)]) == StatementsIn(rows) + [s];
    assert StatementsOf(entries + [LogEntry(|entries|, s, at, LeafOf(c.E, s))]) == StatementsOf(entries) + [s];
  }

  lemma IssuedOverPrefix(c: Config, a: seq<Statement>, b: seq<Statement>, i: nat, at: int)
    requires i < |a| <= |b| && b[..|a|] == a
    ensures IssuedReceipt(c.E, c.S, c.key, c.logId, a, i, at) == IssuedReceipt(c.E, c.S, c.key, c.logId, b, i, at)
  {
    assert a[..i + 1] == b[..i + 1];
    LeavesOfPrefix(c.E, a, b, i + 1);
  }

  lemma JournalGrows(c: Config, rows: seq<Row>, s: Statement, now: int)
    requires JournalOk(c, rows) && Admits(c, rows, s)
    ensures JournalOk(c, rows + [NewRow(c, rows, s, now)])
  {
    hide IssuedReceipt, CheckPolicy, StatementHash;
    var next := rows + [NewRow(c, rows, s, now)];
    assert StatementsIn(next) == StatementsIn(rows) + [s];
    forall i | 0 <= i < |next| ensures RowOk(c, next, i) {
      if i < |rows| {
        assert RowOk(c, rows, i);
        IssuedOverPrefix(c, StatementsIn(rows), StatementsIn(next), i, rows[i].at);
      }
    }
  }

  // ---- runs ----------------------------------------------------------------------------------------------

  /** One call of `register` by anybody; a crash before the insertion is a failed insertion. */
  datatype Attempt = Attempt(s: Statement, now: int, stored: bool)

  function After(c: Config, run: seq<Attempt>): seq<Row> {
    if run == [] then [PolicyRow(c)]
    else
      var last := run[|run| - 1];
      NextRows(c, After(c, run[..|run| - 1]), last.s, last.now, last.stored)
  }

  function ReplyAt(c: Config, run: seq<Attempt>, i: nat): Option<RegistrationReceipt>
    requires i < |run|
  {
    ReplyTo(c, After(c, run[..i]), run[i].s, run[i].now, run[i].stored)
  }

  lemma {:induction false} JournalAlwaysOk(c: Config, run: seq<Attempt>)
    ensures JournalOk(c, After(c, run))
  {
    hide JournalOk, Admits, NewRow;
    if run == [] {
      JournalOfPolicy(c);
    } else {
      var last, before := run[|run| - 1], After(c, run[..|run| - 1]);
      JournalAlwaysOk(c, run[..|run| - 1]);
      if Admits(c, before, last.s) {
        JournalGrows(c, before, last.s, last.now);
      }
    }
  }

  /** The journal only grows. */
  lemma {:induction false} JournalKeeps(c: Config, run: seq<Attempt>, i: nat)
    requires i <= |run|
    ensures After(c, run[..i]) <= After(c, run)
  {
    hide Admits, NewRow;
    if i < |run| {
      assert run[..|run| - 1][..i] == run[..i];
      JournalKeeps(c, run[..|run| - 1], i);
    } else {
      assert run[..i] == run;
    }
  }

  lemma ReplyIsInJournal(c: Config, run: seq<Attempt>, i: nat) returns (k: nat)
    requires i < |run| && ReplyAt(c, run, i).Some?
    ensures 0 < k < |After(c, run)| && After(c, run)[k].hash == StatementHash(c.E, run[i].s)
    ensures After(c, run)[k].receipt == ReplyAt(c, run, i)
  {
    hide IssuedReceipt, StatementHash, Conflicts, CheckPolicy;
    var before, a := After(c, run[..i]), run[i];
    var here := NextRows(c, before, a.s, a.now, a.stored);
    assert run[..i + 1][..i] == run[..i];
    JournalKeeps(c, run, i + 1);
    JournalAlwaysOk(c, run[..i]);
    var known := FindRow(before, StatementHash(c.E, a.s));
    if known.Some? {
      k :| 0 <= k < |before| && before[k] == known.value;
      assert RowOk(c, before, 0);
    } else {
      k := |before|;
    }
    assert here[k] == After(c, run)[k];
  }

  /** The receipt of row `k` verifies for its statement, and its root is consistent with the head of the log. */
  ghost predicate ReceiptGood(c: Config, rows: seq<Row>, k: nat, now: int)
    requires k < |rows| && rows[k].receipt.Some?
  {
    var receipt := rows[k].receipt.value;
    var head := IssuedHead(c.E, c.S, c.key, c.logId, StatementsIn(rows), now).body;
    ReceiptVerifies(c.E, c.S, receipt, rows[k].statement, c.key.publicKey)
    && receipt.body.treeSize == k + 1
    && ConsistencyAccepts(c.E.H, k + 1, head.treeSize, receipt.body.rootHash, head.rootHash,
                          ConsistencyPath(c.E.H, k + 1, Leaves(c.E, StatementsIn(rows))))
  }

  lemma RowReceiptGood(c: Config, rows: seq<Row>, k: nat, now: int)
    requires JournalOk(c, rows) && 0 < k < |rows| && Genuine(c.S, c.key)
    ensures rows[k].receipt.Some? && ReceiptGood(c, rows, k, now)
  {
    hide Mth, InclusionPath, ConsistencyAccepts, ReceiptVerifies, StatementHash, CheckPolicy, ConsistencyPath, Leaves;
    assert RowOk(c, rows, k);
    var all := StatementsIn(rows);
    assert all[..|all|] == all;
    IssuedReceiptVerifies(c.E, c.S, c.key, c.logId, all, k, rows[k].at);
    IssuedReceiptStaysConsistent(c.E, c.S, c.key, c.logId, all, k, rows[k].at, all, now);
  }

  /**
    Whatever is lost, retried or restarted, each statement is in the journal at most once, and every
    receipt T ever gave for it is the one receipt of its row, which stays good.
   */
  lemma ReceiptsStayGood(c: Config, run: seq<Attempt>, i: nat, now: int) returns (k: nat)
    requires i < |run| && ReplyAt(c, run, i).Some? && Genuine(c.S, c.key)
    ensures var rows := After(c, run);
            k < |rows| && rows[k].hash == StatementHash(c.E, run[i].s) == StatementHash(c.E, rows[k].statement)
            && (forall l | 0 <= l < |rows| && l != k :: rows[l].hash != rows[k].hash)
            && rows[k].receipt == ReplyAt(c, run, i) && ReceiptGood(c, rows, k, now)
  {
    hide StatementHash, CheckPolicy, IssuedReceipt, ReceiptGood, ReplyTo, NextRows;
    var rows := After(c, run);
    k := ReplyIsInJournal(c, run, i);
    JournalAlwaysOk(c, run);
    RowReceiptGood(c, rows, k, now);
    assert RowOk(c, rows, k);
    forall l | 0 <= l < |rows| && l != k ensures rows[l].hash != rows[k].hash {
      assert if l < k then Apart(rows[l], rows[k]) else Apart(rows[k], rows[l]);
    }
  }

  /** Two statements about one request, of one type other than a verdict, are never both registered. */
  lemma OneStatementPerType(c: Config, run: seq<Attempt>, k: nat, l: nat)
    requires k < l < |After(c, run)|
    requires After(c, run)[k].statement.sub == After(c, run)[l].statement.sub
    requires After(c, run)[k].statement.contentType == After(c, run)[l].statement.contentType
    ensures After(c, run)[k].statement.contentType == CT_VERDICT
  {
    JournalAlwaysOk(c, run);
    assert Apart(After(c, run)[k], After(c, run)[l]);
  }
}

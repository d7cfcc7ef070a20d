/** Fetching T's log page by page, while T keeps registering, and checking the export. */
module Paging {
  import opened Bytes
  import opened Options
  import opened Sequences
  import opened Merkle
  import opened Signatures
  import opened Statements
  import opened Log
  import opened Service
  import opened AuditProofs

  const PAGE_LIMIT := 64
  const PAGE_BYTES := 2 * 1024 * 1024 - 4096
  const MAX_AUDIT_BYTES := 64 * 1024 * 1024

  datatype ExportEntry = ExportEntry(index: nat, registeredAt: int, statement: Statement, receipt: RegistrationReceipt)

  /** How T presents itself. */
  datatype Meta = Meta(logId: string, tsPublicKey: Bytes, tsKid: string, tsIss: string, policyHash: Digest)

  datatype Export = Export(meta: Meta, head: TreeHead, entries: seq<ExportEntry>)

  function MetaOf(c: Config): Meta {
    Meta(c.logId, c.key.publicKey, c.key.kid, c.tsIss, StatementHash(c.E, PolicyStatementOf(c)))
  }

  /** What an auditor has pinned of T and of the checks to use. */
  datatype Trust = Trust(E: Encoding, S: Scheme<Message>, meta: Meta, checkerVersion: string, receiptProfile: int)

  predicate HeadPinned(t: Trust, head: TreeHead) {
    PinnedHead(t.S, t.meta.logId, t.meta.tsKid, t.meta.tsPublicKey, head)
  }

  /** The row of the policy holds no receipt, so T issues one for it on the spot. */
  function EntryOf(c: Config, rows: seq<Row>, i: nat): ExportEntry
    requires i < |rows|
  {
    var receipt := match rows[i].receipt
      case Some(receipt) => receipt
      case None => IssuedReceipt(c.E, c.S, c.key, c.logId, StatementsIn(rows), i, rows[i].at);
    ExportEntry(i, rows[i].at, rows[i].statement, receipt)
  }

  function EntriesOf(c: Config, rows: seq<Row>, start: nat, end: nat): (r: seq<ExportEntry>)
    requires start <= end <= |rows|
    ensures |r| == end - start
  {
    seq(end - start, i requires 0 <= i < end - start => EntryOf(c, rows, start + i))
  }

  /** Sizes on the wire: of one entry, and of a page. */
  datatype Wire = Wire(entry: ExportEntry -> nat, page: seq<ExportEntry> -> nat)

  predicate PageAllowed(c: Config, rows: seq<Row>, head: TreeHead, start: int, limit: int) {
    PinnedHead(c.S, c.logId, c.key.kid, c.key.publicKey, head) && 1 <= limit <= PAGE_LIMIT
    && 0 <= start < head.body.treeSize <= |rows|
    && Mth(c.E.H, Leaves(c.E, StatementsIn(rows[..head.body.treeSize]))) == head.body.rootHash
  }

  /** `audit_page`: entries of an earlier snapshot of the log, at least one, within the byte budget. */
  method AuditPage(t: ThirdParty, wire: Wire, head: TreeHead, start: int, limit: int)
    returns (page: Option<seq<ExportEntry>>)
    requires t.Valid()
    ensures page.Some? <==> PageAllowed(t.c, t.rows, head, start, limit)
    ensures page.Some? ==>
              0 < |page.value| <= limit && start + |page.value| <= head.body.treeSize
              && page.value == EntriesOf(t.c, t.rows, start, start + |page.value|)
  {
    hide JournalOk, Mth, EntryOf, PinnedHead;
    MirrorFacts(t.log.entries, t.rows);
    var size := head.body.treeSize;
    if !PinnedHead(t.c.S, t.c.logId, t.c.key.kid, t.c.key.publicKey, head) {
      return None;
    }
    if !(1 <= limit <= PAGE_LIMIT) || !(0 <= start < size <= |t.log.entries|) {
      return None;
    }
    LeavesTaken(t.c.E, t.rows, t.log.entries, size);
    var root := t.log.tree.RootAt(size);
    if root != Some(head.body.rootHash) {
      return None;
    }
    var entries: seq<ExportEntry>, budget := [], 0;
    var end := if size < start + limit then size else start + limit;
    var i := start;
    while i < end
      invariant start <= i <= end
      invariant entries == EntriesOf(t.c, t.rows, start, i)
    {
      EntriesJoin(t.c, t.rows, start, i, i + 1);
      var entry := EntryOf(t.c, t.rows, i);
      budget := budget + wire.entry(entry);
      if entries != [] && budget > PAGE_BYTES {
        break;
      }
      entries, i := entries + [entry], i + 1;
    }
    return Some(entries);
  }

  lemma EntriesStay(c: Config, a: seq<Row>, b: seq<Row>, start: nat, end: nat)
    requires JournalOk(c, a) && a <= b && start <= end <= |a|
    ensures EntriesOf(c, a, start, end) == EntriesOf(c, b, start, end)
  {
    hide JournalOk, IssuedReceipt;
    forall i | start <= i < end ensures EntryOf(c, a, i) == EntryOf(c, b, i) {
      assert a[i] == b[i] && StatementsIn(b)[..|a|] == StatementsIn(a);
      IssuedOverPrefix(c, StatementsIn(a), StatementsIn(b), i, a[i].at);
    }
  }

  lemma EntriesJoin(c: Config, rows: seq<Row>, start: nat, mid: nat, end: nat)
    requires start <= mid <= end <= |rows|
    ensures EntriesOf(c, rows, start, mid) + EntriesOf(c, rows, mid, end) == EntriesOf(c, rows, start, end)
  {
  }

  /** T's own head is a checkpoint of the pinned T, for as long as the log fits. */
  lemma OwnHead(c: Config, rows: seq<Row>, now: int)
    requires rows != [] && Genuine(c.S, c.key)
    ensures var head := IssuedHead(c.E, c.S, c.key, c.logId, StatementsIn(rows), now);
            (PinnedHead(c.S, c.logId, c.key.kid, c.key.publicKey, head) <==> |rows| <= MAX_AUDIT_ENTRIES)
            && head.body.treeSize == |rows| && head.body.rootHash == Mth(c.E.H, Leaves(c.E, StatementsIn(rows)))
  {
    hide Mth;
  }

  /** A page of an earlier snapshot is always allowed. */
  lemma SnapshotAllowed(c: Config, was: seq<Row>, rows: seq<Row>, now: int, start: nat)
    requires was <= rows && start < |was| <= MAX_AUDIT_ENTRIES && Genuine(c.S, c.key)
    ensures PageAllowed(c, rows, IssuedHead(c.E, c.S, c.key, c.logId, StatementsIn(was), now), start, PAGE_LIMIT)
  {
    hide Mth;
    OwnHead(c, was, now);
    assert rows[..|was|] == was;
  }

  lemma LeavesTaken(E: Encoding, rows: seq<Row>, entries: seq<LogEntry>, n: nat)
    requires Mirrors(entries, rows) && n <= |rows|
    ensures |entries| == |rows|
    ensures Leaves(E, StatementsOf(entries))[..n] == Leaves(E, StatementsIn(rows[..n]))
  {
  }

  lemma MirrorRows(entries: seq<LogEntry>, rows: seq<Row>)
    requires Mirrors(entries, rows)
    ensures StatementsOf(entries) == StatementsIn(rows)
  {
  }

  // ---- the client -----------------------------------------------------------------------------------------

  datatype Fetched = Complete(snapshot: Export) | WrongIdentity | BadPage | TooLarge

  ghost function Total(wire: Wire, pages: seq<seq<ExportEntry>>): nat {
    if pages == [] then 0 else Total(wire, pages[..|pages| - 1]) + wire.page(pages[|pages| - 1])
  }

  ghost function Flatten(pages: seq<seq<ExportEntry>>): seq<ExportEntry> {
    if pages == [] then [] else Flatten(pages[..|pages| - 1]) + pages[|pages| - 1]
  }

  lemma NoPages(wire: Wire)
    ensures Flatten([]) == [] && Total(wire, []) == 0
  {
  }

  lemma NextPage(c: Config, wire: Wire, was: seq<Row>, rows: seq<Row>, pages: seq<seq<ExportEntry>>,
                 page: seq<ExportEntry>, n: nat)
    requires JournalOk(c, was) && was <= rows && n + |page| <= |was|
    requires Flatten(pages) == EntriesOf(c, was, 0, n) && page == EntriesOf(c, rows, n, n + |page|)
    ensures Total(wire, pages + [page]) == Total(wire, pages) + wire.page(page)
    ensures Flatten(pages + [page]) == Flatten(pages) + page == EntriesOf(c, was, 0, n + |page|)
    ensures EntriesOf(c, was, 0, n + |page|) <= EntriesOf(c, was, 0, |was|)
  {
    hide JournalOk, EntryOf, EntriesOf;
    EntriesStay(c, was, rows, n, n + |page|);
    EntriesJoin(c, was, 0, n, n + |page|);
    EntriesJoin(c, was, 0, n + |page|, |was|);
    assert (pages + [page])[..|pages|] == pages;
  }

  /** The call of `audit_page` over the network: T serves the other parties before it, and may be restarted. */
  method CallAuditPage(t: ThirdParty, wire: Wire, head: TreeHead, start: nat, others: seq<Other>,
                       ghost was: seq<Row>, ghost now: int)
    returns (page: Option<seq<ExportEntry>>)
    requires t.Valid() && Genuine(t.c.S, t.c.key)
    requires was <= t.rows && start < |was| <= MAX_AUDIT_ENTRIES
    requires head == IssuedHead(t.c.E, t.c.S, t.c.key, t.c.logId, StatementsIn(was), now)
    modifies t.Repr()
    ensures t.Valid() && fresh(t.Repr() - old(t.Repr())) && old(t.rows) <= t.rows
    ensures page.Some? && 0 < |page.value| <= PAGE_LIMIT && start + |page.value| <= |was|
            && page.value == EntriesOf(t.c, t.rows, start, start + |page.value|)
  {
    hide JournalOk, Mth, EntryOf, EntriesOf, IssuedHead, PageAllowed, PinnedHead, StatementsIn, Leaves, Mirrors;
    t.Serve(others);
    OwnHead(t.c, was, now);
    SnapshotAllowed(t.c, was, t.rows, now, start);
    page := AuditPage(t, wire, head, start, PAGE_LIMIT);
  }

  /** `fetch_export`, from a T that serves `traffic(k)` before page `k`. */
  method FetchExport(t: ThirdParty, trust: Trust, wire: Wire, now: int, traffic: nat -> seq<Other>)
    returns (r: Fetched, ghost pages: seq<seq<ExportEntry>>)
    requires t.Valid() && Genuine(t.c.S, t.c.key) && trust.S == t.c.S
    modifies t.Repr()
    ensures t.Valid() && fresh(t.Repr() - old(t.Repr())) && old(t.rows) <= t.rows
    ensures r.WrongIdentity? <==> MetaOf(t.c) != trust.meta || |old(t.rows)| > MAX_AUDIT_ENTRIES
    ensures !r.BadPage?
    ensures r.TooLarge? ==> Total(wire, pages) > MAX_AUDIT_BYTES
    ensures r.Complete? ==>
              Total(wire, pages) <= MAX_AUDIT_BYTES
              && r.snapshot == Export(MetaOf(t.c),
                                      IssuedHead(t.c.E, t.c.S, t.c.key, t.c.logId, StatementsIn(old(t.rows)), now),
                                      EntriesOf(t.c, old(t.rows), 0, |old(t.rows)|))
    ensures Flatten(pages) <= EntriesOf(t.c, old(t.rows), 0, |old(t.rows)|)
  {
    hide JournalOk, Mth, EntryOf, EntriesOf, IssuedHead, PinnedHead, StatementsIn, Leaves, Mirrors, Total, Flatten,
         StatementHash, PolicyStatementOf;
    ghost var was := t.rows;
    var head := t.log.Head(now);
    pages := [];
    var size := head.body.treeSize;
    MirrorRows(t.log.entries, was);
    JournalNotEmpty(t.c, was);
    NoPages(wire);
    OwnHead(t.c, was, now);
    var meta := MetaOf(t.c);
    if meta != trust.meta {
      return WrongIdentity, pages;
    }
    if !HeadPinned(trust, head) {
      return WrongIdentity, pages;
    }
    var entries: seq<ExportEntry>, total, k := [], 0, 0;
    while |entries| < size
      invariant t.Valid() && fresh(t.Repr() - old(t.Repr())) && was <= t.rows
      invariant |entries| <= size == |was|
      invariant entries == Flatten(pages) == EntriesOf(t.c, was, 0, |entries|)
      invariant total == Total(wire, pages) <= MAX_AUDIT_BYTES
      invariant k >= 0
      decreases size - |entries|
    {
      var page := CallAuditPage(t, wire, head, |entries|, traffic(k), was, now);
      if page == None || page.value == [] || |page.value| > PAGE_LIMIT || |entries| + |page.value| > size {
        return BadPage, pages;
      }
      NextPage(t.c, wire, was, t.rows, pages, page.value, |entries|);
      pages, k := pages + [page.value], k + 1;
      total := total + wire.page(page.value);
      entries := entries + page.value;
      if total > MAX_AUDIT_BYTES {
        return TooLarge, pages;
      }
    }
    return Complete(Export(meta, head, entries)), pages;
  }

  // ---- checking the export -----------------------------------------------------------------------------

  function ExportedStatements(entries: seq<ExportEntry>): seq<Statement> {
    Mapped((e: ExportEntry) => e.statement, entries)
  }

  /** The receipt of entry `i` is T's promise of exactly this entry at exactly this place of exactly this log. */
  predicate EntryReceiptOk(t: Trust, entries: seq<ExportEntry>, i: nat)
    requires i < |entries|
  {
    var e := entries[i];
    var rc := e.receipt.body;
    ReceiptVerifies(t.E, t.S, e.receipt, e.statement, t.meta.tsPublicKey) && rc.logId == t.meta.logId
    && rc.tsKid == t.meta.tsKid
    && rc.leafIndex == i && rc.treeSize == i + 1 && rc.registeredAt == e.registeredAt
    && rc.rootHash == Mth(t.E.H, Leaves(t.E, ExportedStatements(entries))[..i + 1])
  }

  /** `version` is the checker's own. */
  predicate WellFormed(t: Trust, version: string, x: Export) {
    t.checkerVersion == version && t.receiptProfile == 1 && x.meta == t.meta
    && HeadPinned(t, x.head) && x.entries != [] && |x.entries| == x.head.body.treeSize
    && (forall i | 0 <= i < |x.entries| :: x.entries[i].index == i)
    && x.entries[0].statement.contentType == CT_POLICY
    && StatementHash(t.E, x.entries[0].statement) == t.meta.policyHash
  }

  /** The first half of `verify_export`: `None` stands for its errors, otherwise the entries with a bad receipt. */
  method VerifyExport(t: Trust, version: string, x: Export) returns (errors: Option<seq<nat>>)
    ensures errors.Some? <==> WellFormed(t, version, x)
    ensures errors.Some? ==>
              forall i :: i in errors.value <==> 0 <= i < |x.entries| && !EntryReceiptOk(t, x.entries, i)
  {
    hide HeadPinned, ReceiptVerifies, StatementHash, Mth;
    if t.checkerVersion != version || t.receiptProfile != 1 {
      return None;
    }
    if x.meta != t.meta {
      return None;
    }
    if !HeadPinned(t, x.head) {
      return None;
    }
    if x.entries == [] || |x.entries| != x.head.body.treeSize {
      return None;
    }
    var tree := new MerkleTree(t.E.H);
    var bad: seq<nat> := [];
    for i := 0 to |x.entries|
      invariant tree.H == t.E.H && tree.leaves == Leaves(t.E, ExportedStatements(x.entries))[..i]
      invariant forall j | 0 <= j < i :: x.entries[j].index == j
      invariant forall j :: j in bad <==> 0 <= j < i && !EntryReceiptOk(t, x.entries, j)
    {
      var e := x.entries[i];
      var _ := tree.Append(t.E.leafBytes(e.statement));
      assert tree.leaves == Leaves(t.E, ExportedStatements(x.entries))[..i + 1];
      if e.index != i {
        return None;
      }
      var rc := e.receipt.body;
      var valid := VerifyReceipt(t.E, t.S, e.receipt, e.statement, t.meta.tsPublicKey);
      if !valid || rc.logId != t.meta.logId || rc.tsKid != t.meta.tsKid || rc.leafIndex != i || rc.treeSize != i + 1
         || rc.registeredAt != e.registeredAt || rc.rootHash != tree.Root()
      {
        bad := bad + [i];
      }
    }
    var first := x.entries[0].statement;
    if first.contentType != CT_POLICY || StatementHash(t.E, first) != t.meta.policyHash {
      return None;
    }
    return Some(bad);
  }

  function TrustOf(c: Config, version: string): Trust { Trust(c.E, c.S, MetaOf(c), version, 1) }

  /** What `FetchExport` completes is well formed, has no bad receipt, and recomputes the signed root. */
  lemma FetchedExportVerifies(c: Config, version: string, rows: seq<Row>, now: int)
    requires JournalOk(c, rows) && Genuine(c.S, c.key) && |rows| <= MAX_AUDIT_ENTRIES
    ensures var x := Export(MetaOf(c), IssuedHead(c.E, c.S, c.key, c.logId, StatementsIn(rows), now),
                            EntriesOf(c, rows, 0, |rows|));
            WellFormed(TrustOf(c, version), version, x)
            && (forall i | 0 <= i < |rows| :: EntryReceiptOk(TrustOf(c, version), x.entries, i))
            && Mth(c.E.H, Leaves(c.E, ExportedStatements(x.entries))) == x.head.body.rootHash
  {
    hide Mth, InclusionPath, ReceiptVerifies, StatementHash, PinnedHead, CheckPolicy;
    OwnHead(c, rows, now);
    var entries := EntriesOf(c, rows, 0, |rows|);
    assert RowOk(c, rows, 0);
    forall i | 0 <= i < |rows| ensures entries[i].statement == rows[i].statement {
    }
    assert ExportedStatements(entries) == StatementsIn(rows);
    forall i | 0 <= i < |rows| ensures EntryReceiptOk(TrustOf(c, version), entries, i) {
      assert RowOk(c, rows, i);
      IssuedReceiptVerifies(c.E, c.S, c.key, c.logId, StatementsIn(rows), i, rows[i].at);
    }
  }
}

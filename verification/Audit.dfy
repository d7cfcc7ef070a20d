/** Checks of a log against what was fixed outside it: anchored checkpoints and held receipts. */
module Audit {
  import opened Bytes
  import opened Options
  import opened Merkle
  import opened Proofs
  import opened Verifiers
  import opened Signatures
  import opened Statements
  import opened Log

  // ---- anchors -----------------------------------------------------------------------------------------

  /** Where an anchored root comes from. */
  datatype Origin = Origin(logId: string, headTime: int, tsKid: string, headSignature: Bytes, kind: string)

  /** `tsa` is the outcome of checking a timestamp token, for a record that has one. */
  datatype AnchorRecord = AnchorRecord(treeSize: nat, rootHash: Digest, anchoredAt: int, tsa: Option<bool>,
                                       origin: Option<Origin>)

  datatype AnchorResult = AnchorResult(treeSize: nat, recomputed: Option<Digest>, rootMatches: bool,
                                       consistentWithHead: bool, ok: bool)

  const FILE_WITNESS := "mock-file-witness"

  class CheckpointAnchor {
    const published: bool  // is there a file?
    var records: seq<AnchorRecord>
    var file: seq<AnchorRecord>

    constructor (published: bool)
      ensures this.published == published && records == [] && file == []
    {
      this.published := published;
      records, file := [], [];
    }

    /** Records whose head was anchored when, and rewrites the file with all records. */
    method Anchor(head: TreeHead, now: int) returns (rec: AnchorRecord)
      modifies this
      ensures var b := head.body;
              rec == AnchorRecord(b.treeSize, b.rootHash, now, None,
                                  Some(Origin(b.logId, b.time, b.tsKid, head.signature, FILE_WITNESS)))
      ensures records == old(records) + [rec]
      ensures file == if published then records else old(file)
    {
      var b := head.body;
      rec := AnchorRecord(b.treeSize, b.rootHash, now, None,
                          Some(Origin(b.logId, b.time, b.tsKid, head.signature, FILE_WITNESS)));
      records := records + [rec];
      if published {
        file := records;
      }
    }
  }

  /** The log still has the anchored prefix. */
  predicate AnchorHolds(H: Hash, leaves: seq<Digest>, rec: AnchorRecord) {
    rec.treeSize <= |leaves| && rec.rootHash == Mth(H, leaves[..rec.treeSize]) && rec.tsa != Some(false)
  }

  /** What a result says of its record: nothing is recomputed beyond the tree, and both tests are reported. */
  ghost predicate ResultExplained(H: Hash, leaves: seq<Digest>, rec: AnchorRecord, result: AnchorResult) {
    var n := rec.treeSize;
    if n > |leaves| then result.recomputed == None && !result.rootMatches && !result.consistentWithHead
    else
      result.recomputed == Some(Mth(H, leaves[..n])) && (result.rootMatches <==> rec.rootHash == Mth(H, leaves[..n]))
      && (result.consistentWithHead <==>
            ConsistencyAccepts(H, n, |leaves|, rec.rootHash, Mth(H, leaves), ConsistencyPath(H, n, leaves)))
  }

  lemma Explained(H: Hash, leaves: seq<Digest>, rec: AnchorRecord, result: AnchorResult)
    requires if rec.treeSize > |leaves| then result == AnchorResult(rec.treeSize, None, false, false, false)
             else
               var root := Mth(H, leaves[..rec.treeSize]);
               result.recomputed == Some(root) && result.rootMatches == (rec.rootHash == root)
               && result.consistentWithHead ==
                  ConsistencyAccepts(H, rec.treeSize, |leaves|, rec.rootHash, Mth(H, leaves),
                                     ConsistencyPath(H, rec.treeSize, leaves))
    ensures ResultExplained(H, leaves, rec, result)
  {
    hide Mth, ConsistencyAccepts, ConsistencyPath;
  }

  /** Recomputing the root and the consistency proof together decide exactly that. */
  method VerifyTree(tree: MerkleTree, records: seq<AnchorRecord>) returns (results: seq<AnchorResult>)
    ensures |results| == |records|
    ensures forall i | 0 <= i < |records| ::
              results[i].treeSize == records[i].treeSize
              && results[i].ok == AnchorHolds(tree.H, tree.leaves, records[i])
    ensures forall i | 0 <= i < |records| :: ResultExplained(tree.H, tree.leaves, records[i], results[i])
  {
    hide ResultExplained;
    results := [];
    var headSize, headRoot := |tree.leaves|, tree.Root();
    for i := 0 to |records|
      invariant |results| == i
      invariant forall j | 0 <= j < i ::
                  results[j].treeSize == records[j].treeSize
                  && results[j].ok == AnchorHolds(tree.H, tree.leaves, records[j])
      invariant forall j | 0 <= j < i :: ResultExplained(tree.H, tree.leaves, records[j], results[j])
    {
      var rec := records[i];
      var size := rec.treeSize;
      if size > headSize {
        results := results + [AnchorResult(size, None, false, false, false)];
        Explained(tree.H, tree.leaves, rec, results[i]);
      } else {
        var recomputed := tree.RootAt(size);
        var proof := ConsistencyPath(tree.H, size, tree.leaves);
        var consistent := VerifyConsistency(tree.H, size, headSize, rec.rootHash, headRoot, proof);
        var matches := recomputed == Some(rec.rootHash);
        ConsistencyPathAccepted(tree.H, size, tree.leaves);
        var ok := matches && consistent;
        if rec.tsa.Some? && !rec.tsa.value {
          ok := false;
        }
        results := results + [AnchorResult(size, recomputed, matches, consistent, ok)];
        Explained(tree.H, tree.leaves, rec, results[i]);
      }
    }
  }

  // ---- held receipts --------------------------------------------------------------------------------------

  /** A receipt kept by a party; `None` is a record that is not a receipt at all. */
  datatype HeldItem = HeldItem(holder: Option<string>, receipt: Option<RegistrationReceipt>)

  datatype MissingReason = Moved(foundAt: nat) | OutsideLog | Different(foundSub: string)

  datatype Finding = Included | Missing(reason: MissingReason) | Unverifiable | AfterSnapshot

  datatype Tally = Tally(held: nat, included: nat, missing: nat, unverifiable: nat, afterSnapshot: nat)

  /** What the receipts are held against: an export and the identity of T. */
  datatype Snapshot = Snapshot(E: Encoding, S: Scheme<Message>, publicKey: Bytes, logId: string,
                               entries: seq<LogEntry>, headTime: Option<int>)

  function HolderOf(item: HeldItem): string {
    match item.holder
    case None => "U"
    case Some(h) => if h == "" then "U" else h
  }

  /** The index of the first entry with this leaf. */
  function FirstWithLeaf(E: Encoding, entries: seq<LogEntry>, leaf: Digest): Option<nat> {
    if entries == [] then None
    else if LeafOf(E, entries[0].statement) == leaf then Some(entries[0].index)
    else FirstWithLeaf(E, entries[1..], leaf)
  }

  predicate IsAfterSnapshot(sn: Snapshot, rc: RegistrationReceipt) {
    sn.headTime.Some? && rc.body.registeredAt > sn.headTime.value && rc.body.treeSize > |sn.entries|
  }

  predicate IsAuthentic(sn: Snapshot, rc: RegistrationReceipt) {
    rc.body.logId == sn.logId && sn.S.verify(sn.publicKey, ReceiptMessage(rc.body), rc.signature)
  }

  predicate LeafInPlace(sn: Snapshot, rc: RegistrationReceipt) {
    0 <= rc.body.leafIndex < |sn.entries| && LeafOf(sn.E, sn.entries[rc.body.leafIndex].statement) == rc.body.leafHash
  }

  function Classify(sn: Snapshot, item: HeldItem): Finding {
    match item.receipt
    case None => Unverifiable
    case Some(rc) =>
      if IsAfterSnapshot(sn, rc) then AfterSnapshot
      else if !IsAuthentic(sn, rc) then Unverifiable
      else if LeafInPlace(sn, rc) then Included
      else
        Missing(match FirstWithLeaf(sn.E, sn.entries, rc.body.leafHash)
                case Some(i) => Moved(i)
                case None =>
                  if 0 <= rc.body.leafIndex < |sn.entries| then Different(sn.entries[rc.body.leafIndex].statement.sub)
                  else OutsideLog)
  }

  /** The receipt is authentic and about this snapshot, so its root is a checkpoint. */
  predicate GivesCheckpoint(sn: Snapshot, item: HeldItem) {
    item.receipt.Some? && !IsAfterSnapshot(sn, item.receipt.value) && IsAuthentic(sn, item.receipt.value)
  }

  function CheckpointOf(rc: RegistrationReceipt): AnchorRecord {
    AnchorRecord(rc.body.treeSize, rc.body.rootHash, rc.body.registeredAt, None, None)
  }

  /** Adds a checkpoint unless one of its size is there; the list stays sorted by size. */
  function SetDefault(cs: seq<AnchorRecord>, rec: AnchorRecord): seq<AnchorRecord> {
    if cs == [] || rec.treeSize < cs[0].treeSize then [rec] + cs
    else if rec.treeSize == cs[0].treeSize then cs
    else [cs[0]] + SetDefault(cs[1..], rec)
  }

  function Checkpoints(sn: Snapshot, items: seq<HeldItem>): seq<AnchorRecord> {
    if items == [] then []
    else
      var last, cs := items[|items| - 1], Checkpoints(sn, items[..|items| - 1]);
      if GivesCheckpoint(sn, last) then SetDefault(cs, CheckpointOf(last.receipt.value)) else cs
  }

  function Add(t: Tally, f: Finding): Tally {
    match f
    case Included => t.(held := t.held + 1, included := t.included + 1)
    case Missing(_) => t.(held := t.held + 1, missing := t.missing + 1)
    case Unverifiable => t.(held := t.held + 1, unverifiable := t.unverifiable + 1)
    case AfterSnapshot => t.(held := t.held + 1, afterSnapshot := t.afterSnapshot + 1)
  }

  /** The findings about one holder's items, or about all items. */
  function TallyOf(sn: Snapshot, items: seq<HeldItem>, holder: Option<string>): Tally {
    if items == [] then Tally(0, 0, 0, 0, 0)
    else
      var last, t := items[|items| - 1], TallyOf(sn, items[..|items| - 1], holder);
      if holder.None? || HolderOf(last) == holder.value then Add(t, Classify(sn, last)) else t
  }

  predicate NothingMissing(sn: Snapshot, items: seq<HeldItem>) {
    forall item | item in items :: !Classify(sn, item).Missing?
  }

  predicate CheckpointsHold(sn: Snapshot, items: seq<HeldItem>) {
    var leaves := Leaves(sn.E, StatementsOf(sn.entries));
    forall c | c in Checkpoints(sn, items) :: AnchorHolds(sn.E.H, leaves, c)
  }

  // ---- what a report says, in the fields of the receipts ------------------------------------------------------

  /** T's signed receipt for this log, unless it was stamped after the head and covers a longer log. */
  ghost predicate Answerable(sn: Snapshot, item: HeldItem) {
    item.receipt.Some? &&
    var b := item.receipt.value.body;
    b.logId == sn.logId && sn.S.verify(sn.publicKey, ReceiptMessage(b), item.receipt.value.signature)
    && (sn.headTime.None? || b.registeredAt <= sn.headTime.value || b.treeSize <= |sn.entries|)
  }

  /** The entry at the index of the receipt has its leaf. */
  ghost predicate InItsPlace(sn: Snapshot, item: HeldItem)
    requires item.receipt.Some?
  {
    var b := item.receipt.value.body;
    0 <= b.leafIndex < |sn.entries| && LeafOf(sn.E, sn.entries[b.leafIndex].statement) == b.leafHash
  }

  /** The first such receipt of its tree size; its root alone is compared. */
  ghost predicate FirstOfSize(sn: Snapshot, held: seq<HeldItem>, k: nat)
    requires k < |held|
  {
    Answerable(sn, held[k])
    && forall j | 0 <= j < k && Answerable(sn, held[j]) ::
         held[j].receipt.value.body.treeSize != held[k].receipt.value.body.treeSize
  }

  /** The root of the receipt is that of the exported prefix of its size. */
  ghost predicate RootOfPrefix(sn: Snapshot, item: HeldItem)
    requires item.receipt.Some?
  {
    var b := item.receipt.value.body;
    b.treeSize <= |sn.entries| && b.rootHash == Mth(sn.E.H, Leaves(sn.E, StatementsOf(sn.entries))[..b.treeSize])
  }

  ghost predicate HeldOk(sn: Snapshot, held: seq<HeldItem>) {
    (forall item | item in held && Answerable(sn, item) :: InItsPlace(sn, item))
    && forall k | 0 <= k < |held| && FirstOfSize(sn, held, k) :: RootOfPrefix(sn, held[k])
  }

  lemma GivesExactly(sn: Snapshot, item: HeldItem)
    ensures GivesCheckpoint(sn, item) <==> Answerable(sn, item)
    ensures Classify(sn, item).Missing? <==> Answerable(sn, item) && !InItsPlace(sn, item)
  {
    hide FirstWithLeaf;
  }

  ghost predicate Ascending(cs: seq<AnchorRecord>) {
    forall i, j | 0 <= i < j < |cs| :: cs[i].treeSize < cs[j].treeSize
  }

  ghost predicate HasSize(cs: seq<AnchorRecord>, size: nat) { exists c :: c in cs && c.treeSize == size }

  lemma {:induction false} SetDefaultExactly(cs: seq<AnchorRecord>, rec: AnchorRecord)
    requires Ascending(cs)
    ensures Ascending(SetDefault(cs, rec))
    ensures forall c :: c in SetDefault(cs, rec) <==> c in cs || (c == rec && !HasSize(cs, rec.treeSize))
  {
    if cs != [] && rec.treeSize > cs[0].treeSize {
      var rest := SetDefault(cs[1..], rec);
      assert Ascending(cs[1..]);
      SetDefaultExactly(cs[1..], rec);
      assert forall c :: c in cs <==> c == cs[0] || c in cs[1..];
      forall i | 0 <= i < |rest| ensures cs[0].treeSize < rest[i].treeSize {
        assert rest[i] in rest;
        if rest[i] in cs[1..] {
          var j :| 0 < j < |cs| && cs[j] == rest[i];
        }
      }
    }
  }

  /** Some receipt is the first of its size and has this size and root. */
  ghost predicate IsFirst(sn: Snapshot, held: seq<HeldItem>, c: AnchorRecord) {
    exists k :: 0 <= k < |held| && FirstOfSize(sn, held, k) && c == CheckpointOf(held[k].receipt.value)
  }

  ghost predicate SizeHeld(sn: Snapshot, held: seq<HeldItem>, size: nat) {
    exists k :: 0 <= k < |held| && Answerable(sn, held[k]) && held[k].receipt.value.body.treeSize == size
  }

  lemma NextSize(sn: Snapshot, held: seq<HeldItem>, size: nat)
    requires held != []
    ensures var n, last := |held| - 1, held[|held| - 1];
            SizeHeld(sn, held, size) <==>
              SizeHeld(sn, held[..n], size) || (Answerable(sn, last) && last.receipt.value.body.treeSize == size)
  {
    hide Answerable;
    var n := |held| - 1;
    if k: nat :| k < n && Answerable(sn, held[k]) && held[k].receipt.Some?
                 && held[k].receipt.value.body.treeSize == size {
      assert held[..n][k] == held[k];
    }
  }

  lemma StillFirst(sn: Snapshot, held: seq<HeldItem>, n: nat, k: nat)
    requires k < n <= |held|
    ensures FirstOfSize(sn, held[..n], k) <==> FirstOfSize(sn, held, k)
  {
    assert forall j | 0 <= j <= k :: held[..n][j] == held[j];
  }

  lemma LastFirst(sn: Snapshot, held: seq<HeldItem>)
    requires held != []
    ensures var n, last := |held| - 1, held[|held| - 1];
            FirstOfSize(sn, held, n)
            <==> Answerable(sn, last) && !SizeHeld(sn, held[..n], last.receipt.value.body.treeSize)
  {
    var n := |held| - 1;
    assert forall j | 0 <= j < n :: held[..n][j] == held[j];
  }

  lemma NextFirst(sn: Snapshot, held: seq<HeldItem>, c: AnchorRecord)
    requires held != []
    ensures var n, last := |held| - 1, held[|held| - 1];
            IsFirst(sn, held, c) <==>
              IsFirst(sn, held[..n], c) || (FirstOfSize(sn, held, n) && c == CheckpointOf(last.receipt.value))
  {
    hide FirstOfSize, Answerable;
    var n := |held| - 1;
    if IsFirst(sn, held[..n], c) {
      var k := WhichFirst(sn, held[..n], c);
      StillFirst(sn, held, n, k);
    }
    if IsFirst(sn, held, c) {
      var k := WhichFirst(sn, held, c);
      if k < n {
        StillFirst(sn, held, n, k);
      }
    }
  }

  /** The checkpoints are those of the first receipt of each size, in the order of the sizes. */
  lemma {:induction false} CheckpointsExactly(sn: Snapshot, held: seq<HeldItem>)
    ensures Ascending(Checkpoints(sn, held))
    ensures forall c :: c in Checkpoints(sn, held) <==> IsFirst(sn, held, c)
    ensures forall size :: HasSize(Checkpoints(sn, held), size) <==> SizeHeld(sn, held, size)
  {
    hide IsFirst, SizeHeld, HasSize, SetDefault, IsAfterSnapshot, IsAuthentic, FirstOfSize;
    if held == [] {
      NothingHeld(sn);
    } else {
      var n := |held| - 1;
      var last, cs := held[n], Checkpoints(sn, held[..n]);
      CheckpointsExactly(sn, held[..n]);
      GivesExactly(sn, last);
      LastFirst(sn, held);
      if GivesCheckpoint(sn, last) {
        SetDefaultExactly(cs, CheckpointOf(last.receipt.value));
      }
      forall c ensures c in Checkpoints(sn, held) <==> IsFirst(sn, held, c) {
        NextFirst(sn, held, c);
      }
      forall size ensures HasSize(Checkpoints(sn, held), size) <==> SizeHeld(sn, held, size) {
        NextSize(sn, held, size);
        if GivesCheckpoint(sn, last) {
          SizesOfSetDefault(cs, CheckpointOf(last.receipt.value), size);
        }
      }
    }
  }

  lemma NothingHeld(sn: Snapshot)
    ensures Ascending(Checkpoints(sn, []))
    ensures forall c :: c in Checkpoints(sn, []) <==> IsFirst(sn, [], c)
    ensures forall size :: HasSize(Checkpoints(sn, []), size) <==> SizeHeld(sn, [], size)
  {
  }

  lemma SizesOfSetDefault(cs: seq<AnchorRecord>, rec: AnchorRecord, size: nat)
    requires Ascending(cs)
    ensures HasSize(SetDefault(cs, rec), size) <==> HasSize(cs, size) || size == rec.treeSize
  {
    hide SetDefault;
    SetDefaultExactly(cs, rec);
    if HasSize(cs, size) {
      var c :| c in cs && c.treeSize == size;
      assert c in SetDefault(cs, rec);
    }
    if !HasSize(cs, rec.treeSize) {
      assert rec in SetDefault(cs, rec);
    }
  }

  /** So the two tests of the program are those on the receipts. */
  lemma HeldOkExactly(sn: Snapshot, held: seq<HeldItem>)
    ensures HeldOk(sn, held) <==> NothingMissing(sn, held) && CheckpointsHold(sn, held)
  {
    hide InItsPlace, Classify, Checkpoints, Mth, Leaves, RootOfPrefix, IsFirst;
    forall item: HeldItem ensures Classify(sn, item).Missing? <==> Answerable(sn, item) && !InItsPlace(sn, item) {
      GivesExactly(sn, item);
    }
    CheckpointsExactly(sn, held);
    forall k | 0 <= k < |held| && FirstOfSize(sn, held, k)
      ensures CheckpointOf(held[k].receipt.value) in Checkpoints(sn, held) && RootTested(sn, held[k])
    {
      FirstIsFirst(sn, held, k);
      RootIsTested(sn, held[k]);
    }
    forall c | c in Checkpoints(sn, held) && HeldOk(sn, held)
      ensures AnchorHolds(sn.E.H, Leaves(sn.E, StatementsOf(sn.entries)), c)
    {
      var _ := WhichFirst(sn, held, c);
    }
  }

  ghost predicate RootTested(sn: Snapshot, item: HeldItem) {
    item.receipt.Some? &&
    (RootOfPrefix(sn, item)
     <==> AnchorHolds(sn.E.H, Leaves(sn.E, StatementsOf(sn.entries)), CheckpointOf(item.receipt.value)))
  }

  lemma RootIsTested(sn: Snapshot, item: HeldItem)
    requires item.receipt.Some?
    ensures RootTested(sn, item)
  {
    hide Mth;
  }

  lemma FirstIsFirst(sn: Snapshot, held: seq<HeldItem>, k: nat)
    requires k < |held| && FirstOfSize(sn, held, k)
    ensures held[k].receipt.Some? && IsFirst(sn, held, CheckpointOf(held[k].receipt.value))
  {
  }

  lemma WhichFirst(sn: Snapshot, held: seq<HeldItem>, c: AnchorRecord) returns (k: nat)
    requires IsFirst(sn, held, c)
    ensures k < |held| && FirstOfSize(sn, held, k) && held[k].receipt.Some? && c == CheckpointOf(held[k].receipt.value)
  {
    k :| 0 <= k < |held| && FirstOfSize(sn, held, k) && c == CheckpointOf(held[k].receipt.value);
  }

  datatype HeldReport = HeldReport(total: Tally, missing: seq<(HeldItem, MissingReason)>,
                                   checkpoints: seq<AnchorResult>, byHolder: map<string, Tally>, ok: bool,
                                   scope: string)

  method VerifyHeldReceipts(sn: Snapshot, tree: MerkleTree, held: seq<HeldItem>) returns (report: HeldReport)
    requires tree.H == sn.E.H && tree.leaves == Leaves(sn.E, StatementsOf(sn.entries))
    ensures report.total == TallyOf(sn, held, None)
    ensures |report.missing| == report.total.missing
    ensures forall m | m in report.missing :: m.0 in held && Classify(sn, m.0) == Missing(m.1)
    ensures forall h :: h in report.byHolder <==> exists item :: item in held && HolderOf(item) == h
    ensures forall h | h in report.byHolder :: report.byHolder[h] == TallyOf(sn, held, Some(h))
    ensures report.ok <==> HeldOk(sn, held)
    ensures forall i, j | 0 <= i < j < |report.checkpoints| ::
              report.checkpoints[i].treeSize < report.checkpoints[j].treeSize
    ensures forall k | 0 <= k < |held| && FirstOfSize(sn, held, k) :: IsReported(sn, held[k], report.checkpoints)
    ensures forall c | c in report.checkpoints ::
              exists k :: 0 <= k < |held| && FirstOfSize(sn, held, k)
                          && c.treeSize == held[k].receipt.value.body.treeSize
    ensures report.scope == if held == [] then "none"
                            else if {"U", "R", "M"} <= report.byHolder.Keys then "all_parties" else "submitter_receipts"
  {
    hide Classify, IsAuthentic, LeafInPlace, FirstWithLeaf, SetDefault, AnchorHolds, HolderOf, IsAfterSnapshot, Leaves,
         Mth, HeldOk, IsReported, FirstOfSize, Answerable;
    var total := Tally(0, 0, 0, 0, 0);
    var missing: seq<(HeldItem, MissingReason)> := [];
    var byHolder: map<string, Tally> := map[];
    var checkpoints: seq<AnchorRecord> := [];
    for i := 0 to |held|
      invariant total == TallyOf(sn, held[..i], None)
      invariant |missing| == total.missing
      invariant forall m | m in missing :: m.0 in held[..i] && Classify(sn, m.0) == Missing(m.1)
      invariant missing == [] <==> NothingMissing(sn, held[..i])
      invariant forall h :: h in byHolder <==> exists item :: item in held[..i] && HolderOf(item) == h
      invariant forall h | h in byHolder :: byHolder[h] == TallyOf(sn, held[..i], Some(h))
      invariant checkpoints == Checkpoints(sn, held[..i])
    {
      var item := held[i];
      var holder := HolderOf(item);
      NextItem(sn, held, i);
      NewHolder(sn, held[..i], holder);
      var tally := if holder in byHolder then byHolder[holder] else Tally(0, 0, 0, 0, 0);
      var finding := Classify(sn, item);
      byHolder := byHolder[holder := Add(tally, finding)];
      total := Add(total, finding);
      if GivesCheckpoint(sn, item) {
        checkpoints := SetDefault(checkpoints, CheckpointOf(item.receipt.value));
      }
      if finding.Missing? {
        missing := missing + [(item, finding.reason)];
      }
    }
    assert held[..|held|] == held;
    var results := VerifyTree(tree, checkpoints);
    var allOk := forall r | r in results :: r.ok;
    AllResultsOk(tree.H, tree.leaves, checkpoints, results);
    HeldOkExactly(sn, held);
    ResultsExactly(sn, held, results);
    var scope := if held == [] then "none"
                 else if {"U", "R", "M"} <= byHolder.Keys then "all_parties" else "submitter_receipts";
    report := HeldReport(total, missing, results, byHolder, missing == [] && allOk, scope);
  }

  lemma ResultsExactly(sn: Snapshot, held: seq<HeldItem>, results: seq<AnchorResult>)
    requires |results| == |Checkpoints(sn, held)|
    requires forall i | 0 <= i < |results| ::
               results[i].treeSize == Checkpoints(sn, held)[i].treeSize
               && results[i].ok ==
                  AnchorHolds(sn.E.H, Leaves(sn.E, StatementsOf(sn.entries)), Checkpoints(sn, held)[i])
    ensures forall i, j | 0 <= i < j < |results| :: results[i].treeSize < results[j].treeSize
    ensures forall k | 0 <= k < |held| && FirstOfSize(sn, held, k) :: IsReported(sn, held[k], results)
    ensures forall c | c in results ::
              exists k :: 0 <= k < |held| && FirstOfSize(sn, held, k)
                          && c.treeSize == held[k].receipt.value.body.treeSize
  {
    hide Checkpoints, AnchorHolds, RootOfPrefix, IsFirst;
    var cs := Checkpoints(sn, held);
    CheckpointsExactly(sn, held);
    forall k | 0 <= k < |held| && FirstOfSize(sn, held, k) ensures IsReported(sn, held[k], results) {
      FirstIsFirst(sn, held, k);
      RootIsTested(sn, held[k]);
      var i :| 0 <= i < |cs| && cs[i] == CheckpointOf(held[k].receipt.value);
      assert results[i] in results;
    }
    forall c | c in results
      ensures exists k :: 0 <= k < |held| && FirstOfSize(sn, held, k)
                          && c.treeSize == held[k].receipt.value.body.treeSize
    {
      var i :| 0 <= i < |results| && results[i] == c;
      var k := WhichFirst(sn, held, cs[i]);
    }
  }

  /** The outcome for a receipt's size is that of its own root. */
  ghost predicate IsReported(sn: Snapshot, item: HeldItem, results: seq<AnchorResult>)
    requires item.receipt.Some?
  {
    exists c :: c in results && c.treeSize == item.receipt.value.body.treeSize && (c.ok <==> RootOfPrefix(sn, item))
  }

  lemma NextItem(sn: Snapshot, held: seq<HeldItem>, i: nat)
    requires i < |held|
    ensures held[..i + 1][..i] == held[..i] && held[..i + 1][i] == held[i] && |held[..i + 1]| == i + 1
    ensures forall x :: x in held[..i + 1] <==> x in held[..i] || x == held[i]
  {
    assert held[..i + 1] == held[..i] + [held[i]];
  }

  lemma {:induction false} NewHolder(sn: Snapshot, items: seq<HeldItem>, holder: string)
    ensures (forall item | item in items :: HolderOf(item) != holder) ==>
              TallyOf(sn, items, Some(holder)) == Tally(0, 0, 0, 0, 0)
  {
    if items != [] {
      var n := |items| - 1;
      NewHolder(sn, items[..n], holder);
      assert items == items[..n] + [items[n]];
    }
  }

  lemma AllResultsOk(H: Hash, leaves: seq<Digest>, cs: seq<AnchorRecord>, results: seq<AnchorResult>)
    requires |results| == |cs|
    requires forall i | 0 <= i < |cs| :: results[i].ok == AnchorHolds(H, leaves, cs[i])
    ensures (forall r | r in results :: r.ok) <==> (forall c | c in cs :: AnchorHolds(H, leaves, c))
  {
    forall r | r in results && forall c | c in cs :: AnchorHolds(H, leaves, c) ensures r.ok {
      var i :| 0 <= i < |results| && results[i] == r;
      assert cs[i] in cs;
    }
    forall c | c in cs && forall r | r in results :: r.ok ensures AnchorHolds(H, leaves, c) {
      var i :| 0 <= i < |cs| && cs[i] == c;
      assert results[i] in results;
    }
  }
}

/** An honest log is never accused, and a rewritten one never passes. */
module AuditProofs {
  import opened Bytes
  import opened Options
  import opened Merkle
  import opened Proofs
  import opened Signatures
  import opened Statements
  import opened Log
  import opened Audit

  // ---- counting --------------------------------------------------------------------------------------

  /** Every item ends in exactly one of the four classes, overall and for each holder. */
  lemma {:induction false} TallyBalances(sn: Snapshot, items: seq<HeldItem>, holder: Option<string>)
    ensures var t := TallyOf(sn, items, holder);
            t.held == t.included + t.missing + t.unverifiable + t.afterSnapshot
    ensures holder.None? ==> TallyOf(sn, items, holder).held == |items|
  {
    if items != [] {
      TallyBalances(sn, items[..|items| - 1], holder);
    }
  }

  /** An item counts for its holder, and for U if it names none. */
  ghost predicate BelongsTo(item: HeldItem, holder: Option<string>) {
    holder.None? || (holder.value != "" && item.holder == holder)
    || (holder.value == "U" && (item.holder == None || item.holder == Some("")))
  }

  datatype Class = All | InPlace | Gone | NotReceipt | Later

  ghost predicate InClass(f: Finding, class': Class) {
    match class'
    case All => true
    case InPlace => f.Included?
    case Gone => f.Missing?
    case NotReceipt => f.Unverifiable?
    case Later => f.AfterSnapshot?
  }

  /** How many of a holder's items are in a class. */
  ghost function NumberOf(sn: Snapshot, items: seq<HeldItem>, holder: Option<string>, class': Class): nat {
    |set k | 0 <= k < |items| && BelongsTo(items[k], holder) && InClass(Classify(sn, items[k]), class')|
  }

  lemma NumberOfNext(sn: Snapshot, items: seq<HeldItem>, holder: Option<string>, class': Class)
    requires items != []
    ensures var n := |items| - 1;
            NumberOf(sn, items, holder, class') ==
            NumberOf(sn, items[..n], holder, class')
            + if BelongsTo(items[n], holder) && InClass(Classify(sn, items[n]), class') then 1 else 0
  {
    hide BelongsTo, InClass, Classify;
    var n := |items| - 1;
    var init := items[..n];
    var before := set k | 0 <= k < |init| && BelongsTo(init[k], holder) && InClass(Classify(sn, init[k]), class');
    var all := set k | 0 <= k < |items| && BelongsTo(items[k], holder) && InClass(Classify(sn, items[k]), class');
    assert forall k | 0 <= k < n :: init[k] == items[k];
    assert all == before + if n in all then {n} else {};
  }

  lemma HolderExactly(item: HeldItem, holder: Option<string>)
    ensures BelongsTo(item, holder) <==> holder.None? || HolderOf(item) == holder.value
  {
  }

  /** The tallies are the numbers of items in each class. */
  lemma {:induction false} TallyCounts(sn: Snapshot, items: seq<HeldItem>, holder: Option<string>)
    ensures var t := TallyOf(sn, items, holder);
            t.held == NumberOf(sn, items, holder, All) && t.included == NumberOf(sn, items, holder, InPlace)
            && t.missing == NumberOf(sn, items, holder, Gone)
            && t.unverifiable == NumberOf(sn, items, holder, NotReceipt)
            && t.afterSnapshot == NumberOf(sn, items, holder, Later)
  {
    hide Classify, NumberOf, HolderOf, BelongsTo;
    if items == [] {
      NoneCounted(sn, holder);
    } else {
      var n := |items| - 1;
      TallyCounts(sn, items[..n], holder);
      HolderExactly(items[n], holder);
      NumberOfNext(sn, items, holder, All);
      NumberOfNext(sn, items, holder, InPlace);
      NumberOfNext(sn, items, holder, Gone);
      NumberOfNext(sn, items, holder, NotReceipt);
      NumberOfNext(sn, items, holder, Later);
    }
  }

  lemma NoneCounted(sn: Snapshot, holder: Option<string>)
    ensures forall class' :: NumberOf(sn, [], holder, class') == 0
  {
  }

  // ---- findings ----------------------------------------------------------------------------------------

  /** The leaf stands nowhere in the export. */
  ghost predicate LeafGone(sn: Snapshot, leaf: Digest) {
    forall i | 0 <= i < |sn.entries| :: LeafOf(sn.E, sn.entries[i].statement) != leaf
  }

  lemma {:induction false} FirstWithLeafExactly(E: Encoding, entries: seq<LogEntry>, leaf: Digest)
    ensures match FirstWithLeaf(E, entries, leaf)
            case None => forall i | 0 <= i < |entries| :: LeafOf(E, entries[i].statement) != leaf
            case Some(at) =>
              exists i :: 0 <= i < |entries| && entries[i].index == at && LeafOf(E, entries[i].statement) == leaf
                          && forall j | 0 <= j < i :: LeafOf(E, entries[j].statement) != leaf
  {
    hide LeafOf;
    if entries != [] && LeafOf(E, entries[0].statement) != leaf {
      FirstWithLeafExactly(E, entries[1..], leaf);
      if at: nat :| FirstWithLeaf(E, entries[1..], leaf) == Some(at) {
        var i :| 0 <= i < |entries[1..]| && entries[1..][i].index == at
                 && LeafOf(E, entries[1..][i].statement) == leaf
                 && forall j | 0 <= j < i :: LeafOf(E, entries[1..][j].statement) != leaf;
        assert forall j | 0 < j <= i :: entries[j] == entries[1..][j - 1];
        assert entries[i + 1].index == at;
      }
    }
  }

  /** What each finding, and each reason for a missing entry, says of the receipt and the export. */
  lemma FindingsExactly(sn: Snapshot, item: HeldItem)
    requires item.receipt.Some? && forall i | 0 <= i < |sn.entries| :: sn.entries[i].index == i
    ensures var f, b, n := Classify(sn, item), item.receipt.value.body, |sn.entries|;
            (f.AfterSnapshot? <==> sn.headTime.Some? && b.registeredAt > sn.headTime.value && b.treeSize > n)
            && (f.Included? <==> Answerable(sn, item) && InItsPlace(sn, item))
            && (f.Missing? <==> Answerable(sn, item) && !InItsPlace(sn, item))
            && (f.Missing? && f.reason.Moved? ==>
                  f.reason.foundAt < n && LeafOf(sn.E, sn.entries[f.reason.foundAt].statement) == b.leafHash
                  && forall j | 0 <= j < f.reason.foundAt :: LeafOf(sn.E, sn.entries[j].statement) != b.leafHash)
            && (f.Missing? && f.reason.OutsideLog? ==> LeafGone(sn, b.leafHash) && !(0 <= b.leafIndex < n))
            && (f.Missing? && f.reason.Different? ==>
                  LeafGone(sn, b.leafHash) && 0 <= b.leafIndex < n
                  && f.reason.foundSub == sn.entries[b.leafIndex].statement.sub)
  {
    hide FirstWithLeaf, LeafOf;
    FirstWithLeafExactly(sn.E, sn.entries, item.receipt.value.body.leafHash);
  }

  // ---- the honest log ----------------------------------------------------------------------------------

  /** A receipt as issued verifies for its statement. */
  lemma IssuedReceiptVerifies(E: Encoding, S: Scheme<Message>, key: KeyPair, logId: string,
                              statements: seq<Statement>, i: nat, at: int)
    requires Genuine(S, key) && i < |statements|
    ensures ReceiptVerifies(E, S, IssuedReceipt(E, S, key, logId, statements, i, at), statements[i], key.publicKey)
  {
    var leaves := Leaves(E, statements)[..i + 1];
    InclusionComplete(E.H, i, leaves, Roots(leaves[i], leaves[i]));
  }

  /** Its root stays consistent with every later head. */
  lemma IssuedReceiptStaysConsistent(E: Encoding, S: Scheme<Message>, key: KeyPair, logId: string,
                                     statements: seq<Statement>, i: nat, at: int, later: seq<Statement>, now: int)
    requires i < |statements| <= |later| && later[..|statements|] == statements
    ensures var rc := IssuedReceipt(E, S, key, logId, statements, i, at).body;
            var head := IssuedHead(E, S, key, logId, later, now).body;
            ConsistencyAccepts(E.H, rc.treeSize, head.treeSize, rc.rootHash, head.rootHash,
                               ConsistencyPath(E.H, rc.treeSize, Leaves(E, later)))
  {
    LeavesOfPrefix(E, statements, later, i + 1);
    ConsistencyPathAccepted(E.H, i + 1, Leaves(E, later));
  }

  lemma LeavesOfPrefix(E: Encoding, a: seq<Statement>, b: seq<Statement>, n: nat)
    requires n <= |a| && n <= |b| && a[..n] == b[..n]
    ensures Leaves(E, a)[..n] == Leaves(E, b)[..n]
  {
    forall i | 0 <= i < n ensures Leaves(E, a)[i] == Leaves(E, b)[i] {
      assert a[i] == a[..n][i] == b[..n][i] == b[i];
    }
  }

  /** `sn` is what T exports after the first part of the history `all`. */
  ghost predicate HonestSnapshot(sn: Snapshot, key: KeyPair, all: seq<Statement>) {
    Genuine(sn.S, key) && sn.publicKey == key.publicKey && |sn.entries| <= |all|
    && StatementsOf(sn.entries) == all[..|sn.entries|]
  }

  /** The item is the receipt T issued for entry `i` of the history, registered at `times[i]`. */
  ghost predicate HonestItem(sn: Snapshot, key: KeyPair, all: seq<Statement>, times: seq<int>, item: HeldItem, i: nat)
    requires |times| == |all|
  {
    i < |all| && item.receipt == Some(IssuedReceipt(sn.E, sn.S, key, sn.logId, all, i, times[i]))
  }

  lemma HonestFinding(sn: Snapshot, key: KeyPair, all: seq<Statement>, times: seq<int>, item: HeldItem, i: nat)
    requires |times| == |all| && HonestSnapshot(sn, key, all) && HonestItem(sn, key, all, times, item, i)
    requires sn.headTime.Some?
    ensures var f := Classify(sn, item);
            if i < |sn.entries| then f.Included?
            else if times[i] > sn.headTime.value then f.AfterSnapshot? else f.Missing?
    ensures i < |sn.entries| ==>
              AnchorHolds(sn.E.H, Leaves(sn.E, StatementsOf(sn.entries)), CheckpointOf(item.receipt.value))
  {
    hide Mth, InclusionPath, FirstWithLeaf;
    var rc := item.receipt.value;
    assert IsAuthentic(sn, rc);
    if i < |sn.entries| {
      assert StatementsOf(sn.entries)[i] == all[..|sn.entries|][i] == all[i];
      assert all[..|sn.entries|][..i + 1] == all[..i + 1];
      LeavesOfPrefix(sn.E, all, StatementsOf(sn.entries), i + 1);
    }
  }

  /**
    Receipts of an honest log pass exactly when every receipt of an entry behind the export carries
    a time after the export's head. An entry registered in the same millisecond as the head, but
    after it, is reported as missing.
   */
  lemma HonestLogPasses(sn: Snapshot, key: KeyPair, all: seq<Statement>, times: seq<int>, items: seq<HeldItem>,
                        at: seq<nat>)
    requires |times| == |all| && |at| == |items| && HonestSnapshot(sn, key, all) && sn.headTime.Some?
    requires forall k | 0 <= k < |items| :: at[k] < |all| && HonestItem(sn, key, all, times, items[k], at[k])
    ensures HeldOk(sn, items)
            <==> forall k | 0 <= k < |items| :: at[k] < |sn.entries| || times[at[k]] > sn.headTime.value
  {
    hide Classify, IssuedReceipt, HonestSnapshot, AnchorHolds, Leaves, GivesCheckpoint, HeldOk;
    HeldOkExactly(sn, items);
    forall k | 0 <= k < |items|
      ensures Classify(sn, items[k]).Missing? <==> !(at[k] < |sn.entries| || times[at[k]] > sn.headTime.value)
    {
      HonestFinding(sn, key, all, times, items[k], at[k]);
    }
    if NothingMissing(sn, items) {
      assert forall k | 0 <= k < |items| :: items[k] in items;
      HonestCheckpoints(sn, key, all, times, items, at);
    } else {
      var item :| item in items && Classify(sn, item).Missing?;
      var k :| 0 <= k < |items| && items[k] == item;
    }
  }

  /** The smallest false alarm: one more registration in the millisecond of the export's head. */
  lemma SameMillisecondFalseAlarm(E: Encoding, S: Scheme<Message>, key: KeyPair, logId: string, p: Statement,
                                  s: Statement, t: int)
    requires Genuine(S, key)
    ensures var sn := Snapshot(E, S, key.publicKey, logId, [LogEntry(0, p, t, LeafOf(E, p))], Some(t));
            var item := HeldItem(None, Some(IssuedReceipt(E, S, key, logId, [p, s], 1, t)));
            !HeldOk(sn, [item])
  {
    var sn := Snapshot(E, S, key.publicKey, logId, [LogEntry(0, p, t, LeafOf(E, p))], Some(t));
    var item := HeldItem(None, Some(IssuedReceipt(E, S, key, logId, [p, s], 1, t)));
    assert StatementsOf(sn.entries) == [p, s][..1];
    HonestFinding(sn, key, [p, s], [t, t], item, 1);
    assert item in [item];
    HeldOkExactly(sn, [item]);
  }

  /**
    Only the first receipt of each size has its root compared: a second one over another tree goes unseen
    behind it, and is seen when it comes first.
   */
  lemma SecondRootUnseen(E: Encoding, S: Scheme<Message>, key: KeyPair, logId: string, p: Statement, t: int,
                         other: Digest)
    requires Genuine(S, key) && other != LeafOf(E, p)
    ensures var sn := Snapshot(E, S, key.publicKey, logId, [LogEntry(0, p, t, LeafOf(E, p))], Some(t));
            var rc := IssuedReceipt(E, S, key, logId, [p], 0, t);
            var body := rc.body.(rootHash := other);
            var first := HeldItem(None, Some(rc));
            var second := HeldItem(None, Some(rc.(body := body, signature := S.sign(key, ReceiptMessage(body)))));
            HeldOk(sn, [first, second]) && !HeldOk(sn, [second, first])
  {
    hide Leaves;
    var sn := Snapshot(E, S, key.publicKey, logId, [LogEntry(0, p, t, LeafOf(E, p))], Some(t));
    var rc := IssuedReceipt(E, S, key, logId, [p], 0, t);
    var body := rc.body.(rootHash := other);
    var first := HeldItem(None, Some(rc));
    var second := HeldItem(None, Some(rc.(body := body, signature := S.sign(key, ReceiptMessage(body)))));
    OneLeaf(E, p);
    assert StatementsOf(sn.entries) == [p];
    assert Answerable(sn, first) && Answerable(sn, second) && InItsPlace(sn, first) && InItsPlace(sn, second);
    var held := [first, second];
    assert held[0] == first && held[1] == second && !FirstOfSize(sn, held, 1);
    assert FirstOfSize(sn, [second, first], 0) && !RootOfPrefix(sn, second);
  }

  lemma OneLeaf(E: Encoding, p: Statement)
    ensures Leaves(E, [p]) == [LeafOf(E, p)] && Leaves(E, [p])[..1] == [LeafOf(E, p)]
    ensures Mth(E.H, [LeafOf(E, p)]) == LeafOf(E, p)
  {
  }

  lemma {:induction false} HonestCheckpoints(sn: Snapshot, key: KeyPair, all: seq<Statement>, times: seq<int>,
                                             items: seq<HeldItem>, at: seq<nat>)
    requires |times| == |all| && |at| == |items| && HonestSnapshot(sn, key, all) && sn.headTime.Some?
    requires forall k | 0 <= k < |items| :: at[k] < |all| && HonestItem(sn, key, all, times, items[k], at[k])
    requires forall k | 0 <= k < |items| :: at[k] < |sn.entries| || times[at[k]] > sn.headTime.value
    ensures CheckpointsHold(sn, items)
  {
    hide HonestSnapshot, AnchorHolds, Leaves;
    if items != [] {
      var n := |items| - 1;
      HonestCheckpoints(sn, key, all, times, items[..n], at[..n]);
      HonestFinding(sn, key, all, times, items[n], at[n]);
      if GivesCheckpoint(sn, items[n]) {
        SetDefaultMembers(Checkpoints(sn, items[..n]), CheckpointOf(items[n].receipt.value));
      }
    }
  }

  lemma {:induction false} SetDefaultMembers(cs: seq<AnchorRecord>, rec: AnchorRecord)
    ensures forall c | c in SetDefault(cs, rec) :: c in cs || c == rec
    ensures forall c | c in cs :: c in SetDefault(cs, rec)
    ensures exists c :: c in SetDefault(cs, rec) && c.treeSize == rec.treeSize
  {
    if cs == [] || rec.treeSize < cs[0].treeSize {
      assert rec in SetDefault(cs, rec);
    } else if rec.treeSize == cs[0].treeSize {
      assert cs[0] in SetDefault(cs, rec);
    } else {
      SetDefaultMembers(cs[1..], rec);
    }
  }

  // ---- the rewritten log ------------------------------------------------------------------------------

  /** The leaf inputs whose collision alone could pass one of these statements off as another. */
  ghost function LeafInputs(E: Encoding, statements: seq<Statement>): set<Bytes> {
    set s | s in statements :: LeafInputOf(E, s)
  }

  lemma LeafDecidesStatement(E: Encoding, s: Statement, t: Statement, inputs: set<Bytes>)
    requires Lossless(E) && CollisionFree(E.H, inputs)
    requires LeafInputOf(E, s) in inputs && LeafInputOf(E, t) in inputs
    requires LeafOf(E, s) == LeafOf(E, t)
    ensures s == t
  {
    var a, b := LeafInputOf(E, s), LeafInputOf(E, t);
    assert a == b && a[1..] == E.leafBytes(s) && b[1..] == E.leafBytes(t);
  }

  /** `rc` is an authentic receipt for `s`. */
  ghost predicate IsReceiptFor(sn: Snapshot, rc: RegistrationReceipt, s: Statement) {
    IsAuthentic(sn, rc) && rc.body.leafHash == LeafOf(sn.E, s)
  }

  /** The receipt promises that `s` is in this export: it is not about a later log stamped after the head. */
  ghost predicate Promises(sn: Snapshot, rc: RegistrationReceipt, s: Statement) {
    IsReceiptFor(sn, rc, s) && !IsAfterSnapshot(sn, rc)
  }

  /**
    A statement that is not in the place its receipt names is reported missing exactly when the receipt
    is not set aside. T chooses the time of the head, so this is the limit of seeing an omission.
   */
  lemma DisplacedStatementSeen(sn: Snapshot, items: seq<HeldItem>, item: HeldItem, s: Statement)
    requires item in items && item.receipt.Some? && IsReceiptFor(sn, item.receipt.value, s)
    requires var i := item.receipt.value.body.leafIndex;
             0 <= i < |sn.entries| ==> sn.entries[i].statement != s
    requires Lossless(sn.E) && CollisionFree(sn.E.H, LeafInputs(sn.E, StatementsOf(sn.entries) + [s]))
    ensures Classify(sn, item).Missing? <==> !IsAfterSnapshot(sn, item.receipt.value)
    ensures Promises(sn, item.receipt.value, s) ==> !HeldOk(sn, items)
  {
    var rc := item.receipt.value;
    HeldOkExactly(sn, items);
    if LeafInPlace(sn, rc) {
      var t := sn.entries[rc.body.leafIndex].statement;
      assert StatementsOf(sn.entries)[rc.body.leafIndex] == t;
      assert t in StatementsOf(sn.entries) + [s] && s in StatementsOf(sn.entries) + [s];
      LeafDecidesStatement(sn.E, s, t, LeafInputs(sn.E, StatementsOf(sn.entries) + [s]));
    }
  }

  /** Leaving a request out is seen through any receipt for one of its statements. */
  lemma OmissionSeen(sn: Snapshot, items: seq<HeldItem>, item: HeldItem, before: seq<Statement>, s: Statement,
                     appended: seq<Statement>)
    requires StatementsOf(sn.entries) == WithoutSub(before, s.sub) + appended && s !in appended
    requires item in items && item.receipt.Some? && Promises(sn, item.receipt.value, s)
    requires Lossless(sn.E) && CollisionFree(sn.E.H, LeafInputs(sn.E, StatementsOf(sn.entries) + [s]))
    ensures !HeldOk(sn, items)
  {
    WithoutSubMembers(before, s.sub);
    var i := item.receipt.value.body.leafIndex;
    if 0 <= i < |sn.entries| {
      assert StatementsOf(sn.entries)[i] in StatementsOf(sn.entries);
    }
    DisplacedStatementSeen(sn, items, item, s);
  }

  lemma {:induction false} WithoutSubMembers(statements: seq<Statement>, sub: string)
    ensures forall s | s in WithoutSub(statements, sub) :: s.sub != sub
  {
    if statements != [] {
      WithoutSubMembers(statements[..|statements| - 1], sub);
    }
  }

  /** Rewriting an entry is seen through the receipt for what stood there. */
  lemma RewritingSeen(sn: Snapshot, items: seq<HeldItem>, item: HeldItem, before: seq<Statement>, index: nat,
                      s: Statement, appended: seq<Statement>)
    requires index < |before| && before[index] != s
    requires StatementsOf(sn.entries) == before[index := s] + appended
    requires item in items && item.receipt.Some? && item.receipt.value.body.leafIndex == index
    requires Promises(sn, item.receipt.value, before[index])
    requires Lossless(sn.E) && CollisionFree(sn.E.H, LeafInputs(sn.E, StatementsOf(sn.entries) + [before[index]]))
    ensures !HeldOk(sn, items)
  {
    assert StatementsOf(sn.entries)[index] == s;
    DisplacedStatementSeen(sn, items, item, before[index]);
  }

  /** An anchor taken on `before` fails on every log that does not keep the anchored prefix. */
  lemma AnchorSeesRewriting(E: Encoding, before: seq<Statement>, after: seq<Statement>, rec: AnchorRecord)
    requires rec.treeSize <= |before| && rec.rootHash == Mth(E.H, Leaves(E, before)[..rec.treeSize])
    requires Lossless(E)
    requires CollisionFree(E.H, LeafInputs(E, before + after))
    requires rec.treeSize <= |after| ==>
               CollisionFree(E.H, TreeInputs(E.H, Leaves(E, before)[..rec.treeSize])
                                  + TreeInputs(E.H, Leaves(E, after)[..rec.treeSize]))
    requires rec.tsa != Some(false)
    ensures AnchorHolds(E.H, Leaves(E, after), rec)
            <==> rec.treeSize <= |after| && after[..rec.treeSize] == before[..rec.treeSize]
  {
    hide Mth, TreeInputs;
    var n := rec.treeSize;
    if AnchorHolds(E.H, Leaves(E, after), rec) {
      var a, b := Leaves(E, after)[..n], Leaves(E, before)[..n];
      MthInjective(E.H, b, a);
      forall i | 0 <= i < n ensures after[i] == before[i] {
        assert a[i] == b[i];
        assert after[i] in before + after && before[i] in before + after;
        LeafDecidesStatement(E, after[i], before[i], LeafInputs(E, before + after));
      }
      assert after[..n] == before[..n];
    } else if n <= |after| && after[..n] == before[..n] {
      LeavesOfPrefix(E, after, before, n);
    }
  }

  /** After leaving a request out, no anchor that covers one of its statements holds any more. */
  lemma OmissionBreaksAnchor(E: Encoding, before: seq<Statement>, sub: string, appended: seq<Statement>, j: nat,
                             rec: AnchorRecord)
    requires j < rec.treeSize <= |before| && before[j].sub == sub && before[j] !in appended
    requires rec.rootHash == Mth(E.H, Leaves(E, before)[..rec.treeSize]) && rec.tsa != Some(false)
    requires Lossless(E)
    requires var after := WithoutSub(before, sub) + appended;
             CollisionFree(E.H, LeafInputs(E, before + after))
             && (rec.treeSize <= |after| ==>
                   CollisionFree(E.H, TreeInputs(E.H, Leaves(E, before)[..rec.treeSize])
                                      + TreeInputs(E.H, Leaves(E, after)[..rec.treeSize])))
    ensures !AnchorHolds(E.H, Leaves(E, WithoutSub(before, sub) + appended), rec)
  {
    var after := WithoutSub(before, sub) + appended;
    AnchorSeesRewriting(E, before, after, rec);
    WithoutSubMembers(before, sub);
    if rec.treeSize <= |after| {
      assert after[j] in after && after[j] != before[j];
      assert after[..rec.treeSize][j] == after[j] && before[..rec.treeSize][j] == before[j];
    }
  }
}

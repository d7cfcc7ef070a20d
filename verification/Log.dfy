/** The append-only log of T, its registration receipts and its checkpoints. */
module Log {
  import opened Bytes
  import opened Options
  import opened Sequences
  import opened Merkle
  import opened Proofs
  import opened Verifiers
  import opened Signatures
  import opened Statements

  datatype LogEntry = LogEntry(index: nat, statement: Statement, registeredAt: int, leafHash: Digest)

  function LeafInputOf(E: Encoding, s: Statement): Bytes { LeafInput(E.leafBytes(s)) }

  function LeafOf(E: Encoding, s: Statement): Digest { LeafHash(E.H, E.leafBytes(s)) }

  /** The leaves of the tree over a list of statements. */
  function Leaves(E: Encoding, statements: seq<Statement>): (r: seq<Digest>)
    ensures |r| == |statements|
  {
    seq(|statements|, i requires 0 <= i < |statements| => LeafOf(E, statements[i]))
  }

  function StatementsOf(entries: seq<LogEntry>): seq<Statement> { Mapped((e: LogEntry) => e.statement, entries) }

  // ---- the tree wrapper ------------------------------------------------------------------------------

  class MerkleTree {
    const H: Hash
    var leaves: seq<Digest>

    constructor (H: Hash)
      ensures this.H == H && leaves == []
    {
      this.H := H;
      leaves := [];
    }

    method Append(data: Bytes) returns (index: nat)
      modifies this
      ensures leaves == old(leaves) + [LeafHash(H, data)] && index == |old(leaves)|
    {
      leaves := leaves + [LeafHash(H, data)];
      index := |leaves| - 1;
    }

    function Root(): Digest
      reads this
    {
      Mth(H, leaves)
    }

    /** `None` stands for the error on a size beyond the tree. */
    function RootAt(size: nat): Option<Digest>
      reads this
    {
      if size > |leaves| then None else Some(Mth(H, leaves[..size]))
    }

    method ReplaceLeaf(index: nat, data: Bytes)
      requires index < |leaves|
      modifies this
      ensures leaves == old(leaves)[index := LeafHash(H, data)]
    {
      leaves := leaves[index := LeafHash(H, data)];
    }
  }

  // ---- receipts and heads -----------------------------------------------------------------------------

  /** The receipt T signs when entry `i` has just been appended. */
  function IssuedReceipt(E: Encoding, S: Scheme<Message>, key: KeyPair, logId: string, statements: seq<Statement>,
                         i: nat, at: int): RegistrationReceipt
    requires i < |statements|
  {
    var leaves := Leaves(E, statements)[..i + 1];
    var body := ReceiptBody(logId, i, i + 1, Mth(E.H, leaves), leaves[i], at, key.kid);
    RegistrationReceipt(body, InclusionPath(E.H, i, leaves), S.sign(key, ReceiptMessage(body)))
  }

  function IssuedHead(E: Encoding, S: Scheme<Message>, key: KeyPair, logId: string, statements: seq<Statement>,
                      now: int): TreeHead
  {
    var body := HeadBody(logId, |statements|, Mth(E.H, Leaves(E, statements)), now, key.kid);
    TreeHead(body, S.sign(key, HeadMessage(body)))
  }

  predicate ReceiptVerifies(E: Encoding, S: Scheme<Message>, receipt: RegistrationReceipt, statement: Statement,
                            publicKey: Bytes)
  {
    var b := receipt.body;
    S.verify(publicKey, ReceiptMessage(b), receipt.signature)
    && LeafOf(E, statement) == b.leafHash
    && InclusionAccepts(E.H, b.leafIndex, b.treeSize, b.leafHash, receipt.inclusionProof, b.rootHash)
  }

  method VerifyReceipt(E: Encoding, S: Scheme<Message>, receipt: RegistrationReceipt, statement: Statement,
                       publicKey: Bytes)
    returns (ok: bool)
    ensures ok == ReceiptVerifies(E, S, receipt, statement, publicKey)
  {
    var b := receipt.body;
    if !S.verify(publicKey, ReceiptMessage(b), receipt.signature) {
      return false;
    }
    var leaf := LeafOf(E, statement);
    if leaf != b.leafHash {
      return false;
    }
    ok := VerifyInclusion(E.H, b.leafIndex, b.treeSize, leaf, receipt.inclusionProof, b.rootHash);
  }

  predicate HeadVerifies(S: Scheme<Message>, head: TreeHead, publicKey: Bytes) {
    S.verify(publicKey, HeadMessage(head.body), head.signature)
  }

  const MAX_AUDIT_ENTRIES := 100000

  /** `verify_head`: a checkpoint of the pinned T. */
  predicate PinnedHead(S: Scheme<Message>, logId: string, tsKid: string, tsKey: Bytes, head: TreeHead) {
    head.body.logId == logId && head.body.tsKid == tsKid && 1 <= head.body.treeSize <= MAX_AUDIT_ENTRIES
    && HeadVerifies(S, head, tsKey)
  }

  /** A pinned checkpoint names this log and key, has an auditable size, and was signed by T if T's key is T's. */
  lemma PinnedHeadIsSigned(S: Scheme<Message>, logId: string, tsKid: string, tsKey: Bytes, head: TreeHead,
                           signed: set<Message>)
    requires PinnedHead(S, logId, tsKid, tsKey, head)
    requires forall m, signature | S.verify(tsKey, m, signature) :: m in signed
    ensures HeadMessage(head.body) in signed && head.body.logId == logId && head.body.tsKid == tsKid
    ensures 1 <= head.body.treeSize <= 100000
  {
  }

  // ---- registration policy -------------------------------------------------------------------------------

  datatype Policy = Policy(
    allowedContentTypes: set<string>, subMatches: string -> bool, trusted: map<string, (string, Bytes)>,
    issuerContentTypes: map<string, seq<string>>, validPayload: (string, Payload) -> bool)

  datatype Refusal = TypeNotAllowed | SubMismatch | UnknownKid | KidNotBound | BadSignature | NotAuthorized | BadPayload

  /** The rules as configured, with T's own key, which may sign policies and verdicts and nothing else. */
  function Effective(rules: Policy, key: KeyPair, tsIss: string): Policy {
    rules.(allowedContentTypes := rules.allowedContentTypes + {CT_POLICY},
           trusted := rules.trusted[key.kid := (tsIss, key.publicKey)],
           issuerContentTypes := rules.issuerContentTypes[tsIss := [CT_POLICY, CT_VERDICT]])
  }

  /** `issue` */
  function IssueStatement(S: Scheme<Message>, key: KeyPair, iss: string, sub: string, contentType: string,
                          payload: Payload, at: int): Statement
  {
    var unsigned := Statement(iss, sub, contentType, key.kid, at, payload, []);
    unsigned.(signature := S.sign(key, StatementMessage(unsigned)))
  }

  /** The rules as a statement of T, with their serialisation `content`. */
  function PolicyStatement(S: Scheme<Message>, key: KeyPair, logId: string, tsIss: string, content: Bytes,
                           at: int): Statement
  {
    IssueStatement(S, key, tsIss, "urn:itx:policy:" + logId, CT_POLICY, OtherPayload(content), at)
  }

  function CheckPolicy(S: Scheme<Message>, p: Policy, s: Statement): seq<Refusal> {
    (if s.contentType !in p.allowedContentTypes then [TypeNotAllowed] else [])
    + (if !p.subMatches(s.sub) then [SubMismatch] else [])
    + (if s.kid !in p.trusted then [UnknownKid]
       else if p.trusted[s.kid].0 != s.iss then [KidNotBound]
       else if !S.verify(p.trusted[s.kid].1, ToBeSigned(s), s.signature) then [BadSignature] else [])
    + (if s.iss !in p.issuerContentTypes || s.contentType !in p.issuerContentTypes[s.iss] then [NotAuthorized] else [])
    + (if !p.validPayload(s.contentType, s.payload) then [BadPayload] else [])
  }

  /** Signed with a pinned key of its issuer, who may make statements of this type. */
  ghost predicate Authentic(S: Scheme<Message>, p: Policy, s: Statement) {
    s.kid in p.trusted && p.trusted[s.kid].0 == s.iss && S.verify(p.trusted[s.kid].1, ToBeSigned(s), s.signature)
    && s.iss in p.issuerContentTypes && s.contentType in p.issuerContentTypes[s.iss]
  }

  lemma AdmittedIsAuthentic(S: Scheme<Message>, p: Policy, s: Statement)
    ensures CheckPolicy(S, p, s) == [] ==> Authentic(S, p, s)
    ensures CheckPolicy(S, p, s) == [] <==>
              Authentic(S, p, s) && s.contentType in p.allowedContentTypes && p.subMatches(s.sub)
              && p.validPayload(s.contentType, s.payload)
  {
  }

  /** Each refusal is given exactly for its reason. */
  lemma RefusalExactly(S: Scheme<Message>, p: Policy, s: Statement, r: Refusal)
    ensures r in CheckPolicy(S, p, s) <==>
              match r
              case TypeNotAllowed => s.contentType !in p.allowedContentTypes
              case SubMismatch => !p.subMatches(s.sub)
              case UnknownKid => s.kid !in p.trusted
              case KidNotBound => s.kid in p.trusted && p.trusted[s.kid].0 != s.iss
              case BadSignature =>
                s.kid in p.trusted && p.trusted[s.kid].0 == s.iss
                && !S.verify(p.trusted[s.kid].1, ToBeSigned(s), s.signature)
              case NotAuthorized => !(s.iss in p.issuerContentTypes && s.contentType in p.issuerContentTypes[s.iss])
              case BadPayload => !p.validPayload(s.contentType, s.payload)
  {
  }

  /** Whoever holds T's key can register policies and verdicts of T only, whatever the rules say. */
  lemma OwnKeyIsLimited(S: Scheme<Message>, rules: Policy, key: KeyPair, tsIss: string, s: Statement)
    requires CheckPolicy(S, Effective(rules, key, tsIss), s) == []
    ensures s.kid == key.kid ==> s.iss == tsIss
    ensures s.iss == tsIss ==> s.contentType in {CT_POLICY, CT_VERDICT}
  {
    AdmittedIsAuthentic(S, Effective(rules, key, tsIss), s);
  }

  // ---- the log -----------------------------------------------------------------------------------------

  class TransparencyLog {
    const E: Encoding
    const S: Scheme<Message>
    const key: KeyPair
    const logId: string
    const policy: Policy
    var tree: MerkleTree
    var entries: seq<LogEntry>

    ghost predicate Valid()
      reads this, tree
    {
      tree.H == E.H && tree.leaves == Leaves(E, Statements())
      && forall i | 0 <= i < |entries| ::
           entries[i].index == i && entries[i].leafHash == LeafOf(E, entries[i].statement)
    }

    function Statements(): seq<Statement>
      reads this
    {
      StatementsOf(entries)
    }

    /** The policy itself is entry 0. */
    constructor (E: Encoding, S: Scheme<Message>, key: KeyPair, logId: string, rules: Policy, tsIss: string,
                 content: Bytes, now: int)
      ensures Valid() && fresh(tree)
      ensures this.E == E && this.S == S && this.key == key && this.logId == logId
      ensures policy == Effective(rules, key, tsIss)
      ensures Statements() == [PolicyStatement(S, key, logId, tsIss, content, now)]
      ensures var s := PolicyStatement(S, key, logId, tsIss, content, now);
              entries == [LogEntry(0, s, now, LeafOf(E, s))]
    {
      this.E, this.S, this.key, this.logId, policy := E, S, key, logId, Effective(rules, key, tsIss);
      tree := new MerkleTree(E.H);
      entries := [];
      new;
      var _ := Append(PolicyStatement(S, key, logId, tsIss, content, now), now);
    }

    /** `Refused` stands for `RegistrationRefused`; a refused statement leaves the log as it was. */
    method Register(s: Statement, at: int) returns (r: Option<RegistrationReceipt>)
      requires Valid()
      modifies this`entries, tree
      ensures Valid()
      ensures r.Some? <==> CheckPolicy(S, policy, s) == []
      ensures r.None? ==> entries == old(entries) && tree.leaves == old(tree.leaves)
      ensures r.Some? ==>
                entries == old(entries) + [LogEntry(|old(entries)|, s, at, LeafOf(E, s))]
                && Statements() == old(Statements()) + [s]
                && r.value == IssuedReceipt(E, S, key, logId, Statements(), |old(entries)|, at)
    {
      if CheckPolicy(S, policy, s) != [] {
        return None;
      }
      var receipt := Append(s, at);
      return Some(receipt);
    }

    method Append(s: Statement, at: int) returns (receipt: RegistrationReceipt)
      requires Valid()
      modifies this`entries, tree
      ensures Valid()
      ensures entries == old(entries) + [LogEntry(|old(entries)|, s, at, LeafOf(E, s))]
      ensures Statements() == old(Statements()) + [s]
      ensures receipt == IssuedReceipt(E, S, key, logId, Statements(), |old(entries)|, at)
    {
      ghost var before := Statements();
      var index := tree.Append(E.leafBytes(s));
      var leaf := tree.leaves[index];
      entries := entries + [LogEntry(index, s, at, leaf)];
      assert Statements() == before + [s];
      assert tree.leaves == Leaves(E, Statements());
      assert Leaves(E, Statements())[..index + 1] == tree.leaves;
      var body := ReceiptBody(logId, index, |tree.leaves|, tree.Root(), leaf, at, key.kid);
      receipt := RegistrationReceipt(body, InclusionPath(E.H, index, tree.leaves), S.sign(key, ReceiptMessage(body)));
    }

    method Head(now: int) returns (head: TreeHead)
      requires Valid()
      ensures head == IssuedHead(E, S, key, logId, Statements(), now)
    {
      var body := HeadBody(logId, |tree.leaves|, tree.Root(), now, key.kid);
      head := TreeHead(body, S.sign(key, HeadMessage(body)));
    }

    /** The operator leaves a request out: the rest is renumbered and the tree rebuilt. */
    method DropSub(sub: string) returns (removed: seq<nat>)
      requires Valid()
      modifies this
      ensures Valid() && fresh(tree)
      ensures Statements() == WithoutSub(old(Statements()), sub)
      ensures removed == IndexesOf(old(Statements()), sub)
    {
      hide WithoutSub, IndexesOf;
      removed := [];
      var kept := entries;
      ghost var all := Statements();
      tree := new MerkleTree(E.H);
      entries := [];
      NothingKept(all, sub);
      for i := 0 to |kept|
        modifies this`entries, tree
        invariant Valid()
        invariant Statements() == WithoutSub(all[..i], sub)
        invariant removed == IndexesOf(all[..i], sub)
      {
        DropStep(all, i, sub);
        if kept[i].statement.sub == sub {
          removed := removed + [kept[i].index];
        } else {
          ghost var before := Statements();
          var index := tree.Append(E.leafBytes(kept[i].statement));
          entries := entries + [LogEntry(index, kept[i].statement, kept[i].registeredAt, tree.leaves[index])];
          assert Statements() == before + [kept[i].statement];
        }
      }
      assert all[..|kept|] == all;
    }

    /** The operator rewrites an entry in place. */
    method TamperEntry(index: nat, s: Statement)
      requires Valid() && index < |entries|
      modifies this`entries, tree
      ensures Valid()
      ensures Statements() == old(Statements())[index := s]
    {
      tree.ReplaceLeaf(index, E.leafBytes(s));
      entries := entries[index := entries[index].(statement := s, leafHash := tree.leaves[index])];
      assert Statements() == old(Statements())[index := s];
    }
  }

  function WithoutSub(statements: seq<Statement>, sub: string): seq<Statement> {
    if statements == [] then []
    else
      var n := |statements| - 1;
      WithoutSub(statements[..n], sub) + if statements[n].sub == sub then [] else [statements[n]]
  }

  function IndexesOf(statements: seq<Statement>, sub: string): seq<nat> {
    if statements == [] then []
    else
      var n := |statements| - 1;
      IndexesOf(statements[..n], sub) + if statements[n].sub == sub then [n] else []
  }

  lemma DropStep(statements: seq<Statement>, i: nat, sub: string)
    requires i < |statements|
    ensures WithoutSub(statements[..i + 1], sub) ==
            WithoutSub(statements[..i], sub) + if statements[i].sub == sub then [] else [statements[i]]
    ensures IndexesOf(statements[..i + 1], sub) ==
            IndexesOf(statements[..i], sub) + if statements[i].sub == sub then [i] else []
  {
    assert statements[..i + 1][..i] == statements[..i];
  }

  lemma NothingKept(all: seq<Statement>, sub: string)
    ensures WithoutSub(all[..0], sub) == [] && IndexesOf(all[..0], sub) == [] && StatementsOf([]) == []
  {
  }
}

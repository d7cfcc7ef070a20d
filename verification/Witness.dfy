/** The witness W: a ledger of checkpoints of T, each consistent with the one before. */
module Witness {
  import opened Bytes
  import opened Options
  import opened Merkle
  import opened Proofs
  import opened Verifiers
  import opened Signatures
  import opened Statements
  import opened Log

  /** What W has pinned, and its own key. `ser` serialises a receipt for its fingerprint. */
  datatype Config = Config(H: Hash, S: Scheme<Message>, key: KeyPair, ser: WitnessReceipt -> Bytes, logId: string,
                           tsKid: string, tsKey: Bytes, policyHash: Digest, capacity: nat)

  function Fingerprint(c: Config, r: WitnessReceipt): Digest { c.H(c.ser(r)) }

  predicate HeadPinned(c: Config, head: TreeHead) { PinnedHead(c.S, c.logId, c.tsKid, c.tsKey, head) }

  function Issue(c: Config, head: TreeHead, previous: Option<WitnessReceipt>, now: int): WitnessReceipt {
    var sequence := if previous.Some? then previous.value.body.sequence + 1 else 1;
    var link := if previous.Some? then Some(Fingerprint(c, previous.value)) else None;
    var body := WitnessBody(c.key.kid, head, c.policyHash, now, sequence, link);
    WitnessReceipt(body, c.S.sign(c.key, WitnessMessage(body)))
  }

  datatype Reply = StaleHead | BadHead | Rollback | ConflictingRoots | HistoryConflict | AtCapacity
                 | Witnessed(receipt: WitnessReceipt)

  /** One link of the ledger, with the proof T gave for it. */
  datatype Link = Link(receipt: WitnessReceipt, proof: seq<Digest>)

  /** The head may follow the receipt. */
  predicate Extends(c: Config, before: WitnessReceipt, head: TreeHead, proof: seq<Digest>) {
    before.body.head.body.treeSize < head.body.treeSize
    && ConsistencyAccepts(c.H, before.body.head.body.treeSize, head.body.treeSize,
                          before.body.head.body.rootHash, head.body.rootHash, proof)
  }

  /** `verify_witness_receipt`, against the pinned identity of W. */
  predicate WitnessReceiptVerifies(c: Config, receipt: WitnessReceipt) {
    receipt.body.kid == c.key.kid && receipt.body.policyHash == c.policyHash && receipt.body.sequence >= 1
    && c.S.verify(c.key.publicKey, WitnessMessage(receipt.body), receipt.signature)
    && HeadPinned(c, receipt.body.head)
  }

  /** A receipt verifies exactly if it is W's, for this policy, about a checkpoint of the pinned T, and numbered. */
  lemma WitnessReceiptExactly(c: Config, receipt: WitnessReceipt)
    ensures WitnessReceiptVerifies(c, receipt) <==>
              c.S.verify(c.key.publicKey, WitnessMessage(receipt.body), receipt.signature)
              && receipt.body.kid == c.key.kid && receipt.body.policyHash == c.policyHash && receipt.body.sequence != 0
              && PinnedHead(c.S, c.logId, c.tsKid, c.tsKey, receipt.body.head)
  {
  }

  /** Receipt `i` is numbered `i + 1`, verifies, names its predecessor's fingerprint and extends its checkpoint. */
  ghost predicate LinkOk(c: Config, chain: seq<Link>, i: nat)
    requires i < |chain|
  {
    var receipt := chain[i].receipt;
    receipt.body.sequence == i + 1 && WitnessReceiptVerifies(c, receipt)
    && if i == 0 then receipt.body.previous == None
       else receipt.body.previous == Some(Fingerprint(c, chain[i - 1].receipt))
            && Extends(c, chain[i - 1].receipt, receipt.body.head, chain[i].proof)
  }

  /** Every receipt ever issued, in order. */
  ghost predicate ChainOk(c: Config, chain: seq<Link>) {
    forall i | 0 <= i < |chain| :: LinkOk(c, chain, i)
  }

  class WitnessService {
    const c: Config
    var latest: Option<WitnessReceipt>
    var numbered: map<nat, WitnessReceipt>
    ghost var chain: seq<Link>

    ghost predicate Valid()
      reads this
    {
      Genuine(c.S, c.key) && ChainOk(c, chain)
      && latest == (if chain == [] then None else Some(chain[|chain| - 1].receipt))
      && (forall n :: n in numbered <==> 1 <= n <= |chain|)
      && forall n | n in numbered :: numbered[n] == chain[n - 1].receipt
    }

    constructor (c: Config)
      requires Genuine(c.S, c.key)
      ensures Valid() && this.c == c && chain == []
    {
      this.c := c;
      latest, numbered, chain := None, map[], [];
    }

    /** `proof` is what T answers when asked for a consistency proof; nothing is known about it. */
    method Handle(head: TreeHead, proof: seq<Digest>, now: int) returns (reply: Reply)
      requires Valid()
      modifies this
      ensures Valid()
      ensures chain == old(chain) ||
              (reply.Witnessed? && reply.receipt.body.head == head
               && chain == old(chain) + [Link(reply.receipt, proof)])
      ensures reply.Witnessed? ==>
                chain != [] && reply.receipt == chain[|chain| - 1].receipt
                && reply.receipt.body.head.body.treeSize == head.body.treeSize
                && reply.receipt.body.head.body.rootHash == head.body.rootHash
      ensures reply.Witnessed? <==>
                HeadPinned(c, head) && now - 300000 <= head.body.time <= now + 5000
                && if old(latest).None? then c.capacity >= 1
                   else var before := old(latest).value;
                        (before.body.head.body.treeSize == head.body.treeSize
                         && before.body.head.body.rootHash == head.body.rootHash)
                        || (Extends(c, before, head, proof) && before.body.sequence < c.capacity)
    {
      hide HeadPinned, Extends, Fingerprint, ConsistencyAccepts, ChainOk;
      LastLink(c, chain);
      if !HeadPinned(c, head) {
        return BadHead;
      }
      if !(now - 300000 <= head.body.time <= now + 5000) {
        return StaleHead;
      }
      if latest.Some? {
        var before := latest.value.body.head.body;
        ExtendsMeans(c, latest.value, head, proof);
        if head.body.treeSize < before.treeSize {
          return Rollback;
        }
        if head.body.treeSize == before.treeSize {
          if head.body.rootHash != before.rootHash {
            return ConflictingRoots;
          }
          return Witnessed(latest.value);
        }
        var consistent := VerifyConsistency(c.H, before.treeSize, head.body.treeSize, before.rootHash,
                                            head.body.rootHash, proof);
        if !consistent {
          return HistoryConflict;
        }
      }
      var sequence := if latest.Some? then latest.value.body.sequence + 1 else 1;
      if sequence > c.capacity {
        return AtCapacity;
      }
      var receipt := Issue(c, head, latest, now);
      ghost var grown := chain + [Link(receipt, proof)];
      ChainGrows(c, chain, receipt, proof, now);
      latest, numbered, chain := Some(receipt), numbered[sequence := receipt], grown;
      return Witnessed(receipt);
    }
  }

  lemma ExtendsMeans(c: Config, before: WitnessReceipt, head: TreeHead, proof: seq<Digest>)
    ensures Extends(c, before, head, proof) <==>
              before.body.head.body.treeSize < head.body.treeSize
              && ConsistencyAccepts(c.H, before.body.head.body.treeSize, head.body.treeSize,
                                    before.body.head.body.rootHash, head.body.rootHash, proof)
  {
  }

  lemma LastLink(c: Config, chain: seq<Link>)
    requires ChainOk(c, chain)
    ensures chain != [] ==> chain[|chain| - 1].receipt.body.sequence == |chain|
  {
    if chain != [] {
      assert LinkOk(c, chain, |chain| - 1);
    }
  }

  lemma ChainGrows(c: Config, chain: seq<Link>, receipt: WitnessReceipt, proof: seq<Digest>, now: int)
    requires ChainOk(c, chain) && Genuine(c.S, c.key)
    requires HeadPinned(c, receipt.body.head)
    requires receipt == Issue(c, receipt.body.head, if chain == [] then None else Some(chain[|chain| - 1].receipt), now)
    requires chain != [] ==> Extends(c, chain[|chain| - 1].receipt, receipt.body.head, proof)
    ensures ChainOk(c, chain + [Link(receipt, proof)])
  {
    hide HeadPinned, Extends, Fingerprint;
    LastLink(c, chain);
    var grown := chain + [Link(receipt, proof)];
    forall i | 0 <= i < |grown| ensures LinkOk(c, grown, i) {
      if i < |chain| {
        assert LinkOk(c, chain, i);
      }
    }
  }

  // ---- main results ---------------------------------------------------------------------------------------

  function SizeAt(chain: seq<Link>, i: nat): nat
    requires i < |chain|
  {
    chain[i].receipt.body.head.body.treeSize
  }

  function RootAt(chain: seq<Link>, i: nat): Digest
    requires i < |chain|
  {
    chain[i].receipt.body.head.body.rootHash
  }

  /** Tree sizes strictly grow along the ledger, so no size has two receipts. */
  lemma {:induction false} SizesGrow(c: Config, chain: seq<Link>, i: nat, j: nat)
    requires ChainOk(c, chain) && i < j < |chain|
    ensures SizeAt(chain, i) < SizeAt(chain, j)
    decreases j
  {
    assert LinkOk(c, chain, j);
    if i < j - 1 {
      SizesGrow(c, chain, i, j - 1);
    }
  }

  /** Everything hashed in checking links `i + 1` to `j` against the leaves behind link `j`. */
  ghost function ChainInputs(c: Config, chain: seq<Link>, i: nat, j: nat, leaves: seq<Digest>): set<Bytes>
    requires i <= j < |chain|
    decreases j
  {
    if i == j then {}
    else
      var m := SizeAt(chain, j - 1);
      ConsistencyInputs(c.H, m, leaves, RootAt(chain, j - 1), chain[j].proof)
      + if m <= |leaves| then ChainInputs(c, chain, i, j - 1, leaves[..m]) else {}
  }

  /**
    Whatever leaves explain a later checkpoint, every earlier checkpoint of the ledger is the root of
    their prefix of that size.
   */
  lemma {:induction false} EarlierRootsArePrefixes(c: Config, chain: seq<Link>, i: nat, j: nat, leaves: seq<Digest>)
    requires ChainOk(c, chain) && i <= j < |chain|
    requires |leaves| == SizeAt(chain, j) && Mth(c.H, leaves) == RootAt(chain, j)
    requires CollisionFree(c.H, ChainInputs(c, chain, i, j, leaves))
    ensures SizeAt(chain, i) <= |leaves| && RootAt(chain, i) == Mth(c.H, leaves[..SizeAt(chain, i)])
    decreases j
  {
    hide Mth, ConsistencyAccepts, ConsistencyInputs;
    if i == j {
      assert leaves[..|leaves|] == leaves;
    } else {
      var m := SizeAt(chain, j - 1);
      LinkFacts(c, chain, j);
      assert ConsistencyInputs(c.H, m, leaves, RootAt(chain, j - 1), chain[j].proof)
             <= ChainInputs(c, chain, i, j, leaves);
      ConsistencyExact(c.H, m, leaves, RootAt(chain, j - 1), chain[j].proof);
      EarlierRootsArePrefixes(c, chain, i, j - 1, leaves[..m]);
      assert leaves[..m][..SizeAt(chain, i)] == leaves[..SizeAt(chain, i)];
    }
  }

  lemma LinkFacts(c: Config, chain: seq<Link>, j: nat)
    requires ChainOk(c, chain) && 0 < j < |chain|
    ensures 1 <= SizeAt(chain, j - 1) < SizeAt(chain, j)
    ensures ConsistencyAccepts(c.H, SizeAt(chain, j - 1), SizeAt(chain, j), RootAt(chain, j - 1), RootAt(chain, j),
                               chain[j].proof)
  {
    hide ConsistencyAccepts;
    assert LinkOk(c, chain, j - 1) && LinkOk(c, chain, j);
  }

  /** The ledger is bound together: replacing any receipt changes the fingerprint its successor names. */
  lemma LinksBind(c: Config, chain: seq<Link>, i: nat, other: WitnessReceipt)
    requires ChainOk(c, chain) && i + 1 < |chain|
    requires chain[i + 1].receipt.body.previous == Some(Fingerprint(c, other))
    requires forall r1, r2 | c.ser(r1) == c.ser(r2) :: r1 == r2
    requires CollisionFree(c.H, {c.ser(other), c.ser(chain[i].receipt)})
    ensures other == chain[i].receipt
  {
    assert LinkOk(c, chain, i + 1);
  }

  // ---- U's side ---------------------------------------------------------------------------------------------

  /** U keeps the receipt with the highest number it has seen; may this one come after it? */
  predicate MayFollow(c: Config, kept: Option<WitnessReceipt>, receipt: WitnessReceipt) {
    kept.Some? ==>
      var last := kept.value.body.sequence;
      last <= receipt.body.sequence
      && (receipt.body.sequence == last ==> Fingerprint(c, receipt) == Fingerprint(c, kept.value))
      && (receipt.body.sequence == last + 1 ==> receipt.body.previous == Some(Fingerprint(c, kept.value)))
  }

  class Observer {
    const c: Config
    var kept: Option<WitnessReceipt>

    constructor (c: Config)
      ensures this.c == c && kept == None
    {
      this.c, kept := c, None;
    }

    /** `witness`: T is asked for a head, W for a receipt about it. */
    method Witness(head: TreeHead, receipt: WitnessReceipt) returns (ok: bool)
      modifies this
      ensures ok <==> WitnessReceiptVerifies(c, receipt) && MayFollow(c, old(kept), receipt)
                      && receipt.body.head.body.logId == head.body.logId
                      && receipt.body.head.body.treeSize == head.body.treeSize
                      && receipt.body.head.body.rootHash == head.body.rootHash
      ensures kept == if ok then Some(receipt) else old(kept)
    {
      hide WitnessReceiptVerifies, Fingerprint;
      if !WitnessReceiptVerifies(c, receipt) {
        return false;
      }
      var b := receipt.body.head.body;
      if b.logId != head.body.logId || b.treeSize != head.body.treeSize || b.rootHash != head.body.rootHash {
        return false;
      }
      if kept.Some? {
        var previous := kept.value;
        var oldSequence := previous.body.sequence;
        if receipt.body.sequence < oldSequence
           || (receipt.body.sequence == oldSequence && Fingerprint(c, receipt) != Fingerprint(c, previous))
        {
          return false;
        }
        if receipt.body.sequence == oldSequence + 1 && receipt.body.previous != Some(Fingerprint(c, previous)) {
          return false;
        }
      }
      kept := Some(receipt);
      return true;
    }
  }

  /** U never accuses an honest W, in whatever pace it follows the ledger. */
  lemma HonestWitnessFollows(c: Config, chain: seq<Link>, i: nat, j: nat)
    requires ChainOk(c, chain) && i <= j < |chain|
    ensures WitnessReceiptVerifies(c, chain[j].receipt)
    ensures MayFollow(c, Some(chain[i].receipt), chain[j].receipt)
  {
    hide HeadPinned, Extends, Fingerprint;
    assert LinkOk(c, chain, i) && LinkOk(c, chain, j);
  }

  /**
    A receipt of another ledger may follow the kept one exactly when the ledger contains the kept receipt,
    or when it is two numbers or more ahead: then U does not see the fork.
   */
  lemma ForkIsSeen(c: Config, fork: seq<Link>, kept: WitnessReceipt, j: nat)
    requires ChainOk(c, fork) && j < |fork| && kept.body.sequence >= 1
    requires forall r1, r2 | c.ser(r1) == c.ser(r2) :: r1 == r2
    requires CollisionFree(c.H, {c.ser(kept)} + set link | link in fork :: c.ser(link.receipt))
    ensures var last := kept.body.sequence;
            MayFollow(c, Some(kept), fork[j].receipt)
            <==> j + 1 >= last + 2 || (j + 1 in {last, last + 1} && kept == fork[last - 1].receipt)
  {
    hide HeadPinned, Extends;
    assert LinkOk(c, fork, j);
    var last := kept.body.sequence;
    if last <= j + 1 <= last + 1 {
      assert fork[last - 1] in fork;
    }
  }
}

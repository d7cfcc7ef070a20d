/** Deployments endorsed by their operators, and the chain of epochs behind one. */
module Enrollment {
  import opened Bytes
  import opened Options
  import opened Signatures
  import opened Statements
  import opened Log

  const MAX_DEPTH := 32
  const NO_SIGNATURE: Bytes := [0]
  const REQUIRED_ROLES := {"U", "R", "M", "T"}
  const ROLES := {"U", "R", "M", "T", "W"}

  datatype Card = Card(role: string, identity: Identity, expiresAt: int, endpoint: string, tlsCa: string)

  datatype Terms = Terms(preExec: bool, strictTimeoutMs: int, maxLogEntries: int, retentionDays: int, modelId: string,
                         modelHash: Bytes, modelKind: string, modelName: string)

  datatype Proposal = Proposal(deploymentId: string, epoch: int, previousHash: Option<Digest>,
                               previousCheckpoint: Option<TreeHead>, createdAt: int, expiresAt: int,
                               cards: map<string, Card>, terms: Terms)

  datatype Endorsement = Endorsement(role: string, deployment: Digest, signature: Bytes,
                                     previousSignature: Option<Bytes>)

  datatype Bundle = Bundle(proposal: Proposal, endorsements: seq<Endorsement>, previous: Option<Bundle>)

  /** Serialisation of proposals, the check of one operator card, the naming of logs, and the built-in mock model. */
  datatype Context = Context(H: Hash, S: Scheme<Message>, ser: Proposal -> Bytes, cardValid: Card -> bool,
                             logName: (string, int) -> string, mockId: string, mockHash: Bytes)

  function Fingerprint(w: Context, p: Proposal): Digest { w.H(w.ser(p)) }

  // ---- one proposal ---------------------------------------------------------------------------------------

  predicate TermsOk(w: Context, t: Terms) {
    100 <= t.strictTimeoutMs <= 10000 && 1 <= t.maxLogEntries <= 100000 && 1 <= t.retentionDays <= 3650
    && t.modelId != "" && |t.modelHash| == 32
    && (t.modelKind == "deterministic_mock"
        || (t.modelKind == "ollama" && t.modelName != "" && t.modelId != w.mockId && t.modelHash != w.mockHash))
  }

  predicate ProposalOk(w: Context, p: Proposal) {
    p.epoch >= 1 && REQUIRED_ROLES <= p.cards.Keys <= ROLES && p.createdAt < p.expiresAt && TermsOk(w, p.terms)
    && (forall r | r in p.cards ::
          w.cardValid(p.cards[r]) && p.cards[r].role == r && p.expiresAt <= p.cards[r].expiresAt)
    && (forall r, q | r in p.cards && q in p.cards && r != q ::
          p.cards[r].identity.publicKey != p.cards[q].identity.publicKey
          && (r != "U" && q != "U" ==> p.cards[r].tlsCa != p.cards[q].tlsCa))
  }

  // ---- the lineage ------------------------------------------------------------------------------------------

  /** A bundle and its predecessors, newest first. */
  function Lineage(b: Bundle): (l: seq<Bundle>)
    ensures l != [] && l[0] == b
  {
    [b] + if b.previous.Some? then Lineage(b.previous.value) else []
  }

  predicate Follows(w: Context, p: Proposal, before: Proposal) {
    p.previousHash == Some(Fingerprint(w, before)) && p.epoch == before.epoch + 1
    && p.deploymentId == before.deploymentId
    && p.cards.Keys == before.cards.Keys && p.previousCheckpoint.Some? && "T" in before.cards
    && PinnedHead(w.S, w.logName(before.deploymentId, before.epoch), before.cards["T"].identity.kid,
                  before.cards["T"].identity.publicKey, p.previousCheckpoint.value)
  }

  /** The endorsement is by an operator of `p`, over `p`, and with the key it had before if there was a before. */
  predicate EndorsementOk(w: Context, p: Proposal, before: Option<Proposal>, e: Endorsement) {
    var message := EndorsementMessage(e.role, Fingerprint(w, p));
    e.role in p.cards && e.deployment == Fingerprint(w, p)
    && w.S.verify(p.cards[e.role].identity.publicKey, message, e.signature)
    && (before.Some? ==>
          e.role in before.value.cards
          && w.S.verify(before.value.cards[e.role].identity.publicKey, message,
                        if e.previousSignature.Some? then e.previousSignature.value else NO_SIGNATURE))
  }

  /** Exactly one good endorsement per operator. */
  predicate Endorsed(w: Context, b: Bundle, before: Option<Proposal>) {
    (forall i | 0 <= i < |b.endorsements| :: EndorsementOk(w, b.proposal, before, b.endorsements[i]))
    && (forall i, j | 0 <= i < j < |b.endorsements| :: b.endorsements[i].role != b.endorsements[j].role)
    && (forall r | r in b.proposal.cards :: exists i :: 0 <= i < |b.endorsements| && b.endorsements[i].role == r)
  }

  predicate EpochOk(w: Context, l: seq<Bundle>, i: nat)
    requires i < |l|
  {
    var before := if i + 1 < |l| then Some(l[i + 1].proposal) else None;
    ProposalOk(w, l[i].proposal) && Endorsed(w, l[i], before)
    && if before.Some? then Follows(w, l[i].proposal, before.value)
       else l[i].proposal.previousHash == None && l[i].proposal.epoch == 1
  }

  predicate LineageOk(w: Context, l: seq<Bundle>) {
    forall i | 0 <= i < |l| :: EpochOk(w, l, i)
  }

  /** Returns the fingerprint of an accepted bundle; `None` stands for every error. */
  method VerifyDeployment(w: Context, bundle: Bundle, depth: nat) returns (r: Option<Digest>)
    ensures r.Some? <==> LineageOk(w, Lineage(bundle)) && depth + |Lineage(bundle)| <= MAX_DEPTH + 1
    ensures r.Some? ==> r.value == Fingerprint(w, bundle.proposal)
    decreases bundle
  {
    hide ProposalOk, Follows, EndorsementOk, Fingerprint;
    LineageStep(w, bundle);
    if depth > MAX_DEPTH {
      return None;
    }
    var p := bundle.proposal;
    if !ProposalOk(w, p) {
      return None;
    }
    var before: Option<Proposal> := None;
    if bundle.previous.Some? {
      var older := VerifyDeployment(w, bundle.previous.value, depth + 1);
      if older == None {
        return None;
      }
      before := Some(bundle.previous.value.proposal);
      if !Follows(w, p, before.value) {
        return None;
      }
    } else if p.previousHash.Some? || p.epoch != 1 {
      return None;
    }
    var received: set<string> := {};
    for k := 0 to |bundle.endorsements|
      invariant forall i | 0 <= i < k :: EndorsementOk(w, p, before, bundle.endorsements[i])
      invariant forall i, j | 0 <= i < j < k :: bundle.endorsements[i].role != bundle.endorsements[j].role
      invariant received <= p.cards.Keys
      invariant received == set i | 0 <= i < k :: bundle.endorsements[i].role
    {
      var e := bundle.endorsements[k];
      if e.role in received || !EndorsementOk(w, p, before, e) {
        return None;
      }
      EndorserIsMember(w, p, before, e);
      received := received + {e.role};
    }
    if received != p.cards.Keys {
      return None;
    }
    return Some(Fingerprint(w, p));
  }

  lemma EndorserIsMember(w: Context, p: Proposal, before: Option<Proposal>, e: Endorsement)
    requires EndorsementOk(w, p, before, e)
    ensures e.role in p.cards
  {
  }

  /** A lineage is accepted when its newest epoch is and the rest is a lineage that is. */
  lemma LineageStep(w: Context, b: Bundle)
    ensures LineageOk(w, Lineage(b)) <==>
              var before := if b.previous.Some? then Some(b.previous.value.proposal) else None;
              ProposalOk(w, b.proposal) && Endorsed(w, b, before)
              && if b.previous.Some? then
                   Follows(w, b.proposal, before.value) && LineageOk(w, Lineage(b.previous.value))
                 else b.proposal.previousHash == None && b.proposal.epoch == 1
  {
    hide ProposalOk, Follows, Endorsed;
    var l := Lineage(b);
    if b.previous.Some? {
      var rest := Lineage(b.previous.value);
      assert l == [b] + rest;
      assert rest[0] == b.previous.value && l[1] == rest[0];
      if LineageOk(w, l) {
        assert EpochOk(w, l, 0);
        forall i | 0 <= i < |rest| ensures EpochOk(w, rest, i) {
          assert EpochOk(w, l, i + 1);
        }
      }
      forall i | 0 < i < |l| && LineageOk(w, rest) ensures EpochOk(w, l, i) {
        assert EpochOk(w, rest, i - 1);
      }
    } else if LineageOk(w, l) {
      assert EpochOk(w, l, 0);
    }
  }

  // ---- the configuration ------------------------------------------------------------------------------------

  datatype HistoryLink = HistoryLink(epoch: int, deployment: Digest, previousHash: Option<Digest>,
                                     previousCheckpoint: Option<TreeHead>)

  function LinkOf(w: Context, p: Proposal): HistoryLink {
    HistoryLink(p.epoch, Fingerprint(w, p), p.previousHash, p.previousCheckpoint)
  }

  /** What a party runs an epoch with. */
  datatype LocalConfiguration = LocalConfiguration(
    version: nat, lab: bool, createdAt: int, policyExpiresAt: int, logId: string, epoch: int, deployment: Digest,
    history: seq<HistoryLink>, identities: map<string, Identity>, endpoints: map<string, string>,
    modelHashes: map<string, Bytes>, terms: Terms, queueCapacity: nat, governance: string)

  /** Identities are those of the newest cards, only services have endpoints, and the history is the whole lineage. */
  method Configuration(w: Context, bundle: Bundle) returns (c: LocalConfiguration)
    ensures |c.history| == |Lineage(bundle)|
    ensures forall i | 0 <= i < |c.history| :: c.history[i] == LinkOf(w, Lineage(bundle)[i].proposal)
    ensures var p := bundle.proposal;
            c.identities.Keys == p.cards.Keys && (forall r | r in p.cards :: c.identities[r] == p.cards[r].identity)
            && c.endpoints.Keys == p.cards.Keys - {"U"}
            && (forall r | r in c.endpoints :: c.endpoints[r] == p.cards[r].endpoint)
            && c.modelHashes == map[p.terms.modelId := p.terms.modelHash] && c.terms == p.terms
            && (c.createdAt, c.policyExpiresAt, c.epoch) == (p.createdAt, p.expiresAt, p.epoch)
            && c.logId == w.logName(p.deploymentId, p.epoch) && c.deployment == Fingerprint(w, p)
            && (c.version, c.lab, c.queueCapacity, c.governance) == (1, false, 256, "separately_provisioned_keys")
  {
    hide Fingerprint;
    var p := bundle.proposal;
    var history: seq<HistoryLink> := [];
    var current := Some(bundle);
    while current.Some?
      invariant |history| <= |Lineage(bundle)|
      invariant Lineage(bundle)[|history|..] == if current.Some? then Lineage(current.value) else []
      invariant forall i | 0 <= i < |history| :: history[i] == LinkOf(w, Lineage(bundle)[i].proposal)
      decreases current
    {
      var l := Lineage(current.value);
      assert Lineage(bundle)[|history|] == l[0];
      assert Lineage(bundle)[|history| + 1..] == l[1..];
      history := history + [LinkOf(w, current.value.proposal)];
      current := current.value.previous;
    }
    c := LocalConfiguration(1, false, p.createdAt, p.expiresAt, w.logName(p.deploymentId, p.epoch), p.epoch,
                            Fingerprint(w, p), history, map r | r in p.cards :: p.cards[r].identity,
                            map r | r in p.cards && r != "U" :: p.cards[r].endpoint,
                            map[p.terms.modelId := p.terms.modelHash], p.terms, 256, "separately_provisioned_keys");
  }

  // ---- main results -------------------------------------------------------------------------------------------

  /** An accepted lineage is the gap-free chain of epochs e, ..., 1 of one deployment with one set of roles. */
  lemma {:induction false} GapFree(w: Context, l: seq<Bundle>, i: nat)
    requires LineageOk(w, l) && i < |l|
    ensures l[i].proposal.epoch == |l| - i
    ensures l[i].proposal.deploymentId == l[0].proposal.deploymentId
    ensures l[i].proposal.cards.Keys == l[0].proposal.cards.Keys
    ensures i + 1 < |l| ==> l[i].proposal.previousHash == Some(Fingerprint(w, l[i + 1].proposal))
  {
    hide ProposalOk, Endorsed, Fingerprint, PinnedHead;
    EpochNumber(w, l, i);
    SameDeployment(w, l, i);
    assert EpochOk(w, l, i);
  }

  lemma {:induction false} EpochNumber(w: Context, l: seq<Bundle>, i: nat)
    requires LineageOk(w, l) && i < |l|
    ensures l[i].proposal.epoch == |l| - i
    decreases |l| - i
  {
    hide ProposalOk, Endorsed, Fingerprint, PinnedHead;
    assert EpochOk(w, l, i);
    if i + 1 < |l| {
      EpochNumber(w, l, i + 1);
    }
  }

  lemma {:induction false} SameDeployment(w: Context, l: seq<Bundle>, i: nat)
    requires LineageOk(w, l) && i < |l|
    ensures l[i].proposal.deploymentId == l[0].proposal.deploymentId
    ensures l[i].proposal.cards.Keys == l[0].proposal.cards.Keys
  {
    hide ProposalOk, Endorsed, Fingerprint, PinnedHead;
    if i > 0 {
      assert EpochOk(w, l, i - 1);
      SameDeployment(w, l, i - 1);
    }
  }

  /** No accepted epoch is above 33, however the bundle is made. */
  lemma EpochBound(w: Context, bundle: Bundle)
    requires LineageOk(w, Lineage(bundle)) && |Lineage(bundle)| <= MAX_DEPTH + 1
    ensures 1 <= bundle.proposal.epoch == |Lineage(bundle)| <= 33
  {
    EpochNumber(w, Lineage(bundle), 0);
  }

  /** Each epoch carries the signature of every one of its keys and, after the first, of every key before it. */
  lemma EveryKeySigned(w: Context, l: seq<Bundle>, i: nat, role: string) returns (e: Endorsement)
    requires LineageOk(w, l) && i < |l| && role in l[0].proposal.cards
    ensures e in l[i].endorsements && e.role == role && role in l[i].proposal.cards
    ensures e.deployment == w.H(w.ser(l[i].proposal))
    ensures w.S.verify(l[i].proposal.cards[role].identity.publicKey,
                       EndorsementMessage(role, Fingerprint(w, l[i].proposal)), e.signature)
    ensures i + 1 < |l| ==>
              role in l[i + 1].proposal.cards
              && w.S.verify(l[i + 1].proposal.cards[role].identity.publicKey,
                            EndorsementMessage(role, Fingerprint(w, l[i].proposal)),
                            if e.previousSignature.Some? then e.previousSignature.value else NO_SIGNATURE)
  {
    hide ProposalOk, PinnedHead;
    SameDeployment(w, l, i);
    assert EpochOk(w, l, i);
    var k :| 0 <= k < |l[i].endorsements| && l[i].endorsements[k].role == role;
    e := l[i].endorsements[k];
    assert EndorsementOk(w, l[i].proposal, if i + 1 < |l| then Some(l[i + 1].proposal) else None, e);
  }

  /** The reviewed fingerprint fixes every proposal of the history. */
  lemma {:induction false} FingerprintFixesHistory(w: Context, a: seq<Bundle>, b: seq<Bundle>, i: nat)
    requires LineageOk(w, a) && LineageOk(w, b) && i < |a| && b != []
    requires Fingerprint(w, a[0].proposal) == Fingerprint(w, b[0].proposal)
    requires forall p, q | w.ser(p) == w.ser(q) :: p == q
    requires CollisionFree(w.H, set x | x in a + b :: w.ser(x.proposal))
    ensures |a| == |b| && a[i].proposal == b[i].proposal
  {
    hide ProposalOk, Endorsed, PinnedHead;
    if i == 0 {
      assert a[0] in a + b && b[0] in a + b;
      EpochNumber(w, a, 0);
      EpochNumber(w, b, 0);
    } else {
      FingerprintFixesHistory(w, a, b, i - 1);
      assert EpochOk(w, a, i - 1) && EpochOk(w, b, i - 1);
      assert a[i] in a + b && b[i] in a + b;
    }
  }

  /** In every epoch no two operators share a key, and no two services a TLS authority. */
  lemma KeysApart(w: Context, bundle: Bundle, i: nat, r: string, q: string)
    requires LineageOk(w, Lineage(bundle)) && i < |Lineage(bundle)|
    requires r in Lineage(bundle)[i].proposal.cards && q in Lineage(bundle)[i].proposal.cards && r != q
    ensures var cards := Lineage(bundle)[i].proposal.cards;
            cards[r].identity.publicKey != cards[q].identity.publicKey
            && (r != "U" && q != "U" ==> cards[r].tlsCa != cards[q].tlsCa)
  {
    assert EpochOk(w, Lineage(bundle), i);
  }

  /** A map is injective exactly if it has as many values as keys. */
  lemma {:induction false} AsManyValues(m: map<string, Bytes>)
    ensures |m.Values| <= |m.Keys|
    ensures |m.Values| == |m.Keys| <==> forall r, q | r in m && q in m && r != q :: m[r] != m[q]
    decreases |m.Keys|
  {
    if m.Keys != {} {
      var k :| k in m;
      var rest := m - {k};
      AsManyValues(rest);
      assert m.Keys == rest.Keys + {k} && m.Values == rest.Values + {m[k]};
      if |m.Values| == |m.Keys| {
        assert m[k] !in rest.Values;
        assert forall r | r in rest :: rest[r] == m[r] && rest[r] in rest.Values;
      } else if m[k] in rest.Values {
        var r :| r in rest && rest[r] == m[k];
        assert m[r] == m[k];
      } else {
        assert |m.Values| == |rest.Values| + 1;
        var r, q :| r in rest && q in rest && r != q && rest[r] == rest[q];
        assert m[r] == m[q];
      }
    }
  }

  function KeysOf(cards: map<string, Card>): map<string, Bytes> { map r | r in cards :: cards[r].identity.publicKey }

  /** The TLS authorities of the services; U has none. */
  function AuthoritiesOf(cards: map<string, Card>, code: string -> Bytes): map<string, Bytes> {
    map r | r in cards && r != "U" :: code(cards[r].tlsCa)
  }

  lemma KeysCounted(cards: map<string, Card>)
    ensures |KeysOf(cards).Values| == |cards.Keys| <==>
              forall r, q | r in cards && q in cards && r != q ::
                cards[r].identity.publicKey != cards[q].identity.publicKey
  {
    AsManyValues(KeysOf(cards));
    assert KeysOf(cards).Keys == cards.Keys;
    assert forall r | r in cards :: KeysOf(cards)[r] == cards[r].identity.publicKey;
  }

  /** `code` stands for the bytes of a certificate. */
  lemma AuthoritiesCounted(cards: map<string, Card>, code: string -> Bytes)
    requires "U" in cards && forall x, y | code(x) == code(y) :: x == y
    ensures |AuthoritiesOf(cards, code).Values| == |cards.Keys| - 1 <==>
              forall r, q | r in cards && q in cards && r != q && r != "U" && q != "U" ::
                cards[r].tlsCa != cards[q].tlsCa
  {
    var m := AuthoritiesOf(cards, code);
    AsManyValues(m);
    assert m.Keys == cards.Keys - {"U"};
    assert forall r | r in m :: m[r] == code(cards[r].tlsCa);
  }

  /** A proposal is sound exactly if it has as many keys as operators, and so on. */
  lemma ProposalExactly(w: Context, p: Proposal, code: string -> Bytes)
    requires forall x, y | code(x) == code(y) :: x == y
    ensures ProposalOk(w, p) <==>
              p.epoch > 0 && p.expiresAt > p.createdAt && "U" in p.cards
              && p.cards.Keys in {{"U", "R", "M", "T"}, {"U", "R", "M", "T", "W"}}
              && (forall r | r in p.cards ::
                    w.cardValid(p.cards[r]) && r == p.cards[r].role && p.cards[r].expiresAt >= p.expiresAt)
              && |KeysOf(p.cards).Values| == |p.cards.Keys|
              && |AuthoritiesOf(p.cards, code).Values| == |p.cards.Keys| - 1 && TermsOk(w, p.terms)
  {
    hide TermsOk;
    KeysCounted(p.cards);
    if "U" in p.cards {
      AuthoritiesCounted(p.cards, code);
    }
    FourOrFive(p.cards.Keys);
    hide KeysOf, AuthoritiesOf;
  }

  lemma FourOrFive(roles: set<string>)
    ensures REQUIRED_ROLES <= roles <= ROLES <==> roles in {{"U", "R", "M", "T"}, {"U", "R", "M", "T", "W"}}
  {
    if REQUIRED_ROLES <= roles <= ROLES {
      assert roles == if "W" in roles then {"U", "R", "M", "T", "W"} else {"U", "R", "M", "T"};
    }
  }

  /** The endorsed limits, and a model that is the built-in mock or is not named as if it were. */
  lemma TermsExactly(w: Context, t: Terms)
    ensures TermsOk(w, t) <==>
              99 < t.strictTimeoutMs < 10001 && 0 < t.maxLogEntries < 100001 && 0 < t.retentionDays < 3651
              && t.modelId != "" && |t.modelHash| == 32
              && match t.modelKind
                 case "deterministic_mock" => true
                 case "ollama" => t.modelName != "" && t.modelId != w.mockId && t.modelHash != w.mockHash
                 case _ => false
  {
  }

  /** A renewal carries a checkpoint of the log before it, signed with the key that T had. */
  lemma FollowsExactly(w: Context, p: Proposal, before: Proposal)
    ensures Follows(w, p, before) <==>
              p.previousHash == Some(w.H(w.ser(before))) && p.epoch - before.epoch == 1
              && p.deploymentId == before.deploymentId && p.cards.Keys == before.cards.Keys
              && p.previousCheckpoint.Some? && "T" in before.cards
              && var head, t := p.previousCheckpoint.value, before.cards["T"].identity;
                 head.body.logId == w.logName(before.deploymentId, before.epoch) && head.body.tsKid == t.kid
                 && 1 <= head.body.treeSize <= 100000 && w.S.verify(t.publicKey, HeadMessage(head.body), head.signature)
  {
  }

  /** What an operator signs: with its key, and with the one it had before if there was a before. */
  function EndorsementBy(w: Context, p: Proposal, role: string, key: KeyPair, before: Option<KeyPair>): Endorsement {
    var message := EndorsementMessage(role, Fingerprint(w, p));
    Endorsement(role, Fingerprint(w, p), w.S.sign(key, message),
                if before.Some? then Some(w.S.sign(before.value, message)) else None)
  }

  lemma EndorsementIsOk(w: Context, p: Proposal, before: Proposal, role: string, key: KeyPair, old': KeyPair)
    requires role in p.cards && role in before.cards && Genuine(w.S, key) && Genuine(w.S, old')
    requires key.publicKey == p.cards[role].identity.publicKey
    requires old'.publicKey == before.cards[role].identity.publicKey
    ensures var e := EndorsementBy(w, p, role, key, Some(old')); e.role == role && EndorsementOk(w, p, Some(before), e)
  {
    hide Fingerprint;
  }

  /** A sound renewal that every operator endorses with both its keys is accepted. */
  lemma EndorsedByAllIsAccepted(w: Context, p: Proposal, previous: Bundle, roles: seq<string>,
                                keys: map<string, KeyPair>, oldKeys: map<string, KeyPair>)
    requires ProposalOk(w, p) && Follows(w, p, previous.proposal) && LineageOk(w, Lineage(previous))
    requires (forall i, j | 0 <= i < j < |roles| :: roles[i] != roles[j]) && forall r :: r in p.cards <==> r in roles
    requires keys.Keys == oldKeys.Keys == p.cards.Keys
    requires forall r | r in p.cards ::
               Genuine(w.S, keys[r]) && keys[r].publicKey == p.cards[r].identity.publicKey
               && Genuine(w.S, oldKeys[r]) && oldKeys[r].publicKey == previous.proposal.cards[r].identity.publicKey
    ensures var endorsements := seq(|roles|, i requires 0 <= i < |roles| =>
                                      EndorsementBy(w, p, roles[i], keys[roles[i]], Some(oldKeys[roles[i]])));
            LineageOk(w, Lineage(Bundle(p, endorsements, Some(previous))))
  {
    hide ProposalOk, Fingerprint, PinnedHead, EndorsementOk, EndorsementBy, LineageOk, EpochOk, Lineage;
    var endorsements := seq(|roles|, i requires 0 <= i < |roles| =>
                              EndorsementBy(w, p, roles[i], keys[roles[i]], Some(oldKeys[roles[i]])));
    var b := Bundle(p, endorsements, Some(previous));
    forall i | 0 <= i < |roles|
      ensures endorsements[i].role == roles[i] && EndorsementOk(w, p, Some(previous.proposal), endorsements[i])
    {
      EndorsementIsOk(w, p, previous.proposal, roles[i], keys[roles[i]], oldKeys[roles[i]]);
    }
    forall r | r in p.cards ensures exists i :: 0 <= i < |endorsements| && endorsements[i].role == r {
      var i :| 0 <= i < |roles| && roles[i] == r;
      assert endorsements[i].role == r;
    }
    LineageStep(w, b);
  }
}

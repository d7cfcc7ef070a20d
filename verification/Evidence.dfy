/** The outbox of U (and of R and M): evidence leaves it only against a verified receipt of T. */
module Evidence {
  import opened Bytes
  import opened Options
  import opened Proofs
  import opened Signatures
  import opened Statements
  import opened Log
  import opened Reconcile
  import opened Service
  import opened AuditProofs

  datatype Item = StatementItem(s: Statement) | PrivateItem(sub: string, p: PrivateEvidence)

  /** `ident` is the hash of an item, by which the outbox knows it; `role` is the party whose outbox this is. */
  datatype Client = Client(E: Encoding, S: Scheme<Message>, ident: Item -> Digest, tsKey: Bytes, logId: string,
                           role: string)

  /** What comes back for an item: anything. */
  datatype Answer = Error | Stored | WithReceipt(receipt: RegistrationReceipt)

  /** Where the client stops while it settles an answer. */
  datatype Crash = NoCrash | BeforeStore | BeforeAck

  predicate Good(c: Client, receipt: RegistrationReceipt, s: Statement) {
    ReceiptVerifies(c.E, c.S, receipt, s, c.tsKey) && receipt.body.logId == c.logId
  }

  predicate Acceptable(c: Client, item: Item, answer: Answer) {
    if item.StatementItem? then answer.WithReceipt? && Good(c, answer.receipt, item.s) else !answer.Error?
  }

  /** Different items have different hashes, and so have different statements. */
  ghost predicate NoClash(c: Client, items: seq<Item>) {
    forall a, b | a in items && b in items ::
      (c.ident(a) == c.ident(b) ==> a == b)
      && (a.StatementItem? && b.StatementItem? && StatementHash(c.E, a.s) == StatementHash(c.E, b.s) ==> a == b)
  }

  /** A verified receipt is stored for the item; for private evidence, T has acknowledged it. */
  ghost predicate Settled(c: Client, receipts: map<Digest, RegistrationReceipt>, acknowledged: set<Item>, item: Item) {
    if item.StatementItem? then
      StatementHash(c.E, item.s) in receipts && Good(c, receipts[StatementHash(c.E, item.s)], item.s)
    else item in acknowledged
  }

  /** T has what the client believes it has. */
  ghost predicate Linked(receipts: map<Digest, RegistrationReceipt>, acknowledged: set<Item>, rows: seq<Row>,
                         privates: map<string, PrivateEvidence>)
  {
    (forall hash | hash in receipts ::
       exists i :: 0 <= i < |rows| && rows[i].hash == hash && rows[i].receipt == Some(receipts[hash]))
    && (forall a | a in acknowledged ::
          a.PrivateItem? && a.sub in privates && SameRequest(privates[a.sub], a.p))
  }

  /** T when a submission arrives: its clock, whether its epoch is active, and whether its insertion succeeds. */
  datatype Moment = Moment(now: int, active: bool, stored: bool)

  /** One submission: lost on the way, answered in vain, or answered. */
  datatype Fate = Lost | ReplyLost(at: Moment) | Arrives(at: Moment, crash: Crash)

  /** What others do with T first, and then the fate of the submission. */
  datatype Turn = Turn(others: seq<Other>, fate: Fate)

  /** T itself turns the item down, or does not answer it with a receipt the client can verify. */
  ghost predicate TurnedDown(c: Client, t: Config, rows: seq<Row>, privates: map<string, PrivateEvidence>, item: Item,
                             at: Moment)
  {
    if item.StatementItem? then
      var reply := ReplyTo(t, rows, item.s, at.now, true);
      !MaySubmit(t, c.role, item.s, at.active) || reply == None || !Good(c, reply.value, item.s)
    else
      c.role != "U" || !HasContract(rows, item.sub)
      || (item.sub in privates && !SameRequest(privates[item.sub], item.p))
  }

  predicate Holds(c: Client, outbox: seq<Item>, ident: Digest) {
    exists i :: 0 <= i < |outbox| && c.ident(outbox[i]) == ident
  }

  /** `DELETE FROM outbox WHERE id = ident` */
  function Without(c: Client, outbox: seq<Item>, ident: Digest): seq<Item> {
    if outbox == [] then []
    else (if c.ident(outbox[0]) == ident then [] else [outbox[0]]) + Without(c, outbox[1..], ident)
  }

  ghost predicate Unique(c: Client, outbox: seq<Item>) {
    forall i, j | 0 <= i < j < |outbox| :: c.ident(outbox[i]) != c.ident(outbox[j])
  }

  /** No accepted item is lost: it waits in the outbox or is settled. */
  ghost predicate NoneLost(c: Client, accepted: seq<Item>, outbox: seq<Item>,
                           receipts: map<Digest, RegistrationReceipt>,
                           acknowledged: set<Item>)
  {
    forall item | item in accepted :: item in outbox || Settled(c, receipts, acknowledged, item)
  }

  lemma {:induction false} WithoutOther(c: Client, outbox: seq<Item>, ident: Digest)
    requires forall i | 0 <= i < |outbox| :: c.ident(outbox[i]) != ident
    ensures Without(c, outbox, ident) == outbox
  {
    if outbox != [] {
      WithoutOther(c, outbox[1..], ident);
    }
  }

  lemma {:induction false} WithoutOne(c: Client, outbox: seq<Item>, k: nat)
    requires Unique(c, outbox) && k < |outbox|
    ensures Without(c, outbox, c.ident(outbox[k])) == outbox[..k] + outbox[k + 1..]
  {
    if k == 0 {
      WithoutOther(c, outbox[1..], c.ident(outbox[0]));
    } else {
      assert Unique(c, outbox[1..]);
      WithoutOne(c, outbox[1..], k - 1);
      assert outbox[..k] + outbox[k + 1..] == [outbox[0]] + (outbox[1..][..k - 1] + outbox[1..][k..]);
    }
  }

  lemma SettleKeeps(c: Client, accepted: seq<Item>, outbox: seq<Item>, receipts: map<Digest, RegistrationReceipt>,
                    acknowledged: set<Item>, item: Item, receipt: RegistrationReceipt)
    requires NoClash(c, accepted) && NoneLost(c, accepted, outbox, receipts, acknowledged)
    requires item.StatementItem? && item in accepted && Good(c, receipt, item.s)
    ensures NoneLost(c, accepted, outbox, receipts[StatementHash(c.E, item.s) := receipt], acknowledged)
  {
    hide Good, StatementHash;
  }

  lemma AcknowledgeKeeps(c: Client, accepted: seq<Item>, outbox: seq<Item>, receipts: map<Digest, RegistrationReceipt>,
                         acknowledged: set<Item>, item: Item)
    requires NoneLost(c, accepted, outbox, receipts, acknowledged)
    ensures NoneLost(c, accepted, outbox, receipts, acknowledged + {item})
  {
  }

  lemma AckKeeps(c: Client, accepted: seq<Item>, outbox: seq<Item>, receipts: map<Digest, RegistrationReceipt>,
                 acknowledged: set<Item>, k: nat)
    requires Unique(c, outbox) && k < |outbox|
    requires forall item | item in outbox :: item in accepted
    ensures var rest := Without(c, outbox, c.ident(outbox[k]));
            Unique(c, rest) && (forall item | item in rest :: item in accepted)
            && (NoneLost(c, accepted, outbox, receipts, acknowledged) && Settled(c, receipts, acknowledged, outbox[k])
                ==> NoneLost(c, accepted, rest, receipts, acknowledged))
  {
    hide Settled;
    WithoutOne(c, outbox, k);
    assert outbox == outbox[..k] + [outbox[k]] + outbox[k + 1..];
  }

  lemma EnqueueKeeps(c: Client, accepted: seq<Item>, outbox: seq<Item>, receipts: map<Digest, RegistrationReceipt>,
                     acknowledged: set<Item>, item: Item)
    requires forall x | x in outbox :: x in accepted
    requires NoClash(c, accepted) ==> NoneLost(c, accepted, outbox, receipts, acknowledged)
    requires NoClash(c, accepted + [item])
    ensures Holds(c, outbox, c.ident(item)) ==> NoneLost(c, accepted + [item], outbox, receipts, acknowledged)
    ensures NoneLost(c, accepted + [item], outbox + [item], receipts, acknowledged)
  {
    hide Settled;
    assert NoClash(c, accepted);
    if Holds(c, outbox, c.ident(item)) {
      var i :| 0 <= i < |outbox| && c.ident(outbox[i]) == c.ident(item);
      assert outbox[i] in outbox && item in accepted + [item];
      assert outbox[i] == item;
    }
  }

  class Agent {
    const c: Client
    var outbox: seq<Item>
    var receipts: map<Digest, RegistrationReceipt>
    ghost var accepted: seq<Item>
    ghost var acknowledged: set<Item>

    ghost predicate Valid()
      reads this
    {
      Unique(c, outbox)
      && (forall item | item in outbox :: item in accepted)
      && (NoClash(c, accepted) ==> NoneLost(c, accepted, outbox, receipts, acknowledged))
    }

    constructor (c: Client)
      ensures this.c == c && Valid() && outbox == [] && receipts == map[] && accepted == [] && acknowledged == {}
    {
      this.c := c;
      outbox, receipts, accepted, acknowledged := [], map[], [], {};
    }

    /** `false` stands for the error of a full queue: the caller then does not go on with its request. */
    method Enqueue(item: Item, capacity: nat) returns (ok: bool)
      requires Valid()
      modifies this`outbox, this`accepted
      ensures Valid()
      ensures ok <==> Holds(c, old(outbox), c.ident(item)) || |old(outbox)| < capacity
      ensures accepted == if ok then old(accepted) + [item] else old(accepted)
      ensures outbox == if ok && !Holds(c, old(outbox), c.ident(item)) then old(outbox) + [item] else old(outbox)
    {
      hide NoneLost, NoClash;
      if NoClash(c, accepted + [item]) {
        EnqueueKeeps(c, accepted, outbox, receipts, acknowledged, item);
      }
      if Holds(c, outbox, c.ident(item)) {
        accepted := accepted + [item];
        return true;
      }
      if |outbox| >= capacity {
        return false;
      }
      outbox, accepted := outbox + [item], accepted + [item];
      return true;
    }

    /**
      Settles the answer to one item. Nothing is assumed of the answer: the invariant holds for a lying T
      as well. A crash leaves the durable state as it is at that point.
     */
    method Settle(item: Item, answer: Answer, crash: Crash) returns (ok: bool)
      requires Valid() && item in outbox
      modifies this`outbox, this`receipts, this`acknowledged
      ensures Valid()
      ensures ok <==> Acceptable(c, item, answer) && crash == NoCrash
      ensures outbox == if ok then Without(c, old(outbox), c.ident(item)) else old(outbox)
      ensures receipts == if item.StatementItem? && Acceptable(c, item, answer) && crash != BeforeStore
                          then old(receipts)[StatementHash(c.E, item.s) := answer.receipt] else old(receipts)
      ensures acknowledged == if item.PrivateItem? && ok then old(acknowledged) + {item} else old(acknowledged)
    {
      hide NoneLost, NoClash, ReceiptVerifies, StatementHash;
      ghost var k :| 0 <= k < |outbox| && outbox[k] == item;
      if item.StatementItem? {
        if !answer.WithReceipt? {
          return false;
        }
        var verified := VerifyReceipt(c.E, c.S, answer.receipt, item.s, c.tsKey);
        if !verified || answer.receipt.body.logId != c.logId {
          return false;
        }
        if crash == BeforeStore {
          return false;
        }
        if NoClash(c, accepted) {
          SettleKeeps(c, accepted, outbox, receipts, acknowledged, item, answer.receipt);
        }
        receipts := receipts[StatementHash(c.E, item.s) := answer.receipt];
      } else if answer.Error? {
        return false;
      }
      if crash != NoCrash {
        return false;
      }
      if item.PrivateItem? {
        if NoClash(c, accepted) {
          AcknowledgeKeeps(c, accepted, outbox, receipts, acknowledged, item);
        }
        acknowledged := acknowledged + {item};
      }
      AckKeeps(c, accepted, outbox, receipts, acknowledged, k);
      outbox := Without(c, outbox, c.ident(item));
      return true;
    }

    /** One call of T's `submit`. */
    method Submit(t: ThirdParty, item: Item, at: Moment) returns (answer: Answer)
      requires t.Valid() && this !in t.Repr() && c.E == t.c.E
      modifies t.Repr()
      ensures t.Valid() && fresh(t.Repr() - old(t.Repr()))
      ensures old(t.rows) <= t.rows
      ensures old(Linked(receipts, acknowledged, t.rows, t.privates)) ==>
                Linked(receipts, acknowledged, t.rows, t.privates)
                && (Acceptable(c, item, answer) ==>
                      Linked(ReceiptsWith(c, receipts, item, answer), acknowledged, t.rows, t.privates)
                      && Linked(ReceiptsWith(c, receipts, item, answer), AcknowledgedWith(acknowledged, item), t.rows,
                                t.privates))
      ensures at.stored && !Acceptable(c, item, answer) ==> TurnedDown(c, t.c, t.rows, t.privates, item, at)
    {
      hide Linked, TurnedDown, Good, ReplyTo, NextRows, HasContract, StatementHash, MaySubmit;
      answer := Error;
      ghost var rows, privates := t.rows, t.privates;
      if item.StatementItem? {
        var receipt := t.Submit(c.role, item.s, at.active, at.now, at.stored);
        StatementStep(c, t.c, rows, privates, item, at);
        if Linked(receipts, acknowledged, rows, privates) {
          LinkedStatement(c, t.c, receipts, acknowledged, rows, privates, item, at.now, at.stored);
        }
        if receipt.Some? {
          answer := WithReceipt(receipt.value);
        }
      } else {
        var ok := t.SubmitPrivate(c.role, item.sub, item.p);
        if ok && Linked(receipts, acknowledged, rows, privates) {
          LinkedPrivate(receipts, acknowledged, rows, privates, item);
        }
        if ok {
          answer := Stored;
        } else {
          PrivateTurnedDown(c, t.c, rows, privates, item, at);
        }
      }
    }

    /** One turn of `flush`: the oldest item is sent and its answer settled. */
    method SendOldest(t: ThirdParty, turn: Turn) returns (ok: bool)
      requires Valid() && t.Valid() && this !in t.Repr() && c.E == t.c.E && outbox != []
      modifies this`outbox, this`receipts, this`acknowledged, t.Repr()
      ensures Valid() && t.Valid() && fresh(t.Repr() - old(t.Repr()))
      ensures outbox == if ok then old(outbox)[1..] else old(outbox)
      ensures old(t.rows) <= t.rows
      ensures old(Linked(receipts, acknowledged, t.rows, t.privates)) ==>
                Linked(receipts, acknowledged, t.rows, t.privates)
      ensures !ok && turn.fate.Arrives? && turn.fate.at.stored && turn.fate.crash == NoCrash ==>
                TurnedDown(c, t.c, t.rows, t.privates, old(outbox)[0], turn.fate.at)
    {
      hide Linked, TurnedDown, Good, Acceptable, Unique, NoneLost, NoClash, Holds, JournalOk, PrivatesKeep, Without;
      var item := outbox[0];
      ghost var rows, privates := t.rows, t.privates;
      t.Serve(turn.others);
      if Linked(receipts, acknowledged, rows, privates) {
        LinkedSurvives(receipts, acknowledged, rows, t.rows, privates, t.privates);
      }
      if turn.fate.Lost? {
        return false;
      }
      var answer := Submit(t, item, turn.fate.at);
      if turn.fate.ReplyLost? {
        return false;
      }
      WithoutOne(c, outbox, 0);
      ok := Settle(item, answer, turn.fate.crash);
    }

    /**
      Sends what is pending, oldest first, and stops at the first thing that goes wrong. In between T serves
      the other parties and may be restarted.
     */
    method Flush(t: ThirdParty, turns: seq<Turn>) returns (sent: nat)
      requires Valid() && t.Valid() && this !in t.Repr() && c.E == t.c.E
      modifies this`outbox, this`receipts, this`acknowledged, t.Repr()
      ensures Valid() && t.Valid() && fresh(t.Repr() - old(t.Repr()))
      ensures sent <= |old(outbox)| && outbox == old(outbox)[sent..]
      ensures old(t.rows) <= t.rows
      ensures old(Linked(receipts, acknowledged, t.rows, t.privates)) ==>
                Linked(receipts, acknowledged, t.rows, t.privates)
      ensures sent < |old(outbox)| && sent < |turns| && turns[sent].fate.Arrives? && turns[sent].fate.at.stored
              && turns[sent].fate.crash == NoCrash ==>
                TurnedDown(c, t.c, t.rows, t.privates, old(outbox)[sent], turns[sent].fate.at)
    {
      hide Linked, TurnedDown, Unique, NoneLost, NoClash, JournalOk, Mirrors;
      var pending := outbox;
      sent := 0;
      while sent < |pending|
        invariant sent <= |pending| && outbox == pending[sent..]
        invariant Valid() && t.Valid() && fresh(t.Repr() - old(t.Repr())) && this !in t.Repr()
        invariant old(t.rows) <= t.rows
        invariant old(Linked(receipts, acknowledged, t.rows, t.privates)) ==>
                    Linked(receipts, acknowledged, t.rows, t.privates)
      {
        if sent >= |turns| {
          return;
        }
        assert outbox[0] == pending[sent];
        var ok := SendOldest(t, turns[sent]);
        if !ok {
          return;
        }
        sent := sent + 1;
      }
    }
  }

  /** Whatever other parties do with T, and however often it restarts, T still has what the client was told. */
  lemma LinkedSurvives(receipts: map<Digest, RegistrationReceipt>, acknowledged: set<Item>, rows: seq<Row>,
                       later: seq<Row>, privates: map<string, PrivateEvidence>,
                       laterPrivates: map<string, PrivateEvidence>)
    requires Linked(receipts, acknowledged, rows, privates)
    requires rows <= later && PrivatesKeep(privates, laterPrivates)
    ensures Linked(receipts, acknowledged, later, laterPrivates)
  {
    forall hash | hash in receipts
      ensures exists i :: 0 <= i < |later| && later[i].hash == hash && later[i].receipt == Some(receipts[hash])
    {
      var i :| 0 <= i < |rows| && rows[i].hash == hash && rows[i].receipt == Some(receipts[hash]);
      assert later[i] == rows[i];
    }
  }

  function ReceiptsWith(c: Client, receipts: map<Digest, RegistrationReceipt>, item: Item, answer: Answer)
    : map<Digest, RegistrationReceipt>
    requires Acceptable(c, item, answer)
  {
    if item.StatementItem? then receipts[StatementHash(c.E, item.s) := answer.receipt] else receipts
  }

  ghost function AcknowledgedWith(acknowledged: set<Item>, item: Item): set<Item> {
    if item.PrivateItem? then acknowledged + {item} else acknowledged
  }

  lemma ReplyRow(t: Config, rows: seq<Row>, s: Statement, now: int, stored: bool) returns (k: nat)
    requires ReplyTo(t, rows, s, now, stored).Some?
    ensures var next := NextRows(t, rows, s, now, stored);
            k < |next| && next[k].hash == StatementHash(t.E, s) && next[k].receipt == ReplyTo(t, rows, s, now, stored)
  {
    hide IssuedReceipt, StatementHash, Conflicts, CheckPolicy;
    var known := FindRow(rows, StatementHash(t.E, s));
    if known.Some? {
      k :| 0 <= k < |rows| && rows[k] == known.value;
    } else {
      k := |rows|;
    }
  }

  lemma {:induction false} FindNew(rows: seq<Row>, row: Row)
    requires FindRow(rows, row.hash) == None
    ensures FindRow(rows + [row], row.hash) == Some(row)
  {
    if rows != [] {
      assert (rows + [row])[1..] == rows[1..] + [row];
      FindNew(rows[1..], row);
    }
  }

  lemma StatementStep(c: Client, t: Config, rows: seq<Row>, privates: map<string, PrivateEvidence>, item: Item,
                      at: Moment)
    requires item.StatementItem?
    ensures var next := NextRows(t, rows, item.s, at.now, at.stored);
            var reply := ReplyTo(t, rows, item.s, at.now, at.stored);
            rows <= next
            && (!MaySubmit(t, c.role, item.s, at.active) ==> TurnedDown(c, t, rows, privates, item, at))
            && (at.stored && (reply == None || !Good(c, reply.value, item.s)) ==>
                  TurnedDown(c, t, next, privates, item, at))
  {
    hide IssuedReceipt, StatementHash, Conflicts, CheckPolicy, Good, MaySubmit;
    if FindRow(rows, StatementHash(t.E, item.s)) == None && Admits(t, rows, item.s) {
      FindNew(rows, NewRow(t, rows, item.s, at.now));
    }
  }

  lemma PrivateTurnedDown(c: Client, t: Config, rows: seq<Row>, privates: map<string, PrivateEvidence>, item: Item,
                          at: Moment)
    requires item.PrivateItem?
    requires c.role != "U" || !HasContract(rows, item.sub)
             || (item.sub in privates && !SameRequest(privates[item.sub], item.p))
    ensures TurnedDown(c, t, rows, privates, item, at)
  {
  }

  lemma LinkedStatement(c: Client, t: Config, receipts: map<Digest, RegistrationReceipt>, acknowledged: set<Item>,
                        rows: seq<Row>, privates: map<string, PrivateEvidence>, item: Item, now: int, stored: bool)
    requires item.StatementItem? && Linked(receipts, acknowledged, rows, privates)
    ensures var next, reply := NextRows(t, rows, item.s, now, stored), ReplyTo(t, rows, item.s, now, stored);
            Linked(receipts, acknowledged, next, privates)
            && (reply.Some? && c.E == t.E ==>
                  Linked(receipts[StatementHash(c.E, item.s) := reply.value], acknowledged, next, privates))
  {
    hide StatementHash, SameRequest, ReplyTo, NextRows;
    var next, reply := NextRows(t, rows, item.s, now, stored), ReplyTo(t, rows, item.s, now, stored);
    RowsGrow(t, rows, item.s, now, stored);
    LinkedSurvives(receipts, acknowledged, rows, next, privates, privates) by {
      PrivatesReflexive(privates);
    }
    if reply.Some? {
      var k := ReplyRow(t, rows, item.s, now, stored);
    }
  }

  lemma LinkedPrivate(receipts: map<Digest, RegistrationReceipt>, acknowledged: set<Item>, rows: seq<Row>,
                      privates: map<string, PrivateEvidence>, item: Item)
    requires item.PrivateItem? && Linked(receipts, acknowledged, rows, privates)
    requires item.sub in privates ==> SameRequest(privates[item.sub], item.p)
    ensures Linked(receipts, acknowledged, rows, privates[item.sub := item.p])
    ensures Linked(receipts, acknowledged + {item}, rows, privates[item.sub := item.p])
  {
  }

  // ---- main results ------------------------------------------------------------------------------------

  /** One receipt cannot verify for two statements. */
  lemma ReceiptBinds(E: Encoding, S: Scheme<Message>, receipt: RegistrationReceipt, s: Statement, t: Statement,
                     k1: Bytes, k2: Bytes)
    requires ReceiptVerifies(E, S, receipt, s, k1) && ReceiptVerifies(E, S, receipt, t, k2) && Lossless(E)
    requires CollisionFree(E.H, {LeafInputOf(E, s), LeafInputOf(E, t)})
    ensures s == t
  {
    hide InclusionAccepts;
    assert LeafInputOf(E, s)[1..] == E.leafBytes(s) && LeafInputOf(E, t)[1..] == E.leafBytes(t);
  }

  lemma RowIsNotPolicy(t: Config, rows: seq<Row>, k: nat, now: int)
    requires JournalOk(t, rows) && k < |rows| && rows[k].receipt.Some? && Genuine(t.S, t.key)
    ensures ReceiptGood(t, rows, k, now)
    ensures ReceiptVerifies(t.E, t.S, rows[k].receipt.value, rows[k].statement, t.key.publicKey)
  {
    hide ReceiptVerifies, ConsistencyAccepts, IssuedReceipt;
    assert RowOk(t, rows, 0);
    RowReceiptGood(t, rows, k, now);
  }

  /** Each statement that has left the outbox is in T's journal, under the good receipt the client holds. */
  lemma DeliveredIsRegistered(c: Client, t: Config, accepted: seq<Item>, outbox: seq<Item>,
                              receipts: map<Digest, RegistrationReceipt>, acknowledged: set<Item>, rows: seq<Row>,
                              privates: map<string, PrivateEvidence>, item: Item, now: int)
    returns (k: nat)
    requires NoneLost(c, accepted, outbox, receipts, acknowledged) && Linked(receipts, acknowledged, rows, privates)
    requires JournalOk(t, rows) && Genuine(t.S, t.key) && c.E == t.E && c.S == t.S && Lossless(c.E)
    requires item in accepted && item !in outbox && item.StatementItem?
    requires CollisionFree(c.E.H, {LeafInputOf(c.E, item.s)} + LeafInputs(c.E, StatementsIn(rows)))
    ensures StatementHash(c.E, item.s) in receipts
    ensures k < |rows| && rows[k].receipt == Some(receipts[StatementHash(c.E, item.s)])
    ensures rows[k].statement == item.s && ReceiptGood(t, rows, k, now)
  {
    hide StatementHash, ReceiptVerifies, ReceiptGood, SameRequest, JournalOk, LeafInputOf;
    var hash := StatementHash(c.E, item.s);
    k :| 0 <= k < |rows| && rows[k].hash == hash && rows[k].receipt == Some(receipts[hash]);
    RowIsNotPolicy(t, rows, k, now);
    assert StatementsIn(rows)[k] == rows[k].statement && rows[k].statement in StatementsIn(rows);
    assert {LeafInputOf(c.E, item.s), LeafInputOf(c.E, rows[k].statement)}
                              <= {LeafInputOf(c.E, item.s)} + LeafInputs(c.E, StatementsIn(rows));
    ReceiptBinds(t.E, c.S, receipts[hash], item.s, rows[k].statement, c.tsKey, t.key.publicKey);
  }

  /** The client's statements carry its own signature, so the hash of the unsigned part tells them apart. */
  ghost predicate OwnItem(c: Client, key: KeyPair, item: Item) {
    item.StatementItem? ==> item.s.signature == c.S.sign(key, ToBeSigned(item.s))
  }

  lemma NoClashOfOwn(c: Client, key: KeyPair, items: seq<Item>, ser: Item -> Bytes)
    requires forall item | item in items :: OwnItem(c, key, item) && c.ident(item) == c.E.H(ser(item))
    requires Lossless(c.E) && forall a, b | ser(a) == ser(b) :: a == b
    requires CollisionFree(c.E.H, (set item | item in items :: ser(item))
                                  + set item | item in items && item.StatementItem? :: c.E.signedBytes(item.s))
    ensures NoClash(c, items)
  {
    forall a, b | a in items && b in items
      ensures c.ident(a) == c.ident(b) ==> a == b
      ensures a.StatementItem? && b.StatementItem? && StatementHash(c.E, a.s) == StatementHash(c.E, b.s) ==> a == b
    {
      assert OwnItem(c, key, a) && OwnItem(c, key, b);
      if a.StatementItem? && b.StatementItem? && StatementHash(c.E, a.s) == StatementHash(c.E, b.s) {
        assert a.s.(signature := []) == b.s.(signature := []);
        assert a.s == a.s.(signature := []).(signature := a.s.signature);
      }
    }
  }
}

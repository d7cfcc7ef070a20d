# A verified model of itx

itx lets a user U check what an AI relay R and a model operator M did with a request. U signs a contract
before sending, M signs a receipt, R a relay statement, and a third party T registers all of them in a
transparency log, reconciles them and signs a verdict. Auditors, anchors and a witness W watch T.

This project models the parts of itx that these promises rest on, and proves the promises. To verify it, run
`dafny verify dfyconfig.toml`.

| file | models |
|---|---|
| `Merkle.dfy`, `Proofs.dfy`, `Verifiers.dfy` | the RFC 9162 tree: recursive provers, what a proof proves, and the two bit-shifting verifiers |
| `Log.dfy`, `Audit.dfy`, `AuditProofs.dfy` | T's log with receipts and heads, anchors, the check of held receipts; no false alarm, no unseen rewriting |
| `Witness.dfy` | W's ledger of checkpoints, and U's side of it |
| `Cbor.dfy`, `CborProofs.dfy`, `CborReader.dfy`, `Utf8.dfy`, `Cose.dfy`, `CoseProofs.dfy` | the deterministic CBOR codec, its text strings, and COSE_Sign1 above it: what an accepted message is and who can have made it |
| `Der.dfy` | the strict DER reader and writer of the timestamp client |
| `Service.dfy`, `Evidence.dfy` | T's durable journal with the log rebuilt from it; the outbox of the other parties, with losses and crashes |
| `Execution.dfy` | M's at-most-once execution, and what its answers contain |
| `Paging.dfy` | fetching an export page by page while T keeps registering, and checking it |
| `Gate.dfy`, `Reconcile.dfy`, `Agreement.dfy` | U's gate, T's equations, and how the two agree |
| `EndToEnd.dfy` | one request through an arbitrary relay |
| `Verdicts.dfy`, `Honest.dfy` | T's verdict in the fields of the statements; an exchange of honest parties is passed and accepted |
| `Replay.dfy`, `Runs.dfy` | T's verdicts and their independent recomputation; whole runs of T, and the audit of what they export |
| `Cases.dfy` | two runs of T on which its verdict and U's gate differ |
| `Streaming.dfy` | the gate for streamed answers |
| `Enrollment.dfy` | endorsed deployments and their epochs |
| `Bytes.dfy`, `Options.dfy`, `Sequences.dfy`, `Signatures.dfy`, `Statements.dfy` | bytes, the signature scheme, the signed records |

SHA-256 is a parameter: an arbitrary function from byte strings to 32 bytes. Such a function has collisions,
so "secure up to a collision" is stated by naming the finite set of strings that are actually hashed
(`TreeInputs`, `ClimbInputs`, `ReconstructInputs`, `ChainInputs`, ...) and assuming that no two of *those*
collide. Signatures are a parameter too: genuine ones verify, and unforgeability is assumed only where a
theorem needs it (`EndToEnd.Unforged`). Canonical JSON is an injective serialisation, so signed messages are
records; SQLite is a durable map, a queue and a journal that survive crashes. Python errors are `None`,
`false` or a reply constructor.

## Where the code does less than its promise

Each of these is a property that fails as first stated. The lemmas in brackets give the exact condition and,
where that does not show it already, an input on which the property fails.

- `verify_inclusion` has no lower bound on the index. From 0 up it is exact (`InclusionExact`); below 0, for
  every index and every size, some leaf is accepted (`NegativeIndexAccepted`; -1 in a tree of two:
  `MinusOneAccepted`). So `0 <= leaf_index` is the exact condition.
- `verify_consistency` from size 0 accepts any first root with the empty proof (`EmptyPrefixAccepted`); from
  size 1 up it is exact (`ConsistencyExact`).
- `verify_held_receipts` reports an entry as missing that was registered after the export but stamped no later
  than its head, in the same millisecond (`SameMillisecondFalseAlarm`) or after the clock was set back. An honest
  log passes if and only if no held receipt is of this kind (`HonestLogPasses`). On the other side, a statement
  that was left out is reported if and only if its receipt is stamped no later than the head or covers no more
  entries than the export (`DisplacedStatementSeen`); T chooses the time of the head.
- `verify_held_receipts` compares the root of the first receipt of each tree size only; another root under a
  second receipt of that size goes unseen (`SecondRootUnseen`). The report is ok if and only if every leaf is in
  its place and every *first* root is that of the exported prefix (`VerifyHeldReceipts`).
- `decode` reads a null map key, which `encode` refuses to write (`NullKeyAccepted`). Re-encoding restores an
  accepted string if and only if no key in it is null (`EncodeOfDecode`).
- T may judge "passed" although U's request binding fails (`PassedWithoutBinding`, a whole run of T): if and only
  if M's receipt commits to no request, where T relies on R's statement (`PassedMeansChecksPass`).
- T may judge a response that U accepts "failed" (`AcceptedButFailed`, another run): with honest evidence and a
  silent R, if and only if M's receipt names no model (`AcceptedIsNotFailed`).
- An auditor who lacks U's private evidence may report a mismatch for an honest verdict (`FalseMismatch`). An
  honest verdict matches without it if and only if something public fails as well, or E4 fails for the auditor
  just when E1 or E4 failed for T (`MatchWithoutEvidence`).
- A finalized stream was fed exactly the signed chunks, unless exactly one of the two lists is empty, which takes
  a seed that begins with a digest computed from itself (`FinalizedMeansSigned`). A gate that was fed nothing
  passes if and only if nothing was signed or the seed is of this kind (`EmptyStreamPasses`). Such seeds exist
  for some hash functions (`SelfReferentialSeed`); none is known for SHA-256.
- U notices a fork of W's ledger only at the number it keeps and the next one; a receipt two ahead is accepted
  unseen (`ForkIsSeen` states the condition).

Two consequences of at-most-once execution are by design, and stated as such: a call is answered if and only if
it repeats a served one or completes as the first use of its identifier and its nonce (`AnsweredExactly`), and
after a call has consumed its nonce, the same call is answered if and only if it was served
(`RetryAnsweredExactly`). So a crash, a full queue or a failed pre-execution check spends the request.

## Model

| member | source | states |
|---|---|---|
| `Merkle.LargestPowerOfTwoBelow` | itx/ts/merkle.py:21-25 | the doubling loop ends at the unique power of two k with k < n <= 2k, and at 1 for n < 2 |
| `Merkle.MthInjective` | itx/ts/merkle.py:28-35 | two leaf lists of one length with one root are equal, up to a collision among the node inputs of both trees |
| `Merkle.RootDecidesData` | itx/ts/merkle.py:11-35 | two data lists of any sizes with one root are equal, up to a collision: leaves and nodes are hashed apart |
| `Merkle.PrefixRoot` | itx/ts/merkle.py:28-35 | a prefix longer than the split has the same split, so its root shares the left half |
| `Merkle.InclusionPathLength` | itx/ts/merkle.py:38-45 | for every leaf of every tree the path is no longer than the bit length of n - 1 |
| `Proofs.InclusionComplete` | itx/ts/merkle.py:38-45 | folding the generated path from any leaf yields the tree's root |
| `Proofs.InclusionSound` | itx/ts/merkle.py:64-82 | a path that folds to the root of the leaves starts at the leaf of that position and is the generated path, up to a collision |
| `Proofs.InclusionExact` | itx/ts/merkle.py:64-82 | for 0 <= i < n acceptance holds if and only if the leaf is L[i] and the proof is its inclusion path, up to a collision |
| `Proofs.NegativeIndexAccepted` | itx/ts/merkle.py:65-67 | for every negative index and every size at least 1, some leaf and proof are accepted against the root of some leaves |
| `Proofs.MinusOneAccepted` | itx/ts/merkle.py:65-67 | index -1 is accepted in every two-leaf tree |
| `Proofs.ConsistencyComplete` | itx/ts/merkle.py:48-61 | the generated subproof rebuilds the root of the prefix and the root of the whole |
| `Proofs.ConsistencySound` | itx/ts/merkle.py:85-116 | a proof that rebuilds the new root also rebuilds the root of the true prefix, and is the generated proof, up to a collision |
| `Proofs.ConsistencyPathAccepted` | itx/ts/merkle.py:58-61 | the generated path is accepted for every 0 <= m <= n, sizes 0 and n included |
| `Proofs.ConsistencyExact` | itx/ts/merkle.py:85-116 | for 0 < m <= n acceptance holds if and only if the first root is the root of L[:m] and the proof is the generated one, up to a collision |
| `Proofs.EmptyPrefixAccepted` | itx/ts/merkle.py:90-91 | from size 0, acceptance means only that the proof is empty |
| `Verifiers.VerifyInclusion` | itx/ts/merkle.py:64-82 | the loop over fn and sn decides exactly the recursive fold along the tree's splits, for every integer index |
| `Verifiers.PairUp` | itx/ts/merkle.py:69-81 | one turn of the loop: pairing neighbours halves position and size and uses up one proof element |
| `Verifiers.PromoteLone` | itx/ts/merkle.py:74-77 | the inner shift loop: a last leaf without a neighbour moves up unchanged |
| `Verifiers.VerifyConsistency` | itx/ts/merkle.py:85-116 | the loop with two running roots decides exactly the recursive reconstruction of both roots |
| `Verifiers.PowerOfTwoTest` | itx/ts/merkle.py:95 | `first & (first - 1) == 0` says exactly that first is a power of two |
| `Verifiers.PrependOldRoot` | itx/ts/merkle.py:95-96 | a proof from a power-of-two size is the full proof without its first element, the old root |
| `Verifiers.HalveSizes` | itx/ts/merkle.py:98-100 | two sizes whose old one is even have the same proofs as their halves |
| `Verifiers.StartAtLeaf` | itx/ts/merkle.py:101 | for an odd old size the first path element is the old tree's last leaf, where both roots start |
| `Log.MerkleTree.Append` | itx/ts/merkle.py:129-131 | appends the leaf hash and returns its position |
| `Log.MerkleTree.ReplaceLeaf` | itx/ts/merkle.py:153-154 | replaces one leaf and no other |
| `Log.VerifyReceipt` | itx/ts/log.py:74-88 | accepts exactly authentic receipts whose leaf is the statement's and whose inclusion proof is accepted |
| `Log.AdmittedIsAuthentic` | itx/ts/log.py:128-147 | the policy admits exactly what is signed with a pinned key of its issuer, who may issue this type, with allowed type, subject and payload |
| `Log.RefusalExactly` | itx/ts/log.py:128-147 | each refusal is listed exactly for its own reason |
| `Log.PinnedHeadIsSigned` | itx/runtime/auditing.py:30-37 | a pinned checkpoint names this log and key, has an auditable size, and was signed by T if T's key verifies only what T signed |
| `Log.TransparencyLog.constructor` | itx/ts/log.py:100-125 | a new log has T's own key and types added to its rules, and holds exactly T's policy statement, as entry 0 |
| `Log.OwnKeyIsLimited` | itx/ts/log.py:108-118 | T's own key can register only statements of T, and T only policies and verdicts, whatever the rules say |
| `Log.TransparencyLog.Register` | itx/ts/log.py:149-153 | registers exactly what the policy admits; a refusal leaves the log unchanged |
| `Log.TransparencyLog.Append` | itx/ts/log.py:155-170 | appends one entry; the tree stays the tree over the entries; the receipt covers exactly the log up to it |
| `Log.TransparencyLog.Head` | itx/ts/log.py:173-182 | the signed head is about the tree over all statements |
| `Log.TransparencyLog.DropSub` | itx/ts/log.py:221-233 | leaves a self-consistent log over exactly the other statements in their order, and returns the old positions |
| `Log.TransparencyLog.TamperEntry` | itx/ts/log.py:235-241 | leaves a self-consistent log with one statement replaced |
| `Audit.CheckpointAnchor.Anchor` | itx/ts/anchor.py:27-42 | records all of the head and the time, appends the record, and keeps the file, if there is one, equal to the records |
| `Audit.VerifyTree` | itx/ts/anchor.py:44-84 | a record is ok exactly when the log still has a prefix of its size and root (and its token, if any, verified) |
| `Audit.VerifyHeldReceipts` | itx/audit/replay.py:75-142 | ok if and only if every authentic receipt that is not set aside has its leaf in place, and the first of each tree size has the root of the exported prefix; the checkpoint list is those sizes in ascending order; classes and tallies per holder, and the scope |
| `AuditProofs.TallyBalances` | itx/audit/replay.py:92-121 | held = included + missing + unverifiable + after snapshot, overall and for each holder |
| `AuditProofs.TallyCounts` | itx/audit/replay.py:92-121 | each tally is the number of items of that class and holder; an item without a holder is U's |
| `AuditProofs.FindingsExactly` | itx/audit/replay.py:104-130 | each class, and each reason for a missing entry, in the fields of the receipt and the entries |
| `AuditProofs.SecondRootUnseen` | itx/audit/replay.py:115 | of two authentic receipts of one size only the root of the first is compared |
| `AuditProofs.IssuedReceiptVerifies` | itx/ts/log.py:155-170 | every receipt of the log verifies for its statement |
| `AuditProofs.IssuedReceiptStaysConsistent` | itx/ts/log.py:155-193 | its root is consistent with the head of every extension of the log |
| `AuditProofs.HonestFinding` | itx/audit/replay.py:104-130 | an honest receipt is included if its entry is exported, set aside if stamped after the head, and otherwise reported missing |
| `AuditProofs.HonestLogPasses` | itx/audit/replay.py:104-142 | honest receipts pass if and only if each is for an exported entry or stamped strictly after the head |
| `AuditProofs.SameMillisecondFalseAlarm` | itx/audit/replay.py:104-110 | one registration in the millisecond of the head is the smallest false alarm |
| `AuditProofs.DisplacedStatementSeen` | itx/audit/replay.py:115-130 | a statement that is not in the place its authentic receipt names is reported missing if and only if the receipt is not set aside as later than the export, up to a collision |
| `AuditProofs.OmissionSeen` | itx/ts/log.py:221-233 | after dropping a request and any appends that do not register the statement again, its receipt makes the check fail |
| `AuditProofs.RewritingSeen` | itx/ts/log.py:235-241 | after rewriting an entry and any appends, the receipt for what stood there makes the check fail |
| `AuditProofs.AnchorSeesRewriting` | itx/ts/anchor.py:44-72 | an earlier anchor holds on a later log if and only if the anchored prefix is unchanged, up to a collision |
| `AuditProofs.OmissionBreaksAnchor` | itx/ts/anchor.py:49-72 | no anchor covering a dropped statement holds any more |
| `Witness.WitnessService.Handle` | itx/runtime/witness.py:29-64 | issues a receipt exactly for a pinned, recent head that repeats the last one or provably extends it within capacity; the ledger grows by that link only |
| `Witness.WitnessReceiptExactly` | itx/runtime/witness.py:12-20 | a receipt verifies exactly if it is W's, for this policy, about a checkpoint of the pinned T, and numbered |
| `Witness.ChainGrows` | itx/runtime/witness.py:52-64 | the ledger invariant is kept: numbered 1..k, each receipt verifies, names its predecessor's fingerprint and extends its checkpoint |
| `Witness.SizesGrow` | itx/runtime/witness.py:42-51 | tree sizes strictly grow along the ledger, so no size gets two receipts |
| `Witness.EarlierRootsArePrefixes` | itx/runtime/witness.py:48-51 | any leaves behind a later checkpoint have every earlier checkpoint's root as the root of their prefix, up to a collision |
| `Witness.LinksBind` | itx/runtime/witness.py:55-57 | a receipt cannot be replaced under its successor |
| `Witness.Observer.Witness` | itx/runtime/agent.py:171-191 | U keeps exactly verified receipts about the head it asked for that may follow the one it keeps |
| `Witness.HonestWitnessFollows` | itx/runtime/agent.py:182-190 | U never accuses an honest W, whichever receipts of the ledger it fetches in order |
| `Witness.ForkIsSeen` | itx/runtime/agent.py:184-189 | a receipt of another ledger may follow the kept one if and only if that ledger contains the kept receipt or the number is two or more ahead, up to a collision |
| `CborProofs.HeadRoundTrip` | itx/cose/cbor.py:46-57 | a head is read back to its major type and argument, whatever follows |
| `CborProofs.HeadCanonical` | itx/cose/cbor.py:108-122 | an accepted argument was written in its shortest form |
| `CborProofs.SortSorts` | itx/cose/cbor.py:87-89 | sorting by encoded key gives the strictly ascending permutation |
| `CborProofs.RoundTrip` | itx/cose/cbor.py:124-167 | reading `encode(v) + rest` returns the same value as v, at every depth, and stops exactly after `encode(v)` |
| `CborProofs.RoundTripEntries` | itx/cose/cbor.py:149-164 | the map loop reads back all entries, never tripping over its own order and duplicate tests |
| `CborProofs.DecodeOfEncode` | itx/cose/cbor.py:170-176 | decoding an encoding gives the same value back, its dictionaries in the order of their keys |
| `CborProofs.Canonicity` | itx/cose/cbor.py:124-167 | the bytes of an accepted item without null keys are exactly its encoding |
| `CborProofs.CanonicityMap` | itx/cose/cbor.py:149-164 | accepted map entries are distinct, in order, and are what the encoder's sort writes |
| `CborProofs.EncodeInjective` | itx/cose/cbor.py:60-93 | equal encodings mean equal values: dictionaries as finite maps, at every depth |
| `CborProofs.EncodeOfDecode` | itx/cose/cbor.py:170-176 | re-encoding restores an accepted string if and only if no map key in it is null |
| `CborProofs.NullKeyAccepted` | itx/cose/cbor.py:84-85 | {null: null} is read but never written |
| `CborProofs.DictionaryKeysDiffer` | itx/cose/cbor.py:87-88 | the encoder's duplicate test never fires on a dictionary |
| `CborProofs.EncodeIgnoresOrder` | itx/cose/cbor.py:80-90 | two values have one encoding if and only if they are the same value, whatever the insertion order of any dictionary in them |
| `CborProofs.PermutedIsAlike` | itx/cose/cbor.py:80-90 | a dictionary filled in another order is the same value |
| `CborReader.Reader.Take` | itx/cose/cbor.py:101-106 | takes the next n bytes or raises without moving |
| `CborReader.Reader.Argument` | itx/cose/cbor.py:108-122 | the moving reader takes what the functional reader takes, and refuses the same arguments |
| `CborReader.Reader.Item` | itx/cose/cbor.py:124-167 | the recursive moving reader returns and consumes what the functional reader does |
| `CborReader.Reader.MapEntries` | itx/cose/cbor.py:149-164 | the loop with `out` and `previous` reads the entries the functional reader does |
| `CborReader.DecodeBytes` | itx/cose/cbor.py:170-176 | accepts exactly one item with nothing behind it |
| `Cose.SigStructureInjective` | itx/cose/sign1.py:51-57 | the signed bytes determine protected header, external data and payload (section 4.4 of RFC 9052) |
| `Cose.SignedBytesDecideStatement` | itx/cose/profile.py:66-83 | two accepted messages over the same signed bytes yield the same statement |
| `Cose.ReissueRoundTrip` | itx/cose/profile.py:46-83 | `from_sign1(to_sign1(s))` restores every envelope field, and the payload as the same value |
| `CoseProofs.AcceptedExactly` | itx/cose/profile.py:66-83 | a statement comes back if and only if the bytes are a tag-18 array of four whose signature verifies over the other parts, with alg -8, no crit, no shared label, and headers and payload that carry that statement |
| `CoseProofs.ParsedIs` | itx/cose/sign1.py:76-122 | `parse` returns the parts of a tag-18 array of four, a null payload as none |
| `CoseProofs.ReissuedExactly` | itx/cose/profile.py:46-63 | a statement is re-issued exactly with the key it names, if it can be encoded |
| `CoseProofs.SigStructureLayout` | itx/cose/sign1.py:51-57 | the bytes that are signed, byte for byte (section 4.4 of RFC 9052) |
| `CoseProofs.AcceptedIsIssued` | itx/cose/profile.py:66-83 | if the key verifies only what its holder signed, an accepted message has header and payload, byte for byte, of a statement that the holder issued, and that statement comes back |
| `CoseProofs.ParsedWellFormed` | itx/cose/cbor.py:149-164 | no dictionary that the decoder returns, at any depth, holds one key twice |
| `Utf8.ValidExactly` | itx/cose/cbor.py:145-146 | accepted text strings are exactly the UTF-8 forms of sequences of scalar values |
| `Der.Reader.Read` | itx/audit/anchor_tsa.py:89-108 | consumes exactly `_der(tag, value)` for the value it returns; returns every value shorter than 2^32 bytes that is there; raises without moving |
| `Der.Reader.ReadInteger` | itx/audit/anchor_tsa.py:110-115 | consumes exactly `_integer(v)` for the v it returns, and returns every v below 2^263 that is there |
| `Der.Reader.Finish` | itx/audit/anchor_tsa.py:117-119 | passes exactly at the end |
| `Der.Single` | itx/audit/anchor_tsa.py:122-126 | accepts exactly `_der(tag, value)` |
| `Der.WrittenLength` | itx/audit/anchor_tsa.py:53-58 | a written length is one octet below 128, else a count and digits without a leading zero |
| `Der.BytesForIsByteLength` | itx/audit/anchor_tsa.py:55 | `(n.bit_length() + 7) // 8` is the number of base-256 digits |
| `Der.WrittenInteger` | itx/audit/anchor_tsa.py:61-65 | a written integer below 2^263 has the shape the reader asks for and its own value |
| `Der.IntegerSpelling` | itx/audit/anchor_tsa.py:110-115 | whatever passes the reader's integer test is the writer's spelling of its number |
| `Der.DerPrefixFree` | itx/audit/anchor_tsa.py:53-58 | DER values with one tag are prefix-free, so a concatenation reads in one way |
| `Der.RequestBinds` | itx/audit/anchor_tsa.py:68-77 | equal timestamp requests ask about one root with one nonce |
| `Service.ThirdParty.constructor` | itx/runtime/service.py:52-60 | a first start journals the policy as row 0 |
| `Service.ThirdParty.Reload` | itx/runtime/service.py:52-73 | the log rebuilt from any valid journal has exactly the journal's statements and times, and no error is raised |
| `Service.ThirdParty.Register` | itx/runtime/service.py:75-94 | the reply and the new journal are those of `ReplyTo` and `NextRows`; log and journal agree afterwards, also when the insertion fails |
| `Service.ThirdParty.Submit` | itx/runtime/service.py:145-155 | a statement reaches `register` exactly from the party whose key, role and type it has, and a contract only while the epoch is active |
| `Service.ThirdParty.SubmitPrivate` | itx/runtime/service.py:156-167 | stored only for U, after the contract is registered, and never rewriting salt, request hash or expected commitments |
| `Service.ThirdParty.ServeOne` | itx/runtime/service.py:144-167 | a submission, private evidence or a restart changes what T keeps as `Served` says, and nothing else |
| `Service.ThirdParty.Serve` | itx/runtime/service.py:144-167 | whatever is submitted by anybody, and however often T restarts, journal and private evidence are never lost or rewritten |
| `Service.JournalAlwaysOk` | itx/runtime/service.py:75-94 | over any run of registrations, failures and restarts each row is numbered, admitted and holds its receipt, and no two rows conflict |
| `Service.JournalKeeps` | itx/runtime/service.py:87-94 | the journal only grows |
| `Service.ReceiptsStayGood` | itx/runtime/service.py:75-94 | every receipt ever returned is the one receipt of the one row for its statement; it verifies and is consistent with the current head |
| `Service.OneStatementPerType` | itx/runtime/service.py:81-84 | verdicts apart, no two statements of one type about one request are ever registered |
| `Evidence.Agent.Enqueue` | itx/runtime/common/storage.py:87-94 | refuses exactly when full; accepting keeps the invariant that nothing accepted is lost |
| `Evidence.WithoutOne` | itx/runtime/common/storage.py:100-102 | acknowledging removes exactly the acknowledged item and keeps the order |
| `Evidence.Agent.Settle` | itx/runtime/agent.py:66-79 | for every answer T may give and every crash, an item leaves the outbox only with its verified receipt stored |
| `Evidence.Agent.Submit` | itx/runtime/service.py:144-167 | T's answer keeps the client's receipts those of T's journal; if it is unusable, T itself turns the item down, for its sender, type, epoch or content |
| `Evidence.Agent.SendOldest` | itx/runtime/agent.py:63-79 | one turn, with other parties served and restarts in between: the oldest item leaves exactly when its answer is settled |
| `Evidence.Agent.Flush` | itx/runtime/agent.py:59-81 | sends a prefix of the queue in order; losses, retries and crashes keep every invariant on both sides; without them it stops only at an item T turns down |
| `Evidence.LinkedSurvives` | itx/runtime/service.py:76-94 | what T told the client stays true through all registrations by others and all restarts |
| `Evidence.DeliveredIsRegistered` | itx/runtime/agent.py:59-81 | each accepted statement that left the outbox is itself in T's journal, under the good receipt the client holds, up to a leaf collision |
| `Evidence.NoClashOfOwn` | itx/runtime/common/storage.py:87-88 | items signed by their owner are told apart by the hashes the outbox and the receipts use, up to a collision |
| `Evidence.ReceiptBinds` | itx/ts/log.py:74-88 | one receipt cannot verify for two statements, up to a leaf collision |
| `Execution.Executor.Infer` | itx/runtime/service.py:237-309 | reply and durable state are those of `ReplyTo` and `Step`, with a crash at any point between two writes |
| `Execution.AtMostOnce` | itx/runtime/service.py:254-268 | over any calls the model runs at most once per identifier, and a nonce is consumed by at most one call |
| `Execution.InterruptedStaysUnknown` | itx/runtime/service.py:258-259 | an execution that started without completing is never run again and never answered |
| `Execution.BurntNonceStaysBurnt` | itx/runtime/service.py:263-265 | a call stopped between consuming its nonce and recording the start is never rerun |
| `Execution.SameAnswer` | itx/runtime/service.py:253-260 | all answers for an identifier are the same, and to the same contract, body and salt up to a collision |
| `Execution.AnswerIsModelOutput` | itx/runtime/service.py:257-309 | every answer, served or replayed, is what the model said in the one call that ran the identifier, with a receipt of M over exactly that request and output |
| `Execution.QueuedIsModelOutput` | itx/runtime/service.py:270-281 | every queued receipt is over what the model said in a recorded run, and every recorded run is one of the calls |
| `Execution.AnsweredExactly` | itx/runtime/service.py:251-309 | a call is answered if and only if it repeats a served call, or is usable, the first to start its identifier and to consume its nonce, and gets through |
| `Execution.RetryAnsweredExactly` | itx/runtime/service.py:254-265 | after a call has consumed its nonce, the same call is answered if and only if an earlier one was served |
| `Execution.RunsAreRecorded` | itx/runtime/service.py:263-309 | every run is recorded under its own identifier and nonce, and every stored result comes from a run and queued its receipt |
| `Paging.AuditPage` | itx/runtime/service.py:190-206 | answers exactly for a pinned head of an earlier snapshot, with at least one and at most `limit` consecutive entries of it |
| `Paging.CallAuditPage` | itx/runtime/auditing.py:49-53 | while T keeps registering, the next page of the snapshot is still served and never empty |
| `Paging.FetchExport` | itx/runtime/auditing.py:40-59 | terminates; returns exactly the entries behind the signed head, or refuses exactly another identity or a log over the entry limit, or for 64 MiB; honest pages are never found invalid |
| `Paging.EntriesStay` | itx/runtime/service.py:220-234 | exported entries do not change as the log grows |
| `Paging.VerifyExport` | itx/runtime/auditing.py:62-92 | raises exactly on another identity, checker version or profile or an export that is not well formed, and names exactly the entries without an authentic receipt for their place |
| `Paging.FetchedExportVerifies` | itx/runtime/auditing.py:62-98 | a fetched export is well formed, has no bad receipt and recomputes the signed root |
| `Enrollment.VerifyDeployment` | itx/runtime/enrollment.py:200-251 | accepts exactly a lineage of sound epochs, each endorsed once by every operator, no longer than the depth allows |
| `Enrollment.Configuration` | itx/runtime/enrollment.py:254-271 | the history is exactly the lineage, newest first; identities, endpoints, terms and log name are those of the newest proposal |
| `Enrollment.GapFree` | itx/runtime/enrollment.py:226-235 | an accepted lineage is e, e-1, ..., 1 with one deployment id and one role set, each naming its predecessor's fingerprint |
| `Enrollment.EpochBound` | itx/runtime/enrollment.py:200-202 | no accepted epoch is above 33 |
| `Enrollment.EveryKeySigned` | itx/runtime/enrollment.py:236-250 | each epoch is signed by each of its keys and, after the first, by each key before it |
| `Enrollment.KeysApart` | itx/runtime/enrollment.py:217-221 | in no accepted epoch do two operators share a key, or two services a TLS authority |
| `Enrollment.ProposalExactly` | itx/runtime/enrollment.py:203-221 | a proposal is sound exactly with the four operators or five, valid cards that outlive it, as many keys as operators, as many TLS authorities as services, and terms in order |
| `Enrollment.TermsExactly` | itx/runtime/enrollment.py:208-225 | the terms are in order exactly within the limits, with a model that is the built-in mock or is not named as if it were |
| `Enrollment.FollowsExactly` | itx/runtime/enrollment.py:226-235 | a renewal is the next epoch of the same deployment and operators, with a checkpoint of the log before it signed by the T before it |
| `Enrollment.EndorsedByAllIsAccepted` | itx/runtime/enrollment.py:200-251 | a sound renewal that every operator endorses with its new and its old key is accepted |
| `Enrollment.FingerprintFixesHistory` | itx/runtime/enrollment.py:230-231 | two accepted lineages with one fingerprint have the same proposals throughout, up to a collision |
| `Streaming.StreamingGate.FeedChunk` | itx/enforce/streaming_gate.py:69-95 | succeeds exactly on the next numbered chunk with the expected hash, if one is given; any other call closes the gate |
| `Streaming.StreamingGate.Finalize` | itx/enforce/streaming_gate.py:97-109 | succeeds exactly when chain, final hash and signed root are equal |
| `Streaming.HoldsChainOfAccepted` | itx/enforce/streaming_gate.py:81-95 | after any calls the chain hash is the fold of exactly the accepted chunks 1..k |
| `Streaming.StopsForGood` | itx/enforce/streaming_gate.py:59-67 | no call succeeds after a failure or a finalization |
| `Streaming.ChainInjective` | itx/enforce/streaming_gate.py:81-84 | two chunk lists with one chain hash are equal, or one is empty and the seed is what the other hashed last |
| `Streaming.FinalizedMeansSigned` | itx/enforce/streaming_gate.py:97-109 | a finalized gate was fed exactly the signed list if and only if both or neither are empty; otherwise the seed begins with a digest computed from itself, up to a collision |
| `Streaming.EmptyStreamPasses` | itx/enforce/streaming_gate.py:97-109 | a gate fed nothing passes for a list if and only if the list is empty or the seed is of that kind, up to a collision |
| `Streaming.SelfReferentialSeed` | itx/enforce/streaming_gate.py:52-54 | for some hash function there is such a seed |
| `Streaming.SignedStreamPasses` | itx/enforce/streaming_gate.py:69-109 | the signed list fed in order always finalizes |
| `Gate.UserGate.LocalChecks` | itx/enforce/user_gate.py:91-165 | fills exactly the ten checks, each with its value |
| `Gate.UserGate.Decide` | itx/enforce/user_gate.py:183-228 | accepts exactly when no check failed, every required one passed and, in strict mode, T said "passed"; a sound response is never used before the decision, and quarantine and timeout have exactly their own causes |
| `Reconcile.Gather` | itx/reconcile/engine.py:70-121 | each field is the last entry of its type that is validly signed and authorised; the others are set aside in order; the receipt shown to U stands in exactly when none is registered and it is genuine; the references are the statements taken, with their times, in order |
| `Agreement.GatheredIsGenuine` | itx/reconcile/engine.py:80-119 | evidence is signed by its issuer's pinned key and within the issuer's authority |
| `Agreement.AdmittedIsGathered` | itx/reconcile/engine.py:80-96 | what the registration policy admitted is never set aside by the engine |
| `Agreement.PassedMeansChecksPass` | itx/reconcile/engine.py:216-223 | on one case, T's "passed" implies every check of U except tool policy, the request binding exactly when M committed to a request |
| `Agreement.AcceptedIsNotFailed` | itx/reconcile/engine.py:216-223 | with honest U evidence and a silent R, T judges an accepted response "failed" exactly when the receipt names no model, and "passed" exactly when the model is registered and only identity responses are allowed |
| `Agreement.RouteFailsAlike` | itx/enforce/user_gate.py:168-180 | U's route check and E8 pass alike, and fail alike once R has spoken; while R is silent U also fails an undeclared fallback, which T leaves open |
| `Agreement.RequestCheckExactly` | itx/enforce/user_gate.py:111-126 | the request check passes exactly for the commitment of an allowed transform, and fails only if every allowed one was computed |
| `Verdicts.EquationExactly` | itx/reconcile/equations.py:77-289 | each of the twelve equations fails, and passes, exactly on the named disagreement, and agreement, of the fields |
| `Verdicts.StatusExactly` | itx/reconcile/engine.py:215-223 | "failed" is exactly evidence set aside, another receipt shown to U, or one of twelve disagreements; "passed" is none and agreement in eight |
| `Verdicts.CodesExactly` | itx/reconcile/discrepancy.py:62-114 | each discrepancy is recorded once for each disagreement of its name |
| `Verdicts.VerdictExactly` | itx/reconcile/engine.py:124-223 | status, completeness, equation table and all discrepancies of a verdict, in the fields of the evidence |
| `Verdicts.EvidenceNamed` | itx/reconcile/engine.py:160-170 | a verdict names its policy, checker and keys, and the hash of each statement it was judged from |
| `EndToEnd.ModelOperator.Serve` | itx/sim/parties/model_operator.py:65-110 | every statement M signs describes a real execution; it refuses exactly when the pre-execution check fails |
| `EndToEnd.DecideInTime` | itx/sim/parties/user.py:159-180 | an accept in strict mode rests on a signed "passed" of a poll made at once or before the deadline |
| `EndToEnd.Receive` | itx/sim/parties/user.py:139-180 | the decision rests on the checks of this delivery, and in strict mode on such a poll |
| `EndToEnd.AcceptedComesFromModel` | itx/enforce/user_gate.py:111-215 | for every relay, an accepted body is the output of a requested or allowed model on U's request or an approved transform of it, in a call made after the contract with its nonce, up to a collision |
| `EndToEnd.Exchange` | itx/sim/parties/user.py:67-157 | the whole exchange with a relay of any strategy: if U accepts, one of M's executions since U made the attempt explains the body |
| `EndToEnd.EnforcedRunsCommittedBody` | itx/sim/parties/model_operator.py:42-62 | an M that checks, under a contract that allows no transform, executes only the body that U committed to |
| `EndToEnd.EnforcedRefusals` | itx/sim/parties/model_operator.py:42-62 | otherwise it refuses exactly without U's nonce or a salt |
| `EndToEnd.HonestRelayAccepted` | itx/enforce/user_gate.py:91-180 | what an honest relay brings back, after an allowed transform or a declared fallback, passes every required check and fails none |
| `Honest.Forward` | itx/sim/parties/relay.py:74-150 | an honest R applies its transform, asks M once, and signs exactly what it received, sent, got back and handed on |
| `Honest.HonestPasses` | itx/reconcile/engine.py:70-223 | over the four statements of an honest exchange, in any order, T says "passed" and "complete" and records nothing but perhaps a delay |
| `Honest.HonestExchange` | itx/sim/parties/user.py:67-157 | U, R and M honest, either transform, requested or declared fallback model: U accepts and T passes |
| `Replay.IssueVerdict` | itx/runtime/service.py:169-185 | refuses exactly without private evidence or contract; otherwise registers, through the journal's own tests, the judgement by T's policy over exactly what is registered before, with contract hash, private evidence hash and lifetime |
| `Replay.VerdictFollowsEvidence` | itx/runtime/service.py:169-185 | a registered verdict stands directly behind the entries it was judged over |
| `Replay.ReplaySub` | itx/audit/replay.py:215-261 | a request matches if and only if it has an authentic verdict and each authentic verdict has status, completeness, codes, equations, policy hash, checker, keys version and evidence that T's rules give over what was registered before it; without the private evidence all of these but E1, E4 and what they lead to |
| `Replay.MatchesExactly` | itx/audit/replay.py:34-59 | the comparison of signatures is that comparison of fields |
| `Replay.AuthenticIsIssued` | itx/audit/replay.py:62-72 | a verdict that counts was signed by T, if T's key verifies only what T signed |
| `Replay.EvidenceForExactly` | itx/audit/replay.py:216 | the evidence is taken entry by entry: what is about the request and no verdict |
| `Replay.CutoffIsSnapshot` | itx/audit/replay.py:241-242 | the cutoff selects exactly the evidence T had |
| `Replay.HonestVerdictReplays` | itx/audit/replay.py:231-251 | an honest verdict is recomputed identically from every later export, given its private evidence |
| `Replay.MatchWithoutEvidence` | itx/audit/replay.py:34-59 | without the private evidence an honest verdict matches if and only if something public fails, or E4 fails for the auditor just when E1 or E4 failed for T |
| `Replay.FalseMismatch` | itx/audit/replay.py:239-251 | a contract that does not commit to the request in U's evidence: T's authentic and honest verdict on it is reported as a mismatch |
| `Runs.Run` | itx/runtime/service.py:52-185 | after any submissions, private evidence, restarts and requests for verdicts, T's log, journal and private evidence are those of `AfterSteps` |
| `Runs.RunJournalOk` | itx/runtime/service.py:75-94 | all that time, verdicts included, the journal stays numbered, admitted, receipted and free of conflicts |
| `Runs.RowsComeFromParties` | itx/runtime/service.py:144-155 | in an honest run every row but T's own was submitted by the party that may make such a statement, under its name, key and signature, and a contract while the epoch was active |
| `Runs.VerdictRowsAreJudged` | itx/runtime/service.py:169-185 | each verdict in the journal of an honest T answers one of the requests, over exactly the rows before it and the private evidence of that moment |
| `Runs.NothingSetAside` | itx/reconcile/engine.py:80-96 | in no run does T's engine set registered evidence aside for its signature or its issuer |
| `Runs.EngineFromExport` | itx/audit/replay.py:175-209 | from the export's policy statement and T's pinned key the auditor rebuilds exactly T's engine |
| `Runs.HonestRunReplays` | itx/audit/replay.py:215-261 | after any run of an honest T each verdict about a request is authentic and recomputed identically by an auditor who was given the private evidence behind it |
| `Cases.PassedWithoutBinding` | itx/reconcile/equations.py:190-195 | a run of T, with evidence gathered from its own log, in which T passes on R's word and U's request binding fails |
| `Cases.AcceptedButFailed` | itx/enforce/user_gate.py:168-171 | a run of T, with honest U evidence and a silent R, in which U accepts and T judges "failed" |

## Left out

- SHA-256, Ed25519, X25519, AES-GCM and X.509: parameters, as described above. The forging of signatures and the finding of collisions are assumed away only where a statement says so.
- Canonical JSON, hex and Python's dynamic types: records and byte strings. Fields of the wrong type, which raise errors, do not occur (a chunk that is not bytes, a tree size that is not an integer); where the code tests for them, the test is part of a `valid` parameter or of the `Malformed` argument.
- `validate_payload`, the subject pattern, `verify_card` and the checks of prompt, salt and relay in `infer` are parameters (`validPayload`, `subMatches`, `cardValid`, `wellFormed`).
- Negative tree sizes in `verify_consistency` and `verify_tree`; sizes are natural numbers.
- Floats and unsupported Python types in the CBOR encoder, its recursion limit, `diagnostic`, `hex_dump` and `structure_rows`; `sign1.sign` and `protected_header`, which `to_sign1` replaces.
- DER object identifiers, the parsing of a full TimeStampResp, and OpenSSL: the outcome of a token check is a parameter of an anchor record.
- Reasons, attributions, trust grades and bases of checks and equations. The tables of equations and discrepancies are functions here, not filled entry by entry; the order of the discrepancy list is not kept.
- The aggregate report of `replay_audit` beyond the tree, held receipts, anchors and verdicts of each request.
- R's branch of `infer` and the lab's fault injection: the relay is arbitrary instead. A colluding M (`forge_receipt`) is outside `AcceptedComesFromModel`.
- `User.request` when no response arrives, sessions, the clock and event recording of the simulation; `Agent._request` beyond its evidence, which repeats the gate's decision.
- Agent.Flush: calls of `enqueue` that another thread of the same party makes during a flush are ordered before or after it; the flush loops of U and of the services are one.
- An empty signature, which `verify_with` refuses before it looks at the key, is refused by the `verify` of the scheme.
- Executor.Infer: the receipt's time is the clock reading of the call. The evidence queue is a bound given per call, below which queueing the receipt cannot fail.
- WitnessService.Handle: one clock reading stands for the three of a call; both writes commit together, as in the program.
- IssueVerdict: one clock reading stands for those of a call, and the head that is sent along is that of `Log.TransparencyLog.Head`.
- MapEntries: dictionary values are encoded before the sort instead of after it, which changes nothing.
- HTTP, TLS, IPC, process control, file formats, the desktop application, reports, scenarios, metrics and benchmarks.

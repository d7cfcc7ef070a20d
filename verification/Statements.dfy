/**
  Signed statements and the other records that carry a signature.

  Canonical JSON is an injective serialisation, so a signature is over the record itself
  (`Message`). Where its bytes are hashed, the serialisation is a parameter.
 */
module Statements {
  import opened Bytes
  import opened Options

  const CT_CONTRACT := "contract"
  const CT_RELAY := "relay"
  const CT_RECEIPT := "receipt"
  const CT_OBSERVATION := "observation"
  const CT_MANIFEST := "manifest"
  const CT_VERDICT := "verdict"
  const CT_POLICY := "policy"

  /** What U promises before sending. */
  datatype Contract = Contract(
    attemptId: string, nonce: Bytes, reqCommit: Digest, requestedModel: string, allowedModels: seq<string>,
    fallbackPolicy: string, allowedRequestTransforms: seq<string>, allowedResponseTransforms: seq<string>,
    expiresAt: int, clientTime: int)

  /** What R says it forwarded. */
  datatype Relay = Relay(
    attemptId: string, inCommit: Digest, outCommit: Digest, requestTransformId: string, upstreamModel: string,
    respInCommit: Option<Digest>, respOutCommit: Option<Digest>, responseTransformId: string,
    policyDecision: string, nonceForwarded: Option<Bytes>)

  /** What M says it executed. */
  datatype Receipt = Receipt(
    attemptId: string, requestCommit: Option<Digest>, responseCommit: Option<Digest>, modelId: Option<string>,
    modelHash: Option<Digest>, eatNonce: Option<Bytes>, decision: string)

  /** What U says it received. */
  datatype Observation = Observation(
    attemptId: string, respCommit: Digest, receivedAt: int, presentedReceipt: Option<Statement>)

  datatype Outcome = Pass | Fail | NotEvaluable

  /** The equations of the reconciliation. */
  datatype Equation = E1 | E2 | E3 | E4 | E5 | E6 | E7 | E8 | E9 | E10 | E11 | E12

  datatype VerificationStatus = Passed | Failed | InsufficientEvidence

  /** What a replay compares of a verdict, and, last, what T adds to bind it to a contract and a lifetime. */
  datatype Verdict = Verdict(
    status: VerificationStatus, completeness: string, codes: multiset<string>, equations: map<Equation, Outcome>,
    policyHash: Digest, checkerVersion: string, keysVersion: string, evidence: multiset<Digest>,
    contractHash: Option<Digest>, privateEvidenceHash: Option<Digest>, validUntil: Option<int>)

  datatype Payload =
    | ContractPayload(c: Contract)
    | RelayPayload(r: Relay)
    | ReceiptPayload(m: Receipt)
    | ObservationPayload(o: Observation)
    | VerdictPayload(v: Verdict)
    | OtherPayload(content: Bytes)

  datatype Statement = Statement(
    iss: string, sub: string, contentType: string, kid: string, issuedAt: int, payload: Payload, signature: Bytes)

  /** What T signs about a registration. */
  datatype ReceiptBody = ReceiptBody(
    logId: string, leafIndex: int, treeSize: nat, rootHash: Digest, leafHash: Digest, registeredAt: int, tsKid: string)

  datatype RegistrationReceipt = RegistrationReceipt(body: ReceiptBody, inclusionProof: seq<Digest>, signature: Bytes)

  datatype HeadBody = HeadBody(logId: string, treeSize: nat, rootHash: Digest, time: int, tsKid: string)

  datatype TreeHead = TreeHead(body: HeadBody, signature: Bytes)

  datatype WitnessBody = WitnessBody(
    kid: string, head: TreeHead, policyHash: Digest, observedAt: int, sequence: nat, previous: Option<Digest>)

  datatype WitnessReceipt = WitnessReceipt(body: WitnessBody, signature: Bytes)

  /** A party and its key. */
  datatype Identity = Identity(iss: string, kid: string, publicKey: Bytes)

  datatype Message =
    | StatementMessage(unsigned: Statement)  // its signature field is empty
    | ReceiptMessage(receipt: ReceiptBody)
    | HeadMessage(head: HeadBody)
    | WitnessMessage(w: WitnessBody)
    | EndorsementMessage(role: string, deployment: Digest)

  function ToBeSigned(s: Statement): Message { StatementMessage(s.(signature := [])) }

  /** The hash function and the serialisations whose bytes are hashed. */
  datatype Encoding = Encoding(H: Hash, leafBytes: Statement -> Bytes, signedBytes: Statement -> Bytes)

  /** Serialisations lose nothing; the signed form leaves out the signature only. */
  ghost predicate Lossless(E: Encoding) {
    (forall s, t | E.leafBytes(s) == E.leafBytes(t) :: s == t)
    && (forall s, t :: E.signedBytes(s) == E.signedBytes(t) <==> s.(signature := []) == t.(signature := []))
  }

  function StatementHash(E: Encoding, s: Statement): Digest { E.H(E.signedBytes(s)) }
}

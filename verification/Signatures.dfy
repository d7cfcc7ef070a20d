/** An abstract signature scheme: what is signed, and that genuine signatures verify. */
module Signatures {
  import opened Bytes

  datatype KeyPair = KeyPair(kid: string, publicKey: Bytes, seed: Bytes)

  datatype Scheme<!M> = Scheme(sign: (KeyPair, M) -> Bytes, verify: (Bytes, M, Bytes) -> bool)

  /** What `key` signs verifies under its public key. */
  ghost predicate Genuine<M(!new)>(S: Scheme<M>, key: KeyPair) {
    forall m: M :: S.verify(key.publicKey, m, S.sign(key, m))
  }
}

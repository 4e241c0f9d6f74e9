/** The shared AEAD interface. The ciphers themselves stay abstract: a pair of functions with two laws. */
module Crypto {
  import opened Common

  const TAG: nat := 16

  /** A keyed cipher: arguments are the nonce and the plaintext or ciphertext. */
  datatype Aead = Aead(seal: (Bytes, Bytes) -> Bytes, open: (Bytes, Bytes) -> Option<Bytes>)

  /** Opening undoes sealing, and sealing adds exactly one tag. */
  ghost predicate Lawful(a: Aead) {
    forall n: Bytes, p: Bytes ::
      |a.seal(n, p)| == |p| + TAG && a.open(n, a.seal(n, p)) == Some(p)
  }
}

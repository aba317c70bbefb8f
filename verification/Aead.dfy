/** An AEAD over bytes (RFC 8439 section 2.8), for the codecs that carry real ciphertexts. */
module Aead {
  import opened Wrappers
  import opened Bytes

  /** `seal(key, nonce, plaintext, aad)` and `open(key, nonce, ciphertext, aad)`. */
  datatype Aead = Aead(
    seal: (Octets, Octets, Octets, Octets) -> Octets,
    open: (Octets, Octets, Octets, Octets) -> Option<Octets>)
  {
    /** Opening returns what was sealed, and only a sealed text opens. */
    ghost predicate Correct() {
      && (forall k, n, p, a :: open(k, n, seal(k, n, p, a), a) == Some(p))
      && (forall k, n, c, a :: open(k, n, c, a).Some? ==> c == seal(k, n, open(k, n, c, a).value, a))
    }

    /** Under one key, a ciphertext opens with one nonce and one associated data only. */
    ghost predicate Exact() {
      forall k, n, n', c, a, a' :: open(k, n, c, a).Some? && open(k, n', c, a').Some? ==> n == n' && a == a'
    }
  }
}

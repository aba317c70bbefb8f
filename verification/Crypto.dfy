/**
 Symbolic cryptography.

 Every 32-byte string of the ratchet (private and public keys, root and chain keys, message
 keys) is a term of a free algebra, so two strings are equal exactly when they were computed
 in the same way from the same random values.  A Diffie-Hellman output is the unordered pair
 of the two secrets, which makes RFC 7748 section 6.1 agreement an identity of terms.  The
 AEAD of RFC 8439 section 2.8 opens only on an exact match of key, nonce and associated data.
 */
module Crypto {
  import opened Wrappers
  import opened Bytes

  datatype Term =
    | Random(id: nat)
    | Public(of: Term)
    | Dh(ends: set<Term>)
    | DhRaw(secret: Term, point: Term)
    | X3dhSecret(dh1: Term, dh2: Term, dh3: Term)
    | RootKey(rk: Term, input: Term)
    | ChainKey(rk: Term, input: Term)
    | NextChainKey(ck: Term)
    | SealKey(ck: Term)
    | SealNonce(ck: Term)

  function DiffieHellman(secret: Term, point: Term): Term {
    if point.Public? then Dh({secret, point.of}) else DhRaw(secret, point)
  }

  /** KDF_RK: the new root key and the chain key it starts. */
  function KdfRk(rk: Term, input: Term): (Term, Term) {
    (RootKey(rk, input), ChainKey(rk, input))
  }

  datatype MessageKey<K> = MessageKey(key: K, nonce: K)

  /** KDF_CK: the next chain key and the message key of the current one. */
  function KdfCk(ck: Term): (Term, MessageKey<Term>) {
    (NextChainKey(ck), MessageKey(SealKey(ck), SealNonce(ck)))
  }

  datatype Header<K> = Header(dh: K, pn: nat, n: nat)

  /** The external associated data followed by the 40 header bytes; the fixed width of the
      suffix makes the concatenation injective. */
  datatype Aad = Aad(external: Octets, header: Header<Term>)

  datatype Ciphertext =
    | Sealed(mk: MessageKey<Term>, plaintext: Octets, aad: Aad)
    | Garbage(raw: Octets)

  datatype CryptoError = Malformed | TooManySkipped | AeadFailure | BadSignature

  function Seal(mk: MessageKey<Term>, plaintext: Octets, aad: Aad): Ciphertext {
    Sealed(mk, plaintext, aad)
  }

  function Open(mk: MessageKey<Term>, c: Ciphertext, aad: Aad): Result<Octets, CryptoError> {
    if c.Sealed? && c.mk == mk && c.aad == aad then Ok(c.plaintext) else Err(AeadFailure)
  }

  /** The primitives a session is built from: `K` is the type of the 32-byte strings, `C` that of
      the ciphertexts.  The program computes with bytes, the analysis with terms. */
  datatype Suite<!K(==), !C> = Suite(
    public: K -> K,
    dh: (K, K) -> K,
    sharedSecret: (K, K, K) -> K,
    kdfRk: (K, K) -> (K, K),
    kdfCk: K -> (K, MessageKey<K>),
    seal: (MessageKey<K>, Octets, Octets, Header<K>) -> C,
    open: (MessageKey<K>, C, Octets, Header<K>) -> Result<Octets, CryptoError>)

  const SYMBOLIC: Suite<Term, Ciphertext> :=
    Suite((k: Term) => Public(k),
          (secret: Term, point: Term) => DiffieHellman(secret, point),
          (dh1: Term, dh2: Term, dh3: Term) => X3dhSecret(dh1, dh2, dh3),
          (rk: Term, input: Term) => KdfRk(rk, input),
          (ck: Term) => KdfCk(ck),
          (mk: MessageKey<Term>, plaintext: Octets, ad: Octets, h: Header<Term>) => Seal(mk, plaintext, Aad(ad, h)),
          (mk: MessageKey<Term>, c: Ciphertext, ad: Octets, h: Header<Term>) => Open(mk, c, Aad(ad, h)))

  /** A chain key advanced by `n` symmetric steps. */
  function Steps<K, C>(p: Suite<K, C>, ck: K, n: nat): K {
    if n == 0 then ck else p.kdfCk(Steps(p, ck, n - 1)).0
  }

  function Advance(ck: Term, n: nat): Term {
    Steps(SYMBOLIC, ck, n)
  }

  lemma {:induction false} AdvanceAdds(ck: Term, m: nat, n: nat)
    ensures Advance(Advance(ck, m), n) == Advance(ck, m + n)
  {
    if n > 0 {
      AdvanceAdds(ck, m, n - 1);
    }
  }

  /** The chain key a term was advanced from. */
  function ChainStart(ck: Term): Term {
    if ck.NextChainKey? then ChainStart(ck.ck) else ck
  }

  function ChainSteps(ck: Term): nat {
    if ck.NextChainKey? then 1 + ChainSteps(ck.ck) else 0
  }

  function RootDepth(rk: Term): nat {
    if rk.RootKey? then 1 + RootDepth(rk.rk) else 0
  }

  lemma {:induction false} AdvanceStamp(ck: Term, n: nat)
    ensures ChainStart(Advance(ck, n)) == ChainStart(ck)
    ensures ChainSteps(Advance(ck, n)) == ChainSteps(ck) + n
  {
    if n > 0 {
      AdvanceStamp(ck, n - 1);
    }
  }

  /** A position in a chain determines the chain and the index. */
  lemma {:induction false} AdvanceInjective(root: Term, e: Term, n: nat, root': Term, e': Term, n': nat)
    requires Advance(ChainKey(root, e), n) == Advance(ChainKey(root', e'), n')
    ensures root == root' && e == e' && n == n'
  {
    AdvanceStamp(ChainKey(root, e), n);
    AdvanceStamp(ChainKey(root', e'), n');
  }
}

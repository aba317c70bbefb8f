/** The X3DH handshake (section 3.3 of the X3DH specification), without one-time prekeys. */
module X3dh {
  import opened Wrappers
  import opened Bytes
  import opened Crypto

  /** An Ed25519 verifying key, which is also the peer id. */
  type Peer = Octets

  /** An Ed25519 signature: only the holder of `signer` makes `Signed(signer, message)`. */
  datatype Signature<M> = Signed(signer: Peer, message: M) | Forged(raw: Octets)

  datatype Identity<K> = Identity(peer: Peer, dhSecret: K) {
    function Sign<M>(message: M): Signature<M> {
      Signed(peer, message)
    }
  }

  datatype IdentityPublic<K> = IdentityPublic(ed25519: Peer, x25519: K) {
    predicate Verify<M(==)>(message: M, signature: Signature<M>) {
      signature == Signed(ed25519, message)
    }
  }

  datatype SignedPreKey<K> = SignedPreKey(secret: K)

  datatype PreKeyBundle<K> = PreKeyBundle(identity: IdentityPublic<K>, spkPublic: K, spkSignature: Signature<K>)

  function PublicOf<K, C>(p: Suite<K, C>, id: Identity<K>): IdentityPublic<K> {
    IdentityPublic(id.peer, p.public(id.dhSecret))
  }

  function BundleOf<K, C>(p: Suite<K, C>, spk: SignedPreKey<K>, owner: Identity<K>): PreKeyBundle<K> {
    PreKeyBundle(PublicOf(p, owner), p.public(spk.secret), owner.Sign(p.public(spk.secret)))
  }

  /** What the initiator learns: the shared secret, the ephemeral public key to send, and the
      prekey that seeds its ratchet.  `ephemeral` is the freshly drawn secret. */
  function Initiate<K(==), C>(p: Suite<K, C>, initiator: Identity<K>, bundle: PreKeyBundle<K>, ephemeral: K)
    : Result<(K, K, K), CryptoError>
  {
    if !bundle.identity.Verify(bundle.spkPublic, bundle.spkSignature) then
      Err(BadSignature)
    else
      var dh1 := p.dh(initiator.dhSecret, bundle.spkPublic);
      var dh2 := p.dh(ephemeral, bundle.identity.x25519);
      var dh3 := p.dh(ephemeral, bundle.spkPublic);
      Ok((p.sharedSecret(dh1, dh2, dh3), p.public(ephemeral), bundle.spkPublic))
  }

  function Respond<K, C>(
    p: Suite<K, C>, responder: Identity<K>, spk: SignedPreKey<K>, initiator: IdentityPublic<K>, ephemeral: K): K
  {
    var dh1 := p.dh(spk.secret, initiator.x25519);
    var dh2 := p.dh(responder.dhSecret, ephemeral);
    var dh3 := p.dh(spk.secret, ephemeral);
    p.sharedSecret(dh1, dh2, dh3)
  }

  /** Both sides derive the same secret from a bundle the responder really published, under any
      primitives whose Diffie-Hellman commutes. */
  lemma Agreement<K, C>(
    p: Suite<K, C>, initiator: Identity<K>, responder: Identity<K>, spk: SignedPreKey<K>, ephemeral: K)
    requires forall a: K, b: K :: p.dh(a, p.public(b)) == p.dh(b, p.public(a))
    ensures
      var out := Initiate(p, initiator, BundleOf(p, spk, responder), ephemeral);
      && out.Ok?
      && out.value.0 == Respond(p, responder, spk, PublicOf(p, initiator), out.value.1)
      && out.value.2 == p.public(spk.secret)
  {
  }

  lemma SymbolicCommutes()
    ensures forall a: Term, b: Term :: SYMBOLIC.dh(a, SYMBOLIC.public(b)) == SYMBOLIC.dh(b, SYMBOLIC.public(a))
  {
    forall a: Term, b: Term
      ensures SYMBOLIC.dh(a, SYMBOLIC.public(b)) == SYMBOLIC.dh(b, SYMBOLIC.public(a))
    {
      assert {a, b} == {b, a};
    }
  }

  /** A bundle whose prekey was not signed by the identity it names is refused. */
  lemma InitiateChecksSignature<K, C>(p: Suite<K, C>, initiator: Identity<K>, bundle: PreKeyBundle<K>, ephemeral: K)
    ensures Initiate(p, initiator, bundle, ephemeral).Ok?
      <==> bundle.spkSignature == Signed(bundle.identity.ed25519, bundle.spkPublic)
  {
  }

  /** Two handshakes agree only when they used the same three key pairs, so a responder that
      completes with another initiator or another ephemeral holds an unrelated secret. */
  lemma AgreementOnlyOnSameKeys(
    responder: Identity<Term>, spk: SignedPreKey<Term>,
    initiator: Term, ephemeral: Term, initiator': Term, ephemeral': Term, ed: Peer)
    requires
      && Respond(SYMBOLIC, responder, spk, IdentityPublic(ed, Public(initiator)), Public(ephemeral))
         == Respond(SYMBOLIC, responder, spk, IdentityPublic(ed, Public(initiator')), Public(ephemeral'))
    ensures initiator == initiator' && ephemeral == ephemeral'
  {
    UnorderedPairDetermines(spk.secret, initiator, initiator');
    UnorderedPairDetermines(spk.secret, ephemeral, ephemeral');
  }

  /** The secret is made of the three exchanges of the specification: prekey with initiator identity, responder
      identity with ephemeral, prekey with ephemeral. */
  lemma SecretIs(responder: Identity<Term>, spk: SignedPreKey<Term>, initiator: Identity<Term>, ephemeral: Term)
    ensures Respond(SYMBOLIC, responder, spk, PublicOf(SYMBOLIC, initiator), Public(ephemeral))
         == X3dhSecret(Dh({initiator.dhSecret, spk.secret}), Dh({ephemeral, responder.dhSecret}), Dh({ephemeral, spk.secret}))
  {
    var i, e, r, s := initiator.dhSecret, ephemeral, responder.dhSecret, spk.secret;
    assert {i, s} == {s, i} && {e, r} == {r, e} && {e, s} == {s, e};
  }

  /** One secret, one set of parties: as long as the ephemeral is not the initiator's identity key, the secret fixes
      both identity keys, the prekey and the ephemeral. */
  lemma SecretFixesTheParties(
    responder: Identity<Term>, spk: SignedPreKey<Term>, initiator: Identity<Term>, ephemeral: Term,
    responder': Identity<Term>, spk': SignedPreKey<Term>, initiator': Identity<Term>, ephemeral': Term)
    requires initiator.dhSecret != ephemeral
    requires Respond(SYMBOLIC, responder, spk, PublicOf(SYMBOLIC, initiator), Public(ephemeral))
          == Respond(SYMBOLIC, responder', spk', PublicOf(SYMBOLIC, initiator'), Public(ephemeral'))
    ensures spk' == spk && ephemeral' == ephemeral
    ensures initiator'.dhSecret == initiator.dhSecret && responder'.dhSecret == responder.dhSecret
  {
    SecretIs(responder, spk, initiator, ephemeral);
    SecretIs(responder', spk', initiator', ephemeral');
    var s, s' := spk.secret, spk'.secret;
    assert s' in {initiator.dhSecret, s} && s' in {ephemeral, s};
    UnorderedPairDetermines(s, initiator.dhSecret, initiator'.dhSecret) by {
      assert {s, initiator.dhSecret} == {initiator.dhSecret, s} && {s, initiator'.dhSecret} == {initiator'.dhSecret, s};
    }
    UnorderedPairDetermines(s, ephemeral, ephemeral') by {
      assert {s, ephemeral} == {ephemeral, s} && {s, ephemeral'} == {ephemeral', s};
    }
    UnorderedPairDetermines(ephemeral, responder.dhSecret, responder'.dhSecret);
  }

  lemma UnorderedPairDetermines(a: Term, b: Term, c: Term)
    requires {a, b} == {a, c}
    ensures b == c
  {
    assert b in {a, c} && c in {a, b};
  }
}

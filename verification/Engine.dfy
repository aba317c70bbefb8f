/** The message engine: sessions are loaded, stepped and saved, and a failed step is not saved. */
module Engine {
  import opened Wrappers
  import opened Bytes
  import opened Crypto
  import opened X3dh
  import opened Sessions
  import opened RatchetCodec
  import opened ByteSuite
  import R = Ratchet
  import B = SessionBackend

  const SUITE_CHACHA20_POLY1305: nat := 1

  /** The fields of the wire envelope the engine reads.  `header` is None when the header bytes
      are not 40 long, `x3dhEphemeral` is None when the ephemeral bytes are not 32 long. */
  datatype EncryptedMessage<K, C> = EncryptedMessage(
    senderId: Octets,
    conversationId: Octets,
    header: Option<Header<K>>,
    ciphertext: C,
    cipherSuite: nat,
    x3dhEphemeral: Option<K>)

  datatype Wire<K, C> = Undecodable(raw: Octets) | Encoded(msg: EncryptedMessage<K, C>)

  datatype EngineError = NoSession | UnknownContact | CryptoFailure(cause: CryptoError) | DecodeFailure

  /** An engine with its backend: contacts, stored sessions, and ephemerals still to be sent. */
  datatype State<K(==)> = State(
    identity: Identity<K>,
    prekey: SignedPreKey<K>,
    contacts: map<Peer, IdentityPublic<K>>,
    sessions: map<Peer, Session<K>>,
    pending: map<Peer, K>)

  predicate WellFormed<K>(e: State<K>) {
    forall p <- e.sessions :: e.sessions[p].ckr.Some? ==> e.sessions[p].dhr.Some?
  }

  function AfterEstablish<K, C>(p: Suite<K, C>, e: State<K>, peer: Peer, bundle: PreKeyBundle<K>, ephemeral: K, seed: K)
    : (State<K>, Result<Unit, EngineError>)
  {
    match Initiate(p, e.identity, bundle, ephemeral)
    case Err(error) => (e, Err(CryptoFailure(error)))
    case Ok((sk, ephemeralPublic, prekey)) =>
      (e.(sessions := e.sessions[peer := R.InitiatorState(p, sk, prekey, seed)],
          pending := e.pending[peer := ephemeralPublic]),
       Ok(Unit))
  }

  function AfterEncrypt<K, C>(p: Suite<K, C>, e: State<K>, peer: Peer, conversationId: Octets, plaintext: Octets)
    : (State<K>, Result<Wire<K, C>, EngineError>)
  {
    if peer !in e.sessions then
      (e, Err(NoSession))
    else
      match R.AfterEncrypt(p, e.sessions[peer], plaintext, conversationId)
      case (_, Err(error)) => (e, Err(CryptoFailure(error)))
      case (session, Ok((header, c))) =>
        var ephemeral := if peer in e.pending then Some(e.pending[peer]) else None;
        (e.(sessions := e.sessions[peer := session]),
         Ok(Encoded(EncryptedMessage(
                      e.identity.peer, conversationId, Some(header), c, SUITE_CHACHA20_POLY1305, ephemeral))))
  }

  /** First contact: completes the handshake a message carries when there is no session yet. */
  function AfterBootstrap<K, C>(p: Suite<K, C>, e: State<K>, peer: Peer, msg: EncryptedMessage<K, C>): (State<K>, Result<Unit, EngineError>) {
    if peer in e.sessions then
      (e, Ok(Unit))
    else if msg.x3dhEphemeral.None? then
      (e, Err(NoSession))
    else if peer !in e.contacts then
      (e, Err(UnknownContact))
    else
      var sk := Respond(p, e.identity, e.prekey, e.contacts[peer], msg.x3dhEphemeral.value);
      (e.(sessions := e.sessions[peer := R.ResponderState(p, sk, e.prekey.secret)]), Ok(Unit))
  }

  /** Decryption in the session there is by now; a failure is not saved. */
  function AfterOpen<K, C>(p: Suite<K, C>, e: State<K>, peer: Peer, msg: EncryptedMessage<K, C>, seed: K)
    : (State<K>, Result<Octets, EngineError>)
    requires peer in e.sessions && (e.sessions[peer].ckr.Some? ==> e.sessions[peer].dhr.Some?)
  {
    if msg.header.None? then
      (e, Err(CryptoFailure(Malformed)))
    else
      Kept(e, peer,
           R.AfterDecrypt(p, e.sessions[peer], msg.header.value, msg.ciphertext, msg.conversationId, seed))
  }

  /** What is kept of an attempt: everything when it succeeded, nothing when it failed. */
  function Kept<K>(e: State<K>, peer: Peer, attempt: (Session<K>, Result<Octets, CryptoError>))
    : (State<K>, Result<Octets, EngineError>)
  {
    match attempt
    case (_, Err(error)) => (e, Err(CryptoFailure(error)))
    case (session, Ok(plaintext)) =>
      (e.(sessions := e.sessions[peer := session], pending := e.pending - {peer}), Ok(plaintext))
  }

  function AfterDecrypt<K, C>(p: Suite<K, C>, e: State<K>, peer: Peer, wire: Wire<K, C>, seed: K)
    : (State<K>, Result<Octets, EngineError>)
    requires WellFormed(e)
  {
    if wire.Undecodable? then
      (e, Err(DecodeFailure))
    else
      var (e', boot) := AfterBootstrap(p, e, peer, wire.msg);
      if boot.Err? then (e', Err(boot.error)) else AfterOpen(p, e', peer, wire.msg, seed)
  }

  /** Establishing leaves the sessions and the open handshakes of all other peers as they were. */
  lemma EstablishKeepsOthers<K, C>(p: Suite<K, C>, e: State<K>, peer: Peer, bundle: PreKeyBundle<K>, ephemeral: K, seed: K)
    ensures
      var (e', r) := AfterEstablish(p, e, peer, bundle, ephemeral, seed);
      && e'.sessions - {peer} == e.sessions - {peer}
      && e'.pending - {peer} == e.pending - {peer}
      && (r.Ok? ==> peer in e'.sessions && peer in e'.pending)
  {
    var e' := AfterEstablish(p, e, peer, bundle, ephemeral, seed).0;
    assert e'.sessions - {peer} == e.sessions - {peer};
    assert e'.pending - {peer} == e.pending - {peer};
  }

  /** Encrypting touches one session and no open handshake. */
  lemma EncryptKeepsOthers<K, C>(p: Suite<K, C>, e: State<K>, peer: Peer, conversationId: Octets, plaintext: Octets)
    ensures
      var e' := AfterEncrypt(p, e, peer, conversationId, plaintext).0;
      e'.sessions - {peer} == e.sessions - {peer} && e'.pending == e.pending
  {
    assert AfterEncrypt(p, e, peer, conversationId, plaintext).0.sessions - {peer} == e.sessions - {peer};
  }

  /** A failed decryption leaves the whole engine as it was, except that first contact may have
      installed the fresh responder session; no other peer is touched in any case. */
  lemma DecryptIsTransactional<K, C>(p: Suite<K, C>, e: State<K>, peer: Peer, wire: Wire<K, C>, seed: K)
    requires WellFormed(e)
    ensures
      var (e', r) := AfterDecrypt(p, e, peer, wire, seed);
      && WellFormed(e')
      && e'.sessions - {peer} == e.sessions - {peer}
      && e'.pending - {peer} == e.pending - {peer}
      && (r.Err? && peer in e.sessions ==> e' == e)
      && (r.Err? && peer !in e.sessions ==>
            e' == e || (wire.Encoded? && wire.msg.x3dhEphemeral.Some? && peer in e.contacts
                        && e' == e.(sessions := e.sessions[peer := R.ResponderState(p,
                             Respond(p, e.identity, e.prekey, e.contacts[peer], wire.msg.x3dhEphemeral.value),
                             e.prekey.secret)])))
      && (r.Ok? ==> peer !in e'.pending)
  {
    if wire.Encoded? {
      var (e1, boot) := AfterBootstrap(p, e, peer, wire.msg);
      assert e1.sessions - {peer} == e.sessions - {peer};
      if boot.Ok? {
        OpenIsTransactional(p, e1, peer, wire.msg, seed);
      }
    }
  }

  lemma OpenIsTransactional<K, C>(p: Suite<K, C>, e: State<K>, peer: Peer, msg: EncryptedMessage<K, C>, seed: K)
    requires WellFormed(e) && peer in e.sessions
    ensures
      var (e', r) := AfterOpen(p, e, peer, msg, seed);
      && WellFormed(e')
      && e'.sessions - {peer} == e.sessions - {peer}
      && e'.pending - {peer} == e.pending - {peer}
      && (r.Err? ==> e' == e)
      && (r.Ok? ==> peer !in e'.pending)
  {
    var (e', r) := AfterOpen(p, e, peer, msg, seed);
    if r.Ok? {
      DecryptKeepsRemoteKey(p, e.sessions[peer], msg.header.value, msg.ciphertext, msg.conversationId, seed);
      assert e'.sessions - {peer} == e.sessions - {peer};
      assert e'.pending - {peer} == e.pending - {peer};
    }
  }

  lemma DecryptKeepsRemoteKey<K, C>(p: Suite<K, C>, s: Session<K>, header: Header<K>, c: C, ad: Octets, seed: K)
    requires s.ckr.Some? ==> s.dhr.Some?
    ensures
      var s' := R.AfterDecrypt(p, s, header, c, ad, seed).0;
      s'.ckr.Some? ==> s'.dhr.Some?
  {
  }

  // --- the object ---

  class Engine {
    const p: ByteSuite
    const identity: Identity<Octets>
    const localPrekey: SignedPreKey<Octets>
    const backend: B.Backend
    var contacts: map<Peer, IdentityPublic<Octets>>
    var pendingX3dh: map<Peer, Octets>

    /** Every stored blob is a session, and keys have their widths. */
    ghost predicate Valid()
      reads this, backend
    {
      backend.Valid() && SuiteSized(p) && |localPrekey.secret| == 32
    }

    /** The engine with the sessions its stored bytes stand for. */
    function Value(): State<Octets>
      reads this, backend
    {
      State(identity, localPrekey, contacts, backend.Sessions(), pendingX3dh)
    }

    constructor (
      p: ByteSuite, identity: Identity<Octets>, localPrekey: SignedPreKey<Octets>,
      contacts: map<Peer, IdentityPublic<Octets>>)
      requires SuiteSized(p) && |localPrekey.secret| == 32
      ensures Valid() && fresh(backend) && this.p == p
      ensures Value() == State(identity, localPrekey, contacts, map[], map[])
    {
      this.p := p;
      this.identity := identity;
      this.localPrekey := localPrekey;
      this.contacts := contacts;
      backend := new B.Backend();
      pendingX3dh := map[];
    }

    /** Serializes a session and saves it. */
    method InstallSession(peer: Peer, ratchet: R.Ratchet<Octets, Octets>)
      requires Valid() && Sized(ratchet.Value())
      modifies backend
      ensures Valid() && Value() == old(Value()).(sessions := old(Value()).sessions[peer := ratchet.Value()])
    {
      backend.Save(peer, ratchet.Value());
    }

    /** Loads the session of a peer; one that does not parse is an error. */
    method LoadSession(peer: Peer) returns (r: Result<R.Ratchet<Octets, Octets>, EngineError>)
      requires Valid()
      ensures r == Err(NoSession) <==> peer !in Value().sessions
      ensures r.Err? ==> r == Err(NoSession)
      ensures r.Ok? ==>
        fresh(r.value) && r.value.p == p && r.value.Value() == Value().sessions[peer] && Sized(r.value.Value())
    {
      var blob := backend.Load(peer);
      if blob.None? {
        return Err(NoSession);
      }
      var session := Deserialize(blob.value);
      if session.None? {
        return Err(CryptoFailure(Malformed));
      }
      DeserializedSized(blob.value);
      var ratchet := new R.Ratchet<Octets, Octets>.FromValue(p, session.value);
      r := Ok(ratchet);
    }

    method EstablishOutbound(peer: Peer, bundle: PreKeyBundle<Octets>, ephemeral: Octets, seed: Octets)
      returns (r: Result<Unit, EngineError>)
      requires Valid() && |bundle.spkPublic| == 32 && |seed| == 32
      modifies this, backend
      ensures Valid()
      ensures (Value(), r) == AfterEstablish(p, old(Value()), peer, bundle, ephemeral, seed)
      ensures Value().sessions - {peer} == old(Value()).sessions - {peer}
      ensures Value().pending - {peer} == old(Value()).pending - {peer}
      ensures r.Ok? ==> peer in Value().sessions && peer in Value().pending
    {
      EstablishKeepsOthers(p, Value(), peer, bundle, ephemeral, seed);
      var out := Initiate(p, identity, bundle, ephemeral);
      if out.Err? {
        return Err(CryptoFailure(out.error));
      }
      var (sk, ephemeralPublic, prekey) := out.value;
      var ratchet := new R.Ratchet<Octets, Octets>.InitInitiator(p, sk, prekey, seed);
      InitiatorSized(p, sk, prekey, seed);
      InstallSession(peer, ratchet);
      pendingX3dh := pendingX3dh[peer := ephemeralPublic];
      r := Ok(Unit);
    }

    method Encrypt(peer: Peer, conversationId: Octets, plaintext: Octets)
      returns (r: Result<Wire<Octets, Octets>, EngineError>)
      requires Valid()
      requires peer in Value().sessions ==> Value().sessions[peer].ns < U32_MAX
      modifies backend
      ensures Valid()
      ensures (Value(), r) == AfterEncrypt(p, old(Value()), peer, conversationId, plaintext)
      ensures Value().sessions - {peer} == old(Value()).sessions - {peer}
      ensures Value().pending == old(Value()).pending
    {
      EncryptKeepsOthers(p, Value(), peer, conversationId, plaintext);
      var ratchet :- LoadSession(peer);
      EncryptSized(p, ratchet.Value(), plaintext, conversationId);
      var out := ratchet.Encrypt(plaintext, conversationId);
      if out.Err? {
        return Err(CryptoFailure(out.error));
      }
      var (header, c) := out.value;
      InstallSession(peer, ratchet);
      var ephemeral := if peer in pendingX3dh then Some(pendingX3dh[peer]) else None;
      r := Ok(Encoded(EncryptedMessage(
                        identity.peer, conversationId, Some(header), c, SUITE_CHACHA20_POLY1305, ephemeral)));
    }

    /** Completes the handshake a first message carries. */
    method Bootstrap(peer: Peer, msg: EncryptedMessage<Octets, Octets>) returns (r: Result<Unit, EngineError>)
      requires Valid()
      modifies backend
      ensures Valid()
      ensures (Value(), r) == AfterBootstrap(p, old(Value()), peer, msg)
    {
      var blob := backend.Load(peer);
      if blob.None? {
        if msg.x3dhEphemeral.None? {
          return Err(NoSession);
        }
        if peer !in contacts {
          return Err(UnknownContact);
        }
        var sk := Respond(p, identity, localPrekey, contacts[peer], msg.x3dhEphemeral.value);
        var responder := new R.Ratchet<Octets, Octets>.InitResponder(p, sk, localPrekey.secret);
        ResponderSized(p, sk, localPrekey.secret);
        InstallSession(peer, responder);
      }
      r := Ok(Unit);
    }

    method Decrypt(peer: Peer, wire: Wire<Octets, Octets>, seed: Octets) returns (r: Result<Octets, EngineError>)
      requires Valid() && WellFormed(Value()) && |seed| == 32
      requires peer in Value().sessions ==> Roomy(Value().sessions[peer])
      requires wire.Encoded? && wire.msg.header.Some? ==> |wire.msg.header.value.dh| == 32
      modifies this, backend
      ensures Valid()
      ensures (Value(), r) == AfterDecrypt(p, old(Value()), peer, wire, seed)
      ensures Value().sessions - {peer} == old(Value()).sessions - {peer}
      ensures Value().pending - {peer} == old(Value()).pending - {peer}
    {
      if wire.Undecodable? {
        return Err(DecodeFailure);
      }
      DecryptIsTransactional(p, Value(), peer, wire, seed);
      var _ :- Bootstrap(peer, wire.msg);
      r := Open(peer, wire.msg, seed);
    }

    /** Decrypts in the session there is by now, and saves it only on success. */
    method Open(peer: Peer, msg: EncryptedMessage<Octets, Octets>, seed: Octets) returns (r: Result<Octets, EngineError>)
      requires Valid() && |seed| == 32
      requires
        var sessions := Value().sessions;
        peer in sessions && Roomy(sessions[peer]) && (sessions[peer].ckr.Some? ==> sessions[peer].dhr.Some?)
      requires msg.header.Some? ==> |msg.header.value.dh| == 32
      modifies this, backend
      ensures Valid()
      ensures (Value(), r) == AfterOpen(p, old(Value()), peer, msg, seed)
    {
      // The session is there by now, and every stored blob parses.
      var loaded := LoadSession(peer);
      var ratchet := loaded.value;
      if msg.header.None? {
        return Err(CryptoFailure(Malformed));
      }
      var out := TryDecrypt(ratchet, msg.header.value, msg.ciphertext, msg.conversationId, seed);
      if out.Err? {
        return Err(CryptoFailure(out.error));
      }
      r := Keep(peer, ratchet, out.value);
    }

    /** Saves the session of a successful attempt, which also confirms the handshake. */
    method Keep(peer: Peer, ratchet: R.Ratchet<Octets, Octets>, plaintext: Octets) returns (r: Result<Octets, EngineError>)
      requires Valid() && Sized(ratchet.Value())
      modifies this, backend
      ensures Valid()
      ensures (Value(), r) == Kept(old(Value()), peer, (ratchet.Value(), Ok(plaintext)))
    {
      InstallSession(peer, ratchet);
      pendingX3dh := pendingX3dh - {peer};
      r := Ok(plaintext);
    }

    /** The loaded ratchet stays serializable whatever it is made to decrypt. */
    method TryDecrypt(
      ratchet: R.Ratchet<Octets, Octets>, header: Header<Octets>, c: Octets, ad: Octets, seed: Octets)
      returns (r: Result<Octets, CryptoError>)
      requires SuiteSized(p) && ratchet.p == p && Sized(ratchet.Value()) && Roomy(ratchet.Value())
      requires ratchet.Value().ckr.Some? ==> ratchet.Value().dhr.Some?
      requires |header.dh| == 32 && |seed| == 32
      modifies ratchet
      ensures Sized(ratchet.Value())
      ensures (ratchet.Value(), r) == R.AfterDecrypt(p, old(ratchet.Value()), header, c, ad, seed)
    {
      DecryptSized(p, ratchet.Value(), header, c, ad, seed);
      r := ratchet.Decrypt(header, c, ad, seed);
    }
  }
}

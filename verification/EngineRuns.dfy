/** One engine and many contacts: what is done with one leaves the others alone, and a handshake stays open
    until its own peer replies. */
module EngineRuns {
  import opened Wrappers
  import opened Bytes
  import opened Crypto
  import opened X3dh
  import opened Sessions
  import opened Engine
  import R = Ratchet

  // --- one step ---

  function Restrict<V>(m: map<Peer, V>, p: Peer): map<Peer, V> {
    if p in m then map[p := m[p]] else map[]
  }

  /** The engine as far as contact `p` is concerned. */
  function Toward<K(==)>(e: State<K>, p: Peer): State<K> {
    e.(contacts := Restrict(e.contacts, p), sessions := Restrict(e.sessions, p), pending := Restrict(e.pending, p))
  }

  /** Nothing but what concerns `peer` differs. */
  ghost predicate SameBut<K>(e: State<K>, e': State<K>, peer: Peer) {
    && e'.identity == e.identity && e'.prekey == e.prekey && e'.contacts == e.contacts
    && e'.sessions - {peer} == e.sessions - {peer}
    && e'.pending - {peer} == e.pending - {peer}
  }

  lemma RestrictOther<V>(m: map<Peer, V>, m': map<Peer, V>, peer: Peer, q: Peer)
    requires m' - {peer} == m - {peer} && q != peer
    ensures Restrict(m', q) == Restrict(m, q)
  {
    assert q in m <==> q in m - {peer};
    assert q in m' <==> q in m' - {peer};
    if q in m {
      assert (m - {peer})[q] == (m' - {peer})[q];
    }
  }

  lemma OthersSame<K>(e: State<K>, e': State<K>, peer: Peer, q: Peer)
    requires SameBut(e, e', peer) && q != peer
    ensures Toward(e', q) == Toward(e, q)
  {
    RestrictOther(e.sessions, e'.sessions, peer, q);
    RestrictOther(e.pending, e'.pending, peer, q);
  }

  /** Establishing with a contact starts that session and opens that handshake, besides all others. */
  lemma EstablishIsLocal<K, C>(
    p: Suite<K, C>, e: State<K>, peer: Peer, bundle: PreKeyBundle<K>, ephemeral: K, seed: K)
    ensures
      var (e', r) := AfterEstablish(p, e, peer, bundle, ephemeral, seed);
      && SameBut(e, e', peer)
      && (r.Ok? <==> Initiate(p, e.identity, bundle, ephemeral).Ok?)
      && (r.Err? ==> e' == e)
      && (r.Ok? ==> peer in e'.sessions && peer in e'.pending && e'.pending[peer] == p.public(ephemeral))
      && Toward(e', peer) == AfterEstablish(p, Toward(e, peer), peer, bundle, ephemeral, seed).0
      && r == AfterEstablish(p, Toward(e, peer), peer, bundle, ephemeral, seed).1
  {
    var e' := AfterEstablish(p, e, peer, bundle, ephemeral, seed).0;
    assert e'.sessions - {peer} == e.sessions - {peer};
    assert e'.pending - {peer} == e.pending - {peer};
  }

  /** Establishing starts anew, whatever session and whatever handshake there was. */
  lemma EstablishStartsAnew<K, C>(
    p: Suite<K, C>, e: State<K>, peer: Peer, bundle: PreKeyBundle<K>, ephemeral: K, seed: K)
    requires Initiate(p, e.identity, bundle, ephemeral).Ok?
    ensures
      var e' := AfterEstablish(p, e, peer, bundle, ephemeral, seed).0;
      var bare := AfterEstablish(p, State(e.identity, e.prekey, map[], map[], map[]), peer, bundle, ephemeral, seed).0;
      && bare.sessions.Keys == bare.pending.Keys == {peer}
      && peer in e'.sessions && e'.sessions[peer] == bare.sessions[peer]
      && peer in e'.pending && e'.pending[peer] == bare.pending[peer]
  {
  }

  /** Encrypting for a contact steps that session; no handshake is opened or closed by it. */
  lemma EncryptIsLocal<K, C>(p: Suite<K, C>, e: State<K>, peer: Peer, conversation: Octets, plaintext: Octets)
    ensures
      var (e', r) := AfterEncrypt(p, e, peer, conversation, plaintext);
      && SameBut(e, e', peer) && e'.pending == e.pending
      && (r.Err? ==> e' == e)
      && Toward(e', peer) == AfterEncrypt(p, Toward(e, peer), peer, conversation, plaintext).0
      && r == AfterEncrypt(p, Toward(e, peer), peer, conversation, plaintext).1
  {
    var e' := AfterEncrypt(p, e, peer, conversation, plaintext).0;
    assert e'.sessions - {peer} == e.sessions - {peer};
  }

  lemma BootstrapIsLocal<K, C>(p: Suite<K, C>, e: State<K>, peer: Peer, msg: EncryptedMessage<K, C>)
    ensures
      var (e', r) := AfterBootstrap(p, e, peer, msg);
      && SameBut(e, e', peer) && e'.pending == e.pending
      && Toward(e', peer) == AfterBootstrap(p, Toward(e, peer), peer, msg).0
      && r == AfterBootstrap(p, Toward(e, peer), peer, msg).1
  {
    assert AfterBootstrap(p, e, peer, msg).0.sessions - {peer} == e.sessions - {peer};
  }

  lemma OpenIsLocal<K, C>(p: Suite<K, C>, e: State<K>, peer: Peer, msg: EncryptedMessage<K, C>, seed: K)
    requires peer in e.sessions && (e.sessions[peer].ckr.Some? ==> e.sessions[peer].dhr.Some?)
    ensures peer in Toward(e, peer).sessions && Toward(e, peer).sessions[peer] == e.sessions[peer]
    ensures
      var (e', r) := AfterOpen(p, e, peer, msg, seed);
      && SameBut(e, e', peer)
      && (r.Ok? ==> peer !in e'.pending)
      && (r.Err? ==> e'.pending == e.pending)
      && Toward(e', peer) == AfterOpen(p, Toward(e, peer), peer, msg, seed).0
      && r == AfterOpen(p, Toward(e, peer), peer, msg, seed).1
  {
    if msg.header.Some? {
      KeptIsLocal(e, peer, R.AfterDecrypt(p, e.sessions[peer], msg.header.value, msg.ciphertext, msg.conversationId, seed));
    }
  }

  lemma KeptIsLocal<K>(e: State<K>, peer: Peer, attempt: (Session<K>, Result<Octets, CryptoError>))
    requires peer in e.sessions
    ensures
      var (e', r) := Kept(e, peer, attempt);
      && SameBut(e, e', peer)
      && (r.Ok? ==> peer !in e'.pending)
      && (r.Err? ==> e'.pending == e.pending)
      && Toward(e', peer) == Kept(Toward(e, peer), peer, attempt).0
      && r == Kept(Toward(e, peer), peer, attempt).1
  {
    var e' := Kept(e, peer, attempt).0;
    assert e'.sessions - {peer} == e.sessions - {peer};
    assert e'.pending - {peer} == e.pending - {peer};
    assert Restrict(e'.pending, peer) == Kept(Toward(e, peer), peer, attempt).0.pending;
  }

  /** Decrypting from a contact touches that session and that handshake. */
  lemma DecryptIsLocal<K, C>(p: Suite<K, C>, e: State<K>, peer: Peer, wire: Wire<K, C>, seed: K)
    requires WellFormed(e)
    ensures WellFormed(Toward(e, peer))
    ensures
      var (e', r) := AfterDecrypt(p, e, peer, wire, seed);
      && SameBut(e, e', peer) && WellFormed(e')
      && (r.Ok? ==> peer !in e'.pending)
      && (r.Err? ==> e'.pending == e.pending)
      && Toward(e', peer) == AfterDecrypt(p, Toward(e, peer), peer, wire, seed).0
      && r == AfterDecrypt(p, Toward(e, peer), peer, wire, seed).1
  {
    if wire.Encoded? {
      BootstrapIsLocal(p, e, peer, wire.msg);
      var (e1, boot) := AfterBootstrap(p, e, peer, wire.msg);
      if boot.Ok? {
        OpenIsLocal(p, e1, peer, wire.msg, seed);
        SameButTwice(e, e1, AfterOpen(p, e1, peer, wire.msg, seed).0, peer);
      }
    }
    DecryptKeepsForm(p, e, peer, wire, seed);
  }

  lemma SameButTwice<K>(e: State<K>, e1: State<K>, e2: State<K>, peer: Peer)
    requires SameBut(e, e1, peer) && SameBut(e1, e2, peer)
    ensures SameBut(e, e2, peer)
  {
  }

  lemma DecryptKeepsForm<K, C>(p: Suite<K, C>, e: State<K>, peer: Peer, wire: Wire<K, C>, seed: K)
    requires WellFormed(e)
    ensures WellFormed(AfterDecrypt(p, e, peer, wire, seed).0)
  {
    DecryptIsTransactional(p, e, peer, wire, seed);
  }

  /** What an outgoing message says besides its header and ciphertext. */
  lemma WireSays<K, C>(p: Suite<K, C>, e: State<K>, peer: Peer, conversation: Octets, plaintext: Octets)
    ensures
      var r := AfterEncrypt(p, e, peer, conversation, plaintext).1;
      && (r.Ok? <==> peer in e.sessions && e.sessions[peer].cks.Some?)
      && (r == Err(NoSession) <==> peer !in e.sessions)
      && (r.Ok? ==>
            && r.value.Encoded?
            && r.value.msg.senderId == e.identity.peer && r.value.msg.conversationId == conversation
            && r.value.msg.cipherSuite == 1 && r.value.msg.header.Some?
            && r.value.msg.x3dhEphemeral == if peer in e.pending then Some(e.pending[peer]) else None)
  {
  }

  /** Which error a message meets before any key is tried. */
  lemma DecryptErrors<K, C>(p: Suite<K, C>, e: State<K>, peer: Peer, wire: Wire<K, C>, seed: K)
    requires WellFormed(e)
    ensures
      var r := AfterDecrypt(p, e, peer, wire, seed).1;
      && (r == Err(DecodeFailure) <==> wire.Undecodable?)
      && (r == Err(NoSession) <==> wire.Encoded? && peer !in e.sessions && wire.msg.x3dhEphemeral.None?)
      && (r == Err(UnknownContact) <==>
            wire.Encoded? && peer !in e.sessions && wire.msg.x3dhEphemeral.Some? && peer !in e.contacts)
  {
  }

  // --- runs ---

  datatype Op<K, C> =
    | Establish(peer: Peer, bundle: PreKeyBundle<K>, ephemeral: K, seed: K)
    | Encrypt(peer: Peer, conversation: Octets, plaintext: Octets)
    | Decrypt(peer: Peer, wire: Wire<K, C>, seed: K)

  function After<K, C>(p: Suite<K, C>, e: State<K>, op: Op<K, C>): (e': State<K>)
    requires WellFormed(e)
    ensures WellFormed(e')
  {
    match op
    case Establish(peer, bundle, ephemeral, seed) => AfterEstablish(p, e, peer, bundle, ephemeral, seed).0
    case Encrypt(peer, conversation, plaintext) => AfterEncrypt(p, e, peer, conversation, plaintext).0
    case Decrypt(peer, wire, seed) =>
      DecryptIsTransactional(p, e, peer, wire, seed);
      AfterDecrypt(p, e, peer, wire, seed).0
  }

  function Run<K, C>(p: Suite<K, C>, e: State<K>, ops: seq<Op<K, C>>): (e': State<K>)
    requires WellFormed(e)
    ensures WellFormed(e')
  {
    if ops == [] then e else After(p, Run(p, e, ops[..|ops| - 1]), ops[|ops| - 1])
  }

  /** The operations that concern `q`. */
  function With<K, C>(ops: seq<Op<K, C>>, q: Peer): seq<Op<K, C>> {
    if ops == [] then
      []
    else
      With(ops[..|ops| - 1], q) + if ops[|ops| - 1].peer == q then [ops[|ops| - 1]] else []
  }

  lemma StepToward<K, C>(p: Suite<K, C>, e: State<K>, op: Op<K, C>, q: Peer)
    requires WellFormed(e)
    ensures WellFormed(Toward(e, q))
    ensures Toward(After(p, e, op), q) == if op.peer == q then After(p, Toward(e, q), op) else Toward(e, q)
    ensures SameBut(e, After(p, e, op), op.peer)
  {
    match op
    case Establish(peer, bundle, ephemeral, seed) =>
      EstablishIsLocal(p, e, peer, bundle, ephemeral, seed);
    case Encrypt(peer, conversation, plaintext) =>
      EncryptIsLocal(p, e, peer, conversation, plaintext);
    case Decrypt(peer, wire, seed) =>
      DecryptIsLocal(p, e, peer, wire, seed);
    if op.peer != q {
      OthersSame(e, After(p, e, op), op.peer, q);
    }
  }

  /** Contacts are independent: toward any one of them, a run of the engine is the run of the operations with
      that one, whatever is done with the others in between. */
  lemma {:induction false} ContactsIndependent<K, C>(p: Suite<K, C>, e: State<K>, ops: seq<Op<K, C>>, q: Peer)
    requires WellFormed(e)
    ensures WellFormed(Toward(e, q))
    ensures Toward(Run(p, e, ops), q) == Run(p, Toward(e, q), With(ops, q))
  {
    if ops != [] {
      var before, op := ops[..|ops| - 1], ops[|ops| - 1];
      ContactsIndependent(p, e, before, q);
      StepToward(p, Run(p, e, before), op, q);
      if op.peer == q {
        assert With(ops, q) == With(before, q) + [op];
        assert With(ops, q)[..|With(ops, q)| - 1] == With(before, q);
      } else {
        assert With(ops, q) == With(before, q);
      }
    }
  }

  // --- open handshakes ---

  /** Operation `i` opened a handshake with `q`. */
  ghost predicate OpensAt<K, C>(p: Suite<K, C>, e: State<K>, ops: seq<Op<K, C>>, q: Peer, i: nat)
  {
    && i < |ops| && ops[i].Establish? && ops[i].peer == q
    && Initiate(p, e.identity, ops[i].bundle, ops[i].ephemeral).Ok?
  }

  /** Operation `i` decrypted a message from `q`. */
  ghost predicate HearsAt<K, C>(p: Suite<K, C>, e: State<K>, ops: seq<Op<K, C>>, q: Peer, i: nat)
    requires WellFormed(e)
  {
    && i < |ops| && ops[i].Decrypt? && ops[i].peer == q
    && AfterDecrypt(p, Run(p, e, ops[..i]), q, ops[i].wire, ops[i].seed).1.Ok?
  }

  /** The handshake opened at `i` was neither answered nor started again. */
  ghost predicate OpenSince<K, C>(p: Suite<K, C>, e: State<K>, ops: seq<Op<K, C>>, q: Peer, i: nat)
    requires WellFormed(e)
  {
    && OpensAt(p, e, ops, q, i)
    && (forall j | i < j < |ops| :: !OpensAt(p, e, ops, q, j) && !HearsAt(p, e, ops, q, j))
  }

  lemma OpenSinceStep<K, C>(p: Suite<K, C>, e: State<K>, before: seq<Op<K, C>>, op: Op<K, C>, q: Peer, i: nat)
    requires WellFormed(e)
    ensures
      var ops := before + [op];
      OpenSince(p, e, ops, q, i) <==>
        if i == |before| then
          OpensAt(p, e, ops, q, i)
        else
          OpenSince(p, e, before, q, i) && !OpensAt(p, e, ops, q, |before|) && !HearsAt(p, e, ops, q, |before|)
  {
    var ops := before + [op];
    forall j: nat | j < |before|
      ensures OpensAt(p, e, ops, q, j) <==> OpensAt(p, e, before, q, j)
      ensures HearsAt(p, e, ops, q, j) <==> HearsAt(p, e, before, q, j)
    {
      assert ops[..j] == before[..j];
    }
  }

  /** What one operation does to the open handshake with `q`. */
  lemma PendingStep<K, C>(p: Suite<K, C>, e: State<K>, before: seq<Op<K, C>>, op: Op<K, C>, q: Peer, e0: State<K>, e1: State<K>)
    requires WellFormed(e) && e0 == Run(p, e, before) && e1 == After(p, e0, op) && e0.identity == e.identity
    ensures e1.identity == e.identity
    ensures
      var ops := before + [op];
      if OpensAt(p, e, ops, q, |before|) then
        Entry(e1.pending, q) == Some(p.public(op.ephemeral))
      else if HearsAt(p, e, ops, q, |before|) then
        q !in e1.pending
      else
        Entry(e1.pending, q) == Entry(e0.pending, q)
  {
    assert (before + [op])[..|before|] == before;
    match op
    case Establish(peer, bundle, ephemeral, seed) =>
      EstablishIsLocal(p, e0, peer, bundle, ephemeral, seed);
    case Encrypt(peer, conversation, plaintext) =>
      EncryptIsLocal(p, e0, peer, conversation, plaintext);
    case Decrypt(peer, wire, seed) =>
      DecryptIsLocal(p, e0, peer, wire, seed);
    if op.peer != q {
      RestrictOther(e0.pending, e1.pending, op.peer, q);
    }
  }

  /** `open` is the ephemeral of the open handshake with `q`, if there is one. */
  ghost predicate OpenIs<K, C>(p: Suite<K, C>, e: State<K>, ops: seq<Op<K, C>>, q: Peer, open: Option<K>)
    requires WellFormed(e)
  {
    && (open.Some? <==> exists i: nat :: OpenSince(p, e, ops, q, i))
    && (forall i: nat {:trigger OpenSince(p, e, ops, q, i)} ::
          OpenSince(p, e, ops, q, i) ==> open == Some(p.public(ops[i].ephemeral)))
  }

  lemma OpenIsStep<K, C>(
    p: Suite<K, C>, e: State<K>, before: seq<Op<K, C>>, op: Op<K, C>, q: Peer, open: Option<K>, open': Option<K>)
    requires WellFormed(e) && OpenIs(p, e, before, q, open)
    requires
      var ops := before + [op];
      open' == if OpensAt(p, e, ops, q, |before|) then Some(p.public(op.ephemeral))
               else if HearsAt(p, e, ops, q, |before|) then None
               else open
    ensures OpenIs(p, e, before + [op], q, open')
  {
    var ops := before + [op];
    forall i: nat
      ensures OpenSince(p, e, ops, q, i) <==>
        if i == |before| then
          OpensAt(p, e, ops, q, i)
        else
          OpenSince(p, e, before, q, i) && !OpensAt(p, e, ops, q, |before|) && !HearsAt(p, e, ops, q, |before|)
    {
      OpenSinceStep(p, e, before, op, q, i);
    }
    if OpensAt(p, e, ops, q, |before|) {
      assert OpenSince(p, e, ops, q, |before|);
    } else if i: nat :| OpenSince(p, e, before, q, i) && !HearsAt(p, e, ops, q, |before|) {
      assert OpenSince(p, e, ops, q, i);
    }
  }

  function Entry<V>(m: map<Peer, V>, q: Peer): Option<V> {
    if q in m then Some(m[q]) else None
  }

  lemma {:induction false} OpenIsPending<K, C>(p: Suite<K, C>, e: State<K>, ops: seq<Op<K, C>>, q: Peer)
    requires WellFormed(e) && q !in e.pending
    ensures Run(p, e, ops).identity == e.identity
    ensures OpenIs(p, e, ops, q, Entry(Run(p, e, ops).pending, q))
  {
    if ops != [] {
      var before, op := ops[..|ops| - 1], ops[|ops| - 1];
      assert ops == before + [op];
      OpenIsPending(p, e, before, q);
      var e0, e1 := Run(p, e, before), Run(p, e, ops);
      PendingStep(p, e, before, op, q, e0, e1);
      OpenIsStep(p, e, before, op, q, Entry(e0.pending, q), Entry(e1.pending, q));
    }
  }

  /** A handshake is pending exactly while it is open, with the ephemeral it was opened with, whatever was done
      with other contacts. */
  lemma PendingIffOpen<K, C>(p: Suite<K, C>, e: State<K>, ops: seq<Op<K, C>>, q: Peer)
    requires WellFormed(e) && q !in e.pending
    ensures q in Run(p, e, ops).pending <==> exists i: nat :: OpenSince(p, e, ops, q, i)
    ensures forall i: nat {:trigger OpenSince(p, e, ops, q, i)} | OpenSince(p, e, ops, q, i) ::
      Run(p, e, ops).pending[q] == p.public(ops[i].ephemeral)
  {
    OpenIsPending(p, e, ops, q);
  }

  /** Every message sent to a contact before its first reply carries the ephemeral of the handshake with that
      contact, whatever was established with, sent to or heard from others in between; after the reply, or
      without a handshake, it carries none. */
  lemma EphemeralUntilReply<K, C>(
    p: Suite<K, C>, e: State<K>, ops: seq<Op<K, C>>, q: Peer, conversation: Octets, plaintext: Octets)
    requires WellFormed(e) && q !in e.pending
    ensures
      var r := AfterEncrypt(p, Run(p, e, ops), q, conversation, plaintext).1;
      r.Ok? ==>
        && r.value.Encoded?
        && (r.value.msg.x3dhEphemeral.Some? <==> exists i: nat :: OpenSince(p, e, ops, q, i))
        && (forall i: nat {:trigger OpenSince(p, e, ops, q, i)} | OpenSince(p, e, ops, q, i) ::
              r.value.msg.x3dhEphemeral == Some(p.public(ops[i].ephemeral)))
  {
    PendingIffOpen(p, e, ops, q);
    WireSays(p, Run(p, e, ops), q, conversation, plaintext);
  }
}

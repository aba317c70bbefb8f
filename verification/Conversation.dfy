/**
 Two engines and a network.

 The initiator has called `establish_outbound` once; the responder completes the handshake from
 whichever message reaches it first.  The network holds everything ever sent and may deliver it
 in any order, any number of times, to either party, with any header, conversation id and
 sender; it may also deliver garbage.  It cannot seal, so a ciphertext it delivers is garbage or
 one that was sent, and the ephemeral of a first contact is the real one or absent.
 */
module Conversation {
  import opened Bytes
  import opened Crypto
  import opened X3dh
  import E = Engine

  datatype Party = Initiator | Responder {
    function Other(): Party {
      if this == Initiator then Responder else Initiator
    }
  }

  /** Who the parties are.  Random values numbered `draws` and up are not drawn yet. */
  datatype Setup = Setup(
    initiator: Identity<Term>, responder: Identity<Term>, initiatorPrekey: SignedPreKey<Term>, prekey: nat, draws: nat)
  {
    function Prekey(): SignedPreKey<Term> {
      SignedPreKey(Random(prekey))
    }

    function IdentityOf(p: Party): Identity<Term> {
      if p == Initiator then initiator else responder
    }

    function Peer(p: Party): Peer {
      IdentityOf(p.Other()).peer
    }

    /** The X3DH ephemeral public key. */
    function Ephemeral(): Term {
      Public(Random(draws))
    }

    function SharedSecret(): Term {
      Respond(SYMBOLIC, responder, Prekey(), PublicOf(SYMBOLIC, initiator), Ephemeral())
    }
  }

  predicate ValidSetup(c: Setup) {
    c.prekey < c.draws
  }

  /** A message handed to the network, with what it was made from. */
  datatype Post = Post(from: Party, conversation: Octets, plaintext: Octets, msg: E.EncryptedMessage<Term, Ciphertext>)

  /** A successful decryption: who decrypted what, and the result. */
  datatype Receipt = Receipt(to: Party, msg: E.EncryptedMessage<Term, Ciphertext>, plaintext: Octets)

  datatype World = World(
    initiator: E.State<Term>, responder: E.State<Term>, net: seq<Post>, receipts: seq<Receipt>, draws: nat)
  {
    function EngineOf(p: Party): E.State<Term> {
      if p == Initiator then initiator else responder
    }

    function WithEngine(p: Party, e: E.State<Term>): World {
      if p == Initiator then this.(initiator := e) else this.(responder := e)
    }
  }

  datatype Event =
    | Send(from: Party, conversation: Octets, plaintext: Octets)
    | Deliver(to: Party, wire: E.Wire<Term, Ciphertext>)

  function NewEngine(id: Identity<Term>, prekey: SignedPreKey<Term>, contact: Identity<Term>): E.State<Term> {
    E.State(id, prekey, map[contact.peer := PublicOf(SYMBOLIC, contact)], map[], map[])
  }

  function Start(c: Setup): World {
    var initiator := NewEngine(c.initiator, c.initiatorPrekey, c.responder);
    var responder := NewEngine(c.responder, c.Prekey(), c.initiator);
    var bundle := BundleOf(SYMBOLIC, c.Prekey(), c.responder);
    var (established, _) :=
      E.AfterEstablish(SYMBOLIC, initiator, c.responder.peer, bundle, Random(c.draws), Random(c.draws + 1));
    World(established, responder, [], [], c.draws + 2)
  }

  predicate Usable(w: World) {
    E.WellFormed(w.initiator) && E.WellFormed(w.responder)
  }

  function Step(c: Setup, w: World, ev: Event): World
    requires Usable(w)
  {
    match ev
    case Send(from, conversation, plaintext) => (
      var (e, r) := E.AfterEncrypt(SYMBOLIC, w.EngineOf(from), c.Peer(from), conversation, plaintext);
      var w' := w.WithEngine(from, e);
      match r
      case Ok(Encoded(msg)) => w'.(net := w.net + [Post(from, conversation, plaintext, msg)])
      case _ => w')
    case Deliver(to, wire) => (
      var (e, r) := E.AfterDecrypt(SYMBOLIC, w.EngineOf(to), c.Peer(to), wire, Random(w.draws));
      var w' := w.WithEngine(to, e).(draws := w.draws + 1);
      match r
      case Ok(plaintext) => w'.(receipts := w.receipts + [Receipt(to, wire.msg, plaintext)])
      case Err(_) => w')
  }

  /** What the network can deliver. */
  predicate Admissible(c: Setup, w: World, ev: Event) {
    ev.Deliver? && ev.wire.Encoded? ==>
      var msg := ev.wire.msg;
      && (msg.ciphertext.Sealed? ==> exists t :: 0 <= t < |w.net| && msg.ciphertext == w.net[t].msg.ciphertext)
      && (c.Peer(ev.to) !in w.EngineOf(ev.to).sessions && msg.x3dhEphemeral.Some? ==>
            msg.x3dhEphemeral.value == c.Ephemeral())
  }

  predicate Legal(c: Setup, events: seq<Event>)
    decreases |events|, 0
  {
    events != [] ==>
      var before := events[..|events| - 1];
      && Legal(c, before)
      && Usable(Run(c, before))
      && Admissible(c, Run(c, before), events[|events| - 1])
  }

  function Run(c: Setup, events: seq<Event>): World
    requires Legal(c, events)
    decreases |events|, 1
  {
    if events == [] then
      Start(c)
    else
      Step(c, Run(c, events[..|events| - 1]), events[|events| - 1])
  }
}

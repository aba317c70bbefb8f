/**
 Forward secrecy: what the keys in a stored session reveal.

 Someone who reads a stored session also knows every public key, and can apply the primitives to what is
 known: Diffie-Hellman with any known secret, the key derivations, and nothing else, since no primitive
 can be run backwards.  `extra` are secrets known besides.
 */
module ForwardSecrecy {
  import opened Wrappers
  import opened Crypto
  import opened RatchetHistory
  import opened Conversation
  import opened ConversationInvariant
  import opened ConversationTheorems
  import R = SymbolicRatchet

  /** The 32-byte strings of a stored session. */
  ghost predicate Stored(s: R.State, t: Term) {
    || t == s.dhsSecret || t == s.dhsPublic || t == s.rk
    || s.dhr == Some(t) || s.cks == Some(t) || s.ckr == Some(t)
    || (exists key <- s.skipped :: t == s.skipped[key].key || t == s.skipped[key].nonce)
  }

  ghost predicate Derivable(s: R.State, extra: set<Term>, t: Term) {
    || Stored(s, t)
    || t in extra
    || match t
       case Random(_) => false
       case Public(_) => true
       case Dh(ends) => exists a <- ends :: Derivable(s, extra, a)
       case DhRaw(secret, point) => Derivable(s, extra, secret) && Derivable(s, extra, point)
       case X3dhSecret(dh1, dh2, dh3) =>
         Derivable(s, extra, dh1) && Derivable(s, extra, dh2) && Derivable(s, extra, dh3)
       case RootKey(rk, input) => Derivable(s, extra, rk) && Derivable(s, extra, input)
       case ChainKey(rk, input) => Derivable(s, extra, rk) && Derivable(s, extra, input)
       case NextChainKey(ck) => Derivable(s, extra, ck)
       case SealKey(ck) => Derivable(s, extra, ck)
       case SealNonce(ck) => Derivable(s, extra, ck)
  }

  /** Private keys were drawn at random, and the handshake used an ephemeral that is none of them. */
  ghost predicate Drawn(h: History) {
    && h.sk.X3dhSecret?
    && (forall k <- h.keys :: k.Random?)
    && exists e: Term :: e.Random? && e !in h.keys && |h.keys| > 0 && h.sk.dh3 == Dh({h.keys[0], e})
  }

  /** A session and its history. */
  ghost predicate On(h: History, s: R.State, idx: nat) {
    if Valid(h) && idx < |h.keys| && Drawn(h) then SessionAt(h, s, idx) else false
  }

  lemma RootKind(h: History, k: nat)
    requires Valid(h) && k < |h.keys|
    ensures Root(h.sk, h.keys, k).RootKey? || Root(h.sk, h.keys, k).X3dhSecret?
  {
  }

  lemma AdvanceKind(root: Term, input: Term, n: nat)
    ensures Advance(ChainKey(root, input), n).ChainKey? || Advance(ChainKey(root, input), n).NextChainKey?
  {
  }

  lemma ChainKinds(h: History, k: nat, n: nat)
    requires 1 <= k < |h.keys|
    ensures Advance(Chain(h, k), n).ChainKey? || Advance(Chain(h, k), n).NextChainKey?
  {
    AdvanceKind(Root(h.sk, h.keys, k - 1), Dh({h.keys[k - 1], h.keys[k]}), n);
  }

  /** The chain keys a session stores. */
  predicate StoredChain(h: History, s: R.State, idx: nat, t: Term)
    requires idx < |h.keys| == |h.sent|
  {
    || (idx >= 1 && t == Advance(Chain(h, idx), h.sent[idx]))
    || (idx >= 2 && t == Advance(Chain(h, idx - 1), s.nr))
  }

  /** What a session stores, by kind of term. */
  ghost predicate Kinds(h: History, s: R.State, idx: nat, t: Term)
    requires Valid(h) && idx < |h.keys|
  {
    match t
    case Random(_) => t == h.keys[idx]
    case Public(_) => true
    case Dh(_) => false
    case DhRaw(_, _) => false
    case X3dhSecret(_, _, _) => t == Root(h.sk, h.keys, idx)
    case RootKey(_, _) => t == Root(h.sk, h.keys, idx)
    case ChainKey(_, _) => StoredChain(h, s, idx, t)
    case NextChainKey(_) => StoredChain(h, s, idx, t)
    case SealKey(_) => exists k: nat, n: nat :: k < |h.keys| && Awaited(h, s, idx, k, n) && t == KeyAt(h, k, n).key
    case SealNonce(_) => exists k: nat, n: nat :: k < |h.keys| && Awaited(h, s, idx, k, n) && t == KeyAt(h, k, n).nonce
  }

  lemma StoredKinds(h: History, s: R.State, idx: nat, t: Term)
    requires On(h, s, idx) && Stored(s, t)
    ensures Kinds(h, s, idx, t)
  {
    RootKind(h, idx);
    assert h.keys[idx] in h.keys;
    if idx >= 1 {
      ChainKinds(h, idx, h.sent[idx]);
    }
    if idx >= 2 {
      ChainKinds(h, idx - 1, s.nr);
    }
    if key :| key in s.skipped && (t == s.skipped[key].key || t == s.skipped[key].nonce) {
      SkippedKinds(h, s, idx, key);
    }
  }

  lemma SkippedKinds(h: History, s: R.State, idx: nat, key: (Term, nat))
    requires On(h, s, idx) && key in s.skipped
    ensures Kinds(h, s, idx, s.skipped[key].key) && Kinds(h, s, idx, s.skipped[key].nonce)
    ensures s.skipped[key].key.SealKey? && s.skipped[key].nonce.SealNonce?
  {
    var k :| Awaited(h, s, idx, k, key.1) && key.0 == Pub(h, k);
    assert SlotKey(h, k, key.1) == key;
  }

  /** Of the private keys, a session reveals its own only. */
  lemma OnlyOwnSecret(h: History, s: R.State, idx: nat, t: Term)
    requires On(h, s, idx)
    requires t.Random? && Derivable(s, {}, t)
    ensures t == h.keys[idx]
  {
    StoredKinds(h, s, idx, t);
  }

  /** Earlier root keys are out of reach. */
  lemma {:induction false} RootHidden(h: History, s: R.State, idx: nat, j: nat)
    requires On(h, s, idx) && j < idx
    ensures !Derivable(s, {}, Root(h.sk, h.keys, j))
  {
    RootDepthIs(h, j);
    RootDepthIs(h, idx);
    RootKind(h, j);
    if Stored(s, Root(h.sk, h.keys, j)) {
      StoredKinds(h, s, idx, Root(h.sk, h.keys, j));
    }
    if j > 0 {
      RootHidden(h, s, idx, j - 1);
    } else {
      SharedSecretHidden(h, s, idx);
    }
  }

  lemma SharedSecretHidden(h: History, s: R.State, idx: nat)
    requires On(h, s, idx) && 0 < idx
    ensures !Derivable(s, {}, h.sk.dh3)
  {
    var e: Term :| e.Random? && e !in h.keys && h.sk.dh3 == Dh({h.keys[0], e});
    RootDepthIs(h, idx);
    if Stored(s, h.sk.dh3) {
      StoredKinds(h, s, idx, h.sk.dh3);
    }
    forall a | a in {h.keys[0], e}
      ensures !Derivable(s, {}, a)
    {
      if Derivable(s, {}, a) {
        OnlyOwnSecret(h, s, idx, a);
      }
    }
  }

  // --- chains ---

  /** The chain keys a session stores, as positions. */
  predicate Current(h: History, s: R.State, idx: nat, k: nat, n: nat)
    requires idx < |h.sent|
  {
    (k == idx && n >= h.sent[idx]) || (idx >= 2 && k == idx - 1 && n >= s.nr)
  }

  lemma SamePosition(h: History, k: nat, n: nat, k': nat, n': nat)
    requires Valid(h) && 1 <= k < |h.keys| && 1 <= k' < |h.keys|
    requires Advance(Chain(h, k), n) == Advance(Chain(h, k'), n')
    ensures k == k' && n == n'
  {
    assert KeyAt(h, k, n) == KeyAt(h, k', n');
    KeysUnique(h, k, n, k', n');
  }

  lemma StoredIsCurrent(h: History, s: R.State, idx: nat, k: nat, n: nat)
    requires On(h, s, idx) && 1 <= k <= idx
    ensures Stored(s, Advance(Chain(h, k), n)) ==> Current(h, s, idx, k, n)
  {
    var t := Advance(Chain(h, k), n);
    ChainKinds(h, k, n);
    if Stored(s, t) {
      StoredKinds(h, s, idx, t);
      if t == Advance(Chain(h, idx), h.sent[idx]) {
        SamePosition(h, k, n, idx, h.sent[idx]);
      } else {
        SamePosition(h, k, n, idx - 1, s.nr);
      }
    }
  }

  lemma CurrentIsStored(h: History, s: R.State, idx: nat, k: nat, n: nat)
    requires On(h, s, idx) && 1 <= k <= idx
    requires Current(h, s, idx, k, n) && (n > 0 ==> !Current(h, s, idx, k, n - 1))
    ensures Stored(s, Advance(Chain(h, k), n))
  {
  }

  /** Of the chains up to its own, a session reveals nothing before the two current positions. */
  lemma {:induction false} PastOutOfReach(h: History, s: R.State, idx: nat, k: nat, n: nat)
    requires On(h, s, idx) && 1 <= k <= idx && !Current(h, s, idx, k, n)
    ensures !Derivable(s, {}, Advance(Chain(h, k), n))
  {
    StoredIsCurrent(h, s, idx, k, n);
    if n > 0 {
      PastOutOfReach(h, s, idx, k, n - 1);
      NextDerivable(s, Advance(Chain(h, k), n - 1));
    } else {
      StartOutOfReach(h, s, idx, k);
    }
  }

  lemma StartOutOfReach(h: History, s: R.State, idx: nat, k: nat)
    requires On(h, s, idx) && 1 <= k <= idx && !Stored(s, Chain(h, k))
    ensures !Derivable(s, {}, Chain(h, k))
  {
    RootHidden(h, s, idx, k - 1);
    FirstDerivable(h, s, k);
  }

  /** It reveals everything after them. */
  lemma {:induction false} CurrentInReach(h: History, s: R.State, idx: nat, k: nat, n: nat)
    requires On(h, s, idx) && 1 <= k <= idx && Current(h, s, idx, k, n)
    ensures Derivable(s, {}, Advance(Chain(h, k), n))
  {
    if n > 0 && Current(h, s, idx, k, n - 1) {
      CurrentInReach(h, s, idx, k, n - 1);
      NextDerivable(s, Advance(Chain(h, k), n - 1));
    } else {
      CurrentIsStored(h, s, idx, k, n);
    }
  }

  lemma NextDerivable(s: R.State, ck: Term)
    ensures Derivable(s, {}, NextChainKey(ck)) <==> Stored(s, NextChainKey(ck)) || Derivable(s, {}, ck)
  {
  }

  lemma FirstDerivable(h: History, s: R.State, k: nat)
    requires 1 <= k < |h.keys| && !Derivable(s, {}, Root(h.sk, h.keys, k - 1))
    ensures Derivable(s, {}, Chain(h, k)) <==> Stored(s, Chain(h, k))
  {
  }

  lemma {:induction false} AheadDerivable(s: R.State, extra: set<Term>, ck: Term, n: nat)
    requires Derivable(s, extra, ck)
    ensures Derivable(s, extra, Advance(ck, n))
  {
    if n > 0 {
      AheadDerivable(s, extra, ck, n - 1);
    }
  }

  // --- message keys ---

  /** Both halves of a message key. */
  ghost predicate KeyDerivable(s: R.State, extra: set<Term>, mk: MessageKey<Term>) {
    Derivable(s, extra, mk.key) && Derivable(s, extra, mk.nonce)
  }

  ghost predicate KeyHidden(s: R.State, extra: set<Term>, mk: MessageKey<Term>) {
    !Derivable(s, extra, mk.key) && !Derivable(s, extra, mk.nonce)
  }

  lemma SealKeyAwaited(h: History, s: R.State, idx: nat, k: nat, n: nat)
    requires Valid(h) && 1 <= k < |h.keys| && idx < |h.keys| && Kinds(h, s, idx, KeyAt(h, k, n).key)
    ensures Awaited(h, s, idx, k, n)
  {
    var k': nat, n': nat :|
      k' < |h.keys| && Awaited(h, s, idx, k', n') && KeyAt(h, k, n).key == KeyAt(h, k', n').key;
    SamePosition(h, k, n, k', n');
  }

  lemma SealNonceAwaited(h: History, s: R.State, idx: nat, k: nat, n: nat)
    requires Valid(h) && 1 <= k < |h.keys| && idx < |h.keys| && Kinds(h, s, idx, KeyAt(h, k, n).nonce)
    ensures Awaited(h, s, idx, k, n)
  {
    var k': nat, n': nat :|
      k' < |h.keys| && Awaited(h, s, idx, k', n') && KeyAt(h, k, n).nonce == KeyAt(h, k', n').nonce;
    SamePosition(h, k, n, k', n');
  }

  lemma StoredKey(h: History, s: R.State, idx: nat, k: nat, n: nat)
    requires On(h, s, idx) && 1 <= k < |h.keys|
    ensures Stored(s, KeyAt(h, k, n).key) || Stored(s, KeyAt(h, k, n).nonce) ==> Awaited(h, s, idx, k, n)
  {
    if Stored(s, KeyAt(h, k, n).key) {
      StoredKinds(h, s, idx, KeyAt(h, k, n).key);
      SealKeyAwaited(h, s, idx, k, n);
    } else if Stored(s, KeyAt(h, k, n).nonce) {
      StoredKinds(h, s, idx, KeyAt(h, k, n).nonce);
      SealNonceAwaited(h, s, idx, k, n);
    }
  }

  ghost predicate Revealed(s: R.State, mk: MessageKey<Term>, revealed: bool) {
    if revealed then KeyDerivable(s, {}, mk) else KeyHidden(s, {}, mk)
  }

  /** A session reveals the key of a slot exactly when it was sent to its owner and not consumed yet. */
  lemma SlotRevealedIff(h: History, s: R.State, idx: nat, k: nat, n: nat)
    requires On(h, s, idx) && |h.keys| <= idx + 2
    requires 1 <= k < |h.keys| && n < h.sent[k]
    ensures Revealed(s, KeyAt(h, k, n), k % 2 != idx % 2 && (k, n) !in h.consumed)
  {
    if k == idx + 1 {
      NextSlotRevealed(h, s, idx, k, n);
    } else {
      PastSlotRevealed(h, s, idx, k, n);
    }
  }

  lemma PastSlotRevealed(h: History, s: R.State, idx: nat, k: nat, n: nat)
    requires On(h, s, idx) && 1 <= k <= idx && n < h.sent[k]
    ensures Revealed(s, KeyAt(h, k, n), k % 2 != idx % 2 && (k, n) !in h.consumed)
  {
    PastRevealedIff(h, s, idx, k, n);
    PastSlot(h, s, idx, k, n);
  }

  lemma NextSlotRevealed(h: History, s: R.State, idx: nat, k: nat, n: nat)
    requires On(h, s, idx) && k == idx + 1 < |h.keys|
    ensures Revealed(s, KeyAt(h, k, n), k % 2 != idx % 2 && (k, n) !in h.consumed)
  {
    NextRevealed(h, s, idx, n);
    NextNotConsumed(h, s, idx, n);
  }

  lemma NextNotConsumed(h: History, s: R.State, idx: nat, n: nat)
    requires On(h, s, idx)
    ensures (idx + 1, n) !in h.consumed
  {
    NotConsumedAhead(h, s, idx, n);
  }

  lemma PastSlot(h: History, s: R.State, idx: nat, k: nat, n: nat)
    requires On(h, s, idx) && 1 <= k <= idx && n < h.sent[k]
    ensures Current(h, s, idx, k, n) || Awaited(h, s, idx, k, n) <==> k % 2 != idx % 2 && (k, n) !in h.consumed
  {
    assert (k, n).0 == k;
  }

  lemma PastRevealedIff(h: History, s: R.State, idx: nat, k: nat, n: nat)
    requires On(h, s, idx) && 1 <= k <= idx
    ensures Revealed(s, KeyAt(h, k, n), Current(h, s, idx, k, n) || Awaited(h, s, idx, k, n))
  {
    StoredKey(h, s, idx, k, n);
    if Current(h, s, idx, k, n) {
      CurrentInReach(h, s, idx, k, n);
    } else {
      PastOutOfReach(h, s, idx, k, n);
    }
    if Awaited(h, s, idx, k, n) {
      AwaitedRevealed(h, s, idx, k, n);
    }
  }

  lemma AwaitedRevealed(h: History, s: R.State, idx: nat, k: nat, n: nat)
    requires On(h, s, idx) && Awaited(h, s, idx, k, n)
    ensures KeyDerivable(s, {}, KeyAt(h, k, n))
  {
    assert SlotKey(h, k, n) in s.skipped;
  }

  lemma NextRevealed(h: History, s: R.State, idx: nat, n: nat)
    requires On(h, s, idx) && idx + 1 < |h.keys|
    ensures KeyDerivable(s, {}, KeyAt(h, idx + 1, n))
  {
    assert h.keys[idx] in {h.keys[idx], h.keys[idx + 1]};
    assert Derivable(s, {}, Dh({h.keys[idx], h.keys[idx + 1]}));
    AheadDerivable(s, {}, Chain(h, idx + 1), n);
  }

  // --- every run ---

  lemma DrawnIn(c: Setup, w: World, v: View)
    requires Inv(c, w, v)
    ensures Drawn(v.h)
  {
    assert v.h.sk.dh3 == Dh({v.h.keys[0], Random(c.draws)});
    assert Random(c.draws) !in v.h.keys;
  }

  /** Forward secrecy, exactly: in every run, the session a party has stored reveals the key of a message if
      and only if the message was sent to that party and it has not decrypted it yet. A message that was
      decrypted, and any message to its own sender, is out of reach. */
  lemma RevealedIffUndelivered(c: Setup, events: seq<Event>, p: Party, t: nat)
    requires ValidSetup(c) && Legal(c, events) && t < |Run(c, events).net|
    ensures
      var w := Run(c, events);
      && w.net[t].msg.ciphertext.Sealed?
      && var mk := w.net[t].msg.ciphertext.mk;
         if Undelivered(w, p, t) then
           KeyDerivable(SessionOf(c, w, p), {}, mk)
         else
           KeyHidden(SessionOf(c, w, p), {}, mk)
  {
    var v := RunInv(c, events);
    RevealedIn(c, Run(c, events), v, p, t);
  }

  lemma RevealedIn(c: Setup, w: World, v: View, p: Party, t: nat)
    requires Inv(c, w, v) && t < |w.net|
    ensures w.net[t].msg.ciphertext.Sealed?
    ensures Revealed(SessionOf(c, w, p), w.net[t].msg.ciphertext.mk, Undelivered(w, p, t))
  {
    DrawnIn(c, w, v);
    assert PostAt(v.h, w.net[t], v.slots[t]);
    SessionOn(c, w, v, p);
    SlotRevealedIff(v.h, SessionOf(c, w, p), v.Index(p), v.slots[t].0, v.slots[t].1);
    UndeliveredSlotIff(c, w, v, p, t);
  }

  lemma SessionOn(c: Setup, w: World, v: View, p: Party)
    requires Inv(c, w, v) && Drawn(v.h)
    ensures On(v.h, SessionOf(c, w, p), v.Index(p)) && |v.h.keys| <= v.Index(p) + 2
  {
    assert p == Initiator || p == Responder;
  }

  lemma UndeliveredSlotIff(c: Setup, w: World, v: View, p: Party, t: nat)
    requires Inv(c, w, v) && t < |w.net| && PostAt(v.h, w.net[t], v.slots[t])
    ensures Undelivered(w, p, t) <==>
      v.slots[t].0 % 2 != v.Index(p) % 2 && (v.slots[t].0, v.slots[t].1) !in v.h.consumed
  {
    assert (v.slots[t].0, v.slots[t].1) == v.slots[t];
    PostParity(v, p, w.net[t], v.slots[t]);
    if w.net[t].from == p.Other() {
      UndeliveredIffNotConsumed(c, w, v, p, t);
    }
  }

  lemma PostParity(v: View, p: Party, post: Post, slot: (nat, nat))
    requires Indices(v) && PostAt(v.h, post, slot)
    ensures post.from == p.Other() <==> slot.0 % 2 != v.Index(p) % 2
  {
    assert p == Initiator || p == Responder;
  }

  /** What the stored session alone does not reveal, the responder's long-term secrets do: without one-time
      prekeys, the identity key and the signed prekey give the key of every message on the initiator's first
      chain, delivered or not, whatever session is stored. */
  lemma LongTermKeysRevealFirstChain(c: Setup, events: seq<Event>, s: R.State, t: nat)
    requires ValidSetup(c) && Legal(c, events) && t < |Run(c, events).net|
    requires
      var msg := Run(c, events).net[t].msg;
      msg.header.Some? && msg.header.value.dh == Public(Random(c.draws + 1))
    ensures
      var msg := Run(c, events).net[t].msg;
      msg.ciphertext.Sealed? && KeyDerivable(s, {c.responder.dhSecret, c.Prekey().secret}, msg.ciphertext.mk)
  {
    var w := Run(c, events);
    var v := RunInv(c, events);
    assert PostAt(v.h, w.net[t], v.slots[t]);
    FirstSlot(c, w, v, t);
    FirstChainRevealed(c, v.h, s, v.slots[t].1);
  }

  lemma FirstSlot(c: Setup, w: World, v: View, t: nat)
    requires Inv(c, w, v) && t < |w.net| && PostAt(v.h, w.net[t], v.slots[t])
    requires w.net[t].msg.header.value.dh == Public(Random(c.draws + 1))
    ensures v.slots[t].0 == 1
  {
    assert v.h.keys[v.slots[t].0] == v.h.keys[1];
  }

  lemma FirstChainRevealed(c: Setup, h: History, s: R.State, n: nat)
    requires Valid(h) && |h.keys| >= 2 && h.sk == c.SharedSecret() && h.keys[0] == c.Prekey().secret
    ensures KeyDerivable(s, {c.responder.dhSecret, c.Prekey().secret}, KeyAt(h, 1, n))
  {
    var extra := {c.responder.dhSecret, c.Prekey().secret};
    SharedSecretRevealed(c, s, extra);
    assert h.keys[0] in {h.keys[0], h.keys[1]};
    assert Derivable(s, extra, Dh({h.keys[0], h.keys[1]}));
    assert Root(h.sk, h.keys, 0) == h.sk;
    AheadDerivable(s, extra, Chain(h, 1), n);
  }

  lemma SharedSecretRevealed(c: Setup, s: R.State, extra: set<Term>)
    requires extra == {c.responder.dhSecret, c.Prekey().secret}
    ensures Derivable(s, extra, c.SharedSecret())
  {
    var spk, id, eph := c.Prekey().secret, c.responder.dhSecret, Random(c.draws);
    assert spk in {spk, c.initiator.dhSecret} && id in {id, eph} && spk in {spk, eph};
    assert Derivable(s, extra, Dh({spk, c.initiator.dhSecret}));
    assert Derivable(s, extra, Dh({id, eph}));
    assert Derivable(s, extra, Dh({spk, eph}));
    assert c.SharedSecret() == X3dhSecret(Dh({spk, c.initiator.dhSecret}), Dh({id, eph}), Dh({spk, eph}));
  }
}

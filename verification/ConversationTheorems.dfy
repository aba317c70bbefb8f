/** What every run of the two engines guarantees. */
module ConversationTheorems {
  import opened Wrappers
  import opened Bytes
  import opened Crypto
  import opened RatchetHistory
  import opened Conversation
  import opened ConversationInvariant
  import opened Sessions
  import R = SymbolicRatchet
  import E = Engine

  /** The engines can always take another step: no stored session is malformed. */
  lemma EveryRunIsUsable(c: Setup, events: seq<Event>)
    requires ValidSetup(c) && Legal(c, events)
    ensures Usable(Run(c, events))
  {
    var v := RunInv(c, events);
  }

  /** Post `t` was addressed to `p`, and `p` has not decrypted it. */
  predicate Undelivered(w: World, p: Party, t: nat)
    requires t < |w.net|
  {
    && w.net[t].from == p.Other()
    && forall i | 0 <= i < |w.receipts| :: w.receipts[i].msg.ciphertext != w.net[t].msg.ciphertext
  }

  /** What `p` gets when the network brings it post `t` as it was sent. */
  function DeliveryOf(c: Setup, w: World, p: Party, t: nat): Result<Octets, E.EngineError>
    requires Usable(w) && t < |w.net|
  {
    E.AfterDecrypt(SYMBOLIC, w.EngineOf(p), c.Peer(p), E.Encoded(w.net[t].msg), Random(w.draws)).1
  }

  /** A post nobody decrypted yet has an unconsumed slot on a chain its addressee can follow. */
  lemma UndeliveredSlot(c: Setup, w: World, v: View, p: Party, t: nat)
    requires Inv(c, w, v) && t < |w.net| && Undelivered(w, p, t)
    ensures PostAt(v.h, w.net[t], v.slots[t])
    ensures v.slots[t] !in v.h.consumed
    ensures RatchetHistory.Received(v.Index(p), v.slots[t].0) || v.slots[t].0 == v.Index(p) + 1
  {
    assert PostAt(v.h, w.net[t], v.slots[t]);
    if v.slots[t] in v.h.consumed {
      var i := ReceiptOfConsumed(w, v, t);
    }
    AddresseeFollows(v, p, w.net[t], v.slots[t]);
  }

  lemma ReceiptOfConsumed(w: World, v: View, t: nat) returns (i: nat)
    requires Valid(v.h) && Posted(w, v) && Receipted(w, v) && t < |v.slots| && v.slots[t] in v.h.consumed
    ensures i < |w.receipts| && ReceiptOf(w.receipts[i], w.net[t])
  {
    i :| 0 <= i < |v.matched| && v.matched[i] < |v.slots| && v.slots[v.matched[i]] == v.slots[t];
    assert v.matched[i] == t;
  }

  lemma AddresseeFollows(v: View, p: Party, post: Post, slot: (nat, nat))
    requires Indices(v) && PostAt(v.h, post, slot) && post.from == p.Other()
    ensures RatchetHistory.Received(v.Index(p), slot.0) || slot.0 == v.Index(p) + 1
  {
    assert p == Initiator || p == Responder;
  }

  /** Until the responder has a session, everything the initiator sent completes the handshake. */
  lemma FirstContactWorks(c: Setup, w: World, v: View, p: Party, t: nat)
    requires Fixed(c, w, v) && t < |w.net| && w.net[t].from == p.Other() && w.net[t].msg.header.Some?
    ensures
      var post := w.net[t];
      var s := SessionOf(c, w, p);
      && (s.ckr.Some? ==> s.dhr.Some?)
      && var r := R.AfterDecrypt(
           s, post.msg.header.value, post.msg.ciphertext, post.msg.conversationId, Random(w.draws)).1;
      && (DeliveryOf(c, w, p, t).Ok? <==> r.Ok?)
      && (r.Ok? ==> DeliveryOf(c, w, p, t).value == r.value)
  {
  }

  /** Delivery completeness: in every run, a message not decrypted yet decrypts, whenever it
      arrives and even if it is the first to arrive, to exactly the plaintext it was made from;
      the only exception is a gap that leaves the skip window, and then it fails. */
  lemma DeliveryCompleteness(c: Setup, events: seq<Event>, p: Party, t: nat)
    requires ValidSetup(c) && Legal(c, events) && Usable(Run(c, events))
    requires t < |Run(c, events).net| && Undelivered(Run(c, events), p, t)
    ensures
      var w := Run(c, events);
      && w.net[t].msg.header.Some?
      && (DeliveryOf(c, w, p, t).Ok? <==> WithinWindow(SessionOf(c, w, p), w.net[t].msg.header.value))
      && (DeliveryOf(c, w, p, t).Ok? ==> DeliveryOf(c, w, p, t).value == w.net[t].plaintext)
  {
    var w := Run(c, events);
    var v := RunInv(c, events);
    DeliverableIffWithinWindow(c, w, v, p, t);
  }

  lemma DeliverableIffWithinWindow(c: Setup, w: World, v: View, p: Party, t: nat)
    requires Inv(c, w, v) && t < |w.net| && Undelivered(w, p, t)
    ensures
      && w.net[t].msg.header.Some?
      && (DeliveryOf(c, w, p, t).Ok? <==> WithinWindow(SessionOf(c, w, p), w.net[t].msg.header.value))
      && (DeliveryOf(c, w, p, t).Ok? ==> DeliveryOf(c, w, p, t).value == w.net[t].plaintext)
  {
    UndeliveredSlot(c, w, v, p, t);
    FirstContactWorks(c, w, v, p, t);
    var (k, n) := v.slots[t];
    OpensWithinWindow(v.h, SessionOf(c, w, p), v.Index(p), k, n, w.net[t].plaintext, w.net[t].conversation,
                      Random(w.draws));
  }

  /** In a run of at most 1001 messages nothing ever leaves the window: every message
      still undelivered can be delivered, in any order. */
  lemma ShortRunsNeverLose(c: Setup, events: seq<Event>, p: Party, t: nat)
    requires ValidSetup(c) && Legal(c, events) && Usable(Run(c, events))
    requires |Run(c, events).net| <= 1001
    requires t < |Run(c, events).net| && Undelivered(Run(c, events), p, t)
    ensures DeliveryOf(c, Run(c, events), p, t) == Ok(Run(c, events).net[t].plaintext)
  {
    var w := Run(c, events);
    var v := RunInv(c, events);
    DeliverableIffWithinWindow(c, w, v, p, t);
    UndeliveredSlot(c, w, v, p, t);
    SlotWithinWindow(c, w, v, p, t);
  }

  lemma SlotWithinWindow(c: Setup, w: World, v: View, p: Party, t: nat)
    requires Inv(c, w, v) && t < |w.net| <= MAX_SKIP + 1
    requires PostAt(v.h, w.net[t], v.slots[t]) && v.slots[t] !in v.h.consumed
    requires RatchetHistory.Received(v.Index(p), v.slots[t].0) || v.slots[t].0 == v.Index(p) + 1
    ensures WithinWindow(SessionOf(c, w, p), w.net[t].msg.header.value)
  {
    var (k, n) := v.slots[t];
    var s := SessionOf(c, w, p);
    var idx := v.Index(p);
    assert (k, n) == v.slots[t];
    assert v.h.sent[k] <= |w.net|;
    if k == idx + 1 {
      if k >= 2 {
        assert v.h.sent[k - 2] + v.h.sent[k] <= |w.net|;
      }
    } else if Awaited(v.h, s, idx, k, n) {
      assert SlotKey(v.h, k, n) in s.skipped;
    }
  }

  /** Authenticity: every plaintext an engine ever returned is that of a message the other party
      sent, presented with its own header and conversation id. */
  lemma EveryReceiptIsAuthentic(c: Setup, events: seq<Event>, i: nat) returns (t: nat)
    requires ValidSetup(c) && Legal(c, events)
    requires i < |Run(c, events).receipts|
    ensures t < |Run(c, events).net|
    ensures ReceiptOf(Run(c, events).receipts[i], Run(c, events).net[t])
  {
    var v := RunInv(c, events);
    t := v.matched[i];
  }

  /** At most once: no ciphertext is ever decrypted twice, by anyone. */
  lemma AtMostOnce(c: Setup, events: seq<Event>, i: nat, j: nat)
    requires ValidSetup(c) && Legal(c, events)
    requires i < j < |Run(c, events).receipts|
    ensures Run(c, events).receipts[i].msg.ciphertext != Run(c, events).receipts[j].msg.ciphertext
  {
    var w := Run(c, events);
    var v := RunInv(c, events);
    var t, t' := v.matched[i], v.matched[j];
    assert ReceiptOf(w.receipts[i], w.net[t]) && ReceiptOf(w.receipts[j], w.net[t']);
    PostsDiffer(c, w, v, t, t');
  }

  lemma PostsDiffer(c: Setup, w: World, v: View, t: nat, t': nat)
    requires Inv(c, w, v) && t < |w.net| && t' < |w.net| && t != t'
    ensures w.net[t].msg.ciphertext.Sealed? && w.net[t'].msg.ciphertext.Sealed?
    ensures w.net[t].msg.ciphertext.mk != w.net[t'].msg.ciphertext.mk
  {
    assert PostAt(v.h, w.net[t], v.slots[t]) && PostAt(v.h, w.net[t'], v.slots[t']);
    if w.net[t].msg.ciphertext.mk == w.net[t'].msg.ciphertext.mk {
      KeysUnique(v.h, v.slots[t].0, v.slots[t].1, v.slots[t'].0, v.slots[t'].1);
    }
  }

  /** Message keys are never reused: over a whole run, by either party. */
  lemma MessageKeysUnique(c: Setup, events: seq<Event>, t: nat, t': nat)
    requires ValidSetup(c) && Legal(c, events)
    requires t < |Run(c, events).net| && t' < |Run(c, events).net| && t != t'
    ensures
      var a, b := Run(c, events).net[t].msg.ciphertext, Run(c, events).net[t'].msg.ciphertext;
      a.Sealed? && b.Sealed? && a.mk != b.mk
  {
    var v := RunInv(c, events);
    PostsDiffer(c, Run(c, events), v, t, t');
  }

  /** A replay fails and changes nothing: a message that was decrypted once, brought again to
      the party that decrypted it or to its own sender, with any header, is an error. */
  lemma ReplayIsRefused(c: Setup, events: seq<Event>, i: nat, p: Party, msg: E.EncryptedMessage<Term, Ciphertext>)
    requires ValidSetup(c) && Legal(c, events) && Usable(Run(c, events))
    requires i < |Run(c, events).receipts|
    requires msg.ciphertext == Run(c, events).receipts[i].msg.ciphertext
    requires Admissible(c, Run(c, events), Deliver(p, E.Encoded(msg)))
    ensures
      var w := Run(c, events);
      var (e, r) := E.AfterDecrypt(SYMBOLIC, w.EngineOf(p), c.Peer(p), E.Encoded(msg), Random(w.draws));
      r.Err? && e == w.EngineOf(p)
  {
    var w := Run(c, events);
    var v := RunInv(c, events);
    ReplayAddsNoReceipt(c, events, w, i, p, msg);
    ReceiptMeansSessions(c, w, v, i, p);
    RefusedIsUnchanged(c, w, p, E.Encoded(msg));
  }

  lemma ReplayAddsNoReceipt(
    c: Setup, events: seq<Event>, w: World, i: nat, p: Party, msg: E.EncryptedMessage<Term, Ciphertext>)
    requires ValidSetup(c) && Legal(c, events) && w == Run(c, events) && Usable(w)
    requires i < |w.receipts| && msg.ciphertext == w.receipts[i].msg.ciphertext
    requires Admissible(c, w, Deliver(p, E.Encoded(msg)))
    ensures |Step(c, w, Deliver(p, E.Encoded(msg))).receipts| == |w.receipts|
  {
    var ev := Deliver(p, E.Encoded(msg));
    var longer := events + [ev];
    assert longer[..|longer| - 1] == events;
    var w' := Run(c, longer);
    assert w' == Step(c, w, ev);
    if |w'.receipts| > |w.receipts| {
      AtMostOnce(c, longer, i, |w.receipts|);
    }
  }

  lemma RefusedIsUnchanged(c: Setup, w: World, p: Party, wire: E.Wire<Term, Ciphertext>)
    requires Usable(w) && c.Peer(p) in w.EngineOf(p).sessions
    requires |Step(c, w, Deliver(p, wire)).receipts| == |w.receipts|
    ensures
      var (e, r) := E.AfterDecrypt(SYMBOLIC, w.EngineOf(p), c.Peer(p), wire, Random(w.draws));
      r.Err? && e == w.EngineOf(p)
  {
    E.DecryptIsTransactional(SYMBOLIC, w.EngineOf(p), c.Peer(p), wire, Random(w.draws));
  }

  /** Once anything was decrypted, both parties have a session. */
  lemma ReceiptMeansSessions(c: Setup, w: World, v: View, i: nat, p: Party)
    requires Inv(c, w, v) && i < |w.receipts|
    ensures c.Peer(p) in w.EngineOf(p).sessions
  {
    var t := v.matched[i];
    assert PostAt(v.h, w.net[t], v.slots[t]);
    ConsumedBeyondStart(v, SessionOf(c, w, Responder), v.slots[t]);
    assert p == Initiator || p == Responder;
  }

  lemma ConsumedBeyondStart(v: View, responder: R.State, slot: (nat, nat))
    requires Indices(v) && SessionAt(v.h, responder, v.responder)
    requires slot in v.h.consumed && 1 <= slot.0 < |v.h.keys|
    ensures v.responder > 0
  {
    assert ConsumedInRange(v.h, responder, v.responder);
  }

  // --- the root chain ---

  /** `ahead` has made one root derivation more: its next root key and the start of its sending
      chain are what `behind` derives from the public key `ahead` announces. */
  predicate OneAhead(behind: R.State, ahead: R.State) {
    var (rk, ck) := KdfRk(behind.rk, DiffieHellman(behind.dhsSecret, ahead.dhsPublic));
    && RootDepth(ahead.rk) == RootDepth(behind.rk) + 1
    && ahead.rk == rk
    && ahead.cks == Some(Advance(ck, ahead.ns))
  }

  /** Strict alternation: the two root keys are always one derivation apart, the initiator's at
      odd and the responder's at even depth, and the party that is behind derives on its next
      Diffie-Hellman step the chain the other one is sending on. */
  lemma RootsAlternate(c: Setup, events: seq<Event>)
    requires ValidSetup(c) && Legal(c, events)
    ensures
      var a, b := SessionOf(c, Run(c, events), Initiator), SessionOf(c, Run(c, events), Responder);
      && RootDepth(a.rk) % 2 == 1 && RootDepth(b.rk) % 2 == 0
      && (OneAhead(b, a) || OneAhead(a, b))
  {
    var v := RunInv(c, events);
    RootsAlternateAt(v, SessionOf(c, Run(c, events), Initiator), SessionOf(c, Run(c, events), Responder));
  }

  lemma RootsAlternateAt(v: View, a: R.State, b: R.State)
    requires Indices(v) && SessionAt(v.h, a, v.initiator) && SessionAt(v.h, b, v.responder)
    ensures RootDepth(a.rk) % 2 == 1 && RootDepth(b.rk) % 2 == 0
    ensures OneAhead(b, a) || OneAhead(a, b)
  {
    DepthIsIndex(v.h, a, v.initiator);
    DepthIsIndex(v.h, b, v.responder);
    if v.initiator > v.responder {
      NextRoot(v.h, b, a, v.responder);
    } else {
      NextRoot(v.h, a, b, v.initiator);
    }
  }

  lemma DepthIsIndex(h: History, s: R.State, idx: nat)
    requires Valid(h) && idx < |h.keys| && SessionAt(h, s, idx)
    ensures RootDepth(s.rk) == idx
  {
    RootDepthIs(h, idx);
  }

  lemma NextRoot(h: History, behind: R.State, ahead: R.State, idx: nat)
    requires Valid(h) && idx + 1 < |h.keys|
    requires SessionAt(h, behind, idx) && SessionAt(h, ahead, idx + 1)
    ensures OneAhead(behind, ahead)
  {
    RootDepthIs(h, idx);
    RootDepthIs(h, idx + 1);
  }

  // --- the skipped-key store ---

  /** A message of the current or a later chain that the session has not reached yet. */
  predicate Ahead(s: R.State, sender: R.State, header: Header<Term>) {
    if s.dhr == Some(header.dh) then header.n >= s.nr else header.dh == sender.dhsPublic
  }

  /** The store is exact: it holds a key for precisely the undelivered messages the session has
      gone past, and each is the key that message was sealed under. */
  lemma SkippedKeysExact(c: Setup, events: seq<Event>, p: Party, t: nat)
    requires ValidSetup(c) && Legal(c, events)
    requires t < |Run(c, events).net| && Run(c, events).net[t].from == p.Other()
    ensures
      var w := Run(c, events);
      var s := SessionOf(c, w, p);
      var msg := w.net[t].msg;
      && msg.header.Some?
      && var key := (msg.header.value.dh, msg.header.value.n);
      && (key in s.skipped <==>
            Undelivered(w, p, t) && !Ahead(s, SessionOf(c, w, p.Other()), msg.header.value))
      && (key in s.skipped ==> msg.ciphertext.Sealed? && s.skipped[key] == msg.ciphertext.mk)
  {
    var w := Run(c, events);
    var v := RunInv(c, events);
    assert PostAt(v.h, w.net[t], v.slots[t]);
    UndeliveredIffNotConsumed(c, w, v, p, t);
    StoredIffPassed(c, w, v, p, t);
  }

  lemma UndeliveredIffNotConsumed(c: Setup, w: World, v: View, p: Party, t: nat)
    requires Inv(c, w, v) && t < |w.net| && w.net[t].from == p.Other()
    ensures Undelivered(w, p, t) <==> v.slots[t] !in v.h.consumed
  {
    if v.slots[t] in v.h.consumed {
      var i := ReceiptOfConsumed(w, v, t);
    }
    if i: nat :| i < |w.receipts| && w.receipts[i].msg.ciphertext == w.net[t].msg.ciphertext {
      assert ReceiptOf(w.receipts[i], w.net[v.matched[i]]);
      if v.matched[i] != t {
        PostsDiffer(c, w, v, v.matched[i], t);
      }
    }
  }

  lemma StoredIffPassed(c: Setup, w: World, v: View, p: Party, t: nat)
    requires Inv(c, w, v) && t < |w.net| && w.net[t].from == p.Other()
    requires PostAt(v.h, w.net[t], v.slots[t])
    ensures
      var s := SessionOf(c, w, p);
      var header := w.net[t].msg.header.value;
      && ((header.dh, header.n) in s.skipped <==>
            v.slots[t] !in v.h.consumed && !Ahead(s, SessionOf(c, w, p.Other()), header))
      && ((header.dh, header.n) in s.skipped ==> s.skipped[(header.dh, header.n)] == w.net[t].msg.ciphertext.mk)
  {
    var (k, n) := v.slots[t];
    assert (k, n) == v.slots[t];
    var s := SessionOf(c, w, p);
    var idx := v.Index(p);
    AddresseeFollows(v, p, w.net[t], v.slots[t]);
    assert SlotKey(v.h, k, n) == (w.net[t].msg.header.value.dh, w.net[t].msg.header.value.n);
    if SlotKey(v.h, k, n) in s.skipped {
      StoredIsAwaited(v.h, s, idx, k, n);
    }
    AheadIffUnreached(c, w, v, p, k, n);
  }

  lemma AheadIffUnreached(c: Setup, w: World, v: View, p: Party, k: nat, n: nat)
    requires Inv(c, w, v) && 1 <= k < |v.h.keys| && n < v.h.sent[k]
    requires RatchetHistory.Received(v.Index(p), k) || k == v.Index(p) + 1
    ensures
      Ahead(SessionOf(c, w, p), SessionOf(c, w, p.Other()), HeaderAt(v.h, k, n))
      <==> !(RatchetHistory.Received(v.Index(p), k) && n < Followed(v.h, SessionOf(c, w, p), v.Index(p), k))
  {
    assert p == Initiator || p == Responder;
    var idx, other := v.Index(p), v.Index(p.Other());
    AheadAt(v.h, SessionOf(c, w, p), SessionOf(c, w, p.Other()), idx, other, k, n);
  }

  lemma AheadAt(h: History, s: R.State, sender: R.State, idx: nat, other: nat, k: nat, n: nat)
    requires Valid(h) && idx < |h.keys| && other < |h.keys| && (other == idx + 1 || idx == other + 1)
    requires SessionAt(h, s, idx) && SessionAt(h, sender, other)
    requires 1 <= k < |h.keys| && n < h.sent[k]
    requires RatchetHistory.Received(idx, k) || (k == idx + 1 && k == other)
    ensures Ahead(s, sender, HeaderAt(h, k, n))
      <==> !(RatchetHistory.Received(idx, k) && n < Followed(h, s, idx, k))
  {
    if idx >= 1 {
      assert Pub(h, k) == Pub(h, idx - 1) <==> k == idx - 1;
    }
    assert Pub(h, k) == Pub(h, other) <==> k == other;
  }

  /** Nothing else is in the store. */
  lemma SkippedKeysBelongToPosts(c: Setup, events: seq<Event>, p: Party, key: (Term, nat)) returns (t: nat)
    requires ValidSetup(c) && Legal(c, events)
    requires key in SessionOf(c, Run(c, events), p).skipped
    ensures t < |Run(c, events).net| && Undelivered(Run(c, events), p, t)
    ensures
      var header := Run(c, events).net[t].msg.header;
      header.Some? && key == (header.value.dh, header.value.n)
  {
    var v := RunInv(c, events);
    t := PostOfStored(c, Run(c, events), v, p, key);
    UndeliveredIffNotConsumed(c, Run(c, events), v, p, t);
  }

  lemma PostOfStored(c: Setup, w: World, v: View, p: Party, key: (Term, nat)) returns (t: nat)
    requires Inv(c, w, v) && key in SessionOf(c, w, p).skipped
    ensures t < |w.net| && w.net[t].from == p.Other() && v.slots[t] !in v.h.consumed
    ensures w.net[t].msg.header.Some? && key == (w.net[t].msg.header.value.dh, w.net[t].msg.header.value.n)
  {
    var k := AwaitedOf(c, w, v, p, key);
    t :| 0 <= t < |v.slots| && v.slots[t] == (k, key.1);
    assert PostAt(v.h, w.net[t], v.slots[t]);
    SlotFromOther(v, p, w.net[t], v.slots[t]);
  }

  lemma AwaitedOf(c: Setup, w: World, v: View, p: Party, key: (Term, nat)) returns (k: nat)
    requires Inv(c, w, v) && key in SessionOf(c, w, p).skipped
    ensures RatchetHistory.Received(v.Index(p), k) && key == SlotKey(v.h, k, key.1)
    ensures (k, key.1) in v.slots && (k, key.1) !in v.h.consumed
  {
    k := StoredSlot(v.h, SessionOf(c, w, p), v.Index(p), key);
  }

  lemma StoredSlot(h: History, s: R.State, idx: nat, key: (Term, nat)) returns (k: nat)
    requires Valid(h) && idx < |h.keys| && SessionAt(h, s, idx) && key in s.skipped
    ensures RatchetHistory.Received(idx, k) && key == SlotKey(h, k, key.1)
    ensures key.1 < h.sent[k] && (k, key.1) !in h.consumed
  {
    k :| Awaited(h, s, idx, k, key.1) && key.0 == Pub(h, k);
  }

  lemma SlotFromOther(v: View, p: Party, post: Post, slot: (nat, nat))
    requires Indices(v) && PostAt(v.h, post, slot) && RatchetHistory.Received(v.Index(p), slot.0)
    ensures post.from == p.Other()
  {
    assert p == Initiator || p == Responder;
    assert slot.0 % 2 != v.Index(p) % 2;
  }

  /** Counters and the number of stored keys never exceed the number of messages sent, so nothing of 32 bits
      overflows, not even in the next step, in a run of fewer than 2^32 - 2001 messages. */
  lemma CountersBounded(c: Setup, events: seq<Event>, p: Party)
    requires ValidSetup(c) && Legal(c, events)
    ensures
      var w := Run(c, events);
      var s := SessionOf(c, w, p);
      && s.ns <= |w.net| && s.nr <= |w.net| && s.pn <= |w.net|
      && |s.skipped| <= |w.net|
      && (|w.net| + 2 * MAX_SKIP < U32_MAX ==> Roomy(s))
  {
    var w := Run(c, events);
    var v := RunInv(c, events);
    CountersBoundedIn(c, w, v, p);
    StoreBounded(c, events, p);
  }

  lemma CountersBoundedIn(c: Setup, w: World, v: View, p: Party)
    requires Inv(c, w, v)
    ensures
      var s := SessionOf(c, w, p);
      s.ns <= |w.net| && s.nr <= |w.net| && s.pn <= |w.net|
  {
    var idx := v.Index(p);
    assert v.h.sent[idx] <= |w.net|;
    if idx >= 2 {
      assert v.h.sent[idx - 1] <= |w.net| && v.h.sent[idx - 2] <= |w.net|;
    }
  }

  /** The position a post's key would have in the store. */
  function StoreKey(post: Post): (Term, nat)
    requires post.msg.header.Some?
  {
    (post.msg.header.value.dh, post.msg.header.value.n)
  }

  lemma StoreBounded(c: Setup, events: seq<Event>, p: Party)
    requires ValidSetup(c) && Legal(c, events)
    ensures |SessionOf(c, Run(c, events), p).skipped| <= |Run(c, events).net|
  {
    var w := Run(c, events);
    var keys := SessionOf(c, w, p).skipped.Keys;
    forall key | key in keys
      ensures exists t :: 0 <= t < |w.net| && w.net[t].msg.header.Some? && StoreKey(w.net[t]) == key
    {
      var t := SkippedKeysBelongToPosts(c, events, p, key);
    }
    KeysOfPosts(w.net, keys);
  }

  lemma {:induction false} KeysOfPosts(net: seq<Post>, keys: set<(Term, nat)>)
    requires forall key <- keys :: exists t :: 0 <= t < |net| && net[t].msg.header.Some? && StoreKey(net[t]) == key
    ensures |keys| <= |net|
  {
    if net != [] {
      var last := net[|net| - 1];
      var rest := if last.msg.header.Some? then keys - {StoreKey(last)} else keys;
      KeysOfPosts(net[..|net| - 1], rest);
      assert keys <= rest + if last.msg.header.Some? then {StoreKey(last)} else {};
    }
  }

  // --- the bare ratchet ---

  /** What a replay does to a bare session: on the current chain it uses up one key, on an earlier
      chain it makes two root derivations with the old key, unless the number of messages it
      announces for the previous chain is refused first. */
  lemma ReplayEffect(h: History, s: R.State, idx: nat, k: nat, n: nat, plaintext: Octets, ad: Octets, seed: Term)
    requires Valid(h) && idx < |h.keys| && SessionAt(h, s, idx)
    requires RatchetHistory.Received(idx, k) && (k, n) in h.consumed
    ensures
      var (s', r) := R.AfterDecrypt(s, HeaderAt(h, k, n), SealedAt(h, k, n, plaintext, ad), ad, seed);
      && r.Err?
      && (if k == idx - 1 then
            s' == s.(ckr := Some(Advance(Chain(h, k), s.nr + 1)), nr := s.nr + 1)
          else if PreviousCount(h, k) > s.nr + MAX_SKIP then
            s' == s
          else
            RootDepth(s'.rk) == idx + 2 && s'.dhr == Some(Pub(h, k)) != s.dhr)
  {
    var header := HeaderAt(h, k, n);
    var c := SealedAt(h, k, n, plaintext, ad);
    RootDepthIs(h, idx);
    StoredIsAwaited(h, s, idx, k, n);
    var r := R.AfterDecrypt(s, header, c, ad, seed).1;
    if r.Ok? {
      OpensOnlyAsSent(h, s, idx, k, n, plaintext, ad, header, ad, seed);
    }
    assert (k, n).0 == k;
    if k == idx - 1 {
      ReceiveKey(s, header, c, ad, Chain(h, k));
    }
  }

  /** Why the engine must not save a failed attempt. Whatever was delivered to `p`, the bare ratchet
      refuses its replay, but stays as it was only when the replay is of an earlier chain and its `pn`
      is out of the window; within the window, the root key both parties agree on is gone. */
  lemma RawReplayLosesRoot(c: Setup, events: seq<Event>, p: Party, t: nat)
    requires ValidSetup(c) && Legal(c, events)
    requires t < |Run(c, events).net| && Run(c, events).net[t].from == p.Other()
    requires !Undelivered(Run(c, events), p, t)
    ensures
      var w := Run(c, events);
      var s := SessionOf(c, w, p);
      var msg := w.net[t].msg;
      && msg.header.Some? && (s.ckr.Some? ==> s.dhr.Some?)
      && var header := msg.header.value;
         var (s', r) := R.AfterDecrypt(s, header, msg.ciphertext, msg.conversationId, Random(w.draws));
         && r.Err?
         && (s' == s <==> s.dhr != Some(header.dh) && header.pn > s.nr + MAX_SKIP)
         && (RootDepth(s'.rk) == RootDepth(s.rk) + 2 <==>
               s.dhr != Some(header.dh) && header.pn <= s.nr + MAX_SKIP)
         && (s.dhr == Some(header.dh) ==> s'.rk == s.rk && s'.nr == s.nr + 1)
  {
    var w := Run(c, events);
    var v := RunInv(c, events);
    var post, slot := w.net[t], v.slots[t];
    assert PostAt(v.h, post, slot);
    UndeliveredIffNotConsumed(c, w, v, p, t);
    var s := SessionOf(c, w, p);
    DeliveredReplay(v, p, s, post, slot, Random(w.draws));
  }

  lemma DeliveredReplay(v: View, p: Party, s: R.State, post: Post, slot: (nat, nat), seed: Term)
    requires Indices(v) && SessionAt(v.h, s, v.Index(p))
    requires PostAt(v.h, post, slot) && post.from == p.Other() && slot in v.h.consumed
    ensures
      var header := post.msg.header.value;
      && (s.ckr.Some? ==> s.dhr.Some?)
      && var (s', r) := R.AfterDecrypt(s, header, post.msg.ciphertext, post.msg.conversationId, seed);
         && r.Err?
         && (s' == s <==> s.dhr != Some(header.dh) && header.pn > s.nr + MAX_SKIP)
         && (RootDepth(s'.rk) == RootDepth(s.rk) + 2 <==>
               s.dhr != Some(header.dh) && header.pn <= s.nr + MAX_SKIP)
         && (s.dhr == Some(header.dh) ==> s'.rk == s.rk && s'.nr == s.nr + 1)
  {
    DepthIsIndex(v.h, s, v.Index(p));
    ConsumedReceived(v, p, s, slot);
    ReplayAtSlot(v.h, s, v.Index(p), slot.0, slot.1, post.plaintext, post.conversation, seed);
  }

  lemma ConsumedReceived(v: View, p: Party, s: R.State, slot: (nat, nat))
    requires Indices(v) && SessionAt(v.h, s, v.Index(p)) && slot in v.h.consumed
    requires slot.0 % 2 == (if p == Initiator then 0 else 1)
    ensures RatchetHistory.Received(v.Index(p), slot.0)
  {
    assert slot.0 % 2 != v.Index(p) % 2;
  }

  lemma ReplayAtSlot(h: History, s: R.State, idx: nat, k: nat, n: nat, plaintext: Octets, ad: Octets, seed: Term)
    requires Valid(h) && idx < |h.keys| && SessionAt(h, s, idx) && RootDepth(s.rk) == idx
    requires RatchetHistory.Received(idx, k) && (k, n) in h.consumed
    ensures
      var header := HeaderAt(h, k, n);
      var (s', r) := R.AfterDecrypt(s, header, SealedAt(h, k, n, plaintext, ad), ad, seed);
      && r.Err?
      && (s' == s <==> s.dhr != Some(header.dh) && header.pn > s.nr + MAX_SKIP)
      && (RootDepth(s'.rk) == RootDepth(s.rk) + 2 <==>
            s.dhr != Some(header.dh) && header.pn <= s.nr + MAX_SKIP)
      && (s.dhr == Some(header.dh) ==> s'.rk == s.rk && s'.nr == s.nr + 1)
  {
    ReplayEffect(h, s, idx, k, n, plaintext, ad, seed);
    assert s.dhr == Some(Pub(h, k)) <==> k == idx - 1;
  }
}

/** The joint invariant of the two engines and the network, and its proof for every run. */
module ConversationInvariant {
  import opened Wrappers
  import opened Bytes
  import opened Crypto
  import opened X3dh
  import opened RatchetHistory
  import opened RatchetHistorySteps
  import opened Conversation
  import opened Sessions
  import R = SymbolicRatchet
  import E = Engine

  /** The history behind a world: the root index of each party, the slot each posted message
      was sealed in, and the post each receipt decrypted. */
  datatype View = View(h: History, initiator: nat, responder: nat, slots: seq<(nat, nat)>, matched: seq<nat>) {
    function Index(p: Party): nat {
      if p == Initiator then initiator else responder
    }

    function WithIndex(p: Party, idx: nat): View {
      if p == Initiator then this.(initiator := idx) else this.(responder := idx)
    }
  }

  /** The session of a party; before first contact, the one the handshake will install. */
  function SessionOf(c: Setup, w: World, p: Party): R.State {
    var e := w.EngineOf(p);
    if c.Peer(p) in e.sessions then
      e.sessions[c.Peer(p)]
    else
      R.ResponderState(c.SharedSecret(), c.Prekey().secret)
  }

  ghost predicate Indices(v: View) {
    && Valid(v.h)
    && v.initiator % 2 == 1
    && v.responder % 2 == 0
    && (v.initiator == v.responder + 1 || v.responder == v.initiator + 1)
    && |v.h.keys| == Max(v.initiator, v.responder) + 1
  }

  /** Private keys were drawn at random, starting with the prekey and the initiator's first ratchet key;
      none is the handshake's ephemeral. */
  ghost predicate KeysDrawn(c: Setup, w: World, h: History) {
    && |h.keys| >= 2 && h.keys[0] == Random(c.prekey) && h.keys[1] == Random(c.draws + 1)
    && (forall k <- h.keys :: k.Random? && k.id < w.draws && k.id != c.draws)
    && c.draws < w.draws
  }

  /** What never changes, and the state before first contact. */
  ghost predicate Fixed(c: Setup, w: World, v: View) {
    && Usable(w)
    && c.Peer(Initiator) in w.initiator.sessions
    && w.initiator.identity == c.initiator
    && w.responder.identity == c.responder
    && w.responder.prekey == c.Prekey()
    && w.responder.contacts == map[c.initiator.peer := PublicOf(SYMBOLIC, c.initiator)]
    && v.h.sk == c.SharedSecret()
    && (c.Peer(Responder) !in w.responder.sessions ==>
          && v.responder == 0
          && c.Peer(Initiator) in w.initiator.pending
          && w.initiator.pending[c.Peer(Initiator)] == c.Ephemeral()
          && forall t | 0 <= t < |w.net| :: w.net[t].msg.x3dhEphemeral == Some(c.Ephemeral()))
  }

  /** A post is the sealed message of its slot. */
  ghost predicate PostAt(h: History, post: Post, slot: (nat, nat))
    requires Valid(h)
  {
    && 1 <= slot.0 < |h.keys|
    && slot.1 < h.sent[slot.0]
    && post.from == (if slot.0 % 2 == 1 then Initiator else Responder)
    && post.msg.header == Some(HeaderAt(h, slot.0, slot.1))
    && post.msg.ciphertext == SealedAt(h, slot.0, slot.1, post.plaintext, post.conversation)
    && post.msg.conversationId == post.conversation
  }

  ghost predicate PostsMatch(w: World, v: View)
    requires Valid(v.h)
  {
    && |v.slots| == |w.net|
    && (forall t | 0 <= t < |w.net| :: PostAt(v.h, w.net[t], v.slots[t]))
  }

  ghost predicate SlotsDistinct(slots: seq<(nat, nat)>) {
    forall t, t' | 0 <= t < t' < |slots| :: slots[t] != slots[t']
  }

  ghost predicate SlotsCover(h: History, slots: seq<(nat, nat)>)
    requires Valid(h)
  {
    forall k: nat, n: nat | 1 <= k < |h.keys| && n < h.sent[k] :: (k, n) in slots
  }

  /** No two chains together hold more messages than were posted. */
  ghost predicate Counted(h: History, posts: nat) {
    && (forall k | 0 <= k < |h.sent| :: h.sent[k] <= posts)
    && (forall k, k' | 0 <= k < k' < |h.sent| :: h.sent[k] + h.sent[k'] <= posts)
  }

  /** Posts and slots correspond one to one. */
  ghost predicate Posted(w: World, v: View)
    requires Valid(v.h)
  {
    && PostsMatch(w, v)
    && SlotsDistinct(v.slots)
    && SlotsCover(v.h, v.slots)
    && Counted(v.h, |w.net|)
  }

  /** A receipt is of its post. */
  ghost predicate ReceiptOf(receipt: Receipt, post: Post) {
    && receipt.to == post.from.Other()
    && receipt.msg.header == post.msg.header
    && receipt.msg.ciphertext == post.msg.ciphertext
    && receipt.msg.conversationId == post.msg.conversationId
    && receipt.plaintext == post.plaintext
  }

  ghost predicate ReceiptsMatch(w: World, v: View) {
    && |v.matched| == |w.receipts| && |w.net| == |v.slots|
    && (forall i | 0 <= i < |v.matched| ::
          && v.matched[i] < |w.net|
          && ReceiptOf(w.receipts[i], w.net[v.matched[i]])
          && v.slots[v.matched[i]] in v.h.consumed)
  }

  ghost predicate MatchedDistinct(matched: seq<nat>) {
    forall i, j | 0 <= i < j < |matched| :: matched[i] != matched[j]
  }

  ghost predicate ConsumedMatched(v: View) {
    forall slot <- v.h.consumed ::
      exists i :: 0 <= i < |v.matched| && v.matched[i] < |v.slots| && v.slots[v.matched[i]] == slot
  }

  /** Receipts and consumed slots correspond one to one. */
  ghost predicate Receipted(w: World, v: View) {
    ReceiptsMatch(w, v) && MatchedDistinct(v.matched) && ConsumedMatched(v)
  }

  ghost predicate Inv(c: Setup, w: World, v: View) {
    && Indices(v)
    && KeysDrawn(c, w, v.h)
    && Fixed(c, w, v)
    && SessionAt(v.h, SessionOf(c, w, Initiator), v.initiator)
    && SessionAt(v.h, SessionOf(c, w, Responder), v.responder)
    && Posted(w, v)
    && Receipted(w, v)
  }

  // --- start ---

  function StartHistory(c: Setup): History {
    History(c.SharedSecret(), [Random(c.prekey), Random(c.draws + 1)], [0, 0], {})
  }

  /** The responder will derive the secret the initiator starts from. */
  lemma StartAgrees(c: Setup)
    ensures Initiate(SYMBOLIC, c.initiator, BundleOf(SYMBOLIC, c.Prekey(), c.responder), Random(c.draws))
         == Ok((c.SharedSecret(), c.Ephemeral(), Public(Random(c.prekey))))
  {
    SymbolicCommutes();
    Agreement(SYMBOLIC, c.initiator, c.responder, c.Prekey(), Random(c.draws));
  }

  /** The initiator's first session is the one X3DH agreement gives. */
  lemma StartSessions(c: Setup)
    requires ValidSetup(c)
    ensures
      var w := Start(c);
      && Usable(w) && c.Peer(Initiator) in w.initiator.sessions
      && SessionOf(c, w, Initiator)
         == R.InitiatorState(c.SharedSecret(), Public(Random(c.prekey)), Random(c.draws + 1))
      && SessionOf(c, w, Responder) == R.ResponderState(c.SharedSecret(), Random(c.prekey))
      && w.initiator.pending == map[c.Peer(Initiator) := c.Ephemeral()]
  {
    StartAgrees(c);
  }

  lemma StartSessionsExact(c: Setup)
    requires ValidSetup(c)
    ensures
      var h := StartHistory(c);
      && Valid(h)
      && SessionAt(h, R.InitiatorState(c.SharedSecret(), Public(Random(c.prekey)), Random(c.draws + 1)), 1)
      && SessionAt(h, R.ResponderState(c.SharedSecret(), Random(c.prekey)), 0)
  {
    var h := StartHistory(c);
    assert h.keys[1] == Random(c.draws + 1) && h.keys[0] == Random(c.prekey);
    assert Root(h.sk, h.keys, 0) == h.sk;
    assert {Random(c.draws + 1), Random(c.prekey)} == {h.keys[0], h.keys[1]};
  }

  lemma StartInv(c: Setup)
    requires ValidSetup(c)
    ensures Inv(c, Start(c), View(StartHistory(c), 1, 0, [], []))
  {
    StartSessions(c);
    StartSessionsExact(c);
    assert Max(1, 0) == 1;
  }

  // --- sending ---

  lemma SendInv(c: Setup, w: World, v: View, from: Party, conversation: Octets, plaintext: Octets)
    returns (v': View)
    requires Inv(c, w, v)
    ensures Inv(c, Step(c, w, Send(from, conversation, plaintext)), v')
  {
    var idx := v.Index(from);
    if c.Peer(from) !in w.EngineOf(from).sessions || idx == 0 {
      v' := v;
      SendRefused(c, w, v, from, conversation, plaintext);
    } else {
      var k := v.h.sent[idx];
      v' := v.(h := Sent(v.h, idx), slots := v.slots + [(idx, k)]);
      SendAccepted(c, w, v, v', from, conversation, plaintext);
    }
  }

  lemma SendRefused(c: Setup, w: World, v: View, from: Party, conversation: Octets, plaintext: Octets)
    requires Inv(c, w, v)
    requires c.Peer(from) !in w.EngineOf(from).sessions || v.Index(from) == 0
    ensures Step(c, w, Send(from, conversation, plaintext)) == w
  {
  }

  lemma SendAccepted(c: Setup, w: World, v: View, v': View, from: Party, conversation: Octets, plaintext: Octets)
    requires Inv(c, w, v)
    requires c.Peer(from) in w.EngineOf(from).sessions && v.Index(from) > 0
    requires v' == v.(h := Sent(v.h, v.Index(from)),
                      slots := v.slots + [(v.Index(from), v.h.sent[v.Index(from)])])
    ensures Inv(c, Step(c, w, Send(from, conversation, plaintext)), v')
  {
    var w' := Step(c, w, Send(from, conversation, plaintext));
    var s := SessionOf(c, w, from);
    assert from == Initiator || from == Responder;
    SendStep(v.h, s, v.Index(from), plaintext, conversation);
    var msg := SendEffect(c, w, from, conversation, plaintext);
    SendBooks(c, w, v, w', v', from, R.AfterEncrypt(s, plaintext, conversation).0, Post(from, conversation, plaintext, msg));
    SendSession(v, from, SessionOf(c, w, from.Other()));
    RestoreInv(c, w', v', from);
  }

  /** Everything but the sessions. */
  lemma SendBooks(c: Setup, w: World, v: View, w': World, v': View, from: Party, s': R.State, post: Post)
    requires Indices(v) && KeysDrawn(c, w, v.h) && Fixed(c, w, v) && Posted(w, v) && Receipted(w, v)
    requires v.Index(from) > 0 && c.Peer(from) in w.EngineOf(from).sessions
    requires v' == v.(h := Sent(v.h, v.Index(from)),
                      slots := v.slots + [(v.Index(from), v.h.sent[v.Index(from)])])
    requires Valid(v'.h) && w' == WorldAfterSend(c, w, from, s', post) && (s'.ckr.Some? ==> s'.dhr.Some?)
    requires post.from == from && post.msg.conversationId == post.conversation
    requires
      var k := v.Index(from);
      && post.msg.header == Some(HeaderAt(v.h, k, v.h.sent[k]))
      && post.msg.ciphertext == SealedAt(v.h, k, v.h.sent[k], post.plaintext, post.conversation)
    requires c.Peer(from) in w.EngineOf(from).pending ==>
      post.msg.x3dhEphemeral == Some(w.EngineOf(from).pending[c.Peer(from)])
    ensures Indices(v') && KeysDrawn(c, w', v'.h) && Fixed(c, w', v') && Posted(w', v') && Receipted(w', v')
    ensures SessionOf(c, w', from) == s' && SessionOf(c, w', from.Other()) == SessionOf(c, w, from.Other())
  {
    SendFixed(c, w, v, w', v', from, s', post);
    SendPosted(w, v, w', v', from, post.conversation, post.plaintext, post.msg);
    SendReceipted(w, v, w', v');
  }

  /** The world after a session that can send has sent. */
  function WorldAfterSend(c: Setup, w: World, from: Party, session: R.State, post: Post): World {
    var e := w.EngineOf(from);
    w.WithEngine(from, e.(sessions := e.sessions[c.Peer(from) := session])).(net := w.net + [post])
  }

  lemma SendEffect(c: Setup, w: World, from: Party, conversation: Octets, plaintext: Octets)
    returns (msg: E.EncryptedMessage<Term, Ciphertext>)
    requires Usable(w) && c.Peer(from) in w.EngineOf(from).sessions
    requires SessionOf(c, w, from).cks.Some?
    ensures
      var (s', r) := R.AfterEncrypt(SessionOf(c, w, from), plaintext, conversation);
      && msg.conversationId == conversation
      && msg.header == Some(r.value.0) && msg.ciphertext == r.value.1
      && (c.Peer(from) in w.EngineOf(from).pending ==>
            msg.x3dhEphemeral == Some(w.EngineOf(from).pending[c.Peer(from)]))
      && Step(c, w, Send(from, conversation, plaintext))
         == WorldAfterSend(c, w, from, s', Post(from, conversation, plaintext, msg))
  {
    msg := E.AfterEncrypt(SYMBOLIC, w.EngineOf(from), c.Peer(from), conversation, plaintext).1.value.msg;
  }

  lemma SendFixed(c: Setup, w: World, v: View, w': World, v': View, from: Party, s': R.State, post: Post)
    requires Fixed(c, w, v) && c.Peer(from) in w.EngineOf(from).sessions
    requires w' == WorldAfterSend(c, w, from, s', post)
    requires v'.h.sk == v.h.sk && v'.responder == v.responder
    requires s'.ckr.Some? ==> s'.dhr.Some?
    requires c.Peer(from) in w.EngineOf(from).pending ==>
      post.msg.x3dhEphemeral == Some(w.EngineOf(from).pending[c.Peer(from)])
    ensures Fixed(c, w', v')
    ensures SessionOf(c, w', from) == s' && SessionOf(c, w', from.Other()) == SessionOf(c, w, from.Other())
  {
  }

  lemma SendSession(v: View, from: Party, s: R.State)
    requires Indices(v) && v.Index(from) > 0 && SessionAt(v.h, s, v.Index(from.Other()))
    ensures Valid(Sent(v.h, v.Index(from)))
    ensures SessionAt(Sent(v.h, v.Index(from)), s, v.Index(from.Other()))
  {
    var h' := Sent(v.h, v.Index(from));
    assert UnnoticedAt(v.h, h', v.Index(from.Other()));
    SessionStays(v.h, h', s, v.Index(from.Other()));
  }

  lemma SendReceipted(w: World, v: View, w': World, v': View)
    requires Receipted(w, v) && w'.receipts == w.receipts && w.net <= w'.net
    requires v'.matched == v.matched && v.slots <= v'.slots && v'.h.consumed == v.h.consumed
    requires |w'.net| == |v'.slots|
    ensures Receipted(w', v')
  {
    assert ConsumedMatched(v') by {
      forall slot | slot in v'.h.consumed
        ensures exists i :: 0 <= i < |v'.matched| && v'.matched[i] < |v'.slots| && v'.slots[v'.matched[i]] == slot
      {
        var i :| 0 <= i < |v.matched| && v.matched[i] < |v.slots| && v.slots[v.matched[i]] == slot;
        assert v'.slots[v'.matched[i]] == slot;
      }
    }
  }

  lemma SendPosted(
    w: World, v: View, w': World, v': View, from: Party, conversation: Octets, plaintext: Octets,
    msg: E.EncryptedMessage<Term, Ciphertext>)
    requires Indices(v) && Posted(w, v) && v.Index(from) > 0
    requires v' == v.(h := Sent(v.h, v.Index(from)),
                      slots := v.slots + [(v.Index(from), v.h.sent[v.Index(from)])])
    requires Valid(v'.h)
    requires w'.net == w.net + [Post(from, conversation, plaintext, msg)]
    requires msg.conversationId == conversation
    requires
      var k := v.Index(from);
      && msg.header == Some(HeaderAt(v.h, k, v.h.sent[k]))
      && msg.ciphertext == SealedAt(v.h, k, v.h.sent[k], plaintext, conversation)
    ensures Posted(w', v')
  {
    SendPostsMatch(w, v, w', v', from, Post(from, conversation, plaintext, msg));
    SendSlots(w, v, v', from);
  }

  lemma SendPostsMatch(w: World, v: View, w': World, v': View, from: Party, post: Post)
    requires Indices(v) && PostsMatch(w, v) && v.Index(from) > 0
    requires v'.h == Sent(v.h, v.Index(from)) && Valid(v'.h)
    requires v'.slots == v.slots + [(v.Index(from), v.h.sent[v.Index(from)])]
    requires w'.net == w.net + [post]
    requires PostAt(v'.h, post, (v.Index(from), v.h.sent[v.Index(from)]))
    ensures PostsMatch(w', v')
  {
    forall t | 0 <= t < |w.net|
      ensures PostAt(v'.h, w'.net[t], v'.slots[t])
    {
      assert PostAt(v.h, w.net[t], v.slots[t]);
      PostStays(v, from, w.net[t], v.slots[t]);
    }
  }

  lemma SendSlots(w: World, v: View, v': View, from: Party)
    requires Indices(v) && Posted(w, v) && v.Index(from) > 0
    requires v'.h == Sent(v.h, v.Index(from)) && Valid(v'.h)
    requires v'.slots == v.slots + [(v.Index(from), v.h.sent[v.Index(from)])]
    ensures SlotsDistinct(v'.slots) && SlotsCover(v'.h, v'.slots) && Counted(v'.h, |w.net| + 1)
  {
    var k := v.Index(from);
    assert SlotsDistinct(v'.slots) by {
      forall t | 0 <= t < |v.slots|
        ensures v.slots[t] != (k, v.h.sent[k])
      {
        assert PostAt(v.h, w.net[t], v.slots[t]);
      }
    }
    forall j: nat, n: nat | 1 <= j < |v'.h.keys| && n < v'.h.sent[j]
      ensures (j, n) in v'.slots
    {
      if j == k && n == v.h.sent[k] {
        assert v'.slots[|v.slots|] == (j, n);
      } else {
        assert (j, n) in v.slots;
      }
    }
  }

  /** One more message on the newest chain of a party changes no header already sent. */
  lemma PostStays(v: View, from: Party, post: Post, slot: (nat, nat))
    requires Indices(v) && v.Index(from) > 0 && PostAt(v.h, post, slot)
    ensures Valid(Sent(v.h, v.Index(from))) && PostAt(Sent(v.h, v.Index(from)), post, slot)
  {
  }

  // --- delivering ---

  /** What one delivery does to the world, in terms of the receiving session alone. */
  lemma DeliverEffect(c: Setup, w: World, v: View, to: Party, wire: E.Wire<Term, Ciphertext>)
    requires Fixed(c, w, v) && Admissible(c, w, Deliver(to, wire))
    ensures
      var w' := Step(c, w, Deliver(to, wire));
      var s := SessionOf(c, w, to);
      && w'.net == w.net && w'.draws == w.draws + 1
      && w'.EngineOf(to.Other()) == w.EngineOf(to.Other())
      && SessionOf(c, w', to.Other()) == SessionOf(c, w, to.Other())
      && ((w'.receipts == w.receipts && SessionOf(c, w', to) == s && Fixed(c, w', v))
          || (&& wire.Encoded? && wire.msg.header.Some?
              && (s.ckr.Some? ==> s.dhr.Some?)
              && var (s', r) := R.AfterDecrypt(
                   s, wire.msg.header.value, wire.msg.ciphertext, wire.msg.conversationId, Random(w.draws));
              && r.Ok?
              && w'.receipts == w.receipts + [Receipt(to, wire.msg, r.value)]
              && SessionOf(c, w', to) == s'
              && c.Peer(to) in w'.EngineOf(to).sessions
              && (c.Peer(Responder) in w.responder.sessions || to == Responder ==> Fixed(c, w', v))))
  {
    var e := w.EngineOf(to);
    E.DecryptIsTransactional(SYMBOLIC, e, c.Peer(to), wire, Random(w.draws));
  }

  lemma DeliverInv(c: Setup, w: World, v: View, to: Party, wire: E.Wire<Term, Ciphertext>) returns (v': View)
    requires Inv(c, w, v) && Admissible(c, w, Deliver(to, wire))
    ensures Inv(c, Step(c, w, Deliver(to, wire)), v')
  {
    DeliverEffect(c, w, v, to, wire);
    var w' := Step(c, w, Deliver(to, wire));
    if w'.receipts == w.receipts {
      v' := v;
      RefusedInv(c, w, v, to, w');
    } else {
      var msg := wire.msg;
      OpenedWasSealed(SessionOf(c, w, to), msg.header.value, msg.ciphertext, msg.conversationId, Random(w.draws));
      var t :| 0 <= t < |w.net| && msg.ciphertext == w.net[t].msg.ciphertext;
      v' := ViewAfterReceive(w, v, to, t);
      ReceiveInv(c, w, v, to, msg, t, w', v');
    }
  }

  lemma OpenedWasSealed(s: R.State, header: Header<Term>, ct: Ciphertext, ad: Octets, seed: Term)
    requires s.ckr.Some? ==> s.dhr.Some?
    requires R.AfterDecrypt(s, header, ct, ad, seed).1.Ok?
    ensures ct.Sealed?
  {
  }

  lemma RefusedInv(c: Setup, w: World, v: View, to: Party, w': World)
    requires Inv(c, w, v) && Fixed(c, w', v)
    requires w'.net == w.net && w'.draws == w.draws + 1 && w'.receipts == w.receipts
    requires SessionOf(c, w', to) == SessionOf(c, w, to)
    requires SessionOf(c, w', to.Other()) == SessionOf(c, w, to.Other())
    ensures Inv(c, w', v)
  {
    assert to == Initiator || to == Responder;
  }

  /** The view after `to` has decrypted post `t`. */
  function ViewAfterReceive(w: World, v: View, to: Party, t: nat): View
    requires t < |v.slots|
  {
    var (k, n) := v.slots[t];
    var idx := v.Index(to);
    var v1 := v.(matched := v.matched + [t]);
    if k == idx + 1 then
      v1.WithIndex(to, idx + 2).(h := Consumed(Opened(v.h, Random(w.draws)), k, n))
    else
      v1.(h := Consumed(v.h, k, n))
  }

  lemma ReceiveInv(
    c: Setup, w: World, v: View, to: Party, msg: E.EncryptedMessage<Term, Ciphertext>, t: nat, w': World, v': View)
    requires Inv(c, w, v) && t < |w.net| && msg.ciphertext == w.net[t].msg.ciphertext
    requires msg.header.Some? && v' == ViewAfterReceive(w, v, to, t)
    requires
      var (s', r) := R.AfterDecrypt(
        SessionOf(c, w, to), msg.header.value, msg.ciphertext, msg.conversationId, Random(w.draws));
      && r.Ok?
      && w'.receipts == w.receipts + [Receipt(to, msg, r.value)]
      && SessionOf(c, w', to) == s'
    requires w'.net == w.net && w'.draws == w.draws + 1
    requires SessionOf(c, w', to.Other()) == SessionOf(c, w, to.Other())
    requires c.Peer(to) in w'.EngineOf(to).sessions
    requires w'.EngineOf(to.Other()) == w.EngineOf(to.Other())
    requires c.Peer(Responder) in w.responder.sessions || to == Responder ==> Fixed(c, w', v)
    ensures Inv(c, w', v')
  {
    var post := w.net[t];
    var s, s' := SessionOf(c, w, to), SessionOf(c, w', to);
    assert PostAt(v.h, post, v.slots[t]);
    ReceiveAuthentic(v, to, s, post, v.slots[t], msg, Random(w.draws));
    BehindByOne(v, to);
    assert (v.slots[t].0, v.slots[t].1) == v.slots[t];
    ReceiveOwn(v.h, v.Index(to), s, s', v.slots[t].0, v.slots[t].1, post.plaintext, post.conversation, Random(w.draws));
    ReceiveRest(c, w, v, to, msg, t, w', v');
  }

  lemma ReceiveAuthentic(
    v: View, to: Party, s: R.State, post: Post, slot: (nat, nat), msg: E.EncryptedMessage<Term, Ciphertext>, seed: Term)
    requires Indices(v) && SessionAt(v.h, s, v.Index(to)) && PostAt(v.h, post, slot)
    requires msg.header.Some? && msg.ciphertext == post.msg.ciphertext
    requires R.AfterDecrypt(s, msg.header.value, msg.ciphertext, msg.conversationId, seed).1.Ok?
    ensures R.AfterDecrypt(s, msg.header.value, msg.ciphertext, msg.conversationId, seed).1 == Ok(post.plaintext)
    ensures msg.header == post.msg.header && msg.conversationId == post.conversation
    ensures RatchetHistory.Received(v.Index(to), slot.0) || slot.0 == v.Index(to) + 1
    ensures slot !in v.h.consumed
  {
    OpensOnlyAsSent(v.h, s, v.Index(to), slot.0, slot.1, post.plaintext, post.conversation,
                    msg.header.value, msg.conversationId, seed);
    assert (slot.0, slot.1) == slot;
  }

  /** Everything but the receiving session, once that is known to follow. */
  lemma ReceiveRest(
    c: Setup, w: World, v: View, to: Party, msg: E.EncryptedMessage<Term, Ciphertext>, t: nat, w': World, v': View)
    requires Inv(c, w, v) && t < |w.net| && v' == ViewAfterReceive(w, v, to, t)
    requires msg.ciphertext == w.net[t].msg.ciphertext
    requires msg.header == w.net[t].msg.header && msg.conversationId == w.net[t].msg.conversationId
    requires RatchetHistory.Received(v.Index(to), v.slots[t].0) || v.slots[t].0 == v.Index(to) + 1
    requires v.slots[t] !in v.h.consumed
    requires |v.h.keys| <= v.Index(to) + 2 && OwnFollows(v.h, v.Index(to), SessionOf(c, w', to), v.slots[t], Random(w.draws))
    requires w'.receipts == w.receipts + [Receipt(to, msg, w.net[t].plaintext)]
    requires w'.net == w.net && w'.draws == w.draws + 1
    requires SessionOf(c, w', to.Other()) == SessionOf(c, w, to.Other())
    requires c.Peer(to) in w'.EngineOf(to).sessions
    requires w'.EngineOf(to.Other()) == w.EngineOf(to.Other())
    requires c.Peer(Responder) in w.responder.sessions || to == Responder ==> Fixed(c, w', v)
    ensures Inv(c, w', v')
  {
    assert PostAt(v.h, w.net[t], v.slots[t]);
    OwnInView(w, v, to, t, SessionOf(c, w', to), v');
    ReceiveIndices(w, v, to, t, v');
    ReceiveOther(c, v, to, SessionOf(c, w, to.Other()), t, w, v');
    ReceiveFixed(c, w, v, to, t, w', v');
    ReceiveBooks(c, w, v, to, t, Receipt(to, msg, w.net[t].plaintext), w', v');
    RestoreInv(c, w', v', to);
  }

  /** The bookkeeping part of the invariant. */
  lemma ReceiveBooks(c: Setup, w: World, v: View, to: Party, t: nat, receipt: Receipt, w': World, v': View)
    requires Indices(v) && KeysDrawn(c, w, v.h) && Posted(w, v) && Receipted(w, v) && t < |w.net|
    requires v.slots[t] !in v.h.consumed
    requires RatchetHistory.Received(v.Index(to), v.slots[t].0) || v.slots[t].0 == v.Index(to) + 1
    requires v' == ViewAfterReceive(w, v, to, t) && Valid(v'.h)
    requires w'.net == w.net && w'.draws == w.draws + 1 && w'.receipts == w.receipts + [receipt]
    requires receipt == Receipt(to, receipt.msg, w.net[t].plaintext)
    requires receipt.msg.header == w.net[t].msg.header && receipt.msg.ciphertext == w.net[t].msg.ciphertext
    requires receipt.msg.conversationId == w.net[t].msg.conversationId
    ensures KeysDrawn(c, w', v'.h) && Posted(w', v') && Receipted(w', v')
  {
    assert PostAt(v.h, w.net[t], v.slots[t]);
    ReceivePosted(w, v, w', v', to, t);
    PostFromOther(v, to, w.net[t], v.slots[t]);
    ViewAfterReceiveIs(w, v, to, t);
    ReceiveReceipted(w, v, w', v', t, receipt);
    ReceiveDrawn(c, w, v, w', v', to, t);
  }

  /** The invariant does not depend on which party is looked at first. */
  lemma RestoreInv(c: Setup, w: World, v: View, to: Party)
    requires Indices(v) && KeysDrawn(c, w, v.h) && Fixed(c, w, v) && Posted(w, v) && Receipted(w, v)
    requires SessionAt(v.h, SessionOf(c, w, to), v.Index(to))
    requires SessionAt(v.h, SessionOf(c, w, to.Other()), v.Index(to.Other()))
    ensures Inv(c, w, v)
  {
    assert to == Initiator || to == Responder;
  }

  lemma ReceiveFixed(c: Setup, w: World, v: View, to: Party, t: nat, w': World, v': View)
    requires Indices(v) && Fixed(c, w, v) && t < |v.slots| == |w.net|
    requires v' == ViewAfterReceive(w, v, to, t)
    requires 1 <= v.slots[t].0 < |v.h.keys|
    requires RatchetHistory.Received(v.Index(to), v.slots[t].0) || v.slots[t].0 == v.Index(to) + 1
    requires w'.EngineOf(to.Other()) == w.EngineOf(to.Other())
    requires c.Peer(to) in w'.EngineOf(to).sessions
    requires c.Peer(Responder) in w.responder.sessions || to == Responder ==> Fixed(c, w', v)
    ensures Fixed(c, w', v')
  {
  }

  /** `s` is the receiving session after the message of `slot`. */
  ghost predicate OwnFollows(h: History, idx: nat, s: R.State, slot: (nat, nat), seed: Term)
    requires Valid(h) && idx < |h.keys| <= idx + 2
  {
    if slot.0 == idx + 1 then
      var h' := Consumed(Opened(h, seed), slot.0, slot.1);
      Valid(h') && idx + 2 < |h'.keys| && SessionAt(h', s, idx + 2)
    else
      SessionAt(Consumed(h, slot.0, slot.1), s, idx)
  }

  lemma OwnInView(w: World, v: View, to: Party, t: nat, s: R.State, v': View)
    requires Indices(v) && t < |v.slots| && v' == ViewAfterReceive(w, v, to, t)
    requires |v.h.keys| <= v.Index(to) + 2 && OwnFollows(v.h, v.Index(to), s, v.slots[t], Random(w.draws))
    ensures Valid(v'.h) && v'.Index(to) < |v'.h.keys| && SessionAt(v'.h, s, v'.Index(to))
  {
  }

  /** The receiving session follows the history, on a chain it follows or on the next one. */
  lemma ReceiveOwn(
    h: History, idx: nat, s: R.State, s': R.State, k: nat, n: nat, plaintext: Octets, ad: Octets, seed: Term)
    requires Valid(h) && idx < |h.keys| <= idx + 2 && SessionAt(h, s, idx) && seed !in h.keys
    requires 1 <= k < |h.keys| && n < h.sent[k] && (k, n) !in h.consumed
    requires RatchetHistory.Received(idx, k) || k == idx + 1
    requires R.AfterDecrypt(s, HeaderAt(h, k, n), SealedAt(h, k, n, plaintext, ad), ad, seed) == (s', Ok(plaintext))
    ensures OwnFollows(h, idx, s', (k, n), seed)
  {
    if k == idx + 1 {
      OpenStep(h, s, s', idx, n, plaintext, ad, seed);
    } else {
      ReceiveStep(h, s, s', idx, k, n, plaintext, ad, seed);
    }
  }

  lemma BehindByOne(v: View, to: Party)
    requires Indices(v)
    ensures |v.h.keys| <= v.Index(to) + 2
  {
  }

  lemma ReceiveIndices(w: World, v: View, to: Party, t: nat, v': View)
    requires Indices(v) && t < |v.slots| && v' == ViewAfterReceive(w, v, to, t) && Valid(v'.h)
    requires v.slots[t].0 < |v.h.keys|
    ensures Indices(v')
  {
    if v.slots[t].0 == v.Index(to) + 1 {
      BehindByOne(v, to);
    }
    assert to == Initiator || to == Responder;
  }

  lemma ReceiveOther(c: Setup, v: View, to: Party, other: R.State, t: nat, w: World, v': View)
    requires Indices(v) && KeysDrawn(c, w, v.h) && t < |v.slots|
    requires v' == ViewAfterReceive(w, v, to, t)
    requires SessionAt(v.h, other, v.Index(to.Other()))
    requires 1 <= v.slots[t].0 < |v.h.keys|
    requires RatchetHistory.Received(v.Index(to), v.slots[t].0) || v.slots[t].0 == v.Index(to) + 1
    ensures Valid(v'.h) && v'.Index(to.Other()) < |v'.h.keys| && SessionAt(v'.h, other, v'.Index(to.Other()))
  {
    ReceiveUnnoticed(c, v, to, t, w, v');
    SessionStays(v.h, v'.h, other, v.Index(to.Other()));
  }

  lemma ReceiveUnnoticed(c: Setup, v: View, to: Party, t: nat, w: World, v': View)
    requires Indices(v) && KeysDrawn(c, w, v.h) && t < |v.slots|
    requires v' == ViewAfterReceive(w, v, to, t)
    requires 1 <= v.slots[t].0 < |v.h.keys|
    requires RatchetHistory.Received(v.Index(to), v.slots[t].0) || v.slots[t].0 == v.Index(to) + 1
    ensures Valid(v'.h) && v'.Index(to.Other()) == v.Index(to.Other())
    ensures UnnoticedAt(v.h, v'.h, v.Index(to.Other()))
  {
  }

  lemma ReceivePosted(w: World, v: View, w': World, v': View, to: Party, t: nat)
    requires Indices(v) && Posted(w, v) && t < |v.slots| && w'.net == w.net
    requires v' == ViewAfterReceive(w, v, to, t) && Valid(v'.h)
    ensures Posted(w', v')
  {
    assert PostsMatch(w', v') by {
      forall u | 0 <= u < |w.net|
        ensures PostAt(v'.h, w'.net[u], v'.slots[u])
      {
        assert PostAt(v.h, w.net[u], v.slots[u]);
        PostStaysUnder(v.h, v'.h, w.net[u], v.slots[u]);
      }
    }
  }

  lemma PostStaysUnder(h: History, h': History, post: Post, slot: (nat, nat))
    requires Valid(h) && Valid(h') && PostAt(h, post, slot)
    requires h'.sk == h.sk && h.keys <= h'.keys && h.sent <= h'.sent
    ensures PostAt(h', post, slot)
  {
    RootStable(h.sk, h.keys, h'.keys, slot.0 - 1);
  }

  lemma PostFromOther(v: View, to: Party, post: Post, slot: (nat, nat))
    requires Indices(v) && PostAt(v.h, post, slot)
    requires RatchetHistory.Received(v.Index(to), slot.0) || slot.0 == v.Index(to) + 1
    ensures post.from.Other() == to
  {
    assert slot.0 % 2 != v.Index(to) % 2;
  }

  lemma ViewAfterReceiveIs(w: World, v: View, to: Party, t: nat)
    requires t < |v.slots|
    ensures
      var v' := ViewAfterReceive(w, v, to, t);
      && v'.slots == v.slots && v'.matched == v.matched + [t]
      && v'.h.consumed == v.h.consumed + {v.slots[t]}
  {
    var (k, n) := v.slots[t];
    assert (k, n) == v.slots[t];
  }

  lemma ReceiveDrawn(c: Setup, w: World, v: View, w': World, v': View, to: Party, t: nat)
    requires KeysDrawn(c, w, v.h) && t < |v.slots| && v' == ViewAfterReceive(w, v, to, t)
    requires w'.draws == w.draws + 1
    ensures KeysDrawn(c, w', v'.h)
  {
  }

  lemma ReceiveReceipted(w: World, v: View, w': World, v': View, t: nat, receipt: Receipt)
    requires Receipted(w, v) && t < |w.net| == |v.slots| && w'.net == w.net
    requires w'.receipts == w.receipts + [receipt] && ReceiptOf(receipt, w.net[t])
    requires v.slots[t] !in v.h.consumed
    requires v'.slots == v.slots && v'.matched == v.matched + [t]
    requires v'.h.consumed == v.h.consumed + {v.slots[t]}
    ensures Receipted(w', v')
  {
    ReceiveMatches(w, v, w', v', t, receipt);
    ReceiveConsumed(v, v', t);
  }

  lemma ReceiveMatches(w: World, v: View, w': World, v': View, t: nat, receipt: Receipt)
    requires ReceiptsMatch(w, v) && t < |w.net| == |v.slots| && w'.net == w.net
    requires w'.receipts == w.receipts + [receipt] && ReceiptOf(receipt, w.net[t])
    requires v'.slots == v.slots && v'.matched == v.matched + [t]
    requires v'.h.consumed == v.h.consumed + {v.slots[t]}
    ensures ReceiptsMatch(w', v')
  {
    forall i | 0 <= i < |v.matched|
      ensures ReceiptOf(w'.receipts[i], w'.net[v'.matched[i]])
    {
      assert w'.receipts[i] == w.receipts[i] && v'.matched[i] == v.matched[i];
    }
  }

  lemma ReceiveConsumed(v: View, v': View, t: nat)
    requires ConsumedMatched(v) && t < |v.slots|
    requires v'.slots == v.slots && v'.matched == v.matched + [t]
    requires v'.h.consumed == v.h.consumed + {v.slots[t]}
    ensures ConsumedMatched(v')
  {
    forall slot | slot in v'.h.consumed
      ensures exists i :: 0 <= i < |v'.matched| && v'.matched[i] < |v'.slots| && v'.slots[v'.matched[i]] == slot
    {
      if slot == v.slots[t] {
        assert v'.matched[|v.matched|] == t;
      } else {
        var i :| 0 <= i < |v.matched| && v.matched[i] < |v.slots| && v.slots[v.matched[i]] == slot;
        assert v'.slots[v'.matched[i]] == slot;
      }
    }
  }

  // --- every run ---

  lemma {:induction false} RunInv(c: Setup, events: seq<Event>) returns (v: View)
    requires ValidSetup(c) && Legal(c, events)
    ensures Inv(c, Run(c, events), v)
    decreases |events|
  {
    if events == [] {
      StartInv(c);
      v := View(StartHistory(c), 1, 0, [], []);
    } else {
      var before := events[..|events| - 1];
      var v0 := RunInv(c, before);
      match events[|events| - 1] {
        case Send(from, conversation, plaintext) =>
          v := SendInv(c, Run(c, before), v0, from, conversation, plaintext);
        case Deliver(to, wire) =>
          v := DeliverInv(c, Run(c, before), v0, to, wire);
      }
    }
  }
}

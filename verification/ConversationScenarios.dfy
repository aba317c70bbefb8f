/** Runs that reach the limits of the theorems: a message out of the window, and a replay that would
    destroy a session. */
module ConversationScenarios {
  import opened Wrappers
  import opened Crypto
  import opened Sessions
  import opened RatchetHistory
  import opened RatchetHistorySteps
  import opened Conversation
  import opened ConversationInvariant
  import opened ConversationTheorems
  import R = SymbolicRatchet
  import E = Engine

  /** One more event of a legal run. */
  lemma Extend(c: Setup, events: seq<Event>, w: World, ev: Event)
    requires Legal(c, events) && w == Run(c, events) && Usable(w) && Admissible(c, w, ev)
    ensures Legal(c, events + [ev]) && Run(c, events + [ev]) == Step(c, w, ev)
  {
    assert (events + [ev])[..|events|] == events;
  }

  /** The view after `from` has sent once more. */
  function ViewAfterSend(v: View, from: Party): View
    requires v.Index(from) < |v.h.sent|
  {
    v.(h := Sent(v.h, v.Index(from)), slots := v.slots + [(v.Index(from), v.h.sent[v.Index(from)])])
  }

  /** A run, where it got to, and the invariant's view of that. */
  datatype Point = Point(events: seq<Event>, w: World, v: View)

  ghost predicate Reached(c: Setup, at: Point) {
    if ValidSetup(c) && Legal(c, at.events) && at.w == Run(c, at.events) then Inv(c, at.w, at.v) else false
  }

  lemma SendOne(c: Setup, at: Point, from: Party) returns (at': Point)
    requires Reached(c, at) && c.Peer(from) in at.w.EngineOf(from).sessions && at.v.Index(from) > 0
    ensures at.v.Index(from) < |at.v.h.sent|
    ensures Reached(c, at') && at'.v == ViewAfterSend(at.v, from)
    ensures HasSent(c, at.w, at'.w, from)
  {
    var w' := Step(c, at.w, Send(from, [], []));
    at' := Point(at.events + [Send(from, [], [])], w', ViewAfterSend(at.v, from));
    Extend(c, at.events, at.w, Send(from, [], []));
    SendAccepted(c, at.w, at.v, at'.v, from, [], []);
    SentPost(c, at.w, w', from, at.v.h, at.v.Index(from));
  }

  /** What a send shows. */
  ghost predicate HasSent(c: Setup, w: World, w': World, from: Party) {
    && |w'.net| == |w.net| + 1 && w.net <= w'.net && w'.net[|w.net|].from == from
    && w'.receipts == w.receipts && w'.draws == w.draws
    && c.Peer(from) in w'.EngineOf(from).sessions
    && w'.EngineOf(from.Other()) == w.EngineOf(from.Other())
  }

  lemma SentPost(c: Setup, w: World, w': World, from: Party, h: History, idx: nat)
    requires Usable(w) && c.Peer(from) in w.EngineOf(from).sessions
    requires Valid(h) && 1 <= idx < |h.keys| && SessionAt(h, SessionOf(c, w, from), idx)
    requires w' == Step(c, w, Send(from, [], []))
    ensures HasSent(c, w, w', from)
  {
    var msg := SendEffect(c, w, from, [], []);
  }

  /** The network brings post `t` to its addressee, within the window. */
  lemma DeliverOne(c: Setup, at: Point, to: Party, t: nat) returns (at': Point)
    requires Reached(c, at) && Deliverable(c, at.w, to, t)
    ensures t < |at.v.slots|
    ensures Reached(c, at') && at'.v == ViewAfterReceive(at.w, at.v, to, t)
    ensures Heard(c, at.w, at'.w, to, t)
  {
    var msg := at.w.net[t].msg;
    PostAdmissible(c, at.w, at.v, to, t);
    var w' := Step(c, at.w, Deliver(to, E.Encoded(msg)));
    at' := Point(at.events + [Deliver(to, E.Encoded(msg))], w', ViewAfterReceive(at.w, at.v, to, t));
    Extend(c, at.events, at.w, Deliver(to, E.Encoded(msg)));
    DeliveredPost(c, at.w, at.v, to, t, w');
  }

  /** What a successful delivery shows. */
  ghost predicate Heard(c: Setup, w: World, w': World, to: Party, t: nat)
    requires t < |w.net|
  {
    && w'.net == w.net && c.Peer(to) in w'.EngineOf(to).sessions
    && w'.EngineOf(to.Other()) == w.EngineOf(to.Other())
    && |w'.receipts| == |w.receipts| + 1 && w'.receipts[..|w.receipts|] == w.receipts
    && w'.receipts[|w.receipts|].msg.ciphertext == w.net[t].msg.ciphertext
  }

  lemma DeliveredPost(c: Setup, w: World, v: View, to: Party, t: nat, w': World)
    requires Inv(c, w, v) && Deliverable(c, w, to, t)
    requires Admissible(c, w, Deliver(to, E.Encoded(w.net[t].msg)))
    requires w' == Step(c, w, Deliver(to, E.Encoded(w.net[t].msg)))
    ensures Inv(c, w', ViewAfterReceive(w, v, to, t))
    ensures Heard(c, w, w', to, t)
  {
    DeliverableIffWithinWindow(c, w, v, to, t);
    DeliverEffect(c, w, v, to, E.Encoded(w.net[t].msg));
    OkAddsReceipt(c, w, to, E.Encoded(w.net[t].msg));
    ReceiveInv(c, w, v, to, w.net[t].msg, t, w', ViewAfterReceive(w, v, to, t));
  }

  lemma OkAddsReceipt(c: Setup, w: World, to: Party, wire: E.Wire<Term, Ciphertext>)
    requires Usable(w) && wire.Encoded?
    requires E.AfterDecrypt(SYMBOLIC, w.EngineOf(to), c.Peer(to), wire, Random(w.draws)).1.Ok?
    ensures |Step(c, w, Deliver(to, wire)).receipts| == |w.receipts| + 1
  {
  }

  lemma PostAdmissible(c: Setup, w: World, v: View, to: Party, t: nat)
    requires Inv(c, w, v) && t < |w.net|
    ensures Admissible(c, w, Deliver(to, E.Encoded(w.net[t].msg)))
  {
  }

  lemma StartPoint(c: Setup) returns (at: Point)
    requires ValidSetup(c)
    ensures Reached(c, at) && at.v == View(StartHistory(c), 1, 0, [], [])
    ensures at.w.net == [] && at.w.receipts == []
    ensures c.Peer(Initiator) in at.w.initiator.sessions && c.Peer(Responder) !in at.w.responder.sessions
  {
    StartInv(c);
    StartSessions(c);
    at := Point([], Start(c), View(StartHistory(c), 1, 0, [], []));
  }

  // --- a message out of the window ---

  /** The view when the initiator has sent `m` messages and nothing was delivered. */
  function Unanswered(c: Setup, m: nat): View {
    var h := History(c.SharedSecret(), [Random(c.prekey), Random(c.draws + 1)], [0, m], {});
    View(h, 1, 0, seq(m, t => (1, t)), [])
  }

  lemma {:induction false} SendMany(c: Setup, m: nat) returns (at: Point)
    requires ValidSetup(c)
    ensures Reached(c, at) && at.v == Unanswered(c, m)
    ensures AllSent(c, at.w, m)
  {
    if m == 0 {
      at := StartPoint(c);
      UnansweredStart(c);
    } else {
      var before := SendMany(c, m - 1);
      at := SendOne(c, before, Initiator);
      UnansweredStep(c, m);
      AllSentMore(c, before.w, at.w, m);
    }
  }

  lemma UnansweredStart(c: Setup)
    ensures Unanswered(c, 0) == View(StartHistory(c), 1, 0, [], [])
  {
  }

  lemma AllSentMore(c: Setup, w: World, w': World, m: nat)
    requires m > 0 && AllSent(c, w, m - 1) && HasSent(c, w, w', Initiator)
    ensures AllSent(c, w', m)
  {
  }

  ghost predicate AllSent(c: Setup, w: World, m: nat) {
    && |w.net| == m && w.receipts == []
    && (forall t | 0 <= t < m :: w.net[t].from == Initiator)
    && c.Peer(Initiator) in w.initiator.sessions && c.Peer(Responder) !in w.responder.sessions
  }

  lemma UnansweredStep(c: Setup, m: nat)
    requires m > 0
    ensures Unanswered(c, m) == ViewAfterSend(Unanswered(c, m - 1), Initiator)
  {
    assert Unanswered(c, m).slots == Unanswered(c, m - 1).slots + [(1, m - 1)];
  }

  /** The bound of `ShortRunsNeverLose` is tight: of 1002 messages the last, if it arrives first,
      is refused. */
  lemma WindowIsTight(c: Setup) returns (events: seq<Event>)
    requires ValidSetup(c)
    ensures Legal(c, events) && Usable(Run(c, events)) && |Run(c, events).net| == 1002
    ensures Undelivered(Run(c, events), Responder, 1001)
    ensures DeliveryOf(c, Run(c, events), Responder, 1001).Err?
  {
    var at := SendMany(c, MAX_SKIP + 2);
    events := at.events;
    LastIsAhead(c, at.w, MAX_SKIP + 2);
  }

  lemma LastIsAhead(c: Setup, w: World, m: nat)
    requires Inv(c, w, Unanswered(c, m)) && AllSent(c, w, m) && m == MAX_SKIP + 2
    ensures Undelivered(w, Responder, m - 1) && DeliveryOf(c, w, Responder, m - 1).Err?
  {
    var v := Unanswered(c, m);
    assert PostAt(v.h, w.net[m - 1], v.slots[m - 1]);
    DeliverableIffWithinWindow(c, w, v, Responder, m - 1);
  }

  // --- a replay at the bare ratchet ---

  /** What one turn does to the view: `from`, who is ahead, sends once and is heard. */
  function ViewAfterTurn(w: World, v: View, from: Party): View
    requires v.Index(from) < |v.h.sent|
  {
    ViewAfterReceive(w, ViewAfterSend(v, from), from.Other(), |v.slots|)
  }

  lemma Turn(c: Setup, at: Point, from: Party) returns (at': Point)
    requires Reached(c, at) && c.Peer(from) in at.w.EngineOf(from).sessions && Ahead(at.v, from)
    ensures Reached(c, at') && at'.v == ViewAfterTurn(at.w, at.v, from)
    ensures Answered(c, at.w, at'.w, from)
  {
    var mid := TurnSend(c, at, from);
    at' := DeliverOne(c, mid, from.Other(), |at.w.net|);
    TurnShows(c, at.w, mid.w, at'.w, from);
    TurnView(at.w, mid.w, at.v, from);
  }

  lemma TurnView(w: World, mid: World, v: View, from: Party)
    requires v.Index(from) < |v.h.sent| && mid.draws == w.draws
    ensures ViewAfterReceive(mid, ViewAfterSend(v, from), from.Other(), |v.slots|) == ViewAfterTurn(w, v, from)
  {
  }

  lemma TurnShows(c: Setup, w: World, mid: World, w': World, from: Party)
    requires HasSent(c, w, mid, from) && Heard(c, mid, w', from.Other(), |w.net|)
    ensures Answered(c, w, w', from)
  {
  }

  /** The first half of a turn: the message sent is within the window of the other party. */
  lemma TurnSend(c: Setup, at: Point, from: Party) returns (at': Point)
    requires Reached(c, at) && c.Peer(from) in at.w.EngineOf(from).sessions && Ahead(at.v, from)
    ensures Reached(c, at') && at'.v == ViewAfterSend(at.v, from)
    ensures HasSent(c, at.w, at'.w, from) && |at.v.slots| == |at.w.net|
    ensures Deliverable(c, at'.w, from.Other(), |at.w.net|)
  {
    at' := SendOne(c, at, from);
    TurnFree(c, at, from);
    TurnReady(c, at', at.v, from);
  }

  /** `from` is one derivation ahead and has not used its new chain; every chain is shorter than the window. */
  ghost predicate Ahead(v: View, from: Party) {
    && v.Index(from) == v.Index(from.Other()) + 1 < |v.h.sent| && v.h.sent[v.Index(from)] == 0
    && (forall k | 0 <= k < |v.h.sent| :: v.h.sent[k] <= MAX_SKIP)
  }

  ghost predicate Deliverable(c: Setup, w: World, to: Party, t: nat) {
    && t < |w.net| && Undelivered(w, to, t)
    && w.net[t].msg.header.Some? && WithinWindow(SessionOf(c, w, to), w.net[t].msg.header.value)
  }

  lemma SentView(v: View, from: Party)
    requires Ahead(v, from) && SlotIsFree(v, from)
    ensures
      var v' := ViewAfterSend(v, from);
      && |v'.slots| == |v.slots| + 1 && v'.slots[|v.slots|] == (v'.Index(from.Other()) + 1, 0)
      && v'.slots[|v.slots|] !in v'.h.consumed
      && (forall k | 0 <= k < |v'.h.sent| :: v'.h.sent[k] <= MAX_SKIP)
  {
  }

  predicate SlotIsFree(v: View, from: Party) {
    (v.Index(from), 0) !in v.h.consumed
  }

  lemma TurnFree(c: Setup, at: Point, from: Party)
    requires Reached(c, at) && Ahead(at.v, from)
    ensures SlotIsFree(at.v, from) && |at.v.slots| == |at.w.net|
  {
    SessionIn(c, at.w, at.v, from.Other());
    SlotIsNew(at.v, SessionOf(c, at.w, from.Other()), from);
  }

  lemma TurnReady(c: Setup, at: Point, v: View, from: Party)
    requires Reached(c, at) && Ahead(v, from) && SlotIsFree(v, from)
    requires at.v == ViewAfterSend(v, from) && |at.w.net| == |v.slots| + 1 && at.w.net[|v.slots|].from == from
    ensures Deliverable(c, at.w, from.Other(), |v.slots|)
  {
    SentView(v, from);
    ReadyAt(c, at.w, at.v, from.Other(), |v.slots|);
  }

  lemma SlotIsNew(v: View, s: R.State, from: Party)
    requires Indices(v) && Ahead(v, from) && SessionAt(v.h, s, v.Index(from.Other()))
    ensures SlotIsFree(v, from)
  {
    NotConsumedAhead(v.h, s, v.Index(from.Other()), 0);
  }

  lemma ReadyAt(c: Setup, w: World, v: View, to: Party, t: nat)
    requires Inv(c, w, v) && t < |w.net| && t < |v.slots| && w.net[t].from == to.Other()
    requires v.slots[t] == (v.Index(to) + 1, 0) && v.slots[t] !in v.h.consumed
    requires forall k | 0 <= k < |v.h.sent| :: v.h.sent[k] <= MAX_SKIP
    ensures Deliverable(c, w, to, t)
  {
    PostIn(c, w, v, t);
    UndeliveredIffNotConsumed(c, w, v, to, t);
    SessionIn(c, w, v, to);
    NextWithin(v, to, SessionOf(c, w, to), w.net[t], v.slots[t]);
  }

  /** What a turn shows. */
  ghost predicate Answered(c: Setup, w: World, w': World, from: Party) {
    && |w'.net| == |w.net| + 1 && w.net <= w'.net && w'.net[|w.net|].from == from
    && c.Peer(from) in w'.EngineOf(from).sessions && c.Peer(from.Other()) in w'.EngineOf(from.Other()).sessions
    && |w'.receipts| == |w.receipts| + 1 && w'.receipts[..|w.receipts|] == w.receipts
    && w'.receipts[|w.receipts|].msg.ciphertext == w'.net[|w.net|].msg.ciphertext
  }

  lemma PostIn(c: Setup, w: World, v: View, t: nat)
    requires Inv(c, w, v) && t < |w.net|
    ensures t < |v.slots| && PostAt(v.h, w.net[t], v.slots[t])
  {
  }

  lemma SessionIn(c: Setup, w: World, v: View, p: Party)
    requires Inv(c, w, v)
    ensures v.Index(p) < |v.h.keys| && SessionAt(v.h, SessionOf(c, w, p), v.Index(p))
  {
    assert p == Initiator || p == Responder;
  }

  /** The first message of the next chain is within the window of short chains. */
  lemma NextWithin(v: View, to: Party, s: R.State, post: Post, slot: (nat, nat))
    requires Indices(v) && SessionAt(v.h, s, v.Index(to)) && PostAt(v.h, post, slot)
    requires slot == (v.Index(to) + 1, 0) && forall k | 0 <= k < |v.h.sent| :: v.h.sent[k] <= MAX_SKIP
    ensures WithinWindow(s, post.msg.header.value)
  {
    assert s.dhr != Some(Pub(v.h, slot.0));
  }

  /** Who sends in turn `k`, counting from 0. */
  function Speaker(k: nat): Party {
    if k % 2 == 0 then Initiator else Responder
  }

  /** The view after `k` turns. */
  ghost predicate Turned(v: View, k: nat) {
    && v.Index(Speaker(k)) == k + 1 && v.Index(Speaker(k).Other()) == k
    && |v.h.sent| == k + 2 && (forall i | 0 <= i < k + 2 :: v.h.sent[i] == if i == 0 || i == k + 1 then 0 else 1)
    && |v.slots| == k && (forall t | 0 <= t < k :: v.slots[t] == (t + 1, 0))
  }

  lemma TurnedOnce(w: World, v: View, k: nat)
    requires Turned(v, k)
    ensures Turned(ViewAfterTurn(w, v, Speaker(k)), k + 1)
  {
  }

  ghost predicate TurnsShown(c: Setup, w: World, k: nat) {
    && |w.net| == |w.receipts| == k
    && c.Peer(Speaker(k)) in w.EngineOf(Speaker(k)).sessions
    && (k > 0 ==> w.net[0].from == Initiator && w.receipts[0].msg.ciphertext == w.net[0].msg.ciphertext)
  }

  lemma ShownOnce(c: Setup, w: World, w': World, k: nat)
    requires TurnsShown(c, w, k) && Answered(c, w, w', Speaker(k))
    ensures TurnsShown(c, w', k + 1)
  {
    assert Speaker(k + 1) == Speaker(k).Other();
    if k > 0 {
      assert w'.receipts[0] == w'.receipts[..|w.receipts|][0];
    }
  }

  /** A run of `k` turns. */
  ghost predicate AfterTurns(c: Setup, at: Point, k: nat) {
    if Reached(c, at) then Turned(at.v, k) && TurnsShown(c, at.w, k) else false
  }

  lemma NoTurns(c: Setup) returns (at: Point)
    requires ValidSetup(c)
    ensures AfterTurns(c, at, 0)
  {
    at := StartPoint(c);
    StartTurned(c);
  }

  /** The parties can answer each other any number of times. */
  lemma {:induction false} Turns(c: Setup, k: nat) returns (at: Point)
    requires ValidSetup(c)
    ensures AfterTurns(c, at, k)
  {
    if k == 0 {
      at := NoTurns(c);
    } else {
      var before := Turns(c, k - 1);
      at := NextTurn(c, before, k - 1);
    }
  }

  lemma NextTurn(c: Setup, at: Point, k: nat) returns (at': Point)
    requires AfterTurns(c, at, k)
    ensures AfterTurns(c, at', k + 1)
  {
    SpeakerAhead(at.v, k);
    at' := Turn(c, at, Speaker(k));
    TurnedOnce(at.w, at.v, k);
    ShownOnce(c, at.w, at'.w, k);
  }

  lemma StartTurned(c: Setup)
    ensures Turned(View(StartHistory(c), 1, 0, [], []), 0)
  {
  }

  lemma SpeakerAhead(v: View, k: nat)
    requires Turned(v, k)
    ensures Ahead(v, Speaker(k))
  {
  }

  /** The session a replay would destroy is reached: after three turns, replaying the first message at the
      responder's bare session is refused and makes two derivations with the root key. */
  lemma ReplayWouldDestroy(c: Setup) returns (events: seq<Event>)
    requires ValidSetup(c)
    ensures Legal(c, events) && |Run(c, events).net| > 0
    ensures
      var w := Run(c, events);
      var s := SessionOf(c, w, Responder);
      var msg := w.net[0].msg;
      && msg.header.Some? && (s.ckr.Some? ==> s.dhr.Some?)
      && var (s', r) := R.AfterDecrypt(s, msg.header.value, msg.ciphertext, msg.conversationId, Random(w.draws));
         r.Err? && RootDepth(s.rk) == 4 && RootDepth(s'.rk) == 6
  {
    var at := Turns(c, 3);
    events := at.events;
    RawReplayLosesRoot(c, events, Responder, 0);
    OldChain(c, at.w, at.v);
  }

  lemma OldChain(c: Setup, w: World, v: View)
    requires Inv(c, w, v) && Turned(v, 3) && TurnsShown(c, w, 3)
    ensures w.net[0].msg.header.Some?
    ensures
      var header := w.net[0].msg.header.value;
      var s := SessionOf(c, w, Responder);
      RootDepth(s.rk) == 4 && s.dhr != Some(header.dh) && header.pn <= s.nr + MAX_SKIP
  {
    PostIn(c, w, v, 0);
    SessionIn(c, w, v, Responder);
    assert v.slots[0] == (1, 0) && v.responder == 4;
    OldHeader(v.h, SessionOf(c, w, Responder), w.net[0]);
  }

  lemma OldHeader(h: History, s: R.State, post: Post)
    requires Valid(h) && |h.keys| > 4 && SessionAt(h, s, 4) && PostAt(h, post, (1, 0))
    ensures
      var header := post.msg.header.value;
      RootDepth(s.rk) == 4 && s.dhr != Some(header.dh) && header.pn <= s.nr + MAX_SKIP
  {
    DepthIsIndex(h, s, 4);
  }
}

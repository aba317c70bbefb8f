/** Group orchestration: keys travel over 1:1 sessions, controls over the group's topic. */
module GroupManager {
  import opened Wrappers
  import opened Bytes
  import opened X3dh
  import opened MapEnumeration
  import D = DeliveryCodec
  import opened Sessions
  import opened ByteSuite
  import E = Engine
  import G = Group
  import opened Crypto
  import Utf8

  /** What a member keeps: its groups, and keys that arrived ahead of their control. */
  datatype Node = Node(me: Peer, groups: map<Octets, G.State>, pending: map<(Octets, u32), Octets>)

  datatype ManagerError = UnknownGroup | EngineFailure(engine: E.EngineError) | GroupFailure(group: G.GroupError)

  datatype Incoming = GroupKey(groupId: Octets) | Chat(plaintext: Octets)

  // --- receiving ---

  /** Joins the group when it is new; otherwise keeps the key of a later epoch for its control. */
  function AfterAbsorb(n: Node, d: D.Delivery): Node {
    if d.groupId in n.groups then
      if d.epoch > n.groups[d.groupId].keyEpoch then
        n.(pending := n.pending[(d.groupId, d.epoch) := d.key])
      else
        n
    else
      n.(groups := n.groups[d.groupId := G.State(d.groupId, d.name, d.epoch, d.key, d.members)])
  }

  /** A decrypted 1:1 plaintext is a key delivery exactly when it parses as one. */
  function AfterPlaintext(n: Node, plaintext: Octets): (Node, Incoming) {
    match D.Decoded(plaintext)
    case Some(d) => (AfterAbsorb(n, d), GroupKey(d.groupId))
    case None => (n, Chat(plaintext))
  }

  /** A delivered snapshot is absorbed as it was taken, in whatever order it lists the members. */
  lemma DeliveryAbsorbed(n: Node, d: D.Delivery, order: seq<D.Entry>)
    requires D.Sized(d) && Enumerates(order, d.members)
    ensures AfterPlaintext(n, D.Encoded(d, order)) == (AfterAbsorb(n, d), GroupKey(d.groupId))
  {
    D.RoundTrip(d, order, []);
    assert D.Encoded(d, order) + [] == D.Encoded(d, order);
  }

  /** The buffered key is used up by its control, whether or not the control then applies. */
  function AfterControl(n: Node, c: G.Control): (Node, Result<Unit, ManagerError>) {
    if c.action == G.Action.Invite.Code() && c.target == n.me then
      (n, Ok(Unit))
    else if c.groupId !in n.groups then
      (n, Err(UnknownGroup))
    else
      var slot := (c.groupId, c.keyEpoch);
      var key := if slot in n.pending then Some(n.pending[slot]) else None;
      var (g, r) := G.AfterApply(n.groups[c.groupId], c, key);
      (n.(pending := n.pending - {slot}, groups := n.groups[c.groupId := g]),
       match r case Ok(_) => Ok(Unit) case Err(e) => Err(GroupFailure(e)))
  }

  // --- proposing ---

  /** The snapshot a change delivers: the proposer's state after the change. */
  function Snapshot(g: G.State): D.Delivery {
    D.Delivery(g.groupId, g.displayName, g.keyEpoch, g.groupKey, g.members)
  }

  function AfterAddMember(n: Node, gid: Octets, newMember: Peer, key: Octets)
    : (Node, Result<G.Change, ManagerError>)
    requires gid in n.groups ==> n.groups[gid].keyEpoch < U32_MAX
  {
    if gid !in n.groups then
      (n, Err(UnknownGroup))
    else
      Proposed(n, gid, G.AfterAdd(n.groups[gid], n.me, newMember, key))
  }

  function AfterRemoveMember(n: Node, gid: Octets, target: Peer, key: Octets): (Node, Result<G.Change, ManagerError>)
    requires gid in n.groups ==> n.groups[gid].keyEpoch < U32_MAX
  {
    if gid !in n.groups then
      (n, Err(UnknownGroup))
    else
      Proposed(n, gid, G.AfterRemove(n.groups[gid], n.me, target, key))
  }

  /** Leaving; the group is forgotten once the deliveries are out. */
  function AfterLeaveGroup(n: Node, gid: Octets, key: Octets): (Node, Result<G.Change, ManagerError>)
    requires gid in n.groups ==> n.groups[gid].keyEpoch < U32_MAX
  {
    if gid !in n.groups then
      (n, Err(UnknownGroup))
    else
      Proposed(n, gid, G.AfterLeave(n.groups[gid], n.me, key))
  }

  function Forget(n: Node, gid: Octets): Node {
    n.(groups := n.groups - {gid})
  }

  function Proposed(n: Node, gid: Octets, out: (G.State, Result<G.Change, G.GroupError>))
    : (Node, Result<G.Change, ManagerError>)
  {
    (n.(groups := n.groups[gid := out.0]),
     match out.1 case Ok(change) => Ok(change) case Err(e) => Err(GroupFailure(e)))
  }

  // --- the object ---

  type EngineState = E.State<Octets>

  type Wire = E.Wire<Octets, Octets>

  datatype Output = Output(control: G.Control, keyDeliveries: seq<(Peer, Wire)>)

  /** No sending counter is at its end. */
  predicate CanSend(e: EngineState) {
    forall p <- e.sessions :: e.sessions[p].ns < U32_MAX
  }

  /** Every recipient with a session has a chain to send on; a responder has none before it heard
      from the initiator. */
  predicate CanReach(e: EngineState, recipients: set<Peer>) {
    forall p <- recipients | p in e.sessions :: e.sessions[p].cks.Some?
  }

  /** `e'` is `e` with the sessions of `done` advanced by one encryption of `plaintext`. */
  ghost predicate Advanced(
    suite: ByteSuite, e: EngineState, e': EngineState, gid: Octets, plaintext: Octets, done: set<Peer>) {
    && e' == e.(sessions := e'.sessions)
    && e'.sessions.Keys == e.sessions.Keys
    && forall p <- e.sessions ::
         e'.sessions[p]
         == (if p in done then E.AfterEncrypt(suite, e, p, gid, plaintext).0.sessions[p] else e.sessions[p])
  }

  /** `out` holds, for each peer of `done` once, its next message carrying `plaintext`. */
  ghost predicate Carries(
    suite: ByteSuite, e: EngineState, gid: Octets, plaintext: Octets, out: seq<(Peer, Wire)>, done: set<Peer>) {
    && (forall d <- out :: d.0 in done && E.AfterEncrypt(suite, e, d.0, gid, plaintext).1 == Ok(d.1))
    && (forall p <- done :: exists d <- out :: d.0 == p)
    && (forall i, j | 0 <= i < j < |out| :: out[i].0 != out[j].0)
  }

  /** Encrypting for a peer depends on that peer's session only, and fails only without a session
      or without a sending chain. */
  lemma EncryptIsLocal(
    suite: ByteSuite, e: EngineState, e': EngineState, gid: Octets, plaintext: Octets, done: set<Peer>, p: Peer)
    requires Advanced(suite, e, e', gid, plaintext, done) && p !in done
    ensures E.AfterEncrypt(suite, e', p, gid, plaintext).1 == E.AfterEncrypt(suite, e, p, gid, plaintext).1
    ensures
      var (e'', r) := E.AfterEncrypt(suite, e', p, gid, plaintext);
      && (r.Ok? <==> p in e.sessions && e.sessions[p].cks.Some?)
      && (r.Ok? ==> Advanced(suite, e, e'', gid, plaintext, done + {p}))
      && (r == Err(E.NoSession) <==> p !in e.sessions)
      && (r.Err? && r.error != E.NoSession ==> r.error == E.CryptoFailure(Malformed))
      && (r.Err? ==> e'' == e')
  {
  }

  lemma CarriesOneMore(
    suite: ByteSuite, e: EngineState, gid: Octets, plaintext: Octets, out: seq<(Peer, Wire)>, done: set<Peer>,
    p: Peer, wire: Wire)
    requires Carries(suite, e, gid, plaintext, out, done) && p !in done
    requires E.AfterEncrypt(suite, e, p, gid, plaintext).1 == Ok(wire)
    ensures Carries(suite, e, gid, plaintext, out + [(p, wire)], done + {p})
  {
    var out' := out + [(p, wire)];
    assert out'[|out|] == (p, wire);
    forall q | q in done + {p}
      ensures exists d <- out' :: d.0 == q
    {
      if q == p {
        assert (p, wire) in out';
      } else {
        var d :| d in out && d.0 == q;
        assert d in out';
      }
    }
    forall i, j | 0 <= i < j < |out'|
      ensures out'[i].0 != out'[j].0
    {
      assert out'[i] in out;
    }
  }

  /** The bytes of the group's snapshot with the key of the change. */
  ghost predicate IsSnapshot(plaintext: Octets, g: G.State, change: G.Change) {
    change.newKey.Some? && exists order :: Enumerates(order, g.members) && plaintext == D.Encoded(
      D.Delivery(g.groupId, g.displayName, change.control.keyEpoch, change.newKey.value, g.members), order)
  }

  /** What the deliveries of a change are: the snapshot, once to every recipient that has a
      session, and to nobody else. */
  ghost predicate Delivers(
    suite: ByteSuite, e: EngineState, e': EngineState, g: G.State, change: G.Change, plaintext: Octets,
    out: seq<(Peer, Wire)>)
  {
    if change.newKey.None? then
      out == [] && e' == e
    else
      var reached := change.recipients * e.sessions.Keys;
      && IsSnapshot(plaintext, g, change)
      && Carries(suite, e, g.groupId, plaintext, out, reached)
      && Advanced(suite, e, e', g.groupId, plaintext, reached)
  }

  /** What a failed delivery leaves: the sessions of some recipients that can be reached have
      advanced, and nothing else has changed. */
  ghost predicate Stopped(
    suite: ByteSuite, e: EngineState, e': EngineState, gid: Octets, recipients: set<Peer>, plaintext: Octets)
  {
    exists done: set<Peer> ::
      && done < recipients * e.sessions.Keys
      && (forall p <- done :: e.sessions[p].cks.Some?)
      && Advanced(suite, e, e', gid, plaintext, done)
  }

  /** The result of delivering a change, success and failure: it fails exactly when some recipient
      with a session has no sending chain. */
  ghost predicate Delivered(
    suite: ByteSuite, e: EngineState, e': EngineState, g: G.State, change: G.Change, plaintext: Octets,
    r: Result<Output, ManagerError>)
  {
    && (r.Ok? <==> change.newKey.None? || CanReach(e, change.recipients))
    && match r
       case Ok(out) => out.control == change.control && Delivers(suite, e, e', g, change, plaintext, out.keyDeliveries)
       case Err(error) =>
         && error == EngineFailure(E.CryptoFailure(Malformed))
         && IsSnapshot(plaintext, g, change)
         && Stopped(suite, e, e', g.groupId, change.recipients, plaintext)
  }

  lemma ReachOne(recipients: set<Peer>, todo: set<Peer>, sessions: set<Peer>, p: Peer, done: set<Peer>)
    requires todo <= recipients && p in todo && done == (recipients - todo) * sessions
    ensures p !in done
    ensures (if p in sessions then done + {p} else done) == (recipients - (todo - {p})) * sessions
    ensures p in sessions ==> done < recipients * sessions
  {
    assert p in sessions ==> p in recipients * sessions;
  }

  class GroupManager {
    const engine: E.Engine
    const myPeer: Peer
    var groups: map<Octets, G.State>
    var pending: map<(Octets, u32), Octets>

    function Value(): Node
      reads this
    {
      Node(myPeer, groups, pending)
    }

    /** Every group is filed under its own id. */
    predicate Valid()
      reads this
    {
      forall gid <- groups :: groups[gid].groupId == gid
    }

    /** The engine can send. */
    ghost predicate Ready()
      reads this, engine, engine.backend
    {
      engine.Valid() && CanSend(engine.Value())
    }

    constructor (engine: E.Engine, myPeer: Peer)
      ensures Valid() && Value() == Node(myPeer, map[], map[]) && this.engine == engine
    {
      this.engine := engine;
      this.myPeer := myPeer;
      groups := map[];
      pending := map[];
    }

    method CreateGroup(gid: Octets, name: Utf8.Text, key: Octets)
      requires Valid()
      modifies this
      ensures Valid()
      ensures Value() == old(Value()).(groups := old(groups)[gid := G.Create(gid, myPeer, name, key)])
    {
      var g := new G.GroupState(gid, myPeer, name, key);
      groups := groups[gid := g.Value()];
    }

    method AddMember(gid: Octets, newMember: Peer, key: Octets)
      returns (r: Result<Output, ManagerError>, ghost plaintext: Octets)
      requires Valid() && Ready()
      requires gid in groups ==> groups[gid].keyEpoch < U32_MAX
      modifies this, engine, engine.backend
      ensures Valid() && engine.Valid()
      ensures
        var (n, change) := AfterAddMember(old(Value()), gid, newMember, key);
        && Value() == n
        && (change.Err? ==> r == Err(change.error) && engine.Value() == old(engine.Value()))
        && (change.Ok? ==>
              Delivered(engine.p, old(engine.Value()), engine.Value(), n.groups[gid], change.value, plaintext, r))
    {
      if gid !in groups {
        r, plaintext := Err(UnknownGroup), [];
        return;
      }
      var g := new G.GroupState.Join(groups[gid]);
      var change := g.ProposeAdd(myPeer, newMember, key);
      groups := groups[gid := g.Value()];
      if change.Err? {
        r, plaintext := Err(GroupFailure(change.error)), [];
        return;
      }
      r, plaintext := Deliver(gid, change.value);
    }

    method RemoveMember(gid: Octets, target: Peer, key: Octets)
      returns (r: Result<Output, ManagerError>, ghost plaintext: Octets)
      requires Valid() && Ready()
      requires gid in groups ==> groups[gid].keyEpoch < U32_MAX
      modifies this, engine, engine.backend
      ensures Valid() && engine.Valid()
      ensures
        var (n, change) := AfterRemoveMember(old(Value()), gid, target, key);
        && Value() == n
        && (change.Err? ==> r == Err(change.error) && engine.Value() == old(engine.Value()))
        && (change.Ok? ==>
              Delivered(engine.p, old(engine.Value()), engine.Value(), n.groups[gid], change.value, plaintext, r))
    {
      if gid !in groups {
        r, plaintext := Err(UnknownGroup), [];
        return;
      }
      var g := new G.GroupState.Join(groups[gid]);
      var change := g.ProposeRemove(myPeer, target, key);
      groups := groups[gid := g.Value()];
      if change.Err? {
        r, plaintext := Err(GroupFailure(change.error)), [];
        return;
      }
      r, plaintext := Deliver(gid, change.value);
    }

    /** When a delivery fails the group stays, already left; otherwise it is forgotten. */
    method LeaveGroup(gid: Octets, key: Octets)
      returns (r: Result<Output, ManagerError>, ghost plaintext: Octets)
      requires Valid() && Ready()
      requires gid in groups ==> groups[gid].keyEpoch < U32_MAX
      modifies this, engine, engine.backend
      ensures Valid() && engine.Valid()
      ensures
        var (n, change) := AfterLeaveGroup(old(Value()), gid, key);
        && Value() == (if r.Ok? then Forget(n, gid) else n)
        && (change.Err? ==> r == Err(change.error) && engine.Value() == old(engine.Value()))
        && (change.Ok? ==>
              Delivered(engine.p, old(engine.Value()), engine.Value(), n.groups[gid], change.value, plaintext, r))
    {
      if gid !in groups {
        r, plaintext := Err(UnknownGroup), [];
        return;
      }
      var g := new G.GroupState.Join(groups[gid]);
      var change := g.ProposeLeave(myPeer, key);
      groups := groups[gid := g.Value()];
      if change.Err? {
        r, plaintext := Err(GroupFailure(change.error)), [];
        return;
      }
      r, plaintext := Deliver(gid, change.value);
      if r.Ok? {
        groups := groups - {gid};
      }
    }

    /** The snapshot of a rotating change goes to each recipient over its own session. */
    method Deliver(gid: Octets, change: G.Change) returns (r: Result<Output, ManagerError>, ghost plaintext: Octets)
      requires Valid() && gid in groups && Ready()
      modifies engine, engine.backend
      ensures engine.Valid()
      ensures Delivered(engine.p, old(engine.Value()), engine.Value(), groups[gid], change, plaintext, r)
    {
      plaintext := [];
      if change.newKey.None? {
        return Ok(Output(change.control, [])), plaintext;
      }
      var g := groups[gid];
      var snapshot := D.Encode(
        D.Delivery(gid, g.displayName, change.control.keyEpoch, change.newKey.value, g.members));
      plaintext := snapshot;
      assert IsSnapshot(plaintext, g, change);
      var sent := EncryptForEach(gid, snapshot, change.recipients);
      if sent.Err? {
        return Err(sent.error), plaintext;
      }
      r := Ok(Output(change.control, sent.value));
    }

    /** A recipient without a session is skipped; any other failure stops. */
    method EncryptForEach(gid: Octets, snapshot: Octets, recipients: set<Peer>)
      returns (r: Result<seq<(Peer, Wire)>, ManagerError>)
      requires Ready()
      modifies engine, engine.backend
      ensures engine.Valid()
      ensures r.Ok? <==> CanReach(old(engine.Value()), recipients)
      ensures r.Ok? ==>
        var reached := recipients * old(engine.Value()).sessions.Keys;
        && Carries(engine.p, old(engine.Value()), gid, snapshot, r.value, reached)
        && Advanced(engine.p, old(engine.Value()), engine.Value(), gid, snapshot, reached)
      ensures r.Err? ==>
        && r.error == EngineFailure(E.CryptoFailure(Malformed))
        && Stopped(engine.p, old(engine.Value()), engine.Value(), gid, recipients, snapshot)
    {
      var keyDeliveries: seq<(Peer, Wire)> := [];
      ghost var e := engine.Value();
      var todo := recipients;
      ghost var done: set<Peer> := {};
      while todo != {}
        invariant engine.Valid()
        invariant todo <= recipients && done == (recipients - todo) * e.sessions.Keys
        invariant CanReach(e, done)
        invariant Advanced(engine.p, e, engine.Value(), gid, snapshot, done)
        invariant Carries(engine.p, e, gid, snapshot, keyDeliveries, done)
      {
        var p :| p in todo;
        ReachOne(recipients, todo, e.sessions.Keys, p, done);
        var wire := EncryptFor(p, gid, snapshot, e, done, keyDeliveries);
        if wire.Ok? {
          keyDeliveries := keyDeliveries + [(p, wire.value)];
          done := done + {p};
        } else if wire.error != E.NoSession {
          return Err(EngineFailure(wire.error));
        }
        todo := todo - {p};
      }
      r := Ok(keyDeliveries);
    }

    /** One more recipient of the same snapshot. */
    method EncryptFor(
      p: Peer, gid: Octets, snapshot: Octets, ghost e: EngineState, ghost done: set<Peer>, ghost out: seq<(Peer, Wire)>)
      returns (r: Result<Wire, E.EngineError>)
      requires engine.Valid() && CanSend(e) && p !in done
      requires Advanced(engine.p, e, engine.Value(), gid, snapshot, done)
      requires Carries(engine.p, e, gid, snapshot, out, done)
      modifies engine, engine.backend
      ensures engine.Valid()
      ensures r.Ok? <==> p in e.sessions && e.sessions[p].cks.Some?
      ensures r == Err(E.NoSession) <==> p !in e.sessions
      ensures r.Err? && r.error != E.NoSession ==> r.error == E.CryptoFailure(Malformed)
      ensures
        var done' := if r.Ok? then done + {p} else done;
        Advanced(engine.p, e, engine.Value(), gid, snapshot, done')
      ensures r.Ok? ==> Carries(engine.p, e, gid, snapshot, out + [(p, r.value)], done + {p})
    {
      EncryptIsLocal(engine.p, e, engine.Value(), gid, snapshot, done, p);
      r := engine.Encrypt(p, gid, snapshot);
      if r.Ok? {
        CarriesOneMore(engine.p, e, gid, snapshot, out, done, p, r.value);
      }
    }

    method HandleControl(c: G.Control) returns (r: Result<Unit, ManagerError>)
      requires Valid()
      modifies this`groups, this`pending
      ensures Valid()
      ensures (Value(), r) == AfterControl(old(Value()), c)
    {
      if c.action == G.Action.Invite.Code() && c.target == myPeer {
        return Ok(Unit);
      }
      if c.groupId !in groups {
        return Err(UnknownGroup);
      }
      var slot := (c.groupId, c.keyEpoch);
      var key := if slot in pending then Some(pending[slot]) else None;
      pending := pending - {slot};
      var g := new G.GroupState.Join(groups[c.groupId]);
      var applied := g.Apply(c, key);
      groups := groups[c.groupId := g.Value()];
      if applied.Err? {
        return Err(GroupFailure(applied.error));
      }
      r := Ok(Unit);
    }

    method AbsorbDelivery(d: D.Delivery) returns (gid: Octets)
      requires Valid()
      modifies this`groups, this`pending
      ensures Valid()
      ensures gid == d.groupId && Value() == AfterAbsorb(old(Value()), d)
    {
      if d.groupId in groups {
        if d.epoch > groups[d.groupId].keyEpoch {
          pending := pending[(d.groupId, d.epoch) := d.key];
        }
      } else {
        var g := new G.GroupState.Join(G.State(d.groupId, d.name, d.epoch, d.key, d.members));
        groups := groups[d.groupId := g.Value()];
      }
      gid := d.groupId;
    }

    /** Decrypts exactly once, then decides what the plaintext was. */
    method Handle1to1(peer: Peer, wire: Wire, seed: Octets) returns (r: Result<Incoming, ManagerError>)
      requires Valid() && engine.Valid() && E.WellFormed(engine.Value()) && |seed| == 32
      requires peer in engine.Value().sessions ==> Roomy(engine.Value().sessions[peer])
      requires wire.Encoded? && wire.msg.header.Some? ==> |wire.msg.header.value.dh| == 32
      modifies this`groups, this`pending, engine, engine.backend
      ensures Valid() && engine.Valid()
      ensures
        var (e, out) := E.AfterDecrypt(engine.p, old(engine.Value()), peer, wire, seed);
        && engine.Value() == e
        && match out
           case Err(error) => r == Err(EngineFailure(error)) && Value() == old(Value())
           case Ok(plaintext) => r.Ok? && (Value(), r.value) == AfterPlaintext(old(Value()), plaintext)
    {
      var plaintext := engine.Decrypt(peer, wire, seed);
      if plaintext.Err? {
        return Err(EngineFailure(plaintext.error));
      }
      var d := D.Decode(plaintext.value);
      if d.Some? {
        var gid := AbsorbDelivery(d.value);
        return Ok(GroupKey(gid));
      }
      r := Ok(Chat(plaintext.value));
    }
  }
}

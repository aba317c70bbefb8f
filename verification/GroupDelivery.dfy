/** From a manager's proposal to the state of the members it reaches: what is sealed for them, and what they make
    of it. */
module GroupDelivery {
  import opened Wrappers
  import opened Bytes
  import opened X3dh
  import opened MapEnumeration
  import opened ByteSuite
  import opened GroupManager
  import D = DeliveryCodec
  import G = Group

  /** A change of membership as its proposer made it of `g`: the proposer is at `g'`, with a new key. */
  ghost predicate Rotated(g: G.State, g': G.State, change: G.Change, key: Octets) {
    && G.Reproduces(g, (g', Ok(change)))
    && g'.groupId == g.groupId == change.control.groupId
    && g'.keyEpoch == change.control.keyEpoch == g.keyEpoch + 1
    && change.newKey == Some(key) && g'.groupKey == key
  }

  /** What the manager's proposals make, and whom they address. */
  lemma ProposalsRotate(n: Node, gid: Octets, who: Peer, key: Octets)
    requires gid in n.groups && n.groups[gid].keyEpoch < U32_MAX && |n.me| == 32
    ensures
      var g, (n', r) := n.groups[gid], AfterAddMember(n, gid, who, key);
      && gid in n'.groups
      && (r.Ok? ==>
            && Rotated(g, n'.groups[gid], r.value, key)
            && r.value.recipients == n'.groups[gid].members.Keys - {n.me}
            && n'.groups[gid].members.Keys == g.members.Keys + {who})
    ensures
      var g, (n', r) := n.groups[gid], AfterRemoveMember(n, gid, who, key);
      && gid in n'.groups
      && (r.Ok? ==>
            && Rotated(g, n'.groups[gid], r.value, key)
            && r.value.recipients == n'.groups[gid].members.Keys - {n.me}
            && n'.groups[gid].members.Keys == g.members.Keys - {who})
    ensures
      var g, (n', r) := n.groups[gid], AfterLeaveGroup(n, gid, key);
      && gid in n'.groups
      && (r.Ok? ==>
            && Rotated(g, n'.groups[gid], r.value, key)
            && r.value.recipients == n'.groups[gid].members.Keys == g.members.Keys - {n.me})
  {
    var g := n.groups[gid];
    G.AddReproduced(g, n.me, who, key);
    G.RemoveReproduced(g, n.me, who, key);
    G.LeaveReproduced(g, n.me, key);
  }

  /** The snapshot a manager seals is absorbed as the proposer's state after the change. */
  lemma SnapshotIsAbsorbed(g: G.State, g': G.State, change: G.Change, key: Octets, plaintext: Octets, m: Node)
    requires Rotated(g, g', change, key) && IsSnapshot(plaintext, g', change) && D.Sized(Snapshot(g'))
    ensures AfterPlaintext(m, plaintext) == (AfterAbsorb(m, Snapshot(g')), GroupKey(g.groupId))
  {
    var order :| Enumerates(order, g'.members) && plaintext == D.Encoded(
      D.Delivery(g'.groupId, g'.displayName, change.control.keyEpoch, change.newKey.value, g'.members), order);
    DeliveryAbsorbed(m, Snapshot(g'), order);
  }

  /** A node without the group that receives the snapshot holds the proposer's state. */
  lemma ReachesNewcomers(g: G.State, g': G.State, change: G.Change, key: Octets, plaintext: Octets, m: Node)
    requires Rotated(g, g', change, key) && IsSnapshot(plaintext, g', change) && D.Sized(Snapshot(g'))
    requires g.groupId !in m.groups
    ensures AfterPlaintext(m, plaintext).0 == m.(groups := m.groups[g.groupId := g'])
  {
    SnapshotIsAbsorbed(g, g', change, key, plaintext, m);
  }

  /** A member that held the proposer's old state holds the new one after the snapshot and the control, and no key
      of that epoch is left waiting. */
  lemma ReachesMembers(g: G.State, g': G.State, change: G.Change, key: Octets, plaintext: Octets, m: Node)
    requires Rotated(g, g', change, key) && IsSnapshot(plaintext, g', change) && D.Sized(Snapshot(g'))
    requires g.groupId in m.groups && m.groups[g.groupId] == g
    requires !(change.control.action == 0 && change.control.target == m.me)
    ensures
      var (m', r) := AfterControl(AfterPlaintext(m, plaintext).0, change.control);
      && r == Ok(Unit) && m'.me == m.me && m'.groups == m.groups[g.groupId := g']
      && m'.pending == m.pending - {(g.groupId, g'.keyEpoch)}
  {
    var slot := (g.groupId, g'.keyEpoch);
    SnapshotIsAbsorbed(g, g', change, key, plaintext, m);
    var m1 := AfterAbsorb(m, Snapshot(g'));
    assert m1 == m.(pending := m.pending[slot := key]);
    AppliesWithKey(m1, g, g', change, key);
    assert m1.pending - {slot} == m.pending - {slot};
  }

  lemma AppliesWithKey(m: Node, g: G.State, g': G.State, change: G.Change, key: Octets)
    requires Rotated(g, g', change, key)
    requires g.groupId in m.groups && m.groups[g.groupId] == g
    requires (g.groupId, g'.keyEpoch) in m.pending && m.pending[(g.groupId, g'.keyEpoch)] == key
    requires !(change.control.action == 0 && change.control.target == m.me)
    ensures AfterControl(m, change.control) ==
      (m.(pending := m.pending - {(g.groupId, g'.keyEpoch)}, groups := m.groups[g.groupId := g']), Ok(Unit))
  {
    assert G.AfterApply(g, change.control, Some(key)) == (g', Ok(Unit));
  }

  /** One who left holds the group no more, and keeps everything else. */
  lemma LeaverForgets(n: Node, gid: Octets, key: Octets)
    requires gid in n.groups ==> n.groups[gid].keyEpoch < U32_MAX
    ensures
      var away := Forget(AfterLeaveGroup(n, gid, key).0, gid);
      away == Node(n.me, n.groups - {gid}, n.pending) && gid !in away.groups
  {
    var left := AfterLeaveGroup(n, gid, key).0;
    assert left.groups - {gid} == n.groups - {gid};
  }

  /** So it can be invited back: the snapshot of a later change is joined as it is. */
  lemma LeaverCanReturn(
    n: Node, left: Octets, g: G.State, g': G.State, change: G.Change, key: Octets, plaintext: Octets)
    requires g.groupId in n.groups && n.groups[g.groupId].keyEpoch < U32_MAX
    requires Rotated(g, g', change, key) && IsSnapshot(plaintext, g', change) && D.Sized(Snapshot(g'))
    ensures
      AfterPlaintext(Forget(AfterLeaveGroup(n, g.groupId, left).0, g.groupId), plaintext).0
      == Node(n.me, n.groups[g.groupId := g'], n.pending)
  {
    LeaverForgets(n, g.groupId, left);
    var away := Node(n.me, n.groups - {g.groupId}, n.pending);
    ReachesNewcomers(g, g', change, key, plaintext, away);
    assert (n.groups - {g.groupId})[g.groupId := g'] == n.groups[g.groupId := g'];
  }

  /** What is sealed, and for whom: one message in the group's name for each recipient with a session, and for
      nobody else. */
  lemma DeliveriesSay(
    suite: ByteSuite, e: EngineState, e': EngineState, g: G.State, change: G.Change, plaintext: Octets,
    out: seq<(Peer, Wire)>, p: Peer)
    requires Delivers(suite, e, e', g, change, plaintext, out) && change.newKey.Some?
    ensures (exists d :: d in out && d.0 == p) <==> p in change.recipients && p in e.sessions
    ensures forall d <- out ::
      && d.1.Encoded? && d.1.msg.senderId == e.identity.peer && d.1.msg.conversationId == g.groupId
      && d.1.msg.header.Some?
    ensures forall i, j :: 0 <= i < j < |out| ==> out[i].0 != out[j].0
  {
    var reached := change.recipients * e.sessions.Keys;
    assert Carries(suite, e, g.groupId, plaintext, out, reached);
    if p in reached {
      var d :| d in out && d.0 == p;
    }
  }
}

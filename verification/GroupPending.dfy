/** What a manager leaves alone: its other groups, and keys that wait for their control. */
module GroupPending {
  import opened Wrappers
  import opened Bytes
  import opened X3dh
  import opened GroupManager
  import opened GroupReplication
  import opened GroupTheorems
  import D = DeliveryCodec
  import G = Group

  // --- other groups ---

  /** The part of a node that other groups than `gid` make up. */
  function Elsewhere(n: Node, gid: Octets): Node {
    Node(n.me, n.groups - {gid}, map slot <- n.pending | slot.0 != gid :: n.pending[slot])
  }

  /** Absorbing a delivery touches its own group only, and of the keys kept at most its own. */
  lemma AbsorbIsLocal(n: Node, d: D.Delivery)
    ensures
      var n' := AfterAbsorb(n, d);
      && Elsewhere(n', d.groupId) == Elsewhere(n, d.groupId)
      && n'.pending - {(d.groupId, d.epoch)} == n.pending - {(d.groupId, d.epoch)}
      && d.groupId in n'.groups
      && (d.groupId in n.groups ==>
            && n'.groups == n.groups
            && (d.epoch > n.groups[d.groupId].keyEpoch ==>
                  (d.groupId, d.epoch) in n'.pending && n'.pending[(d.groupId, d.epoch)] == d.key)
            && (d.epoch <= n.groups[d.groupId].keyEpoch ==> n' == n))
      && (d.groupId !in n.groups ==>
            && n'.pending == n.pending
            && n'.groups[d.groupId] == G.State(d.groupId, d.name, d.epoch, d.key, d.members))
  {
    var n' := AfterAbsorb(n, d);
    assert n'.groups - {d.groupId} == n.groups - {d.groupId};
    assert n'.pending - {(d.groupId, d.epoch)} == n.pending - {(d.groupId, d.epoch)};
    assert Elsewhere(n', d.groupId).pending == Elsewhere(n, d.groupId).pending;
  }

  /** Handling a control touches its own group only, and uses up the key of its own epoch only. */
  lemma ControlIsLocal(n: Node, c: G.Control)
    ensures
      var n' := AfterControl(n, c).0;
      && Elsewhere(n', c.groupId) == Elsewhere(n, c.groupId)
      && n'.pending - {(c.groupId, c.keyEpoch)} == n.pending - {(c.groupId, c.keyEpoch)}
      && n'.groups.Keys == n.groups.Keys
  {
    var n' := AfterControl(n, c).0;
    assert n'.groups - {c.groupId} == n.groups - {c.groupId};
    assert n'.pending - {(c.groupId, c.keyEpoch)} == n.pending - {(c.groupId, c.keyEpoch)};
    assert Elsewhere(n', c.groupId).pending == Elsewhere(n, c.groupId).pending;
  }

  /** What becomes of a control: one's own invitation is passed over, a group not held is an error, and otherwise the
      key that waited for it, if any, is applied with it and gone, even when the control is refused. */
  lemma ControlUsesItsKey(n: Node, c: G.Control)
    ensures
      var (n', r) := AfterControl(n, c);
      var slot := (c.groupId, c.keyEpoch);
      if c.action == 0 && c.target == n.me then
        n' == n && r == Ok(Unit)
      else if c.groupId !in n.groups then
        n' == n && r == Err(UnknownGroup)
      else
        var (g', applied) :=
          G.AfterApply(n.groups[c.groupId], c, if slot in n.pending then Some(n.pending[slot]) else None);
        && slot !in n'.pending
        && n'.groups[c.groupId] == g'
        && (r.Ok? <==> applied.Ok?)
        && (r.Err? ==> r.error == GroupFailure(applied.error))
  {
  }

  /** Proposing touches the group it names only, and no key that is kept. */
  lemma ProposalsAreLocal(n: Node, gid: Octets, who: Peer, key: Octets)
    requires gid in n.groups ==> n.groups[gid].keyEpoch < U32_MAX
    ensures
      var add, remove, leave := AfterAddMember(n, gid, who, key).0, AfterRemoveMember(n, gid, who, key).0, AfterLeaveGroup(n, gid, key).0;
      && Elsewhere(add, gid) == Elsewhere(remove, gid) == Elsewhere(leave, gid) == Elsewhere(Forget(leave, gid), gid)
         == Elsewhere(n, gid)
      && add.pending == remove.pending == leave.pending == n.pending
  {
    var add, remove, leave := AfterAddMember(n, gid, who, key).0, AfterRemoveMember(n, gid, who, key).0, AfterLeaveGroup(n, gid, key).0;
    assert add.groups - {gid} == n.groups - {gid};
    assert remove.groups - {gid} == n.groups - {gid};
    assert leave.groups - {gid} == n.groups - {gid};
    assert leave.groups - {gid} - {gid} == n.groups - {gid};
  }

  /** The proposals of the replicated system are those of the manager. */
  lemma ProposedThroughManager(s: System, actor: Peer, proposal: Proposal)
    requires Inv(s) && Enabled(s, Propose(actor, proposal))
    requires proposal.Add? || proposal.RemoveMember? || proposal.Leave?
    ensures
      var n := s.nodes[actor];
      var (n', r) := match proposal
        case Add(newMember, key) => AfterAddMember(n, s.Gid(), newMember, key)
        case RemoveMember(target, key) => AfterRemoveMember(n, s.Gid(), target, key)
        case Leave(key) => AfterLeaveGroup(n, s.Gid(), key)
        case _ => (n, Err(UnknownGroup));
      var s' := Step(s, Propose(actor, proposal));
      match r
      case Ok(change) =>
        && s'.log == s.log + [Published(actor, proposal, change, n'.groups[s.Gid()])]
        && s'.nodes == s.nodes[actor := if proposal.Leave? then Forget(n', s.Gid()) else n']
      case Err(_) => s' == s
  {
    assert KeysEntitled(s, actor);
  }

  // --- keys that run ahead ---

  function SlotOf(s: System, t: nat): (Octets, u32)
    requires t < |s.log|
  {
    (s.Gid(), s.log[t].change.control.keyEpoch)
  }

  /** Over the events, `p` stays in step and does not get past change `t`. */
  ghost predicate Waits(s: System, events: seq<Event>, p: Peer, t: nat)
    decreases |events|
  {
    && p in s.nodes && p in s.inStep && s.inStep[p] <= t < |s.log|
    && (events != [] ==> Enabled(s, events[0]) && Waits(Step(s, events[0]), events[1..], p, t))
  }

  /** A delivered key of a change to come is kept, however far ahead of its control it runs. */
  lemma KeyComesAhead(s: System, s': System, p: Peer, t: nat, order: seq<D.Entry>)
    requires Inv(s) && p in s.inStep && s.inStep[p] <= t
    requires Enabled(s, DeliverKey(p, t, order)) && s' == Step(s, DeliverKey(p, t, order))
    ensures p in s'.nodes && s'.log == s.log && s'.first == s.first && SlotOf(s, t) in s'.nodes[p].pending
  {
    DeliverKeyEffect(s, p, t, order);
    HoldsEarlier(s, p, t);
    AbsorbIsLocal(s.nodes[p], Snapshot(s.log[t].after));
  }

  /** A node in step before change `t` holds the group at an earlier epoch than a rotation there installs. */
  lemma HoldsEarlier(s: System, p: Peer, t: nat)
    requires Inv(s) && p in s.inStep && s.inStep[p] <= t < |s.log| && s.log[t].Rotates()
    ensures s.Holds(p) && s.GroupOf(p).keyEpoch < s.log[t].after.keyEpoch
    ensures s.log[t].after.groupId == s.Gid() && s.log[t].change.control.keyEpoch == s.log[t].after.keyEpoch
  {
    assert Replica(s, p) && Link(s, t);
    SameGroupId(s, t);
    EpochsRise(s, s.inStep[p], t + 1);
  }

  /** Nothing that keeps `p` in step and before change `t` takes the waiting key away. */
  lemma KeyWaitsOnce(s: System, s': System, ev: Event, p: Peer, t: nat)
    requires Inv(s) && Enabled(s, ev) && s' == Step(s, ev)
    requires p in s.nodes && p in s.inStep && s.inStep[p] <= t < |s.log|
    requires p in s'.inStep && s'.inStep[p] <= t
    requires s.log[t].Rotates() && SlotOf(s, t) in s.nodes[p].pending
    ensures p in s'.nodes && t < |s'.log| && s'.log[t] == s.log[t] && s'.Gid() == s.Gid()
    ensures SlotOf(s, t) in s'.nodes[p].pending
  {
    match ev
    case Propose(actor, proposal) =>
    case DeliverKey(to, u, order) => WaitsUnderKey(s, s', to, u, order, p, t);
    case DeliverControl(to, u) => WaitsUnderControl(s, s', to, u, p, t);
  }

  lemma WaitsUnderKey(s: System, s': System, to: Peer, u: nat, order: seq<D.Entry>, p: Peer, t: nat)
    requires Inv(s) && Enabled(s, DeliverKey(to, u, order)) && s' == Step(s, DeliverKey(to, u, order))
    requires p in s.nodes && t < |s.log| && SlotOf(s, t) in s.nodes[p].pending
    ensures p in s'.nodes && s'.log == s.log && s'.first == s.first
    ensures SlotOf(s, t) in s'.nodes[p].pending
  {
    DeliverKeyEffect(s, to, u, order);
    if to == p {
      AbsorbKeeps(s.nodes[p], Snapshot(s.log[u].after), SlotOf(s, t));
    }
  }

  lemma WaitsUnderControl(s: System, s': System, to: Peer, u: nat, p: Peer, t: nat)
    requires Inv(s) && Enabled(s, DeliverControl(to, u)) && s' == Step(s, DeliverControl(to, u))
    requires p in s.nodes && p in s.inStep && s.inStep[p] <= t < |s.log|
    requires p in s'.inStep && s'.inStep[p] <= t
    requires s.log[t].Rotates() && SlotOf(s, t) in s.nodes[p].pending
    ensures p in s'.nodes && s'.log == s.log && s'.first == s.first
    ensures SlotOf(s, t) in s'.nodes[p].pending
  {
    if to == p {
      assert InOrder(s, p, u) && u < t;
      var c := s.log[u].change.control;
      EarlierSlot(s, u, t);
      ControlIsLocal(s.nodes[p], c);
      OtherSlotStays(s.nodes[p].pending, s'.nodes[p].pending, (c.groupId, c.keyEpoch), SlotOf(s, t));
    }
  }

  lemma EarlierSlot(s: System, u: nat, t: nat)
    requires Linked(s) && u < t < |s.log| && s.log[t].Rotates()
    ensures s.log[u].change.control.keyEpoch < s.log[t].change.control.keyEpoch
  {
    assert Link(s, u) && Link(s, t);
    EpochsRise(s, u + 1, t + 1);
  }

  lemma AbsorbKeeps(n: Node, d: D.Delivery, slot: (Octets, u32))
    requires slot in n.pending
    ensures slot in AfterAbsorb(n, d).pending
  {
  }

  lemma OtherSlotStays(m: map<(Octets, u32), Octets>, m': map<(Octets, u32), Octets>, used: (Octets, u32), slot: (Octets, u32))
    requires m' - {used} == m - {used} && slot != used && slot in m
    ensures slot in m'
  {
    assert slot in m - {used};
  }

  /** Deliveries may run ahead and come in any order: once delivered, the key of a change waits for its control,
      whatever else reaches the node, and is then the key the change installs. */
  lemma {:induction false} KeyWaits(s: System, events: seq<Event>, p: Peer, t: nat)
    requires Inv(s) && Waits(s, events, p, t)
    requires s.log[t].Rotates() && SlotOf(s, t) in s.nodes[p].pending
    ensures Legal(s, events)
    ensures
      var w := Run(s, events);
      && p in w.nodes && t < |w.log| && w.log[t] == s.log[t] && SlotOf(w, t) in w.nodes[p].pending
      && Some(w.nodes[p].pending[SlotOf(w, t)]) == w.log[t].change.newKey
    decreases |events|
  {
    if events == [] {
      KeptKeyIsRight(s, p, t);
    } else {
      var s' := Step(s, events[0]);
      StepInv(s, events[0]);
      KeyWaitsOnce(s, s', events[0], p, t);
      KeyWaits(s', events[1..], p, t);
    }
  }

  /** So a control that comes in order after its key, with anything in between, brings the replica to the next
      state. */
  lemma AheadConverges(s: System, s1: System, w: System, events: seq<Event>, p: Peer, t: nat, order: seq<D.Entry>)
    requires Inv(s) && p in s.inStep && s.inStep[p] <= t
    requires Enabled(s, DeliverKey(p, t, order)) && s1 == Step(s, DeliverKey(p, t, order))
    requires Waits(s1, events, p, t) && Legal(s1, events) && w == Run(s1, events)
    requires p in w.inStep && w.inStep[p] == t
    ensures p in w.nodes && t < |w.log| && w.log[t] == s.log[t]
    ensures
      var (n, r) := AfterControl(w.nodes[p], w.log[t].change.control);
      r == Ok(Unit) && w.Gid() in n.groups && n.groups[w.Gid()] == w.Canon(t + 1)
  {
    KeyComesAhead(s, s1, p, t, order);
    StepInv(s, DeliverKey(p, t, order));
    KeyWaits(s1, events, p, t);
    RunInv(s1, events);
    InOrderConverges(w, p, t);
  }
}

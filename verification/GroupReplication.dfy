/**
 The group as a replicated state machine.

 Changes are published one at a time, each by a member that has incorporated every earlier one.
 Keys travel separately: the delivery of a change may reach a recipient early, late, more than
 once, in any order, or never.  Controls reach any node in any order, any number of times.  A
 node is in step while it handles each control once, in order, and with its key at hand; a node
 that does anything else drops out of step, and nothing but key knowledge is claimed of it.
 */
module GroupReplication {
  import opened Wrappers
  import opened Bytes
  import opened X3dh
  import opened GroupManager
  import opened MapEnumeration
  import D = DeliveryCodec
  import G = Group
  import Utf8

  /** A published change: who asked for what, what was sent, and the proposer's state after it. */
  datatype Published = Published(actor: Peer, proposal: Proposal, change: G.Change, after: G.State) {
    predicate Rotates() {
      change.newKey.Some?
    }
  }

  /** `inStep[p]` is the number of changes node `p` has incorporated. */
  datatype System = System(
    creator: Peer, first: G.State, log: seq<Published>, nodes: map<Peer, Node>, inStep: map<Peer, nat>)
  {
    function Gid(): Octets {
      first.groupId
    }

    /** The group after the first `t` changes. */
    function Canon(t: nat): G.State
      requires t <= |log|
    {
      if t == 0 then first else log[t - 1].after
    }

    function Now(): G.State {
      Canon(|log|)
    }

    predicate Holds(p: Peer) {
      p in nodes && Gid() in nodes[p].groups
    }

    function GroupOf(p: Peer): G.State
      requires Holds(p)
    {
      nodes[p].groups[Gid()]
    }

    predicate UpToDate(p: Peer) {
      p in inStep && inStep[p] == |log| && Holds(p)
    }
  }

  datatype Proposal =
    | Add(newMember: Peer, addKey: Octets)
    | RemoveMember(target: Peer, removeKey: Octets)
    | Leave(leaveKey: Octets)
    | SetAdmin(member: Peer, value: bool)
    | Rename(name: Utf8.Text)

  datatype Event =
    | Propose(actor: Peer, proposal: Proposal)
    | DeliverKey(to: Peer, t: nat, order: seq<D.Entry>)
    | DeliverControl(to: Peer, t: nat)

  /** The proposer's own transition, through its `GroupState`. */
  function AfterProposal(g: G.State, actor: Peer, proposal: Proposal): (G.State, Result<G.Change, G.GroupError>)
    requires g.keyEpoch < U32_MAX
  {
    match proposal
    case Add(newMember, key) => G.AfterAdd(g, actor, newMember, key)
    case RemoveMember(target, key) => G.AfterRemove(g, actor, target, key)
    case Leave(key) => G.AfterLeave(g, actor, key)
    case SetAdmin(member, value) => G.AfterSetAdmin(g, actor, member, value)
    case Rename(name) => G.AfterRename(g, actor, name)
  }

  /** What can happen: a proposal by an up-to-date node that adds nobody already in the group, a
      key delivery to one of its recipients, any control to any node. */
  predicate Enabled(s: System, ev: Event) {
    match ev
    case Propose(actor, proposal) =>
      && s.UpToDate(actor)
      && |actor| == 32
      && s.GroupOf(actor).keyEpoch < U32_MAX
      && (proposal.Add? ==> proposal.newMember !in s.GroupOf(actor).members)
    case DeliverKey(to, t, order) =>
      && to in s.nodes
      && t < |s.log|
      && s.log[t].Rotates()
      && to in s.log[t].change.recipients
      && D.Sized(Snapshot(s.log[t].after))
      && Enumerates(order, s.log[t].after.members)
    case DeliverControl(to, t) =>
      to in s.nodes && t < |s.log|
  }

  function Step(s: System, ev: Event): System
    requires Enabled(s, ev)
  {
    match ev
    case Propose(actor, proposal) => AfterPropose(s, actor, proposal)
    case DeliverKey(to, t, order) => (
      var plaintext := D.Encoded(Snapshot(s.log[t].after), order);
      WithKeyDelivered(s, to, t, AfterPlaintext(s.nodes[to], plaintext).0))
    case DeliverControl(to, t) => (
      var (n, _) := AfterControl(s.nodes[to], s.log[t].change.control);
      var s' := s.(nodes := s.nodes[to := n]);
      if InOrder(s, to, t) then s'.(inStep := s.inStep[to := t + 1]) else s'.(inStep := s.inStep - {to}))
  }

  /** A node that joins by the snapshot of change `t` has incorporated it. */
  function WithKeyDelivered(s: System, to: Peer, t: nat, n: Node): System {
    var s' := s.(nodes := s.nodes[to := n]);
    if s.Holds(to) then s' else s'.(inStep := s.inStep[to := t + 1])
  }

  /** Control `t` is the next one for `p`, and `p` has the key it installs. */
  predicate InOrder(s: System, p: Peer, t: nat)
    requires p in s.nodes && t < |s.log|
  {
    && p in s.inStep && s.inStep[p] == t
    && (s.log[t].Rotates() ==> (s.Gid(), s.log[t].change.control.keyEpoch) in s.nodes[p].pending)
  }

  /** A member that takes itself out keeps no standing; one that leaves also drops the group. */
  function AfterPropose(s: System, actor: Peer, proposal: Proposal): System
    requires s.UpToDate(actor) && s.GroupOf(actor).keyEpoch < U32_MAX
  {
    var n := s.nodes[actor];
    var (g, r) := AfterProposal(s.GroupOf(actor), actor, proposal);
    if r.Err? then
      s
    else
      var n1 := n.(groups := n.groups[s.Gid() := g]);
      var n' := if proposal.Leave? then Forget(n1, s.Gid()) else n1;
      s.(log := s.log + [Published(actor, proposal, r.value, g)],
         nodes := s.nodes[actor := n'],
         inStep := if actor in g.members then s.inStep[actor := |s.log| + 1] else s.inStep - {actor})
  }

  // --- the invariant ---

  /** `change`, made by `actor`, leads from `g` to `after` on every replica. */
  ghost predicate Sound(g: G.State, actor: Peer, change: G.Change, after: G.State) {
    var c := change.control;
    && c.groupId == after.groupId == g.groupId
    && c.keyEpoch == after.keyEpoch
    && G.AfterApply(g, c, change.newKey) == (after, Ok(Unit))
    && actor in g.members
    && (c.action == G.Action.Invite.Code() ==> c.target !in g.members)
    && (if change.newKey.Some? then
          && change.newKey == Some(after.groupKey)
          && after.keyEpoch == g.keyEpoch + 1
          && change.recipients == after.members.Keys - {actor}
        else
          && after.keyEpoch == g.keyEpoch && after.groupKey == g.groupKey
          && after.members.Keys == g.members.Keys
          && change.recipients == {}
          && c.action != G.Action.Invite.Code())
  }

  /** `entry` is what its actor's proposal makes of `g`. */
  predicate Made(g: G.State, entry: Published) {
    g.keyEpoch < U32_MAX && AfterProposal(g, entry.actor, entry.proposal) == (entry.after, Ok(entry.change))
  }

  ghost predicate Link(s: System, t: nat)
    requires t < |s.log|
  {
    && Made(s.Canon(t), s.log[t])
    && Sound(s.Canon(t), s.log[t].actor, s.log[t].change, s.log[t].after)
  }

  ghost predicate Linked(s: System) {
    forall t | 0 <= t < |s.log| :: Link(s, t)
  }

  /** The change at `u` gave `p` the key of epoch `e`. */
  predicate Gives(s: System, u: nat, p: Peer, e: u32, key: Octets)
    requires u < |s.log|
  {
    && s.log[u].Rotates() && s.log[u].after.keyEpoch == e && s.log[u].after.groupKey == key
    && (p in s.log[u].change.recipients || p == s.log[u].actor)
  }

  /** `p` was entitled to the key of epoch `e`. */
  ghost predicate Entitled(s: System, p: Peer, e: u32, key: Octets) {
    || (p == s.creator && e == s.first.keyEpoch && key == s.first.groupKey)
    || exists u :: 0 <= u < |s.log| && Gives(s, u, p, e, key)
  }

  /** Every key a node holds or keeps for later is one it was entitled to. */
  ghost predicate KeysEntitled(s: System, p: Peer)
    requires p in s.nodes
  {
    && s.nodes[p].me == p
    && (s.Holds(p) ==> Entitled(s, p, s.GroupOf(p).keyEpoch, s.GroupOf(p).groupKey) && s.GroupOf(p).groupId == s.Gid())
    && (forall slot <- s.nodes[p].pending :: slot.0 == s.Gid() ==>
          exists u :: 0 <= u < |s.log| && Gives(s, u, p, slot.1, s.nodes[p].pending[slot]) && p in s.log[u].change.recipients)
  }

  /** A node in step holds exactly the group after the changes it has incorporated. */
  ghost predicate Replica(s: System, p: Peer)
    requires p in s.inStep
  {
    && s.Holds(p)
    && s.inStep[p] <= |s.log|
    && s.GroupOf(p) == s.Canon(s.inStep[p])
    && p in s.Canon(s.inStep[p]).members
  }

  ghost predicate Inv(s: System) {
    && s.creator in s.first.members
    && Linked(s)
    && (forall p <- s.nodes :: KeysEntitled(s, p))
    && (forall p <- s.inStep :: Replica(s, p))
  }

  // --- start ---

  /** A new group: its creator holds it, the other nodes hold nothing of it. */
  predicate Starts(s: System) {
    && s.log == []
    && s.creator in s.nodes
    && s.first == G.Create(s.Gid(), s.creator, s.first.displayName, s.first.groupKey)
    && s.inStep == map[s.creator := 0]
    && (forall p <- s.nodes ::
          && s.nodes[p].me == p
          && s.nodes[p].pending == map[]
          && s.nodes[p].groups == (if p == s.creator then map[s.Gid() := s.first] else map[]))
  }

  lemma StartInv(s: System)
    requires Starts(s)
    ensures Inv(s)
  {
  }

  // --- epochs ---

  /** Epochs never fall, and every rotation raises them. */
  lemma {:induction false} EpochsRise(s: System, i: nat, j: nat)
    requires Linked(s) && i <= j <= |s.log|
    ensures s.Canon(i).keyEpoch <= s.Canon(j).keyEpoch
    ensures forall t | i <= t < j :: s.log[t].Rotates() ==> s.Canon(i).keyEpoch < s.Canon(j).keyEpoch
    decreases j - i
  {
    if i < j {
      assert Link(s, j - 1);
      EpochsRise(s, i, j - 1);
    }
  }

  /** One rotation per epoch: the epoch a rotation installs determines the rotation. */
  lemma RotationOfEpoch(s: System, u: nat, v: nat)
    requires Linked(s) && u < |s.log| && v < |s.log|
    requires s.log[u].Rotates() && s.log[v].Rotates()
    requires s.log[u].after.keyEpoch == s.log[v].after.keyEpoch
    ensures u == v
  {
    if u < v {
      EpochsRise(s, u + 1, v + 1);
    } else if v < u {
      EpochsRise(s, v + 1, u + 1);
    }
  }

  // --- proposing ---

  lemma ProposalSound(g: G.State, actor: Peer, proposal: Proposal)
    requires g.keyEpoch < U32_MAX && |actor| == 32
    requires proposal.Add? ==> proposal.newMember !in g.members
    ensures
      var (g', r) := AfterProposal(g, actor, proposal);
      r.Ok? ==> Sound(g, actor, r.value, g')
  {
    match proposal
    case Add(newMember, key) => G.AddReproduced(g, actor, newMember, key);
    case RemoveMember(target, key) => G.RemoveReproduced(g, actor, target, key);
    case Leave(key) => G.LeaveReproduced(g, actor, key);
    case SetAdmin(member, value) => G.SetAdminReproduced(g, actor, member, value);
    case Rename(name) => G.RenameReproduced(g, actor, name);
  }

  lemma CanonStable(s: System, s': System, t: nat)
    requires s'.first == s.first && s.log <= s'.log && t <= |s.log|
    ensures s'.Canon(t) == s.Canon(t)
  {
  }

  lemma LinkedAppend(s: System, s': System, p: Published)
    requires Linked(s) && s'.first == s.first && s'.log == s.log + [p]
    requires Made(s.Now(), p) && Sound(s.Now(), p.actor, p.change, p.after)
    ensures Linked(s')
  {
    forall t | 0 <= t < |s'.log|
      ensures Link(s', t)
    {
      CanonStable(s, s', t);
      if t < |s.log| {
        assert Link(s, t);
      }
    }
  }

  lemma EntitledStays(s: System, s': System, p: Peer, e: u32, key: Octets)
    requires Entitled(s, p, e, key) && s'.first == s.first && s'.creator == s.creator && s.log <= s'.log
    ensures Entitled(s', p, e, key)
  {
    if !(p == s.creator && e == s.first.keyEpoch && key == s.first.groupKey) {
      var u :| 0 <= u < |s.log| && Gives(s, u, p, e, key);
      assert Gives(s', u, p, e, key);
    }
  }

  /** A node that did not change keeps what it was entitled to. */
  lemma KeysStay(s: System, s': System, p: Peer)
    requires p in s.nodes && p in s'.nodes && KeysEntitled(s, p)
    requires s'.first == s.first && s'.creator == s.creator && s.log <= s'.log
    requires s'.nodes[p] == s.nodes[p]
    ensures KeysEntitled(s', p)
  {
    if s.Holds(p) {
      EntitledStays(s, s', p, s.GroupOf(p).keyEpoch, s.GroupOf(p).groupKey);
    }
    forall slot | slot in s'.nodes[p].pending && slot.0 == s'.Gid()
      ensures exists u :: 0 <= u < |s'.log| && Gives(s', u, p, slot.1, s'.nodes[p].pending[slot]) && p in s'.log[u].change.recipients
    {
      var u :| 0 <= u < |s.log| && Gives(s, u, p, slot.1, s.nodes[p].pending[slot]) && p in s.log[u].change.recipients;
      assert Gives(s', u, p, slot.1, s'.nodes[p].pending[slot]);
    }
  }

  lemma ReplicaStays(s: System, s': System, p: Peer)
    requires p in s.inStep && Replica(s, p)
    requires s'.first == s.first && s.log <= s'.log
    requires p in s'.nodes && s'.nodes[p] == s.nodes[p] && p in s'.inStep && s'.inStep[p] == s.inStep[p]
    ensures Replica(s', p)
  {
    CanonStable(s, s', s.inStep[p]);
  }

  /** A step of one node keeps the invariant when that node and the log do. */
  lemma OneNodeInv(s: System, s': System, who: Peer)
    requires Inv(s) && Linked(s')
    requires s'.first == s.first && s'.creator == s.creator && s.log <= s'.log
    requires s'.nodes.Keys == s.nodes.Keys && forall p <- s.nodes | p != who :: s'.nodes[p] == s.nodes[p]
    requires forall p <- s'.inStep | p != who :: p in s.inStep && s'.inStep[p] == s.inStep[p]
    requires who in s'.nodes && KeysEntitled(s', who)
    requires who in s'.inStep ==> Replica(s', who)
    ensures Inv(s')
  {
    forall p | p in s'.nodes
      ensures KeysEntitled(s', p)
    {
      if p != who {
        KeysStay(s, s', p);
      }
    }
    forall p | p in s'.inStep
      ensures Replica(s', p)
    {
      if p != who {
        assert Replica(s, p);
        ReplicaStays(s, s', p);
      }
    }
  }

  lemma SameLogLinked(s: System, s': System)
    requires Linked(s) && s'.first == s.first && s'.log == s.log
    ensures Linked(s')
  {
    forall u | 0 <= u < |s'.log|
      ensures Link(s', u)
    {
      assert Link(s, u);
    }
  }

  lemma ProposeInv(s: System, actor: Peer, proposal: Proposal)
    requires Inv(s) && Enabled(s, Propose(actor, proposal))
    ensures Inv(AfterPropose(s, actor, proposal))
  {
    var (g, r) := AfterProposal(s.GroupOf(actor), actor, proposal);
    assert Replica(s, actor);
    if r.Ok? {
      ProposalSound(s.Now(), actor, proposal);
      PublishInv(s, AfterPropose(s, actor, proposal), Published(actor, proposal, r.value, g));
    }
  }

  lemma PublishInv(s: System, s': System, entry: Published)
    requires Inv(s) && s.UpToDate(entry.actor) && Made(s.Now(), entry)
    requires Sound(s.Now(), entry.actor, entry.change, entry.after)
    requires
      var actor := entry.actor;
      var n1 := s.nodes[actor].(groups := s.nodes[actor].groups[s.Gid() := entry.after]);
      var n' := if entry.proposal.Leave? then Forget(n1, s.Gid()) else n1;
      s' == s.(log := s.log + [entry],
               nodes := s.nodes[actor := n'],
               inStep := if actor in entry.after.members then s.inStep[actor := |s.log| + 1] else s.inStep - {actor})
    requires entry.proposal.Leave? ==> entry.actor !in entry.after.members
    ensures Inv(s')
  {
    assert Replica(s, entry.actor) && KeysEntitled(s, entry.actor);
    LinkedAppend(s, s', entry);
    ProposerEntitled(s, s', entry);
    OneNodeInv(s, s', entry.actor);
  }

  lemma ProposerEntitled(s: System, s': System, entry: Published)
    requires entry.actor in s.nodes && KeysEntitled(s, entry.actor)
    requires s.Holds(entry.actor) && s.GroupOf(entry.actor) == s.Now()
    requires Sound(s.Now(), entry.actor, entry.change, entry.after)
    requires s'.first == s.first && s'.creator == s.creator && s'.log == s.log + [entry]
    requires entry.actor in s'.nodes && s'.nodes[entry.actor].me == entry.actor
    requires s'.nodes[entry.actor].pending == s.nodes[entry.actor].pending
    requires s'.Holds(entry.actor) ==> s'.GroupOf(entry.actor) == entry.after
    ensures KeysEntitled(s', entry.actor)
  {
    var (actor, change, g) := (entry.actor, entry.change, entry.after);
    if s'.Holds(actor) {
      if change.newKey.Some? {
        assert Gives(s', |s.log|, actor, g.keyEpoch, g.groupKey);
      } else {
        EntitledStays(s, s', actor, g.keyEpoch, g.groupKey);
      }
    }
    forall slot | slot in s'.nodes[actor].pending && slot.0 == s'.Gid()
      ensures exists u :: 0 <= u < |s'.log| && Gives(s', u, actor, slot.1, s'.nodes[actor].pending[slot]) && actor in s'.log[u].change.recipients
    {
      var u :| 0 <= u < |s.log| && Gives(s, u, actor, slot.1, s.nodes[actor].pending[slot]) && actor in s.log[u].change.recipients;
      assert Gives(s', u, actor, slot.1, s'.nodes[actor].pending[slot]);
    }
  }

  // --- key deliveries ---

  lemma DeliverKeyInv(s: System, to: Peer, t: nat, order: seq<D.Entry>)
    requires Inv(s) && Enabled(s, DeliverKey(to, t, order))
    ensures Inv(Step(s, DeliverKey(to, t, order)))
  {
    DeliverKeyEffect(s, to, t, order);
    AbsorbInv(s, AfterDelivery(s, to, t), to, t);
  }

  function AfterDelivery(s: System, to: Peer, t: nat): System
    requires to in s.nodes && t < |s.log|
  {
    WithKeyDelivered(s, to, t, AfterAbsorb(s.nodes[to], Snapshot(s.log[t].after)))
  }

  /** The delivered bytes are absorbed as the snapshot they were made from. */
  lemma DeliverKeyEffect(s: System, to: Peer, t: nat, order: seq<D.Entry>)
    requires Enabled(s, DeliverKey(to, t, order))
    ensures Step(s, DeliverKey(to, t, order)) == AfterDelivery(s, to, t)
  {
    DeliveryAbsorbed(s.nodes[to], Snapshot(s.log[t].after), order);
  }

  lemma AbsorbInv(s: System, s': System, to: Peer, t: nat)
    requires Inv(s) && to in s.nodes && t < |s.log| && s.log[t].Rotates()
    requires to in s.log[t].change.recipients && s' == AfterDelivery(s, to, t)
    ensures Inv(s')
  {
    assert Link(s, t) && KeysEntitled(s, to);
    SameGroupId(s, t);
    SameLogLinked(s, s');
    AbsorbEntitled(s, s', to, t);
    AbsorbReplica(s, s', to, t);
    OneNodeInv(s, s', to);
  }

  lemma AbsorbReplica(s: System, s': System, to: Peer, t: nat)
    requires Inv(s) && to in s.nodes && t < |s.log| && Link(s, t) && s.log[t].Rotates()
    requires s.log[t].after.groupId == s.Gid()
    requires to in s.log[t].change.recipients && s' == AfterDelivery(s, to, t)
    ensures to in s'.inStep ==> Replica(s', to)
  {
    assert to in s.inStep ==> Replica(s, to);
  }

  lemma {:induction false} SameGroupId(s: System, t: nat)
    requires Linked(s) && t < |s.log|
    ensures s.log[t].after.groupId == s.Gid() && s.log[t].change.control.groupId == s.Gid()
  {
    assert Link(s, t);
    if t > 0 {
      SameGroupId(s, t - 1);
    }
  }

  lemma AbsorbEntitled(s: System, s': System, to: Peer, t: nat)
    requires Linked(s) && to in s.nodes && KeysEntitled(s, to)
    requires t < |s.log| && s.log[t].Rotates() && to in s.log[t].change.recipients
    requires s.log[t].after.groupId == s.Gid()
    requires s' == s.(nodes := s'.nodes, inStep := s'.inStep)
    requires to in s'.nodes && s'.nodes[to] == AfterAbsorb(s.nodes[to], Snapshot(s.log[t].after))
    ensures KeysEntitled(s', to)
  {
    var g := s.log[t].after;
    assert Gives(s', t, to, g.keyEpoch, g.groupKey);
    if s.Holds(to) {
      EntitledStays(s, s', to, s.GroupOf(to).keyEpoch, s.GroupOf(to).groupKey);
    }
    forall slot | slot in s'.nodes[to].pending && slot.0 == s'.Gid()
      ensures exists u :: 0 <= u < |s'.log| && Gives(s', u, to, slot.1, s'.nodes[to].pending[slot]) && to in s'.log[u].change.recipients
    {
      if slot in s.nodes[to].pending && s'.nodes[to].pending[slot] == s.nodes[to].pending[slot] {
        var u :| 0 <= u < |s.log| && Gives(s, u, to, slot.1, s.nodes[to].pending[slot]) && to in s.log[u].change.recipients;
        assert Gives(s', u, to, slot.1, s'.nodes[to].pending[slot]);
      }
    }
  }

  // --- controls ---

  lemma DeliverControlInv(s: System, to: Peer, t: nat)
    requires Inv(s) && Enabled(s, DeliverControl(to, t))
    ensures Inv(Step(s, DeliverControl(to, t)))
  {
    HandleInv(s, Step(s, DeliverControl(to, t)), to, t, AfterControl(s.nodes[to], s.log[t].change.control).0);
  }

  lemma HandleInv(s: System, s': System, to: Peer, t: nat, n: Node)
    requires Inv(s) && to in s.nodes && t < |s.log|
    requires n == AfterControl(s.nodes[to], s.log[t].change.control).0
    requires s' == s.(nodes := s.nodes[to := n],
                      inStep := if InOrder(s, to, t) then s.inStep[to := t + 1] else s.inStep - {to})
    ensures Inv(s')
  {
    SameGroupId(s, t);
    assert KeysEntitled(s, to);
    SameLogLinked(s, s');
    ControlEntitled(s, s', to, s.log[t].change.control);
    if InOrder(s, to, t) {
      InOrderConverges(s, to, t);
    }
    OneNodeInv(s, s', to);
  }

  /** A control can only install a key the node already kept for its epoch. */
  lemma ControlEntitled(s: System, s': System, to: Peer, c: G.Control)
    requires to in s.nodes && KeysEntitled(s, to) && c.groupId == s.Gid()
    requires s' == s.(nodes := s'.nodes, inStep := s'.inStep)
    requires to in s'.nodes && s'.nodes[to] == AfterControl(s.nodes[to], c).0
    ensures KeysEntitled(s', to)
  {
    var n := s.nodes[to];
    var slot := (c.groupId, c.keyEpoch);
    if slot in n.pending {
      var u :| 0 <= u < |s.log| && Gives(s, u, to, c.keyEpoch, n.pending[slot]) && to in s.log[u].change.recipients;
      assert Gives(s', u, to, c.keyEpoch, n.pending[slot]);
    }
    if s.Holds(to) {
      EntitledStays(s, s', to, s.GroupOf(to).keyEpoch, s.GroupOf(to).groupKey);
      ApplyKeepsOrInstalls(s.GroupOf(to), c, if slot in n.pending then Some(n.pending[slot]) else None);
    }
    forall kept | kept in s'.nodes[to].pending && kept.0 == s'.Gid()
      ensures exists u :: 0 <= u < |s'.log| && Gives(s', u, to, kept.1, s'.nodes[to].pending[kept]) && to in s'.log[u].change.recipients
    {
      var u :| 0 <= u < |s.log| && Gives(s, u, to, kept.1, n.pending[kept]) && to in s.log[u].change.recipients;
      assert Gives(s', u, to, kept.1, s'.nodes[to].pending[kept]);
    }
  }

  lemma ApplyKeepsOrInstalls(g: G.State, c: G.Control, key: Option<Octets>)
    ensures
      var g' := G.AfterApply(g, c, key).0;
      && g'.groupId == g.groupId
      && ((g'.keyEpoch, g'.groupKey) == (g.keyEpoch, g.groupKey)
          || (key.Some? && (g'.keyEpoch, g'.groupKey) == (c.keyEpoch, key.value)))
  {
  }

  /** The key a node in step keeps for the next change is the key that change installs. */
  lemma KeptKeyIsRight(s: System, p: Peer, t: nat)
    requires Inv(s) && p in s.nodes && t < |s.log| && s.log[t].Rotates()
    requires (s.Gid(), s.log[t].change.control.keyEpoch) in s.nodes[p].pending
    ensures Some(s.nodes[p].pending[(s.Gid(), s.log[t].change.control.keyEpoch)]) == s.log[t].change.newKey
    ensures p in s.log[t].change.recipients
  {
    var slot := (s.Gid(), s.log[t].change.control.keyEpoch);
    assert KeysEntitled(s, p) && Link(s, t);
    var u :| 0 <= u < |s.log| && Gives(s, u, p, slot.1, s.nodes[p].pending[slot]) && p in s.log[u].change.recipients;
    assert Link(s, u);
    RotationOfEpoch(s, u, t);
  }

  /** Handled in order and with its key, a control makes the replica the next state. */
  lemma InOrderConverges(s: System, p: Peer, t: nat)
    requires Inv(s) && p in s.nodes && t < |s.log| && InOrder(s, p, t)
    ensures
      var (n, r) := AfterControl(s.nodes[p], s.log[t].change.control);
      && r == Ok(Unit)
      && s.Gid() in n.groups && n.groups[s.Gid()] == s.Canon(t + 1)
      && p in s.Canon(t + 1).members
  {
    var c := s.log[t].change.control;
    SameGroupId(s, t);
    assert Replica(s, p) && Link(s, t) && KeysEntitled(s, p);
    if s.log[t].Rotates() {
      KeptKeyIsRight(s, p, t);
    } else {
      NonRotatingIgnoresKey(s.Canon(t), c, s.log[t].after, if (s.Gid(), c.keyEpoch) in s.nodes[p].pending then Some(s.nodes[p].pending[(s.Gid(), c.keyEpoch)]) else None);
    }
  }

  /** A control that applies without a key does not look at the key it is given. */
  lemma NonRotatingIgnoresKey(g: G.State, c: G.Control, after: G.State, key: Option<Octets>)
    requires G.AfterApply(g, c, None) == (after, Ok(Unit))
    ensures G.AfterApply(g, c, key) == (after, Ok(Unit))
  {
  }
}

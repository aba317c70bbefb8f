/** What every run of the replicated group guarantees. */
module GroupTheorems {
  import opened Wrappers
  import opened Bytes
  import opened X3dh
  import opened Aead
  import opened MapEnumeration
  import opened GroupManager
  import opened GroupReplication
  import D = DeliveryCodec
  import G = Group
  import M = GroupMessage

  predicate Legal(s: System, events: seq<Event>)
    decreases |events|
  {
    events == [] || (Enabled(s, events[0]) && Legal(Step(s, events[0]), events[1..]))
  }

  function Run(s: System, events: seq<Event>): System
    requires Legal(s, events)
    decreases |events|
  {
    if events == [] then s else Run(Step(s, events[0]), events[1..])
  }

  lemma StepInv(s: System, ev: Event)
    requires Inv(s) && Enabled(s, ev)
    ensures Inv(Step(s, ev))
  {
    match ev
    case Propose(actor, proposal) => ProposeInv(s, actor, proposal);
    case DeliverKey(to, t, order) => DeliverKeyInv(s, to, t, order);
    case DeliverControl(to, t) => DeliverControlInv(s, to, t);
  }

  lemma {:induction false} RunInv(s: System, events: seq<Event>)
    requires Inv(s) && Legal(s, events)
    ensures Inv(Run(s, events))
    decreases |events|
  {
    if events != [] {
      StepInv(s, events[0]);
      RunInv(Step(s, events[0]), events[1..]);
    }
  }

  /** Convergence: in every run, two nodes in step at the same point hold the same group: name,
      epoch, key and members; an up-to-date node holds what the last proposer held. */
  lemma Convergence(s: System, events: seq<Event>, p: Peer, q: Peer)
    requires Starts(s) && Legal(s, events)
    requires p in Run(s, events).inStep && q in Run(s, events).inStep
    requires Run(s, events).inStep[p] == Run(s, events).inStep[q]
    ensures
      var w := Run(s, events);
      && w.Holds(p) && w.Holds(q)
      && w.GroupOf(p) == w.GroupOf(q)
      && p in w.GroupOf(p).members
      && (w.inStep[p] == |w.log| && w.log != [] ==> w.GroupOf(p) == w.log[|w.log| - 1].after)
  {
    var w := Run(s, events);
    StartInv(s);
    RunInv(s, events);
    assert Replica(w, p) && Replica(w, q);
  }

  /** The epoch counts rotations from 0, so for fewer than 2^32 - 1 changes it never stops a proposal. */
  lemma EpochBounded(s: System, events: seq<Event>, t: nat)
    requires Starts(s) && Legal(s, events) && t <= |Run(s, events).log|
    ensures Run(s, events).Canon(t).keyEpoch <= t
    ensures |Run(s, events).log| < U32_MAX ==> Run(s, events).Now().keyEpoch < U32_MAX
  {
    StartInv(s);
    RunInv(s, events);
    SameFirst(s, events);
    EpochAtMost(Run(s, events), t);
    EpochAtMost(Run(s, events), |Run(s, events).log|);
  }

  lemma {:induction false} SameFirst(s: System, events: seq<Event>)
    requires Legal(s, events)
    ensures Run(s, events).first == s.first && Run(s, events).creator == s.creator
    ensures s.log <= Run(s, events).log
    decreases |events|
  {
    if events != [] {
      SameFirst(Step(s, events[0]), events[1..]);
    }
  }

  lemma {:induction false} EpochAtMost(s: System, t: nat)
    requires Linked(s) && t <= |s.log|
    ensures s.Canon(t).keyEpoch <= s.first.keyEpoch + t
  {
    if t > 0 {
      assert Link(s, t - 1);
      EpochAtMost(s, t - 1);
    }
  }

  // --- progress ---

  /** A rotating change is addressed to exactly its members other than the proposer. */
  lemma AddressedToMembers(s: System, events: seq<Event>, t: nat, p: Peer)
    requires Starts(s) && Legal(s, events)
    requires t < |Run(s, events).log| && Run(s, events).log[t].Rotates()
    ensures
      var entry := Run(s, events).log[t];
      p in entry.change.recipients <==> p in entry.after.members && p != entry.actor
  {
    StartInv(s);
    RunInv(s, events);
    assert Link(Run(s, events), t);
  }

  /** From any reachable state, a node in step that stays a member can still be brought to the
      proposer's state: each missing key, then its control, in order. */
  lemma {:induction false} CatchUp(s: System, p: Peer) returns (events: seq<Event>)
    requires Inv(s) && p in s.inStep
    requires forall t | s.inStep[p] <= t < |s.log| ::
      p in s.log[t].after.members && p != s.log[t].actor && D.Sized(Snapshot(s.log[t].after))
    ensures Legal(s, events)
    ensures Run(s, events).UpToDate(p) && Run(s, events).GroupOf(p) == s.Now()
    decreases |s.log| - (if s.inStep[p] <= |s.log| then s.inStep[p] else |s.log|)
  {
    assert Replica(s, p);
    var t := s.inStep[p];
    if t == |s.log| {
      events := [];
    } else {
      var s1, before := CatchUpKey(s, p, t);
      var s2 := ControlArrives(s1, p, t);
      var rest := CatchUp(s2, p);
      RunCons(s1, s2, DeliverControl(p, t), rest);
      events := [DeliverControl(p, t)] + rest;
      if before.Some? {
        RunCons(s, s1, before.value, events);
        events := [before.value] + events;
      }
    }
  }

  /** The key of the next change, if that change rotates it, is delivered and kept for its control. */
  lemma CatchUpKey(s: System, p: Peer, t: nat) returns (s': System, before: Option<Event>)
    requires Inv(s) && p in s.inStep && s.inStep[p] == t < |s.log|
    requires p in s.log[t].after.members && p != s.log[t].actor && D.Sized(Snapshot(s.log[t].after))
    ensures if before.None? then s' == s else Enabled(s, before.value) && s' == Step(s, before.value)
    ensures Inv(s') && s'.log == s.log && s'.first == s.first && p in s'.nodes && InOrder(s', p, t)
  {
    assert Replica(s, p) && Link(s, t);
    before := None;
    s' := s;
    if s.log[t].Rotates() {
      var order := EnumerationExists(s.log[t].after.members);
      before := Some(DeliverKey(p, t, order));
      KeyArrives(s, p, t, order);
      StepInv(s, before.value);
      s' := Step(s, before.value);
    }
  }

  lemma RunCons(s: System, s': System, ev: Event, rest: seq<Event>)
    requires Enabled(s, ev) && s' == Step(s, ev) && Legal(s', rest)
    ensures Legal(s, [ev] + rest) && Run(s, [ev] + rest) == Run(s', rest)
  {
    assert ([ev] + rest)[1..] == rest;
  }

  lemma ControlArrives(s: System, p: Peer, t: nat) returns (s': System)
    requires Inv(s) && p in s.nodes && t < |s.log| && InOrder(s, p, t)
    ensures Enabled(s, DeliverControl(p, t)) && s' == Step(s, DeliverControl(p, t))
    ensures Inv(s') && s'.log == s.log && s'.first == s.first && p in s'.inStep && s'.inStep[p] == t + 1
  {
    s' := Step(s, DeliverControl(p, t));
    StepInv(s, DeliverControl(p, t));
  }

  /** A replica that is one rotation behind keeps the key that is delivered for it. */
  lemma KeyArrives(s: System, p: Peer, t: nat, order: seq<D.Entry>)
    requires Inv(s) && p in s.inStep && s.inStep[p] == t < |s.log| && s.log[t].Rotates()
    requires p in s.log[t].change.recipients && D.Sized(Snapshot(s.log[t].after))
    requires Enumerates(order, s.log[t].after.members) && p in s.nodes
    ensures
      var s1 := Step(s, DeliverKey(p, t, order));
      && s1.log == s.log && s1.first == s.first && s1.inStep == s.inStep && p in s1.nodes
      && InOrder(s1, p, t)
  {
    DeliverKeyEffect(s, p, t, order);
    assert Replica(s, p) && Link(s, t);
    SameGroupId(s, t);
  }

  // --- exclusion ---

  /** `p` was taken out by change `r`, made by someone else, and not brought back. */
  ghost predicate Excluded(w: System, p: Peer, r: nat) {
    && r < |w.log| && w.log[r].Rotates() && w.log[r].actor != p
    && forall u | r < u <= |w.log| :: p !in w.Canon(u).members
  }

  /** A removed peer holds, and can ever decrypt, nothing of what follows: it keeps no later key
      and refuses every message sealed at any later point. */
  lemma RemovedIsExcluded(
    s: System, events: seq<Event>, p: Peer, r: nat, t: nat, aead: Aead, nonce: Octets, plaintext: Octets)
    requires Starts(s) && Legal(s, events)
    requires Excluded(Run(s, events), p, r) && r < t <= |Run(s, events).log|
    ensures
      var w := Run(s, events);
      && (w.Holds(p) ==>
            && w.GroupOf(p).keyEpoch < w.Canon(t).keyEpoch
            && M.Decrypt(w.GroupOf(p), aead, M.Encrypt(w.Canon(t), aead, nonce, plaintext)) == Err(G.EpochMismatch))
      && (p in w.nodes ==> forall slot <- w.nodes[p].pending | slot.0 == w.Gid() :: slot.1 < w.Canon(t).keyEpoch)
  {
    StartInv(s);
    RunInv(s, events);
    HoldsOnlyEarlier(Run(s, events), p, r, t);
  }

  lemma HoldsOnlyEarlier(w: System, p: Peer, r: nat, t: nat)
    requires Inv(w) && Excluded(w, p, r) && r < t <= |w.log|
    ensures w.Holds(p) ==> w.GroupOf(p).keyEpoch < w.Canon(t).keyEpoch
    ensures p in w.nodes ==> forall slot <- w.nodes[p].pending | slot.0 == w.Gid() :: slot.1 < w.Canon(t).keyEpoch
  {
    EpochsRise(w, r + 1, t);
    if p in w.nodes {
      assert KeysEntitled(w, p);
      if w.Holds(p) {
        EntitledBefore(w, p, r, w.GroupOf(p).keyEpoch, w.GroupOf(p).groupKey);
      }
      forall slot | slot in w.nodes[p].pending && slot.0 == w.Gid()
        ensures slot.1 < w.Canon(t).keyEpoch
      {
        PendingBefore(w, p, r, slot);
      }
    }
  }

  /** No later key is even addressed to it. */
  lemma RemovedIsNotAddressed(s: System, events: seq<Event>, p: Peer, r: nat, u: nat)
    requires Starts(s) && Legal(s, events)
    requires Excluded(Run(s, events), p, r) && r <= u < |Run(s, events).log|
    ensures p !in Run(s, events).log[u].change.recipients
  {
    StartInv(s);
    RunInv(s, events);
    NotAddressed(Run(s, events), p, r, u);
  }

  lemma NotAddressed(w: System, p: Peer, r: nat, u: nat)
    requires Inv(w) && Excluded(w, p, r) && r <= u < |w.log|
    ensures p != w.log[u].actor && p !in w.log[u].change.recipients
  {
    assert Link(w, u);
    assert p !in w.Canon(u + 1).members;
    if u > r {
      assert p !in w.Canon(u).members;
    }
  }

  lemma EntitledBefore(w: System, p: Peer, r: nat, e: u32, key: Octets)
    requires Inv(w) && Excluded(w, p, r)
    requires Entitled(w, p, e, key)
    ensures e < w.Canon(r + 1).keyEpoch
  {
    EpochsRise(w, 0, r + 1);
    if u :| 0 <= u < |w.log| && Gives(w, u, p, e, key) {
      if u >= r {
        NotAddressed(w, p, r, u);
      } else {
        EpochsRise(w, u + 1, r + 1);
      }
    }
  }

  lemma PendingBefore(w: System, p: Peer, r: nat, slot: (Octets, u32))
    requires Inv(w) && Excluded(w, p, r)
    requires p in w.nodes && slot in w.nodes[p].pending && slot.0 == w.Gid()
    ensures slot.1 < w.Canon(r + 1).keyEpoch
  {
    assert KeysEntitled(w, p);
    var u :| 0 <= u < |w.log| && Gives(w, u, p, slot.1, w.nodes[p].pending[slot]) && p in w.log[u].change.recipients;
    if u >= r {
      NotAddressed(w, p, r, u);
    } else {
      EpochsRise(w, u + 1, r + 1);
    }
  }

  // --- what the discipline is needed for ---

  /** An invitation reaches its target exactly when the target does not still hold the group: a
      node that kept an old copy buffers the key, ignores the control, and stays as it was. */
  lemma InviteLandsIffNotHeld(n: Node, d: D.Delivery, order: seq<D.Entry>, c: G.Control)
    requires D.Sized(d) && Enumerates(order, d.members)
    requires c.action == G.Action.Invite.Code() && c.target == n.me
    requires d.groupId in n.groups ==> n.groups[d.groupId].keyEpoch < d.epoch
    ensures
      var n1 := AfterPlaintext(n, D.Encoded(d, order)).0;
      var n2 := AfterControl(n1, c).0;
      && d.groupId in n2.groups
      && (n2.groups[d.groupId] == G.State(d.groupId, d.name, d.epoch, d.key, d.members) <==> d.groupId !in n.groups)
      && (d.groupId in n.groups ==> n2.groups == n.groups)
  {
    DeliveryAbsorbed(n, d, order);
    AbsorbThenIgnored(n, AfterPlaintext(n, D.Encoded(d, order)).0, d, c);
  }

  lemma AbsorbThenIgnored(n: Node, n1: Node, d: D.Delivery, c: G.Control)
    requires n1 == AfterAbsorb(n, d)
    requires c.action == G.Action.Invite.Code() && c.target == n.me
    requires d.groupId in n.groups ==> n.groups[d.groupId].keyEpoch < d.epoch
    ensures
      var n2 := AfterControl(n1, c).0;
      && d.groupId in n2.groups
      && (n2.groups[d.groupId] == G.State(d.groupId, d.name, d.epoch, d.key, d.members) <==> d.groupId !in n.groups)
      && (d.groupId in n.groups ==> n2.groups == n.groups)
  {
  }

  /** The next rotating control brings a replica to the next state exactly when its key is
      already there; without the key the control is an error, it is used up, and a removal or a
      departure has nevertheless taken its member out. */
  lemma ControlConvergesIffKeyed(s: System, p: Peer, t: nat)
    requires Inv(s) && p in s.inStep && s.inStep[p] == t < |s.log| && s.log[t].Rotates()
    requires p in s.nodes
    ensures
      var c := s.log[t].change.control;
      var (n, r) := AfterControl(s.nodes[p], c);
      var keyed := (s.Gid(), c.keyEpoch) in s.nodes[p].pending;
      && s.Gid() in n.groups
      && (n.groups[s.Gid()] == s.Canon(t + 1) <==> keyed)
      && (!keyed ==> r == Err(GroupFailure(G.MissingKey))
                     && n.groups[s.Gid()].keyEpoch == s.Canon(t).keyEpoch
                     && (c.action == G.Action.Remove.Code() ==> c.target !in n.groups[s.Gid()].members)
                     && (c.action == G.Action.Leave.Code() ==> c.actor !in n.groups[s.Gid()].members))
  {
    var c := s.log[t].change.control;
    assert Replica(s, p) && Link(s, t);
    SameGroupId(s, t);
    if (s.Gid(), c.keyEpoch) in s.nodes[p].pending {
      InOrderConverges(s, p, t);
    } else {
      RotationNeedsKey(s.Canon(t), c, s.log[t].change.newKey, s.log[t].after);
    }
  }

  lemma RotationNeedsKey(g: G.State, c: G.Control, key: Option<Octets>, after: G.State)
    requires G.AfterApply(g, c, key) == (after, Ok(Unit)) && after.keyEpoch != g.keyEpoch
    ensures G.AfterApply(g, c, None).1 == Err(G.MissingKey)
    ensures G.AfterApply(g, c, None).0.keyEpoch == g.keyEpoch
    ensures c.action == G.Action.Remove.Code() ==> c.target !in G.AfterApply(g, c, None).0.members
    ensures c.action == G.Action.Leave.Code() ==> c.actor !in G.AfterApply(g, c, None).0.members
  {
  }
}

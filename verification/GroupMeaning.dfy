/** What proposals ask for, and that the group is exactly what was asked: its key is the last one drawn, its
    name the last one given, its members and administrators those the last change about them made so. */
module GroupMeaning {
  import opened Wrappers
  import opened Bytes
  import opened X3dh
  import opened Aead
  import opened GroupManager
  import opened GroupReplication
  import opened GroupTheorems
  import G = Group
  import M = GroupMessage
  import Utf8

  // --- one proposal ---

  /** The key a proposal draws. */
  function Drawn(p: Proposal): Option<Octets> {
    match p
    case Add(_, key) => Some(key)
    case RemoveMember(_, key) => Some(key)
    case Leave(key) => Some(key)
    case _ => None
  }

  predicate TakesOut(actor: Peer, p: Proposal, who: Peer) {
    (p.RemoveMember? && p.target == who) || (p.Leave? && actor == who)
  }

  predicate Promotes(p: Proposal, who: Peer) {
    p.SetAdmin? && p.member == who && p.value
  }

  predicate Demotes(actor: Peer, p: Proposal, who: Peer) {
    || TakesOut(actor, p, who)
    || (p.SetAdmin? && p.member == who && !p.value)
    || (p.Add? && p.newMember == who)
  }

  /** The error a proposal meets: anyone may leave who is in; all else takes an administrator, and a removal
      or a change of rights takes a member to act on. */
  function Refusal(g: G.State, actor: Peer, p: Proposal): Option<G.GroupError> {
    if p.Leave? then
      if actor in g.members then None else Some(G.NotAdmin)
    else if !(actor in g.members && g.members[actor].isAdmin) then
      Some(G.NotAdmin)
    else if (p.RemoveMember? && p.target !in g.members) || (p.SetAdmin? && p.member !in g.members) then
      Some(G.TargetNotMember)
    else
      None
  }

  lemma RefusedIff(g: G.State, actor: Peer, p: Proposal)
    requires g.keyEpoch < U32_MAX
    ensures
      var (g', r) := AfterProposal(g, actor, p);
      match Refusal(g, actor, p)
      case Some(error) => r == Err(error) && g' == g
      case None => r.Ok?
  {
  }

  /** Every rotating change installs and delivers the key that was drawn, one epoch on; no other change
      touches key or epoch. */
  lemma InstallsDrawnKey(g: G.State, entry: Published)
    requires Made(g, entry)
    ensures entry.change.newKey == Drawn(entry.proposal)
    ensures
      match Drawn(entry.proposal)
      case Some(key) => entry.after.groupKey == key && entry.after.keyEpoch == g.keyEpoch + 1
      case None => entry.after.groupKey == g.groupKey && entry.after.keyEpoch == g.keyEpoch
  {
  }

  lemma NamesAsAsked(g: G.State, entry: Published)
    requires Made(g, entry)
    ensures entry.after.groupId == g.groupId
    ensures entry.after.displayName == if entry.proposal.Rename? then entry.proposal.name else g.displayName
  {
  }

  lemma MembersAsAsked(g: G.State, entry: Published, who: Peer)
    requires Made(g, entry)
    ensures who in entry.after.members <==>
      (entry.proposal.Add? && entry.proposal.newMember == who)
      || (who in g.members && !TakesOut(entry.actor, entry.proposal, who))
    ensures G.IsAdmin(entry.after, who) <==>
      Promotes(entry.proposal, who) || (G.IsAdmin(g, who) && !Demotes(entry.actor, entry.proposal, who))
    ensures who in entry.after.members ==>
      entry.after.members[who].joinedEpoch ==
        if entry.proposal.Add? && entry.proposal.newMember == who then entry.after.keyEpoch else g.members[who].joinedEpoch
  {
  }

  /** What goes out: the numbers of the actions, who acts, on whom, and to whom the key is sent. */
  lemma ControlSays(g: G.State, entry: Published)
    requires Made(g, entry)
    ensures
      var c := entry.change.control;
      && c.groupId == g.groupId && c.actor == entry.actor && c.keyEpoch == entry.after.keyEpoch
      && c.signature == G.Sig64(Signed(entry.actor, G.SigningInput(c)))
      && match entry.proposal
         case Add(newMember, _) => c.action == 0 && c.target == newMember && c.aux == []
         case Leave(_) => c.action == 2 && c.target == entry.actor && c.aux == []
         case RemoveMember(target, _) => c.action == 3 && c.target == target && c.aux == []
         case SetAdmin(member, value) => c.action == (if value then 4 else 5) && c.target == member && c.aux == []
         case Rename(name) => c.action == 6 && c.target == [] && c.aux == Utf8.Encode(name)
    ensures forall p :: p in entry.change.recipients <==>
      Drawn(entry.proposal).Some? && p in entry.after.members && p != entry.actor
  {
  }

  // --- every run ---

  /** The key is the last one drawn. */
  ghost predicate KeyFrom(s: System, t: nat, u: nat)
    requires t <= |s.log|
  {
    && u < t && Drawn(s.log[u].proposal) == Some(s.Canon(t).groupKey)
    && (forall v | u < v < t :: Drawn(s.log[v].proposal).None?)
  }

  lemma {:induction false} KeyIsLastDrawn(s: System, t: nat)
    requires Linked(s) && t <= |s.log|
    ensures (exists u: nat :: KeyFrom(s, t, u))
      || (s.Canon(t).groupKey == s.first.groupKey && forall v | 0 <= v < t :: Drawn(s.log[v].proposal).None?)
  {
    if t > 0 {
      var before := t - 1;
      KeyIsLastDrawn(s, before);
      assert Link(s, t - 1);
      InstallsDrawnKey(s.Canon(t - 1), s.log[t - 1]);
      if Drawn(s.log[t - 1].proposal).Some? {
        assert KeyFrom(s, t, t - 1);
      } else if u: nat :| KeyFrom(s, before, u) {
        assert KeyFrom(s, t, u);
      }
    }
  }

  ghost predicate NameFrom(s: System, t: nat, u: nat)
    requires t <= |s.log|
  {
    && u < t && s.log[u].proposal == Rename(s.Canon(t).displayName)
    && (forall v | u < v < t :: !s.log[v].proposal.Rename?)
  }

  /** The name is the last one given, in every state and so on every replica in step. */
  lemma {:induction false} NameIsLastGiven(s: System, t: nat)
    requires Linked(s) && t <= |s.log|
    ensures (exists u: nat :: NameFrom(s, t, u))
      || (s.Canon(t).displayName == s.first.displayName && forall v | 0 <= v < t :: !s.log[v].proposal.Rename?)
  {
    if t > 0 {
      var before := t - 1;
      NameIsLastGiven(s, before);
      assert Link(s, t - 1);
      NamesAsAsked(s.Canon(t - 1), s.log[t - 1]);
      if s.log[t - 1].proposal.Rename? {
        assert NameFrom(s, t, t - 1);
      } else if u: nat :| NameFrom(s, before, u) {
        assert NameFrom(s, t, u);
      }
    }
  }

  /** `who` was added by change `u`, or was there from the start, and nothing up to `t` took it out. */
  ghost predicate InSince(s: System, t: nat, who: Peer, u: Option<nat>)
    requires t <= |s.log|
  {
    match u
    case Some(u) =>
      && u < t && s.log[u].proposal.Add? && s.log[u].proposal.newMember == who
      && (forall v | u < v < t :: !TakesOut(s.log[v].actor, s.log[v].proposal, who))
    case None =>
      who in s.first.members && forall v | 0 <= v < t :: !TakesOut(s.log[v].actor, s.log[v].proposal, who)
  }

  /** Members are exactly those added and not taken out since. */
  lemma {:induction false} MemberIffAdded(s: System, t: nat, who: Peer)
    requires Linked(s) && t <= |s.log|
    ensures who in s.Canon(t).members <==> exists u :: InSince(s, t, who, u)
  {
    if t == 0 {
      assert who in s.first.members ==> InSince(s, 0, who, None);
    } else {
      MemberIffAdded(s, t - 1, who);
      assert Link(s, t - 1);
      MembersAsAsked(s.Canon(t - 1), s.log[t - 1], who);
      InSinceStep(s, t - 1, t, who);
    }
  }

  lemma InSinceStep(s: System, before: nat, t: nat, who: Peer)
    requires t == before + 1 <= |s.log|
    ensures
      var entry := s.log[before];
      (exists u :: InSince(s, t, who, u)) <==>
        (entry.proposal.Add? && entry.proposal.newMember == who)
        || ((exists u :: InSince(s, before, who, u)) && !TakesOut(entry.actor, entry.proposal, who))
  {
    var entry := s.log[before];
    if u :| InSince(s, t, who, u) {
      if u != Some(before) {
        assert InSince(s, before, who, u);
      }
    }
    if entry.proposal.Add? && entry.proposal.newMember == who {
      assert InSince(s, t, who, Some(before));
    } else if u :| InSince(s, before, who, u) && !TakesOut(entry.actor, entry.proposal, who) {
      assert InSince(s, t, who, u);
    }
  }

  /** `who` was made administrator by change `u`, or was one from the start, and nothing up to `t` undid it. */
  ghost predicate AdminSince(s: System, t: nat, who: Peer, u: Option<nat>)
    requires t <= |s.log|
  {
    match u
    case Some(u) =>
      && u < t && Promotes(s.log[u].proposal, who)
      && (forall v | u < v < t :: !Demotes(s.log[v].actor, s.log[v].proposal, who))
    case None =>
      G.IsAdmin(s.first, who) && forall v | 0 <= v < t :: !Demotes(s.log[v].actor, s.log[v].proposal, who)
  }

  /** Administrators are exactly those promoted and not demoted, taken out or added anew since. */
  lemma {:induction false} AdminIffPromoted(s: System, t: nat, who: Peer)
    requires Linked(s) && t <= |s.log|
    ensures G.IsAdmin(s.Canon(t), who) <==> exists u :: AdminSince(s, t, who, u)
  {
    if t == 0 {
      assert G.IsAdmin(s.first, who) ==> AdminSince(s, 0, who, None);
    } else {
      AdminIffPromoted(s, t - 1, who);
      assert Link(s, t - 1);
      MembersAsAsked(s.Canon(t - 1), s.log[t - 1], who);
      AdminSinceStep(s, t - 1, t, who);
    }
  }

  lemma AdminSinceStep(s: System, before: nat, t: nat, who: Peer)
    requires t == before + 1 <= |s.log|
    ensures
      var entry := s.log[before];
      (exists u :: AdminSince(s, t, who, u)) <==>
        Promotes(entry.proposal, who)
        || ((exists u :: AdminSince(s, before, who, u)) && !Demotes(entry.actor, entry.proposal, who))
  {
    var entry := s.log[before];
    if u :| AdminSince(s, t, who, u) {
      if u != Some(before) {
        assert AdminSince(s, before, who, u);
      }
    }
    if Promotes(entry.proposal, who) {
      assert AdminSince(s, t, who, Some(before));
    } else if u :| AdminSince(s, before, who, u) && !Demotes(entry.actor, entry.proposal, who) {
      assert AdminSince(s, t, who, u);
    }
  }

  /** Every replica in step holds exactly what was asked of the group so far. */
  lemma GroupIsAsAsked(s: System, events: seq<Event>, p: Peer, who: Peer)
    requires Starts(s) && Legal(s, events) && p in Run(s, events).inStep
    ensures
      var w := Run(s, events);
      var t := w.inStep[p];
      && w.Holds(p) && t <= |w.log|
      && var g := w.GroupOf(p);
         && g.groupId == s.Gid()
         && ((exists u: nat :: u < t && Drawn(w.log[u].proposal) == Some(g.groupKey)
                               && forall v | u < v < t :: Drawn(w.log[v].proposal).None?)
             || (g.groupKey == s.first.groupKey && forall v | 0 <= v < t :: Drawn(w.log[v].proposal).None?))
         && ((exists u: nat :: u < t && w.log[u].proposal == Rename(g.displayName)
                               && forall v | u < v < t :: !w.log[v].proposal.Rename?)
             || (g.displayName == s.first.displayName && forall v | 0 <= v < t :: !w.log[v].proposal.Rename?))
         && (who in g.members <==> exists u :: InSince(w, t, who, u))
         && (G.IsAdmin(g, who) <==> exists u :: AdminSince(w, t, who, u))
  {
    var w := Run(s, events);
    StartInv(s);
    RunInv(s, events);
    SameFirst(s, events);
    AsAskedIn(s, w, p, who);
  }

  lemma AsAskedIn(s: System, w: System, p: Peer, who: Peer)
    requires Inv(w) && p in w.inStep && w.first == s.first
    ensures
      var t := w.inStep[p];
      && w.Holds(p) && t <= |w.log|
      && var g := w.GroupOf(p);
         && g.groupId == s.Gid()
         && ((exists u: nat :: u < t && Drawn(w.log[u].proposal) == Some(g.groupKey)
                               && forall v | u < v < t :: Drawn(w.log[v].proposal).None?)
             || (g.groupKey == s.first.groupKey && forall v | 0 <= v < t :: Drawn(w.log[v].proposal).None?))
         && ((exists u: nat :: u < t && w.log[u].proposal == Rename(g.displayName)
                               && forall v | u < v < t :: !w.log[v].proposal.Rename?)
             || (g.displayName == s.first.displayName && forall v | 0 <= v < t :: !w.log[v].proposal.Rename?))
         && (who in g.members <==> exists u :: InSince(w, t, who, u))
         && (G.IsAdmin(g, who) <==> exists u :: AdminSince(w, t, who, u))
  {
    assert Replica(w, p);
    var t := w.inStep[p];
    KeyIsLastDrawn(w, t);
    NameIsLastGiven(w, t);
    MemberIffAdded(w, t, who);
    AdminIffPromoted(w, t, who);
    if t > 0 {
      SameGroupId(w, t - 1);
    }
    if u: nat :| KeyFrom(w, t, u) {
      assert Drawn(w.log[u].proposal) == Some(w.GroupOf(p).groupKey);
    }
    if u: nat :| NameFrom(w, t, u) {
      assert w.log[u].proposal == Rename(w.GroupOf(p).displayName);
    }
  }

  // --- exclusion by key ---

  /** Keys are drawn at random: none was drawn before in the run. */
  ghost predicate KeysFresh(s: System) {
    && (forall u, v | 0 <= u < v < |s.log| && Drawn(s.log[u].proposal).Some? ::
          Drawn(s.log[u].proposal) != Drawn(s.log[v].proposal))
    && (forall u | 0 <= u < |s.log| :: Drawn(s.log[u].proposal) != Some(s.first.groupKey))
  }

  /** After a rotation, the key is one drawn then or later. */
  lemma KeyDrawnSince(s: System, r: nat, t: nat) returns (u: nat)
    requires Linked(s) && r < t <= |s.log| && s.log[r].Rotates()
    ensures r <= u < t && Drawn(s.log[u].proposal) == Some(s.Canon(t).groupKey)
  {
    assert Link(s, r);
    InstallsDrawnKey(s.Canon(r), s.log[r]);
    KeyIsLastDrawn(s, t);
    u :| KeyFrom(s, t, u);
  }

  /** A key an excluded peer was ever entitled to is the first key or one drawn before it was taken out. */
  lemma EntitledKeyIsOld(w: System, p: Peer, r: nat, t: nat, e: u32, key: Octets)
    requires Inv(w) && KeysFresh(w) && Excluded(w, p, r) && r < t <= |w.log|
    requires Entitled(w, p, e, key)
    ensures key != w.Canon(t).groupKey
  {
    var last := KeyDrawnSince(w, r, t);
    if u :| 0 <= u < |w.log| && Gives(w, u, p, e, key) {
      if u >= r {
        NotAddressed(w, p, r, u);
      } else {
        assert Link(w, u);
        InstallsDrawnKey(w.Canon(u), w.log[u]);
        assert Drawn(w.log[u].proposal) == Some(key);
      }
    }
  }

  /** No two keys open one ciphertext. */
  ghost predicate OneKey(aead: Aead) {
    forall k, n, k', n', c, a, a' :: aead.open(k, n, c, a).Some? && aead.open(k', n', c, a').Some? ==> k == k'
  }

  /** When keys are drawn fresh, a removed peer holds and keeps no key of any later point, and a message sealed
      at a later point opens under none of the keys it holds or keeps, whatever nonce and data are tried. */
  lemma RemovedLacksTheKey(
    s: System, events: seq<Event>, p: Peer, r: nat, t: nat, aead: Aead, nonce: Octets, plaintext: Octets,
    n: Octets, a: Octets)
    requires Starts(s) && Legal(s, events) && aead.Correct() && OneKey(aead)
    requires KeysFresh(Run(s, events)) && Excluded(Run(s, events), p, r) && r < t <= |Run(s, events).log|
    ensures
      var w := Run(s, events);
      var sealed := M.Encrypt(w.Canon(t), aead, nonce, plaintext).ciphertext;
      && (w.Holds(p) ==>
            w.GroupOf(p).groupKey != w.Canon(t).groupKey && aead.open(w.GroupOf(p).groupKey, n, sealed, a).None?)
      && (p in w.nodes ==> forall slot <- w.nodes[p].pending | slot.0 == w.Gid() ::
            w.nodes[p].pending[slot] != w.Canon(t).groupKey && aead.open(w.nodes[p].pending[slot], n, sealed, a).None?)
  {
    var w := Run(s, events);
    StartInv(s);
    RunInv(s, events);
    LacksTheKey(w, p, r, t);
    OtherKeysFail(aead, w.Canon(t).groupKey, nonce, plaintext);
  }

  lemma LacksTheKey(w: System, p: Peer, r: nat, t: nat)
    requires Inv(w) && KeysFresh(w) && Excluded(w, p, r) && r < t <= |w.log|
    ensures w.Holds(p) ==> w.GroupOf(p).groupKey != w.Canon(t).groupKey
    ensures p in w.nodes ==> forall slot <- w.nodes[p].pending | slot.0 == w.Gid() ::
      w.nodes[p].pending[slot] != w.Canon(t).groupKey
  {
    if p in w.nodes {
      assert KeysEntitled(w, p);
      if w.Holds(p) {
        EntitledKeyIsOld(w, p, r, t, w.GroupOf(p).keyEpoch, w.GroupOf(p).groupKey);
      }
      forall slot | slot in w.nodes[p].pending && slot.0 == w.Gid()
        ensures w.nodes[p].pending[slot] != w.Canon(t).groupKey
      {
        var u :| 0 <= u < |w.log| && Gives(w, u, p, slot.1, w.nodes[p].pending[slot]) && p in w.log[u].change.recipients;
        EntitledKeyIsOld(w, p, r, t, slot.1, w.nodes[p].pending[slot]);
      }
    }
  }

  lemma OtherKeysFail(aead: Aead, key: Octets, nonce: Octets, plaintext: Octets)
    requires aead.Correct() && OneKey(aead)
    ensures forall k, n, a :: k != key ==> aead.open(k, n, aead.seal(key, nonce, plaintext, M.GROUP_AAD), a).None?
  {
    assert aead.open(key, nonce, aead.seal(key, nonce, plaintext, M.GROUP_AAD), M.GROUP_AAD).Some?;
  }
}

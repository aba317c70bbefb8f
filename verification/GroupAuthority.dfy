/** Who can change a group, over every run of controls, well-behaved or not. */
module GroupAuthority {
  import opened Wrappers
  import opened Bytes
  import opened X3dh
  import opened Group
  import Utf8

  /** A control that names `action` and carries its actor's signature. */
  predicate SignedAction(c: Control, action: Action) {
    Authentic(c) && c.action == action.Code()
  }

  /** Every effect of a control, also of one that fails, was authorized: a peer appears only by
      an administrator's invitation, becomes administrator only by an administrator's grant, and
      disappears only by an administrator's removal or its own departure; the name and the key
      change only by an administrator or with a departure. */
  lemma EveryEffectAuthorized(g: State, c: Control, newKey: Option<Octets>, p: Peer)
    ensures
      var g' := AfterApply(g, c, newKey).0;
      && (p in g'.members && p !in g.members ==>
            SignedAction(c, Invite) && IsAdmin(g, c.actor) && c.target == p)
      && (IsAdmin(g', p) && !IsAdmin(g, p) ==>
            SignedAction(c, GrantAdmin) && IsAdmin(g, c.actor) && c.target == p && p in g.members)
      && (p in g.members && p !in g'.members ==>
            || (SignedAction(c, Remove) && IsAdmin(g, c.actor) && c.target == p)
            || (SignedAction(c, Leave) && c.actor == p))
      && (IsAdmin(g, p) && !IsAdmin(g', p) && p in g'.members ==>
            (SignedAction(c, RevokeAdmin) || SignedAction(c, Invite)) && IsAdmin(g, c.actor) && c.target == p)
      && (g'.displayName != g.displayName ==> SignedAction(c, Rename) && IsAdmin(g, c.actor))
      && ((g'.groupKey, g'.keyEpoch) != (g.groupKey, g.keyEpoch) ==>
            && newKey == Some(g'.groupKey) && g'.keyEpoch == c.keyEpoch
            && (SignedAction(c, Leave) ||
                ((SignedAction(c, Invite) || SignedAction(c, Remove)) && IsAdmin(g, c.actor))))
      && g'.groupId == g.groupId
  {
  }

  /** A new group has its creator as only member and administrator, and the creator can add and rename at once. */
  lemma CreatorGoverns(groupId: Octets, creator: Peer, name: Utf8.Text, key: Octets, p: Peer, key': Octets, name': Utf8.Text)
    ensures
      var g := Create(groupId, creator, name, key);
      && g.groupId == groupId && g.displayName == name && g.groupKey == key && g.keyEpoch == 0
      && (p in g.members <==> p == creator)
      && (IsAdmin(g, p) <==> p == creator)
      && (AfterAdd(g, p, p, key').1.Ok? <==> p == creator)
      && (AfterRename(g, p, name').1.Ok? <==> p == creator)
  {
  }

  /** Why a control is refused, by the numbers of the actions: invitations (0), removals (3), grants (4), revocations
      (5) and renames (6) need an administrator, and what rotates (0, 2, 3) needs the delivered key. */
  lemma RefusedExactly(g: State, c: Control, newKey: Option<Octets>)
    ensures
      var r := AfterApply(g, c, newKey).1;
      var admin := IsAdmin(g, c.actor);
      var authentic := c.groupId == g.groupId && Authentic(c);
      && (r == Err(WrongGroup) <==> c.groupId != g.groupId)
      && (r == Err(BadSignature) <==>
            c.groupId == g.groupId && |c.actor| == 32 && c.signature.Sig64? && !Authentic(c))
      && (r == Err(Malformed) <==>
            c.groupId == g.groupId && (|c.actor| != 32 || c.signature.OtherLength? || (Authentic(c) && c.action > 7)))
      && (r == Err(NotAdmin) <==> authentic && c.action <= 6 && c.action != 1 && c.action != 2 && !admin)
      && (r == Err(MissingKey) <==>
            authentic && newKey.None? && (c.action == 2 || ((c.action == 0 || c.action == 3) && admin)))
      && (r == Err(TargetNotMember) <==>
            authentic && (c.action == 4 || c.action == 5) && admin && c.target !in g.members)
      && r != Err(EpochMismatch) && r != Err(Crypto)
  {
  }

  /** What a control that applies does, by the numbers of the actions. */
  lemma AppliedExactly(g: State, c: Control, newKey: Option<Octets>, p: Peer)
    requires AfterApply(g, c, newKey).1.Ok?
    ensures
      var g' := AfterApply(g, c, newKey).0;
      var rotates := c.action == 0 || c.action == 2 || c.action == 3;
      var leaves := (c.action == 2 && p == c.actor) || (c.action == 3 && p == c.target);
      var joins := c.action == 0 && p == c.target;
      && g'.groupId == g.groupId
      && g'.displayName == (if c.action == 6 then Utf8.DecodeLossy(c.aux) else g.displayName)
      && (rotates ==> newKey == Some(g'.groupKey) && g'.keyEpoch == c.keyEpoch)
      && (!rotates ==> g'.groupKey == g.groupKey && g'.keyEpoch == g.keyEpoch)
      && (p in g'.members <==> joins || (p in g.members && !leaves))
      && (IsAdmin(g', p) <==>
            (c.action == 4 && p == c.target)
            || (IsAdmin(g, p) && !leaves && !joins && !(c.action == 5 && p == c.target)))
      && (p in g'.members ==>
            g'.members[p].joinedEpoch == if joins then c.keyEpoch else g.members[p].joinedEpoch)
  {
  }

  /** A refused control has no effect, except that a departure without its key still takes the member out. */
  lemma RefusedEffect(g: State, c: Control, newKey: Option<Octets>)
    requires AfterApply(g, c, newKey).1.Err?
    ensures AfterApply(g, c, newKey).0 ==
      if AfterApply(g, c, newKey).1.error != MissingKey || c.action == 0 then g
      else g.(members := g.members - {if c.action == 2 then c.actor else c.target})
  {
  }

  /** Any sequence of controls, each with any key or none. */
  type Controls = seq<(Control, Option<Octets>)>

  function Replay(g: State, run: Controls): State {
    if run == [] then
      g
    else
      var last := |run| - 1;
      AfterApply(Replay(g, run[..last]), run[last].0, run[last].1).0
  }

  /** Control `i` of the run made `p` an administrator: `granter`, an administrator at that moment, signed the grant. */
  ghost predicate GrantedAt(g0: State, run: Controls, i: nat, granter: Peer, p: Peer) {
    && i < |run|
    && SignedAction(run[i].0, GrantAdmin) && run[i].0.actor == granter && run[i].0.target == p
    && IsAdmin(Replay(g0, run[..i]), granter)
    && !IsAdmin(Replay(g0, run[..i]), p) && IsAdmin(Replay(g0, run[..i + 1]), p)
  }

  /** Each peer of `path` made the next one an administrator, at later and later controls of the run. */
  ghost predicate GrantPath(g0: State, run: Controls, path: seq<Peer>, at: seq<nat>) {
    && |path| == |at| + 1
    && (forall j | 0 <= j < |at| :: GrantedAt(g0, run, at[j], path[j], path[j + 1]))
    && (forall i, j | 0 <= i < j < |at| :: at[i] < at[j])
  }

  /** Every administrator traces back to the creator through grants that took effect, in order, each signed by
      one who was an administrator then. */
  lemma {:induction false} AdminsTraceToCreator(creator: Peer, g0: State, run: Controls, p: Peer)
    returns (path: seq<Peer>, at: seq<nat>)
    requires g0.members == map[creator := Member(true, 0)]
    requires IsAdmin(Replay(g0, run), p)
    ensures GrantPath(g0, run, path, at)
    ensures path[0] == creator && path[|path| - 1] == p
    decreases |run|
  {
    if run == [] {
      path, at := [p], [];
    } else {
      var last := |run| - 1;
      var c := run[last].0;
      assert run[..last + 1] == run;
      EveryEffectAuthorized(Replay(g0, run[..last]), c, run[last].1, p);
      if IsAdmin(Replay(g0, run[..last]), p) {
        path, at := AdminsTraceToCreator(creator, g0, run[..last], p);
        GrantPathExtends(g0, run, last, path, at);
      } else {
        path, at := AdminsTraceToCreator(creator, g0, run[..last], c.actor);
        GrantPathExtends(g0, run, last, path, at);
        GrantPathGrows(g0, run, last, path, at, p);
        path, at := path + [p], at + [last];
      }
    }
  }

  lemma GrantPathExtends(g0: State, run: Controls, n: nat, path: seq<Peer>, at: seq<nat>)
    requires n <= |run| && GrantPath(g0, run[..n], path, at)
    ensures GrantPath(g0, run, path, at) && forall i <- at :: i < n
  {
    forall j | 0 <= j < |at|
      ensures at[j] < n && GrantedAt(g0, run, at[j], path[j], path[j + 1])
    {
      assert GrantedAt(g0, run[..n], at[j], path[j], path[j + 1]);
      PrefixOfPrefix(run, n, at[j]);
    }
  }

  lemma GrantPathGrows(g0: State, run: Controls, n: nat, path: seq<Peer>, at: seq<nat>, p: Peer)
    requires GrantPath(g0, run, path, at) && forall i <- at :: i < n
    requires GrantedAt(g0, run, n, path[|path| - 1], p)
    ensures GrantPath(g0, run, path + [p], at + [n])
  {
    var path', at' := path + [p], at + [n];
    forall j | 0 <= j < |at'|
      ensures GrantedAt(g0, run, at'[j], path'[j], path'[j + 1])
    {
      assert j < |at| ==> GrantedAt(g0, run, at[j], path[j], path[j + 1]);
    }
    assert forall j | 0 <= j < |at| :: at[j] in at;
  }

  lemma PrefixOfPrefix(run: Controls, n: nat, i: nat)
    requires i < n <= |run|
    ensures run[..n][..i] == run[..i] && run[..n][..i + 1] == run[..i + 1] && run[..n][i] == run[i]
  {
  }

  /** Control `i` of the run brought `p` in: the invitation was signed by an administrator of that moment. */
  ghost predicate InvitedAt(g0: State, run: Controls, i: nat, p: Peer) {
    && i < |run|
    && SignedAction(run[i].0, Invite) && run[i].0.target == p
    && IsAdmin(Replay(g0, run[..i]), run[i].0.actor)
    && p !in Replay(g0, run[..i]).members && p in Replay(g0, run[..i + 1]).members
  }

  /** Every member that was not there from the start came in by an administrator's invitation that took effect,
      and has not left since. */
  lemma {:induction false} MembersWereInvited(g0: State, run: Controls, p: Peer) returns (i: nat)
    requires p in Replay(g0, run).members && p !in g0.members
    ensures InvitedAt(g0, run, i, p)
    ensures forall j | i < j <= |run| :: p in Replay(g0, run[..j]).members
    decreases |run|
  {
    var last := |run| - 1;
    assert run[..last + 1] == run;
    if p in Replay(g0, run[..last]).members {
      i := MembersWereInvited(g0, run[..last], p);
      InvitedExtends(g0, run[..last], run, i, p);
    } else {
      i := last;
      EveryEffectAuthorized(Replay(g0, run[..last]), run[last].0, run[last].1, p);
    }
  }

  lemma InvitedExtends(g0: State, before: Controls, run: Controls, i: nat, p: Peer)
    requires run != [] && before == run[..|run| - 1] && p in Replay(g0, run).members
    requires InvitedAt(g0, before, i, p) && forall j | i < j <= |before| :: p in Replay(g0, before[..j]).members
    ensures InvitedAt(g0, run, i, p)
    ensures forall j | i < j <= |run| :: p in Replay(g0, run[..j]).members
  {
    var last := |run| - 1;
    PrefixOfPrefix(run, last, i);
    forall j | i < j <= |run|
      ensures p in Replay(g0, run[..j]).members
    {
      if j <= last {
        assert before[..j] == run[..j];
      } else {
        assert run[..j] == run;
      }
    }
  }
}

/** The group state every member keeps, and the signed control events that evolve it. */
module Group {
  import opened Wrappers
  import opened Bytes
  import opened X3dh
  import Utf8

  /** "ep2pc-group-control-v1" */
  const SIG_LABEL: Octets :=
    [101, 112, 50, 112, 99, 45, 103, 114, 111, 117, 112, 45, 99, 111, 110, 116, 114, 111, 108, 45, 118, 49]

  datatype Action = Invite | JoinAck | Leave | Remove | GrantAdmin | RevokeAdmin | Rename | KeyRotation {
    function Code(): u32 {
      match this
      case Invite => 0
      case JoinAck => 1
      case Leave => 2
      case Remove => 3
      case GrantAdmin => 4
      case RevokeAdmin => 5
      case Rename => 6
      case KeyRotation => 7
    }

    /** Membership changes install a new key. */
    predicate Rotates() {
      Invite? || Leave? || Remove?
    }
  }

  function ActionFrom(code: u32): Result<Action, GroupError> {
    match code
    case 0 => Ok(Invite)
    case 1 => Ok(JoinAck)
    case 2 => Ok(Leave)
    case 3 => Ok(Remove)
    case 4 => Ok(GrantAdmin)
    case 5 => Ok(RevokeAdmin)
    case 6 => Ok(Rename)
    case 7 => Ok(KeyRotation)
    case _ => Err(Malformed)
  }

  datatype GroupError =
    | NotAdmin | BadSignature | WrongGroup | TargetNotMember | MissingKey | EpochMismatch | Crypto | Malformed

  datatype Member = Member(isAdmin: bool, joinedEpoch: u32)

  /** The signature bytes of a control; only 64 bytes can be a signature. */
  datatype SignatureField = Sig64(signature: Signature<Octets>) | OtherLength(raw: Octets)

  datatype Control = Control(
    action: u32,
    target: Octets,
    groupId: Octets,
    keyEpoch: u32,
    signature: SignatureField,
    aux: Octets,
    actor: Octets)

  /** A signed control with the key it installs and the members the key must reach. */
  datatype Change = Change(control: Control, newKey: Option<Octets>, recipients: set<Peer>)

  datatype State = State(
    groupId: Octets,
    displayName: Utf8.Text,
    keyEpoch: u32,
    groupKey: Octets,
    members: map<Peer, Member>)

  predicate IsAdmin(g: State, peer: Peer) {
    peer in g.members && g.members[peer].isAdmin
  }

  function Create(groupId: Octets, creator: Peer, displayName: Utf8.Text, key: Octets): State {
    State(groupId, displayName, 0, key, map[creator := Member(true, 0)])
  }

  /** Everything that is signed: all fields but the signature. */
  function SigningInput(c: Control): Octets {
    SIG_LABEL + SignedFields(c)
  }

  function SignedFields(c: Control): Octets {
    U32ToBytes(c.action) + PutField(c.groupId) + PutField(c.target) + U32ToBytes(c.keyEpoch)
    + PutField(c.actor) + PutField(c.aux)
  }

  function Unsigned(g: State, action: Action, target: Octets, epoch: u32, aux: Octets, actor: Peer): Control {
    Control(action.Code(), target, g.groupId, epoch, OtherLength([]), aux, actor)
  }

  function Sign(c: Control, signer: Peer): Control {
    c.(signature := Sig64(Signed(signer, SigningInput(c))))
  }

  // --- what each operation does to the state ---

  function AfterAdd(g: State, admin: Peer, newMember: Peer, key: Octets): (State, Result<Change, GroupError>)
    requires g.keyEpoch < U32_MAX
  {
    if !IsAdmin(g, admin) then
      (g, Err(NotAdmin))
    else
      var epoch: u32 := g.keyEpoch + 1;
      var g' := g.(keyEpoch := epoch, groupKey := key, members := g.members[newMember := Member(false, epoch)]);
      (g', Ok(Change(Sign(Unsigned(g, Invite, newMember, epoch, [], admin), admin),
                     Some(key), g'.members.Keys - {admin})))
  }

  function AfterRemove(g: State, admin: Peer, target: Peer, key: Octets): (State, Result<Change, GroupError>)
    requires g.keyEpoch < U32_MAX
  {
    if !IsAdmin(g, admin) then
      (g, Err(NotAdmin))
    else if target !in g.members then
      (g, Err(TargetNotMember))
    else
      var epoch: u32 := g.keyEpoch + 1;
      var g' := g.(keyEpoch := epoch, groupKey := key, members := g.members - {target});
      (g', Ok(Change(Sign(Unsigned(g, Remove, target, epoch, [], admin), admin),
                     Some(key), g'.members.Keys - {admin})))
  }

  function AfterLeave(g: State, member: Peer, key: Octets): (State, Result<Change, GroupError>)
    requires g.keyEpoch < U32_MAX
  {
    if member !in g.members then
      (g, Err(NotAdmin))
    else
      var epoch: u32 := g.keyEpoch + 1;
      var g' := g.(keyEpoch := epoch, groupKey := key, members := g.members - {member});
      (g', Ok(Change(Sign(Unsigned(g, Leave, member, epoch, [], member), member), Some(key), g'.members.Keys)))
  }

  function WithAdmin(g: State, target: Peer, value: bool): State
    requires target in g.members
  {
    g.(members := g.members[target := g.members[target].(isAdmin := value)])
  }

  function AfterSetAdmin(g: State, admin: Peer, target: Peer, value: bool): (State, Result<Change, GroupError>) {
    if !IsAdmin(g, admin) then
      (g, Err(NotAdmin))
    else if target !in g.members then
      (g, Err(TargetNotMember))
    else
      var action := if value then GrantAdmin else RevokeAdmin;
      (WithAdmin(g, target, value),
       Ok(Change(Sign(Unsigned(g, action, target, g.keyEpoch, [], admin), admin), None, {})))
  }

  function AfterRename(g: State, admin: Peer, name: Utf8.Text): (State, Result<Change, GroupError>) {
    if !IsAdmin(g, admin) then
      (g, Err(NotAdmin))
    else
      (g.(displayName := name),
       Ok(Change(Sign(Unsigned(g, Rename, [], g.keyEpoch, Utf8.Encode(name), admin), admin), None, {})))
  }

  /** The actor of a control whose signature verifies. */
  predicate Authentic(c: Control) {
    |c.actor| == 32 && c.signature.Sig64? && c.signature.signature == Signed(c.actor, SigningInput(c))
  }

  function AfterApply(g: State, c: Control, newKey: Option<Octets>): (State, Result<Unit, GroupError>) {
    if c.groupId != g.groupId then
      (g, Err(WrongGroup))
    else if |c.actor| != 32 || c.signature.OtherLength? then
      (g, Err(Malformed))
    else if !Authentic(c) then
      (g, Err(BadSignature))
    else
      match ActionFrom(c.action)
      case Err(e) => (g, Err(e))
      case Ok(action) => AfterAction(g, c, action, newKey)
  }

  /** The state may change even when the result is an error: a removal or a departure without
      its key takes the member out and then reports the missing key. */
  function AfterAction(g: State, c: Control, action: Action, newKey: Option<Octets>): (State, Result<Unit, GroupError>) {
    match action
    case Invite =>
      if !IsAdmin(g, c.actor) then
        (g, Err(NotAdmin))
      else if newKey.None? then
        (g, Err(MissingKey))
      else
        (g.(keyEpoch := c.keyEpoch, groupKey := newKey.value,
            members := g.members[c.target := Member(false, c.keyEpoch)]), Ok(Unit))
    case Remove =>
      if !IsAdmin(g, c.actor) then (g, Err(NotAdmin)) else AfterDeparture(g, c.target, c.keyEpoch, newKey)
    case Leave =>
      AfterDeparture(g, c.actor, c.keyEpoch, newKey)
    case GrantAdmin => AfterAdminAction(g, c, true)
    case RevokeAdmin => AfterAdminAction(g, c, false)
    case Rename =>
      if !IsAdmin(g, c.actor) then (g, Err(NotAdmin)) else (g.(displayName := Utf8.DecodeLossy(c.aux)), Ok(Unit))
    case JoinAck => (g, Ok(Unit))
    case KeyRotation => (g, Ok(Unit))
  }

  function AfterDeparture(g: State, who: Peer, epoch: u32, newKey: Option<Octets>): (State, Result<Unit, GroupError>) {
    var g' := g.(members := g.members - {who});
    if newKey.None? then
      (g', Err(MissingKey))
    else
      (g'.(keyEpoch := epoch, groupKey := newKey.value), Ok(Unit))
  }

  function AfterAdminAction(g: State, c: Control, value: bool): (State, Result<Unit, GroupError>) {
    if !IsAdmin(g, c.actor) then
      (g, Err(NotAdmin))
    else if c.target !in g.members then
      (g, Err(TargetNotMember))
    else
      (WithAdmin(g, c.target, value), Ok(Unit))
  }

  // --- what a signature covers ---

  /** What is signed starts with the label and the number of the action. */
  lemma SigningInputStarts(c: Control)
    ensures
      var head := Ascii("ep2pc-group-control-v1") + U32ToBytes(c.action);
      |SigningInput(c)| >= |head| && SigningInput(c)[..|head|] == head
  {
    assert SIG_LABEL == Ascii("ep2pc-group-control-v1");
    assert SignedFields(c)[..4] == U32ToBytes(c.action);
    assert SigningInput(c)[..|SIG_LABEL| + 4] == SIG_LABEL + SignedFields(c)[..4];
  }

  predicate FieldsFit(c: Control) {
    |c.groupId| <= U32_MAX && |c.target| <= U32_MAX && |c.actor| <= U32_MAX && |c.aux| <= U32_MAX
  }

  /** The epoch, the actor and the auxiliary field. */
  function TakeControlTail(b: Octets): Option<(u32, Octets, Octets)> {
    var (epoch, b) :- TakeU32(b);
    var (actor, b) :- TakeField(b);
    var (aux, b) :- TakeField(b);
    Some((epoch, actor, aux))
  }

  function TakeControl(b: Octets): Option<Control> {
    var (action, b) :- TakeU32(b);
    var (groupId, b) :- TakeField(b);
    var (target, b) :- TakeField(b);
    var (epoch, actor, aux) :- TakeControlTail(b);
    Some(Control(action, target, groupId, epoch, OtherLength([]), aux, actor))
  }

  function ControlTail(c: Control): Octets {
    U32ToBytes(c.keyEpoch) + (PutField(c.actor) + PutField(c.aux))
  }

  lemma TakeControlTailOf(c: Control)
    requires FieldsFit(c)
    ensures TakeControlTail(ControlTail(c)) == Some((c.keyEpoch, c.actor, c.aux))
  {
    TakeU32Of(c.keyEpoch, PutField(c.actor) + PutField(c.aux));
    TakeFieldOf(c.actor, PutField(c.aux));
    assert PutField(c.aux) == PutField(c.aux) + [];
    TakeFieldOf(c.aux, []);
  }

  lemma SignedFieldsNested(c: Control)
    ensures SignedFields(c)
         == U32ToBytes(c.action) + (PutField(c.groupId) + (PutField(c.target) + ControlTail(c)))
  {
    var p2 := U32ToBytes(c.action) + PutField(c.groupId);
    var p3 := p2 + PutField(c.target);
    Assoc(p3 + U32ToBytes(c.keyEpoch), PutField(c.actor), PutField(c.aux));
    Assoc(p3, U32ToBytes(c.keyEpoch), PutField(c.actor) + PutField(c.aux));
    Assoc(p2, PutField(c.target), ControlTail(c));
    Assoc(U32ToBytes(c.action), PutField(c.groupId), PutField(c.target) + ControlTail(c));
  }

  lemma SignedFieldsDetermine(c: Control)
    requires FieldsFit(c)
    ensures TakeControl(SignedFields(c)) == Some(c.(signature := OtherLength([])))
  {
    SignedFieldsNested(c);
    TakeU32Of(c.action, PutField(c.groupId) + (PutField(c.target) + ControlTail(c)));
    TakeFieldOf(c.groupId, PutField(c.target) + ControlTail(c));
    TakeFieldOf(c.target, ControlTail(c));
    TakeControlTailOf(c);
  }

  /** The signed bytes determine every field but the signature. */
  lemma SigningInputInjective(c: Control, c': Control)
    requires FieldsFit(c) && FieldsFit(c') && SigningInput(c) == SigningInput(c')
    ensures c'.(signature := c.signature) == c
  {
    assert SigningInput(c)[|SIG_LABEL|..] == SignedFields(c);
    assert SigningInput(c')[|SIG_LABEL|..] == SignedFields(c');
    SignedFieldsDetermine(c);
    SignedFieldsDetermine(c');
  }

  /** A control altered in any field is not authentic under the original signature. */
  lemma AlteredControlNeverApplies(c: Control, c': Control, g: State, newKey: Option<Octets>)
    requires FieldsFit(c) && FieldsFit(c') && Authentic(c)
    requires c'.signature == c.signature && c' != c
    ensures AfterApply(g, c', newKey).0 == g && AfterApply(g, c', newKey).1.Err?
  {
    if SigningInput(c) == SigningInput(c') {
      SigningInputInjective(c, c');
    }
  }

  /** The bound on the field lengths is needed: lengths are written modulo 2^32, and a group id
      of 2^32 zero bytes signs like an empty group id with 2^32 zero bytes of `aux`. */
  lemma SigningInputWraps()
    ensures exists c, c' :: c != c' && SigningInput(c) == SigningInput(c')
  {
    var zeros: Octets := seq(0x1_0000_0000, _ => 0);
    var c := Control(0, [], zeros, 0, OtherLength([]), [], []);
    var c' := Control(0, [], [], 0, OtherLength([]), zeros, []);
    assert |c.groupId| != |c'.groupId|;
    assert U32ToBytes(0) == [0, 0, 0, 0];
    assert PutField(zeros) == [0, 0, 0, 0] + zeros && PutField([]) == [0, 0, 0, 0];
    assert zeros + [0, 0, 0, 0] == [0, 0, 0, 0] + zeros;
    assert SigningInput(c) == SigningInput(c');
  }

  // --- proposing and applying agree ---

  /** What a member proposes, every other member that holds the same state reaches by applying
      the control with the key that was delivered; and the proposal is authentic. */
  ghost predicate Reproduces(g: State, out: (State, Result<Change, GroupError>)) {
    out.1.Ok? ==>
      && Authentic(out.1.value.control)
      && AfterApply(g, out.1.value.control, out.1.value.newKey) == (out.0, Ok(Unit))
  }

  lemma AddReproduced(g: State, admin: Peer, newMember: Peer, key: Octets)
    requires g.keyEpoch < U32_MAX && |admin| == 32
    ensures Reproduces(g, AfterAdd(g, admin, newMember, key))
  {
  }

  lemma RemoveReproduced(g: State, admin: Peer, target: Peer, key: Octets)
    requires g.keyEpoch < U32_MAX && |admin| == 32
    ensures Reproduces(g, AfterRemove(g, admin, target, key))
  {
  }

  lemma LeaveReproduced(g: State, member: Peer, key: Octets)
    requires g.keyEpoch < U32_MAX && |member| == 32
    ensures Reproduces(g, AfterLeave(g, member, key))
  {
  }

  lemma SetAdminReproduced(g: State, admin: Peer, target: Peer, value: bool)
    requires |admin| == 32
    ensures Reproduces(g, AfterSetAdmin(g, admin, target, value))
  {
  }

  lemma RenameReproduced(g: State, admin: Peer, name: Utf8.Text)
    requires |admin| == 32
    ensures Reproduces(g, AfterRename(g, admin, name))
  {
    Utf8.RoundTrip(name);
  }

  // --- the object ---

  class GroupState {
    const groupId: Octets
    var displayName: Utf8.Text
    var keyEpoch: u32
    var groupKey: Octets
    var members: map<Peer, Member>

    function Value(): State
      reads this
    {
      State(groupId, displayName, keyEpoch, groupKey, members)
    }

    constructor (groupId: Octets, creator: Peer, displayName: Utf8.Text, key: Octets)
      ensures Value() == Create(groupId, creator, displayName, key)
    {
      this.groupId := groupId;
      this.displayName := displayName;
      keyEpoch := 0;
      groupKey := key;
      members := map[creator := Member(true, 0)];
    }

    /** The invitee's state, from the data a delivery carries. */
    constructor Join(g: State)
      ensures Value() == g
    {
      groupId := g.groupId;
      displayName := g.displayName;
      keyEpoch := g.keyEpoch;
      groupKey := g.groupKey;
      members := g.members;
    }

    method ProposeAdd(admin: Peer, newMember: Peer, key: Octets) returns (r: Result<Change, GroupError>)
      requires keyEpoch < U32_MAX
      modifies this
      ensures (Value(), r) == AfterAdd(old(Value()), admin, newMember, key)
    {
      if !IsAdmin(Value(), admin) {
        return Err(NotAdmin);
      }
      var newEpoch: u32 := keyEpoch + 1;
      RotateTo(newEpoch, key);
      members := members[newMember := Member(false, newEpoch)];
      var recipients := members.Keys - {admin};
      r := Ok(Change(SignedControl(admin, Invite, newMember, newEpoch), Some(groupKey), recipients));
    }

    method ProposeRemove(admin: Peer, target: Peer, key: Octets) returns (r: Result<Change, GroupError>)
      requires keyEpoch < U32_MAX
      modifies this
      ensures (Value(), r) == AfterRemove(old(Value()), admin, target, key)
    {
      if !IsAdmin(Value(), admin) {
        return Err(NotAdmin);
      }
      if target !in members {
        return Err(TargetNotMember);
      }
      members := members - {target};
      var newEpoch: u32 := keyEpoch + 1;
      RotateTo(newEpoch, key);
      var recipients := members.Keys - {admin};
      r := Ok(Change(SignedControl(admin, Remove, target, newEpoch), Some(groupKey), recipients));
    }

    method ProposeLeave(member: Peer, key: Octets) returns (r: Result<Change, GroupError>)
      requires keyEpoch < U32_MAX
      modifies this
      ensures (Value(), r) == AfterLeave(old(Value()), member, key)
    {
      if member !in members {
        return Err(NotAdmin);
      }
      members := members - {member};
      var newEpoch: u32 := keyEpoch + 1;
      RotateTo(newEpoch, key);
      r := Ok(Change(SignedControl(member, Leave, member, newEpoch), Some(groupKey), members.Keys));
    }

    method SetAdmin(admin: Peer, target: Peer, value: bool) returns (r: Result<Change, GroupError>)
      modifies this`members
      ensures (Value(), r) == AfterSetAdmin(old(Value()), admin, target, value)
    {
      if !IsAdmin(Value(), admin) {
        return Err(NotAdmin);
      }
      var changed := SetMemberAdmin(target, value);
      if changed.Err? {
        return Err(changed.error);
      }
      var action := if value then GrantAdmin else RevokeAdmin;
      r := Ok(Change(SignedControl(admin, action, target, keyEpoch), None, {}));
    }

    method ProposeRename(admin: Peer, name: Utf8.Text) returns (r: Result<Change, GroupError>)
      modifies this`displayName
      ensures (Value(), r) == AfterRename(old(Value()), admin, name)
    {
      if !IsAdmin(Value(), admin) {
        return Err(NotAdmin);
      }
      displayName := name;
      var control := Unsigned(Value(), Rename, [], keyEpoch, [], admin);
      control := control.(aux := Utf8.Encode(name));
      r := Ok(Change(Sign(control, admin), None, {}));
    }

    method Apply(c: Control, newKey: Option<Octets>) returns (r: Result<Unit, GroupError>)
      modifies this`displayName, this`keyEpoch, this`groupKey, this`members
      ensures (Value(), r) == AfterApply(old(Value()), c, newKey)
    {
      if c.groupId != groupId {
        return Err(WrongGroup);
      }
      if |c.actor| != 32 || c.signature.OtherLength? {
        return Err(Malformed);
      }
      if c.signature.signature != Signed(c.actor, SigningInput(c)) {
        return Err(BadSignature);
      }
      var action := ActionFrom(c.action);
      if action.Err? {
        return Err(action.error);
      }
      match action.value {
        case Invite =>
          if !IsAdmin(Value(), c.actor) {
            return Err(NotAdmin);
          }
          if newKey.None? {
            return Err(MissingKey);
          }
          RotateTo(c.keyEpoch, newKey.value);
          members := members[c.target := Member(false, c.keyEpoch)];
        case Remove =>
          if !IsAdmin(Value(), c.actor) {
            return Err(NotAdmin);
          }
          members := members - {c.target};
          if newKey.None? {
            return Err(MissingKey);
          }
          RotateTo(c.keyEpoch, newKey.value);
        case Leave =>
          members := members - {c.actor};
          if newKey.None? {
            return Err(MissingKey);
          }
          RotateTo(c.keyEpoch, newKey.value);
        case GrantAdmin =>
          if !IsAdmin(Value(), c.actor) {
            return Err(NotAdmin);
          }
          r := SetMemberAdmin(c.target, true);
          return;
        case RevokeAdmin =>
          if !IsAdmin(Value(), c.actor) {
            return Err(NotAdmin);
          }
          r := SetMemberAdmin(c.target, false);
          return;
        case Rename =>
          if !IsAdmin(Value(), c.actor) {
            return Err(NotAdmin);
          }
          displayName := Utf8.DecodeLossy(c.aux);
        case JoinAck =>
        case KeyRotation =>
      }
      r := Ok(Unit);
    }

    method SetMemberAdmin(target: Peer, value: bool) returns (r: Result<Unit, GroupError>)
      modifies this`members
      ensures r == (if target in old(members) then Ok(Unit) else Err(TargetNotMember))
      ensures Value() == (if target in old(members) then WithAdmin(old(Value()), target, value) else old(Value()))
    {
      if target !in members {
        return Err(TargetNotMember);
      }
      members := members[target := members[target].(isAdmin := value)];
      r := Ok(Unit);
    }

    method RotateTo(epoch: u32, key: Octets)
      modifies this`keyEpoch, this`groupKey
      ensures keyEpoch == epoch && groupKey == key
    {
      groupKey := key;
      keyEpoch := epoch;
    }

    function SignedControl(signer: Peer, action: Action, target: Octets, epoch: u32): Control
      reads this
    {
      Sign(Unsigned(Value(), action, target, epoch, [], signer), signer)
    }
  }
}

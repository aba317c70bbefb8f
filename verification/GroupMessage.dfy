/** Group messages: sealed under the key of the current epoch and tagged with it. */
module GroupMessage {
  import opened Wrappers
  import opened Bytes
  import opened Aead
  import G = Group

  /** "ep2pc-group-msg-v1" */
  const GROUP_AAD: Octets := [101, 112, 50, 112, 99, 45, 103, 114, 111, 117, 112, 45, 109, 115, 103, 45, 118, 49]

  datatype GroupCiphertext = GroupCiphertext(epoch: u32, nonce: Octets, ciphertext: Octets)

  function Encrypt(g: G.State, aead: Aead, nonce: Octets, plaintext: Octets): GroupCiphertext {
    GroupCiphertext(g.keyEpoch, nonce, aead.seal(g.groupKey, nonce, plaintext, GROUP_AAD))
  }

  function Decrypt(g: G.State, aead: Aead, msg: GroupCiphertext): Result<Octets, G.GroupError> {
    if msg.epoch != g.keyEpoch then
      Err(G.EpochMismatch)
    else
      match aead.open(g.groupKey, msg.nonce, msg.ciphertext, GROUP_AAD)
      case None => Err(G.Crypto)
      case Some(plaintext) => Ok(plaintext)
  }

  function EncodeCiphertext(ct: GroupCiphertext): Octets {
    U32ToBytes(ct.epoch) + ct.nonce + ct.ciphertext
  }

  function DecodeCiphertext(b: Octets): Option<GroupCiphertext> {
    if |b| < 16 then None else Some(GroupCiphertext(U32FromBytes(b[0..4]), b[4..16], b[16..]))
  }

  /** The broadcast of a message: kind 0, the group id, the ciphertext. */
  function MessagePayload(g: G.State, aead: Aead, nonce: Octets, plaintext: Octets): Octets {
    [0] + PutField(g.groupId) + EncodeCiphertext(Encrypt(g, aead, nonce, plaintext))
  }

  /** The message part of `parse_broadcast`; a control (kind 1) is a protobuf message. */
  function ParseMessage(payload: Octets): Option<(Octets, Octets)> {
    var (kind, rest) :- TakeBytes(payload, 1);
    if kind[0] == 0 then TakeField(rest) else None
  }

  function DecryptPayload(g: G.State, aead: Aead, wire: Octets): Result<Octets, G.GroupError> {
    match DecodeCiphertext(wire)
    case None => Err(G.Malformed)
    case Some(ct) => Decrypt(g, aead, ct)
  }

  lemma CiphertextRoundTrip(ct: GroupCiphertext)
    requires |ct.nonce| == 12
    ensures DecodeCiphertext(EncodeCiphertext(ct)) == Some(ct)
  {
    var b := EncodeCiphertext(ct);
    assert b[0..4] == U32ToBytes(ct.epoch) && b[4..16] == ct.nonce && b[16..] == ct.ciphertext;
    U32RoundTrip(ct.epoch);
  }

  /** A broadcast message reaches every state that holds the sender's epoch and key, unchanged;
      a state at any other epoch refuses it before looking at the key. */
  lemma MessageDelivery(sender: G.State, receiver: G.State, aead: Aead, nonce: Octets, plaintext: Octets)
    requires aead.Correct() && |nonce| == 12 && |sender.groupId| <= U32_MAX
    ensures
      var payload := MessagePayload(sender, aead, nonce, plaintext);
      && payload[0] == 0
      && ParseMessage(payload).Some?
      && ParseMessage(payload).value.0 == sender.groupId
      && var r := DecryptPayload(receiver, aead, ParseMessage(payload).value.1);
      && (receiver.keyEpoch == sender.keyEpoch && receiver.groupKey == sender.groupKey ==> r == Ok(plaintext))
      && (receiver.keyEpoch != sender.keyEpoch ==> r == Err(G.EpochMismatch))
  {
    var ct := Encrypt(sender, aead, nonce, plaintext);
    Assoc([0], PutField(sender.groupId), EncodeCiphertext(ct));
    TakeBytesOf([0], PutField(sender.groupId) + EncodeCiphertext(ct));
    TakeFieldOf(sender.groupId, EncodeCiphertext(ct));
    CiphertextRoundTrip(ct);
  }

  /** Only a payload of kind 0 is a message. */
  lemma OnlyKindZero(payload: Octets)
    ensures ParseMessage(payload).Some? ==> payload != [] && payload[0] == 0
  {
  }

  /** Why a message is refused: fewer than 16 bytes, another epoch, or not sealed under the key of this one. */
  lemma RefusedExactly(g: G.State, aead: Aead, wire: Octets)
    ensures
      var r := DecryptPayload(g, aead, wire);
      var current := |wire| >= 16 && U32FromBytes(wire[..4]) == g.keyEpoch;
      && (r == Err(G.Malformed) <==> |wire| < 16)
      && (r == Err(G.EpochMismatch) <==> |wire| >= 16 && !current)
      && (r == Err(G.Crypto) <==> current && aead.open(g.groupKey, wire[4..16], wire[16..], GROUP_AAD).None?)
      && (r.Ok? <==> current && aead.open(g.groupKey, wire[4..16], wire[16..], GROUP_AAD).Some?)
  {
  }

  /** Group messages are sealed under the group key with their label as associated data. */
  lemma SealedWithLabel(g: G.State, aead: Aead, nonce: Octets, plaintext: Octets)
    ensures Encrypt(g, aead, nonce, plaintext) ==
      GroupCiphertext(g.keyEpoch, nonce, aead.seal(g.groupKey, nonce, plaintext, Ascii("ep2pc-group-msg-v1")))
  {
    assert GROUP_AAD == Ascii("ep2pc-group-msg-v1");
  }
}

# A verified model of EP2PC

EP2PC is a serverless messenger: a Double Ratchet session per contact behind a small engine, groups
replicated by signed controls plus keys sent over those sessions, chunked media, store-and-forward for
offline peers, and a hand-written protobuf codec for the chat plaintext. This project models that logic
and proves what it promises.

Reading order:

| files | subject |
|---|---|
| `Crypto`, `X3dh`, `Sessions`, `Ratchet`, `RatchetCodec`, `ByteSuite`, `SessionBackend`, `Engine`, `EngineRuns` | one session over any suite of primitives: the handshake, the ratchet object, its stored bytes, the engine over a byte store, and one engine with many contacts |
| `SymbolicRatchet`, `RatchetHistory`, `RatchetHistorySteps`, `Conversation`, `ConversationInvariant`, `ConversationTheorems`, `ConversationScenarios`, `ForwardSecrecy` | the same functions over symbolic terms: two engines and a network that loses, repeats and reorders; the joint invariant, what follows from it, and runs that reach its limits |
| `Group`, `GroupAuthority`, `GroupMessage`, `DeliveryCodec`, `GroupManager`, `GroupDelivery`, `GroupReplication`, `GroupTheorems`, `GroupMeaning`, `GroupPending` | group state, who may change it, what a manager sends and what becomes of it, replication over two channels, what the replicated group is in terms of what was asked, and keys that wait |
| `MediaCodec`, `Media`, `MediaTheorems` | splitting and reassembly |
| `Shuffle`, `StoragePeers`, `StorageDistance`, `SafStore`, `SafExpiry` | choosing storage peers, the store they run, and both stated in numbers |
| `Bits`, `Varints`, `Utf16`, `ProtoWire`, `MessageCodec`, `ChatClassification` | the protobuf writer and reader, the chat envelope, and telling it from a key delivery |
| `Wrappers`, `Bytes`, `ByteCursor`, `MapEnumeration`, `Utf8`, `Aead` | shared |

How the program is rendered:

- The ratchet, the handshake and the engine are written once, over a suite of primitives (`Crypto.Suite`:
  public key, Diffie-Hellman, the derivations, seal and open). The program uses them on bytes: the engine object
  loads, deserializes, steps, serializes and saves 32-byte keys, under any suite of the right widths. The
  analysis of conversations uses them at `SYMBOLIC`, where keys are terms of a free algebra: a Diffie-Hellman
  secret is an unordered pair of private keys, the derivations are constructors, a ciphertext opens only under
  the key, nonce and associated data it was sealed with, and a signature exists only if its signer made it.
  Codecs outside the ratchet use an AEAD given by a pair of functions that invert each other (`Aead.Correct`).
- Exclusion by key takes two premises a caller can read: keys drawn in a run are new (`KeysFresh`), and no two keys
  open one ciphertext (`OneKey`).
- Random values, the clock and the enumeration order of a hash map are inputs of the operations.
- Objects whose methods change fields are classes. Each method is proved equal to a function on the object's
  value (`AfterDecrypt`, `AfterApply`, `AfterAbsorb`, `AfterAdd`, ...), errors included, and the theorems
  are about those functions and about runs of them.

Where the code and its comments differ, the model follows the code:

- the ephemeral is said to travel on the "first message(s) only" (`core/proto/proto/ep2pc.proto:34`); the
  engine attaches it until the initiator has decrypted something, and delivery completeness rests on that;
- cipher suite 0 is documented as ChaCha20-Poly1305 (`core/proto/proto/ep2pc.proto:33`); the engine writes 1;
- a group ciphertext from a later epoch is refused like one from an earlier epoch, although only the removed
  member is mentioned (`core/group/src/lib.rs:266-268`).

Results that are exact rather than one-sided:

- an undelivered message decrypts if and only if the gaps it leaves are within the skip window
  (`DeliveryCompleteness`);
- runs of 1001 messages never lose one, and in a run of 1002 the last is refused if it comes first
  (`ShortRunsNeverLose`, `WindowIsTight`);
- at the bare ratchet a replay leaves the session as it was if and only if it is of an earlier chain and the count
  it announces is out of the window; within the window the root key is lost (`RawReplayLosesRoot`), and such a
  session is reached after three turns (`ReplayWouldDestroy`). This is why the engine must not save a failed attempt;
- a stored session reveals the key of a message if and only if the message was sent to its owner and is not
  decrypted yet (`RevealedIffUndelivered`); the responder's long-term keys reveal the first chain
  (`LongTermKeysRevealFirstChain`);
- a handshake is pending, and its ephemeral on every message to that contact, if and only if it was opened and
  neither answered nor started again, whatever was done with other contacts (`PendingIffOpen`,
  `EphemeralUntilReply`);
- the shared secret fixes the two identity keys, the prekey and the ephemeral (`SecretFixesTheParties`);
- on every replica in step, the key is the last one drawn, the name the last one given, and members and
  administrators are exactly those the changes made so (`GroupIsAsAsked`); when keys are drawn fresh a removed
  peer has no key that opens a later message (`RemovedLacksTheKey`);
- a storage peer can be chosen if and only if fewer than 2n candidates have a smaller distance, as numbers
  (`ChoosableIffNear`); a stored message is fetched if and only if the clock is before its end (`FetchedIffAlive`,
  `FetchedFor48Hours`);
- the replacing UTF-8 decoder replaces maximal pieces (`BadIsMaximal`), and through it exactly the unpaired
  surrogates of a string become question marks (`UnpairedReplaced`);
- signed group bytes are injective while fields are shorter than 2^32, and two different controls share them
  at 2^32 (`SigningInputWraps`);
- the next rotating control converges if and only if its key arrived first (`ControlConvergesIffKeyed`), and
  an invitation lands if and only if the invitee does not still hold the group (`InviteLandsIffNotHeld`);
- media comes out if and only if the chunks number fewer than 2^32 (`DeliveryIffCountFits`);
- a record that stands is gone from the collecting store if and only if a collection ran after it had expired
  (`GoneIffCollected`); hence no fetch can tell under a clock that never goes back (`GcUnobservable`), a fetch
  dated back before the expiry can (`FetchTellsIffCollected`, `BackwardClockTells`), and so can a late
  acknowledgement (`AckTellsIffCollected`, `CollectedAckTells`);
- a protobuf tag carries exactly the field numbers of the signed 29-bit range (`TagSurvivesIff`);
- a text comes back exactly when its surrogates are paired (`TextRoundTrip`);
- every text envelope below 168,820,784 bytes is classified as chat, and one of exactly that size is taken for
  a key delivery (`EnvelopeIsChat`, `LimitIsExact`).

## Model

| member | source | states |
|---|---|---|
| `Crypto.AdvanceInjective` | core/crypto/src/kdf.rs:34-74 | a chain key determines its root key, its Diffie-Hellman input and how many symmetric steps were made |
| `X3dh.Agreement` | core/crypto/src/x3dh.rs:110-165 | under any primitives whose Diffie-Hellman commutes, both sides derive the same secret from a published bundle, and the initiator is seeded with the responder's prekey |
| `X3dh.AgreementOnlyOnSameKeys` | core/crypto/src/x3dh.rs:151-165 | the responder's secret determines the initiator's identity key and ephemeral |
| `X3dh.InitiateChecksSignature` | core/crypto/src/x3dh.rs:126-133 | the initiator goes on exactly when the identity in the bundle signed its prekey |
| `X3dh.SecretFixesTheParties` | core/crypto/src/x3dh.rs:110-165 | an equal secret means the same prekey, ephemeral and two identity keys, for every ephemeral that is not the identity key itself |
| `SymbolicRatchet.StashLookup` | core/crypto/src/ratchet.rs:169-186 | a skip stores exactly the keys of the indices it passes, each at its own chain step, and nothing else changes |
| `Ratchet.SkipBound` | core/crypto/src/ratchet.rs:169-186 | counter and chain key advance in lock step, by at most MAX_SKIP, and the store grows by no more |
| `Ratchet.DecryptSkipBound` | core/crypto/src/ratchet.rs:131-159 | whatever arrives, one decryption stores at most 2 * MAX_SKIP keys, at most MAX_SKIP on a chain already followed |
| `SymbolicRatchet.WhyNotDecrypted` | core/crypto/src/ratchet.rs:131-186 | a message is refused as too far ahead, or for want of a chain, exactly under these conditions on its header, with the window in figures |
| `Ratchet.Ratchet.InitInitiator` | core/crypto/src/ratchet.rs:81-97 | the initiator's first root derivation against the responder's prekey |
| `Ratchet.Ratchet.InitResponder` | core/crypto/src/ratchet.rs:100-114 | the responder starts at the shared secret with its prekey as ratchet key |
| `Ratchet.Ratchet.Encrypt` | core/crypto/src/ratchet.rs:116-129 | the object steps exactly as `AfterEncrypt`, without counter overflow |
| `Ratchet.Ratchet.Decrypt` | core/crypto/src/ratchet.rs:131-159 | the object steps exactly as `AfterDecrypt`, also when it returns an error |
| `Ratchet.Ratchet.SkipMessageKeys` | core/crypto/src/ratchet.rs:169-186 | the loop equals the closed form `AfterSkip`: all keys up to the target, the chain key advanced as often |
| `Ratchet.Ratchet.DhRatchet` | core/crypto/src/ratchet.rs:188-207 | two root derivations around a fresh ratchet key, counters reset |
| `RatchetCodec.RoundTrip` | core/crypto/src/ratchet.rs:212-266 | stored bytes read back as the session for every map enumeration order and whatever follows |
| `RatchetCodec.PrefixRejected` | core/crypto/src/ratchet.rs:234-310 | every strict prefix of a stored session is refused |
| `RatchetCodec.SerializedInjective` | core/crypto/src/ratchet.rs:212-231 | sessions with equal bytes are equal, whatever the enumeration orders |
| `RatchetCodec.Serialize` | core/crypto/src/ratchet.rs:212-231 | the writer emits the specified bytes for some enumeration of the map |
| `RatchetCodec.Deserialize` | core/crypto/src/ratchet.rs:234-266 | the cursor loop accepts and returns exactly what the specified parser does |
| `ByteSuite.EncryptSized` | core/crypto/src/ratchet.rs:116-129 | encryption keeps a session of 32-byte keys serializable |
| `ByteSuite.DecryptSized` | core/crypto/src/ratchet.rs:131-207 | decryption of anything keeps a session with room serializable, failing attempts included |
| `SessionBackend.Backend.Transact` | core/engine/src/lib.rs:142-207 | load, deserialize, any step, serialize, save is exactly the step on the in-memory session when it succeeds and no change when it fails |
| `SessionBackend.Backend.Save` | core/engine/src/lib.rs:57-64 | saving a serialized session updates the session the bytes stand for, and no other |
| `Engine.DecryptIsTransactional` | core/engine/src/lib.rs:178-207 | a failed decryption changes nothing, except that first contact may have installed the fresh responder session; other peers are never touched; success ends the pending handshake |
| `EngineRuns.ContactsIndependent` | core/engine/src/lib.rs:121-207 | toward one contact, any run of the engine is the run of the operations with that contact; nothing done with others, failing or not, changes it |
| `EngineRuns.EstablishStartsAnew` | core/engine/src/lib.rs:128-138 | establishing replaces whatever session and open handshake there was |
| `EngineRuns.PendingIffOpen` | core/engine/src/lib.rs:128-207 | in every run a handshake is pending exactly when it was opened and neither answered nor started again, with the ephemeral it was opened with |
| `EngineRuns.EphemeralUntilReply` | core/engine/src/lib.rs:142-173 | every message to a contact carries the ephemeral of the open handshake with that contact until its first reply, and none after it |
| `EngineRuns.WireSays` | core/engine/src/lib.rs:142-173 | an outgoing message names the sender, the conversation and cipher suite 1; sending fails exactly without a session or a sending chain |
| `EngineRuns.DecryptErrors` | core/engine/src/lib.rs:178-194 | undecodable bytes, a missing ephemeral without a session, and an unknown contact are told apart exactly |
| `Engine.Engine.EstablishOutbound` | core/engine/src/lib.rs:121-138 | on the byte store: saves the serialized initiator session and remembers the ephemeral, or fails without effect; the sessions and open handshakes of all other peers stay |
| `Engine.Engine.Encrypt` | core/engine/src/lib.rs:142-173 | load, deserialize, encrypt, serialize, save equals `AfterEncrypt` on the sessions the stored bytes stand for; other sessions and all open handshakes stay |
| `Engine.Engine.Bootstrap` | core/engine/src/lib.rs:181-194 | on the byte store: first contact saves the serialized responder session exactly when there is none, an ephemeral and a contact |
| `Engine.Engine.Open` | core/engine/src/lib.rs:196-206 | load, deserialize, decrypt, serialize, save equals `AfterOpen`: what failed is not saved |
| `Engine.Engine.Decrypt` | core/engine/src/lib.rs:178-207 | the byte-level engine equals `AfterDecrypt` on the sessions the stored bytes stand for, first contact included |
| `RatchetHistory.KeysUnique` | core/crypto/src/kdf.rs:34-74 | no two positions of a session's history have the same message key |
| `RatchetHistory.OpensOnlyAsSent` | core/crypto/src/ratchet.rs:131-159 | whatever header and data a ciphertext is presented with, it opens only as it was sent, only at a party that has not consumed it |
| `RatchetHistory.OpensWithinWindow` | core/crypto/src/ratchet.rs:131-159 | a message not yet consumed opens exactly when its gaps are within MAX_SKIP |
| `RatchetHistorySteps.SendStep` | core/crypto/src/ratchet.rs:116-129 | sending seals the next position of the session's own chain and keeps the session exact |
| `RatchetHistorySteps.ReceiveStep` | core/crypto/src/ratchet.rs:131-186 | receiving on a followed chain consumes exactly that position |
| `RatchetHistorySteps.OpenStep` | core/crypto/src/ratchet.rs:131-207 | the first message of a new chain closes the old one, makes two derivations and consumes its position |
| `ConversationInvariant.StartInv` | core/engine/src/lib.rs:128-138 | the invariant holds once the initiator has established, with X3DH agreement as its base |
| `ConversationInvariant.SendInv` | core/engine/src/lib.rs:142-173 | every send keeps the joint invariant |
| `ConversationInvariant.DeliverInv` | core/engine/src/lib.rs:178-207 | every delivery, genuine, repeated, altered or garbage, keeps the joint invariant |
| `ConversationInvariant.RunInv` | core/engine/src/lib.rs:128-207 | the joint invariant of the two engines and the network holds in every run |
| `ConversationTheorems.EveryRunIsUsable` | core/engine/src/lib.rs:142-207 | no run reaches a malformed stored session, so every further step is defined |
| `ConversationTheorems.DeliveryCompleteness` | core/engine/src/lib.rs:128-207 | in every run, an undelivered message decrypts to exactly its plaintext if and only if its gaps are within the window, even as first contact |
| `ConversationTheorems.ShortRunsNeverLose` | core/engine/src/lib.rs:128-207 | in runs of at most 1001 messages every undelivered message still decrypts, in any order |
| `ConversationScenarios.WindowIsTight` | core/crypto/src/ratchet.rs:169-186 | there is a run of 1002 messages whose last is refused when it comes first |
| `ConversationTheorems.EveryReceiptIsAuthentic` | core/engine/src/lib.rs:178-207 | every plaintext returned is that of a message the other party sent, with its own header and conversation id |
| `ConversationTheorems.AtMostOnce` | core/engine/src/lib.rs:196-206 | no ciphertext is decrypted twice, by anyone |
| `ConversationTheorems.ReplayIsRefused` | core/engine/src/lib.rs:196-206 | a replay to either party, with any header, fails and leaves the engine as it was |
| `ConversationTheorems.MessageKeysUnique` | core/crypto/src/ratchet.rs:116-129 | over a whole run no two messages of either party are sealed under the same key |
| `ConversationTheorems.RootsAlternate` | core/crypto/src/ratchet.rs:81-207 | the two root keys are always one derivation apart, with opposite parities, and the party behind derives next the chain the other sends on |
| `ConversationTheorems.SkippedKeysExact` | core/crypto/src/ratchet.rs:131-186 | a message's key is stored exactly when it is undelivered and passed over, and it is the key the sender used |
| `ConversationTheorems.SkippedKeysBelongToPosts` | core/crypto/src/ratchet.rs:131-186 | every stored key belongs to an undelivered message |
| `ConversationTheorems.CountersBounded` | core/crypto/src/ratchet.rs:116-186 | counters and the number of stored keys never exceed the number of messages sent, so a run of fewer than 2^32 - 2001 messages leaves every session room for another step |
| `ConversationTheorems.ReplayEffect` | core/crypto/src/ratchet.rs:131-159 | what every replay does to a bare session: one key used up on the current chain, nothing when the announced count is out of the window, two spurious root derivations otherwise |
| `ConversationTheorems.RawReplayLosesRoot` | core/crypto/src/ratchet.rs:131-159 | in every run, replaying a delivered message at the bare session fails; it is harmless, loses the root key, or costs one key exactly under conditions on its header |
| `ConversationScenarios.ReplayWouldDestroy` | core/crypto/src/ratchet.rs:131-159 | after three turns the replay of the first message makes the root key two derivations too deep |
| `ForwardSecrecy.RevealedIffUndelivered` | core/crypto/src/ratchet.rs:1-6 | in every run, a stored session reveals a message key if and only if the message was sent to its owner and is undelivered |
| `ForwardSecrecy.LongTermKeysRevealFirstChain` | core/crypto/src/x3dh.rs:151-165 | without one-time prekeys, the responder's identity key and prekey reveal every key of the initiator's first chain |
| `Group.SigningInputInjective` | core/group/src/lib.rs:356-371 | the signed bytes determine every field but the signature |
| `Group.SigningInputStarts` | core/group/src/lib.rs:356-366 | signed bytes start with the label "ep2pc-group-control-v1" and the number of the action |
| `Group.AlteredControlNeverApplies` | core/group/src/lib.rs:196-215 | a control altered in any field is refused under the original signature |
| `Group.SigningInputWraps` | core/group/src/lib.rs:368-371 | two different controls with equal signed bytes once a field has 2^32 bytes |
| `Group.AddReproduced` | core/group/src/lib.rs:132-141 | applying the control with its key gives a member the proposer's new state |
| `Group.RemoveReproduced` | core/group/src/lib.rs:145-156 | the same for a removal |
| `Group.LeaveReproduced` | core/group/src/lib.rs:159-169 | the same for a departure |
| `Group.SetAdminReproduced` | core/group/src/lib.rs:172-178 | the same for granting and revoking |
| `Group.RenameReproduced` | core/group/src/lib.rs:181-190 | the same for renaming, through the UTF-8 bytes of the name |
| `Group.GroupState.ProposeAdd` | core/group/src/lib.rs:132-141 | the object steps exactly as `AfterAdd` |
| `Group.GroupState.ProposeRemove` | core/group/src/lib.rs:145-156 | the object steps exactly as `AfterRemove`, which installs and delivers the drawn key (`InstallsDrawnKey`) |
| `Group.GroupState.ProposeLeave` | core/group/src/lib.rs:159-169 | the object steps exactly as `AfterLeave` |
| `Group.GroupState.SetAdmin` | core/group/src/lib.rs:286-301 | the object steps exactly as `AfterSetAdmin` |
| `Group.GroupState.ProposeRename` | core/group/src/lib.rs:181-190 | the object steps exactly as `AfterRename` |
| `Group.GroupState.Apply` | core/group/src/lib.rs:196-253 | the object steps exactly as `AfterApply`, including the member removed before a missing key is noticed |
| `GroupAuthority.EveryEffectAuthorized` | core/group/src/lib.rs:196-253 | every change of members, rights, name or key, also by a control that fails, was signed by an administrator or is the actor's own departure |
| `GroupAuthority.RefusedExactly` | core/group/src/lib.rs:196-253 | each error is returned exactly in its case: group, widths, signature, action number, administrator, key, target |
| `GroupAuthority.AppliedExactly` | core/group/src/lib.rs:216-250 | what a control that applies does to name, key, epoch and every member, by the numbers of the actions |
| `GroupAuthority.RefusedEffect` | core/group/src/lib.rs:216-239 | a refused control has no effect, except that a departure without its key takes the member out |
| `GroupAuthority.AdminsTraceToCreator` | core/group/src/lib.rs:196-253 | over any run of controls every administrator is linked to the creator by grants that took effect, in order, each signed by one who was an administrator at that moment |
| `GroupAuthority.MembersWereInvited` | core/group/src/lib.rs:217-226 | over any run every later member came in by an invitation signed by an administrator of that moment, and has stayed since |
| `GroupAuthority.CreatorGoverns` | core/group/src/lib.rs:86-98 | a new group has its creator as only member and only administrator, who alone can change it |
| `GroupMessage.MessageDelivery` | core/group/src/lib.rs:259-274 | a group message reaches every state with the sender's epoch and key unchanged, and every other epoch refuses it |
| `GroupMessage.SealedWithLabel` | core/group/src/lib.rs:259-264 | group messages are sealed under the group key with the label "ep2pc-group-msg-v1" |
| `GroupMessage.RefusedExactly` | core/groupmgr/src/lib.rs:310-325 | a message is malformed, of another epoch, or not sealed under the key, each exactly in its case |
| `GroupMessage.CiphertextRoundTrip` | core/groupmgr/src/lib.rs:310-325 | a group ciphertext reads back from its bytes |
| `DeliveryCodec.RoundTrip` | core/groupmgr/src/lib.rs:272-308 | a key delivery reads back with the same group, name, epoch, key and members for every enumeration order and whatever follows |
| `DeliveryCodec.Encode` | core/groupmgr/src/lib.rs:272-291 | the writer emits the specified bytes for some enumeration of the members |
| `DeliveryCodec.Decode` | core/groupmgr/src/lib.rs:293-308 | the cursor loop returns exactly what the specified parser does |
| `GroupManager.DeliveryAbsorbed` | core/groupmgr/src/lib.rs:218-244 | a delivered snapshot is absorbed as it was taken, in whatever order it lists the members |
| `GroupManager.GroupManager.AddMember` | core/groupmgr/src/lib.rs:112-120 | proposes, then delivers the snapshot to each recipient over its session; it succeeds exactly when the proposal does and every recipient with a session can be sent to, and a failure advances some reachable sessions only |
| `GroupManager.GroupManager.RemoveMember` | core/groupmgr/src/lib.rs:123-130 | the same for a removal |
| `GroupManager.GroupManager.LeaveGroup` | core/groupmgr/src/lib.rs:85-93 | the group is forgotten exactly when the departure could be delivered; otherwise it stays, already left |
| `GroupManager.GroupManager.Deliver` | core/groupmgr/src/lib.rs:133-152 | seals a rotating change once for each recipient with a session; fails, with that error, exactly when such a session has no sending chain, having advanced only sessions that could be reached |
| `GroupManager.GroupManager.HandleControl` | core/groupmgr/src/lib.rs:247-258 | uses up the buffered key of the control's epoch, then applies it, as `AfterControl` |
| `GroupManager.GroupManager.AbsorbDelivery` | core/groupmgr/src/lib.rs:232-244 | joins a new group, or keeps the key of a later epoch, as `AfterAbsorb` |
| `GroupManager.GroupManager.Handle1to1` | core/groupmgr/src/lib.rs:218-228 | decrypts once and then is a key delivery exactly when it parses as one |
| `GroupDelivery.ProposalsRotate` | core/groupmgr/src/lib.rs:85-130 | the manager's additions, removals and departures carry the drawn key and the next epoch, are reproduced by applying them, and address exactly the other members after the change |
| `GroupDelivery.ReachesNewcomers` | core/groupmgr/src/lib.rs:133-244 | a node without the group that decrypts the sealed snapshot holds exactly the proposer's state |
| `GroupDelivery.ReachesMembers` | core/groupmgr/src/lib.rs:133-258 | a member at the proposer's old state is at the new one after the snapshot and the control, with no key of that epoch left waiting |
| `GroupDelivery.LeaverForgets` | core/groupmgr/src/lib.rs:85-93 | one who left holds the group no more and keeps everything else |
| `GroupDelivery.LeaverCanReturn` | core/groupmgr/src/lib.rs:85-244 | so a later invitation brings it back to exactly the proposer's state |
| `GroupDelivery.DeliveriesSay` | core/groupmgr/src/lib.rs:133-152 | a key is sealed once for each recipient with a session and for nobody else, from the proposer and in the group's name |
| `GroupReplication.ProposeInv` | core/groupmgr/src/lib.rs:85-152 | every proposal of an up-to-date member keeps the replication invariant |
| `GroupReplication.DeliverKeyInv` | core/groupmgr/src/lib.rs:218-244 | every key delivery, early, late or repeated, keeps it |
| `GroupReplication.DeliverControlInv` | core/groupmgr/src/lib.rs:247-258 | every control delivery, in or out of order, keeps it |
| `GroupReplication.EpochsRise` | core/group/src/lib.rs:303-313 | along the published changes epochs never fall and every rotation raises them |
| `GroupReplication.RotationOfEpoch` | core/group/src/lib.rs:303-313 | an epoch determines the rotation that installed it |
| `GroupReplication.InOrderConverges` | core/groupmgr/src/lib.rs:247-258 | handled in order and with its key, a control makes a replica the proposer's next state |
| `GroupTheorems.Convergence` | core/groupmgr/src/lib.rs:85-152 | in every run, nodes that handled the same changes in order with their keys hold the same name, epoch, key and members as the proposer |
| `GroupTheorems.CatchUp` | core/groupmgr/src/lib.rs:232-258 | from every reachable state a member in step can be brought to the newest state by the deliveries it misses |
| `GroupTheorems.EpochBounded` | core/group/src/lib.rs:86-98 | a group created at epoch 0 has an epoch of at most the number of changes, so fewer than 2^32 - 1 changes never exhaust it |
| `GroupTheorems.AddressedToMembers` | core/group/src/lib.rs:315-344 | a rotating change is addressed to exactly the members after it other than the proposer |
| `GroupTheorems.RemovedIsNotAddressed` | core/group/src/lib.rs:145-156 | a peer someone else removed is addressed by no later key until invited again |
| `GroupTheorems.RemovedIsExcluded` | core/group/src/lib.rs:269-274 | such a peer holds and keeps only earlier keys and refuses every later message |
| `GroupTheorems.ControlConvergesIffKeyed` | core/group/src/lib.rs:216-239 | the next rotating control converges exactly when its key is there; otherwise it is an error that has already removed its member |
| `GroupTheorems.InviteLandsIffNotHeld` | core/groupmgr/src/lib.rs:232-258 | an invited node takes the snapshot exactly when it does not still hold the group |
| `GroupMeaning.RefusedIff` | core/group/src/lib.rs:132-190 | a proposal is refused, without effect and with which error, exactly by the rights of the actor and the target |
| `GroupMeaning.InstallsDrawnKey` | core/group/src/lib.rs:303-313 | every addition, removal and departure installs and delivers the key it drew, one epoch on; nothing else touches key or epoch |
| `GroupMeaning.ControlSays` | core/group/src/lib.rs:333-344 | the action number, actor, target, epoch and name a signed control carries, and whom its key is addressed to |
| `GroupMeaning.GroupIsAsAsked` | core/groupmgr/src/lib.rs:85-258 | in every run, a replica in step holds the last key drawn, the last name given, and exactly the members and administrators the changes made |
| `GroupMeaning.MemberIffAdded` | core/group/src/lib.rs:132-169 | a peer is a member exactly when it was added, or there from the start, and not taken out since |
| `GroupMeaning.AdminIffPromoted` | core/group/src/lib.rs:286-301 | a member is administrator exactly when it was promoted, or one from the start, and not demoted, taken out or added anew since |
| `GroupMeaning.NameIsLastGiven` | core/group/src/lib.rs:181-190 | the name is that of the last renaming |
| `GroupMeaning.RemovedLacksTheKey` | core/group/src/lib.rs:143-156 | when keys are drawn fresh, no key a removed peer holds or keeps is that of any later point, and none opens a message sealed there, whatever nonce and data are tried |
| `GroupPending.AbsorbIsLocal` | core/groupmgr/src/lib.rs:232-244 | a delivery touches its own group and at most its own waiting key, and which of these exactly when |
| `GroupPending.ControlIsLocal` | core/groupmgr/src/lib.rs:247-258 | a control touches its own group and uses up the key of its own epoch only |
| `GroupPending.ControlUsesItsKey` | core/groupmgr/src/lib.rs:247-258 | one's own invitation is passed over, an unknown group is an error, and otherwise the waiting key is applied and gone, also when the control is refused |
| `GroupPending.ProposedThroughManager` | core/groupmgr/src/lib.rs:85-130 | the proposals of the replicated system are those of the manager, forgetting included |
| `GroupPending.KeyWaits` | core/groupmgr/src/lib.rs:232-258 | a key delivered ahead waits for its control whatever else arrives, and is then the key the change installs |
| `GroupPending.AheadConverges` | core/groupmgr/src/lib.rs:232-258 | so the control that comes in order, with anything in between, brings the replica to the proposer's next state |
| `MediaCodec.ManifestRoundTrip` | core/media/src/lib.rs:178-201 | a manifest reads back as itself, whatever follows |
| `MediaCodec.ChunkRoundTrip` | core/media/src/lib.rs:204-223 | a chunk reads back as itself |
| `MediaCodec.ChunkDecodesEncoded` | core/media/src/lib.rs:214-223 | every byte string of 32 bytes or more encodes exactly one chunk, and every shorter one none |
| `MediaCodec.EncodeManifest` | core/media/src/lib.rs:179-189 | the writer emits the specified bytes |
| `MediaCodec.DecodeManifest` | core/media/src/lib.rs:191-201 | the cursor returns exactly what the specified parser does |
| `Media.Split` | core/media/src/lib.rs:82-109 | the loop makes one sealed chunk per 64 KiB piece and a manifest with the caller's type and name, the size, the count and the hash, which reads back from its bytes |
| `Media.Reassembler.AddChunk` | core/media/src/lib.rs:125-141 | foreign chunks are ignored, bad indices and failing chunks rejected, the rest stored, as `AfterAdd` |
| `Media.Reassembler.Missing` | core/media/src/lib.rs:144-146 | lists the indices not received, in order |
| `Media.Reassembler.Finish` | core/media/src/lib.rs:157-169 | joins the chunks in order and checks the hash, or says why not |
| `MediaTheorems.Bookkeeping` | core/media/src/lib.rs:125-169 | in every reachable reassembler indices are in range, missing plus received is the count, completeness is exactly nothing missing, and the inner failure of `finish` is unreachable |
| `MediaTheorems.Delivery` | core/media/src/lib.rs:82-169 | for every sequence of originals in any order, repeats, foreign chunks and rejected forgeries, `finish` gives the data when every original has arrived and Incomplete before |
| `MediaTheorems.OutOfPlaceRejected` | core/media/src/lib.rs:73-78 | an original's ciphertext is stored only at its own index, with its own nonce and in its own transfer |
| `MediaTheorems.DeliveryDespiteMoves` | core/media/src/lib.rs:82-169 | delivery holds with originals moved, re-labelled and spliced |
| `MediaTheorems.DeliveryIffCountFits` | core/media/src/lib.rs:82-169 | when all originals arrived, the data comes out if and only if its chunks number fewer than 2^32 |
| `MediaTheorems.DeliveryByWire` | core/media/src/lib.rs:178-224 | delivery holds with the manifest and every chunk passed through their byte encodings; the manifest read has the caller's type and name and the size of the data |
| `MediaTheorems.ManifestTells` | core/media/src/lib.rs:99-201 | what a receiver reads off the bytes of a split's manifest: the caller's type and name, the size, the hash, the key and the number of 64 KiB pieces |
| `MediaTheorems.NoncesDiffer` | core/media/src/lib.rs:91-97 | no two chunks share a nonce as long as the draws differ |
| `MediaTheorems.JudgedExactly` | core/media/src/lib.rs:125-141 | why a chunk is ignored, rejected or stored, with the associated data written out |
| `MediaTheorems.HoldsLastStored` | core/media/src/lib.rs:125-141 | for every sequence of arrivals, an index holds what the last chunk stored under it opened to |
| `MediaTheorems.FinishedExactly` | core/media/src/lib.rs:157-169 | finishing fails exactly on a missing index or on another hash |
| `MediaTheorems.MissingAscending` | core/media/src/lib.rs:144-146 | the missing indices are those not received, each once, in ascending order |
| `Shuffle.ShuffleInPlace` | core/saf/src/lib.rs:58-63 | the swap loop on the array is the partial Fisher-Yates shuffle of its draws |
| `Shuffle.ShuffledKeeps` | core/saf/src/lib.rs:58-63 | fixed positions stay and the rest is permuted |
| `Shuffle.ShuffledReaches` | core/saf/src/lib.rs:58-63 | every arrangement of elements in play comes out under some draws |
| `StoragePeers.XorCancels` | core/saf/src/lib.rs:68-74 | XOR distances from one target tell hashes apart |
| `StoragePeers.SortSorts` | core/saf/src/lib.rs:53 | the ranking is ordered by distance and keeps every candidate as often as it occurred |
| `StoragePeers.SortStable` | core/saf/src/lib.rs:53 | candidates at one distance keep their order |
| `StoragePeers.Select` | core/saf/src/lib.rs:43-66 | the procedure returns the selection the draws determine; `ChosenIsNear` and `ChoosableIffNear` say in numbers which peers that can be |
| `StoragePeers.SelectedFrom` | core/saf/src/lib.rs:43-66 | every selection is a sub-multiset of the candidates other than the target, of size min(n, their number) |
| `StoragePeers.SelectedReaches` | core/saf/src/lib.rs:55-65 | every arrangement of that many peers of the pool is selected under some draws |
| `StoragePeers.ChoosableIffClose` | core/saf/src/lib.rs:43-66 | a candidate can be chosen if and only if it is not the target and fewer than 2n candidates are strictly closer, given that its hash does not collide |
| `StoragePeers.ChosenIsClose` | core/saf/src/lib.rs:43-66 | under all draws, and without any premise on hashes, a chosen peer has fewer than 2n candidates strictly closer |
| `StorageDistance.LessIsSmaller` | core/saf/src/lib.rs:53 | the order of the ranking is the order of the distances as big-endian numbers |
| `StorageDistance.XorDiffers` | core/saf/src/lib.rs:68-74 | a distance has its bits set exactly where the two hashes differ |
| `StorageDistance.ChosenIsNear` | core/saf/src/lib.rs:43-66 | under all draws a chosen peer has fewer than 2n candidates at a smaller distance, the distance being the number whose bits are set where the hashes differ |
| `StorageDistance.ChoosableIffNear` | core/saf/src/lib.rs:43-66 | and exactly the candidates with fewer than 2n at a smaller distance can be chosen, given that the hash does not collide |
| `SafStore.SafStore.Store` | core/saf/src/lib.rs:128-132 | an unexpired record replaces the one under its id; an expired one is ignored; `StoredIff` says in numbers which is which |
| `SafStore.SafStore.RecordsFor` | core/saf/src/lib.rs:137-143 | returns each unexpired record of the recipient once |
| `SafStore.SafStore.Ack` | core/saf/src/lib.rs:147-159 | deletes exactly on the recipient's valid signature over the labelled id |
| `SafStore.SafStore.Gc` | core/saf/src/lib.rs:163-167 | keeps exactly the unexpired records and returns how many it dropped |
| `SafStore.RunFiled` | core/saf/src/lib.rs:117-167 | in every run records are filed under their own id |
| `SafStore.GcUnobservable` | core/saf/src/lib.rs:111-167 | under a clock that never goes back, no fetch in any run distinguishes the store from one that never collects |
| `SafStore.FetchedIff` | core/saf/src/lib.rs:128-159 | a fetch returns a record if and only if it is the last accepted under its id, addressed to the caller, not acknowledged since, and unexpired |
| `SafStore.GoneIffCollected` | core/saf/src/lib.rs:128-167 | in every run, a record that stands is gone exactly when a collection ran after it had expired |
| `SafStore.FetchTellsIffCollected` | core/saf/src/lib.rs:137-167 | a fetch sees the difference exactly for a collected record it would still have returned |
| `SafStore.AckTellsIffCollected` | core/saf/src/lib.rs:147-167 | the acknowledgement of a standing record is answered differently from the never-collecting store exactly when it is valid and a collection ran after the record had expired |
| `SafStore.CollectedAckTells` | core/saf/src/lib.rs:147-167 | a run in which it is |
| `SafStore.BackwardClockTells` | core/saf/src/lib.rs:163-167 | a fetch after the clock went back can see that a record was collected |
| `SafExpiry.ExpiredIff` | core/saf/src/lib.rs:109-114 | a record has expired exactly from the time it was stored plus its lifetime on, the saturated ends included |
| `SafExpiry.StoredIff` | core/saf/src/lib.rs:128-132 | a record is accepted exactly before its end |
| `SafExpiry.CollectedIff` | core/saf/src/lib.rs:163-167 | a collection keeps exactly the records before their end |
| `SafExpiry.FetchedIffAlive` | core/saf/src/lib.rs:128-167 | over every run under a clock that never goes back, a fetch returns a record exactly when it was stored before its end, neither replaced nor acknowledged since, addressed to the caller, and the clock is before its end |
| `SafExpiry.FetchedFor48Hours` | core/saf/src/lib.rs:16-143 | a record with the default lifetime is fetched by its recipient exactly for 48 hours after it was made |
| `SafExpiry.AckBindsId` | core/saf/src/lib.rs:147-191 | under signatures good for one message only, an acknowledgement of one id is refused for every other, in whatever store |
| `SafExpiry.AckSigns` | core/saf/src/lib.rs:178-191 | an accepted acknowledgement is the recipient's signature over "ep2pc-saf-ack-v1" and the id of a record addressed to it |
| `Varints.VarintRoundTrip` | android/app/src/main/java/com/ep2pc/core/ProtoWire.kt:40-93 | reading inverts writing for every 64-bit integer, negative ones included, in at most ten bytes |
| `Varints.VarintByte` | android/app/src/main/java/com/ep2pc/core/ProtoWire.kt:40-53 | byte i of a varint carries bits 7i to 7i + 6, exactly the last has its high bit clear, and no byte is superfluous |
| `Varints.ReadsBits` | android/app/src/main/java/com/ep2pc/core/ProtoWire.kt:83-93 | what any bytes read as, overlong varints included: it ends at the first byte with a clear high bit, and bit j is set exactly when some byte sets it, seven bits at 7k modulo 64 |
| `Varints.ReadsIff` | android/app/src/main/java/com/ep2pc/core/ProtoWire.kt:83-93 | reading throws exactly when no byte has a clear high bit |
| `ProtoWire.TagSurvivesIff` | android/app/src/main/java/com/ep2pc/core/ProtoWire.kt:38-66 | the wire type always survives, and the field number if and only if it is in the signed 29-bit range |
| `ProtoWire.FieldsRoundTrip` | android/app/src/main/java/com/ep2pc/core/ProtoWire.kt:16-81 | reading what was written gives the fields in order, minus empty byte fields |
| `ProtoWire.FieldsAppend` | android/app/src/main/java/com/ep2pc/core/ProtoWire.kt:61-81 | written fields in front of any bytes are read first, and what the reader does with those bytes is unchanged, throwing included |
| `ProtoWire.LengthDelimitedIff` | android/app/src/main/java/com/ep2pc/core/ProtoWire.kt:69-74 | a length-delimited field is read if and only if its length, cut to 32 bits, is between zero and what is left, and takes exactly that many bytes |
| `ProtoWire.FixedWidthSkipped` | android/app/src/main/java/com/ep2pc/core/ProtoWire.kt:75-76 | fixed-width fields are passed over by four or eight bytes, or to the end, and throw exactly past the 32-bit range |
| `ProtoWire.OtherWireTypesEnd` | android/app/src/main/java/com/ep2pc/core/ProtoWire.kt:77 | every other wire type ends the reading without an error |
| `ProtoWire.Writer.VarintField` | android/app/src/main/java/com/ep2pc/core/ProtoWire.kt:19-23 | appends a tag and a varint |
| `ProtoWire.Writer.BytesField` | android/app/src/main/java/com/ep2pc/core/ProtoWire.kt:25-31 | appends a tag, a length and the bytes, or nothing for empty bytes |
| `ProtoWire.Writer.WriteVarint` | android/app/src/main/java/com/ep2pc/core/ProtoWire.kt:40-53 | the loop appends the base-128 encoding of the bit pattern |
| `ProtoWire.Reader.ReadVarint` | android/app/src/main/java/com/ep2pc/core/ProtoWire.kt:83-93 | the loop reads what the specified parser reads, and throws exactly at the end of the buffer |
| `ProtoWire.Reader.ReadFields` | android/app/src/main/java/com/ep2pc/core/ProtoWire.kt:61-81 | the loop returns the specified fields, stops at an unknown wire type, and throws exactly on a truncated varint, a truncated or negative length, or a skip past the 32-bit range |
| `Utf16.Utf8RoundTripIff` | android/app/src/main/java/com/ep2pc/core/ProtoWire.kt:33-34 | a string of 16-bit units comes back from its UTF-8 bytes exactly when its surrogates are paired |
| `Utf16.UnpairedReplaced` | android/app/src/main/java/com/ep2pc/core/ProtoWire.kt:33-34 | through UTF-8 and back every unpaired surrogate becomes a question mark and everything else stays |
| `MessageCodec.TextRoundTrip` | android/app/src/main/java/com/ep2pc/core/MessageCodec.kt:22-54 | decoding an encoded text gives TEXT with its body, unchanged exactly when its surrogates are paired, and no text for the empty body |
| `MessageCodec.EnvelopeSays` | android/app/src/main/java/com/ep2pc/core/MessageCodec.kt:22-34 | any reader finds the message id under 1, the type under 2, the conversation id under 3, the timestamp under 4 and the payload under 5, in this order |
| `MessageCodec.PayloadSays` | android/app/src/main/java/com/ep2pc/core/MessageCodec.kt:22-25 | the payload holds the UTF-8 bytes of the body under 1, and nothing for the empty body |
| `MessageCodec.LastOneCounts` | android/app/src/main/java/com/ep2pc/core/MessageCodec.kt:37-54 | of several types, payloads and bodies the last one counts; a text fails to decode exactly when its payload cannot be read |
| `MessageCodec.OnlyTextHasText` | android/app/src/main/java/com/ep2pc/core/MessageCodec.kt:46-53 | a message without a type or of another type has no text |
| `MessageCodec.UnknownFieldsIgnored` | android/app/src/main/java/com/ep2pc/core/MessageCodec.kt:37-54 | fields other than the type and the payload, wherever they stand, do not change what is decoded |
| `MessageCodec.EncodeText` | android/app/src/main/java/com/ep2pc/core/MessageCodec.kt:22-34 | the writer calls produce the specified envelope |
| `MessageCodec.Decode` | android/app/src/main/java/com/ep2pc/core/MessageCodec.kt:37-54 | the two loops compute the last type, the last payload and the last body |
| `ChatClassification.DeliveryNeeds` | core/groupmgr/src/lib.rs:293-308 | a plaintext that parses as a delivery is at least 48 bytes longer than its first length |
| `ChatClassification.EnvelopeStarts` | android/app/src/main/java/com/ep2pc/core/MessageCodec.kt:27-28 | every envelope starts with 0A 10 and the message id |
| `ChatClassification.EnvelopeIsChat` | core/groupmgr/src/lib.rs:218-228 | every text envelope below 168,820,784 bytes is chat and leaves the receiver's groups as they were |
| `ChatClassification.LimitIsExact` | core/groupmgr/src/lib.rs:218-228 | an envelope of exactly that size is taken for a key delivery |
| `Utf8.RoundTrip` | core/groupmgr/src/lib.rs:293-308 | the strict and the replacing decoder both invert the encoder |
| `Utf8.DecodeIsEncoded` | core/groupmgr/src/lib.rs:293-308 | the strict decoder accepts exactly the encodings of texts |
| `Utf8.BadIsMaximal` | core/group/src/lib.rs:246-249 | what the replacing decoder replaces is the longest start of a scalar, or one byte where there is none |
| `Utf8.LossyReplaces` | core/group/src/lib.rs:246-249 | text before an ill-formed piece is kept, the piece becomes U+FFFD, and the strict decoder refuses |

## Left out

- Cipher, hash, curve and signature arithmetic: the ciphers and curves are library calls; their symbolic structure is kept, and computational secrecy is not claimed.
- `core/net`, `core/ffi`, `core/storage`, the Compose interface and the services: input, output and foreign libraries. The network is the set of messages ever sent, gossip is an explicit delivery schedule, the session store is a map.
- The protobuf envelopes of `core/proto` (a derive library): a wire is either undecodable or its decoded fields. The message id, timestamp and sender id of a wire are not read by the engine and are not modelled beyond the sender id.
- Fixed-offset copies (ratchet header, public identity, prekey bundle): they add only easy round trips.
- Simultaneous `establish_outbound` by both parties, loss of the pending ephemeral on restart, and a first contact that carries a forged ephemeral: the code makes no promise there. `Conversation.Admissible` lets the network deliver anything else, altered headers and garbage included.
- Concurrent, unserialized group proposals: the code has no merge rule. `GroupReplication` publishes one change at a time by an up-to-date member; deliveries are unrestricted, and a node that handles controls out of order keeps only the guarantee on the keys it can hold.
- Granting, revoking and renaming have no entry in the group manager; the replicated system includes them through `GroupState`.
- Engine.Engine.Decrypt: the session must have room for one more step (counters and stored keys below 2^32), because the code adds to counters and truncates the number of keys without a check; `CountersBounded` says how many messages that allows.
- GroupManager.GroupManager.HandleControl: the groups of a manager are values in a map, so a `GroupState` object inside the map is not shared; the source never shares one.
- Ratchet.Ratchet.Encrypt: the sending counter is required to be below 2^32 - 1, and for decryption the receiving counter below 2^32 - 1 - MAX_SKIP, for the same reason.
- StoragePeers.Select: `2 * n` is required to fit the machine word, because the code multiplies without a check; the distribution of the draws is not modelled, only which outcomes are possible.
- ProtoWire.Reader.ReadFields: an exception is a missing result, without its type.
- MessageCodec.EncodeText: arrays must fit their 32-bit length.
- MessageCodec.Decode: each maximal ill-formed piece of a body becomes one replacement character, as in the UTF-8 decoder of the WHATWG Encoding Standard; a platform decoder that counts pieces differently is not part of this model.
- Media.Reassembler.Finish: `progress` and the manifest accessor are not modelled; they only read fields.
- `SafStore` is modelled on its own: acknowledgements that travel through `core/net` use peer ids of another width and never reach it.

/** How long a storage peer keeps a message, in numbers. */
module SafExpiry {
  import opened Bytes
  import opened SafStore

  /** 48 hours. */
  const DEFAULT_TTL_MS: i64 := 172_800_000

  /** A record as its sender makes it, with the default lifetime. */
  function NewRecord(messageId: Octets, recipient: Octets, sender: Octets, blob: Octets, now: i64): Record {
    Record(messageId, recipient, sender, blob, now, DEFAULT_TTL_MS)
  }

  /** Before its end. The difference of the times saturates at the least 64-bit number, which is not before a
      lifetime of that very number. */
  predicate Alive(r: Record, now: i64) {
    now < r.storedAt + r.ttl && !(r.ttl == -0x8000_0000_0000_0000 && now - r.storedAt < r.ttl)
  }

  /** A record expires exactly at its end, the saturated ends included. */
  lemma ExpiredIff(r: Record, now: i64)
    ensures r.IsExpired(now) <==> !Alive(r, now)
  {
  }

  /** A store accepts a record exactly while it is alive, in place of the one under its id. */
  lemma StoredIff(m: Records, r: Record, now: i64)
    ensures AfterStore(m, r, now) == if Alive(r, now) then m[r.messageId := r] else m
  {
    ExpiredIff(r, now);
  }

  /** A collection keeps exactly the records that are alive. */
  lemma CollectedIff(m: Records, now: i64, id: Octets)
    ensures id in AfterGc(m, now) <==> id in m && Alive(m[id], now)
    ensures id in AfterGc(m, now) ==> AfterGc(m, now)[id] == m[id]
  {
    if id in m {
      ExpiredIff(m[id], now);
    }
  }

  // --- every run ---

  /** Operation `i` stored `r` while it was alive. */
  predicate StoredAt(ops: seq<Op>, r: Record, i: nat) {
    i < |ops| && ops[i].Store? && ops[i].r == r && Alive(r, ops[i].now)
  }

  /** Operation `j` stored another record under the same id while that one was alive, or acknowledged the id with
      the recipient's signature over the label and the id. */
  predicate EndedAt(verify: Verify, ops: seq<Op>, r: Record, j: nat) {
    && j < |ops|
    && match ops[j]
       case Store(r', now) => r'.messageId == r.messageId && Alive(r', now)
       case Ack(id, recipient, signature) =>
         id == r.messageId && recipient == r.recipient && verify(r.recipient, ACK_LABEL + r.messageId, signature)
       case _ => false
  }

  ghost predicate KeptSince(verify: Verify, ops: seq<Op>, r: Record, i: nat) {
    StoredAt(ops, r, i) && forall j: nat | i < j < |ops| :: !EndedAt(verify, ops, r, j)
  }

  lemma KeptIsStanding(verify: Verify, ops: seq<Op>, r: Record, i: nat)
    ensures KeptSince(verify, ops, r, i) <==> StandsSince(verify, ops, r, i)
  {
    if i < |ops| && ops[i].Store? {
      ExpiredIff(r, ops[i].now);
    }
    forall j: nat | j < |ops|
      ensures EndedAt(verify, ops, r, j) <==> Displaces(verify, ops[j], r)
    {
      if ops[j].Store? {
        ExpiredIff(ops[j].r, ops[j].now);
      }
    }
  }

  /** Over every run under a clock that never goes back, a fetch returns a record exactly when it was stored alive,
      was neither replaced nor acknowledged since, is addressed to the caller, and has not reached its end. */
  lemma FetchedIffAlive(verify: Verify, ops: seq<Op>, k: nat, r: Record)
    requires Clocked(ops) && k < |ops| && ops[k].Fetch?
    ensures r in Fetchable(Run(verify, ops[..k]), ops[k].recipient, ops[k].now)
      <==> (exists i: nat :: KeptSince(verify, ops[..k], r, i))
           && r.recipient == ops[k].recipient && Alive(r, ops[k].now)
  {
    FetchedIff(verify, ops, k, r);
    ExpiredIff(r, ops[k].now);
    forall i: nat
      ensures KeptSince(verify, ops[..k], r, i) <==> StandsSince(verify, ops[..k], r, i)
    {
      KeptIsStanding(verify, ops[..k], r, i);
    }
    if i: nat :| StandsSince(verify, ops[..k], r, i) {
      assert KeptSince(verify, ops[..k], r, i);
    }
  }

  /** A message with the default lifetime is accepted when it is made and fetched by its recipient for exactly 48
      hours, unless replaced or acknowledged before. */
  lemma FetchedFor48Hours(
    verify: Verify, ops: seq<Op>, k: nat, i: nat, messageId: Octets, recipient: Octets, sender: Octets, blob: Octets,
    made: i64)
    requires Clocked(ops) && i < k < |ops| && ops[k].Fetch? && ops[k].recipient == recipient
    requires ops[i] == Store(NewRecord(messageId, recipient, sender, blob, made), made)
    requires forall j: nat | i < j < k ::
      !EndedAt(verify, ops[..k], NewRecord(messageId, recipient, sender, blob, made), j)
    ensures NewRecord(messageId, recipient, sender, blob, made) in Fetchable(Run(verify, ops[..k]), recipient, ops[k].now)
      <==> ops[k].now < made + 48 * 60 * 60 * 1000
  {
    var r := NewRecord(messageId, recipient, sender, blob, made);
    assert ops[..k][i] == ops[i];
    assert KeptSince(verify, ops[..k], r, i);
    FetchedIffAlive(verify, ops, k, r);
  }

  // --- acknowledgements ---

  /** A signature is good for one message only. */
  ghost predicate Binding(verify: Verify) {
    forall key, m, m', s :: verify(key, m, s) && verify(key, m', s) ==> m == m'
  }

  /** An acknowledgement of one message is refused for every other, in whatever store. */
  lemma AckBindsId(
    verify: Verify, m: Records, m': Records, id: Octets, id': Octets, recipient: Octets, signature: Octets)
    requires Binding(verify) && id != id'
    requires AckAccepted(verify, m, id, recipient, signature)
    ensures !AckAccepted(verify, m', id', recipient, signature)
  {
    assert (ACK_LABEL + id)[|ACK_LABEL|..] == id && (ACK_LABEL + id')[|ACK_LABEL|..] == id';
  }

  /** An accepted acknowledgement is the recipient's signature over the label and the id. */
  lemma AckSigns(verify: Verify, m: Records, id: Octets, recipient: Octets, signature: Octets)
    requires AckAccepted(verify, m, id, recipient, signature)
    ensures id in m && m[id].recipient == recipient
    ensures verify(recipient, Ascii("ep2pc-saf-ack-v1") + id, signature)
  {
    assert ACK_LABEL == Ascii("ep2pc-saf-ack-v1");
  }
}

/** The store a node keeps when it holds messages for offline peers. */
module SafStore {
  import opened Bytes
  import opened MapEnumeration

  const I64_MIN: int := -0x8000_0000_0000_0000
  const I64_MAX: int := 0x7FFF_FFFF_FFFF_FFFF

  type i64 = x: int | I64_MIN <= x <= I64_MAX witness 0

  /** The ASCII codes of "ep2pc-saf-ack-v1". */
  const ACK_LABEL: Octets :=
    [0x65, 0x70, 0x32, 0x70, 0x63, 0x2D, 0x73, 0x61, 0x66, 0x2D, 0x61, 0x63, 0x6B, 0x2D, 0x76, 0x31]

  datatype Record = Record(
    messageId: Octets, recipient: Octets, sender: Octets, blob: Octets, storedAt: i64, ttl: i64)
  {
    predicate IsExpired(now: i64) {
      SaturatingSub(now, storedAt) >= ttl
    }
  }

  function SaturatingSub(a: i64, b: i64): i64 {
    if a - b < I64_MIN then I64_MIN else if a - b > I64_MAX then I64_MAX else a - b
  }

  type Records = map<Octets, Record>

  /** `verify(key, message, signature)`. */
  type Verify = (Octets, Octets, Octets) -> bool

  predicate VerifyAck(verify: Verify, recipient: Octets, id: Octets, signature: Octets) {
    verify(recipient, ACK_LABEL + id, signature)
  }

  // --- the operations on values ---

  function AfterStore(m: Records, r: Record, now: i64): Records {
    if r.IsExpired(now) then m else m[r.messageId := r]
  }

  predicate AckAccepted(verify: Verify, m: Records, id: Octets, recipient: Octets, signature: Octets) {
    id in m && m[id].recipient == recipient && VerifyAck(verify, recipient, id, signature)
  }

  function AfterAck(verify: Verify, m: Records, id: Octets, recipient: Octets, signature: Octets): Records {
    if AckAccepted(verify, m, id, recipient, signature) then m - {id} else m
  }

  function AfterGc(m: Records, now: i64): Records {
    map id <- m | !m[id].IsExpired(now) :: m[id]
  }

  /** What a fetch by `recipient` returns. */
  function Fetchable(m: Records, recipient: Octets, now: i64): set<Record> {
    set id <- m | m[id].recipient == recipient && !m[id].IsExpired(now) :: m[id]
  }

  /** Records are filed under their own id. */
  predicate Filed(m: Records) {
    forall id <- m :: m[id].messageId == id
  }

  class SafStore {
    const verify: Verify
    var byId: Records

    constructor (verify: Verify)
      ensures this.verify == verify && byId == map[]
    {
      this.verify := verify;
      byId := map[];
    }

    method Store(r: Record, now: i64)
      modifies this
      ensures byId == AfterStore(old(byId), r, now)
    {
      if !r.IsExpired(now) {
        byId := byId[r.messageId := r];
      }
    }

    /** The fetchable records, each once, in whatever order the map yields them. */
    method RecordsFor(recipient: Octets, now: i64) returns (out: seq<Record>)
      requires Filed(byId)
      ensures forall r :: r in out <==> r in Fetchable(byId, recipient, now)
      ensures forall i, j :: 0 <= i < j < |out| ==> out[i] != out[j]
    {
      out := [];
      var entries := Enumerate(byId);
      EnumerationCovers(entries, byId);
      for i := 0 to |entries|
        invariant forall r :: r in out <==> exists k :: 0 <= k < i && Matches(entries[k].1, r, recipient, now)
        invariant forall j, k :: 0 <= j < k < |out| ==> out[j] != out[k]
      {
        var r := entries[i].1;
        assert entries[i] in entries;
        forall k | 0 <= k < i
          ensures entries[k].1 != r
        {
          assert entries[k] in entries;
        }
        if r.recipient == recipient && !r.IsExpired(now) {
          assert r !in out;
          out := out + [r];
        }
      }
      forall r | r in Fetchable(byId, recipient, now)
        ensures r in out
      {
        var e :| e in entries && e.0 == r.messageId;
        var k :| 0 <= k < |entries| && entries[k] == e;
        assert Matches(entries[k].1, r, recipient, now);
      }
      forall r | r in out
        ensures r in Fetchable(byId, recipient, now)
      {
        var k :| 0 <= k < |entries| && Matches(entries[k].1, r, recipient, now);
        assert entries[k] in entries;
      }
    }

    /** Deletes a record on its recipient's signed acknowledgement. */
    method Ack(id: Octets, recipient: Octets, signature: Octets) returns (removed: bool)
      modifies this
      ensures removed == AckAccepted(verify, old(byId), id, recipient, signature)
      ensures byId == AfterAck(verify, old(byId), id, recipient, signature)
    {
      if id !in byId {
        return false;
      }
      if byId[id].recipient != recipient {
        return false;
      }
      if !VerifyAck(verify, recipient, id, signature) {
        return false;
      }
      byId := byId - {id};
      return true;
    }

    method Gc(now: i64) returns (removed: nat)
      modifies this
      ensures byId == AfterGc(old(byId), now)
      ensures removed == |set id <- old(byId) | old(byId)[id].IsExpired(now)|
    {
      var before := |byId|;
      ghost var all := byId;
      byId := map id <- byId | !byId[id].IsExpired(now) :: byId[id];
      ghost var expired := set id <- all | all[id].IsExpired(now);
      assert all.Keys == byId.Keys + expired && byId.Keys !! expired;
      assert |all.Keys| == |byId.Keys| + |expired|;
      removed := before - |byId|;
    }
  }

  predicate Matches(stored: Record, r: Record, recipient: Octets, now: i64) {
    stored == r && r.recipient == recipient && !r.IsExpired(now)
  }

  // --- runs ---

  datatype Op =
    | Store(r: Record, now: i64)
    | Ack(id: Octets, recipient: Octets, signature: Octets)
    | Gc(now: i64)
    | Fetch(recipient: Octets, now: i64)

  function Step(verify: Verify, m: Records, op: Op): Records {
    match op
    case Store(r, now) => AfterStore(m, r, now)
    case Ack(id, recipient, signature) => AfterAck(verify, m, id, recipient, signature)
    case Gc(now) => AfterGc(m, now)
    case Fetch(_, _) => m
  }

  function Run(verify: Verify, ops: seq<Op>): Records {
    if ops == [] then map[] else Step(verify, Run(verify, ops[..|ops| - 1]), ops[|ops| - 1])
  }

  /** The same run by a store that never collects. */
  function RunKeeping(verify: Verify, ops: seq<Op>): Records {
    if ops == [] then
      map[]
    else
      var m := RunKeeping(verify, ops[..|ops| - 1]);
      var op := ops[|ops| - 1];
      if op.Gc? then m else Step(verify, m, op)
  }

  /** No reading of the clock is later than `now`. */
  predicate NotAfter(op: Op, now: i64) {
    op.Ack? || op.now <= now
  }

  /** The clock never goes back: each reading is no earlier than those before it. */
  ghost predicate Clocked(ops: seq<Op>) {
    forall i, j :: 0 <= i < j < |ops| && !ops[j].Ack? ==> NotAfter(ops[i], ops[j].now)
  }

  lemma {:induction false} RunFiled(verify: Verify, ops: seq<Op>)
    ensures Filed(Run(verify, ops))
  {
    if ops != [] {
      RunFiled(verify, ops[..|ops| - 1]);
    }
  }

  /** The collecting store holds a part of the other, and what it lacks has expired. */
  ghost predicate CollectedFrom(m: Records, kept: Records, now: i64) {
    && (forall id <- m :: id in kept && m[id] == kept[id])
    && (forall id <- kept :: id !in m ==> kept[id].IsExpired(now))
  }

  lemma {:induction false} RunsAgree(verify: Verify, ops: seq<Op>, now: i64)
    requires Clocked(ops) && forall op <- ops :: NotAfter(op, now)
    ensures CollectedFrom(Run(verify, ops), RunKeeping(verify, ops), now)
  {
    if ops != [] {
      var front, op := ops[..|ops| - 1], ops[|ops| - 1];
      assert op in ops;
      var t := if op.Ack? then now else op.now;
      forall o <- front
        ensures NotAfter(o, t)
      {
        var i: nat :| i < |front| && ops[i] == o;
        assert o in ops;
      }
      RunsAgree(verify, front, t);
      StepAgrees(verify, Run(verify, front), RunKeeping(verify, front), op, t, now);
    }
  }

  lemma StepAgrees(verify: Verify, m: Records, kept: Records, op: Op, t: i64, now: i64)
    requires CollectedFrom(m, kept, t) && t <= now && (op.Ack? || op.now == t)
    ensures CollectedFrom(Step(verify, m, op), if op.Gc? then kept else Step(verify, kept, op), now)
  {
  }

  lemma AgreeingFetches(m: Records, kept: Records, recipient: Octets, now: i64)
    requires CollectedFrom(m, kept, now)
    ensures Fetchable(m, recipient, now) == Fetchable(kept, recipient, now)
  {
  }

  /** Under a clock that never goes back, no fetch can tell a collecting store from one that never collects. */
  lemma GcUnobservable(verify: Verify, ops: seq<Op>, k: nat)
    requires Clocked(ops) && k < |ops| && ops[k].Fetch?
    ensures Fetchable(Run(verify, ops[..k]), ops[k].recipient, ops[k].now)
         == Fetchable(RunKeeping(verify, ops[..k]), ops[k].recipient, ops[k].now)
  {
    var now := ops[k].now;
    forall op <- ops[..k]
      ensures NotAfter(op, now)
    {
    }
    RunsAgree(verify, ops[..k], now);
    AgreeingFetches(Run(verify, ops[..k]), RunKeeping(verify, ops[..k]), ops[k].recipient, now);
  }

  // --- what a fetch returns ---

  /** Operation `op` puts `r` in the store. */
  predicate Accepts(op: Op, r: Record) {
    op.Store? && op.r == r && !r.IsExpired(op.now)
  }

  /** Operation `op` takes `r` out of the store, if it is there: by replacing it or on a valid acknowledgement. */
  predicate Displaces(verify: Verify, op: Op, r: Record) {
    match op
    case Store(r', now) => r'.messageId == r.messageId && !r'.IsExpired(now)
    case Ack(id, recipient, signature) =>
      id == r.messageId && recipient == r.recipient && VerifyAck(verify, recipient, id, signature)
    case _ => false
  }

  /** `r` was accepted at operation `i` and nothing displaced it since. */
  ghost predicate StandsSince(verify: Verify, ops: seq<Op>, r: Record, i: nat) {
    && i < |ops| && Accepts(ops[i], r)
    && (forall j :: i < j < |ops| ==> !Displaces(verify, ops[j], r))
  }

  ghost predicate Stands(verify: Verify, ops: seq<Op>, r: Record) {
    exists i: nat :: StandsSince(verify, ops, r, i)
  }

  lemma StandsStep(verify: Verify, front: seq<Op>, op: Op, r: Record)
    ensures Stands(verify, front + [op], r)
      <==> Accepts(op, r) || (Stands(verify, front, r) && !Displaces(verify, op, r))
  {
    var ops := front + [op];
    if Stands(verify, ops, r) {
      var i: nat :| StandsSince(verify, ops, r, i);
      if i < |front| {
        assert forall j :: i < j < |front| ==> ops[j] == front[j];
        assert StandsSince(verify, front, r, i);
        assert ops[|front|] == op;
      }
    }
    if Accepts(op, r) {
      assert StandsSince(verify, ops, r, |front|);
    } else if Stands(verify, front, r) && !Displaces(verify, op, r) {
      var i: nat :| StandsSince(verify, front, r, i);
      assert StandsSince(verify, ops, r, i);
    }
  }

  lemma {:induction false} KeptIffStands(verify: Verify, ops: seq<Op>, r: Record)
    ensures (r.messageId in RunKeeping(verify, ops) && RunKeeping(verify, ops)[r.messageId] == r)
      <==> Stands(verify, ops, r)
    ensures Filed(RunKeeping(verify, ops))
  {
    if ops != [] {
      var front, op := ops[..|ops| - 1], ops[|ops| - 1];
      assert ops == front + [op];
      KeptIffStands(verify, front, r);
      StandsStep(verify, front, op, r);
    }
  }

  /** A fetch returns exactly the records addressed to the caller that were the last accepted under their id,
      have not been acknowledged since, and have not expired. */
  lemma FetchedIff(verify: Verify, ops: seq<Op>, k: nat, r: Record)
    requires Clocked(ops) && k < |ops| && ops[k].Fetch?
    ensures r in Fetchable(Run(verify, ops[..k]), ops[k].recipient, ops[k].now)
      <==> Stands(verify, ops[..k], r) && r.recipient == ops[k].recipient && !r.IsExpired(ops[k].now)
  {
    GcUnobservable(verify, ops, k);
    KeptIffStands(verify, ops[..k], r);
  }

  // --- where collection does show ---

  /** A collection ran after operation `i`, when `r` had expired. */
  ghost predicate CollectedSince(ops: seq<Op>, r: Record, i: nat) {
    exists j :: i < j < |ops| && ops[j].Gc? && r.IsExpired(ops[j].now)
  }

  lemma CollectedStep(front: seq<Op>, op: Op, r: Record, i: nat)
    requires i < |front|
    ensures CollectedSince(front + [op], r, i) <==> CollectedSince(front, r, i) || (op.Gc? && r.IsExpired(op.now))
  {
    var ops := front + [op];
    if CollectedSince(ops, r, i) {
      var j :| i < j < |ops| && ops[j].Gc? && r.IsExpired(ops[j].now);
      if j < |front| {
        assert front[j] == ops[j];
      }
    }
    if CollectedSince(front, r, i) {
      var j :| i < j < |front| && front[j].Gc? && r.IsExpired(front[j].now);
      assert ops[j] == front[j];
    } else if op.Gc? && r.IsExpired(op.now) {
      assert ops[|front|] == op;
    }
  }

  /** A record that stands is gone from the collecting store exactly when a collection ran after it had
      expired, whatever the clock did. */
  lemma {:induction false} GoneIffCollected(verify: Verify, ops: seq<Op>, r: Record, i: nat)
    requires StandsSince(verify, ops, r, i)
    ensures r.messageId !in Run(verify, ops) <==> CollectedSince(ops, r, i)
    ensures r.messageId in Run(verify, ops) ==> Run(verify, ops)[r.messageId] == r
    decreases |ops|
  {
    var front, op := ops[..|ops| - 1], ops[|ops| - 1];
    assert ops == front + [op];
    if i < |front| {
      assert StandsSince(verify, front, r, i);
      GoneIffCollected(verify, front, r, i);
      CollectedStep(front, op, r, i);
      assert !Displaces(verify, op, r);
      RunFiled(verify, front);
    }
  }

  /** Garbage collection shows in a fetch exactly when it took a standing record that a later, earlier-dated
      fetch would still return. */
  lemma FetchTellsIffCollected(verify: Verify, ops: seq<Op>, r: Record, i: nat, recipient: Octets, now: i64)
    requires StandsSince(verify, ops, r, i)
    ensures
      (r in Fetchable(Run(verify, ops), recipient, now)) != (r in Fetchable(RunKeeping(verify, ops), recipient, now))
      <==> r.recipient == recipient && !r.IsExpired(now) && CollectedSince(ops, r, i)
  {
    GoneIffCollected(verify, ops, r, i);
    assert Stands(verify, ops, r);
    KeptIffStands(verify, ops, r);
    RunFiled(verify, ops);
  }

  /** An acknowledgement of a standing record is answered differently by the two stores exactly when it is
      valid and a collection ran after the record had expired. */
  lemma AckTellsIffCollected(verify: Verify, ops: seq<Op>, r: Record, i: nat, recipient: Octets, signature: Octets)
    requires StandsSince(verify, ops, r, i)
    ensures
      AckAccepted(verify, Run(verify, ops), r.messageId, recipient, signature)
      != AckAccepted(verify, RunKeeping(verify, ops), r.messageId, recipient, signature)
      <==> recipient == r.recipient && VerifyAck(verify, recipient, r.messageId, signature) && CollectedSince(ops, r, i)
  {
    GoneIffCollected(verify, ops, r, i);
    assert Stands(verify, ops, r);
    KeptIffStands(verify, ops, r);
  }

  /** An acknowledgement of an id nobody stands under is refused by both. */
  lemma AckOfNothing(verify: Verify, ops: seq<Op>, id: Octets, recipient: Octets, signature: Octets)
    requires forall r: Record :: r.messageId == id ==> !Stands(verify, ops, r)
    ensures !AckAccepted(verify, Run(verify, ops), id, recipient, signature)
    ensures !AckAccepted(verify, RunKeeping(verify, ops), id, recipient, signature)
  {
    if id in RunKeeping(verify, ops) {
      KeptIffStands(verify, ops, RunKeeping(verify, ops)[id]);
    }
    RunFromKept(verify, ops);
  }

  /** Whatever the clock did, the collecting store holds a part of the other. */
  lemma {:induction false} RunFromKept(verify: Verify, ops: seq<Op>)
    ensures forall id <- Run(verify, ops) ::
      id in RunKeeping(verify, ops) && Run(verify, ops)[id] == RunKeeping(verify, ops)[id]
  {
    if ops != [] {
      RunFromKept(verify, ops[..|ops| - 1]);
    }
  }

  /** There is such a run: a record is stored, expires and is collected, and then its recipient acknowledges it. */
  lemma CollectedAckTells(verify: Verify, r: Record, signature: Octets)
    requires r.storedAt == 0 && r.ttl == 10 && VerifyAck(verify, r.recipient, r.messageId, signature)
    ensures var ops := [Store(r, 0), Gc(10)];
      && Clocked(ops)
      && !AckAccepted(verify, Run(verify, ops), r.messageId, r.recipient, signature)
      && AckAccepted(verify, RunKeeping(verify, ops), r.messageId, r.recipient, signature)
  {
    var ops := [Store(r, 0), Gc(10)];
    assert StandsSince(verify, ops, r, 0);
    assert ops[1].Gc? && r.IsExpired(ops[1].now);
    AckTellsIffCollected(verify, ops, r, 0, r.recipient, signature);
  }

  /** A clock that goes back makes collection visible: the order of the readings is needed. */
  lemma BackwardClockTells(verify: Verify, r: Record)
    requires r.storedAt == 0 && r.ttl == 10
    ensures var ops := [Store(r, 0), Gc(10)];
      && Fetchable(Run(verify, ops), r.recipient, 5) == {}
      && Fetchable(RunKeeping(verify, ops), r.recipient, 5) == {r}
  {
    var ops := [Store(r, 0), Gc(10)];
    assert ops[..1] == [Store(r, 0)] && ops[..1][..0] == [];
    assert Run(verify, ops[..1]) == map[r.messageId := r];
    assert RunKeeping(verify, ops[..1]) == map[r.messageId := r];
    assert RunKeeping(verify, ops) == map[r.messageId := r];
    assert Run(verify, ops) == map[];
    assert r.messageId in RunKeeping(verify, ops);
  }
}

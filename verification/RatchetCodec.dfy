/** The stored form of a session: `Ratchet::serialize` and `Ratchet::deserialize`, byte by byte. */
module RatchetCodec {
  import opened Wrappers
  import opened Bytes
  import opened Crypto
  import opened ByteCursor
  import opened MapEnumeration
  import opened Sessions

  type Stored = Session<Octets>

  type Entry = ((Octets, nat), MessageKey<Octets>)

  /** Every key is 32 bytes, every nonce 12, every counter 32 bits. */
  predicate Sized(s: Stored) {
    && |s.dhsSecret| == |s.dhsPublic| == |s.rk| == 32
    && SizedOption(s.dhr) && SizedOption(s.cks) && SizedOption(s.ckr)
    && s.ns <= U32_MAX && s.nr <= U32_MAX && s.pn <= U32_MAX
    && |s.skipped| <= U32_MAX
    && forall k <- s.skipped :: SizedEntry((k, s.skipped[k]))
  }

  predicate SizedOption(v: Option<Octets>) {
    v.Some? ==> |v.value| == 32
  }

  predicate SizedEntry(e: Entry) {
    |e.0.0| == 32 && e.0.1 <= U32_MAX && |e.1.key| == 32 && |e.1.nonce| == 12
  }

  // --- writing ---

  function PutOption(v: Option<Octets>): Octets {
    if v.Some? then [1] + v.value else [0]
  }

  function PutEntry(e: Entry): Octets
    requires e.0.1 <= U32_MAX
  {
    e.0.0 + U32ToBytes(e.0.1) + e.1.key + e.1.nonce
  }

  function PutEntries(order: seq<Entry>): Octets
    requires forall e <- order :: SizedEntry(e)
  {
    if order == [] then
      []
    else
      assert order[0] in order && SizedEntry(order[0]);
      PutEntry(order[0]) + PutEntries(order[1..])
  }

  function Fields(s: Stored): Octets
    requires Sized(s)
  {
    s.dhsSecret + s.dhsPublic + PutOption(s.dhr) + s.rk + PutOption(s.cks) + PutOption(s.ckr)
    + U32ToBytes(s.ns) + U32ToBytes(s.nr) + U32ToBytes(s.pn) + U32ToBytes(|s.skipped|)
  }

  /** The bytes of a session when its map is enumerated in the given order. */
  function Serialized(s: Stored, order: seq<Entry>): Octets
    requires Sized(s) && Enumerates(order, s.skipped)
  {
    Fields(s) + PutEntries(order)
  }

  // --- reading ---

  function TakeOption(b: Octets): Option<(Option<Octets>, Octets)> {
    var (flag, rest) :- TakeBytes(b, 1);
    if flag[0] == 0 then
      Some((None, rest))
    else
      var (v, rest) :- TakeBytes(rest, 32);
      Some((Some(v), rest))
  }

  function TakeEntry(b: Octets): Option<(Entry, Octets)> {
    var (dhr, b) :- TakeBytes(b, 32);
    var (n, b) :- TakeU32(b);
    var (key, b) :- TakeBytes(b, 32);
    var (nonce, b) :- TakeBytes(b, 12);
    Some((((dhr, n), MessageKey(key, nonce)), b))
  }

  function TakeEntries(b: Octets, count: nat, m: map<(Octets, nat), MessageKey<Octets>>)
    : Option<(map<(Octets, nat), MessageKey<Octets>>, Octets)>
  {
    if count == 0 then
      Some((m, b))
    else
      var (e, b) :- TakeEntry(b);
      TakeEntries(b, count - 1, m[e.0 := e.1])
  }

  /** The fields before the table, and the number of its entries. */
  function TakeFields(b: Octets): Option<((Stored, nat), Octets)> {
    var (dhsSecret, b) :- TakeBytes(b, 32);
    var (dhsPublic, b) :- TakeBytes(b, 32);
    var (dhr, b) :- TakeOption(b);
    var (rk, b) :- TakeBytes(b, 32);
    var (cks, b) :- TakeOption(b);
    var (ckr, b) :- TakeOption(b);
    var (ns, b) :- TakeU32(b);
    var (nr, b) :- TakeU32(b);
    var (pn, b) :- TakeU32(b);
    var (count, b) :- TakeU32(b);
    Some(((Session(dhsSecret, dhsPublic, dhr, rk, cks, ckr, ns, nr, pn, map[]), count), b))
  }

  function Deserialized(b: Octets): Option<(Stored, Octets)> {
    var ((s, count), b) :- TakeFields(b);
    var (skipped, b) :- TakeEntries(b, count, map[]);
    Some((s.(skipped := skipped), b))
  }

  // --- round trip ---

  lemma TakeOptionOf(v: Option<Octets>, rest: Octets)
    requires SizedOption(v)
    ensures TakeOption(PutOption(v) + rest) == Some((v, rest))
  {
    if v.Some? {
      assert PutOption(v) + rest == [1] + (v.value + rest);
      TakeBytesOf([1], v.value + rest);
      TakeBytesOf(v.value, rest);
    } else {
      TakeBytesOf([0], rest);
    }
  }

  /** Any flag but 0 announces a key. */
  lemma AnyFlagButZero(flag: u8, v: Octets, rest: Octets)
    requires |v| == 32
    ensures TakeOption([flag] + (v + rest)) == Some(if flag == 0 then (None, v + rest) else (Some(v), rest))
  {
    TakeBytesOf([flag], v + rest);
    TakeBytesOf(v, rest);
  }

  lemma TakeEntryOf(e: Entry, rest: Octets)
    requires SizedEntry(e)
    ensures TakeEntry(PutEntry(e) + rest) == Some((e, rest))
  {
    var r3 := e.1.nonce + rest;
    var r2 := e.1.key + r3;
    var r1 := U32ToBytes(e.0.1) + r2;
    assert PutEntry(e) + rest == e.0.0 + r1;
    TakeBytesOf(e.0.0, r1);
    TakeU32Of(e.0.1, r2);
    TakeBytesOf(e.1.key, r3);
    TakeBytesOf(e.1.nonce, rest);
  }

  lemma {:induction false} TakeEntriesOf(
    order: seq<Entry>, rest: Octets, m: map<(Octets, nat), MessageKey<Octets>>)
    requires forall e <- order :: SizedEntry(e)
    ensures TakeEntries(PutEntries(order) + rest, |order|, m) == Some((Insert(order, m), rest))
  {
    if order == [] {
      assert PutEntries(order) + rest == rest;
    } else {
      assert order[0] in order;
      var tail := PutEntries(order[1..]) + rest;
      assert PutEntries(order) + rest == PutEntry(order[0]) + tail;
      TakeEntryOf(order[0], tail);
      TakeEntriesOf(order[1..], rest, m[order[0].0 := order[0].1]);
    }
  }

  lemma TakeFieldsOf(s: Stored, rest: Octets)
    requires Sized(s)
    ensures TakeFields(Fields(s) + rest) == Some(((s.(skipped := map[]), |s.skipped|), rest))
  {
    var p2 := s.dhsSecret + s.dhsPublic;
    var p3 := p2 + PutOption(s.dhr);
    var p4 := p3 + s.rk;
    var p5 := p4 + PutOption(s.cks);
    var p6 := p5 + PutOption(s.ckr);
    var p7 := p6 + U32ToBytes(s.ns);
    var p8 := p7 + U32ToBytes(s.nr);
    var p9 := p8 + U32ToBytes(s.pn);

    var r9 := U32ToBytes(|s.skipped|) + rest;
    var r8 := U32ToBytes(s.pn) + r9;
    var r7 := U32ToBytes(s.nr) + r8;
    var r6 := U32ToBytes(s.ns) + r7;
    var r5 := PutOption(s.ckr) + r6;
    var r4 := PutOption(s.cks) + r5;
    var r3 := s.rk + r4;
    var r2 := PutOption(s.dhr) + r3;
    var r1 := s.dhsPublic + r2;

    Assoc(p9, U32ToBytes(|s.skipped|), rest);
    Assoc(p8, U32ToBytes(s.pn), r9);
    Assoc(p7, U32ToBytes(s.nr), r8);
    Assoc(p6, U32ToBytes(s.ns), r7);
    Assoc(p5, PutOption(s.ckr), r6);
    Assoc(p4, PutOption(s.cks), r5);
    Assoc(p3, s.rk, r4);
    Assoc(p2, PutOption(s.dhr), r3);
    Assoc(s.dhsSecret, s.dhsPublic, r2);

    TakeBytesOf(s.dhsSecret, r1);
    TakeBytesOf(s.dhsPublic, r2);
    TakeOptionOf(s.dhr, r3);
    TakeBytesOf(s.rk, r4);
    TakeOptionOf(s.cks, r5);
    TakeOptionOf(s.ckr, r6);
    TakeU32Of(s.ns, r7);
    TakeU32Of(s.nr, r8);
    TakeU32Of(s.pn, r9);
    TakeU32Of(|s.skipped|, rest);
  }

  /** Reading what was written gives the session back, whatever the enumeration order of its map
      and whatever bytes follow. */
  lemma RoundTrip(s: Stored, order: seq<Entry>, junk: Octets)
    requires Sized(s) && Enumerates(order, s.skipped)
    ensures Deserialized(Serialized(s, order) + junk) == Some((s, junk))
  {
    assert forall e <- order :: SizedEntry(e);
    assert Serialized(s, order) + junk == Fields(s) + (PutEntries(order) + junk);
    TakeFieldsOf(s, PutEntries(order) + junk);
    TakeEntriesOf(order, junk, map[]);
    InsertEnumeration(order, s.skipped);
  }

  // --- truncation ---

  lemma TakeOptionExtend(b: Octets, junk: Octets)
    requires TakeOption(b).Some?
    ensures TakeOption(b + junk) == Some((TakeOption(b).value.0, TakeOption(b).value.1 + junk))
  {
    TakeBytesExtend(b, 1, junk);
    if b[..1][0] != 0 {
      TakeBytesExtend(b[1..], 32, junk);
    }
  }

  lemma TakeEntryExtend(b: Octets, junk: Octets)
    requires TakeEntry(b).Some?
    ensures TakeEntry(b + junk) == Some((TakeEntry(b).value.0, TakeEntry(b).value.1 + junk))
  {
    TakeBytesExtend(b, 32, junk);
    TakeU32Extend(b[32..], junk);
    TakeBytesExtend(b[32..][4..], 32, junk);
    TakeBytesExtend(b[32..][4..][32..], 12, junk);
  }

  lemma {:induction false} TakeEntriesExtend(
    b: Octets, count: nat, m: map<(Octets, nat), MessageKey<Octets>>, junk: Octets)
    requires TakeEntries(b, count, m).Some?
    ensures TakeEntries(b + junk, count, m)
      == Some((TakeEntries(b, count, m).value.0, TakeEntries(b, count, m).value.1 + junk))
  {
    if count > 0 {
      TakeEntryExtend(b, junk);
      var (e, rest) := TakeEntry(b).value;
      TakeEntriesExtend(rest, count - 1, m[e.0 := e.1], junk);
    }
  }

  lemma TakeFieldsExtend(b: Octets, junk: Octets)
    requires TakeFields(b).Some?
    ensures TakeFields(b + junk) == Some((TakeFields(b).value.0, TakeFields(b).value.1 + junk))
  {
    TakeBytesExtend(b, 32, junk);
    var b1 := TakeBytes(b, 32).value.1;
    TakeBytesExtend(b1, 32, junk);
    var b2 := TakeBytes(b1, 32).value.1;
    TakeOptionExtend(b2, junk);
    var b3 := TakeOption(b2).value.1;
    TakeBytesExtend(b3, 32, junk);
    var b4 := TakeBytes(b3, 32).value.1;
    TakeOptionExtend(b4, junk);
    var b5 := TakeOption(b4).value.1;
    TakeOptionExtend(b5, junk);
    var b6 := TakeOption(b5).value.1;
    TakeU32Extend(b6, junk);
    var b7 := TakeU32(b6).value.1;
    TakeU32Extend(b7, junk);
    var b8 := TakeU32(b7).value.1;
    TakeU32Extend(b8, junk);
    TakeU32Extend(TakeU32(b8).value.1, junk);
  }

  lemma DeserializedExtend(b: Octets, junk: Octets)
    requires Deserialized(b).Some?
    ensures Deserialized(b + junk) == Some((Deserialized(b).value.0, Deserialized(b).value.1 + junk))
  {
    TakeFieldsExtend(b, junk);
    var ((_, count), rest) := TakeFields(b).value;
    TakeEntriesExtend(rest, count, map[], junk);
  }

  /** Every truncated state is refused. */
  lemma PrefixRejected(s: Stored, order: seq<Entry>, cut: nat)
    requires Sized(s) && Enumerates(order, s.skipped)
    requires cut < |Serialized(s, order)|
    ensures Deserialized(Serialized(s, order)[..cut]).None?
  {
    var b := Serialized(s, order);
    RoundTrip(s, order, []);
    assert b + [] == b;
    assert b == b[..cut] + b[cut..];
    if Deserialized(b[..cut]).Some? {
      DeserializedExtend(b[..cut], b[cut..]);
    }
  }

  /** Two sessions with the same bytes are the same session. */
  lemma SerializedInjective(s: Stored, order: seq<Entry>, s': Stored, order': seq<Entry>)
    requires Sized(s) && Enumerates(order, s.skipped) && Sized(s') && Enumerates(order', s'.skipped)
    requires Serialized(s, order) == Serialized(s', order')
    ensures s == s'
  {
    RoundTrip(s, order, []);
    RoundTrip(s', order', []);
  }

  // --- every state read back fits its fields ---

  lemma {:induction false} TakeEntriesSized(b: Octets, count: nat, m: map<(Octets, nat), MessageKey<Octets>>)
    requires TakeEntries(b, count, m).Some? && forall k <- m :: SizedEntry((k, m[k]))
    ensures
      var out := TakeEntries(b, count, m).value.0;
      |out| <= |m| + count && forall k <- out :: SizedEntry((k, out[k]))
  {
    if count > 0 {
      var (e, rest) := TakeEntry(b).value;
      var m' := m[e.0 := e.1];
      assert m'.Keys == m.Keys + {e.0};
      assert |m'.Keys| <= |m.Keys| + 1;
      assert SizedEntry(e);
      TakeEntriesSized(rest, count - 1, m');
    }
  }

  lemma DeserializedSized(b: Octets)
    requires Deserialized(b).Some?
    ensures Sized(Deserialized(b).value.0)
  {
    var ((s, count), rest) := TakeFields(b).value;
    TakeEntriesSized(rest, count, map[]);
  }

  // --- the procedures ---

  /** Writes the fields, then the table in whatever order the map yields its entries. */
  method Serialize(s: Stored) returns (out: Octets)
    requires Sized(s)
    ensures exists order :: Enumerates(order, s.skipped) && out == Serialized(s, order)
  {
    out := s.dhsSecret;
    out := out + s.dhsPublic;
    out := out + PutOption(s.dhr);
    out := out + s.rk;
    out := out + PutOption(s.cks);
    out := out + PutOption(s.ckr);
    out := out + U32ToBytes(s.ns);
    out := out + U32ToBytes(s.nr);
    out := out + U32ToBytes(s.pn);
    out := out + U32ToBytes(|s.skipped|);
    assert out == Fields(s);
    var entries := Enumerate(s.skipped);
    forall e | e in entries
      ensures SizedEntry(e)
    {
      assert SizedEntry((e.0, s.skipped[e.0]));
    }
    var table := SerializeTable(entries);
    out := out + table;
    assert out == Serialized(s, entries);
  }

  method SerializeTable(entries: seq<Entry>) returns (out: Octets)
    requires forall e <- entries :: SizedEntry(e)
    ensures out == PutEntries(entries)
  {
    out := [];
    for i := 0 to |entries|
      invariant out == PutEntries(entries[..i])
    {
      var e := entries[i];
      assert SizedEntry(e) && entries[..i + 1] == entries[..i] + [e];
      PutEntriesAppend(entries[..i], e);
      out := out + (e.0.0 + U32ToBytes(e.0.1) + e.1.key + e.1.nonce);
    }
    assert entries[..|entries|] == entries;
  }

  lemma {:induction false} PutEntriesAppend(order: seq<Entry>, e: Entry)
    requires SizedEntry(e) && forall e' <- order :: SizedEntry(e')
    ensures forall e' <- order + [e] :: SizedEntry(e')
    ensures PutEntries(order + [e]) == PutEntries(order) + PutEntry(e)
  {
    if order == [] {
      assert [e][1..] == [];
    } else {
      assert order[0] in order;
      assert (order + [e])[1..] == order[1..] + [e];
      PutEntriesAppend(order[1..], e);
    }
  }

  method TakeOptional(c: Cursor) returns (r: Option<Option<Octets>>)
    requires c.Valid()
    modifies c
    ensures c.Valid()
    ensures r.Some? <==> TakeOption(old(c.Rest())).Some?
    ensures r.Some? ==> TakeOption(old(c.Rest())) == Some((r.value, c.Rest()))
  {
    var flag :- c.Take(1);
    if flag[0] == 0 {
      return Some(None);
    }
    var v :- c.Take(32);
    r := Some(Some(v));
  }

  method DeserializeFields(c: Cursor) returns (r: Option<(Stored, nat)>)
    requires c.Valid()
    modifies c
    ensures c.Valid()
    ensures r.Some? <==> TakeFields(old(c.Rest())).Some?
    ensures r.Some? ==> TakeFields(old(c.Rest())) == Some((r.value, c.Rest()))
  {
    var dhsSecret :- c.Take(32);
    var dhsPublic :- c.Take(32);
    var dhr :- TakeOptional(c);
    var rk :- c.Take(32);
    var cks :- TakeOptional(c);
    var ckr :- TakeOptional(c);
    var ns :- c.Uint32();
    var nr :- c.Uint32();
    var pn :- c.Uint32();
    var count :- c.Uint32();
    return Some((Session(dhsSecret, dhsPublic, dhr, rk, cks, ckr, ns, nr, pn, map[]), count));
  }

  method DeserializeTable(c: Cursor, count: nat) returns (r: Option<map<(Octets, nat), MessageKey<Octets>>>)
    requires c.Valid()
    modifies c
    ensures c.Valid()
    ensures r.Some? <==> TakeEntries(old(c.Rest()), count, map[]).Some?
    ensures r.Some? ==> TakeEntries(old(c.Rest()), count, map[]) == Some((r.value, c.Rest()))
  {
    var skipped: map<(Octets, nat), MessageKey<Octets>> := map[];
    var i := 0;
    while i < count
      invariant 0 <= i <= count && c.Valid()
      invariant TakeEntries(old(c.Rest()), count, map[]) == TakeEntries(c.Rest(), count - i, skipped)
    {
      var dhrKey :- c.Take(32);
      var n :- c.Uint32();
      var key :- c.Take(32);
      var nonce :- c.Take(12);
      skipped := skipped[(dhrKey, n) := MessageKey(key, nonce)];
      i := i + 1;
    }
    return Some(skipped);
  }

  method Deserialize(bytes: Octets) returns (r: Option<Stored>)
    ensures r.Some? <==> Deserialized(bytes).Some?
    ensures r.Some? ==> r.value == Deserialized(bytes).value.0
  {
    var c := new Cursor(bytes);
    var fields :- DeserializeFields(c);
    var (s, count) := fields;
    var skipped :- DeserializeTable(c, count);
    return Some(s.(skipped := skipped));
  }
}

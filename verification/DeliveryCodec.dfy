/** The key-delivery wire format: a snapshot of the group sent over each 1:1 session. */
module DeliveryCodec {
  import opened Wrappers
  import opened Bytes
  import opened ByteCursor
  import opened MapEnumeration
  import opened X3dh
  import G = Group
  import Utf8

  datatype Delivery = Delivery(
    groupId: Octets, name: Utf8.Text, epoch: u32, key: Octets, members: map<Peer, G.Member>)

  type Entry = (Peer, G.Member)

  /** All lengths fit their 32-bit prefixes, and the key is 32 bytes. */
  predicate Sized(d: Delivery) {
    && |d.groupId| <= U32_MAX && |Utf8.Encode(d.name)| <= U32_MAX && |d.key| == 32
    && |d.members| <= U32_MAX && (forall p <- d.members :: |p| <= U32_MAX)
  }

  // --- writing ---

  function PutMember(e: Entry): Octets {
    PutField(e.0) + [if e.1.isAdmin then 1 else 0] + U32ToBytes(e.1.joinedEpoch)
  }

  function PutMembers(order: seq<Entry>): Octets {
    if order == [] then [] else PutMember(order[0]) + PutMembers(order[1..])
  }

  function Fields(d: Delivery): Octets {
    PutField(d.groupId) + PutField(Utf8.Encode(d.name)) + U32ToBytes(d.epoch) + d.key
    + U32ToBytes(|d.members| % 0x1_0000_0000)
  }

  function Encoded(d: Delivery, order: seq<Entry>): Octets {
    Fields(d) + PutMembers(order)
  }

  // --- reading ---

  function TakeMember(b: Octets): Option<(Entry, Octets)> {
    var (peer, b) :- TakeField(b);
    var (flag, b) :- TakeBytes(b, 1);
    var (joined, b) :- TakeU32(b);
    Some(((peer, G.Member(flag[0] != 0, joined)), b))
  }

  function TakeMembers(b: Octets, count: nat, m: map<Peer, G.Member>): Option<map<Peer, G.Member>> {
    if count == 0 then
      Some(m)
    else
      var (e, b) :- TakeMember(b);
      TakeMembers(b, count - 1, m[e.0 := e.1])
  }

  function TakeName(b: Octets): Option<(Utf8.Text, Octets)> {
    var (f, b) :- TakeField(b);
    var name :- Utf8.Decode(f);
    Some((name, b))
  }

  /** The epoch, the key and the number of members. */
  function TakeEpoch(b: Octets): Option<((u32, Octets, nat), Octets)> {
    var (epoch, b) :- TakeU32(b);
    var (key, b) :- TakeBytes(b, 32);
    var (count, b) :- TakeU32(b);
    Some(((epoch, key, count), b))
  }

  /** The fields before the member table, and the number of its entries. */
  function TakeFields(b: Octets): Option<((Delivery, nat), Octets)> {
    var (groupId, b) :- TakeField(b);
    var (name, b) :- TakeName(b);
    var ((epoch, key, count), b) :- TakeEpoch(b);
    Some(((Delivery(groupId, name, epoch, key, map[]), count), b))
  }

  function Decoded(b: Octets): Option<Delivery> {
    var ((d, count), b) :- TakeFields(b);
    var members :- TakeMembers(b, count, map[]);
    Some(d.(members := members))
  }

  // --- round trip ---

  lemma TakeMemberOf(e: Entry, rest: Octets)
    requires |e.0| <= U32_MAX
    ensures TakeMember(PutMember(e) + rest) == Some((e, rest))
  {
    var flag: Octets := [if e.1.isAdmin then 1 else 0];
    var r2 := U32ToBytes(e.1.joinedEpoch) + rest;
    var r1 := flag + r2;
    Assoc(PutField(e.0) + flag, U32ToBytes(e.1.joinedEpoch), rest);
    Assoc(PutField(e.0), flag, r2);
    TakeFieldOf(e.0, r1);
    TakeBytesOf(flag, r2);
    TakeU32Of(e.1.joinedEpoch, rest);
  }

  /** Any flag but 0 reads as administrator. */
  lemma AnyFlagButZero(peer: Peer, flag: u8, joined: u32, rest: Octets)
    requires |peer| <= U32_MAX
    ensures TakeMember(PutField(peer) + ([flag] + (U32ToBytes(joined) + rest)))
         == Some(((peer, G.Member(flag != 0, joined)), rest))
  {
    TakeFieldOf(peer, [flag] + (U32ToBytes(joined) + rest));
    TakeBytesOf([flag], U32ToBytes(joined) + rest);
    TakeU32Of(joined, rest);
  }

  lemma {:induction false} TakeMembersOf(order: seq<Entry>, junk: Octets, m: map<Peer, G.Member>)
    requires forall e <- order :: |e.0| <= U32_MAX
    ensures TakeMembers(PutMembers(order) + junk, |order|, m) == Some(Insert(order, m))
  {
    if order != [] {
      var tail := PutMembers(order[1..]) + junk;
      assert order[0] in order;
      Assoc(PutMember(order[0]), PutMembers(order[1..]), junk);
      TakeMemberOf(order[0], tail);
      TakeMembersOf(order[1..], junk, m[order[0].0 := order[0].1]);
    }
  }

  lemma TakeNameOf(name: Utf8.Text, rest: Octets)
    requires |Utf8.Encode(name)| <= U32_MAX
    ensures TakeName(PutField(Utf8.Encode(name)) + rest) == Some((name, rest))
  {
    TakeFieldOf(Utf8.Encode(name), rest);
    Utf8.RoundTrip(name);
  }

  lemma TakeEpochOf(epoch: u32, key: Octets, count: u32, rest: Octets)
    requires |key| == 32
    ensures TakeEpoch(U32ToBytes(epoch) + (key + (U32ToBytes(count) + rest))) == Some(((epoch, key, count), rest))
  {
    TakeU32Of(epoch, key + (U32ToBytes(count) + rest));
    TakeBytesOf(key, U32ToBytes(count) + rest);
    TakeU32Of(count, rest);
  }

  lemma Nest5(a: Octets, b: Octets, c: Octets, d: Octets, e: Octets, rest: Octets)
    ensures a + b + c + d + e + rest == a + (b + (c + (d + (e + rest))))
  {
    Assoc(a + b + c + d, e, rest);
    Assoc(a + b + c, d, e + rest);
    Assoc(a + b, c, d + (e + rest));
    Assoc(a, b, c + (d + (e + rest)));
  }

  lemma TakeFieldsOf(d: Delivery, rest: Octets)
    requires Sized(d)
    ensures TakeFields(Fields(d) + rest) == Some(((d.(members := map[]), |d.members|), rest))
  {
    var count := U32ToBytes(|d.members|);
    assert |d.members| % 0x1_0000_0000 == |d.members|;
    Nest5(PutField(d.groupId), PutField(Utf8.Encode(d.name)), U32ToBytes(d.epoch), d.key, count, rest);
    TakeNested(d, |d.members|, rest);
  }

  lemma TakeNested(d: Delivery, count: u32, rest: Octets)
    requires |d.groupId| <= U32_MAX && |Utf8.Encode(d.name)| <= U32_MAX && |d.key| == 32
    ensures TakeFields(
      PutField(d.groupId)
      + (PutField(Utf8.Encode(d.name)) + (U32ToBytes(d.epoch) + (d.key + (U32ToBytes(count) + rest)))))
      == Some(((d.(members := map[]), count), rest))
  {
    var r2 := U32ToBytes(d.epoch) + (d.key + (U32ToBytes(count) + rest));
    TakeFieldOf(d.groupId, PutField(Utf8.Encode(d.name)) + r2);
    TakeNameOf(d.name, r2);
    TakeEpochOf(d.epoch, d.key, count, rest);
  }

  /** A delivery reads back as itself, whatever the enumeration order of the members and whatever
      bytes follow. */
  lemma RoundTrip(d: Delivery, order: seq<Entry>, junk: Octets)
    requires Sized(d) && Enumerates(order, d.members)
    ensures Decoded(Encoded(d, order) + junk) == Some(d)
  {
    Assoc(Fields(d), PutMembers(order), junk);
    TakeFieldsOf(d, PutMembers(order) + junk);
    TakeMembersOf(order, junk, map[]);
    InsertEnumeration(order, d.members);
  }

  // --- the procedures ---

  method Encode(d: Delivery) returns (out: Octets)
    ensures exists order :: Enumerates(order, d.members) && out == Encoded(d, order)
  {
    out := PutField(d.groupId);
    out := out + PutField(Utf8.Encode(d.name));
    out := out + U32ToBytes(d.epoch);
    out := out + d.key;
    out := out + U32ToBytes(|d.members| % 0x1_0000_0000);
    assert out == Fields(d);
    var entries := Enumerate(d.members);
    var table := EncodeMembers(entries);
    out := out + table;
    assert out == Encoded(d, entries);
  }

  method EncodeMembers(entries: seq<Entry>) returns (out: Octets)
    ensures out == PutMembers(entries)
  {
    out := [];
    for i := 0 to |entries|
      invariant out == PutMembers(entries[..i])
    {
      var e := entries[i];
      assert entries[..i + 1] == entries[..i] + [e];
      PutMembersAppend(entries[..i], e);
      out := out + (PutField(e.0) + [if e.1.isAdmin then 1 else 0] + U32ToBytes(e.1.joinedEpoch));
    }
    assert entries[..|entries|] == entries;
  }

  lemma {:induction false} PutMembersAppend(order: seq<Entry>, e: Entry)
    ensures PutMembers(order + [e]) == PutMembers(order) + PutMember(e)
  {
    if order == [] {
      assert [e][1..] == [];
    } else {
      assert (order + [e])[1..] == order[1..] + [e];
      PutMembersAppend(order[1..], e);
    }
  }

  method DecodeFields(c: Cursor) returns (r: Option<(Delivery, nat)>)
    requires c.Valid()
    modifies c
    ensures c.Valid()
    ensures r.Some? <==> TakeFields(old(c.Rest())).Some?
    ensures r.Some? ==> TakeFields(old(c.Rest())) == Some((r.value, c.Rest()))
  {
    var groupId :- c.Field();
    var nameBytes :- c.Field();
    var name :- Utf8.Decode(nameBytes);
    ghost var rest := c.Rest();
    assert TakeFields(old(c.Rest())).Some? ==> TakeEpoch(rest).Some?;
    var epoch :- c.Uint32();
    var key :- c.Take(32);
    var count :- c.Uint32();
    assert TakeEpoch(rest) == Some(((epoch, key, count), c.Rest()));
    r := Some((Delivery(groupId, name, epoch, key, map[]), count));
  }

  method DecodeMember(c: Cursor) returns (r: Option<Entry>)
    requires c.Valid()
    modifies c
    ensures c.Valid()
    ensures r.Some? <==> TakeMember(old(c.Rest())).Some?
    ensures r.Some? ==> TakeMember(old(c.Rest())) == Some((r.value, c.Rest()))
  {
    var peer :- c.Field();
    var flag :- c.Take(1);
    var joined :- c.Uint32();
    r := Some((peer, G.Member(flag[0] != 0, joined)));
  }

  method DecodeMembers(c: Cursor, count: nat) returns (r: Option<map<Peer, G.Member>>)
    requires c.Valid()
    modifies c
    ensures r == TakeMembers(old(c.Rest()), count, map[])
  {
    var members: map<Peer, G.Member> := map[];
    var left := count;
    while left > 0
      invariant c.Valid()
      invariant TakeMembers(old(c.Rest()), count, map[]) == TakeMembers(c.Rest(), left, members)
    {
      var e :- DecodeMember(c);
      members := members[e.0 := e.1];
      left := left - 1;
    }
    return Some(members);
  }

  method Decode(b: Octets) returns (r: Option<Delivery>)
    ensures r == Decoded(b)
  {
    var c := new Cursor(b);
    var fields :- DecodeFields(c);
    var (d, count) := fields;
    var members :- DecodeMembers(c, count);
    r := Some(d.(members := members));
  }
}

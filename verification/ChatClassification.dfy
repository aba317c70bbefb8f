/** Telling chat from key deliveries. The receiver first tries to parse a decrypted plaintext as a key
    delivery; a chat envelope must not parse as one. */
module ChatClassification {
  import opened Wrappers
  import opened Bytes
  import opened Bits
  import opened Varints
  import opened ProtoWire
  import opened MessageCodec
  import D = DeliveryCodec
  import GM = GroupManager
  import opened Utf16
  import Utf8

  /** The smallest plaintext, starting with the bytes 0A 10, that can parse as a delivery. */
  const LIMIT: nat := 168_820_784

  /** A delivery is at least as long as its first length announces, plus its fixed fields. */
  lemma DeliveryNeeds(b: Octets)
    requires |b| >= 4 && D.Decoded(b).Some?
    ensures |b| >= 48 + U32FromBytes(b[..4])
  {
  }

  lemma {:induction false} PutAllCons(w: Written, ws: seq<Written>)
    ensures PutAll([w] + ws) == Put(w) + PutAll(ws)
  {
    if ws == [] {
      assert [w] + ws == [] + [w];
      PresentStep([], w);
    } else {
      var front, last := ws[..|ws| - 1], ws[|ws| - 1];
      assert ws == front + [last] && [w] + ws == [w] + front + [last];
      PutAllCons(w, front);
      PresentStep([w] + front, last);
      PresentStep(front, last);
      Assoc(Put(w), PutAll(front), Put(last));
    }
  }

  /** Every envelope starts with the tag of the message id and its length. */
  lemma EnvelopeStarts(messageId: Octets, conversationId: Octets, timestamp: Int64, body: Utf16String)
    requires |messageId| == 16
    ensures var e := Envelope(messageId, conversationId, timestamp, body);
      |e| >= 18 && e[..2] == [0x0A, 0x10] && e[2..18] == messageId
  {
    var ws := EnvelopeFields(messageId, conversationId, timestamp, Payload(body));
    PutAllCons(ws[0], ws[1..]);
    assert ws == [ws[0]] + ws[1..];
    IdField(messageId);
    assert Put(ws[0]) == [0x0A, 0x10] + messageId;
  }

  lemma IdField(messageId: Octets)
    requires |messageId| == 16
    ensures Put(BytesField(1, messageId)) == [0x0A, 0x10] + messageId
  {
    assert Tag(1, 2) == 10 by {
      TagIs(1, 2, 1);
    }
    assert Varint(Pattern64(10)) == [0x0A];
    assert Varint(16) == [0x10];
  }

  /** Every text envelope below the limit is classified as chat and leaves the receiver's groups alone. */
  lemma EnvelopeIsChat(messageId: Octets, conversationId: Octets, timestamp: Int64, body: Utf16String, n: GM.Node)
    requires |messageId| == 16
    requires |Envelope(messageId, conversationId, timestamp, body)| < LIMIT
    ensures var e := Envelope(messageId, conversationId, timestamp, body);
      GM.AfterPlaintext(n, e) == (n, GM.Chat(e))
  {
    var e := Envelope(messageId, conversationId, timestamp, body);
    EnvelopeStarts(messageId, conversationId, timestamp, body);
    assert e[..4][0] == e[..2][0] && e[..4][1] == e[..2][1];
    assert U32FromBytes(e[..4]) >= 0x0A10_0000;
    if D.Decoded(e).Some? {
      DeliveryNeeds(e);
    }
  }

  // --- the limit is exact ---

  function Zeros(n: nat): Octets {
    seq(n, _ => 0)
  }

  lemma {:induction false} ZeroText(n: nat)
    ensures Utf8.Encode(Zeros(n)) == Zeros(n) && ToScalars(Zeros(n)) == Zeros(n)
  {
    if n > 0 {
      assert Zeros(n)[1..] == Zeros(n - 1) && Zeros(n) == [0] + Zeros(n - 1);
      ZeroText(n - 1);
    }
  }

  lemma {:induction false} VarintLengthIs(p: nat, n: nat)
    requires n > 0 && Pow2(7 * (n - 1)) <= p < Pow2(7 * n)
    ensures |Varint(p)| == if p == 0 then 1 else n
  {
    Pow2Values();
    if n > 1 {
      Pow2Add(7, 7 * (n - 2));
      Pow2Add(7, 7 * (n - 1));
      VarintLengthIs(p / 128, n - 1);
    }
  }

  /** After a first field of the announced length, 44 zero bytes make a delivery with an empty name and
      no members. */
  lemma ZerosComplete(b: Octets, tail: Octets)
    requires |b| >= 4 && |b| == 4 + U32FromBytes(b[..4])
    ensures D.Decoded(b + (Zeros(44) + tail)).Some?
  {
    var z := Zeros(44) + tail;
    assert (b + z)[..4] == b[..4];
    assert (b + z)[4..] == b[4..] + z;
    TakeBytesOf(b[4..], z);
    assert TakeField(b + z) == Some((b[4..], z));
    assert z[..4] == [0, 0, 0, 0];
    assert z[4..][..0] == [] && z[4..][0..] == z[4..];
    assert D.TakeName(z) == Some(([], z[4..]));
    var r := z[4..];
    assert r[..4] == [0, 0, 0, 0];
    var r2 := r[4..];
    assert r2[..32] == Zeros(32);
    var r3 := r2[32..];
    assert r3[..4] == [0, 0, 0, 0];
    assert D.TakeEpoch(r) == Some(((0, Zeros(32), 0), r3[4..]));
  }

  lemma SmallPuts()
    ensures Put(VarintField(2, TYPE_TEXT)) == [0x10, 0x01]
    ensures Put(VarintField(4, 0)) == [0x20, 0x00]
    ensures Put(BytesField(3, [])) == []
  {
    TagIs(2, 0, 2);
    TagIs(4, 0, 4);
    assert Varint(Pattern64(0x10)) == [0x10] && Varint(Pattern64(0x20)) == [0x20];
    assert Varint(Pattern64(1)) == [1] && Varint(Pattern64(0)) == [0];
  }

  lemma LongVarint(n: nat)
    requires 0x20_0000 <= n < 0x1000_0000
    ensures |Varint(n)| == 4
  {
    Pow2Values();
    Pow2Add(7, 7);
    Pow2Add(14, 7);
    Pow2Add(21, 7);
    VarintLengthIs(n, 4);
  }

  /** What precedes the bytes of a byte field. */
  function FieldHead(tag: u8, length: nat): Octets {
    [tag] + Varint(length)
  }

  lemma LongField(field: Int32, tag: u8, bytes: Octets)
    requires 0 < field < 16 && tag == 8 * field + 2 && bytes != []
    ensures Put(BytesField(field, bytes)) == FieldHead(tag, |bytes|) + bytes
  {
    TagIs(field, 2, field);
    assert Pattern64(Tag(field, 2)) == tag;
    assert Varint(tag) == [tag];
  }

  lemma NulPayload(n: nat)
    requires n > 0
    ensures Payload(Zeros(n)) == FieldHead(0x0A, n) + Zeros(n)
  {
    ZeroText(n);
    PresentStep([], BytesField(1, Zeros(n)));
    assert [] + PayloadFields(Zeros(n)) == PayloadFields(Zeros(n));
    LongField(1, 0x0A, Zeros(n));
  }

  /** The fields of a text envelope, one by one. */
  lemma EnvelopeParts(payload: Octets)
    requires payload != []
    ensures PutAll(EnvelopeFields(Zeros(16), [], 0, payload))
         == [0x0A, 0x10] + Zeros(16) + [0x10, 0x01] + [0x20, 0x00] + FieldHead(0x2A, |payload|) + payload
  {
    PutSteps(EnvelopeFields(Zeros(16), [], 0, payload));
    IdField(Zeros(16));
    SmallPuts();
    LongField(5, 0x2A, payload);
    Join([0x0A, 0x10] + Zeros(16), [0x10, 0x01], [0x20, 0x00], FieldHead(0x2A, |payload|), payload);
  }

  lemma Join(a: Octets, b: Octets, d: Octets, head: Octets, payload: Octets)
    ensures PutAll([]) + a + b + [] + d + (head + payload) == a + b + d + head + payload
  {
    assert PutAll([]) + a == a && a + b + [] == a + b;
    Assoc(a + b + d, head, payload);
  }

  /** A text of NUL characters ends its envelope in as many zero bytes. */
  lemma NulEnvelope(n: nat) returns (head: Octets)
    requires 0x20_0000 <= n < 0xFFF_FF00
    ensures Envelope(Zeros(16), [], 0, Zeros(n)) == head + Zeros(n) && |head| == 32
  {
    NulPayload(n);
    LongVarint(n);
    var payload := Payload(Zeros(n));
    LongVarint(|payload|);
    EnvelopeParts(payload);
    var front := [0x0A, 0x10] + Zeros(16) + [0x10, 0x01] + [0x20, 0x00] + FieldHead(0x2A, |payload|);
    head := front + FieldHead(0x0A, n);
    Assoc(front, FieldHead(0x0A, n), Zeros(n));
  }

  /** At the limit there is an envelope that parses as a key delivery: `EnvelopeIsChat` cannot be extended
      by a single byte. */
  lemma LimitIsExact(n: GM.Node)
    ensures exists body: Utf16String ::
      var e := Envelope(Zeros(16), [], 0, body);
      |e| == LIMIT && GM.AfterPlaintext(n, e).1.GroupKey?
  {
    var size := LIMIT - 32;
    var body: Utf16String := Zeros(size);
    var e := Envelope(Zeros(16), [], 0, body);
    var head := NulEnvelope(size);
    EnvelopeStarts(Zeros(16), [], 0, body);
    assert e[..4][0] == e[..2][0] && e[..4][1] == e[..2][1];
    assert e[..4][2] == e[2..18][0] && e[..4][3] == e[2..18][1];
    assert U32FromBytes(e[..4]) == 0x0A10_0000;
    var b := head + Zeros(size - 44);
    assert Zeros(size) == Zeros(size - 44) + Zeros(44);
    assert e == b + (Zeros(44) + []);
    assert b[..4] == e[..4];
    ZerosComplete(b, []);
  }
}

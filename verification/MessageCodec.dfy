/** The plaintext of a chat message: an envelope of fields around a text payload. */
module MessageCodec {
  import opened Wrappers
  import opened Bytes
  import opened Bits
  import opened ProtoWire
  import opened Utf16

  const TYPE_TEXT: Int64 := 1

  datatype Incoming = Incoming(messageType: Int32, text: Option<Utf16String>)

  // --- encoding ---

  function PayloadFields(body: Utf16String): seq<Written> {
    [BytesField(1, ToUtf8(body))]
  }

  function Payload(body: Utf16String): Octets {
    PutAll(PayloadFields(body))
  }

  function EnvelopeFields(messageId: Octets, conversationId: Octets, timestamp: Int64, payload: Octets): seq<Written> {
    [ BytesField(1, messageId), VarintField(2, TYPE_TEXT), BytesField(3, conversationId),
      VarintField(4, timestamp), BytesField(5, payload) ]
  }

  /** The envelope of a text; the message id and the timestamp are drawn by the sender. */
  function Envelope(messageId: Octets, conversationId: Octets, timestamp: Int64, body: Utf16String): Octets {
    PutAll(EnvelopeFields(messageId, conversationId, timestamp, Payload(body)))
  }

  /** The arrays fit their 32-bit lengths. */
  predicate Fits(messageId: Octets, conversationId: Octets, body: Utf16String) {
    && |messageId| == 16 && |conversationId| <= ARRAY_MAX
    && |ToUtf8(body)| <= ARRAY_MAX && |Payload(body)| <= ARRAY_MAX
  }

  // --- decoding ---

  /** The type and payload after a field: the last field 2 and the last field 5 win. */
  function Scan(fs: seq<Field>): (Int32, Option<Octets>) {
    if fs == [] then (0, None) else ScanOne(Scan(fs[..|fs| - 1]), fs[|fs| - 1])
  }

  function ScanOne(at: (Int32, Option<Octets>), f: Field): (Int32, Option<Octets>) {
    if f.number == 2 then (ToInt32(f.varint), at.1)
    else if f.number == 5 then (at.0, f.bytes)
    else at
  }

  /** The last field 1 that holds bytes. */
  function Body(fs: seq<Field>): Option<Utf16String> {
    if fs == [] then
      None
    else
      var f := fs[|fs| - 1];
      if f.number == 1 && f.bytes.Some? then Some(FromUtf8(f.bytes.value)) else Body(fs[..|fs| - 1])
  }

  function Interpret(at: (Int32, Option<Octets>)): Option<Incoming> {
    if at.0 == ToInt32(TYPE_TEXT) && at.1.Some? then
      WithBody(at.0, Fields(at.1.value))
    else
      Some(Incoming(at.0, None))
  }

  function WithBody(messageType: Int32, payload: Option<seq<Field>>): Option<Incoming> {
    if payload.None? then None else Some(Incoming(messageType, Body(payload.value)))
  }

  /** The message read, or none when the reader throws. */
  function Decoded(envelope: Octets): Option<Incoming> {
    var fs :- Fields(envelope);
    Interpret(Scan(fs))
  }

  // --- properties ---

  lemma ScanStep(fs: seq<Field>, f: Field)
    ensures Scan(fs + [f]) == ScanOne(Scan(fs), f)
  {
    assert (fs + [f])[..|fs|] == fs;
  }

  lemma PresentStep(ws: seq<Written>, w: Written)
    ensures Present(ws + [w]) == Present(ws) + PresentOne(w)
    ensures PutAll(ws + [w]) == PutAll(ws) + Put(w)
  {
    assert (ws + [w])[..|ws|] == ws;
  }

  /** What a written field does to the scan. */
  function ScanWritten(at: (Int32, Option<Octets>), w: Written): (Int32, Option<Octets>) {
    if w.BytesField? && w.bytes == [] then at else ScanOne(at, AsRead(w))
  }

  lemma ScanPresentStep(ws: seq<Written>, w: Written)
    ensures Scan(Present(ws + [w])) == ScanWritten(Scan(Present(ws)), w)
  {
    PresentStep(ws, w);
    if w.BytesField? && w.bytes == [] {
      assert Present(ws) + [] == Present(ws);
    } else {
      ScanStep(Present(ws), AsRead(w));
    }
  }

  lemma ScanFive(a: Written, b: Written, c: Written, d: Written, e: Written)
    ensures Scan(Present([a, b, c, d, e]))
         == ScanWritten(ScanWritten(ScanWritten(ScanWritten(ScanWritten((0, None), a), b), c), d), e)
  {
    assert [] + [a] == [a] && [a] + [b] == [a, b] && [a, b] + [c] == [a, b, c];
    assert [a, b, c] + [d] == [a, b, c, d] && [a, b, c, d] + [e] == [a, b, c, d, e];
    ScanPresentStep([], a);
    ScanPresentStep([a], b);
    ScanPresentStep([a, b], c);
    ScanPresentStep([a, b, c], d);
    ScanPresentStep([a, b, c, d], e);
  }

  /** The scan of a text envelope finds its type and its payload. */
  lemma ScanEnvelope(messageId: Octets, conversationId: Octets, timestamp: Int64, payload: Octets)
    ensures Scan(Present(EnvelopeFields(messageId, conversationId, timestamp, payload)))
         == (1, if payload == [] then None else Some(payload))
  {
    ScanFive(BytesField(1, messageId), VarintField(2, TYPE_TEXT), BytesField(3, conversationId),
             VarintField(4, timestamp), BytesField(5, payload));
  }

  lemma PayloadReads(body: Utf16String)
    requires |ToUtf8(body)| <= ARRAY_MAX
    ensures Payload(body) == [] <==> body == []
    ensures body != [] ==>
      Fields(Payload(body)).Some? && Body(Fields(Payload(body)).value) == Some(FromUtf8(ToUtf8(body)))
  {
    var w := BytesField(1, ToUtf8(body));
    FieldsRoundTrip([w]);
    PresentStep([], w);
    assert [] + [w] == [w];
    Utf8RoundTripIff(body);
    if body != [] {
      BodyOfOne(AsRead(w));
    }
  }

  lemma BodyOfOne(f: Field)
    requires f.number == 1 && f.bytes.Some?
    ensures Body([] + [f]) == Some(FromUtf8(f.bytes.value))
  {
  }

  /** Decoding an encoded text gives a text message with its body, exactly when the body has no unpaired
      surrogate (each becomes a question mark); an empty body is read as no text. */
  lemma TextRoundTrip(messageId: Octets, conversationId: Octets, timestamp: Int64, body: Utf16String)
    requires Fits(messageId, conversationId, body)
    ensures Decoded(Envelope(messageId, conversationId, timestamp, body))
         == Some(Incoming(1, if body == [] then None else Some(FromUtf8(ToUtf8(body)))))
    ensures FromUtf8(ToUtf8(body)) == body <==> WellFormed(body)
  {
    Utf8RoundTripIff(body);
    var payload := Payload(body);
    EnvelopeDecodes(messageId, conversationId, timestamp, payload);
    InterpretPayload(payload, body);
  }

  lemma InterpretPayload(payload: Octets, body: Utf16String)
    requires |ToUtf8(body)| <= ARRAY_MAX && payload == Payload(body)
    ensures Interpret((1, if payload == [] then None else Some(payload)))
         == Some(Incoming(1, if body == [] then None else Some(FromUtf8(ToUtf8(body)))))
  {
    PayloadReads(body);
    SmallNumber(1);
  }

  lemma EnvelopeDecodes(messageId: Octets, conversationId: Octets, timestamp: Int64, payload: Octets)
    requires |messageId| <= ARRAY_MAX && |conversationId| <= ARRAY_MAX && |payload| <= ARRAY_MAX
    ensures Decoded(PutAll(EnvelopeFields(messageId, conversationId, timestamp, payload)))
         == Interpret((1, if payload == [] then None else Some(payload)))
  {
    var ws := EnvelopeFields(messageId, conversationId, timestamp, payload);
    FieldsRoundTrip(ws);
    ScanEnvelope(messageId, conversationId, timestamp, payload);
    DecodedFrom(PutAll(ws), Present(ws));
  }

  lemma DecodedFrom(envelope: Octets, fs: seq<Field>)
    requires Fields(envelope) == Some(fs)
    ensures Decoded(envelope) == Interpret(Scan(fs))
  {
  }

  lemma {:induction false} PresentAppend(a: seq<Written>, b: seq<Written>)
    ensures Present(a + b) == Present(a) + Present(b)
  {
    if b == [] {
      assert a + b == a;
    } else {
      var front, w := b[..|b| - 1], b[|b| - 1];
      assert a + b == a + front + [w] && b == front + [w];
      PresentAppend(a, front);
      PresentStep(a + front, w);
    }
  }

  lemma {:induction false} ScanSkips(a: seq<Field>, skipped: seq<Field>, b: seq<Field>)
    requires forall f <- skipped :: f.number != 2 && f.number != 5
    ensures Scan(a + skipped + b) == Scan(a + b)
    decreases |skipped| + |b|
  {
    if b != [] {
      var front, f := b[..|b| - 1], b[|b| - 1];
      ScanSkips(a, skipped, front);
      assert a + skipped + b == a + skipped + front + [f] && a + b == a + front + [f];
      ScanStep(a + skipped + front, f);
      ScanStep(a + front, f);
    } else if skipped != [] {
      var front, f := skipped[..|skipped| - 1], skipped[|skipped| - 1];
      assert f in skipped;
      ScanSkips(a, front, []);
      assert a + skipped + [] == a + front + [] + [f];
      ScanStep(a + front + [], f);
    } else {
      assert a + skipped + b == a + b;
    }
  }

  /** Fields with other numbers, wherever they stand, do not change what is decoded. */
  lemma UnknownFieldsIgnored(a: seq<Written>, unknown: seq<Written>, b: seq<Written>)
    requires forall w <- a + unknown + b :: Writable(w)
    requires forall w <- unknown :: w.field != 2 && w.field != 5
    ensures Decoded(PutAll(a + unknown + b)) == Decoded(PutAll(a + b))
  {
    forall w <- a + b
      ensures Writable(w)
    {
      assert w in a + unknown + b;
    }
    FieldsRoundTrip(a + unknown + b);
    FieldsRoundTrip(a + b);
    PresentAppend(a + unknown, b);
    PresentAppend(a, unknown);
    PresentAppend(a, b);
    PresentNumbers(unknown);
    ScanSkips(Present(a), Present(unknown), Present(b));
  }

  lemma {:induction false} PresentNumbers(ws: seq<Written>)
    requires forall w <- ws :: w.field != 2 && w.field != 5
    ensures forall f <- Present(ws) :: f.number != 2 && f.number != 5
  {
    if ws != [] {
      PresentNumbers(ws[..|ws| - 1]);
      assert ws[|ws| - 1] in ws;
    }
  }

  // --- what an envelope holds ---

  /** Any reader of an encoded text finds the message id under 1, the type under 2, the conversation id under 3, the
      timestamp under 4 and the payload under 5, in this order; an empty conversation id or body is absent. */
  lemma EnvelopeSays(messageId: Octets, conversationId: Octets, timestamp: Int64, body: Utf16String)
    requires Fits(messageId, conversationId, body)
    ensures Fields(Envelope(messageId, conversationId, timestamp, body)) == Some(
      [Field(1, 2, 0, Some(messageId)), Field(2, 0, 1, None)]
      + (if conversationId == [] then [] else [Field(3, 2, 0, Some(conversationId))])
      + [Field(4, 0, timestamp, None)]
      + (if body == [] then [] else [Field(5, 2, 0, Some(Payload(body)))]))
  {
    PayloadReads(body);
    EnvelopeHolds(messageId, conversationId, timestamp, Payload(body));
  }

  /** The payload holds the UTF-8 bytes of the body under 1. */
  lemma PayloadSays(body: Utf16String)
    requires |ToUtf8(body)| <= ARRAY_MAX
    ensures Fields(Payload(body)) == Some(if body == [] then [] else [Field(1, 2, 0, Some(ToUtf8(body)))])
  {
    var ws := PayloadFields(body);
    FieldsRoundTrip(ws);
    PayloadPresent(body, ws);
  }

  lemma PayloadPresent(body: Utf16String, ws: seq<Written>)
    requires ws == PayloadFields(body)
    ensures Present(ws) == if body == [] then [] else [Field(1, 2, 0, Some(ToUtf8(body)))]
  {
    PresentStep([], BytesField(1, ToUtf8(body)));
    assert [] + ws == ws;
    Utf8RoundTripIff(body);
  }

  lemma EnvelopeHolds(messageId: Octets, conversationId: Octets, timestamp: Int64, payload: Octets)
    requires |messageId| == 16 && |conversationId| <= ARRAY_MAX && |payload| <= ARRAY_MAX
    ensures Fields(PutAll(EnvelopeFields(messageId, conversationId, timestamp, payload))) == Some(
      [Field(1, 2, 0, Some(messageId)), Field(2, 0, 1, None)]
      + (if conversationId == [] then [] else [Field(3, 2, 0, Some(conversationId))])
      + [Field(4, 0, timestamp, None)]
      + (if payload == [] then [] else [Field(5, 2, 0, Some(payload))]))
  {
    var ws := EnvelopeFields(messageId, conversationId, timestamp, payload);
    FieldsRoundTrip(ws);
    EnvelopePresent(messageId, conversationId, timestamp, payload, ws);
  }

  lemma EnvelopePresent(messageId: Octets, conversationId: Octets, timestamp: Int64, payload: Octets, ws: seq<Written>)
    requires |messageId| == 16 && ws == EnvelopeFields(messageId, conversationId, timestamp, payload)
    ensures Present(ws) ==
      [Field(1, 2, 0, Some(messageId)), Field(2, 0, 1, None)]
      + (if conversationId == [] then [] else [Field(3, 2, 0, Some(conversationId))])
      + [Field(4, 0, timestamp, None)]
      + (if payload == [] then [] else [Field(5, 2, 0, Some(payload))])
  {
    PresentFive(BytesField(1, messageId), VarintField(2, TYPE_TEXT), BytesField(3, conversationId),
                VarintField(4, timestamp), BytesField(5, payload));
  }

  lemma PresentFive(a: Written, b: Written, c: Written, d: Written, e: Written)
    ensures Present([a, b, c, d, e]) == PresentOne(a) + PresentOne(b) + PresentOne(c) + PresentOne(d) + PresentOne(e)
  {
    assert [] + [a] == [a] && [a] + [b] == [a, b] && [a, b] + [c] == [a, b, c];
    assert [a, b, c] + [d] == [a, b, c, d] && [a, b, c, d] + [e] == [a, b, c, d, e];
    PresentStep([], a);
    PresentStep([a], b);
    PresentStep([a, b], c);
    PresentStep([a, b, c], d);
    PresentStep([a, b, c, d], e);
    assert Present([]) + PresentOne(a) == PresentOne(a);
  }

  /** The last field with number `n` stands at `i`. */
  ghost predicate LastAt(fs: seq<Field>, n: Int32, i: nat) {
    i < |fs| && fs[i].number == n && forall j | i < j < |fs| :: fs[j].number != n
  }

  lemma {:induction false} TypeIsLast(fs: seq<Field>, i: nat)
    requires LastAt(fs, 2, i)
    ensures Scan(fs).0 == ToInt32(fs[i].varint)
  {
    if i + 1 < |fs| {
      assert LastAt(fs[..|fs| - 1], 2, i);
      TypeIsLast(fs[..|fs| - 1], i);
    }
  }

  lemma {:induction false} PayloadIsLast(fs: seq<Field>, i: nat)
    requires LastAt(fs, 5, i)
    ensures Scan(fs).1 == fs[i].bytes
  {
    if i + 1 < |fs| {
      assert LastAt(fs[..|fs| - 1], 5, i);
      PayloadIsLast(fs[..|fs| - 1], i);
    }
  }

  /** The last field 1 that holds bytes stands at `i`. */
  ghost predicate LastBodyAt(fs: seq<Field>, i: nat) {
    && i < |fs| && fs[i].number == 1 && fs[i].bytes.Some?
    && (forall j | i < j < |fs| :: !(fs[j].number == 1 && fs[j].bytes.Some?))
  }

  lemma {:induction false} BodyIsLast(fs: seq<Field>, i: nat)
    requires LastBodyAt(fs, i)
    ensures Body(fs) == Some(FromUtf8(fs[i].bytes.value))
  {
    if i + 1 < |fs| {
      assert LastBodyAt(fs[..|fs| - 1], i);
      BodyIsLast(fs[..|fs| - 1], i);
    }
  }

  lemma {:induction false} NoType(fs: seq<Field>)
    requires forall f <- fs :: f.number != 2
    ensures Scan(fs).0 == 0
  {
    if fs != [] {
      assert fs[|fs| - 1] in fs;
      NoType(fs[..|fs| - 1]);
    }
  }

  /** A message without a type, or of another type than text, has no text, whatever its payload holds. */
  lemma OnlyTextHasText(envelope: Octets, fs: seq<Field>, t: Option<nat>)
    requires Fields(envelope) == Some(fs)
    requires match t
      case Some(i) => LastAt(fs, 2, i) && ToInt32(fs[i].varint) != 1
      case None => forall f <- fs :: f.number != 2
    ensures Decoded(envelope) == Some(Incoming(if t.Some? then ToInt32(fs[t.value].varint) else 0, None))
  {
    SmallNumber(1);
    match t
    case Some(i) => TypeIsLast(fs, i);
    case None => NoType(fs);
  }

  /** Of several types, payloads and bodies the last one counts; a text fails to decode exactly when its payload
      cannot be read. */
  lemma LastOneCounts(envelope: Octets, fs: seq<Field>, t: nat, u: nat, i: nat)
    requires Fields(envelope) == Some(fs) && LastAt(fs, 2, t) && LastAt(fs, 5, u)
    requires ToInt32(fs[t].varint) == 1 && fs[u].bytes.Some?
    ensures
      var payload := Fields(fs[u].bytes.value);
      && (Decoded(envelope).None? <==> payload.None?)
      && (payload.Some? ==> Decoded(envelope).value.messageType == 1)
      && (payload.Some? && LastBodyAt(payload.value, i) ==>
            Decoded(envelope).value.text == Some(FromUtf8(payload.value[i].bytes.value)))
  {
    TypeIsLast(fs, t);
    PayloadIsLast(fs, u);
    SmallNumber(1);
    var payload := Fields(fs[u].bytes.value);
    if payload.Some? && LastBodyAt(payload.value, i) {
      BodyIsLast(payload.value, i);
    }
  }

  // --- the procedures ---

  method EncodeText(messageId: Octets, conversationId: Octets, timestamp: Int64, body: Utf16String) returns (envelope: Octets)
    requires Fits(messageId, conversationId, body)
    ensures envelope == Envelope(messageId, conversationId, timestamp, body)
  {
    var p := new Writer();
    p.StringField(1, body);
    PresentStep([], BytesField(1, ToUtf8(body)));
    var payload := p.out;
    assert [] + PayloadFields(body) == PayloadFields(body);
    ghost var ws := EnvelopeFields(messageId, conversationId, timestamp, payload);
    PutSteps(ws);
    var w := new Writer();
    w.BytesField(1, messageId);
    w.VarintField(2, TYPE_TEXT);
    w.BytesField(3, conversationId);
    w.VarintField(4, timestamp);
    w.BytesField(5, payload);
    envelope := w.out;
  }

  lemma PutSteps(ws: seq<Written>)
    requires |ws| == 5
    ensures PutAll(ws) == PutAll([]) + Put(ws[0]) + Put(ws[1]) + Put(ws[2]) + Put(ws[3]) + Put(ws[4])
  {
    PutNext(ws, 0);
    PutNext(ws, 1);
    PutNext(ws, 2);
    PutNext(ws, 3);
    PutNext(ws, 4);
    assert ws[..5] == ws && ws[..0] == [];
  }

  lemma PutNext(ws: seq<Written>, i: nat)
    requires i < |ws|
    ensures PutAll(ws[..i + 1]) == PutAll(ws[..i]) + Put(ws[i])
  {
    assert ws[..i + 1] == ws[..i] + [ws[i]];
    PresentStep(ws[..i], ws[i]);
  }

  method ReadAll(b: Octets) returns (r: Option<seq<Field>>)
    ensures r == Fields(b)
  {
    var reader := new Reader(b);
    assert reader.Rest() == b;
    r := reader.ReadFields();
  }

  method ScanFields(fs: seq<Field>) returns (messageType: Int32, payload: Option<Octets>)
    ensures (messageType, payload) == Scan(fs)
  {
    messageType := 0;
    payload := None;
    for i := 0 to |fs|
      invariant Scan(fs[..i]) == (messageType, payload)
    {
      assert fs[..i + 1] == fs[..i] + [fs[i]];
      ScanStep(fs[..i], fs[i]);
      if fs[i].number == 2 {
        messageType := ToInt32(fs[i].varint);
      } else if fs[i].number == 5 {
        payload := fs[i].bytes;
      }
    }
    assert fs[..|fs|] == fs;
  }

  method ScanBody(fs: seq<Field>) returns (body: Option<Utf16String>)
    ensures body == Body(fs)
  {
    body := None;
    for i := 0 to |fs|
      invariant Body(fs[..i]) == body
    {
      assert fs[..i + 1][..i] == fs[..i];
      if fs[i].number == 1 && fs[i].bytes.Some? {
        body := Some(FromUtf8(fs[i].bytes.value));
      }
    }
    assert fs[..|fs|] == fs;
  }

  method Decode(envelope: Octets) returns (r: Option<Incoming>)
    ensures r == Decoded(envelope)
  {
    var fs :- ReadAll(envelope);
    var messageType, payload := ScanFields(fs);
    if messageType == ToInt32(TYPE_TEXT) && payload.Some? {
      var ps :- ReadAll(payload.value);
      var body := ScanBody(ps);
      return Some(Incoming(messageType, body));
    }
    return Some(Incoming(messageType, None));
  }
}

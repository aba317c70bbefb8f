/** The transfer manifest and the encrypted chunk, as values and as bytes. */
module MediaCodec {
  import opened Wrappers
  import opened Bytes
  import opened ByteCursor
  import Utf8

  datatype Error = ChunkAuth | BadIndex | Incomplete | HashMismatch | Malformed

  datatype Manifest = Manifest(
    transferId: Octets, key: Octets, totalSize: nat, chunkCount: u32, contentHash: Octets,
    mime: Utf8.Text, filename: Utf8.Text)

  datatype Chunk = Chunk(transferId: Octets, index: u32, nonce: Octets, ciphertext: Octets)

  /** The fixed-width fields have their widths, and the strings fit their length prefixes. */
  predicate Formed(m: Manifest) {
    && |m.transferId| == 16 && |m.key| == 32 && m.totalSize <= U64_MAX && |m.contentHash| == 32
    && |Utf8.Encode(m.mime)| <= U32_MAX && |Utf8.Encode(m.filename)| <= U32_MAX
  }

  predicate FormedChunk(c: Chunk) {
    |c.transferId| == 16 && |c.nonce| == 12
  }

  // --- the manifest ---

  function PutStrings(m: Manifest): Octets {
    PutField(Utf8.Encode(m.mime)) + PutField(Utf8.Encode(m.filename))
  }

  function EncodedManifest(m: Manifest): Octets
    requires m.totalSize <= U64_MAX
  {
    m.transferId + (m.key + (U64ToBytes(m.totalSize) + (U32ToBytes(m.chunkCount) + (m.contentHash + PutStrings(m)))))
  }

  function TakeString(b: Octets): Option<(Utf8.Text, Octets)> {
    var (f, b) :- TakeField(b);
    Some((Utf8.DecodeLossy(f), b))
  }

  function TakeStrings(b: Octets): Option<(Utf8.Text, Utf8.Text)> {
    var (mime, b) :- TakeString(b);
    var (filename, b) :- TakeString(b);
    Some((mime, filename))
  }

  function TakeManifest(b: Octets): Option<Manifest> {
    var (transferId, b) :- TakeBytes(b, 16);
    var (key, b) :- TakeBytes(b, 32);
    var (size, b) :- TakeBytes(b, 8);
    var (count, b) :- TakeU32(b);
    var (contentHash, b) :- TakeBytes(b, 32);
    var (mime, filename) :- TakeStrings(b);
    Some(Manifest(transferId, key, U64FromBytes(size), count, contentHash, mime, filename))
  }

  function OrMalformed<T>(o: Option<T>): Result<T, Error> {
    if o.Some? then Ok(o.value) else Err(Malformed)
  }

  function DecodedManifest(b: Octets): Result<Manifest, Error> {
    OrMalformed(TakeManifest(b))
  }

  lemma TakeStringOf(t: Utf8.Text, rest: Octets)
    requires |Utf8.Encode(t)| <= U32_MAX
    ensures TakeString(PutField(Utf8.Encode(t)) + rest) == Some((t, rest))
  {
    TakeFieldOf(Utf8.Encode(t), rest);
    Utf8.RoundTrip(t);
  }

  lemma TakeStringsOf(m: Manifest, junk: Octets)
    requires Formed(m)
    ensures TakeStrings(PutStrings(m) + junk) == Some((m.mime, m.filename))
  {
    var last := PutField(Utf8.Encode(m.filename));
    Assoc(PutField(Utf8.Encode(m.mime)), last, junk);
    TakeStringOf(m.mime, last + junk);
    TakeStringOf(m.filename, junk);
  }

  /** A manifest reads back as itself, whatever bytes follow. */
  lemma ManifestRoundTrip(m: Manifest, junk: Octets)
    requires Formed(m)
    ensures DecodedManifest(EncodedManifest(m) + junk) == Ok(m)
  {
    var size, count := U64ToBytes(m.totalSize), U32ToBytes(m.chunkCount);
    var strings := PutStrings(m) + junk;
    var r5 := m.contentHash + strings;
    var r4 := count + r5;
    var r3 := size + r4;
    var r2 := m.key + r3;
    assert EncodedManifest(m) + junk == m.transferId + r2 by {
      Assoc(m.contentHash, PutStrings(m), junk);
      Assoc(count, m.contentHash + PutStrings(m), junk);
      Assoc(size, count + (m.contentHash + PutStrings(m)), junk);
      Assoc(m.key, size + (count + (m.contentHash + PutStrings(m))), junk);
      Assoc(m.transferId, m.key + (size + (count + (m.contentHash + PutStrings(m)))), junk);
    }
    TakeBytesOf(m.transferId, r2);
    TakeBytesOf(m.key, r3);
    TakeBytesOf(size, r4);
    U64RoundTrip(m.totalSize);
    TakeU32Of(m.chunkCount, r5);
    TakeBytesOf(m.contentHash, strings);
    TakeStringsOf(m, junk);
  }

  // --- the chunk ---

  function EncodedChunk(c: Chunk): Octets {
    c.transferId + U32ToBytes(c.index) + c.nonce + c.ciphertext
  }

  function DecodedChunk(b: Octets): Result<Chunk, Error> {
    if |b| < 32 then
      Err(Malformed)
    else
      Ok(Chunk(b[..16], U32FromBytes(b[16..20]), b[20..32], b[32..]))
  }

  lemma ChunkRoundTrip(c: Chunk)
    requires FormedChunk(c)
    ensures DecodedChunk(EncodedChunk(c)) == Ok(c)
  {
    var b := EncodedChunk(c);
    U32RoundTrip(c.index);
    assert b[16..20] == U32ToBytes(c.index);
    assert b[..16] == c.transferId && b[20..32] == c.nonce && b[32..] == c.ciphertext;
  }

  lemma U32BytesRoundTrip(b: Octets)
    requires |b| == 4
    ensures U32ToBytes(U32FromBytes(b)) == b
  {
    var n := U32FromBytes(b);
    assert n / 0x100 == b[0] as int * 0x1_0000 + b[1] as int * 0x100 + b[2] as int;
    assert n / 0x1_0000 == b[0] as int * 0x100 + b[1] as int;
  }

  /** Every byte string of 32 bytes or more is the encoding of exactly one chunk. */
  lemma ChunkDecodesEncoded(b: Octets)
    ensures DecodedChunk(b).Ok? <==> |b| >= 32
    ensures DecodedChunk(b).Ok? ==>
      FormedChunk(DecodedChunk(b).value) && EncodedChunk(DecodedChunk(b).value) == b
  {
    if |b| >= 32 {
      U32BytesRoundTrip(b[16..20]);
      assert b[..16] + b[16..20] + b[20..32] + b[32..] == b;
    }
  }

  // --- the procedures ---

  method EncodeManifest(m: Manifest) returns (v: Octets)
    requires m.totalSize <= U64_MAX
    ensures v == EncodedManifest(m)
  {
    v := m.transferId;
    v := v + m.key;
    v := v + U64ToBytes(m.totalSize);
    v := v + U32ToBytes(m.chunkCount);
    v := v + m.contentHash;
    v := v + PutField(Utf8.Encode(m.mime));
    v := v + PutField(Utf8.Encode(m.filename));
    assert v == EncodedManifest(m) by {
      var size, count := U64ToBytes(m.totalSize), U32ToBytes(m.chunkCount);
      var a := m.transferId + m.key + size + count;
      Assoc(a + m.contentHash, PutField(Utf8.Encode(m.mime)), PutField(Utf8.Encode(m.filename)));
      Assoc(a, m.contentHash, PutStrings(m));
      var tail := m.contentHash + PutStrings(m);
      Assoc(m.transferId + m.key + size, count, tail);
      Assoc(m.transferId + m.key, size, count + tail);
      Assoc(m.transferId, m.key, size + (count + tail));
    }
  }

  method DecodeString(c: Cursor) returns (r: Option<Utf8.Text>)
    requires c.Valid()
    modifies c
    ensures c.Valid()
    ensures r.Some? <==> TakeString(old(c.Rest())).Some?
    ensures r.Some? ==> TakeString(old(c.Rest())) == Some((r.value, c.Rest()))
  {
    var f :- c.Field();
    r := Some(Utf8.DecodeLossy(f));
  }

  method ReadManifest(b: Octets) returns (r: Option<Manifest>)
    ensures r == TakeManifest(b)
  {
    var c := new Cursor(b);
    var transferId :- c.Take(16);
    var key :- c.Take(32);
    var size :- c.Take(8);
    var count :- c.Uint32();
    var contentHash :- c.Take(32);
    ghost var rest := c.Rest();
    assert TakeManifest(b).Some? <==> TakeStrings(rest).Some?;
    var mime :- DecodeString(c);
    var filename :- DecodeString(c);
    assert TakeStrings(rest) == Some((mime, filename));
    r := Some(Manifest(transferId, key, U64FromBytes(size), count, contentHash, mime, filename));
  }

  method DecodeManifest(b: Octets) returns (r: Result<Manifest, Error>)
    ensures r == DecodedManifest(b)
  {
    var m := ReadManifest(b);
    r := OrMalformed(m);
  }
}

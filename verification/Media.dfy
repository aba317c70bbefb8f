/** Chunked media transfer: splitting into independently sealed chunks, and reassembly. */
module Media {
  import opened Wrappers
  import opened Bytes
  import opened Aead
  import opened MediaCodec
  import Utf8

  const CHUNK_SIZE: nat := 64 * 1024

  /** The AEAD and the content hash (SHA-256). */
  datatype Primitives = Primitives(aead: Aead, hash: Octets -> Octets)

  /** What the sender draws at random: the transfer id, the transfer key and one nonce per chunk. */
  datatype Draws = Draws(transferId: Octets, key: Octets, nonces: nat -> Octets)

  /** The associated data binds the transfer and the position. */
  function Aad(transferId: Octets, index: u32): Octets {
    transferId + U32ToBytes(index)
  }

  // --- splitting ---

  function Min(a: nat, b: nat): nat {
    if a < b then a else b
  }

  /** How many chunks the data makes. */
  function Count(data: Octets): nat {
    (|data| + CHUNK_SIZE - 1) / CHUNK_SIZE
  }

  function Piece(data: Octets, i: nat): (piece: Octets)
    requires i < Count(data)
    ensures |piece| <= CHUNK_SIZE
  {
    data[i * CHUNK_SIZE..Min((i + 1) * CHUNK_SIZE, |data|)]
  }

  /** Chunk `i` as sent; its index is truncated to 32 bits. */
  function Original(p: Primitives, d: Draws, data: Octets, i: nat): Chunk
    requires i < Count(data)
  {
    var index: u32 := i % 0x1_0000_0000;
    Chunk(d.transferId, index, d.nonces(i), p.aead.seal(d.key, d.nonces(i), Piece(data, i), Aad(d.transferId, index)))
  }

  function Originals(p: Primitives, d: Draws, data: Octets): seq<Chunk> {
    seq(Count(data), i requires 0 <= i < Count(data) => Original(p, d, data, i))
  }

  function ManifestOf(p: Primitives, d: Draws, data: Octets, mime: Utf8.Text, filename: Utf8.Text): Manifest {
    Manifest(d.transferId, d.key, |data|, Count(data) % 0x1_0000_0000, p.hash(data), mime, filename)
  }

  method Split(p: Primitives, d: Draws, data: Octets, mime: Utf8.Text, filename: Utf8.Text)
    returns (manifest: Manifest, chunks: seq<Chunk>)
    ensures manifest == ManifestOf(p, d, data, mime, filename)
    ensures chunks == Originals(p, d, data)
    ensures manifest.mime == mime && manifest.filename == filename
    ensures manifest.totalSize == |data| && manifest.chunkCount == |chunks| % 0x1_0000_0000
    ensures manifest.transferId == d.transferId && manifest.key == d.key && manifest.contentHash == p.hash(data)
    ensures Formed(manifest) ==> DecodedManifest(EncodedManifest(manifest)) == Ok(manifest)
  {
    chunks := [];
    var at, i := 0, 0;
    while at < |data|
      invariant i <= Count(data) && at == Min(i * CHUNK_SIZE, |data|)
      invariant |chunks| == i
      invariant forall k :: 0 <= k < i ==> chunks[k] == Original(p, d, data, k)
      decreases |data| - at
    {
      var end := Min(at + CHUNK_SIZE, |data|);
      var part := data[at..end];
      var index: u32 := i % 0x1_0000_0000;
      var ciphertext := p.aead.seal(d.key, d.nonces(i), part, Aad(d.transferId, index));
      chunks := chunks + [Chunk(d.transferId, index, d.nonces(i), ciphertext)];
      at, i := end, i + 1;
    }
    manifest := Manifest(d.transferId, d.key, |data|, |chunks| % 0x1_0000_0000, p.hash(data), mime, filename);
    ManifestReads(manifest);
  }

  lemma ManifestReads(m: Manifest)
    ensures Formed(m) ==> DecodedManifest(EncodedManifest(m)) == Ok(m)
  {
    if Formed(m) {
      ManifestRoundTrip(m, []);
      assert EncodedManifest(m) + [] == EncodedManifest(m);
    }
  }

  // --- reassembly ---

  type Received = map<u32, Octets>

  datatype Verdict = Foreign | Rejected(error: Error) | Stored(plaintext: Octets)

  /** What becomes of a chunk under a manifest. */
  function Judge(p: Primitives, m: Manifest, c: Chunk): Verdict {
    if c.transferId != m.transferId then
      Foreign
    else if c.index >= m.chunkCount then
      Rejected(BadIndex)
    else
      match p.aead.open(m.key, c.nonce, c.ciphertext, Aad(c.transferId, c.index))
      case None => Rejected(ChunkAuth)
      case Some(plaintext) => Stored(plaintext)
  }

  function AfterAdd(p: Primitives, m: Manifest, r: Received, c: Chunk): Received {
    match Judge(p, m, c)
    case Stored(plaintext) => r[c.index := plaintext]
    case _ => r
  }

  /** What a reassembler holds after a sequence of `add_chunk` calls. */
  function AfterAdds(p: Primitives, m: Manifest, adds: seq<Chunk>): Received {
    if adds == [] then
      map[]
    else
      AfterAdd(p, m, AfterAdds(p, m, adds[..|adds| - 1]), adds[|adds| - 1])
  }

  function MissingBelow(r: Received, n: nat): seq<u32>
    requires n <= U32_MAX + 1
  {
    if n == 0 then [] else MissingBelow(r, n - 1) + if n - 1 in r then [] else [n - 1]
  }

  /** The chunks 0 to n - 1 in order. */
  function Join(r: Received, n: nat): Option<Octets>
    requires n <= U32_MAX + 1
  {
    if n == 0 then
      Some([])
    else
      var front :- Join(r, n - 1);
      if n - 1 in r then Some(front + r[n - 1]) else None
  }

  function Finished(p: Primitives, m: Manifest, r: Received): Result<Octets, Error> {
    if |r| % 0x1_0000_0000 != m.chunkCount then
      Err(Incomplete)
    else
      match Join(r, m.chunkCount)
      case None => Err(Incomplete)
      case Some(out) => if p.hash(out) != m.contentHash then Err(HashMismatch) else Ok(out)
  }

  class Reassembler {
    const p: Primitives
    const manifest: Manifest
    var chunks: Received

    constructor (p: Primitives, manifest: Manifest)
      ensures this.p == p && this.manifest == manifest
      ensures chunks == AfterAdds(p, manifest, [])
    {
      this.p := p;
      this.manifest := manifest;
      chunks := map[];
    }

    method AddChunk(c: Chunk) returns (r: Result<Unit, Error>)
      modifies this
      ensures chunks == AfterAdd(p, manifest, old(chunks), c)
      ensures r == if Judge(p, manifest, c).Rejected? then Err(Judge(p, manifest, c).error) else Ok(Unit)
    {
      if c.transferId != manifest.transferId {
        return Ok(Unit);
      }
      if c.index >= manifest.chunkCount {
        return Err(BadIndex);
      }
      var plaintext := p.aead.open(manifest.key, c.nonce, c.ciphertext, Aad(c.transferId, c.index));
      if plaintext.None? {
        return Err(ChunkAuth);
      }
      chunks := chunks[c.index := plaintext.value];
      return Ok(Unit);
    }

    method Missing() returns (missing: seq<u32>)
      ensures missing == MissingBelow(chunks, manifest.chunkCount)
    {
      missing := [];
      for i := 0 to manifest.chunkCount
        invariant missing == MissingBelow(chunks, i)
      {
        if i !in chunks {
          missing := missing + [i];
        }
      }
    }

    predicate IsComplete()
      reads this
    {
      |chunks| % 0x1_0000_0000 == manifest.chunkCount
    }

    method Finish() returns (r: Result<Octets, Error>)
      ensures r == Finished(p, manifest, chunks)
    {
      if !IsComplete() {
        return Err(Incomplete);
      }
      var out: Octets := [];
      for i := 0 to manifest.chunkCount
        invariant Join(chunks, i) == Some(out)
      {
        if i !in chunks {
          JoinStops(chunks, i + 1, manifest.chunkCount);
          return Err(Incomplete);
        }
        out := out + chunks[i];
      }
      if p.hash(out) != manifest.contentHash {
        return Err(HashMismatch);
      }
      return Ok(out);
    }
  }

  lemma {:induction false} JoinStops(r: Received, i: nat, n: nat)
    requires i <= n <= U32_MAX + 1 && Join(r, i) == None
    ensures Join(r, n) == None
  {
    if i < n {
      JoinStops(r, i, n - 1);
    }
  }
}

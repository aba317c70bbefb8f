/** Whatever arrives, in whatever order, reassembly yields the data that was split or an error. */
module MediaTheorems {
  import opened Wrappers
  import opened Bytes
  import opened MediaCodec
  import opened Media
  import Utf8

  // --- completeness bookkeeping ---

  predicate InRange(m: Manifest, r: Received) {
    forall i <- r :: i < m.chunkCount
  }

  lemma {:induction false} AddsInRange(p: Primitives, m: Manifest, adds: seq<Chunk>)
    ensures InRange(m, AfterAdds(p, m, adds))
  {
    if adds != [] {
      AddsInRange(p, m, adds[..|adds| - 1]);
    }
  }

  function KeysBelow(r: Received, n: nat): set<u32> {
    set i <- r | i < n
  }

  lemma {:induction false} MissingCounts(r: Received, n: nat)
    requires n <= U32_MAX + 1
    ensures |MissingBelow(r, n)| + |KeysBelow(r, n)| == n
    ensures forall i: u32 :: i in MissingBelow(r, n) <==> i < n && i !in r
  {
    if n == 0 {
      assert KeysBelow(r, 0) == {};
    } else {
      MissingCounts(r, n - 1);
      if n - 1 in r {
        assert KeysBelow(r, n) == KeysBelow(r, n - 1) + {n - 1};
      } else {
        assert KeysBelow(r, n) == KeysBelow(r, n - 1);
      }
    }
  }

  lemma {:induction false} JoinDefined(r: Received, n: nat)
    requires n <= U32_MAX + 1
    ensures Join(r, n).Some? <==> forall i: u32 :: i < n ==> i in r
  {
    if n > 0 {
      JoinDefined(r, n - 1);
    }
  }

  lemma Accounts(m: Manifest, r: Received)
    requires InRange(m, r)
    ensures |MissingBelow(r, m.chunkCount)| + |r| == m.chunkCount
    ensures |r| % 0x1_0000_0000 == |r|
    ensures MissingBelow(r, m.chunkCount) == [] <==> Join(r, m.chunkCount).Some?
  {
    var missing := MissingBelow(r, m.chunkCount);
    MissingCounts(r, m.chunkCount);
    assert KeysBelow(r, m.chunkCount) == r.Keys;
    JoinDefined(r, m.chunkCount);
    if missing != [] {
      assert missing[0] in missing;
    }
  }

  /** In every reachable reassembler the counts add up, so the cardinality test for completeness is
      exact, and the inner failure branch of `finish` cannot be reached. */
  lemma Bookkeeping(p: Primitives, m: Manifest, adds: seq<Chunk>, r: Received)
    requires r == AfterAdds(p, m, adds)
    ensures InRange(m, r)
    ensures |MissingBelow(r, m.chunkCount)| + |r| == m.chunkCount
    ensures |r| % 0x1_0000_0000 == m.chunkCount <==> MissingBelow(r, m.chunkCount) == []
    ensures |r| % 0x1_0000_0000 == m.chunkCount <==> Join(r, m.chunkCount).Some?
  {
    AddsInRange(p, m, adds);
    Accounts(m, r);
  }

  // --- delivery ---

  /** A chunk that is one of the originals, or that the reassembler does not store: foreign, out of
      range, or failing to open. */
  predicate Admissible(p: Primitives, m: Manifest, originals: seq<Chunk>, c: Chunk) {
    c in originals || !Judge(p, m, c).Stored?
  }

  ghost predicate AllAdmissible(p: Primitives, m: Manifest, originals: seq<Chunk>, adds: seq<Chunk>) {
    forall c <- adds :: Admissible(p, m, originals, c)
  }

  /** An original in range opens to its piece. */
  lemma OriginalStored(p: Primitives, d: Draws, data: Octets, m: Manifest, i: nat)
    requires p.aead.Correct() && i < Count(data)
    requires m.transferId == d.transferId && m.key == d.key
    ensures var c := Original(p, d, data, i);
      Judge(p, m, c) == if c.index >= m.chunkCount then Rejected(BadIndex) else Stored(Piece(data, i))
  {
  }

  /** The chunks sent, one for each index, each opening to its piece. */
  ghost predicate Sent(p: Primitives, m: Manifest, originals: seq<Chunk>, pieces: seq<Octets>) {
    && |originals| == |pieces| == m.chunkCount
    && (forall i :: 0 <= i < |originals| ==>
          originals[i].index == i && Judge(p, m, originals[i]) == Stored(pieces[i]))
  }

  /** Received indices are those of the originals added, each with its own piece. */
  ghost predicate Holds(originals: seq<Chunk>, pieces: seq<Octets>, adds: seq<Chunk>, r: Received)
    requires |originals| == |pieces|
  {
    && (forall i: u32 :: i in r <==> i < |originals| && originals[i] in adds)
    && (forall i <- r :: i < |pieces| && r[i] == pieces[i])
  }

  lemma {:induction false} AddsHold(p: Primitives, m: Manifest, originals: seq<Chunk>, pieces: seq<Octets>, adds: seq<Chunk>)
    requires Sent(p, m, originals, pieces)
    requires AllAdmissible(p, m, originals, adds)
    ensures Holds(originals, pieces, adds, AfterAdds(p, m, adds))
  {
    if adds != [] {
      var front, c := adds[..|adds| - 1], adds[|adds| - 1];
      assert adds == front + [c];
      assert c in adds;
      AddsHold(p, m, originals, pieces, front);
      AddHolds(p, m, originals, pieces, front, c, AfterAdds(p, m, front));
    }
  }

  lemma AddHolds(p: Primitives, m: Manifest, originals: seq<Chunk>, pieces: seq<Octets>, front: seq<Chunk>, c: Chunk, r: Received)
    requires Sent(p, m, originals, pieces)
    requires Admissible(p, m, originals, c)
    requires Holds(originals, pieces, front, r)
    ensures Holds(originals, pieces, front + [c], AfterAdd(p, m, r, c))
  {
    if c in originals {
      var i: nat :| i < |originals| && originals[i] == c;
    } else {
      assert AfterAdd(p, m, r, c) == r;
    }
  }

  function Pieces(data: Octets): seq<Octets> {
    seq(Count(data), i requires 0 <= i < Count(data) => Piece(data, i))
  }

  lemma SplitSends(p: Primitives, d: Draws, data: Octets, m: Manifest)
    requires p.aead.Correct() && Count(data) <= U32_MAX
    requires m.transferId == d.transferId && m.key == d.key && m.chunkCount == Count(data)
    ensures Sent(p, m, Originals(p, d, data), Pieces(data))
  {
    forall i: nat | i < Count(data)
      ensures Originals(p, d, data)[i].index == i
      ensures Judge(p, m, Originals(p, d, data)[i]) == Stored(Pieces(data)[i])
    {
      IndexFits(p, d, data, i);
      OriginalStored(p, d, data, m, i);
      assert Originals(p, d, data)[i] == Original(p, d, data, i);
    }
  }

  lemma IndexFits(p: Primitives, d: Draws, data: Octets, i: nat)
    requires i < Count(data) <= U32_MAX
    ensures Original(p, d, data, i).index == i
  {
  }

  lemma PieceExtends(data: Octets, i: nat)
    requires i < Count(data)
    ensures data[..Min(i * CHUNK_SIZE, |data|)] + Piece(data, i) == data[..Min((i + 1) * CHUNK_SIZE, |data|)]
  {
  }

  lemma {:induction false} JoinPieces(data: Octets, r: Received, n: nat)
    requires n <= Count(data) <= U32_MAX
    requires forall i: u32 :: i < n ==> i in r && r[i] == Pieces(data)[i]
    ensures Join(r, n) == Some(data[..Min(n * CHUNK_SIZE, |data|)])
  {
    if n > 0 {
      JoinPieces(data, r, n - 1);
      PieceExtends(data, n - 1);
    }
  }

  /** Media delivery. For every sequence of arrivals made of originals in any order and number, foreign
      chunks and forgeries that do not open, `finish` returns exactly the data that was split once every
      original has arrived, and reports the transfer incomplete until then. */
  lemma Delivery(p: Primitives, d: Draws, data: Octets, mime: Utf8.Text, filename: Utf8.Text, adds: seq<Chunk>)
    requires p.aead.Correct() && Count(data) <= U32_MAX
    requires AllAdmissible(p, ManifestOf(p, d, data, mime, filename), Originals(p, d, data), adds)
    ensures var m := ManifestOf(p, d, data, mime, filename);
      Finished(p, m, AfterAdds(p, m, adds))
      == if forall c <- Originals(p, d, data) :: c in adds then Ok(data) else Err(Incomplete)
  {
    var m := ManifestOf(p, d, data, mime, filename);
    SplitSends(p, d, data, m);
    SentIsDelivered(p, m, Originals(p, d, data), data, adds, AfterAdds(p, m, adds));
  }

  lemma SentIsDelivered(p: Primitives, m: Manifest, originals: seq<Chunk>, data: Octets, adds: seq<Chunk>, r: Received)
    requires Sent(p, m, originals, Pieces(data)) && m.contentHash == p.hash(data)
    requires AllAdmissible(p, m, originals, adds)
    requires r == AfterAdds(p, m, adds)
    ensures Finished(p, m, r) == if forall c <- originals :: c in adds then Ok(data) else Err(Incomplete)
  {
    AddsHold(p, m, originals, Pieces(data), adds);
    Bookkeeping(p, m, adds, r);
    CoveredIff(originals, Pieces(data), adds, r);
    if Join(r, m.chunkCount).Some? {
      JoinDefined(r, m.chunkCount);
      JoinPieces(data, r, m.chunkCount);
      WholeData(data);
    }
  }

  lemma WholeData(data: Octets)
    ensures data[..Min(Count(data) * CHUNK_SIZE, |data|)] == data
  {
  }

  lemma CoveredIff(originals: seq<Chunk>, pieces: seq<Octets>, adds: seq<Chunk>, r: Received)
    requires |originals| == |pieces| <= U32_MAX && Holds(originals, pieces, adds, r)
    ensures (forall c <- originals :: c in adds) <==> Join(r, |originals|).Some?
  {
    JoinDefined(r, |originals|);
    if forall c <- originals :: c in adds {
      forall i: u32 | i < |originals|
        ensures i in r
      {
        assert originals[i] in originals;
      }
    }
    if Join(r, |originals|).Some? {
      forall c <- originals
        ensures c in adds
      {
        var i: nat :| i < |originals| && originals[i] == c;
        assert i in r;
      }
    }
  }

  // --- chunks out of place ---

  /** The content of an original, at whatever position, with whatever nonce and in whatever transfer it is
      presented. */
  ghost predicate CarriesOriginal(originals: seq<Chunk>, c: Chunk) {
    exists o <- originals :: c.ciphertext == o.ciphertext
  }

  /** Position binding: an original's ciphertext is stored only as that original. */
  lemma OutOfPlaceRejected(p: Primitives, d: Draws, data: Octets, m: Manifest, c: Chunk)
    requires p.aead.Correct() && p.aead.Exact() && m.transferId == d.transferId && m.key == d.key
    requires CarriesOriginal(Originals(p, d, data), c) && Judge(p, m, c).Stored?
    ensures c in Originals(p, d, data)
  {
    var o :| o in Originals(p, d, data) && c.ciphertext == o.ciphertext;
    var i := OriginalOf(p, d, data, o);
    SamePlace(p, d, data, m, i, c);
  }

  lemma SamePlace(p: Primitives, d: Draws, data: Octets, m: Manifest, i: nat, c: Chunk)
    requires p.aead.Correct() && p.aead.Exact() && m.transferId == d.transferId && m.key == d.key
    requires i < Count(data) && c.ciphertext == Original(p, d, data, i).ciphertext && Judge(p, m, c).Stored?
    ensures c == Original(p, d, data, i)
  {
    var o := Original(p, d, data, i);
    var a, a' := Aad(c.transferId, c.index), Aad(o.transferId, o.index);
    assert p.aead.open(m.key, o.nonce, o.ciphertext, a').Some?;
    assert a == a' && c.nonce == o.nonce;
    assert U32ToBytes(c.index) == a[|d.transferId|..] && U32ToBytes(o.index) == a'[|d.transferId|..];
    U32RoundTrip(c.index);
    U32RoundTrip(o.index);
  }

  /** Media delivery with originals moved, re-labelled and spliced: as long as every chunk carries an original's
      content or does not open where it is presented, `finish` returns exactly the data once every original has
      also arrived in its place. */
  lemma DeliveryDespiteMoves(p: Primitives, d: Draws, data: Octets, mime: Utf8.Text, filename: Utf8.Text, adds: seq<Chunk>)
    requires p.aead.Correct() && p.aead.Exact() && Count(data) <= U32_MAX
    requires
      var m := ManifestOf(p, d, data, mime, filename);
      forall c <- adds :: CarriesOriginal(Originals(p, d, data), c) || !Judge(p, m, c).Stored?
    ensures var m := ManifestOf(p, d, data, mime, filename);
      Finished(p, m, AfterAdds(p, m, adds))
      == if forall c <- Originals(p, d, data) :: c in adds then Ok(data) else Err(Incomplete)
  {
    var m := ManifestOf(p, d, data, mime, filename);
    forall c <- adds
      ensures Admissible(p, m, Originals(p, d, data), c)
    {
      if CarriesOriginal(Originals(p, d, data), c) && Judge(p, m, c).Stored? {
        OutOfPlaceRejected(p, d, data, m, c);
      }
    }
    Delivery(p, d, data, mime, filename, adds);
  }

  // --- data too long for 32-bit indices ---

  /** Stored pieces never exceed a chunk. */
  ghost predicate Short(r: Received) {
    forall i <- r :: |r[i]| <= CHUNK_SIZE
  }

  lemma StoredShort(p: Primitives, d: Draws, data: Octets, m: Manifest, c: Chunk)
    requires p.aead.Correct()
    requires m.transferId == d.transferId && m.key == d.key
    requires Admissible(p, m, Originals(p, d, data), c)
    ensures Judge(p, m, c).Stored? ==> |Judge(p, m, c).plaintext| <= CHUNK_SIZE
  {
    if c in Originals(p, d, data) {
      var i := OriginalOf(p, d, data, c);
      OriginalStored(p, d, data, m, i);
    }
  }

  lemma OriginalOf(p: Primitives, d: Draws, data: Octets, c: Chunk) returns (i: nat)
    requires c in Originals(p, d, data)
    ensures i < Count(data) && c == Original(p, d, data, i)
  {
    var originals := Originals(p, d, data);
    i :| 0 <= i < |originals| && originals[i] == c;
  }

  lemma {:induction false} AddsShort(p: Primitives, d: Draws, data: Octets, m: Manifest, adds: seq<Chunk>)
    requires p.aead.Correct()
    requires m.transferId == d.transferId && m.key == d.key
    requires AllAdmissible(p, m, Originals(p, d, data), adds)
    ensures Short(AfterAdds(p, m, adds))
  {
    if adds != [] {
      var front, c := adds[..|adds| - 1], adds[|adds| - 1];
      assert c in adds;
      AddsShort(p, d, data, m, front);
      StoredShort(p, d, data, m, c);
    }
  }

  lemma {:induction false} JoinShort(r: Received, n: nat)
    requires n <= U32_MAX + 1 && Short(r)
    ensures Join(r, n).Some? ==> |Join(r, n).value| <= n * CHUNK_SIZE
  {
    if n > 0 {
      JoinShort(r, n - 1);
    }
  }

  /** The exact range of delivery: when all originals arrive, the data comes out if and only if its chunks
      number fewer than 2^32. */
  lemma DeliveryIffCountFits(p: Primitives, d: Draws, data: Octets, mime: Utf8.Text, filename: Utf8.Text, adds: seq<Chunk>)
    requires p.aead.Correct()
    requires AllAdmissible(p, ManifestOf(p, d, data, mime, filename), Originals(p, d, data), adds)
    requires forall c <- Originals(p, d, data) :: c in adds
    ensures var m := ManifestOf(p, d, data, mime, filename);
      Finished(p, m, AfterAdds(p, m, adds)) == Ok(data) <==> Count(data) <= U32_MAX
  {
    var m := ManifestOf(p, d, data, mime, filename);
    if Count(data) <= U32_MAX {
      Delivery(p, d, data, mime, filename, adds);
    } else {
      OversizeNeverFinishes(p, d, data, m, adds);
    }
  }

  lemma OversizeNeverFinishes(p: Primitives, d: Draws, data: Octets, m: Manifest, adds: seq<Chunk>)
    requires p.aead.Correct() && Count(data) > U32_MAX
    requires m.transferId == d.transferId && m.key == d.key
    requires AllAdmissible(p, m, Originals(p, d, data), adds)
    ensures Finished(p, m, AfterAdds(p, m, adds)) != Ok(data)
  {
    var r := AfterAdds(p, m, adds);
    AddsShort(p, d, data, m, adds);
    JoinShort(r, m.chunkCount);
    assert |data| > (Count(data) - 1) * CHUNK_SIZE >= m.chunkCount * CHUNK_SIZE;
  }

  /** Whatever chunks arrive, even ones the sender never made, only content with the hash of the data
      comes out. */
  lemma ContentHashed(p: Primitives, d: Draws, data: Octets, mime: Utf8.Text, filename: Utf8.Text, adds: seq<Chunk>, out: Octets)
    requires var m := ManifestOf(p, d, data, mime, filename); Finished(p, m, AfterAdds(p, m, adds)) == Ok(out)
    ensures p.hash(out) == p.hash(data)
  {
  }

  // --- what the parts are ---

  /** What a receiver reads off the encoded manifest of a split. */
  lemma ManifestTells(p: Primitives, d: Draws, data: Octets, mime: Utf8.Text, filename: Utf8.Text, junk: Octets)
    requires Formed(ManifestOf(p, d, data, mime, filename))
    ensures var read := DecodedManifest(EncodedManifest(ManifestOf(p, d, data, mime, filename)) + junk);
      && read.Ok?
      && read.value.mime == mime && read.value.filename == filename && read.value.totalSize == |data|
      && read.value.transferId == d.transferId && read.value.key == d.key && read.value.contentHash == p.hash(data)
      && read.value.chunkCount == (|data| + 65535) / 65536 % 0x1_0000_0000
  {
    ManifestRoundTrip(ManifestOf(p, d, data, mime, filename), junk);
  }

  /** No two chunks of a transfer are sealed under one nonce, as long as the nonces drawn differ. */
  lemma NoncesDiffer(p: Primitives, d: Draws, data: Octets, i: nat, j: nat)
    requires i < j < Count(data) && d.nonces(i) != d.nonces(j)
    ensures Originals(p, d, data)[i].nonce != Originals(p, d, data)[j].nonce
  {
    assert Originals(p, d, data)[i] == Original(p, d, data, i) && Originals(p, d, data)[j] == Original(p, d, data, j);
  }

  /** Every piece but the last is 64 KiB long, and no piece is empty. */
  lemma PieceLengths(data: Octets, i: nat)
    requires i < Count(data)
    ensures i + 1 < Count(data) ==> |Piece(data, i)| == 65536
    ensures i + 1 == Count(data) ==> 0 < |Piece(data, i)| <= 65536
  {
  }

  /** What becomes of a chunk: why it is ignored, rejected or stored. */
  lemma JudgedExactly(p: Primitives, m: Manifest, c: Chunk)
    ensures
      var v := Judge(p, m, c);
      var plaintext := p.aead.open(m.key, c.nonce, c.ciphertext, c.transferId + U32ToBytes(c.index));
      && (v == Foreign <==> c.transferId != m.transferId)
      && (v == Rejected(BadIndex) <==> c.transferId == m.transferId && c.index >= m.chunkCount)
      && (v == Rejected(ChunkAuth) <==> c.transferId == m.transferId && c.index < m.chunkCount && plaintext.None?)
      && (v.Stored? <==> c.transferId == m.transferId && c.index < m.chunkCount && plaintext.Some?)
      && (v.Stored? ==> plaintext == Some(v.plaintext))
  {
  }

  /** Arrival `k` is the last one stored under index `i`. */
  ghost predicate LastStoredAt(p: Primitives, m: Manifest, adds: seq<Chunk>, i: u32, k: nat) {
    && k < |adds| && adds[k].index == i && Judge(p, m, adds[k]).Stored?
    && (forall j | k < j < |adds| :: !(adds[j].index == i && Judge(p, m, adds[j]).Stored?))
  }

  lemma LastStoredStep(p: Primitives, m: Manifest, front: seq<Chunk>, c: Chunk, i: u32, k: nat)
    ensures LastStoredAt(p, m, front + [c], i, k) <==>
      if c.index == i && Judge(p, m, c).Stored? then k == |front| else LastStoredAt(p, m, front, i, k)
  {
    var adds := front + [c];
    assert adds[|front|] == c && forall j | 0 <= j < |front| :: adds[j] == front[j];
  }

  /** A reassembler holds, for each index, what the last chunk stored under it opened to. */
  lemma {:induction false} HoldsLastStored(p: Primitives, m: Manifest, adds: seq<Chunk>, i: u32)
    ensures i in AfterAdds(p, m, adds) <==> exists k: nat :: LastStoredAt(p, m, adds, i, k)
    ensures forall k: nat :: LastStoredAt(p, m, adds, i, k) ==>
      i in AfterAdds(p, m, adds) && Judge(p, m, adds[k]) == Stored(AfterAdds(p, m, adds)[i])
  {
    if adds != [] {
      var front, c := adds[..|adds| - 1], adds[|adds| - 1];
      assert adds == front + [c];
      HoldsLastStored(p, m, front, i);
      forall k: nat
        ensures LastStoredAt(p, m, adds, i, k) <==>
          if c.index == i && Judge(p, m, c).Stored? then k == |front| else LastStoredAt(p, m, front, i, k)
      {
        LastStoredStep(p, m, front, c, i, k);
      }
      if c.index == i && Judge(p, m, c).Stored? {
        assert LastStoredAt(p, m, adds, i, |front|);
      } else if k: nat :| LastStoredAt(p, m, front, i, k) {
        assert LastStoredAt(p, m, adds, i, k);
      }
    }
  }

  /** Why a transfer does not finish. */
  lemma FinishedExactly(p: Primitives, m: Manifest, adds: seq<Chunk>)
    ensures
      var r := AfterAdds(p, m, adds);
      var f := Finished(p, m, r);
      && (f == Err(Incomplete) <==> exists i: u32 :: i < m.chunkCount && i !in r)
      && (f == Err(HashMismatch) <==>
            Join(r, m.chunkCount).Some? && p.hash(Join(r, m.chunkCount).value) != m.contentHash)
      && (f.Err? ==> f.error == Incomplete || f.error == HashMismatch)
  {
    var r := AfterAdds(p, m, adds);
    Bookkeeping(p, m, adds, r);
    JoinDefined(r, m.chunkCount);
  }

  /** The indices still missing, each once and in ascending order. */
  lemma {:induction false} MissingAscending(r: Received, n: nat)
    requires n <= U32_MAX + 1
    ensures forall i: u32 :: i in MissingBelow(r, n) <==> i < n && i !in r
    ensures forall a, b :: 0 <= a < b < |MissingBelow(r, n)| ==> MissingBelow(r, n)[a] < MissingBelow(r, n)[b]
  {
    if n > 0 {
      MissingAscending(r, n - 1);
      var before := MissingBelow(r, n - 1);
      assert forall a | 0 <= a < |before| :: before[a] in before;
    }
  }

  // --- through the wire codecs ---

  /** The chunks a receiver reads off a sequence of wires, malformed ones dropped. */
  function ReadWires(wires: seq<Octets>): seq<Chunk> {
    if wires == [] then
      []
    else
      ReadWires(wires[..|wires| - 1])
      + match DecodedChunk(wires[|wires| - 1]) case Ok(c) => [c] case Err(_) => []
  }

  lemma {:induction false} ReadWiresHas(wires: seq<Octets>, c: Chunk)
    ensures c in ReadWires(wires) <==> FormedChunk(c) && EncodedChunk(c) in wires
  {
    if wires != [] {
      var front, w := wires[..|wires| - 1], wires[|wires| - 1];
      assert wires == front + [w];
      ReadWiresHas(front, c);
      ChunkDecodesEncoded(w);
      if FormedChunk(c) {
        ChunkRoundTrip(c);
      }
    }
  }

  /** A wire that carries an original, or nothing the reassembler would store. */
  predicate AdmissibleWire(p: Primitives, m: Manifest, originals: seq<Chunk>, w: Octets) {
    match DecodedChunk(w)
    case Ok(c) => Admissible(p, m, originals, c)
    case Err(_) => true
  }

  ghost predicate AllWiresAdmissible(p: Primitives, m: Manifest, originals: seq<Chunk>, wires: seq<Octets>) {
    forall w <- wires :: AdmissibleWire(p, m, originals, w)
  }

  /** The random values have the widths their wire fields give them. */
  ghost predicate FormedDraws(d: Draws) {
    |d.transferId| == 16 && |d.key| == 32 && forall i :: |d.nonces(i)| == 12
  }

  /** Media delivery with the manifest and every chunk passed through their byte encodings. */
  lemma DeliveryByWire(p: Primitives, d: Draws, data: Octets, mime: Utf8.Text, filename: Utf8.Text, wires: seq<Octets>)
    requires p.aead.Correct() && FormedDraws(d) && Count(data) <= U32_MAX && |data| <= U64_MAX
    requires Formed(ManifestOf(p, d, data, mime, filename))
    requires AllWiresAdmissible(p, ManifestOf(p, d, data, mime, filename), Originals(p, d, data), wires)
    ensures var sent := DecodedManifest(EncodedManifest(ManifestOf(p, d, data, mime, filename)));
      && sent.Ok? && sent.value.mime == mime && sent.value.filename == filename && sent.value.totalSize == |data|
      && Finished(p, sent.value, AfterAdds(p, sent.value, ReadWires(wires)))
         == if forall c <- Originals(p, d, data) :: EncodedChunk(c) in wires then Ok(data) else Err(Incomplete)
  {
    var m := ManifestOf(p, d, data, mime, filename);
    var originals := Originals(p, d, data);
    ManifestRoundTrip(m, []);
    assert EncodedManifest(m) + [] == EncodedManifest(m);
    ReadsAdmissible(p, m, originals, wires);
    FormedOriginals(p, d, data);
    SameCoverage(originals, wires);
    Delivery(p, d, data, mime, filename, ReadWires(wires));
  }

  lemma ReadsAdmissible(p: Primitives, m: Manifest, originals: seq<Chunk>, wires: seq<Octets>)
    requires AllWiresAdmissible(p, m, originals, wires)
    ensures AllAdmissible(p, m, originals, ReadWires(wires))
  {
    forall c <- ReadWires(wires)
      ensures Admissible(p, m, originals, c)
    {
      ReadWiresHas(wires, c);
      ChunkRoundTrip(c);
      assert AdmissibleWire(p, m, originals, EncodedChunk(c));
    }
  }

  lemma FormedOriginals(p: Primitives, d: Draws, data: Octets)
    requires FormedDraws(d)
    ensures forall c <- Originals(p, d, data) :: FormedChunk(c)
  {
    forall c <- Originals(p, d, data)
      ensures FormedChunk(c)
    {
      var i := OriginalOf(p, d, data, c);
    }
  }

  lemma SameCoverage(originals: seq<Chunk>, wires: seq<Octets>)
    requires forall c <- originals :: FormedChunk(c)
    ensures (forall c <- originals :: c in ReadWires(wires)) <==> (forall c <- originals :: EncodedChunk(c) in wires)
  {
    forall c <- originals
      ensures c in ReadWires(wires) <==> EncodedChunk(c) in wires
    {
      ReadWiresHas(wires, c);
    }
  }
}

/** What "closest" means for storage peers, in numbers: the distance of two hashes is the number whose bits are
    set exactly where theirs differ, and closer is smaller. */
module StorageDistance {
  import opened Bytes
  import opened StoragePeers
  import Bits

  // --- numbers ---

  function Pow256(n: nat): (p: nat)
    ensures p > 0
  {
    if n == 0 then 1 else 256 * Pow256(n - 1)
  }

  /** The number a byte string is, most significant byte first. */
  function Number(b: Octets): nat {
    if b == [] then 0 else b[0] as nat * Pow256(|b| - 1) + Number(b[1..])
  }

  lemma {:induction false} NumberBound(b: Octets)
    ensures Number(b) < Pow256(|b|)
  {
    if b != [] {
      NumberBound(b[1..]);
      Bits.MulLe(b[0], 255, Pow256(|b| - 1));
    }
  }

  /** The first digit decides, then the rest. */
  lemma FirstDigit(x: nat, m: nat, y: nat, n: nat, p: nat)
    requires m < p && n < p
    ensures x * p + m < y * p + n <==> x < y || (x == y && m < n)
  {
    if x < y {
      Bits.MulLe(x + 1, y, p);
    } else if y < x {
      Bits.MulLe(y + 1, x, p);
    }
  }

  /** The order of the ranking is the order of the numbers. */
  lemma {:induction false} LessIsSmaller(a: Octets, b: Octets)
    requires |a| == |b|
    ensures Less(a, b) <==> Number(a) < Number(b)
  {
    if a != [] {
      LessIsSmaller(a[1..], b[1..]);
      NumberBound(a[1..]);
      NumberBound(b[1..]);
      FirstDigit(a[0], Number(a[1..]), b[0], Number(b[1..]), Pow256(|a| - 1));
    }
  }

  // --- distances ---

  /** `d` has its bits set exactly where `a` and `b` differ. */
  ghost predicate Differs(d: Octets, a: Octets, b: Octets) {
    && |d| == |a| == |b|
    && forall k: nat, j: nat | k < |d| && j < 8 :: Bits.Bit(d[k], j) == (Bits.Bit(a[k], j) != Bits.Bit(b[k], j))
  }

  lemma {:induction false} XorDiffers(a: Octets, b: Octets)
    requires |a| == |b|
    ensures Differs(Xor(a, b), a, b)
  {
    if a != [] {
      XorDiffers(a[1..], b[1..]);
      var d := Xor(a, b);
      forall k: nat, j: nat | k < |d| && j < 8
        ensures Bits.Bit(d[k], j) == (Bits.Bit(a[k], j) != Bits.Bit(b[k], j))
      {
        if k == 0 {
          Bits.XorBit(a[0], b[0], 8, j);
        } else {
          assert d[k] == Xor(a[1..], b[1..])[k - 1] && a[k] == a[1..][k - 1] && b[k] == b[1..][k - 1];
        }
      }
    }
  }

  lemma DiffersDetermines(d: Octets, e: Octets, a: Octets, b: Octets)
    requires Differs(d, a, b) && Differs(e, a, b)
    ensures d == e
  {
    assert Bits.Pow2(8) == 256;
    forall k: nat | k < |d|
      ensures d[k] == e[k]
    {
      forall j: nat | j < 8
        ensures Bits.Bit(d[k], j) == Bits.Bit(e[k], j)
      {
        assert Bits.Bit(d[k], j) == (Bits.Bit(a[k], j) != Bits.Bit(b[k], j));
        assert Bits.Bit(e[k], j) == (Bits.Bit(a[k], j) != Bits.Bit(b[k], j));
      }
      Bits.BitsDetermine(d[k], e[k], 8);
    }
  }

  // --- the selection in numbers ---

  /** `dist` gives every peer the 32 bytes in which its hash differs from the target's. */
  ghost predicate Distances(hash: Octets -> Octets, target: PeerKey, dist: PeerKey -> Octets) {
    && (forall x: Octets :: |hash(x)| == 32)
    && (forall x: PeerKey :: Differs(dist(x), hash(target), hash(x)))
  }

  /** How many candidates other than the target have a distance below `limit`. */
  function Nearer(target: PeerKey, candidates: seq<PeerKey>, dist: PeerKey -> Octets, limit: nat): nat {
    if candidates == [] then
      0
    else
      (if candidates[0] != target && Number(dist(candidates[0])) < limit then 1 else 0)
      + Nearer(target, candidates[1..], dist, limit)
  }

  lemma DistanceIs(hash: Octets -> Octets, target: PeerKey, dist: PeerKey -> Octets, x: PeerKey)
    requires Distances(hash, target, dist)
    ensures Xor(hash(target), hash(x)) == dist(x)
  {
    XorDiffers(hash(target), hash(x));
    DiffersDetermines(Xor(hash(target), hash(x)), dist(x), hash(target), hash(x));
  }

  lemma {:induction false} NearerIsCloser(
    hash: Octets -> Octets, target: PeerKey, candidates: seq<PeerKey>, dist: PeerKey -> Octets, c: PeerKey)
    requires Distances(hash, target, dist)
    ensures CloserThan(hash, target, candidates, c) == Nearer(target, candidates, dist, Number(dist(c)))
  {
    if candidates != [] {
      var e, rest := candidates[0], Rank(hash, target, candidates[1..]);
      NearerIsCloser(hash, target, candidates[1..], dist, c);
      DistanceIs(hash, target, dist, c);
      DistanceIs(hash, target, dist, e);
      LessIsSmaller(dist(e), dist(c));
      if e != target {
        assert Rank(hash, target, candidates) == [Ranked(e, dist(e))] + rest;
        assert ([Ranked(e, dist(e))] + rest)[1..] == rest;
      } else {
        assert Rank(hash, target, candidates) == rest;
      }
    }
  }

  /** Whatever the draws, a chosen peer is a candidate other than the target with fewer than `2n` candidates at a
      smaller distance. */
  lemma ChosenIsNear(
    hash: Octets -> Octets, target: PeerKey, candidates: seq<PeerKey>, n: nat, draws: seq<nat>,
    dist: PeerKey -> Octets, c: PeerKey)
    requires Distances(hash, target, dist)
    requires |draws| >= n && c in Selected(hash, target, candidates, n, draws)
    ensures c in candidates && c != target
    ensures Nearer(target, candidates, dist, Number(dist(c))) < 2 * n
  {
    ChosenIsClose(hash, target, candidates, n, draws, c);
    NearerIsCloser(hash, target, candidates, dist, c);
  }

  /** And exactly those can be chosen, unless two hashes collide. */
  lemma ChoosableIffNear(
    hash: Octets -> Octets, target: PeerKey, candidates: seq<PeerKey>, n: nat, dist: PeerKey -> Octets, c: PeerKey)
    requires Distances(hash, target, dist) && n > 0
    requires forall e <- candidates :: hash(e) == hash(c) ==> e == c
    ensures (exists draws: seq<nat> :: |draws| >= n && c in Selected(hash, target, candidates, n, draws))
      <==> c in candidates && c != target && Nearer(target, candidates, dist, Number(dist(c))) < 2 * n
  {
    ChoosableIffClose(hash, target, candidates, n, c);
    NearerIsCloser(hash, target, candidates, dist, c);
  }
}

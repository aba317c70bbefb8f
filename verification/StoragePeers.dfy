/** Choosing the storage peers of a message: XOR-closest candidates, then a random pick among them. */
module StoragePeers {
  import opened Bytes
  import opened Shuffle
  import Bits

  type PeerKey = Octets

  /** A candidate and its XOR distance to the target. */
  datatype Ranked = Ranked(peer: PeerKey, distance: Octets)

  function XorByte(a: u8, b: u8): u8 {
    assert Bits.Pow2(8) == 256;
    Bits.Xor(a, b, 8)
  }

  /** Hashes are 32 bytes; the distance is as wide as the shorter operand. */
  function Xor(a: Octets, b: Octets): Octets {
    if a == [] || b == [] then [] else [XorByte(a[0], b[0])] + Xor(a[1..], b[1..])
  }

  /** Distances from one target tell hashes of one width apart. */
  lemma {:induction false} XorCancels(t: Octets, a: Octets, b: Octets)
    requires |t| == |a| == |b| && Xor(t, a) == Xor(t, b)
    ensures a == b
  {
    if t != [] {
      assert Xor(t, a)[0] == Xor(t, b)[0] && Xor(t, a)[1..] == Xor(t, b)[1..];
      assert Bits.Pow2(8) == 256;
      Bits.XorCancels(t[0], a[0], b[0], 8);
      XorCancels(t[1..], a[1..], b[1..]);
      assert a == [a[0]] + a[1..] && b == [b[0]] + b[1..];
    }
  }

  /** Lexicographic order on byte strings. */
  predicate Less(a: Octets, b: Octets) {
    b != [] && (a == [] || a[0] < b[0] || (a[0] == b[0] && Less(a[1..], b[1..])))
  }

  lemma {:induction false} LessTotal(a: Octets, b: Octets)
    ensures a == b || Less(a, b) || Less(b, a)
    ensures !(Less(a, b) && Less(b, a)) && !Less(a, a)
  {
    if a != [] {
      if b != [] {
        LessTotal(a[1..], b[1..]);
        assert a == [a[0]] + a[1..] && b == [b[0]] + b[1..];
      }
      LessTotal(a[1..], a[1..]);
    }
  }

  lemma {:induction false} LessTransitive(a: Octets, b: Octets, c: Octets)
    requires Less(a, b) && Less(b, c)
    ensures Less(a, c)
  {
    if a != [] && a[0] == b[0] == c[0] {
      LessTransitive(a[1..], b[1..], c[1..]);
    }
  }

  /** `a` is no farther than `b`. */
  predicate NoFarther(a: Octets, b: Octets) {
    !Less(b, a)
  }

  lemma NoFartherTransitive(a: Octets, b: Octets, c: Octets)
    requires NoFarther(a, b) && NoFarther(b, c)
    ensures NoFarther(a, c)
  {
    LessTotal(a, b);
    LessTotal(b, c);
    LessTotal(a, c);
    if Less(a, b) && Less(b, c) {
      LessTransitive(a, b, c);
    }
  }

  // --- ranking ---

  /** The candidates other than the target, each with its distance. */
  function Rank(hash: Octets -> Octets, target: PeerKey, candidates: seq<PeerKey>): seq<Ranked> {
    if candidates == [] then
      []
    else
      var c := candidates[0];
      (if c == target then [] else [Ranked(c, Xor(hash(target), hash(c)))]) + Rank(hash, target, candidates[1..])
  }

  function InsertByDistance(r: Ranked, s: seq<Ranked>): seq<Ranked> {
    if s == [] || NoFarther(r.distance, s[0].distance) then [r] + s else [s[0]] + InsertByDistance(r, s[1..])
  }

  /** The stable sort by distance. */
  function Sort(s: seq<Ranked>): seq<Ranked> {
    if s == [] then [] else InsertByDistance(s[0], Sort(s[1..]))
  }

  ghost predicate Sorted(s: seq<Ranked>) {
    forall i, j :: 0 <= i < j < |s| ==> NoFarther(s[i].distance, s[j].distance)
  }

  lemma {:induction false} InsertSorts(r: Ranked, s: seq<Ranked>)
    requires Sorted(s)
    ensures Sorted(InsertByDistance(r, s))
    ensures multiset(InsertByDistance(r, s)) == multiset(s) + multiset{r}
  {
    var out := InsertByDistance(r, s);
    if s == [] || NoFarther(r.distance, s[0].distance) {
      forall j | 0 < j < |out|
        ensures NoFarther(out[0].distance, out[j].distance)
      {
        if j > 1 {
          NoFartherTransitive(r.distance, s[0].distance, out[j].distance);
        }
      }
    } else {
      var rest := InsertByDistance(r, s[1..]);
      InsertSorts(r, s[1..]);
      assert s == [s[0]] + s[1..];
      LessTotal(r.distance, s[0].distance);
      forall j | 0 < j < |out|
        ensures NoFarther(out[0].distance, out[j].distance)
      {
        assert out[j] in multiset(rest);
        assert out[j] in multiset(s[1..]) || out[j] == r;
      }
    }
  }

  /** Sorting orders the candidates and keeps each as often as it occurred. */
  lemma {:induction false} SortSorts(s: seq<Ranked>)
    ensures Sorted(Sort(s))
    ensures multiset(Sort(s)) == multiset(s)
  {
    if s != [] {
      SortSorts(s[1..]);
      InsertSorts(s[0], Sort(s[1..]));
      assert s == [s[0]] + s[1..];
    }
  }

  function AtDistance(d: Octets, s: seq<Ranked>): seq<Ranked> {
    if s == [] then [] else (if s[0].distance == d then [s[0]] else []) + AtDistance(d, s[1..])
  }

  lemma {:induction false} InsertStable(d: Octets, r: Ranked, s: seq<Ranked>)
    ensures AtDistance(d, InsertByDistance(r, s)) == (if r.distance == d then [r] else []) + AtDistance(d, s)
  {
    if s != [] {
      if NoFarther(r.distance, s[0].distance) {
        assert ([r] + s)[1..] == s;
      } else {
        LessTotal(r.distance, s[0].distance);
        InsertStable(d, r, s[1..]);
        assert ([s[0]] + InsertByDistance(r, s[1..]))[1..] == InsertByDistance(r, s[1..]);
      }
    }
  }

  /** Candidates at one distance keep their order. */
  lemma {:induction false} SortStable(d: Octets, s: seq<Ranked>)
    ensures AtDistance(d, Sort(s)) == AtDistance(d, s)
  {
    if s != [] {
      SortStable(d, s[1..]);
      InsertStable(d, s[0], Sort(s[1..]));
    }
  }

  // --- picking ---

  function Min(a: nat, b: nat): nat {
    if a < b then a else b
  }

  function Peers(s: seq<Ranked>): seq<PeerKey> {
    if s == [] then [] else [s[0].peer] + Peers(s[1..])
  }

  /** The closest `2n` candidates. */
  function Pool(hash: Octets -> Octets, target: PeerKey, candidates: seq<PeerKey>, n: nat): seq<PeerKey> {
    var ranked := Sort(Rank(hash, target, candidates));
    Peers(ranked[..Min(2 * n, |ranked|)])
  }

  function Selected(hash: Octets -> Octets, target: PeerKey, candidates: seq<PeerKey>, n: nat, draws: seq<nat>): seq<PeerKey>
    requires |draws| >= n
  {
    var pool := Pool(hash, target, candidates, n);
    var take := Min(n, |pool|);
    Shuffled(pool, 0, draws[..take])[..take]
  }

  method Select(hash: Octets -> Octets, target: PeerKey, candidates: seq<PeerKey>, n: nat, draws: seq<nat>)
    returns (chosen: seq<PeerKey>)
    requires 2 * n <= U64_MAX && |draws| >= n
    ensures chosen == Selected(hash, target, candidates, n, draws)
  {
    if n == 0 {
      return [];
    }
    var ranked := Sort(Rank(hash, target, candidates));
    var poolSize := Min(2 * n, |ranked|);
    var closest := Peers(ranked[..poolSize]);
    var pool := new PeerKey[|closest|](k requires 0 <= k < |closest| => closest[k]);
    assert pool[..] == closest;
    var take := Min(n, pool.Length);
    ShuffleInPlace(pool, take, draws);
    chosen := pool[..take];
  }

  // --- what a selection can be ---

  /** The candidates that may be chosen at all. */
  function Eligible(target: PeerKey, candidates: seq<PeerKey>): seq<PeerKey> {
    if candidates == [] then
      []
    else
      (if candidates[0] == target then [] else [candidates[0]]) + Eligible(target, candidates[1..])
  }

  /** How many of `s` are strictly closer than `d`, counting repetitions. */
  function Closer(d: Octets, s: seq<Ranked>): nat {
    if s == [] then 0 else (if Less(s[0].distance, d) then 1 else 0) + Closer(d, s[1..])
  }

  lemma PeersAppend(a: seq<Ranked>, b: seq<Ranked>)
    ensures Peers(a + b) == Peers(a) + Peers(b)
  {
    if a == [] {
      assert a + b == b;
    } else {
      assert (a + b)[1..] == a[1..] + b;
    }
  }

  lemma {:induction false} PeersAt(s: seq<Ranked>)
    ensures |Peers(s)| == |s| && forall i :: 0 <= i < |s| ==> Peers(s)[i] == s[i].peer
  {
    if s != [] {
      PeersAt(s[1..]);
    }
  }

  lemma {:induction false} RankPeers(hash: Octets -> Octets, target: PeerKey, candidates: seq<PeerKey>)
    ensures Peers(Rank(hash, target, candidates)) == Eligible(target, candidates)
    ensures forall r <- Rank(hash, target, candidates) :: r.distance == Xor(hash(target), hash(r.peer))
  {
    if candidates != [] {
      var c, rest := candidates[0], Rank(hash, target, candidates[1..]);
      RankPeers(hash, target, candidates[1..]);
      if c != target {
        PeersCons(Ranked(c, Xor(hash(target), hash(c))), rest);
      } else {
        assert Rank(hash, target, candidates) == rest;
      }
    }
  }

  lemma PeersCons(r: Ranked, s: seq<Ranked>)
    ensures Peers([r] + s) == [r.peer] + Peers(s)
  {
    assert ([r] + s)[1..] == s;
  }

  lemma {:induction false} PeersInsert(r: Ranked, s: seq<Ranked>)
    ensures multiset(Peers(InsertByDistance(r, s))) == multiset(Peers(s)) + multiset{r.peer}
    ensures forall d :: Closer(d, InsertByDistance(r, s)) == Closer(d, s) + if Less(r.distance, d) then 1 else 0
  {
    if s == [] || NoFarther(r.distance, s[0].distance) {
      assert ([r] + s)[1..] == s;
    } else {
      PeersInsert(r, s[1..]);
      assert ([s[0]] + InsertByDistance(r, s[1..]))[1..] == InsertByDistance(r, s[1..]);
    }
  }

  lemma {:induction false} PeersSort(s: seq<Ranked>)
    ensures multiset(Peers(Sort(s))) == multiset(Peers(s))
    ensures forall d :: Closer(d, Sort(s)) == Closer(d, s)
  {
    if s != [] {
      PeersSort(s[1..]);
      PeersInsert(s[0], Sort(s[1..]));
    }
  }

  /** In a sorted ranking, the first position not strictly closer than `d` is the number that are. */
  lemma {:induction false} CloserIsPosition(s: seq<Ranked>, d: Octets)
    requires Sorted(s)
    ensures Closer(d, s) <= |s|
    ensures forall i :: 0 <= i < |s| ==> (Less(s[i].distance, d) <==> i < Closer(d, s))
  {
    if s != [] {
      CloserIsPosition(s[1..], d);
      assert forall i :: 0 < i < |s| ==> s[i] == s[1..][i - 1];
      if !Less(s[0].distance, d) {
        forall i | 0 <= i < |s|
          ensures !Less(s[i].distance, d)
        {
          if i > 0 {
            NoFartherTransitive(d, s[0].distance, s[i].distance);
          }
        }
      }
    }
  }

  lemma PrefixPeers(ranked: seq<Ranked>, k: nat)
    requires k <= |ranked|
    ensures |Peers(ranked[..k])| == k && forall i :: 0 <= i < k ==> Peers(ranked[..k])[i] == ranked[i].peer
    ensures multiset(Peers(ranked[..k])) <= multiset(Peers(ranked))
  {
    PeersAt(ranked[..k]);
    PeersAppend(ranked[..k], ranked[k..]);
    assert ranked == ranked[..k] + ranked[k..];
  }

  /** The sorted ranking lists the eligible candidates with their distances. */
  lemma RankedOf(hash: Octets -> Octets, target: PeerKey, candidates: seq<PeerKey>, ranked: seq<Ranked>)
    requires ranked == Sort(Rank(hash, target, candidates))
    ensures Sorted(ranked) && multiset(Peers(ranked)) == multiset(Eligible(target, candidates))
    ensures |ranked| == |Eligible(target, candidates)|
    ensures forall r <- ranked :: r.distance == Xor(hash(target), hash(r.peer))
    ensures forall d :: Closer(d, ranked) == Closer(d, Rank(hash, target, candidates))
  {
    var rank := Rank(hash, target, candidates);
    RankPeers(hash, target, candidates);
    SortSorts(rank);
    PeersSort(rank);
    PeersAt(ranked);
    assert |multiset(Peers(ranked))| == |multiset(Eligible(target, candidates))|;
    forall r <- ranked
      ensures r in rank
    {
      assert r in multiset(ranked);
    }
  }

  lemma PoolOf(hash: Octets -> Octets, target: PeerKey, candidates: seq<PeerKey>, n: nat, ranked: seq<Ranked>, pool: seq<PeerKey>)
    requires ranked == Sort(Rank(hash, target, candidates)) && pool == Pool(hash, target, candidates, n)
    ensures |ranked| == |Eligible(target, candidates)| && |pool| == Min(2 * n, |ranked|)
    ensures multiset(pool) <= multiset(Eligible(target, candidates))
    ensures forall i :: 0 <= i < |pool| ==> pool[i] == ranked[i].peer
  {
    RankedOf(hash, target, candidates, ranked);
    PrefixPeers(ranked, Min(2 * n, |ranked|));
  }

  /** Every selection is a sub-multiset of the candidates other than the target, and as large as asked for
      when there are enough of them. */
  lemma SelectedFrom(hash: Octets -> Octets, target: PeerKey, candidates: seq<PeerKey>, n: nat, draws: seq<nat>)
    requires |draws| >= n
    ensures var chosen := Selected(hash, target, candidates, n, draws);
      && multiset(chosen) <= multiset(Pool(hash, target, candidates, n)) <= multiset(Eligible(target, candidates))
      && |chosen| == Min(n, |Eligible(target, candidates)|)
  {
    var pool := Pool(hash, target, candidates, n);
    PoolOf(hash, target, candidates, n, Sort(Rank(hash, target, candidates)), pool);
    TakenFrom(pool, Min(n, |pool|), draws[..Min(n, |pool|)]);
  }

  lemma TakenFrom(pool: seq<PeerKey>, take: nat, draws: seq<nat>)
    requires |draws| == take <= |pool|
    ensures multiset(Shuffled(pool, 0, draws)[..take]) <= multiset(pool)
  {
    var r := Shuffled(pool, 0, draws);
    ShuffledKeeps(pool, 0, draws);
    assert r[0..] == r && pool[0..] == pool && r == r[..take] + r[take..];
  }

  lemma {:induction false} EligibleIsNotTarget(target: PeerKey, candidates: seq<PeerKey>)
    ensures forall c :: c in Eligible(target, candidates) <==> c in candidates && c != target
  {
    if candidates != [] {
      EligibleIsNotTarget(target, candidates[1..]);
      assert candidates == [candidates[0]] + candidates[1..];
    }
  }

  /** How many candidates other than the target are strictly closer to it than `c`. */
  function CloserThan(hash: Octets -> Octets, target: PeerKey, candidates: seq<PeerKey>, c: PeerKey): nat {
    Closer(Xor(hash(target), hash(c)), Rank(hash, target, candidates))
  }

  lemma PoolIsClosest(hash: Octets -> Octets, target: PeerKey, candidates: seq<PeerKey>, n: nat, c: PeerKey)
    requires c in Pool(hash, target, candidates, n)
    ensures CloserThan(hash, target, candidates, c) < 2 * n
  {
    var ranked := Sort(Rank(hash, target, candidates));
    var pool := Pool(hash, target, candidates, n);
    PoolOf(hash, target, candidates, n, ranked, pool);
    RankedOf(hash, target, candidates, ranked);
    var k: nat :| k < |pool| && pool[k] == c;
    assert ranked[k] in ranked;
    var d := Xor(hash(target), hash(c));
    CloserIsPosition(ranked, d);
    LessTotal(d, d);
  }

  /** The candidate alone at its distance stands right after those strictly closer. */
  lemma StandsAt(ranked: seq<Ranked>, d: Octets, c: PeerKey)
    requires Sorted(ranked) && Ranked(c, d) in ranked
    requires forall r <- ranked :: r.distance == d ==> r.peer == c
    ensures Closer(d, ranked) < |ranked| && ranked[Closer(d, ranked)].peer == c
  {
    var i: nat :| i < |ranked| && ranked[i] == Ranked(c, d);
    var k := Closer(d, ranked);
    CloserIsPosition(ranked, d);
    LessTotal(d, d);
    LessTotal(ranked[k].distance, d);
    assert k <= i;
    assert NoFarther(ranked[k].distance, ranked[i].distance);
  }

  lemma PeersMembers(ranked: seq<Ranked>, eligible: seq<PeerKey>)
    requires multiset(Peers(ranked)) == multiset(eligible)
    ensures forall c <- eligible :: exists r :: r in ranked && r.peer == c
    ensures forall r <- ranked :: r.peer in eligible
  {
    PeersAt(ranked);
    forall c <- eligible
      ensures exists r :: r in ranked && r.peer == c
    {
      assert c in multiset(Peers(ranked));
      var i: nat :| i < |ranked| && Peers(ranked)[i] == c;
      assert ranked[i] in ranked;
    }
    forall r <- ranked
      ensures r.peer in eligible
    {
      var j: nat :| j < |ranked| && ranked[j] == r;
      assert Peers(ranked)[j] in multiset(Peers(ranked));
    }
  }

  lemma ClosestInPool(hash: Octets -> Octets, target: PeerKey, candidates: seq<PeerKey>, n: nat, c: PeerKey)
    requires c in candidates && c != target && CloserThan(hash, target, candidates, c) < 2 * n
    requires forall e <- candidates :: Xor(hash(target), hash(e)) == Xor(hash(target), hash(c)) ==> e == c
    ensures c in Pool(hash, target, candidates, n)
  {
    var ranked := Sort(Rank(hash, target, candidates));
    var pool := Pool(hash, target, candidates, n);
    var d := Xor(hash(target), hash(c));
    RankedOf(hash, target, candidates, ranked);
    EligibleIsNotTarget(target, candidates);
    PeersMembers(ranked, Eligible(target, candidates));
    var r :| r in ranked && r.peer == c;
    StandsAt(ranked, d, c);
    PoolOf(hash, target, candidates, n, ranked, pool);
    assert pool[Closer(d, ranked)] == c;
  }

  /** Sybil bound. Whatever the draws, a chosen peer is a candidate other than the target that has fewer than
      `2n` candidates strictly closer; and every such candidate, unless its hash collides with another's, is
      chosen under some draws. */
  lemma ChoosableIffClose(hash: Octets -> Octets, target: PeerKey, candidates: seq<PeerKey>, n: nat, c: PeerKey)
    requires n > 0
    requires forall x: Octets :: |hash(x)| == 32
    requires forall e <- candidates :: hash(e) == hash(c) ==> e == c
    ensures (exists draws: seq<nat> :: |draws| >= n && c in Selected(hash, target, candidates, n, draws))
      <==> c in candidates && c != target && CloserThan(hash, target, candidates, c) < 2 * n
  {
    if draws: seq<nat> :| |draws| >= n && c in Selected(hash, target, candidates, n, draws) {
      ChosenIsClose(hash, target, candidates, n, draws, c);
    }
    if c in candidates && c != target && CloserThan(hash, target, candidates, c) < 2 * n {
      forall e <- candidates | Xor(hash(target), hash(e)) == Xor(hash(target), hash(c))
        ensures e == c
      {
        XorCancels(hash(target), hash(e), hash(c));
      }
      ClosestInPool(hash, target, candidates, n, c);
      var want := ArrangeFirst(Pool(hash, target, candidates, n), Min(n, |Pool(hash, target, candidates, n)|), c);
      var draws := SelectedReaches(hash, target, candidates, n, want);
      assert |draws| >= n && c in Selected(hash, target, candidates, n, draws);
    }
  }

  /** Every selection is within the bound. */
  lemma ChosenIsClose(hash: Octets -> Octets, target: PeerKey, candidates: seq<PeerKey>, n: nat, draws: seq<nat>, c: PeerKey)
    requires |draws| >= n && c in Selected(hash, target, candidates, n, draws)
    ensures c in candidates && c != target && CloserThan(hash, target, candidates, c) < 2 * n
  {
    SelectedFrom(hash, target, candidates, n, draws);
    EligibleIsNotTarget(target, candidates);
    assert c in multiset(Selected(hash, target, candidates, n, draws));
    assert c in multiset(Eligible(target, candidates));
    PoolIsClosest(hash, target, candidates, n, c);
  }

  /** Every arrangement of that many peers of the pool comes out under some draws: with `SelectedFrom`, the
      possible outcomes are exactly these. */
  lemma SelectedReaches(hash: Octets -> Octets, target: PeerKey, candidates: seq<PeerKey>, n: nat, want: seq<PeerKey>)
    returns (draws: seq<nat>)
    requires |want| == Min(n, |Pool(hash, target, candidates, n)|)
    requires multiset(want) <= multiset(Pool(hash, target, candidates, n))
    ensures |draws| >= n && Selected(hash, target, candidates, n, draws) == want
  {
    var pool := Pool(hash, target, candidates, n);
    assert pool[0..] == pool;
    var offsets := ShuffledReaches(pool, 0, want);
    draws := offsets + seq(n, _ => 0);
    assert draws[..|want|] == offsets;
  }
}

/** The partial Fisher-Yates shuffle, and the arrangements it can produce. */
module Shuffle {

  function Swap<T>(s: seq<T>, i: nat, j: nat): (r: seq<T>)
    requires i < |s| && j < |s|
    ensures |r| == |s|
  {
    s[i := s[j]][j := s[i]]
  }

  /** The position a draw picks among `n`. */
  function Offset(draw: nat, n: nat): (k: nat)
    requires n > 0
    ensures k < n && (draw < n ==> k == draw)
  {
    draw % n
  }

  /** The shuffle from position `i`, one draw for each step. */
  function Shuffled<T>(s: seq<T>, i: nat, draws: seq<nat>): (r: seq<T>)
    requires i + |draws| <= |s|
    ensures |r| == |s|
    decreases |draws|
  {
    if draws == [] then s else Shuffled(Swap(s, i, i + Offset(draws[0], |s| - i)), i + 1, draws[1..])
  }

  method ShuffleInPlace<T>(a: array<T>, take: nat, draws: seq<nat>)
    requires take <= a.Length && take <= |draws|
    modifies a
    ensures a[..] == Shuffled(old(a[..]), 0, draws[..take])
  {
    for i := 0 to take
      invariant Shuffled(a[..], i, draws[i..take]) == Shuffled(old(a[..]), 0, draws[..take])
    {
      var j := i + Offset(draws[i], a.Length - i);
      ghost var before := a[..];
      a[i], a[j] := a[j], a[i];
      assert a[..] == Swap(before, i, j);
      assert draws[i..take][1..] == draws[i + 1..take];
    }
  }

  lemma MoveFirst<T>(x: T, mid: seq<T>, y: T, tail: seq<T>)
    ensures multiset(mid + [x] + tail) + multiset{y} == multiset([x] + mid + [y] + tail)
  {
  }

  /** A swap fixes position `i` and leaves the others in play. */
  lemma SwapKeeps<T>(s: seq<T>, i: nat, j: nat)
    requires i <= j < |s|
    ensures Swap(s, i, j)[..i + 1] == s[..i] + [s[j]]
    ensures multiset(Swap(s, i, j)[i + 1..]) + multiset{s[j]} == multiset(s[i..])
  {
    var t := Swap(s, i, j);
    if i < j {
      var mid, tail := s[i + 1..j], s[j + 1..];
      assert t[i + 1..] == mid + [s[i]] + tail;
      assert s[i..] == [s[i]] + mid + [s[j]] + tail;
      MoveFirst(s[i], mid, s[j], tail);
    } else {
      assert s[i..] == [s[i]] + s[i + 1..];
    }
  }

  /** What is fixed stays, and the rest is permuted. */
  lemma {:induction false} ShuffledKeeps<T>(s: seq<T>, i: nat, draws: seq<nat>)
    requires i + |draws| <= |s|
    ensures Shuffled(s, i, draws)[..i] == s[..i]
    ensures multiset(Shuffled(s, i, draws)[i..]) == multiset(s[i..])
    decreases |draws|
  {
    if draws != [] {
      var j := i + Offset(draws[0], |s| - i);
      var t := Swap(s, i, j);
      var r := Shuffled(t, i + 1, draws[1..]);
      ShuffledKeeps(t, i + 1, draws[1..]);
      StepKeeps(s, i, j, t, r);
      assert Shuffled(s, i, draws) == r;
    }
  }

  lemma StepKeeps<T>(s: seq<T>, i: nat, j: nat, t: seq<T>, r: seq<T>)
    requires i <= j < |s| && t == Swap(s, i, j) && |r| == |s|
    requires r[..i + 1] == t[..i + 1] && multiset(r[i + 1..]) == multiset(t[i + 1..])
    ensures r[..i] == s[..i] && r[i] == s[j]
    ensures multiset(r[i..]) == multiset(s[i..])
  {
    SwapKeeps(s, i, j);
    assert r[..i] == r[..i + 1][..i];
    assert r[i] == r[..i + 1][i];
    assert r[i..] == [r[i]] + r[i + 1..];
  }

  /** The draws put `want` at positions `i` onwards. */
  predicate Produces<T(==)>(s: seq<T>, i: nat, draws: seq<nat>, want: seq<T>) {
    && |draws| == |want| && i + |want| <= |s|
    && Shuffled(s, i, draws)[i..i + |want|] == want
  }

  /** Any arrangement of elements in play comes out under some draws. */
  lemma {:induction false} ShuffledReaches<T>(s: seq<T>, i: nat, want: seq<T>) returns (draws: seq<nat>)
    requires i + |want| <= |s| && multiset(want) <= multiset(s[i..])
    ensures Produces(s, i, draws, want)
    decreases |want|
  {
    if want == [] {
      draws := [];
    } else {
      var x, more := want[0], want[1..];
      assert want == [x] + more;
      var k, t := PickFirst(s, i, x, more);
      var rest := ShuffledReaches(t, i + 1, more);
      draws := [k] + rest;
      ReachStep(s, i, k, t, more, rest);
    }
  }

  lemma ReachStep<T>(s: seq<T>, i: nat, k: nat, t: seq<T>, more: seq<T>, rest: seq<nat>)
    requires i + k < |s| && t == Swap(s, i, i + k)
    requires Produces(t, i + 1, rest, more)
    ensures Produces(s, i, [k] + rest, [s[i + k]] + more)
  {
    var r := Shuffled(t, i + 1, rest);
    ShuffledCons(s, i, k, rest);
    ShuffledKeeps(t, i + 1, rest);
    StepKeeps(s, i, i + k, t, r);
    FirstThen(r, i, s[i + k], more);
  }

  lemma ShuffledCons<T>(s: seq<T>, i: nat, k: nat, rest: seq<nat>)
    requires i + k < |s| && i + 1 + |rest| <= |s|
    ensures Shuffled(s, i, [k] + rest) == Shuffled(Swap(s, i, i + k), i + 1, rest)
  {
    assert ([k] + rest)[1..] == rest;
    assert Offset(k, |s| - i) == k;
  }

  lemma FirstThen<T>(r: seq<T>, i: nat, x: T, more: seq<T>)
    requires i + 1 + |more| <= |r| && r[i] == x && r[i + 1..i + 1 + |more|] == more
    ensures r[i..i + 1 + |more|] == [x] + more
  {
  }

  lemma PickFirst<T>(s: seq<T>, i: nat, x: T, more: seq<T>) returns (k: nat, t: seq<T>)
    requires i <= |s| && multiset([x] + more) <= multiset(s[i..])
    ensures i + k < |s| && s[i + k] == x && t == Swap(s, i, i + k)
    ensures multiset(more) <= multiset(t[i + 1..])
  {
    assert x in multiset([x] + more);
    assert x in s[i..];
    k :| 0 <= k < |s| - i && s[i..][k] == x;
    t := Swap(s, i, i + k);
    SwapKeeps(s, i, i + k);
    StillInPlay(x, more, multiset(t[i + 1..]), multiset(s[i..]));
  }

  lemma StillInPlay<T>(x: T, more: seq<T>, after: multiset<T>, before: multiset<T>)
    requires after + multiset{x} == before
    requires multiset([x] + more) <= before
    ensures multiset(more) <= after
  {
    assert multiset([x] + more) == multiset(more) + multiset{x};
    forall e | e in more
      ensures multiset(more)[e] <= after[e]
    {
      assert multiset([x] + more)[e] <= before[e];
    }
  }

  /** Some arrangement of `take` elements includes a given one. */
  lemma ArrangeFirst<T>(pool: seq<T>, take: nat, c: T) returns (want: seq<T>)
    requires c in pool && 0 < take <= |pool|
    ensures |want| == take && c in want && multiset(want) <= multiset(pool)
  {
    var k: nat :| k < |pool| && pool[k] == c;
    if k < take {
      want := pool[..take];
      assert want[k] == c;
      assert pool == want + pool[take..];
    } else {
      want := [c] + pool[..take - 1];
      assert want[0] == c;
      SkipMiddle(pool, take - 1, k);
    }
  }

  lemma SkipMiddle<T>(pool: seq<T>, i: nat, k: nat)
    requires i <= k < |pool|
    ensures multiset([pool[k]] + pool[..i]) <= multiset(pool)
  {
    assert pool == pool[..i] + pool[i..];
    assert pool[i..] == pool[i..k] + [pool[k]] + pool[k + 1..];
    assert multiset(pool[i..]) == multiset(pool[i..k]) + multiset{pool[k]} + multiset(pool[k + 1..]);
    assert multiset([pool[k]] + pool[..i]) == multiset{pool[k]} + multiset(pool[..i]);
  }
}

/** Base-128 varints: seven bits a byte, least significant first, a set high bit on all but the last. */
module Varints {
  import opened Wrappers
  import opened Bytes
  import opened Bits

  function Varint(p: nat): (b: Octets)
    ensures |b| >= 1
  {
    if p < 128 then [p] else [p % 128 + 128] + Varint(p / 128)
  }

  /** A left shift that keeps 64 bits. */
  function ShiftLeft(bits: nat, shift: nat): (x: nat)
    requires bits < TWO64
    ensures x < TWO64
  {
    if shift == 0 then bits else 2 * ShiftLeft(bits, shift - 1) % TWO64
  }

  function Or64(a: nat, b: nat): (x: nat)
    ensures x < TWO64
  {
    Pow2Values();
    Or(a, b, 64)
  }

  /** The value read so far with a byte's seven bits added; a shift uses the low six bits of its distance. */
  function Accumulate(result: nat, b: u8, shift: nat): (result': nat)
    ensures result' < TWO64
  {
    Or64(result, ShiftLeft(b % 128, shift % 64))
  }

  function TakeVarint(b: Octets, shift: nat, result: nat): (r: Option<(nat, Octets)>)
    ensures r.Some? ==> r.value.0 < TWO64 && |r.value.1| < |b|
    decreases |b|
  {
    if b == [] then
      None
    else if b[0] < 128 then
      Some((Accumulate(result, b[0], shift), b[1..]))
    else
      TakeVarint(b[1..], shift + 7, Accumulate(result, b[0], shift))
  }

  function TakeLong(b: Octets): (r: Option<(Int64, Octets)>)
    ensures r.Some? ==> |r.value.1| < |b|
  {
    var (p, rest) :- TakeVarint(b, 0, 0);
    Some((FromPattern64(p), rest))
  }

  lemma DoubleProduct(a: nat, q: nat)
    ensures a * (2 * q) == 2 * (a * q)
  {
  }

  lemma {:induction false} ShiftLeftIs(bits: nat, shift: nat)
    requires bits * Pow2(shift) < TWO64 && bits < TWO64
    ensures ShiftLeft(bits, shift) == bits * Pow2(shift)
  {
    if shift > 0 {
      DoubleProduct(bits, Pow2(shift - 1));
      ShiftLeftIs(bits, shift - 1);
    }
  }

  lemma OrDisjoint64(a: nat, x: nat, s: nat)
    requires a < Pow2(s) && x * Pow2(s) < TWO64 && s <= 64
    ensures Or64(a, x * Pow2(s)) == a + x * Pow2(s)
  {
    Pow2Values();
    OrDisjoint(a, x, s, 64);
  }

  lemma AccumulateIs(result: nat, b: u8, shift: nat)
    requires shift < 64 && result < Pow2(shift) && b % 128 * Pow2(shift) < TWO64
    ensures Accumulate(result, b, shift) == result + b % 128 * Pow2(shift)
  {
    var low: nat := b % 128;
    assert shift % 64 == shift;
    ShiftLeftIs(low, shift);
    OrDisjoint64(result, low, shift);
  }

  /** A number split at its seventh bit, both parts shifted by `s`. */
  lemma SplitAt7(p: nat, s: nat)
    requires s > 0
    ensures p * s == p / 128 * (128 * s) + p % 128 * s
    ensures p % 128 * s <= 127 * s && p % 128 * s <= p * s
    ensures p >= 128 ==> p / 128 * (128 * s) >= 128 * s
  {
    var q, r := p / 128, p % 128;
    assert p == q * 128 + r;
    assert p * s == (q * 128) * s + r * s;
    assert (q * 128) * s == q * (128 * s);
    MulLe(r, 127, s);
    MulLe(r, p, s);
    if p >= 128 {
      MulLe(1, q, 128 * s);
    }
  }

  lemma Pow2Grows(s: nat, t: nat)
    requires s <= t
    ensures Pow2(s) <= Pow2(t)
  {
    Pow2Add(s, t - s);
    MulLe(1, Pow2(t - s), Pow2(s));
  }

  /** Reading adds the number above the bits already read. */
  lemma {:induction false} TakeVarintOf(p: nat, rest: Octets, shift: nat, result: nat)
    requires shift < 64 && result < Pow2(shift) && result + p * Pow2(shift) < TWO64
    ensures TakeVarint(Varint(p) + rest, shift, result) == Some((result + p * Pow2(shift), rest))
  {
    var b := Varint(p) + rest;
    OneByte(p, b[0], shift, result);
    if p < 128 {
      assert b[1..] == rest;
    } else {
      assert b[1..] == Varint(p / 128) + rest;
      TakeVarintOf(p / 128, rest, shift + 7, Accumulate(result, b[0], shift));
    }
  }

  /** One byte moves its seven bits from what is to be read to what has been. */
  lemma OneByte(p: nat, b: u8, shift: nat, result: nat)
    requires shift < 64 && result < Pow2(shift) && result + p * Pow2(shift) < TWO64
    requires b % 128 == p % 128
    ensures var result' := Accumulate(result, b, shift);
      && (p < 128 ==> result' == result + p * Pow2(shift))
      && (p >= 128 ==> shift + 7 < 64 && result' < Pow2(shift + 7)
                       && result' + p / 128 * Pow2(shift + 7) == result + p * Pow2(shift))
  {
    var s := Pow2(shift);
    SplitAt7(p, s);
    AccumulateIs(result, b, shift);
    if p >= 128 {
      Pow2Values();
      Pow2Add(shift, 7);
      if shift + 7 >= 64 {
        Pow2Grows(64, shift + 7);
      }
    }
  }

  lemma {:induction false} VarintLength(p: nat, n: nat)
    requires n > 0 && p < Pow2(7 * n)
    ensures |Varint(p)| <= n
  {
    if p >= 128 {
      Pow2Values();
      assert n > 1;
      Pow2Add(7, 7 * (n - 1));
      VarintLength(p / 128, n - 1);
    }
  }

  /** `readVarint` inverts `writeVarint` for every 64-bit integer, negative ones included, and the encoding
      takes at most ten bytes. */
  lemma VarintRoundTrip(v: Int64, rest: Octets)
    ensures TakeLong(Varint(Pattern64(v)) + rest) == Some((v, rest))
    ensures |Varint(Pattern64(v))| <= 10
  {
    Pow2Values();
    TakeVarintOf(Pattern64(v), rest, 0, 0);
    Pow2Grows(64, 70);
    VarintLength(Pattern64(v), 10);
  }

  lemma DivDiv(p: nat, s: nat)
    requires s > 0
    ensures p / 128 / s == p / (128 * s)
  {
    var q, r := p / 128, p / 128 % s;
    assert p == 128 * q + p % 128 && q == q / s * s + r;
    assert 128 * (q / s * s) == q / s * (128 * s);
    assert p == q / s * (128 * s) + (128 * r + p % 128);
    assert 128 * r + p % 128 < 128 * s;
    QuotientOf(p, q / s, 128 * s, 128 * r + p % 128);
  }

  /** Byte `i` of a varint carries bits 7i to 7i + 6 of the number, all bytes but the last have their high bit set,
      and there are as few of them as the number allows. */
  lemma {:induction false} VarintByte(p: nat, i: nat)
    requires i < |Varint(p)|
    ensures Varint(p)[i] % 128 == p / Pow2(7 * i) % 128
    ensures Varint(p)[i] >= 128 <==> i + 1 < |Varint(p)|
    ensures i > 0 ==> p / Pow2(7 * i) > 0
  {
    if i > 0 {
      VarintByte(p / 128, i - 1);
      Pow2Values();
      Pow2Add(7, 7 * (i - 1));
      DivDiv(p, Pow2(7 * (i - 1)));
      if i == 1 {
        assert p / 128 > 0;
      }
    }
  }

  // --- what any bytes read as ---

  lemma {:induction false} ShiftLeftBit(bits: nat, shift: nat, j: nat)
    requires bits < TWO64 && j < 64
    ensures Bit(ShiftLeft(bits, shift), j) <==> shift <= j && Bit(bits, j - shift)
  {
    if shift > 0 {
      var x := ShiftLeft(bits, shift - 1);
      Pow2Values();
      ModBit(2 * x, 64, j);
      assert 2 * x / 2 == x && 2 * x % 2 == 0;
      if j > 0 {
        ShiftLeftBit(bits, shift - 1, j - 1);
      }
    }
  }

  lemma AccumulateBit(result: nat, b: u8, shift: nat, j: nat)
    requires j < 64
    ensures Bit(Accumulate(result, b, shift), j)
      <==> Bit(result, j) || (shift % 64 <= j && Bit(b % 128, j - shift % 64))
  {
    Pow2Values();
    ShiftLeftBit(b % 128, shift % 64, j);
    OrBit(result, ShiftLeft(b % 128, shift % 64), 64, j);
  }

  /** Byte `n` is the first with a clear high bit. */
  ghost predicate EndsAt(b: Octets, n: nat) {
    n < |b| && b[n] < 128 && forall k | 0 <= k < n :: b[k] >= 128
  }

  /** Byte `k`, read from `shift` on, sets bit `j`: the distance wraps at 64. */
  predicate Sets(b: Octets, k: nat, shift: nat, j: nat) {
    k < |b| && (shift + 7 * k) % 64 <= j && Bit(b[k] % 128, j - (shift + 7 * k) % 64)
  }

  /** Some byte up to `n` sets bit `j`. */
  ghost predicate SomeSets(b: Octets, n: nat, shift: nat, j: nat) {
    exists k: nat :: k <= n && Sets(b, k, shift, j)
  }

  lemma SomeSetsStep(b: Octets, n: nat, shift: nat, next: nat, j: nat)
    requires 0 < n < |b| && next == shift + 7
    ensures SomeSets(b, n, shift, j) <==> Sets(b, 0, shift, j) || SomeSets(b[1..], n - 1, next, j)
  {
    var tail := b[1..];
    if k: nat :| k <= n && k > 0 && Sets(b, k, shift, j) {
      var before: nat := k - 1;
      assert next + 7 * before == shift + 7 * k;
      assert Sets(tail, before, next, j);
    }
    if k: nat :| k <= n - 1 && Sets(tail, k, next, j) {
      var after: nat := k + 1;
      assert next + 7 * k == shift + 7 * after;
      assert Sets(b, after, shift, j);
    }
  }

  lemma {:induction false} TakeVarintBit(b: Octets, n: nat, shift: nat, result: nat, j: nat)
    requires EndsAt(b, n) && result < TWO64 && j < 64
    ensures TakeVarint(b, shift, result).Some? && TakeVarint(b, shift, result).value.1 == b[n + 1..]
    ensures Bit(TakeVarint(b, shift, result).value.0, j) <==> Bit(result, j) || SomeSets(b, n, shift, j)
    decreases n
  {
    AccumulateBit(result, b[0], shift, j);
    assert Sets(b, 0, shift, j) <==> shift % 64 <= j && Bit(b[0] % 128, j - shift % 64);
    if n > 0 {
      TakeVarintBit(b[1..], n - 1, shift + 7, Accumulate(result, b[0], shift), j);
      assert b[1..][n..] == b[n + 1..];
      SomeSetsStep(b, n, shift, shift + 7, j);
    }
  }

  lemma {:induction false} TakeVarintEnds(b: Octets, shift: nat, result: nat)
    ensures TakeVarint(b, shift, result).Some? ==> exists n: nat :: EndsAt(b, n)
    decreases |b|
  {
    if b != [] {
      if b[0] < 128 {
        assert EndsAt(b, 0);
      } else {
        TakeVarintEnds(b[1..], shift + 7, Accumulate(result, b[0], shift));
        if n: nat :| EndsAt(b[1..], n) {
          assert forall k | 0 < k < n + 1 :: b[k] == b[1..][k - 1];
          assert EndsAt(b, n + 1);
        }
      }
    }
  }

  /** What any bytes read as, overlong ones included: the varint ends with the first byte whose high bit is clear, and
      bit `j` of the number is set exactly when some byte `k` up to there sets it, seven bits at 7k modulo 64. */
  lemma ReadsBits(b: Octets, n: nat, j: nat)
    requires EndsAt(b, n) && j < 64
    ensures TakeLong(b).Some? && TakeLong(b).value.1 == b[n + 1..]
    ensures Bit(Pattern64(TakeLong(b).value.0), j)
      <==> exists k: nat :: k <= n && 7 * k % 64 <= j && Bit(b[k] % 128, j - 7 * k % 64)
  {
    TakeVarintBit(b, n, 0, 0, j);
    ZeroBit(j);
    assert SomeSets(b, n, 0, j) <==> exists k: nat :: k <= n && Sets(b, k, 0, j);
    forall k: nat | k <= n
      ensures Sets(b, k, 0, j) <==> 7 * k % 64 <= j && Bit(b[k] % 128, j - 7 * k % 64)
    {
    }
  }

  lemma {:induction false} ZeroBit(j: nat)
    ensures !Bit(0, j)
  {
    if j > 0 {
      ZeroBit(j - 1);
    }
  }

  /** Bytes that never end read as nothing. */
  lemma ReadsIff(b: Octets)
    ensures TakeLong(b).Some? <==> exists n: nat :: EndsAt(b, n)
  {
    TakeVarintEnds(b, 0, 0);
    if n: nat :| EndsAt(b, n) {
      TakeVarintBit(b, n, 0, 0, 0);
    }
  }
}

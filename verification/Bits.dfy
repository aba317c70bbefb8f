/** Bitwise operators on unsigned numbers of a given width, and two's complement. */
module Bits {

  function Pow2(w: nat): (p: nat)
    ensures p > 0
  {
    if w == 0 then 1 else 2 * Pow2(w - 1)
  }

  function Xor(a: nat, b: nat, w: nat): (x: nat)
    ensures x < Pow2(w)
  {
    if w == 0 then 0 else 2 * Xor(a / 2, b / 2, w - 1) + if a % 2 == b % 2 then 0 else 1
  }

  function Or(a: nat, b: nat, w: nat): (x: nat)
    ensures x < Pow2(w)
  {
    if w == 0 then 0 else 2 * Or(a / 2, b / 2, w - 1) + if a % 2 == 1 || b % 2 == 1 then 1 else 0
  }

  lemma {:induction false} XorCancels(t: nat, a: nat, b: nat, w: nat)
    requires a < Pow2(w) && b < Pow2(w) && Xor(t, a, w) == Xor(t, b, w)
    ensures a == b
  {
    if w > 0 {
      XorCancels(t / 2, a / 2, b / 2, w - 1);
    }
  }

  lemma {:induction false} OrZero(x: nat, w: nat)
    requires x < Pow2(w)
    ensures Or(0, x, w) == x
  {
    if w > 0 {
      OrZero(x / 2, w - 1);
    }
  }

  /** Bits that do not overlap add up. */
  lemma {:induction false} OrDisjoint(a: nat, x: nat, s: nat, w: nat)
    requires a < Pow2(s) && x * Pow2(s) < Pow2(w) && s <= w
    ensures Or(a, x * Pow2(s), w) == a + x * Pow2(s)
  {
    if s == 0 {
      OrZero(x, w);
    } else {
      var y := x * Pow2(s - 1);
      assert x * Pow2(s) == 2 * y;
      OrDisjoint(a / 2, x, s - 1, w - 1);
    }
  }

  lemma {:induction false} Pow2Add(s: nat, t: nat)
    ensures Pow2(s) * Pow2(t) == Pow2(s + t)
  {
    if t > 0 {
      Pow2Add(s, t - 1);
    }
  }

  lemma MulLe(a: nat, b: nat, s: nat)
    requires a <= b
    ensures a * s <= b * s
  {
    assert (b - a) * s >= 0;
  }

  lemma QuotientOf(p: nat, q: nat, d: nat, r: nat)
    requires r < d && p == q * d + r
    ensures p / d == q && p % d == r
  {
    var k, m := p / d, p % d;
    assert (k + 1) * d == k * d + d && (q + 1) * d == q * d + d;
    if q > k {
      MulLe(k + 1, q, d);
    } else if q < k {
      MulLe(q + 1, k, d);
    }
  }

  lemma Pow2Values()
    ensures Pow2(3) == 8 && Pow2(7) == 128
    ensures Pow2(32) == TWO32 && Pow2(64) == TWO64
  {
    assert Pow2(8) == 0x100;
    Pow2Add(8, 8);
    Pow2Add(16, 16);
    Pow2Add(32, 32);
  }

  // --- single bits ---

  /** Bit `j` of a number, counting from the least significant. */
  predicate Bit(x: nat, j: nat) {
    if j == 0 then x % 2 == 1 else Bit(x / 2, j - 1)
  }

  lemma {:induction false} XorBit(a: nat, b: nat, w: nat, j: nat)
    requires j < w
    ensures Bit(Xor(a, b, w), j) <==> Bit(a, j) != Bit(b, j)
  {
    var x := Xor(a / 2, b / 2, w - 1);
    assert Xor(a, b, w) / 2 == x;
    if j > 0 {
      XorBit(a / 2, b / 2, w - 1, j - 1);
    }
  }

  lemma {:induction false} BitsDetermine(x: nat, y: nat, w: nat)
    requires x < Pow2(w) && y < Pow2(w) && forall j: nat | j < w :: Bit(x, j) == Bit(y, j)
    ensures x == y
  {
    if w > 0 {
      assert Bit(x, 0) == Bit(y, 0);
      forall j: nat | j < w - 1
        ensures Bit(x / 2, j) == Bit(y / 2, j)
      {
        assert Bit(x, j + 1) == Bit(y, j + 1);
      }
      BitsDetermine(x / 2, y / 2, w - 1);
    }
  }

  lemma {:induction false} OrBit(a: nat, b: nat, w: nat, j: nat)
    requires j < w
    ensures Bit(Or(a, b, w), j) <==> Bit(a, j) || Bit(b, j)
  {
    var x := Or(a / 2, b / 2, w - 1);
    assert Or(a, b, w) / 2 == x;
    if j > 0 {
      OrBit(a / 2, b / 2, w - 1, j - 1);
    }
  }

  lemma HalfOfMod(x: nat, m: nat)
    requires m > 0
    ensures x % (2 * m) / 2 == x / 2 % m && x % (2 * m) % 2 == x % 2
  {
    var q, r := x / 2 / m, x / 2 % m;
    assert x / 2 == m * q + r;
    assert m * q * 2 == q * (2 * m);
    QuotientOf(x, q, 2 * m, 2 * r + x % 2);
  }

  /** Cutting a number to `w` bits keeps those bits. */
  lemma {:induction false} ModBit(x: nat, w: nat, j: nat)
    requires j < w
    ensures Bit(x % Pow2(w), j) <==> Bit(x, j)
  {
    HalfOfMod(x, Pow2(w - 1));
    if j > 0 {
      ModBit(x / 2, w - 1, j - 1);
    }
  }

  // --- two's complement ---

  const TWO32: nat := 0x1_0000_0000
  const TWO64: nat := 0x1_0000_0000_0000_0000

  type Int32 = x: int | -0x8000_0000 <= x < 0x8000_0000 witness 0

  type Int64 = x: int | -0x8000_0000_0000_0000 <= x < 0x8000_0000_0000_0000 witness 0

  function Pattern64(v: Int64): (p: nat)
    ensures p < TWO64
  {
    if v < 0 then v + TWO64 else v
  }

  function FromPattern64(p: nat): (v: Int64)
    requires p < TWO64
    ensures Pattern64(v) == p
  {
    if p < 0x8000_0000_0000_0000 then p else p - TWO64
  }

  function FromPattern32(p: nat): Int32
    requires p < TWO32
  {
    if p < 0x8000_0000 then p else p - TWO32
  }

  /** The conversion of a 64-bit to a 32-bit integer keeps the low half. */
  function ToInt32(v: Int64): Int32 {
    FromPattern32(Pattern64(v) % TWO32)
  }
}

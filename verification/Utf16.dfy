/** Strings of 16-bit code units, as the application holds them, and their conversion to and from UTF-8. */
module Utf16 {
  import opened Bytes
  import Utf8

  type Unit16 = x: int | 0 <= x < 0x1_0000

  type Utf16String = seq<Unit16>

  predicate IsHigh(u: Unit16) {
    0xD800 <= u < 0xDC00
  }

  predicate IsLow(u: Unit16) {
    0xDC00 <= u < 0xE000
  }

  /** The code point of a surrogate pair. */
  function Pair(high: Unit16, low: Unit16): Utf8.Scalar
    requires IsHigh(high) && IsLow(low)
  {
    0x1_0000 + (high as int - 0xD800) * 0x400 + (low as int - 0xDC00)
  }

  /** The scalars of a string; an unpaired surrogate counts as a question mark. */
  function ToScalars(s: Utf16String): Utf8.Text {
    if s == [] then
      []
    else if |s| >= 2 && IsHigh(s[0]) && IsLow(s[1]) then
      [Pair(s[0], s[1])] + ToScalars(s[2..])
    else
      [if IsHigh(s[0]) || IsLow(s[0]) then 0x3F else s[0]] + ToScalars(s[1..])
  }

  function FromScalar(c: Utf8.Scalar): Utf16String {
    if c < 0x1_0000 then [c] else [0xD800 + (c - 0x1_0000) / 0x400, 0xDC00 + (c - 0x1_0000) % 0x400]
  }

  function FromScalars(t: Utf8.Text): Utf16String {
    if t == [] then [] else FromScalar(t[0]) + FromScalars(t[1..])
  }

  /** No surrogate is unpaired. */
  predicate WellFormed(s: Utf16String) {
    s == []
    || (if |s| >= 2 && IsHigh(s[0]) && IsLow(s[1]) then WellFormed(s[2..])
        else !IsHigh(s[0]) && !IsLow(s[0]) && WellFormed(s[1..]))
  }

  /** The bytes of a string in UTF-8. */
  function ToUtf8(s: Utf16String): Octets {
    Utf8.Encode(ToScalars(s))
  }

  /** The string of UTF-8 bytes, ill-formed pieces replaced. */
  function FromUtf8(b: Octets): Utf16String {
    FromScalars(Utf8.DecodeLossy(b))
  }

  lemma PairOf(high: Unit16, low: Unit16)
    requires IsHigh(high) && IsLow(low)
    ensures FromScalar(Pair(high, low)) == [high, low]
  {
    var x := (high as int - 0xD800) * 0x400 + (low as int - 0xDC00);
    assert x / 0x400 == high as int - 0xD800 && x % 0x400 == low as int - 0xDC00;
  }

  /** Conversion and back keeps a string exactly when its surrogates are paired. */
  lemma {:induction false} ScalarsRoundTripIff(s: Utf16String)
    ensures FromScalars(ToScalars(s)) == s <==> WellFormed(s)
    decreases |s|
  {
    if s == [] {
    } else if |s| >= 2 && IsHigh(s[0]) && IsLow(s[1]) {
      PairOf(s[0], s[1]);
      FromCons(Pair(s[0], s[1]), ToScalars(s[2..]));
      ScalarsRoundTripIff(s[2..]);
      SplitFirst(s, 2, FromScalars(ToScalars(s[2..])), [s[0], s[1]]);
    } else {
      var c: Utf8.Scalar := if IsHigh(s[0]) || IsLow(s[0]) then 0x3F else s[0];
      FromCons(c, ToScalars(s[1..]));
      ScalarsRoundTripIff(s[1..]);
      SplitFirst(s, 1, FromScalars(ToScalars(s[1..])), FromScalar(c));
    }
  }

  lemma FromCons(c: Utf8.Scalar, t: Utf8.Text)
    ensures FromScalars([c] + t) == FromScalar(c) + FromScalars(t)
  {
    assert ([c] + t)[1..] == t;
  }

  lemma SplitFirst(s: Utf16String, n: nat, rest: Utf16String, first: Utf16String)
    requires n <= |s| && |first| == n
    ensures first + rest == s <==> first == s[..n] && rest == s[n..]
  {
    if first + rest == s {
      assert (first + rest)[..n] == first && (first + rest)[n..] == rest;
    }
    if first == s[..n] && rest == s[n..] {
      assert s[..n] + s[n..] == s;
    }
  }

  /** A string comes back from its UTF-8 bytes exactly when its surrogates are paired. */
  lemma Utf8RoundTripIff(s: Utf16String)
    ensures FromUtf8(ToUtf8(s)) == s <==> WellFormed(s)
    ensures ToUtf8(s) == [] <==> s == []
  {
    Utf8.RoundTrip(ToScalars(s));
    ScalarsRoundTripIff(s);
  }

  /** A surrogate that is not next to its other half. */
  predicate Unpaired(s: Utf16String, i: nat)
    requires i < |s|
  {
    || (IsHigh(s[i]) && !(i + 1 < |s| && IsLow(s[i + 1])))
    || (IsLow(s[i]) && !(i > 0 && IsHigh(s[i - 1])))
  }

  lemma {:induction false} ScalarsReplace(s: Utf16String)
    ensures |FromScalars(ToScalars(s))| == |s|
    ensures forall i: nat :: i < |s| ==> FromScalars(ToScalars(s))[i] == if Unpaired(s, i) then 0x3F else s[i]
    decreases |s|
  {
    if s == [] {
    } else if |s| >= 2 && IsHigh(s[0]) && IsLow(s[1]) {
      var rest := s[2..];
      PairOf(s[0], s[1]);
      FromCons(Pair(s[0], s[1]), ToScalars(rest));
      ScalarsReplace(rest);
      forall i: nat | i < |rest|
        ensures Unpaired(s, i + 2) <==> Unpaired(rest, i)
      {
      }
    } else {
      var rest := s[1..];
      var c: Utf8.Scalar := if IsHigh(s[0]) || IsLow(s[0]) then 0x3F else s[0];
      FromCons(c, ToScalars(rest));
      ScalarsReplace(rest);
      forall i: nat | i < |rest|
        ensures Unpaired(s, i + 1) <==> Unpaired(rest, i)
      {
      }
    }
  }

  /** What comes back from UTF-8: the string with a question mark for each unpaired surrogate. */
  lemma UnpairedReplaced(s: Utf16String)
    ensures |FromUtf8(ToUtf8(s))| == |s|
    ensures forall i: nat :: i < |s| ==> FromUtf8(ToUtf8(s))[i] == if Unpaired(s, i) then 0x3F else s[i]
  {
    Utf8.RoundTrip(ToScalars(s));
    ScalarsReplace(s);
  }
}

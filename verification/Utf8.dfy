/** UTF-8 (section 3 of RFC 3629): the encoder, the strict decoder behind `String::from_utf8`, and
    the decoder behind `String::from_utf8_lossy`, which replaces each ill-formed piece. */
module Utf8 {
  import opened Wrappers
  import opened Bytes

  /** A Unicode scalar value: a code point that is not a surrogate. */
  type Scalar = c: int | 0 <= c < 0xD800 || 0xE000 <= c < 0x11_0000

  type Text = seq<Scalar>

  const REPLACEMENT: Scalar := 0xFFFD

  function EncodeScalar(c: Scalar): (b: Octets)
    ensures 1 <= |b| <= 4
  {
    if c < 0x80 then
      [c]
    else if c < 0x800 then
      [0xC0 + c / 0x40, 0x80 + c % 0x40]
    else if c < 0x1_0000 then
      [0xE0 + c / 0x1000, 0x80 + c / 0x40 % 0x40, 0x80 + c % 0x40]
    else
      [0xF0 + c / 0x4_0000, 0x80 + c / 0x1000 % 0x40, 0x80 + c / 0x40 % 0x40, 0x80 + c % 0x40]
  }

  function Encode(t: Text): Octets {
    if t == [] then [] else EncodeScalar(t[0]) + Encode(t[1..])
  }

  /** A well-formed scalar, or the length of a maximal ill-formed piece. */
  datatype Piece = Good(c: Scalar, len: nat) | Bad(len: nat)

  predicate IsTail(b: int) {
    0x80 <= b < 0xC0
  }

  /** The second bytes a first byte allows: the narrower ranges exclude overlong forms,
      surrogates and values past U+10FFFF. */
  predicate IsSecond(first: int, b: int) {
    if first == 0xE0 then 0xA0 <= b < 0xC0
    else if first == 0xED then 0x80 <= b < 0xA0
    else if first == 0xF0 then 0x90 <= b < 0xC0
    else if first == 0xF4 then 0x80 <= b < 0x90
    else IsTail(b)
  }

  function Width(first: u8): nat {
    if first < 0x80 then 1
    else if 0xC2 <= first < 0xE0 then 2
    else if 0xE0 <= first < 0xF0 then 3
    else if 0xF0 <= first < 0xF5 then 4
    else 0
  }

  function DecodeOne(b: Octets): (p: Piece)
    requires b != []
    ensures 1 <= p.len <= |b|
  {
    var w := Width(b[0]);
    if w == 1 then
      Good(b[0], 1)
    else if w == 0 || |b| < 2 || !IsSecond(b[0], b[1]) then
      Bad(1)
    else if w == 2 then
      Good((b[0] as int - 0xC0) * 0x40 + (b[1] as int - 0x80), 2)
    else if |b| < 3 || !IsTail(b[2]) then
      Bad(2)
    else if w == 3 then
      Good((b[0] as int - 0xE0) * 0x1000 + (b[1] as int - 0x80) * 0x40 + (b[2] as int - 0x80), 3)
    else if |b| < 4 || !IsTail(b[3]) then
      Bad(3)
    else
      Good((b[0] as int - 0xF0) * 0x4_0000 + (b[1] as int - 0x80) * 0x1000
           + (b[2] as int - 0x80) * 0x40 + (b[3] as int - 0x80), 4)
  }

  function Decode(b: Octets): Option<Text> {
    if b == [] then
      Some([])
    else
      match DecodeOne(b)
      case Bad(_) => None
      case Good(c, len) =>
        var rest :- Decode(b[len..]);
        Some([c] + rest)
  }

  function DecodeLossy(b: Octets): Text {
    if b == [] then
      []
    else
      match DecodeOne(b)
      case Bad(len) => [REPLACEMENT] + DecodeLossy(b[len..])
      case Good(c, len) => [c] + DecodeLossy(b[len..])
  }

  lemma DecodeOneOf(c: Scalar, rest: Octets)
    ensures DecodeOne(EncodeScalar(c) + rest) == Good(c, |EncodeScalar(c)|)
  {
    var b := EncodeScalar(c) + rest;
    assert b[..|EncodeScalar(c)|] == EncodeScalar(c);
    if c >= 0x80 {
      assert c == c / 0x40 * 0x40 + c % 0x40;
    }
    if c >= 0x800 {
      assert c / 0x40 == c / 0x1000 * 0x40 + c / 0x40 % 0x40;
    }
    if c >= 0x1_0000 {
      assert c / 0x1000 == c / 0x4_0000 * 0x40 + c / 0x1000 % 0x40;
    }
  }

  /** The bytes of a well-formed piece are the one encoding of its scalar. */
  lemma DecodeOneIsEncoded(b: Octets)
    requires b != [] && DecodeOne(b).Good?
    ensures EncodeScalar(DecodeOne(b).c) == b[..DecodeOne(b).len]
  {
    var p := DecodeOne(b);
    var w := Width(b[0]);
    assert w == p.len;
    if w == 2 {
      Digits(b[0] as int - 0xC0, b[1] as int - 0x80);
    } else if w == 3 {
      var c1 := (b[0] as int - 0xE0) * 0x40 + (b[1] as int - 0x80);
      Digits(b[0] as int - 0xE0, b[1] as int - 0x80);
      Digits(c1, b[2] as int - 0x80);
      assert p.c == c1 * 0x40 + (b[2] as int - 0x80);
    } else if w == 4 {
      FourBytes(b);
    }
  }

  lemma Digits(hi: int, lo: int)
    requires 0 <= hi && 0 <= lo < 0x40
    ensures (hi * 0x40 + lo) / 0x40 == hi && (hi * 0x40 + lo) % 0x40 == lo
  {
  }

  lemma FourBytes(b: Octets)
    requires |b| >= 4 && Width(b[0]) == 4 && DecodeOne(b).Good?
    ensures EncodeScalar(DecodeOne(b).c) == b[..4]
  {
    var c1 := (b[0] as int - 0xF0) * 0x40 + (b[1] as int - 0x80);
    var c2 := c1 * 0x40 + (b[2] as int - 0x80);
    Digits(b[0] as int - 0xF0, b[1] as int - 0x80);
    Digits(c1, b[2] as int - 0x80);
    Digits(c2, b[3] as int - 0x80);
    var c := DecodeOne(b).c;
    assert c == c2 * 0x40 + (b[3] as int - 0x80);
    assert c / 0x40 == c2 && c / 0x1000 == c1 && c / 0x4_0000 == b[0] as int - 0xF0;
  }

  lemma {:induction false} RoundTrip(t: Text)
    ensures Decode(Encode(t)) == Some(t)
    ensures DecodeLossy(Encode(t)) == t
  {
    if t != [] {
      DecodeOneOf(t[0], Encode(t[1..]));
      assert Encode(t)[|EncodeScalar(t[0])|..] == Encode(t[1..]);
      RoundTrip(t[1..]);
      assert [t[0]] + t[1..] == t;
    }
  }

  /** The strict decoder accepts exactly the encodings of texts. */
  lemma {:induction false} DecodeIsEncoded(b: Octets)
    requires Decode(b).Some?
    ensures Encode(Decode(b).value) == b
    decreases |b|
  {
    if b != [] {
      var p := DecodeOne(b);
      DecodeStep(b, p);
      DecodeOneIsEncoded(b);
      DecodeIsEncoded(b[p.len..]);
      EncodeCons(p.c, Decode(b[p.len..]).value);
      SplitAt(b, p.len);
    }
  }

  lemma SplitAt(b: Octets, n: nat)
    requires n <= |b|
    ensures b == b[..n] + b[n..]
  {
  }

  lemma DecodeStep(b: Octets, p: Piece)
    requires b != [] && Decode(b).Some? && p == DecodeOne(b)
    ensures p.Good? && Decode(b[p.len..]).Some?
    ensures Decode(b).value == [p.c] + Decode(b[p.len..]).value
  {
  }

  lemma EncodeCons(c: Scalar, rest: Text)
    ensures Encode([c] + rest) == EncodeScalar(c) + Encode(rest)
  {
    assert ([c] + rest)[1..] == rest;
  }

  // --- ill-formed pieces ---

  /** The bytes are the encoding of a scalar, or the start of one. */
  ghost predicate StartsScalar(b: Octets) {
    exists c: Scalar, n: nat :: n <= |EncodeScalar(c)| && EncodeScalar(c)[..n] == b
  }

  lemma EncodingShape(c: Scalar)
    ensures
      var b := EncodeScalar(c);
      && Width(b[0]) == |b|
      && (|b| > 1 ==> IsSecond(b[0], b[1]))
      && (|b| > 2 ==> IsTail(b[2]))
      && (|b| > 3 ==> IsTail(b[3]))
  {
  }

  lemma LongerStartsNothing(b: Octets, n: nat)
    requires b != [] && DecodeOne(b).Bad? && DecodeOne(b).len < n <= |b|
    ensures !StartsScalar(b[..n])
  {
    if c: Scalar, k: nat :| k <= |EncodeScalar(c)| && EncodeScalar(c)[..k] == b[..n] {
      var e := EncodeScalar(c);
      EncodingShape(c);
      assert k == n && forall i | 0 <= i < n :: b[i] == b[..n][i] && e[i] == e[..k][i];
    }
  }

  /** Completing an ill-formed piece longer than a byte gives a scalar. */
  lemma PieceStartsScalar(b: Octets, len: nat)
    requires b != [] && DecodeOne(b) == Bad(len) && len > 1
    ensures StartsScalar(b[..len])
  {
    var whole := b[..len] + if Width(b[0]) == len + 1 then [0x80] else [0x80, 0x80];
    DecodeOneIsEncoded(whole);
    var c := DecodeOne(whole).c;
    assert EncodeScalar(c) == whole[..DecodeOne(whole).len];
    assert EncodeScalar(c)[..len] == b[..len];
  }

  /** What is replaced is a maximal piece: the longest start of a scalar, or one byte where there is none. */
  lemma BadIsMaximal(b: Octets)
    requires b != [] && DecodeOne(b).Bad?
    ensures
      var len := DecodeOne(b).len;
      && (len > 1 ==> StartsScalar(b[..len]))
      && (forall n | len < n <= |b| :: !StartsScalar(b[..n]))
  {
    var len := DecodeOne(b).len;
    if len > 1 {
      PieceStartsScalar(b, len);
    }
    forall n | len < n <= |b|
      ensures !StartsScalar(b[..n])
    {
      LongerStartsNothing(b, n);
    }
  }

  /** Text up to an ill-formed piece is kept, the piece becomes U+FFFD, and decoding goes on behind it; the strict
      decoder refuses. */
  lemma {:induction false} LossyReplaces(t: Text, b: Octets)
    requires b != [] && DecodeOne(b).Bad?
    ensures DecodeLossy(Encode(t) + b) == t + [0xFFFD] + DecodeLossy(b[DecodeOne(b).len..])
    ensures Decode(Encode(t) + b).None?
  {
    if t == [] {
      assert Encode(t) + b == b;
      assert t + [REPLACEMENT] == [REPLACEMENT];
    } else {
      var head, rest := EncodeScalar(t[0]), Encode(t[1..]) + b;
      Assoc(head, Encode(t[1..]), b);
      DecodeOneOf(t[0], rest);
      assert (head + rest)[|head|..] == rest;
      LossyReplaces(t[1..], b);
      assert t == [t[0]] + t[1..];
    }
  }
}

/** Octet strings and the fixed-width big-endian integers every codec is built from. */
module Bytes {
  import opened Wrappers

  type u8 = x: int | 0 <= x < 256

  type Octets = seq<u8>

  function Code(c: char): u8 {
    if c as int < 128 then c as int else 0x3F
  }

  /** The ASCII bytes of a label. */
  function Ascii(s: string): Octets {
    seq(|s|, i requires 0 <= i < |s| => Code(s[i]))
  }

  const U32_MAX: nat := 0xFFFF_FFFF

  const U64_MAX: nat := 0xFFFF_FFFF_FFFF_FFFF

  type u32 = x: int | 0 <= x <= U32_MAX

  function U32ToBytes(n: nat): (b: Octets)
    requires n <= U32_MAX
    ensures |b| == 4
  {
    [n / 0x100_0000, n / 0x1_0000 % 0x100, n / 0x100 % 0x100, n % 0x100]
  }

  function U32FromBytes(b: Octets): (n: nat)
    requires |b| == 4
    ensures n <= U32_MAX
  {
    b[0] as int * 0x100_0000 + b[1] as int * 0x1_0000 + b[2] as int * 0x100 + b[3]
  }

  lemma U32RoundTrip(n: nat)
    requires n <= U32_MAX
    ensures U32FromBytes(U32ToBytes(n)) == n
  {
    assert n / 0x1_0000 == n / 0x100 / 0x100;
    assert n / 0x100_0000 == n / 0x1_0000 / 0x100;
  }

  function U64ToBytes(n: nat): (b: Octets)
    requires n <= U64_MAX
    ensures |b| == 8
  {
    U32ToBytes(n / 0x1_0000_0000) + U32ToBytes(n % 0x1_0000_0000)
  }

  function U64FromBytes(b: Octets): (n: nat)
    requires |b| == 8
    ensures n <= U64_MAX
  {
    U32FromBytes(b[..4]) * 0x1_0000_0000 + U32FromBytes(b[4..])
  }

  lemma U64RoundTrip(n: nat)
    requires n <= U64_MAX
    ensures U64FromBytes(U64ToBytes(n)) == n
  {
    U32RoundTrip(n / 0x1_0000_0000);
    U32RoundTrip(n % 0x1_0000_0000);
  }

  lemma Assoc(a: Octets, b: Octets, c: Octets)
    ensures a + b + c == a + (b + c)
  {
  }

  // --- parsers: each consumes a prefix and returns what is left ---

  function TakeBytes(s: Octets, n: nat): Option<(Octets, Octets)> {
    if n <= |s| then Some((s[..n], s[n..])) else None
  }

  function TakeU32(s: Octets): Option<(nat, Octets)> {
    if 4 <= |s| then Some((U32FromBytes(s[..4]), s[4..])) else None
  }

  /** A length-prefixed field. */
  function TakeField(s: Octets): Option<(Octets, Octets)> {
    var (len, rest) :- TakeU32(s);
    TakeBytes(rest, len)
  }

  /** What `put_field` appends; the length is truncated to 32 bits. */
  function PutField(f: Octets): Octets {
    U32ToBytes(|f| % 0x1_0000_0000) + f
  }

  lemma TakeBytesOf(x: Octets, rest: Octets)
    ensures TakeBytes(x + rest, |x|) == Some((x, rest))
  {
    assert (x + rest)[..|x|] == x && (x + rest)[|x|..] == rest;
  }

  lemma TakeU32Of(n: nat, rest: Octets)
    requires n <= U32_MAX
    ensures TakeU32(U32ToBytes(n) + rest) == Some((n, rest))
  {
    TakeBytesOf(U32ToBytes(n), rest);
    U32RoundTrip(n);
  }

  lemma TakeFieldOf(f: Octets, rest: Octets)
    requires |f| <= U32_MAX
    ensures TakeField(PutField(f) + rest) == Some((f, rest))
  {
    assert PutField(f) + rest == U32ToBytes(|f|) + (f + rest);
    TakeU32Of(|f|, f + rest);
    TakeBytesOf(f, rest);
  }

  /** Bytes after what a parser consumed do not change what it returns. */
  lemma TakeBytesExtend(s: Octets, n: nat, junk: Octets)
    requires TakeBytes(s, n).Some?
    ensures TakeBytes(s + junk, n) == Some((TakeBytes(s, n).value.0, TakeBytes(s, n).value.1 + junk))
  {
    assert (s + junk)[..n] == s[..n] && (s + junk)[n..] == s[n..] + junk;
  }

  lemma TakeU32Extend(s: Octets, junk: Octets)
    requires TakeU32(s).Some?
    ensures TakeU32(s + junk) == Some((TakeU32(s).value.0, TakeU32(s).value.1 + junk))
  {
    TakeBytesExtend(s, 4, junk);
  }
}

/** The protobuf writer and reader of the application: varints and length-delimited fields. */
module ProtoWire {
  import opened Wrappers
  import opened Bytes
  import opened Bits
  import opened Varints
  import Utf16

  /** The length of an array is a 32-bit signed integer. */
  const ARRAY_MAX: nat := 0x7FFF_FFFF

  // --- tags ---

  /** `((field shl 3) or wireType).toLong()` on 32-bit integers. */
  function Tag(field: Int32, wireType: nat): Int64
    requires wireType < 8
  {
    assert Pow2(32) == TWO32 by { Pow2Values(); }
    FromPattern32(Or(wireType, field * 8 % TWO32, 32))
  }

  function TagNumber(tag: Int64): Int32 {
    ToInt32(FromPattern64(Pattern64(tag) / 8))
  }

  function TagWireType(tag: Int64): (w: nat)
    ensures w < 8
  {
    Pattern64(tag) % 8
  }

  /** The low 29 bits of the field number make the upper bits of the tag. */
  lemma FieldWord(field: Int32, y: nat)
    requires y == field % 0x2000_0000
    ensures field * 8 % TWO32 == 8 * y < TWO32
    ensures FromPattern32(8 * y) % 8 == 0
    ensures FromPattern32(8 * y) / 8 == field <==> -0x1000_0000 <= field < 0x1000_0000
  {
  }

  lemma TagIs(field: Int32, wireType: nat, y: nat)
    requires wireType < 8 && y == field % 0x2000_0000
    ensures Tag(field, wireType) == FromPattern32(8 * y) + wireType
  {
    FieldWord(field, y);
    Pow2Values();
    assert y * Pow2(3) == 8 * y;
    OrDisjoint(wireType, y, 3, 32);
  }

  lemma TagSplits(x: Int32, wireType: nat)
    requires wireType < 8 && x % 8 == 0
    ensures x + wireType < 0x8000_0000
    ensures TagWireType(x + wireType) == wireType && TagNumber(x + wireType) == x / 8
  {
    var p := Pattern64(x + wireType);
    assert p % 8 == wireType;
    if x < 0 {
      assert p / 8 == TWO64 / 8 + x / 8;
      assert (TWO64 / 8 + x / 8) % TWO32 == TWO32 + x / 8;
    }
  }

  /** The wire type always survives, and the field number exactly when it is in the signed 29-bit range. */
  lemma TagSurvivesIff(field: Int32, wireType: nat)
    requires wireType < 8
    ensures TagWireType(Tag(field, wireType)) == wireType
    ensures TagNumber(Tag(field, wireType)) == field <==> -0x1000_0000 <= field < 0x1000_0000
  {
    var y := field % 0x2000_0000;
    FieldWord(field, y);
    TagIs(field, wireType, y);
    TagSplits(FromPattern32(8 * y), wireType);
  }

  // --- fields ---

  datatype Field = Field(number: Int32, wireType: nat, varint: Int64, bytes: Option<Octets>)

  function Drop(b: Octets, n: nat): (r: Octets)
    ensures |r| <= |b|
  {
    if n <= |b| then b[n..] else []
  }

  /** A slice whose length is read as a 32-bit integer; a negative or too long one throws. */
  function TakeSlice(b: Octets): (r: Option<(Octets, Octets)>)
    ensures r.Some? ==> |r.value.1| < |b|
  {
    var (v, b1) :- TakeLong(b);
    SliceOf(b1, ToInt32(v))
  }

  function SliceOf(b: Octets, len: Int32): (r: Option<(Octets, Octets)>)
    ensures r.Some? ==> |r.value.1| <= |b|
  {
    if 0 <= len <= |b| then Some((b[..len], b[len..])) else None
  }

  /** Skipping `n` bytes in an array of length `size`. A position past the 32-bit range wraps to a negative one,
      and the next read throws. */
  function Skip(b: Octets, n: nat, size: nat): (r: Option<Octets>)
    ensures r.Some? ==> |r.value| <= |b|
  {
    if size - |b| + n > ARRAY_MAX then None else Some(Drop(b, n))
  }

  /** What one round of the reader's loop finds: a field and what follows, or a wire type that ends it. */
  datatype Item = Item(field: Field, rest: Octets) | Stop

  function TakeItem(b: Octets, size: nat): (r: Option<Item>)
    ensures r.Some? && r.value.Item? ==> |r.value.rest| < |b|
  {
    var (tag, b1) :- TakeLong(b);
    var number := TagNumber(tag);
    match TagWireType(tag)
    case 0 =>
      var (v, b2) :- TakeLong(b1);
      Some(Item(Field(number, 0, v, None), b2))
    case 2 =>
      var (slice, b2) :- TakeSlice(b1);
      Some(Item(Field(number, 2, 0, Some(slice)), b2))
    case 5 =>
      var b2 :- Skip(b1, 4, size);
      Some(Item(Field(number, 5, 0, None), b2))
    case 1 =>
      var b2 :- Skip(b1, 8, size);
      Some(Item(Field(number, 1, 0, None), b2))
    case _ => Some(Stop)
  }

  /** What the reader returns for the rest `b` of an array of length `size`, or none when it throws. */
  function FieldsFrom(b: Octets, size: nat): Option<seq<Field>>
    decreases |b|
  {
    if b == [] then
      Some([])
    else
      match TakeItem(b, size)
      case None => None
      case Some(Stop) => Some([])
      case Some(Item(field, rest)) => Prepend([field], FieldsFrom(rest, size))
  }

  function Fields(b: Octets): Option<seq<Field>> {
    FieldsFrom(b, |b|)
  }

  function Prepend(done: seq<Field>, more: Option<seq<Field>>): Option<seq<Field>> {
    if more.None? then None else Some(done + more.value)
  }

  lemma PrependAssoc(a: seq<Field>, b: seq<Field>, more: Option<seq<Field>>)
    ensures Prepend(a, Prepend(b, more)) == Prepend(a + b, more)
    ensures Prepend([], more) == more
  {
    if more.Some? {
      assert a + (b + more.value) == a + b + more.value;
      assert [] + more.value == more.value;
    }
  }

  // --- writing ---

  datatype Written = VarintField(field: Int32, value: Int64) | BytesField(field: Int32, bytes: Octets)

  function Put(w: Written): Octets {
    match w
    case VarintField(field, value) => Varint(Pattern64(Tag(field, 0))) + Varint(Pattern64(value))
    case BytesField(field, bytes) =>
      if bytes == [] then
        []
      else
        Varint(Pattern64(Tag(field, 2))) + Varint(|bytes|) + bytes
  }

  function PutAll(ws: seq<Written>): Octets {
    if ws == [] then [] else PutAll(ws[..|ws| - 1]) + Put(ws[|ws| - 1])
  }

  /** A written field as the reader reports it. */
  function AsRead(w: Written): Field {
    match w
    case VarintField(field, value) => Field(field, 0, value, None)
    case BytesField(field, bytes) => Field(field, 2, 0, Some(bytes))
  }

  /** The fields written, empty byte fields omitted. */
  function Present(ws: seq<Written>): seq<Field> {
    if ws == [] then
      []
    else
      Present(ws[..|ws| - 1]) + PresentOne(ws[|ws| - 1])
  }

  /** Field numbers the tag can carry, and byte arrays an array can hold. */
  predicate Writable(w: Written) {
    && -0x1000_0000 <= w.field < 0x1000_0000
    && (w.BytesField? ==> |w.bytes| <= ARRAY_MAX)
  }

  lemma SmallNumber(n: nat)
    requires n <= ARRAY_MAX
    ensures Pattern64(n) == n && ToInt32(n) == n
  {
  }

  lemma TakeSliceOf(x: Octets, rest: Octets)
    requires |x| <= ARRAY_MAX
    ensures TakeSlice(Varint(|x|) + x + rest) == Some((x, rest))
  {
    Assoc(Varint(|x|), x, rest);
    VarintRoundTrip(|x|, x + rest);
    SmallNumber(|x|);
    TakeBytesOf(x, rest);
  }

  lemma TakeItemOf(w: Written, rest: Octets, size: nat)
    requires Writable(w) && !(w.BytesField? && w.bytes == [])
    ensures TakeItem(Put(w) + rest, size) == Some(Item(AsRead(w), rest))
    ensures Put(w) != []
  {
    match w
    case VarintField(field, value) =>
      TagSurvivesIff(field, 0);
      Assoc(Varint(Pattern64(Tag(field, 0))), Varint(Pattern64(value)), rest);
      VarintRoundTrip(Tag(field, 0), Varint(Pattern64(value)) + rest);
      VarintRoundTrip(value, rest);
    case BytesField(field, bytes) =>
      TagSurvivesIff(field, 2);
      Assoc(Varint(Pattern64(Tag(field, 2))) + Varint(|bytes|), bytes, rest);
      Assoc(Varint(Pattern64(Tag(field, 2))), Varint(|bytes|), bytes + rest);
      Assoc(Varint(|bytes|), bytes, rest);
      VarintRoundTrip(Tag(field, 2), Varint(|bytes|) + bytes + rest);
      TakeSliceOf(bytes, rest);
  }

  lemma FieldsOfItem(b: Octets, f: Field, rest: Octets, size: nat)
    requires b != [] && TakeItem(b, size) == Some(Item(f, rest))
    ensures FieldsFrom(b, size) == Prepend([f], FieldsFrom(rest, size))
  {
  }

  lemma {:induction false} FieldsAppend(ws: seq<Written>, rest: Octets, size: nat)
    requires forall w <- ws :: Writable(w)
    ensures FieldsFrom(PutAll(ws) + rest, size) == Prepend(Present(ws), FieldsFrom(rest, size))
  {
    if ws == [] {
      assert PutAll(ws) + rest == rest;
      PrependAssoc([], [], FieldsFrom(rest, size));
    } else {
      var front, w := ws[..|ws| - 1], ws[|ws| - 1];
      assert w in ws;
      FieldsAppend(front, Put(w) + rest, size);
      Assoc(PutAll(front), Put(w), rest);
      assert PutAll(ws) + rest == PutAll(front) + (Put(w) + rest);
      FieldsOfOne(w, rest, size);
      PrependAssoc(Present(front), PresentOne(w), FieldsFrom(rest, size));
    }
  }

  function PresentOne(w: Written): seq<Field> {
    if w.BytesField? && w.bytes == [] then [] else [AsRead(w)]
  }

  lemma FieldsOfOne(w: Written, rest: Octets, size: nat)
    requires Writable(w)
    ensures FieldsFrom(Put(w) + rest, size) == Prepend(PresentOne(w), FieldsFrom(rest, size))
  {
    if w.BytesField? && w.bytes == [] {
      assert Put(w) + rest == rest;
      PrependAssoc([], [], FieldsFrom(rest, size));
    } else {
      TakeItemOf(w, rest, size);
      FieldsOfItem(Put(w) + rest, AsRead(w), rest, size);
    }
  }

  /** Reading what was written gives the written fields in order, minus empty byte fields. */
  lemma FieldsRoundTrip(ws: seq<Written>)
    requires forall w <- ws :: Writable(w)
    ensures Fields(PutAll(ws)) == Some(Present(ws))
  {
    FieldsAppend(ws, [], |PutAll(ws)|);
    assert PutAll(ws) + [] == PutAll(ws);
    assert Present(ws) + [] == Present(ws);
  }

  // --- what was written by others ---

  /** A fixed-width field is passed over, four bytes for wire type 5 and eight for wire type 1, or what there is of
      them; it throws exactly when that takes the position past the 32-bit range. */
  lemma FixedWidthSkipped(field: Int32, wide: bool, rest: Octets, size: nat)
    requires -0x1000_0000 <= field < 0x1000_0000 && |rest| <= size
    ensures
      var wireType: nat, width: nat := if wide then 1 else 5, if wide then 8 else 4;
      var item := TakeItem(Varint(Pattern64(Tag(field, wireType))) + rest, size);
      && (item.None? <==> size - |rest| + width > 0x7FFF_FFFF)
      && (item.Some? ==> item == Some(
            Item(Field(field, wireType, 0, None), if |rest| < width then [] else rest[width..])))
  {
    var wireType: nat := if wide then 1 else 5;
    TagSurvivesIff(field, wireType);
    VarintRoundTrip(Tag(field, wireType), rest);
  }

  /** The wire types 3, 4, 6 and 7 end the reading; what was read before is kept. */
  lemma OtherWireTypesEnd(field: Int32, wireType: nat, rest: Octets, size: nat)
    requires wireType == 3 || wireType == 4 || wireType == 6 || wireType == 7
    ensures FieldsFrom(Varint(Pattern64(Tag(field, wireType))) + rest, size) == Some([])
  {
    TagSurvivesIff(field, wireType);
    VarintRoundTrip(Tag(field, wireType), rest);
  }

  /** A length-delimited field is read if and only if its length, cut to 32 bits, is not negative and not more than
      what is left; it then takes exactly that many bytes. */
  lemma LengthDelimitedIff(field: Int32, len: Int64, rest: Octets, size: nat)
    requires -0x1000_0000 <= field < 0x1000_0000
    ensures
      var b := Varint(Pattern64(Tag(field, 2))) + (Varint(Pattern64(len)) + rest);
      var n := ToInt32(len);
      && (TakeItem(b, size).Some? <==> 0 <= n <= |rest|)
      && (0 <= n <= |rest| ==> TakeItem(b, size) == Some(Item(Field(field, 2, 0, Some(rest[..n])), rest[n..])))
  {
    TagSurvivesIff(field, 2);
    VarintRoundTrip(Tag(field, 2), Varint(Pattern64(len)) + rest);
    VarintRoundTrip(len, rest);
  }

  /** The low 32 bits of a 64-bit number, as a signed number. */
  lemma ToInt32Congruent(v: Int64)
    ensures exists k: int :: v == ToInt32(v) + k * TWO32
  {
    var q, r := Pattern64(v) / TWO32, Pattern64(v) % TWO32;
    var borrow := if v < 0 then TWO32 else 0;
    var carry := if r < 0x8000_0000 then 0 else 1;
    assert v == q * TWO32 + r - borrow * TWO32;
    assert v == ToInt32(v) + (q - borrow + carry) * TWO32;
  }

  // --- the classes ---

  class Writer {
    var out: Octets

    constructor ()
      ensures out == PutAll([])
    {
      out := [];
    }

    method VarintField(field: Int32, value: Int64)
      modifies this
      ensures out == old(out) + Put(Written.VarintField(field, value))
    {
      WriteTag(field, 0);
      WriteVarint(value);
      Assoc(old(out), Varint(Pattern64(Tag(field, 0))), Varint(Pattern64(value)));
    }

    method BytesField(field: Int32, value: Octets)
      requires |value| <= ARRAY_MAX
      modifies this
      ensures out == old(out) + Put(Written.BytesField(field, value))
    {
      if value == [] {
        return;
      }
      WriteTag(field, 2);
      WriteVarint(|value|);
      out := out + value;
      Assoc(old(out), Varint(Pattern64(Tag(field, 2))), Varint(|value|));
      Assoc(old(out), Varint(Pattern64(Tag(field, 2))) + Varint(|value|), value);
    }

    method StringField(field: Int32, value: Utf16.Utf16String)
      requires |Utf16.ToUtf8(value)| <= ARRAY_MAX
      modifies this
      ensures out == old(out) + Put(Written.BytesField(field, Utf16.ToUtf8(value)))
    {
      BytesField(field, Utf16.ToUtf8(value));
    }

    method WriteTag(field: Int32, wireType: nat)
      requires wireType < 8
      modifies this
      ensures out == old(out) + Varint(Pattern64(Tag(field, wireType)))
    {
      WriteVarint(Tag(field, wireType));
    }

    method WriteVarint(v: Int64)
      modifies this
      ensures out == old(out) + Varint(Pattern64(v))
    {
      var value := Pattern64(v);
      while true
        invariant out + Varint(value) == old(out) + Varint(Pattern64(v))
        decreases value
      {
        var b: u8 := value % 128;
        ghost var before, whole := out, value;
        value := value / 128;
        if value == 0 {
          out := out + [b];
          break;
        } else {
          out := out + [b + 128];
          Assoc(before, [b + 128], Varint(value));
          assert Varint(whole) == [b + 128] + Varint(value);
        }
      }
    }
  }

  class Reader {
    const buf: Octets
    var pos: nat

    constructor (buf: Octets)
      ensures this.buf == buf && pos == 0
    {
      this.buf := buf;
      pos := 0;
    }

    /** What is left to read; a fixed-width field may skip past the end. */
    function Rest(): Octets
      reads this
    {
      Drop(buf, pos)
    }

    method ReadVarint() returns (r: Option<Int64>)
      modifies this
      ensures r.Some? <==> TakeLong(old(Rest())).Some?
      ensures r.Some? ==> TakeLong(old(Rest())) == Some((r.value, Rest())) && pos <= |buf|
    {
      var shift: nat, result: nat := 0, 0;
      while true
        invariant result < TWO64
        invariant TakeVarint(Rest(), shift, result) == TakeVarint(old(Rest()), 0, 0)
        decreases |Rest()|
      {
        if pos >= |buf| {
          return None;
        }
        var b := buf[pos];
        assert Rest()[1..] == buf[pos + 1..];
        pos := pos + 1;
        result := Accumulate(result, b, shift);
        if b < 128 {
          break;
        }
        shift := shift + 7;
      }
      r := Some(FromPattern64(result));
    }

    method ReadSlice() returns (r: Option<Octets>)
      modifies this
      ensures r.Some? <==> TakeSlice(old(Rest())).Some?
      ensures r.Some? ==> TakeSlice(old(Rest())) == Some((r.value, Rest()))
    {
      var v :- ReadVarint();
      var len := ToInt32(v);
      if len < 0 || pos + len > |buf| {
        return None;
      }
      r := Some(buf[pos..pos + len]);
      assert Rest()[..len] == r.value && Rest()[len..] == buf[pos + len..];
      pos := pos + len;
    }

    /** One round of the loop below: the field it adds, or the wire type that ends it. */
    method ReadItem() returns (r: Option<Option<Field>>)
      modifies this
      ensures r.Some? <==> TakeItem(old(Rest()), |buf|).Some?
      ensures r.Some? ==>
        TakeItem(old(Rest()), |buf|).value == if r.value.None? then Stop else Item(r.value.value, Rest())
    {
      var tag :- ReadVarint();
      var number := TagNumber(tag);
      var wireType := TagWireType(tag);
      if wireType == 0 {
        var v :- ReadVarint();
        return Some(Some(Field(number, 0, v, None)));
      } else if wireType == 2 {
        var slice :- ReadSlice();
        return Some(Some(Field(number, 2, 0, Some(slice))));
      } else if wireType == 5 {
        // Past the 32-bit range the position is negative, and the next read throws.
        if pos + 4 > ARRAY_MAX {
          return None;
        }
        assert Drop(Rest(), 4) == Drop(buf, pos + 4);
        pos := pos + 4;
        return Some(Some(Field(number, 5, 0, None)));
      } else if wireType == 1 {
        if pos + 8 > ARRAY_MAX {
          return None;
        }
        assert Drop(Rest(), 8) == Drop(buf, pos + 8);
        pos := pos + 8;
        return Some(Some(Field(number, 1, 0, None)));
      }
      return Some(None);
    }

    /** The fields read, or none when the reader throws. */
    method ReadFields() returns (r: Option<seq<Field>>)
      modifies this
      ensures r == FieldsFrom(old(Rest()), |buf|)
    {
      var result: seq<Field> := [];
      PrependAssoc([], [], FieldsFrom(Rest(), |buf|));
      while pos < |buf|
        invariant Prepend(result, FieldsFrom(Rest(), |buf|)) == FieldsFrom(old(Rest()), |buf|)
        decreases |Rest()|
      {
        ghost var b := Rest();
        var item :- ReadItem();
        if item.None? {
          assert FieldsFrom(b, |buf|) == Some([]) && result + [] == result;
          return Some(result);
        }
        PrependAssoc(result, [item.value], FieldsFrom(Rest(), |buf|));
        result := result + [item.value];
      }
      assert Rest() == [] && result + [] == result;
      return Some(result);
    }
  }
}

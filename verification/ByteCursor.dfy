/** The cursor every reader advances over its input. */
module ByteCursor {
  import opened Wrappers
  import opened Bytes

  class Cursor {
    const b: Octets
    var pos: nat

    predicate Valid()
      reads this
    {
      pos <= |b|
    }

    /** What is left to read. */
    function Rest(): Octets
      requires Valid()
      reads this
    {
      b[pos..]
    }

    constructor (b: Octets)
      ensures Valid() && Rest() == b
    {
      this.b := b;
      pos := 0;
    }

    method Take(n: nat) returns (r: Option<Octets>)
      requires Valid()
      modifies this
      ensures Valid()
      ensures r.Some? <==> TakeBytes(old(Rest()), n).Some?
      ensures r.Some? ==> TakeBytes(old(Rest()), n) == Some((r.value, Rest()))
    {
      if pos + n > |b| {
        return None;
      }
      r := Some(b[pos..pos + n]);
      assert b[pos..][..n] == b[pos..pos + n];
      assert b[pos..][n..] == b[pos + n..];
      pos := pos + n;
    }

    method Uint32() returns (r: Option<nat>)
      requires Valid()
      modifies this
      ensures Valid()
      ensures r.Some? <==> TakeU32(old(Rest())).Some?
      ensures r.Some? ==> TakeU32(old(Rest())) == Some((r.value, Rest()))
    {
      var x :- Take(4);
      r := Some(U32FromBytes(x));
    }

    method Field() returns (r: Option<Octets>)
      requires Valid()
      modifies this
      ensures Valid()
      ensures r.Some? <==> TakeField(old(Rest())).Some?
      ensures r.Some? ==> TakeField(old(Rest())) == Some((r.value, Rest()))
    {
      var len :- Uint32();
      r := Take(len);
    }
  }
}

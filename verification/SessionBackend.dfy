/** The engine's session store: opaque bytes per peer, holding serialized ratchets. */
module SessionBackend {
  import opened Wrappers
  import opened Bytes
  import opened MapEnumeration
  import opened RatchetCodec

  datatype StepError<+E> = NoSession | Corrupt | StepFailed(error: E)

  /** What a map of encodings stands for. */
  function View<V, W>(m: map<Octets, V>, decode: V -> Option<W>): map<Octets, W> {
    map p | p in m && decode(m[p]).Some? :: decode(m[p]).value
  }

  predicate AllDecode<V, W>(m: map<Octets, V>, decode: V -> Option<W>) {
    forall p <- m :: decode(m[p]).Some?
  }

  lemma ViewOfUpdate<V, W>(m: map<Octets, V>, decode: V -> Option<W>, p: Octets, v: V, w: W)
    requires AllDecode(m, decode) && decode(v) == Some(w)
    ensures AllDecode(m[p := v], decode)
    ensures View(m[p := v], decode) == View(m, decode)[p := w]
  {
  }

  function Decode(blob: Octets): Option<Stored> {
    var (s, _) :- Deserialized(blob);
    Some(s)
  }

  class Backend {
    var blobs: map<Octets, Octets>

    /** Every blob is a serialized session. */
    predicate Valid()
      reads this
    {
      AllDecode(blobs, Decode)
    }

    /** The sessions the blobs stand for. */
    function Sessions(): map<Octets, Stored>
      reads this
    {
      View(blobs, Decode)
    }

    constructor ()
      ensures Valid() && Sessions() == map[]
    {
      blobs := map[];
    }

    method Save(peer: Octets, s: Stored)
      requires Valid() && Sized(s)
      modifies this
      ensures Valid() && Sessions() == old(Sessions())[peer := s]
    {
      var blob := Serialize(s);
      ghost var order :| Enumerates(order, s.skipped) && blob == Serialized(s, order);
      RoundTrip(s, order, []);
      assert blob + [] == blob;
      ViewOfUpdate(blobs, Decode, peer, blob, s);
      blobs := blobs[peer := blob];
    }

    method Load(peer: Octets) returns (r: Option<Octets>)
      ensures r == (if peer in blobs then Some(blobs[peer]) else None)
    {
      r := if peer in blobs then Some(blobs[peer]) else None;
    }

    /** Load, deserialize, step, serialize, save: on the sessions the store stands for, exactly a
        step of the in-memory ratchet when the step succeeds, and no change at all when it fails. */
    method Transact<T, E>(peer: Octets, step: Stored -> (Stored, Result<T, E>)) returns (r: Result<T, StepError<E>>)
      requires Valid()
      requires peer in Sessions() && step(Sessions()[peer]).1.Ok? ==> Sized(step(Sessions()[peer]).0)
      modifies this
      ensures Valid()
      ensures
        if peer !in old(Sessions()) then
          r == Err(NoSession) && blobs == old(blobs)
        else
          match step(old(Sessions())[peer])
          case (s', Ok(v)) => r == Ok(v) && Sessions() == old(Sessions())[peer := s']
          case (_, Err(e)) => r == Err(StepFailed(e)) && blobs == old(blobs)
    {
      var blob := Load(peer);
      if blob.None? {
        return Err(NoSession);
      }
      var session := Deserialize(blob.value);
      if session.None? {
        return Err(Corrupt);
      }
      DeserializedSized(blob.value);
      var (next, out) := step(session.value);
      if out.Err? {
        return Err(StepFailed(out.error));
      }
      Save(peer, next);
      r := Ok(out.value);
    }
  }
}

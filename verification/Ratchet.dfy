/** The Double Ratchet (sections 3.3 to 3.5 of the Double Ratchet specification), over any suite of
    primitives. */
module Ratchet {
  import opened Wrappers
  import opened Bytes
  import opened Crypto
  import opened MapEnumeration
  import opened Sessions

  // --- what each operation does to the state ---

  function InitiatorState<K, C>(p: Suite<K, C>, sk: K, theirPrekey: K, seed: K): Session<K> {
    var (rk, cks) := p.kdfRk(sk, p.dh(seed, theirPrekey));
    Session(seed, p.public(seed), Some(theirPrekey), rk, Some(cks), None, 0, 0, 0, map[])
  }

  function ResponderState<K, C>(p: Suite<K, C>, sk: K, spkSecret: K): Session<K> {
    Session(spkSecret, p.public(spkSecret), None, sk, None, None, 0, 0, 0, map[])
  }

  function AfterEncrypt<K, C>(p: Suite<K, C>, s: Session<K>, plaintext: Octets, ad: Octets)
    : (Session<K>, Result<(Header<K>, C), CryptoError>)
  {
    if s.cks.None? then
      (s, Err(Malformed))
    else
      var (next, mk) := p.kdfCk(s.cks.value);
      var header := Header(s.dhsPublic, s.pn, s.ns);
      (s.(cks := Some(next), ns := s.ns + 1), Ok((header, p.seal(mk, plaintext, ad, header))))
  }

  /** `skipped` with the keys of indices `nr` to `until` of the chain at `ck` added. */
  function Stash<K, C>(
    p: Suite<K, C>, skipped: map<(K, nat), MessageKey<K>>, dhr: K, ck: K, nr: nat, until: nat)
    : map<(K, nat), MessageKey<K>>
    decreases until - nr
  {
    if nr < until then
      Stash(p, skipped[(dhr, nr) := p.kdfCk(ck).1], dhr, p.kdfCk(ck).0, nr + 1, until)
    else
      skipped
  }

  function AfterSkip<K, C>(p: Suite<K, C>, s: Session<K>, until: nat): (Session<K>, Result<Unit, CryptoError>)
    requires s.ckr.Some? ==> s.dhr.Some?
  {
    if s.ckr.None? then
      (s, Ok(Unit))
    else if s.nr + MAX_SKIP < until then
      (s, Err(TooManySkipped))
    else
      (s.(skipped := Stash(p, s.skipped, s.dhr.value, s.ckr.value, s.nr, until),
          ckr := Some(Steps(p, s.ckr.value, Max(s.nr, until) - s.nr)),
          nr := Max(s.nr, until)),
       Ok(Unit))
  }

  function AfterDhRatchet<K, C>(p: Suite<K, C>, s: Session<K>, dh: K, seed: K): Session<K> {
    var (rk1, ckr) := p.kdfRk(s.rk, p.dh(s.dhsSecret, dh));
    var (rk2, cks) := p.kdfRk(rk1, p.dh(seed, dh));
    s.(dhsSecret := seed, dhsPublic := p.public(seed), dhr := Some(dh), rk := rk2,
       cks := Some(cks), ckr := Some(ckr), ns := 0, nr := 0, pn := s.ns)
  }

  /** The last part of decryption: skip within the current chain and use the next key. */
  function AfterReceive<K, C>(p: Suite<K, C>, s: Session<K>, header: Header<K>, c: C, ad: Octets)
    : (Session<K>, Result<Octets, CryptoError>)
    requires s.ckr.Some? ==> s.dhr.Some?
  {
    var (s', skip) := AfterSkip(p, s, header.n);
    if skip.Err? then
      (s', Err(skip.error))
    else if s'.ckr.None? then
      (s', Err(Malformed))
    else
      var (next, mk) := p.kdfCk(s'.ckr.value);
      (s'.(ckr := Some(next), nr := s'.nr + 1), p.open(mk, c, ad, header))
  }

  /** Decryption of one message; the state changes even when the result is an error.
      `seed` is the key a Diffie-Hellman step draws. */
  function AfterDecrypt<K, C>(p: Suite<K, C>, s: Session<K>, header: Header<K>, c: C, ad: Octets, seed: K)
    : (Session<K>, Result<Octets, CryptoError>)
    requires s.ckr.Some? ==> s.dhr.Some?
  {
    if (header.dh, header.n) in s.skipped then
      (s.(skipped := s.skipped - {(header.dh, header.n)}),
       p.open(s.skipped[(header.dh, header.n)], c, ad, header))
    else if s.dhr == Some(header.dh) then
      AfterReceive(p, s, header, c, ad)
    else
      var (s', skip) := AfterSkip(p, s, header.pn);
      if skip.Err? then
        (s', Err(skip.error))
      else
        AfterReceive(p, AfterDhRatchet(p, s', header.dh, seed), header, c, ad)
  }

  // --- how much a message can store ---

  lemma {:induction false} StashSize<K, C>(
    p: Suite<K, C>, skipped: map<(K, nat), MessageKey<K>>, dhr: K, ck: K, nr: nat, until: nat)
    ensures |Stash(p, skipped, dhr, ck, nr, until)| <= |skipped| + (Max(nr, until) - nr)
    decreases until - nr
  {
    if nr < until {
      var next := skipped[(dhr, nr) := p.kdfCk(ck).1];
      assert next.Keys == skipped.Keys + {(dhr, nr)};
      assert |next.Keys| <= |skipped.Keys| + 1;
      StashSize(p, next, dhr, p.kdfCk(ck).0, nr + 1, until);
    }
  }

  lemma SkipBound<K, C>(p: Suite<K, C>, s: Session<K>, until: nat)
    requires s.ckr.Some? ==> s.dhr.Some?
    ensures
      var s' := AfterSkip(p, s, until).0;
      && s.nr <= s'.nr <= s.nr + MAX_SKIP
      && |s'.skipped| <= |s.skipped| + (s'.nr - s.nr)
      && (s.ckr.Some? ==> s'.ckr == Some(Steps(p, s.ckr.value, s'.nr - s.nr)))
  {
    if s.ckr.Some? {
      StashSize(p, s.skipped, s.dhr.value, s.ckr.value, s.nr, until);
    }
  }

  /** Whatever the message, one decryption stores at most MAX_SKIP keys of the old chain and
      MAX_SKIP of the new one, so the store cannot be grown without bound by one message. */
  lemma DecryptSkipBound<K, C>(p: Suite<K, C>, s: Session<K>, header: Header<K>, c: C, ad: Octets, seed: K)
    requires s.ckr.Some? ==> s.dhr.Some?
    ensures |AfterDecrypt(p, s, header, c, ad, seed).0.skipped| <= |s.skipped| + 2 * MAX_SKIP
    ensures AfterDecrypt(p, s, header, c, ad, seed).0.nr <= s.nr + MAX_SKIP + 1
    ensures s.dhr == Some(header.dh) ==>
      |AfterDecrypt(p, s, header, c, ad, seed).0.skipped| <= |s.skipped| + MAX_SKIP
  {
    if (header.dh, header.n) in s.skipped {
      assert (s.skipped - {(header.dh, header.n)}).Keys <= s.skipped.Keys;
      SubsetSize((s.skipped - {(header.dh, header.n)}).Keys, s.skipped.Keys);
    } else if s.dhr == Some(header.dh) {
      SkipBound(p, s, header.n);
    } else {
      SkipBound(p, s, header.pn);
      SkipBound(p, AfterDhRatchet(p, AfterSkip(p, s, header.pn).0, header.dh, seed), header.n);
    }
  }

  // --- the object ---

  class Ratchet<K(==), C> {
    const p: Suite<K, C>
    var dhsSecret: K
    var dhsPublic: K
    var dhr: Option<K>
    var rk: K
    var cks: Option<K>
    var ckr: Option<K>
    var ns: u32
    var nr: u32
    var pn: u32
    var skipped: map<(K, nat), MessageKey<K>>

    function Value(): Session<K>
      reads this
    {
      Session(dhsSecret, dhsPublic, dhr, rk, cks, ckr, ns, nr, pn, skipped)
    }

    /** A receiving chain has a remote key, and no 32-bit counter is near its end. */
    predicate Valid()
      reads this
    {
      && (ckr.Some? ==> dhr.Some?)
      && ns < U32_MAX
      && nr + MAX_SKIP < U32_MAX
    }

    constructor InitInitiator(p: Suite<K, C>, sk: K, theirPrekey: K, seed: K)
      ensures Valid() && this.p == p && Value() == InitiatorState(p, sk, theirPrekey, seed)
    {
      this.p := p;
      var dhOut := p.dh(seed, theirPrekey);
      var (root, chain) := p.kdfRk(sk, dhOut);
      dhsSecret, dhsPublic := seed, p.public(seed);
      dhr := Some(theirPrekey);
      rk, cks, ckr := root, Some(chain), None;
      ns, nr, pn := 0, 0, 0;
      skipped := map[];
    }

    constructor InitResponder(p: Suite<K, C>, sk: K, spkSecret: K)
      ensures Valid() && this.p == p && Value() == ResponderState(p, sk, spkSecret)
    {
      this.p := p;
      dhsSecret, dhsPublic := spkSecret, p.public(spkSecret);
      dhr := None;
      rk, cks, ckr := sk, None, None;
      ns, nr, pn := 0, 0, 0;
      skipped := map[];
    }

    /** Restores a stored state. */
    constructor FromValue(p: Suite<K, C>, s: Session<K>)
      requires s.ns <= U32_MAX && s.nr <= U32_MAX && s.pn <= U32_MAX
      ensures this.p == p && Value() == s
    {
      this.p := p;
      dhsSecret, dhsPublic := s.dhsSecret, s.dhsPublic;
      dhr := s.dhr;
      rk, cks, ckr := s.rk, s.cks, s.ckr;
      ns, nr, pn := s.ns, s.nr, s.pn;
      skipped := s.skipped;
    }

    method Encrypt(plaintext: Octets, ad: Octets) returns (r: Result<(Header<K>, C), CryptoError>)
      requires ns < U32_MAX
      modifies this
      ensures (Value(), r) == AfterEncrypt(p, old(Value()), plaintext, ad)
    {
      if cks.None? {
        return Err(Malformed);
      }
      var (next, mk) := p.kdfCk(cks.value);
      cks := Some(next);
      var header := Header(dhsPublic, pn, ns);
      ns := ns + 1;
      r := Ok((header, p.seal(mk, plaintext, ad, header)));
    }

    method Decrypt(header: Header<K>, c: C, ad: Octets, seed: K)
      returns (r: Result<Octets, CryptoError>)
      requires Valid()
      modifies this
      ensures (Value(), r) == AfterDecrypt(p, old(Value()), header, c, ad, seed)
    {
      if (header.dh, header.n) in skipped {
        var mk := skipped[(header.dh, header.n)];
        skipped := skipped - {(header.dh, header.n)};
        return p.open(mk, c, ad, header);
      }
      if dhr != Some(header.dh) {
        var skip := SkipMessageKeys(header.pn);
        if skip.Err? {
          return Err(skip.error);
        }
        DhRatchet(header.dh, seed);
      }
      r := Receive(header, c, ad);
    }

    /** The last part of decryption, on the current chain. */
    method Receive(header: Header<K>, c: C, ad: Octets) returns (r: Result<Octets, CryptoError>)
      requires Valid()
      modifies this`skipped, this`ckr, this`nr
      ensures (Value(), r) == AfterReceive(p, old(Value()), header, c, ad)
    {
      var skip := SkipMessageKeys(header.n);
      if skip.Err? {
        return Err(skip.error);
      }
      if ckr.None? {
        return Err(Malformed);
      }
      var (next, mk) := p.kdfCk(ckr.value);
      ckr := Some(next);
      nr := nr + 1;
      r := p.open(mk, c, ad, header);
    }

    method SkipMessageKeys(until: nat) returns (r: Result<Unit, CryptoError>)
      requires Valid()
      modifies this`skipped, this`ckr, this`nr
      ensures (Value(), r) == AfterSkip(p, old(Value()), until)
    {
      if ckr.None? {
        return Ok(Unit);
      }
      var limit: u32 := nr + MAX_SKIP;
      if limit < until {
        return Err(TooManySkipped);
      }
      var ck := ckr.value;
      while nr < until
        invariant old(nr) <= nr <= Max(old(nr), until)
        invariant ck == Steps(p, old(ckr.value), nr - old(nr))
        invariant Stash(p, skipped, dhr.value, ck, nr, until)
          == Stash(p, old(skipped), dhr.value, old(ckr.value), old(nr), until)
      {
        var (next, mk) := p.kdfCk(ck);
        skipped := skipped[(dhr.value, nr) := mk];
        ck := next;
        nr := nr + 1;
      }
      ckr := Some(ck);
      r := Ok(Unit);
    }

    method DhRatchet(dh: K, seed: K)
      modifies this
      ensures Value() == AfterDhRatchet(p, old(Value()), dh, seed)
    {
      pn := ns;
      ns := 0;
      nr := 0;
      dhr := Some(dh);

      var dhOut := p.dh(dhsSecret, dh);
      var (rk1, chain1) := p.kdfRk(rk, dhOut);
      rk := rk1;
      ckr := Some(chain1);

      dhsSecret := seed;
      dhsPublic := p.public(seed);

      var dhOut2 := p.dh(dhsSecret, dh);
      var (rk2, chain2) := p.kdfRk(rk, dhOut2);
      rk := rk2;
      cks := Some(chain2);
    }
  }
}

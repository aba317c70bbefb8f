/** The ratchet on bytes: every step keeps the widths its stored form needs. */
module ByteSuite {
  import opened Wrappers
  import opened Bytes
  import opened Crypto
  import opened Sessions
  import opened MapEnumeration
  import opened RatchetCodec
  import Ratchet

  /** Primitives on bytes: ciphertexts are bytes too. */
  type ByteSuite = Suite<Octets, Octets>

  /** Keys are 32 bytes and nonces 12. */
  ghost predicate SuiteSized(p: ByteSuite) {
    && (forall k :: |p.public(k)| == 32)
    && (forall a, b, c :: |p.sharedSecret(a, b, c)| == 32)
    && (forall rk, input :: |p.kdfRk(rk, input).0| == 32 && |p.kdfRk(rk, input).1| == 32)
    && (forall ck :: |p.kdfCk(ck).0| == 32 && |p.kdfCk(ck).1.key| == 32 && |p.kdfCk(ck).1.nonce| == 12)
  }

  lemma InitiatorSized(p: ByteSuite, sk: Octets, theirPrekey: Octets, seed: Octets)
    requires SuiteSized(p) && |theirPrekey| == 32 && |seed| == 32
    ensures Sized(Ratchet.InitiatorState(p, sk, theirPrekey, seed))
  {
  }

  lemma ResponderSized(p: ByteSuite, sk: Octets, spkSecret: Octets)
    requires SuiteSized(p) && |sk| == 32 && |spkSecret| == 32
    ensures Sized(Ratchet.ResponderState(p, sk, spkSecret))
  {
  }

  /** Encryption keeps a session serializable. */
  lemma EncryptSized(p: ByteSuite, s: Stored, plaintext: Octets, ad: Octets)
    requires SuiteSized(p) && Sized(s) && s.ns < U32_MAX
    ensures Sized(Ratchet.AfterEncrypt(p, s, plaintext, ad).0)
  {
  }

  lemma {:induction false} StepsSized(p: ByteSuite, ck: Octets, n: nat)
    requires SuiteSized(p) && |ck| == 32
    ensures |Steps(p, ck, n)| == 32
  {
  }

  /** All stored keys have their widths. */
  predicate TableSized(skipped: map<(Octets, nat), MessageKey<Octets>>) {
    forall k <- skipped :: SizedEntry((k, skipped[k]))
  }

  lemma {:induction false} StashSized(
    p: ByteSuite, skipped: map<(Octets, nat), MessageKey<Octets>>, dhr: Octets, ck: Octets, nr: nat, until: nat)
    requires SuiteSized(p) && TableSized(skipped) && |dhr| == 32 && until <= U32_MAX
    ensures TableSized(Ratchet.Stash(p, skipped, dhr, ck, nr, until))
    decreases until - nr
  {
    if nr < until {
      StashSized(p, skipped[(dhr, nr) := p.kdfCk(ck).1], dhr, p.kdfCk(ck).0, nr + 1, until);
    }
  }

  /** What a decryption relies on: widths, and room for `room` more keys. */
  predicate Fit(s: Stored, room: nat) {
    && |s.dhsSecret| == |s.dhsPublic| == |s.rk| == 32
    && SizedOption(s.dhr) && SizedOption(s.cks) && SizedOption(s.ckr)
    && s.ns <= U32_MAX && s.nr + MAX_SKIP < U32_MAX && s.pn <= U32_MAX
    && |s.skipped| + room <= U32_MAX && TableSized(s.skipped)
    && (s.ckr.Some? ==> s.dhr.Some?)
  }

  lemma SkipFit(p: ByteSuite, s: Stored, until: nat, room: nat)
    requires SuiteSized(p) && Fit(s, room + MAX_SKIP)
    ensures
      var s' := Ratchet.AfterSkip(p, s, until).0;
      && s' == s.(skipped := s'.skipped, ckr := s'.ckr, nr := s'.nr)
      && SizedOption(s'.ckr) && s'.nr <= s.nr + MAX_SKIP
      && |s'.skipped| + room <= U32_MAX && TableSized(s'.skipped)
      && (s'.ckr.Some? ==> s'.dhr.Some?)
  {
    Ratchet.SkipBound(p, s, until);
    if s.ckr.Some? && until <= s.nr + MAX_SKIP {
      StepsSized(p, s.ckr.value, Max(s.nr, until) - s.nr);
      StashSized(p, s.skipped, s.dhr.value, s.ckr.value, s.nr, until);
    }
  }

  lemma ReceiveSized(p: ByteSuite, s: Stored, header: Header<Octets>, c: Octets, ad: Octets)
    requires SuiteSized(p) && Fit(s, MAX_SKIP)
    ensures Sized(Ratchet.AfterReceive(p, s, header, c, ad).0)
  {
    SkipFit(p, s, header.n, 0);
  }

  /** Decryption keeps a session with room serializable, whatever arrives. */
  lemma DecryptSized(p: ByteSuite, s: Stored, header: Header<Octets>, c: Octets, ad: Octets, seed: Octets)
    requires SuiteSized(p) && Sized(s) && Roomy(s) && (s.ckr.Some? ==> s.dhr.Some?)
    requires |header.dh| == 32 && |seed| == 32
    ensures Sized(Ratchet.AfterDecrypt(p, s, header, c, ad, seed).0)
  {
    if (header.dh, header.n) in s.skipped {
      SubsetSize((s.skipped - {(header.dh, header.n)}).Keys, s.skipped.Keys);
    } else if s.dhr == Some(header.dh) {
      ReceiveSized(p, s, header, c, ad);
    } else {
      SkipFit(p, s, header.pn, MAX_SKIP);
      var s' := Ratchet.AfterSkip(p, s, header.pn).0;
      ReceiveSized(p, Ratchet.AfterDhRatchet(p, s', header.dh, seed), header, c, ad);
    }
  }
}

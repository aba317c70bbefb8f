/** The Double Ratchet over symbolic terms, as the conversation is analysed. */
module SymbolicRatchet {
  import opened Wrappers
  import opened Bytes
  import opened Crypto
  import opened Sessions
  import Ratchet

  type State = Session<Term>

  function InitiatorState(sk: Term, theirPrekey: Term, seed: Term): State {
    Ratchet.InitiatorState(SYMBOLIC, sk, theirPrekey, seed)
  }

  function ResponderState(sk: Term, spkSecret: Term): State {
    Ratchet.ResponderState(SYMBOLIC, sk, spkSecret)
  }

  function AfterEncrypt(s: State, plaintext: Octets, ad: Octets): (State, Result<(Header<Term>, Ciphertext), CryptoError>)
  {
    Ratchet.AfterEncrypt(SYMBOLIC, s, plaintext, ad)
  }

  function Stash(skipped: map<(Term, nat), MessageKey<Term>>, dhr: Term, ck: Term, nr: nat, until: nat)
    : map<(Term, nat), MessageKey<Term>>
  {
    Ratchet.Stash(SYMBOLIC, skipped, dhr, ck, nr, until)
  }

  function AfterSkip(s: State, until: nat): (State, Result<Unit, CryptoError>)
    requires s.ckr.Some? ==> s.dhr.Some?
  {
    Ratchet.AfterSkip(SYMBOLIC, s, until)
  }

  function AfterDhRatchet(s: State, dh: Term, seed: Term): State {
    Ratchet.AfterDhRatchet(SYMBOLIC, s, dh, seed)
  }

  function AfterReceive(s: State, header: Header<Term>, c: Ciphertext, ad: Octets)
    : (State, Result<Octets, CryptoError>)
    requires s.ckr.Some? ==> s.dhr.Some?
  {
    Ratchet.AfterReceive(SYMBOLIC, s, header, c, ad)
  }

  function AfterDecrypt(s: State, header: Header<Term>, c: Ciphertext, ad: Octets, seed: Term)
    : (State, Result<Octets, CryptoError>)
    requires s.ckr.Some? ==> s.dhr.Some?
  {
    Ratchet.AfterDecrypt(SYMBOLIC, s, header, c, ad, seed)
  }

  /** A skip stores exactly the keys of the indices it passes, at the chain steps they have. */
  lemma {:induction false} StashLookup(
    skipped: map<(Term, nat), MessageKey<Term>>, dhr: Term, ck: Term, nr: nat, until: nat, key: (Term, nat))
    ensures
      var out := Stash(skipped, dhr, ck, nr, until);
      if key.0 == dhr && nr <= key.1 < until then
        key in out && out[key] == KdfCk(Advance(ck, key.1 - nr)).1
      else
        (key in out <==> key in skipped) && (key in out ==> out[key] == skipped[key])
    decreases until - nr
  {
    if nr < until {
      StashLookup(skipped[(dhr, nr) := KdfCk(ck).1], dhr, KdfCk(ck).0, nr + 1, until, key);
      if key.0 == dhr && nr < key.1 < until {
        AdvanceAdds(ck, 1, key.1 - nr - 1);
        assert Advance(ck, 1) == NextChainKey(Advance(ck, 0));
      }
    }
  }

  /** Why a message is not decrypted: too far ahead, on a chain that is not there, or else not sealed for the key
      at its place. */
  lemma WhyNotDecrypted(s: State, header: Header<Term>, c: Ciphertext, ad: Octets, seed: Term)
    requires s.ckr.Some? ==> s.dhr.Some?
    ensures
      var r := AfterDecrypt(s, header, c, ad, seed).1;
      var stored, current := (header.dh, header.n) in s.skipped, s.dhr == Some(header.dh);
      var ahead :=
        if current then s.ckr.Some? && header.n > s.nr + 1000
        else (s.ckr.Some? && header.pn > s.nr + 1000) || header.n > 1000;
      && (r == Err(TooManySkipped) <==> !stored && ahead)
      && (r == Err(Malformed) <==> !stored && current && s.ckr.None?)
      && r != Err(BadSignature)
  {
  }
}

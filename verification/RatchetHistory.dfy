/**
 What one stored session knows, relative to the history of the conversation.

 Root-key derivations are numbered.  Derivation `k` mixes the ratchet keys `k - 1` and `k`, and
 starts chain `k`, on which the owner of ratchet key `k` sends.  Ratchet key 0 is the signed
 prekey.  A session at index `i` has made `i` derivations: it sends on chain `i` and receives on
 chain `i - 1`.  The initiator is always at an odd index and the responder at an even one.
 */
module RatchetHistory {
  import opened Wrappers
  import opened Bytes
  import opened Crypto
  import opened Sessions
  import opened SymbolicRatchet

  /** `keys[k]` is the private ratchet key of chain `k`, `sent[k]` the number of messages sent on
      it, and `consumed` the (chain, index) slots already decrypted by their receiver. */
  datatype History = History(sk: Term, keys: seq<Term>, sent: seq<nat>, consumed: set<(nat, nat)>)

  predicate Valid(h: History) {
    && h.sk.X3dhSecret?
    && 1 <= |h.keys| == |h.sent|
    && h.sent[0] == 0
    && (forall i, j :: 0 <= i < j < |h.keys| ==> h.keys[i] != h.keys[j])
  }

  function Root(sk: Term, keys: seq<Term>, k: nat): Term
    requires k < |keys|
  {
    if k == 0 then sk else RootKey(Root(sk, keys, k - 1), Dh({keys[k - 1], keys[k]}))
  }

  function Chain(h: History, k: nat): Term
    requires 1 <= k < |h.keys|
  {
    ChainKey(Root(h.sk, h.keys, k - 1), Dh({h.keys[k - 1], h.keys[k]}))
  }

  function Pub(h: History, k: nat): Term
    requires k < |h.keys|
  {
    Public(h.keys[k])
  }

  /** The key message `n` of chain `k` is sealed under. */
  function KeyAt(h: History, k: nat, n: nat): MessageKey<Term>
    requires 1 <= k < |h.keys|
  {
    KdfCk(Advance(Chain(h, k), n)).1
  }

  /** The final length of the previous chain of the owner of chain `k`. */
  function PreviousCount(h: History, k: nat): nat
    requires k < |h.sent|
  {
    if k >= 2 then h.sent[k - 2] else 0
  }

  function HeaderAt(h: History, k: nat, n: nat): Header<Term>
    requires 1 <= k < |h.keys| == |h.sent|
  {
    Header(Pub(h, k), PreviousCount(h, k), n)
  }

  function SlotKey(h: History, k: nat, n: nat): (Term, nat)
    requires k < |h.keys|
  {
    (Pub(h, k), n)
  }

  /** The chains a session at `idx` has received on, the current one being `idx - 1`. */
  predicate Received(idx: nat, k: nat) {
    1 <= k < idx && (idx - k) % 2 == 1
  }

  /** How far a session at `idx` has followed a chain: to `nr` on the current one, and to the
      sender's final count on every earlier one. */
  function Followed(h: History, s: State, idx: nat, k: nat): nat
    requires idx < |h.sent| && Received(idx, k)
  {
    if k == idx - 1 then s.nr else h.sent[k]
  }

  /** Passed over but not yet decrypted. */
  predicate Awaited(h: History, s: State, idx: nat, k: nat, n: nat)
    requires idx < |h.sent|
  {
    Received(idx, k) && n < Followed(h, s, idx, k) && (k, n) !in h.consumed
  }

  /** Every awaited slot is stored, with the key the sender used. */
  ghost predicate StoresAwaited(h: History, s: State, idx: nat)
    requires idx < |h.keys| == |h.sent|
  {
    forall k, n {:trigger SlotKey(h, k, n)} | Awaited(h, s, idx, k, n) ::
      SlotKey(h, k, n) in s.skipped && s.skipped[SlotKey(h, k, n)] == KeyAt(h, k, n)
  }

  /** Nothing else is stored. */
  ghost predicate StoresOnlyAwaited(h: History, s: State, idx: nat)
    requires idx < |h.keys| == |h.sent|
  {
    forall key <- s.skipped :: exists k :: Awaited(h, s, idx, k, key.1) && key.0 == Pub(h, k)
  }

  predicate ConsumedInRange(h: History, s: State, idx: nat)
    requires idx < |h.sent|
  {
    forall slot <- h.consumed | slot.0 % 2 != idx % 2 ::
      Received(idx, slot.0) && slot.1 < Followed(h, s, idx, slot.0)
  }

  /** `s` is exactly the state of a session that has made `idx` root derivations. */
  ghost predicate SessionAt(h: History, s: State, idx: nat)
    requires Valid(h) && idx < |h.keys|
  {
    && s.dhsSecret == h.keys[idx]
    && s.dhsPublic == Pub(h, idx)
    && s.dhr == (if idx == 0 then None else Some(Pub(h, idx - 1)))
    && s.rk == Root(h.sk, h.keys, idx)
    && s.cks == (if idx == 0 then None else Some(Advance(Chain(h, idx), h.sent[idx])))
    && s.ns == h.sent[idx]
    && s.pn == PreviousCount(h, idx)
    && (idx <= 1 ==> s.ckr == None && s.nr == 0)
    && (idx >= 2 ==> s.ckr == Some(Advance(Chain(h, idx - 1), s.nr)) && s.nr <= h.sent[idx - 1])
    && StoresAwaited(h, s, idx)
    && StoresOnlyAwaited(h, s, idx)
    && ConsumedInRange(h, s, idx)
  }

  // --- keys of different slots are different ---

  lemma {:induction false} RootDepthIs(h: History, k: nat)
    requires Valid(h) && k < |h.keys|
    ensures RootDepth(Root(h.sk, h.keys, k)) == k
  {
    if k > 0 {
      RootDepthIs(h, k - 1);
    }
  }

  /** Any key derived `n` steps into a chain whose root key is the `d`-th one can only be the
      key of slot (k, m) when it is the same derivation. */
  lemma KeyDetermines(h: History, d: nat, e: Term, n: nat, k: nat, m: nat)
    requires Valid(h) && d < |h.keys| && 1 <= k < |h.keys|
    requires KdfCk(Advance(ChainKey(Root(h.sk, h.keys, d), e), n)).1 == KeyAt(h, k, m)
    ensures d == k - 1 && n == m && e == Dh({h.keys[k - 1], h.keys[k]})
  {
    AdvanceInjective(Root(h.sk, h.keys, d), e, n, Root(h.sk, h.keys, k - 1), Dh({h.keys[k - 1], h.keys[k]}), m);
    RootDepthIs(h, d);
    RootDepthIs(h, k - 1);
  }

  /** No two slots are sealed under the same message key. */
  lemma KeysUnique(h: History, k: nat, n: nat, k': nat, n': nat)
    requires Valid(h) && 1 <= k < |h.keys| && 1 <= k' < |h.keys|
    requires KeyAt(h, k, n) == KeyAt(h, k', n')
    ensures k == k' && n == n'
  {
    KeyDetermines(h, k - 1, Dh({h.keys[k - 1], h.keys[k]}), n, k', n');
  }

  // --- one decryption attempt ---

  function SealedAt(h: History, k: nat, n: nat, plaintext: Octets, ad: Octets): Ciphertext
    requires 1 <= k < |h.keys| == |h.sent|
  {
    Seal(KeyAt(h, k, n), plaintext, Aad(ad, HeaderAt(h, k, n)))
  }

  /** Which headers a session can follow: the key is stored, or the message lies at most
      MAX_SKIP ahead on the current chain, or it opens a new chain and neither the rest of the
      old chain nor the start of the new one is longer than MAX_SKIP. */
  predicate WithinWindow(s: State, header: Header<Term>) {
    || (header.dh, header.n) in s.skipped
    || (s.dhr == Some(header.dh) && header.n <= s.nr + MAX_SKIP)
    || (s.dhr != Some(header.dh) && header.n <= MAX_SKIP && (s.ckr.None? || header.pn <= s.nr + MAX_SKIP))
  }

  /** The key tried on the current chain is that of index max(nr, n). */
  lemma ReceiveKey(s: State, header: Header<Term>, c: Ciphertext, ad: Octets, ck: Term)
    requires s.dhr.Some? && s.ckr == Some(Advance(ck, s.nr))
    ensures
      var (s', r) := AfterReceive(s, header, c, ad);
      var at := Max(s.nr, header.n);
      if s.nr + MAX_SKIP < header.n then
        r.Err? && s' == s
      else
        && r == Open(KdfCk(Advance(ck, at)).1, c, Aad(ad, header))
        && s' == s.(skipped := Stash(s.skipped, s.dhr.value, Advance(ck, s.nr), s.nr, header.n),
                    ckr := Some(Advance(ck, at + 1)), nr := at + 1)
  {
    AdvanceAdds(ck, s.nr, Max(s.nr, header.n) - s.nr);
  }

  /** Soundness: whatever header and associated data a ciphertext is presented with, it opens
      only as the message it was made from, only at a party that has not consumed it, and only
      on a chain that party receives on. */
  lemma OpensOnlyAsSent(
    h: History, s: State, idx: nat, k: nat, n: nat, plaintext: Octets, ad: Octets,
    header: Header<Term>, ad': Octets, seed: Term)
    requires Valid(h) && idx < |h.keys| && SessionAt(h, s, idx) && 1 <= k < |h.keys|
    requires AfterDecrypt(s, header, SealedAt(h, k, n, plaintext, ad), ad', seed).1.Ok?
    ensures AfterDecrypt(s, header, SealedAt(h, k, n, plaintext, ad), ad', seed).1.value == plaintext
    ensures header == HeaderAt(h, k, n) && ad' == ad
    ensures Received(idx, k) || k == idx + 1
    ensures (k, n) !in h.consumed
  {
    var c := SealedAt(h, k, n, plaintext, ad);
    if (header.dh, header.n) in s.skipped {
      OpenedFromStore(h, s, idx, k, n, header, c, ad');
    } else if s.dhr == Some(header.dh) {
      OpenedOnCurrent(h, s, idx, k, n, header, c, ad');
    } else {
      var s1 := AfterDhRatchet(AfterSkip(s, header.pn).0, header.dh, seed);
      OpenedOnNext(h, s, s1, idx, k, n, header, c, ad');
    }
  }

  lemma OpenedFromStore(
    h: History, s: State, idx: nat, k: nat, n: nat, header: Header<Term>, c: Ciphertext, ad: Octets)
    requires Valid(h) && idx < |h.keys| && SessionAt(h, s, idx) && 1 <= k < |h.keys|
    requires c.Sealed? && c.mk == KeyAt(h, k, n) && (header.dh, header.n) in s.skipped
    requires Open(s.skipped[(header.dh, header.n)], c, Aad(ad, header)).Ok?
    ensures Aad(ad, header) == c.aad && Received(idx, k) && (k, n) !in h.consumed
  {
    StoredKeyDetermines(h, s, idx, (header.dh, header.n), k, n);
  }

  lemma OpenedOnCurrent(
    h: History, s: State, idx: nat, k: nat, n: nat, header: Header<Term>, c: Ciphertext, ad: Octets)
    requires Valid(h) && idx < |h.keys| && SessionAt(h, s, idx) && 1 <= k < |h.keys|
    requires c.Sealed? && c.mk == KeyAt(h, k, n) && c.aad.header == HeaderAt(h, k, n)
    requires AfterReceive(s, header, c, ad).1.Ok?
    ensures AfterReceive(s, header, c, ad).1.value == c.plaintext
    ensures Aad(ad, header) == c.aad && header.n == n && idx >= 2 && k == idx - 1
    ensures (k, n) !in h.consumed
  {
    assert s.ckr.Some? && idx >= 2;
    ReceiveKey(s, header, c, ad, Chain(h, idx - 1));
    KeyDetermines(h, idx - 2, Dh({h.keys[idx - 2], h.keys[idx - 1]}), Max(s.nr, header.n), k, n);
    assert (k, n).0 == k;
  }

  lemma OpenedOnNext(
    h: History, s: State, s1: State, idx: nat, k: nat, n: nat, header: Header<Term>, c: Ciphertext, ad: Octets)
    requires Valid(h) && idx < |h.keys| && SessionAt(h, s, idx) && 1 <= k < |h.keys|
    requires s1.dhr.Some? && s1.nr == 0
    requires s1.ckr == Some(ChainKey(s.rk, DiffieHellman(s.dhsSecret, header.dh)))
    requires c.Sealed? && c.mk == KeyAt(h, k, n)
    requires AfterReceive(s1, header, c, ad).1.Ok?
    ensures AfterReceive(s1, header, c, ad).1.value == c.plaintext
    ensures Aad(ad, header) == c.aad && header.n == n && k == idx + 1
    ensures (k, n) !in h.consumed
  {
    var e := DiffieHellman(s.dhsSecret, header.dh);
    ReceiveKey(s1, header, c, ad, ChainKey(s.rk, e));
    KeyDetermines(h, idx, e, header.n, k, n);
    NotConsumedAhead(h, s, idx, n);
  }

  lemma StoredKeyDetermines(h: History, s: State, idx: nat, key: (Term, nat), k: nat, n: nat)
    requires Valid(h) && idx < |h.keys| && SessionAt(h, s, idx) && 1 <= k < |h.keys|
    requires key in s.skipped && s.skipped[key] == KeyAt(h, k, n)
    ensures Awaited(h, s, idx, k, n) && key == SlotKey(h, k, n)
  {
    var k' :| Awaited(h, s, idx, k', key.1) && key.0 == Pub(h, k');
    assert SlotKey(h, k', key.1) == key;
    KeysUnique(h, k', key.1, k, n);
  }

  lemma NotConsumedAhead(h: History, s: State, idx: nat, n: nat)
    requires Valid(h) && idx < |h.keys| && SessionAt(h, s, idx)
    ensures (idx + 1, n) !in h.consumed
  {
    assert (idx + 1, n).0 == idx + 1;
  }

  /** Completeness: a message sent to this party and not consumed yet opens exactly when the
      gap it leaves is within the window. */
  lemma OpensWithinWindow(
    h: History, s: State, idx: nat, k: nat, n: nat, plaintext: Octets, ad: Octets, seed: Term)
    requires Valid(h) && idx < |h.keys| && SessionAt(h, s, idx) && 1 <= k < |h.keys|
    requires n < h.sent[k] && (k, n) !in h.consumed
    requires Received(idx, k) || k == idx + 1
    ensures
      var r := AfterDecrypt(s, HeaderAt(h, k, n), SealedAt(h, k, n, plaintext, ad), ad, seed).1;
      && (r.Ok? <==> WithinWindow(s, HeaderAt(h, k, n)))
      && (r.Ok? ==> r.value == plaintext)
  {
    var c := SealedAt(h, k, n, plaintext, ad);
    StoredIsAwaited(h, s, idx, k, n);
    if Awaited(h, s, idx, k, n) {
      StoredOpens(h, s, idx, k, n, c, ad, seed);
    } else if k == idx - 1 {
      CurrentOpens(h, s, idx, n, c, ad, seed);
    } else {
      assert k == idx + 1;
      NextOpens(h, s, idx, n, c, ad, seed);
    }
  }

  /** The ciphertext opens to its plaintext exactly when the header is within the window. */
  predicate OpensIfWithin(s: State, header: Header<Term>, c: Ciphertext, ad: Octets, seed: Term)
    requires c.Sealed? && (s.ckr.Some? ==> s.dhr.Some?)
  {
    var r := AfterDecrypt(s, header, c, ad, seed).1;
    && (r.Ok? <==> WithinWindow(s, header))
    && (r.Ok? ==> r.value == c.plaintext)
  }

  lemma StoredOpens(h: History, s: State, idx: nat, k: nat, n: nat, c: Ciphertext, ad: Octets, seed: Term)
    requires Valid(h) && idx < |h.keys| && SessionAt(h, s, idx) && Awaited(h, s, idx, k, n)
    requires c.Sealed? && c.mk == KeyAt(h, k, n) && c.aad == Aad(ad, HeaderAt(h, k, n))
    ensures OpensIfWithin(s, HeaderAt(h, k, n), c, ad, seed)
  {
    assert SlotKey(h, k, n) in s.skipped;
  }

  lemma StoredIsAwaited(h: History, s: State, idx: nat, k: nat, n: nat)
    requires Valid(h) && idx < |h.keys| && StoresOnlyAwaited(h, s, idx) && k < |h.keys|
    ensures SlotKey(h, k, n) in s.skipped ==> Awaited(h, s, idx, k, n)
  {
    if SlotKey(h, k, n) in s.skipped {
      var k' :| Awaited(h, s, idx, k', n) && Pub(h, k) == Pub(h, k');
      assert k' == k;
    }
  }

  lemma CurrentOpens(h: History, s: State, idx: nat, n: nat, c: Ciphertext, ad: Octets, seed: Term)
    requires Valid(h) && 2 <= idx < |h.keys| && SessionAt(h, s, idx)
    requires s.nr <= n && SlotKey(h, idx - 1, n) !in s.skipped
    requires c.Sealed? && c.mk == KeyAt(h, idx - 1, n) && c.aad == Aad(ad, HeaderAt(h, idx - 1, n))
    ensures OpensIfWithin(s, HeaderAt(h, idx - 1, n), c, ad, seed)
  {
    ReceiveKey(s, HeaderAt(h, idx - 1, n), c, ad, Chain(h, idx - 1));
  }

  lemma NextOpens(h: History, s: State, idx: nat, n: nat, c: Ciphertext, ad: Octets, seed: Term)
    requires Valid(h) && idx + 1 < |h.keys| && SessionAt(h, s, idx)
    requires c.Sealed? && c.mk == KeyAt(h, idx + 1, n) && c.aad == Aad(ad, HeaderAt(h, idx + 1, n))
    ensures OpensIfWithin(s, HeaderAt(h, idx + 1, n), c, ad, seed)
  {
    var header := HeaderAt(h, idx + 1, n);
    assert SlotKey(h, idx + 1, n) !in s.skipped;
    assert s.dhr != Some(header.dh);
    var s1 := AfterDhRatchet(AfterSkip(s, header.pn).0, header.dh, seed);
    ReceiveKey(s1, header, c, ad, Chain(h, idx + 1));
  }
}

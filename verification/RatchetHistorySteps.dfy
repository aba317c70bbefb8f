/** How sending and receiving move a session and the history in lock step. */
module RatchetHistorySteps {
  import opened Wrappers
  import opened Bytes
  import opened Crypto
  import opened Sessions
  import opened SymbolicRatchet
  import opened RatchetHistory

  /** One more message on chain `k`. */
  function Sent(h: History, k: nat): History
    requires k < |h.sent|
  {
    h.(sent := h.sent[k := h.sent[k] + 1])
  }

  function Consumed(h: History, k: nat, n: nat): History {
    h.(consumed := h.consumed + {(k, n)})
  }

  /** A new chain owned by `key`. */
  function Opened(h: History, key: Term): History {
    h.(keys := h.keys + [key], sent := h.sent + [0])
  }

  lemma {:induction false} RootStable(sk: Term, keys: seq<Term>, keys': seq<Term>, k: nat)
    requires keys <= keys' && k < |keys|
    ensures Root(sk, keys, k) == Root(sk, keys', k)
  {
    if k > 0 {
      RootStable(sk, keys, keys', k - 1);
    }
  }

  /** What a session may not notice: later chains, more messages on the chain it receives on,
      and slots consumed by the other party. */
  ghost predicate UnnoticedAt(h: History, h': History, idx: nat)
    requires Valid(h) && Valid(h') && idx < |h.keys|
  {
    && h.sk == h'.sk && h.keys <= h'.keys
    && (forall k | 0 <= k <= idx && k != idx - 1 :: h.sent[k] == h'.sent[k])
    && (idx >= 1 ==> h.sent[idx - 1] <= h'.sent[idx - 1])
    && (forall slot: (nat, nat) | slot.0 % 2 != idx % 2 :: slot in h.consumed <==> slot in h'.consumed)
  }

  /** The store stays exact when the awaited slots stay the same. */
  lemma SameAwaited(h: History, s: State, h': History, s': State, idx: nat)
    requires Valid(h) && Valid(h') && idx < |h.keys| && h.sk == h'.sk && h.keys <= h'.keys
    requires StoresAwaited(h, s, idx) && StoresOnlyAwaited(h, s, idx) && s'.skipped == s.skipped
    requires forall k: nat, n: nat :: Awaited(h, s, idx, k, n) <==> Awaited(h', s', idx, k, n)
    ensures StoresAwaited(h', s', idx) && StoresOnlyAwaited(h', s', idx)
  {
    assert StoresAwaited(h', s', idx) by {
      forall k: nat, n: nat | Awaited(h', s', idx, k, n)
        ensures SlotKey(h', k, n) in s'.skipped && s'.skipped[SlotKey(h', k, n)] == KeyAt(h', k, n)
      {
        assert SlotKey(h, k, n) in s.skipped;
        RootStable(h.sk, h.keys, h'.keys, k - 1);
      }
    }
    assert StoresOnlyAwaited(h', s', idx) by {
      forall key | key in s'.skipped
        ensures exists k :: Awaited(h', s', idx, k, key.1) && key.0 == Pub(h', k)
      {
        var k :| Awaited(h, s, idx, k, key.1) && key.0 == Pub(h, k);
        assert Awaited(h', s', idx, k, key.1) && key.0 == Pub(h', k);
      }
    }
  }

  lemma SessionStays(h: History, h': History, s: State, idx: nat)
    requires Valid(h) && Valid(h') && idx < |h.keys|
    requires SessionAt(h, s, idx) && UnnoticedAt(h, h', idx)
    ensures SessionAt(h', s, idx)
  {
    forall k: nat | k <= idx {
      RootStable(h.sk, h.keys, h'.keys, k);
    }
    forall k: nat, n: nat
      ensures Awaited(h, s, idx, k, n) <==> Awaited(h', s, idx, k, n)
    {
      if Received(idx, k) {
        assert k % 2 != idx % 2 && (k, n).0 == k;
      }
    }
    SameAwaited(h, s, h', s, idx);
  }

  /** Sending seals the next slot of the session's own chain. */
  lemma SendStep(h: History, s: State, idx: nat, plaintext: Octets, ad: Octets)
    requires Valid(h) && 1 <= idx < |h.keys| && SessionAt(h, s, idx)
    ensures
      var (s', r) := AfterEncrypt(s, plaintext, ad);
      var h' := Sent(h, idx);
      && r == Ok((HeaderAt(h, idx, h.sent[idx]), SealedAt(h, idx, h.sent[idx], plaintext, ad)))
      && Valid(h')
      && SessionAt(h', s', idx)
  {
    var (s', _) := AfterEncrypt(s, plaintext, ad);
    var h' := Sent(h, idx);
    assert forall k: nat, n: nat :: Awaited(h, s, idx, k, n) <==> Awaited(h', s', idx, k, n);
    SameAwaited(h, s, h', s', idx);
  }

  /** Receiving on a chain the session already follows consumes exactly that slot. */
  lemma ReceiveStep(
    h: History, s: State, s': State, idx: nat, k: nat, n: nat, plaintext: Octets, ad: Octets, seed: Term)
    requires Valid(h) && idx < |h.keys| && SessionAt(h, s, idx)
    requires Received(idx, k) && n < h.sent[k] && (k, n) !in h.consumed
    requires (s', Ok(plaintext))
          == AfterDecrypt(s, HeaderAt(h, k, n), SealedAt(h, k, n, plaintext, ad), ad, seed)
    ensures SessionAt(Consumed(h, k, n), s', idx)
  {
    if SlotKey(h, k, n) in s.skipped {
      UseStored(h, s, idx, k, n);
    } else {
      assert !Awaited(h, s, idx, k, n);
      ReceiveAhead(h, s, s', idx, n, SealedAt(h, k, n, plaintext, ad), ad);
    }
  }

  lemma ReceiveAhead(h: History, s: State, s': State, idx: nat, n: nat, c: Ciphertext, ad: Octets)
    requires Valid(h) && 2 <= idx < |h.keys| && SessionAt(h, s, idx)
    requires s.nr <= n < h.sent[idx - 1]
    requires AfterReceive(s, HeaderAt(h, idx - 1, n), c, ad).1.Ok?
    requires s' == AfterReceive(s, HeaderAt(h, idx - 1, n), c, ad).0
    ensures SessionAt(Consumed(h, idx - 1, n), s', idx)
  {
    ReceiveKey(s, HeaderAt(h, idx - 1, n), c, ad, Chain(h, idx - 1));
    UseCurrent(h, s, idx, n);
    assert s' == SkippedPast(h, s, idx, n);
  }

  lemma UseStored(h: History, s: State, idx: nat, k: nat, n: nat)
    requires Valid(h) && idx < |h.keys| && SessionAt(h, s, idx)
    requires Received(idx, k) && SlotKey(h, k, n) in s.skipped
    ensures SessionAt(Consumed(h, k, n), s.(skipped := s.skipped - {SlotKey(h, k, n)}), idx)
  {
    var h' := Consumed(h, k, n);
    var s' := s.(skipped := s.skipped - {SlotKey(h, k, n)});
    StoredIsAwaited(h, s, idx, k, n);
    UseStoredStore(h, s, idx, k, n, h', s');
    assert ConsumedInRange(h', s', idx);
  }

  lemma UseStoredStore(h: History, s: State, idx: nat, k: nat, n: nat, h': History, s': State)
    requires Valid(h) && idx < |h.keys| && StoresAwaited(h, s, idx) && StoresOnlyAwaited(h, s, idx)
    requires Awaited(h, s, idx, k, n)
    requires h' == Consumed(h, k, n) && s' == s.(skipped := s.skipped - {SlotKey(h, k, n)})
    ensures StoresAwaited(h', s', idx) && StoresOnlyAwaited(h', s', idx)
  {
    assert StoresAwaited(h', s', idx) by {
      forall j: nat, m: nat | Awaited(h', s', idx, j, m)
        ensures SlotKey(h', j, m) in s'.skipped && s'.skipped[SlotKey(h', j, m)] == KeyAt(h', j, m)
      {
        assert SlotKey(h, j, m) in s.skipped;
      }
    }
    UseStoredOnly(h, s, idx, k, n, h', s');
  }

  lemma UseStoredOnly(h: History, s: State, idx: nat, k: nat, n: nat, h': History, s': State)
    requires Valid(h) && idx < |h.keys| && StoresOnlyAwaited(h, s, idx)
    requires Awaited(h, s, idx, k, n)
    requires h' == Consumed(h, k, n) && s' == s.(skipped := s.skipped - {SlotKey(h, k, n)})
    ensures StoresOnlyAwaited(h', s', idx)
  {
    forall key | key in s'.skipped
      ensures exists j :: Awaited(h', s', idx, j, key.1) && key.0 == Pub(h', j)
    {
      var j :| Awaited(h, s, idx, j, key.1) && key.0 == Pub(h, j);
      assert key == SlotKey(h, j, key.1);
      assert Awaited(h', s', idx, j, key.1) && key.0 == Pub(h', j);
    }
  }

  /** `s'` has skipped the current chain from `nr` to `until`, and either stopped there or also
      used and consumed slot `until`. */
  ghost predicate Skipped(h: History, s: State, h': History, s': State, idx: nat, until: nat)
    requires 2 <= idx < |h.keys|
  {
    && s'.skipped == Stash(s.skipped, Pub(h, idx - 1), Advance(Chain(h, idx - 1), s.nr), s.nr, until)
    && ((h' == h && s'.nr == until) || (h' == Consumed(h, idx - 1, until) && s'.nr == until + 1))
  }

  lemma SkippedStoresAwaited(h: History, s: State, h': History, s': State, idx: nat, until: nat)
    requires Valid(h) && 2 <= idx < |h.keys| && StoresAwaited(h, s, idx)
    requires Skipped(h, s, h', s', idx, until)
    ensures StoresAwaited(h', s', idx)
  {
    var k := idx - 1;
    var ck := Advance(Chain(h, k), s.nr);
    forall j: nat, m: nat | Awaited(h', s', idx, j, m)
      ensures SlotKey(h', j, m) in s'.skipped && s'.skipped[SlotKey(h', j, m)] == KeyAt(h', j, m)
    {
      StashLookup(s.skipped, Pub(h, k), ck, s.nr, until, SlotKey(h, j, m));
      if j == k && s.nr <= m {
        AdvanceAdds(Chain(h, k), s.nr, m - s.nr);
      } else {
        assert SlotKey(h, j, m) in s.skipped;
      }
    }
  }

  lemma SkippedStoresOnlyAwaited(h: History, s: State, h': History, s': State, idx: nat, until: nat)
    requires Valid(h) && 2 <= idx < |h.keys| && StoresOnlyAwaited(h, s, idx) && ConsumedInRange(h, s, idx)
    requires Skipped(h, s, h', s', idx, until) && s.nr <= until
    ensures StoresOnlyAwaited(h', s', idx)
  {
    var k := idx - 1;
    var ck := Advance(Chain(h, k), s.nr);
    forall key | key in s'.skipped
      ensures exists j :: Awaited(h', s', idx, j, key.1) && key.0 == Pub(h', j)
    {
      StashLookup(s.skipped, Pub(h, k), ck, s.nr, until, key);
      if key.0 == Pub(h, k) && s.nr <= key.1 < until {
        SkippedAwaited(h, s, h', s', idx, until, key.1);
      } else {
        var j :| Awaited(h, s, idx, j, key.1) && key.0 == Pub(h, j);
        StillAwaited(h, s, h', s', idx, until, j, key.1);
      }
    }
  }

  lemma SkippedAwaited(h: History, s: State, h': History, s': State, idx: nat, until: nat, n: nat)
    requires 2 <= idx < |h.keys| == |h.sent| && ConsumedInRange(h, s, idx)
    requires Skipped(h, s, h', s', idx, until) && s.nr <= n < until
    ensures h'.keys == h.keys && h'.sent == h.sent && Awaited(h', s', idx, idx - 1, n)
  {
    assert (idx - 1, n).0 == idx - 1;
  }

  lemma StillAwaited(h: History, s: State, h': History, s': State, idx: nat, until: nat, k: nat, n: nat)
    requires 2 <= idx < |h.keys| == |h.sent|
    requires Skipped(h, s, h', s', idx, until) && s.nr <= until && Awaited(h, s, idx, k, n)
    ensures h'.keys == h.keys && h'.sent == h.sent && Awaited(h', s', idx, k, n)
  {
  }

  /** `s` after skipping from `nr` to `n` on its current chain and using key `n`. */
  function SkippedPast(h: History, s: State, idx: nat, n: nat): State
    requires 2 <= idx < |h.keys|
  {
    s.(skipped := Stash(s.skipped, Pub(h, idx - 1), Advance(Chain(h, idx - 1), s.nr), s.nr, n),
       ckr := Some(Advance(Chain(h, idx - 1), n + 1)),
       nr := n + 1)
  }

  lemma UseCurrent(h: History, s: State, idx: nat, n: nat)
    requires Valid(h) && 2 <= idx < |h.keys| && SessionAt(h, s, idx)
    requires s.nr <= n < h.sent[idx - 1]
    ensures SessionAt(Consumed(h, idx - 1, n), SkippedPast(h, s, idx, n), idx)
  {
    var h' := Consumed(h, idx - 1, n);
    var s' := SkippedPast(h, s, idx, n);
    SkippedStoresAwaited(h, s, h', s', idx, n);
    SkippedStoresOnlyAwaited(h, s, h', s', idx, n);
    assert ConsumedInRange(h', s', idx);
  }

  /** Skipping to the sender's final count leaves nothing of the current chain ahead. */
  lemma CloseChain(h: History, s: State, idx: nat)
    requires Valid(h) && 2 <= idx < |h.keys| && SessionAt(h, s, idx)
    requires h.sent[idx - 1] <= s.nr + MAX_SKIP
    ensures
      var s' := AfterSkip(s, h.sent[idx - 1]).0;
      SessionAt(h, s', idx) && s'.nr == h.sent[idx - 1] && s'.ns == s.ns
  {
    var until := h.sent[idx - 1];
    var s' := AfterSkip(s, until).0;
    AdvanceAdds(Chain(h, idx - 1), s.nr, until - s.nr);
    SkippedStoresAwaited(h, s, h, s', idx, until);
    SkippedStoresOnlyAwaited(h, s, h, s', idx, until);
  }

  /** The Diffie-Hellman step: the receiving chain is the peer's sending chain, and the new
      sending chain is the next derivation. */
  lemma RatchetStep(h: History, s: State, idx: nat, seed: Term)
    requires Valid(h) && |h.keys| == idx + 2 && SessionAt(h, s, idx) && seed !in h.keys
    requires idx >= 2 ==> s.nr == h.sent[idx - 1]
    ensures
      var h' := Opened(h, seed);
      && Valid(h')
      && SessionAt(h', AfterDhRatchet(s, Pub(h, idx + 1), seed), idx + 2)
  {
    var h' := Opened(h, seed);
    var s' := AfterDhRatchet(s, Pub(h, idx + 1), seed);
    forall k: nat | k <= idx + 1 {
      RootStable(h.sk, h.keys, h'.keys, k);
    }
    assert {seed, h.keys[idx + 1]} == {h'.keys[idx + 1], h'.keys[idx + 2]};
    RatchetStepStore(h, h', s, s', idx);
    assert ConsumedInRange(h', s', idx + 2);
  }

  lemma RatchetStepStore(h: History, h': History, s: State, s': State, idx: nat)
    requires Valid(h) && Valid(h') && |h.keys| == idx + 2 && SessionAt(h, s, idx)
    requires idx >= 2 ==> s.nr == h.sent[idx - 1]
    requires h.sk == h'.sk && h.keys <= h'.keys && h.sent <= h'.sent && h.consumed == h'.consumed
    requires |h'.keys| == idx + 3 && s'.skipped == s.skipped && s'.nr == 0
    ensures StoresAwaited(h', s', idx + 2) && StoresOnlyAwaited(h', s', idx + 2)
  {
    assert StoresAwaited(h', s', idx + 2) by {
      forall k: nat, n: nat | Awaited(h', s', idx + 2, k, n)
        ensures SlotKey(h', k, n) in s'.skipped && s'.skipped[SlotKey(h', k, n)] == KeyAt(h', k, n)
      {
        assert SlotKey(h, k, n) in s.skipped;
        RootStable(h.sk, h.keys, h'.keys, k - 1);
      }
    }
    RatchetStepOnly(h, h', s, s', idx);
  }

  lemma RatchetStepOnly(h: History, h': History, s: State, s': State, idx: nat)
    requires Valid(h) && Valid(h') && |h.keys| == idx + 2 && StoresOnlyAwaited(h, s, idx)
    requires idx >= 2 ==> s.nr == h.sent[idx - 1]
    requires h.sk == h'.sk && h.keys <= h'.keys && h.sent <= h'.sent && h.consumed == h'.consumed
    requires |h'.keys| == idx + 3 && s'.skipped == s.skipped && s'.nr == 0
    ensures StoresOnlyAwaited(h', s', idx + 2)
  {
    forall key | key in s'.skipped
      ensures exists k :: Awaited(h', s', idx + 2, k, key.1) && key.0 == Pub(h', k)
    {
      var k :| Awaited(h, s, idx, k, key.1) && key.0 == Pub(h, k);
      assert Awaited(h', s', idx + 2, k, key.1) && key.0 == Pub(h', k);
    }
  }

  /** Receiving the first message of a new chain closes the old chain, makes two derivations
      and consumes the slot. */
  lemma OpenStep(
    h: History, s: State, s': State, idx: nat, n: nat, plaintext: Octets, ad: Octets, seed: Term)
    requires Valid(h) && |h.keys| == idx + 2 && SessionAt(h, s, idx) && seed !in h.keys
    requires n < h.sent[idx + 1]
    requires (s', Ok(plaintext))
          == AfterDecrypt(s, HeaderAt(h, idx + 1, n), SealedAt(h, idx + 1, n, plaintext, ad), ad, seed)
    ensures
      var h' := Consumed(Opened(h, seed), idx + 1, n);
      Valid(h') && SessionAt(h', s', idx + 2)
  {
    var header := HeaderAt(h, idx + 1, n);
    var c := SealedAt(h, idx + 1, n, plaintext, ad);
    assert SlotKey(h, idx + 1, n) !in s.skipped;
    assert s.dhr != Some(header.dh);
    var s1 := AfterSkip(s, header.pn).0;
    assert AfterDecrypt(s, header, c, ad, seed)
        == AfterReceive(AfterDhRatchet(s1, header.dh, seed), header, c, ad);
    CloseOldChain(h, s, idx, s1);
    ReceiveOnNewChain(h, s1, idx, n, header, c, ad, seed);
  }

  lemma CloseOldChain(h: History, s: State, idx: nat, s1: State)
    requires Valid(h) && |h.keys| == idx + 2 && SessionAt(h, s, idx)
    requires AfterSkip(s, PreviousCount(h, idx + 1)) == (s1, Ok(Unit))
    ensures SessionAt(h, s1, idx) && (idx >= 2 ==> s1.nr == h.sent[idx - 1])
  {
    if idx >= 2 {
      CloseChain(h, s, idx);
    }
  }

  lemma ReceiveOnNewChain(
    h: History, s: State, idx: nat, n: nat, header: Header<Term>, c: Ciphertext, ad: Octets, seed: Term)
    requires Valid(h) && |h.keys| == idx + 2 && SessionAt(h, s, idx) && seed !in h.keys
    requires idx >= 2 ==> s.nr == h.sent[idx - 1]
    requires header == HeaderAt(h, idx + 1, n) && n < h.sent[idx + 1]
    requires AfterReceive(AfterDhRatchet(s, header.dh, seed), header, c, ad).1.Ok?
    ensures
      var s' := AfterReceive(AfterDhRatchet(s, header.dh, seed), header, c, ad).0;
      var h' := Consumed(Opened(h, seed), idx + 1, n);
      Valid(h') && SessionAt(h', s', idx + 2)
  {
    RatchetStep(h, s, idx, seed);
    var h1 := Opened(h, seed);
    var s2 := AfterDhRatchet(s, header.dh, seed);
    assert HeaderAt(h1, idx + 1, n) == header;
    ReceiveAhead(h1, s2, AfterReceive(s2, header, c, ad).0, idx + 2, n, c, ad);
  }
}

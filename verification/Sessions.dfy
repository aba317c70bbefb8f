/** The state of one session. */
module Sessions {
  import opened Wrappers
  import opened Bytes
  import opened Crypto

  const MAX_SKIP: nat := 1000

  /** The full session state; `K` is the type of the 32-byte strings. */
  datatype Session<K(==)> = Session(
    dhsSecret: K,
    dhsPublic: K,
    dhr: Option<K>,
    rk: K,
    cks: Option<K>,
    ckr: Option<K>,
    ns: nat,
    nr: nat,
    pn: nat,
    skipped: map<(K, nat), MessageKey<K>>)

  function Max(a: nat, b: nat): nat {
    if a < b then b else a
  }

  /** The counters of a session fit their 32-bit fields with room for one more step. */
  predicate CountersFit<K>(s: Session<K>) {
    s.ns < U32_MAX && s.nr + MAX_SKIP < U32_MAX && s.pn <= U32_MAX
  }

  /** So does the number of stored keys, whatever one message makes the session skip. */
  predicate Roomy<K>(s: Session<K>) {
    CountersFit(s) && |s.skipped| + 2 * MAX_SKIP <= U32_MAX
  }
}

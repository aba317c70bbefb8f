/** Writing a map as a list of entries in any order, and reading it back. */
module MapEnumeration {

  /** `order` lists every entry of the map once, in some order. */
  predicate Enumerates<K(==), V(==)>(order: seq<(K, V)>, m: map<K, V>) {
    && |order| == |m|
    && (forall e <- order :: e.0 in m && m[e.0] == e.1)
    && (forall i, j :: 0 <= i < j < |order| ==> order[i].0 != order[j].0)
  }

  /** The map a reader builds from a list of entries. */
  function Insert<K(==), V>(order: seq<(K, V)>, m: map<K, V>): map<K, V> {
    if order == [] then m else Insert(order[1..], m[order[0].0 := order[0].1])
  }

  lemma {:induction false} InsertLookup<K, V>(order: seq<(K, V)>, m: map<K, V>, k: K)
    requires forall i, j :: 0 <= i < j < |order| ==> order[i].0 != order[j].0
    ensures (forall e <- order :: e.0 != k) ==>
      (k in Insert(order, m) <==> k in m) && (k in m ==> Insert(order, m)[k] == m[k])
    ensures forall e <- order :: e.0 == k ==> k in Insert(order, m) && Insert(order, m)[k] == e.1
  {
    if order != [] {
      InsertLookup(order[1..], m[order[0].0 := order[0].1], k);
      assert forall e <- order[1..] :: e in order;
      assert order[0] in order;
      forall e <- order | e.0 == k
        ensures k in Insert(order, m) && Insert(order, m)[k] == e.1
      {
        if e == order[0] {
          assert forall e' <- order[1..] :: e'.0 != k;
        } else {
          assert e in order[1..];
        }
      }
    }
  }

  /** Reading back any enumeration of a map gives the map. */
  lemma InsertEnumeration<K, V>(order: seq<(K, V)>, m: map<K, V>)
    requires Enumerates(order, m)
    ensures Insert(order, map[]) == m
  {
    EnumerationCovers(order, m);
    var out := Insert(order, map[]);
    forall k | k in m
      ensures k in out && out[k] == m[k]
    {
      var e :| e in order && e.0 == k;
      InsertLookup(order, map[], k);
    }
    forall k | k in out
      ensures k in m
    {
      InsertLookup(order, map[], k);
    }
    assert out.Keys == m.Keys;
  }

  lemma EnumerationCovers<K, V>(order: seq<(K, V)>, m: map<K, V>)
    requires Enumerates(order, m)
    ensures forall k <- m :: exists e :: e in order && e.0 == k
  {
    var keys := set e <- order :: e.0;
    DistinctKeys(order);
    if k :| k in m && k !in keys {
      assert keys + {k} <= m.Keys;
      SubsetSize(keys + {k}, m.Keys);
    }
  }

  lemma {:induction false} DistinctKeys<K, V>(order: seq<(K, V)>)
    requires forall i, j :: 0 <= i < j < |order| ==> order[i].0 != order[j].0
    ensures |set e <- order :: e.0| == |order|
  {
    if order != [] {
      var tail := order[1..];
      DistinctKeys(tail);
      assert order[0].0 !in (set e <- tail :: e.0);
      assert (set e <- order :: e.0) == (set e <- tail :: e.0) + {order[0].0};
    }
  }

  lemma {:induction false} SubsetSize<T>(a: set<T>, b: set<T>)
    requires a <= b
    ensures |a| <= |b|
  {
    if a != {} {
      var x :| x in a;
      SubsetSize(a - {x}, b - {x});
    }
  }

  /** `order` lists what is in `m` but no longer in `rest`. */
  predicate Listed<K(==), V(==)>(order: seq<(K, V)>, m: map<K, V>, rest: map<K, V>) {
    && |order| + |rest| == |m|
    && (forall k <- rest :: k in m && rest[k] == m[k])
    && (forall e <- order :: e.0 in m && e.0 !in rest && m[e.0] == e.1)
    && (forall i, j :: 0 <= i < j < |order| ==> order[i].0 != order[j].0)
  }

  lemma ListOne<K, V>(order: seq<(K, V)>, m: map<K, V>, rest: map<K, V>, k: K)
    requires Listed(order, m, rest) && k in rest
    ensures Listed(order + [(k, rest[k])], m, rest - {k})
    ensures |rest - {k}| < |rest|
  {
    var order' := order + [(k, rest[k])];
    var rest' := rest - {k};
    assert rest'.Keys == rest.Keys - {k};
    assert |rest'.Keys| == |rest.Keys| - 1;
    forall i, j | 0 <= i < j < |order'|
      ensures order'[i].0 != order'[j].0
    {
      assert order'[i] in order;
    }
  }

  lemma {:induction false} ListRest<K, V>(order: seq<(K, V)>, m: map<K, V>, rest: map<K, V>) returns (all: seq<(K, V)>)
    requires Listed(order, m, rest)
    ensures Enumerates(all, m)
    decreases |rest|
  {
    if rest == map[] {
      all := order;
    } else {
      var k :| k in rest;
      ListOne(order, m, rest, k);
      all := ListRest(order + [(k, rest[k])], m, rest - {k});
    }
  }

  /** Every map has an enumeration. */
  lemma EnumerationExists<K, V>(m: map<K, V>) returns (order: seq<(K, V)>)
    ensures Enumerates(order, m)
  {
    order := ListRest([], m, m);
  }

  /** The entries of a map in whatever order it yields them. */
  method Enumerate<K(==), V(==)>(m: map<K, V>) returns (order: seq<(K, V)>)
    ensures Enumerates(order, m)
  {
    order := [];
    var rest := m;
    while rest != map[]
      invariant Listed(order, m, rest)
      decreases |rest|
    {
      var k :| k in rest;
      ListOne(order, m, rest, k);
      order := order + [(k, rest[k])];
      rest := rest - {k};
    }
  }
}

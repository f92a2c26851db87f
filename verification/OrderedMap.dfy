/** `BTreeMap` as a list of entries in ascending key order. */
module OrderedMap {
  import opened Sequences
  import opened Wrappers

  type Entries<K, V> = seq<(K, V)>

  ghost predicate TotalOrder<K(!new)>(le: (K, K) -> bool) {
    && (forall a, b :: le(a, b) || le(b, a))
    && (forall a, b :: le(a, b) && le(b, a) ==> a == b)
    && (forall a, b, c :: le(a, b) && le(b, c) ==> le(a, c))
  }

  predicate Below<K(==)>(le: (K, K) -> bool, a: K, b: K) {
    le(a, b) && a != b
  }

  ghost predicate Ascending<K, V>(le: (K, K) -> bool, m: Entries<K, V>) {
    forall i, j | 0 <= i < j < |m| :: Below(le, m[i].0, m[j].0)
  }

  function Lookup<K(==), V>(m: Entries<K, V>, k: K): Option<V> {
    if m == [] then None else if Last(m).0 == k then Some(Last(m).1) else Lookup(DropLast(m), k)
  }

  /** Inserts an entry, or replaces the one with the same key. */
  function Upsert<K(==), V>(le: (K, K) -> bool, m: Entries<K, V>, k: K, v: V): Entries<K, V> {
    if m == [] then [(k, v)]
    else if Last(m).0 == k then DropLast(m) + [(k, v)]
    else if le(Last(m).0, k) then m + [(k, v)]
    else Upsert(le, DropLast(m), k, v) + [Last(m)]
  }

  lemma {:induction false} LookupMember<K, V>(m: Entries<K, V>, k: K)
    ensures Lookup(m, k).Some? ==> (k, Lookup(m, k).value) in m
    ensures Lookup(m, k).None? <==> forall i | 0 <= i < |m| :: m[i].0 != k
  {
    if m != [] && Last(m).0 != k {
      LookupMember(DropLast(m), k);
    }
  }

  lemma {:induction false} EntryIsLookup<K(!new), V>(le: (K, K) -> bool, m: Entries<K, V>, entry: (K, V))
    requires Ascending(le, m) && entry in m
    ensures Lookup(m, entry.0) == Some(entry.1)
  {
    var i :| 0 <= i < |m| && m[i] == entry;
    if i < |m| - 1 {
      assert Below(le, m[i].0, m[|m| - 1].0);
      assert DropLast(m)[i] == entry;
      EntryIsLookup(le, DropLast(m), entry);
    }
  }

  lemma {:induction false} UpsertKeys<K, V>(le: (K, K) -> bool, m: Entries<K, V>, k: K, v: V)
    ensures forall i | 0 <= i < |Upsert(le, m, k, v)| ::
              Upsert(le, m, k, v)[i].0 == k || exists j :: 0 <= j < |m| && m[j].0 == Upsert(le, m, k, v)[i].0
  {
    if m != [] && Last(m).0 != k && !le(Last(m).0, k) {
      UpsertKeys(le, DropLast(m), k, v);
    }
  }

  lemma {:induction false} UpsertAscending<K(!new), V>(le: (K, K) -> bool, m: Entries<K, V>, k: K, v: V)
    requires TotalOrder(le) && Ascending(le, m)
    ensures Ascending(le, Upsert(le, m, k, v))
  {
    if m != [] {
      var init, l := DropLast(m), Last(m).0;
      if l == k {
      } else if le(l, k) {
        forall i | 0 <= i < |m| ensures Below(le, m[i].0, k) {
          assert i == |m| - 1 || Below(le, m[i].0, l);
        }
      } else {
        UpsertAscending(le, init, k, v);
        UpsertKeys(le, init, k, v);
        var r := Upsert(le, init, k, v);
        forall i | 0 <= i < |r| ensures Below(le, r[i].0, l) {
          if r[i].0 != k {
            var j :| 0 <= j < |init| && init[j].0 == r[i].0;
            assert Below(le, m[j].0, m[|m| - 1].0);
          }
        }
      }
    }
  }

  lemma {:induction false} UpsertLookup<K(!new), V>(le: (K, K) -> bool, m: Entries<K, V>, k: K, v: V, j: K)
    requires TotalOrder(le) && Ascending(le, m)
    ensures Lookup(Upsert(le, m, k, v), j) == if j == k then Some(v) else Lookup(m, j)
  {
    if m != [] && Last(m).0 != k && !le(Last(m).0, k) {
      UpsertLookup(le, DropLast(m), k, v, j);
    }
  }

  lemma SameTop<K(!new), V>(le: (K, K) -> bool, a: Entries<K, V>, b: Entries<K, V>)
    requires TotalOrder(le) && Ascending(le, a) && Ascending(le, b) && a != [] && b != []
    requires forall k :: Lookup(a, k) == Lookup(b, k)
    ensures Last(a) == Last(b)
  {
    var p, q := Last(a).0, Last(b).0;
    assert Lookup(a, p) == Lookup(b, p) && Lookup(a, q) == Lookup(b, q);
    LookupMember(b, p);
    LookupMember(a, q);
    var i :| 0 <= i < |b| && b[i].0 == p;
    var j :| 0 <= j < |a| && a[j].0 == q;
    assert i == |b| - 1 || Below(le, p, q);
    assert j == |a| - 1 || Below(le, q, p);
  }

  lemma TopOnlyOnce<K(!new), V>(le: (K, K) -> bool, m: Entries<K, V>)
    requires Ascending(le, m) && m != []
    ensures Lookup(DropLast(m), Last(m).0).None?
  {
    LookupMember(DropLast(m), Last(m).0);
    forall i | 0 <= i < |m| - 1 ensures m[i].0 != Last(m).0 {
      assert Below(le, m[i].0, m[|m| - 1].0);
    }
  }

  /** Maps that agree on every key are the same list. */
  lemma {:induction false} SameEntries<K(!new), V>(le: (K, K) -> bool, a: Entries<K, V>, b: Entries<K, V>)
    requires TotalOrder(le) && Ascending(le, a) && Ascending(le, b)
    requires forall k :: Lookup(a, k) == Lookup(b, k)
    ensures a == b
    decreases |a|
  {
    assert b != [] ==> Lookup(b, Last(b).0) == Some(Last(b).1);
    if a != [] {
      var k := Last(a).0;
      assert Lookup(a, k) == Some(Last(a).1) && Lookup(b, k) == Some(Last(a).1);
      assert b != [];
      SameTop(le, a, b);
      forall j ensures Lookup(DropLast(a), j) == Lookup(DropLast(b), j) {
        assert Lookup(a, j) == Lookup(b, j);
        if j == k {
          TopOnlyOnce(le, a);
          TopOnlyOnce(le, b);
        }
      }
      SameEntries(le, DropLast(a), DropLast(b));
      assert a == DropLast(a) + [Last(a)] && b == DropLast(b) + [Last(b)];
    }
  }
}

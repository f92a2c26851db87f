/** Lists in which only neighbours are compared: what that sees depends on
    whether equal keys stand side by side. */
module Neighbours {
  import opened Sequences

  /** Nothing with another key stands between two elements with this one. */
  ghost predicate SideBySide<T, K>(keyOf: T -> K, key: K, s: seq<T>) {
    forall i, j, k | 0 <= i < j < k < |s| && keyOf(s[i]) == key && keyOf(s[k]) == key :: keyOf(s[j]) == key
  }

  ghost predicate AllSideBySide<T, K(!new)>(keyOf: T -> K, s: seq<T>) {
    forall key :: SideBySide(keyOf, key, s)
  }

  /** Some element has this key. */
  ghost predicate HasKey<T, K>(keyOf: T -> K, key: K, s: seq<T>) {
    exists y :: y in s && keyOf(y) == key
  }

  lemma SideBySideSnoc<T, K>(keyOf: T -> K, key: K, s: seq<T>, x: T)
    ensures SideBySide(keyOf, key, s + [x]) <==>
            SideBySide(keyOf, key, s) &&
            (keyOf(x) == key && s != [] && keyOf(Last(s)) != key ==> !HasKey(keyOf, key, s))
  {
    var r := s + [x];
    if SideBySide(keyOf, key, r) {
      forall i, j, k | 0 <= i < j < k < |s| && keyOf(s[i]) == key && keyOf(s[k]) == key ensures keyOf(s[j]) == key {
        assert r[i] == s[i] && r[j] == s[j] && r[k] == s[k];
      }
      if keyOf(x) == key && s != [] && keyOf(Last(s)) != key {
        forall y | y in s ensures keyOf(y) != key {
          var i :| 0 <= i < |s| && s[i] == y;
          assert r[i] == y && r[|s| - 1] == Last(s) && r[|s|] == x;
        }
      }
    }
    if SideBySide(keyOf, key, s) && keyOf(x) == key && (s == [] || keyOf(Last(s)) == key) {
      forall i, j, k | 0 <= i < j < k < |r| && keyOf(r[i]) == key && keyOf(r[k]) == key ensures keyOf(r[j]) == key {
        assert k == |s| && j < |s| - 1 ==> keyOf(s[i]) == key && keyOf(s[|s| - 1]) == key;
      }
    }
  }

  /** `dedup_by`: drops an element whose key is that of the last one kept. */
  function Dedup<T, K(==)>(keyOf: T -> K, s: seq<T>): seq<T> {
    if s == [] then []
    else
      var kept := Dedup(keyOf, DropLast(s));
      if kept != [] && keyOf(Last(kept)) == keyOf(Last(s)) then kept else kept + [Last(s)]
  }

  ghost predicate DistinctKeys<T, K>(keyOf: T -> K, s: seq<T>) {
    forall i, j | 0 <= i < j < |s| :: keyOf(s[i]) != keyOf(s[j])
  }

  lemma HasKeySnoc<T, K>(keyOf: T -> K, key: K, s: seq<T>, x: T)
    ensures HasKey(keyOf, key, s + [x]) <==> HasKey(keyOf, key, s) || keyOf(x) == key
  {
    assert x in s + [x];
    if HasKey(keyOf, key, s) {
      var y :| y in s && keyOf(y) == key;
      assert y in s + [x];
    }
  }

  lemma {:induction false} DedupKeepsKeys<T, K>(keyOf: T -> K, s: seq<T>, key: K)
    ensures forall x | x in Dedup(keyOf, s) :: x in s
    ensures HasKey(keyOf, key, Dedup(keyOf, s)) <==> HasKey(keyOf, key, s)
    ensures s != [] ==> Dedup(keyOf, s) != [] && keyOf(Last(Dedup(keyOf, s))) == keyOf(Last(s))
  {
    if s != [] {
      var kept := Dedup(keyOf, DropLast(s));
      DedupKeepsKeys(keyOf, DropLast(s), key);
      HasKeySnoc(keyOf, key, DropLast(s), Last(s));
      HasKeySnoc(keyOf, key, kept, Last(s));
      LastPutBack(s);
      assert kept != [] ==> Last(kept) in kept;
    }
  }

  lemma DistinctKeysSnoc<T, K>(keyOf: T -> K, s: seq<T>, x: T)
    ensures DistinctKeys(keyOf, s + [x]) <==> DistinctKeys(keyOf, s) && !HasKey(keyOf, keyOf(x), s)
  {
    var r := s + [x];
    if DistinctKeys(keyOf, r) {
      forall i, j | 0 <= i < j < |s| ensures keyOf(s[i]) != keyOf(s[j]) {
        assert r[i] == s[i] && r[j] == s[j];
      }
      forall y | y in s ensures keyOf(y) != keyOf(x) {
        var i :| 0 <= i < |s| && s[i] == y;
        assert r[i] == y && r[|s|] == x;
      }
    }
    if DistinctKeys(keyOf, s) && !HasKey(keyOf, keyOf(x), s) {
      forall i, j | 0 <= i < j < |r| ensures keyOf(r[i]) != keyOf(r[j]) {
        assert s[i] in s;
      }
    }
  }

  lemma AllSideBySideSnoc<T, K(!new)>(keyOf: T -> K, s: seq<T>, x: T)
    ensures AllSideBySide(keyOf, s + [x]) <==>
            AllSideBySide(keyOf, s) &&
            (s != [] && keyOf(Last(s)) != keyOf(x) ==> !HasKey(keyOf, keyOf(x), s))
  {
    SideBySideSnoc(keyOf, keyOf(x), s, x);
    if AllSideBySide(keyOf, s + [x]) {
      assert SideBySide(keyOf, keyOf(x), s + [x]);
      forall key ensures SideBySide(keyOf, key, s) {
        assert SideBySide(keyOf, key, s + [x]);
        SideBySideSnoc(keyOf, key, s, x);
      }
    }
    if AllSideBySide(keyOf, s) && (s != [] && keyOf(Last(s)) != keyOf(x) ==> !HasKey(keyOf, keyOf(x), s)) {
      forall key ensures SideBySide(keyOf, key, s + [x]) {
        assert SideBySide(keyOf, key, s);
        SideBySideSnoc(keyOf, key, s, x);
      }
    }
  }

  /** Dropping repeats of the neighbour leaves no key twice exactly when equal keys stand side by side. */
  lemma {:induction false} DedupDistinctExactlyWhen<T, K(!new)>(keyOf: T -> K, s: seq<T>)
    ensures DistinctKeys(keyOf, Dedup(keyOf, s)) <==> AllSideBySide(keyOf, s)
  {
    if s != [] {
      var init, x := DropLast(s), Last(s);
      DedupDistinctExactlyWhen(keyOf, init);
      DedupKeepsKeys(keyOf, init, keyOf(x));
      DistinctKeysSnoc(keyOf, Dedup(keyOf, init), x);
      AllSideBySideSnoc(keyOf, init, x);
      LastPutBack(s);
    }
  }
}

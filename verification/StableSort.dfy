/** A stable sort, `Vec::sort_by`, as a function, together with the laws the
    callers rest on: it is the only sorted rearrangement that keeps the order
    of ties, it commutes with filtering, and truncating it can be done early. */
module StableSort {
  import opened Sequences

  ghost predicate TotalPreorder<T(!new)>(le: (T, T) -> bool) {
    && (forall x, y :: le(x, y) || le(y, x))
    && (forall x, y, z :: le(x, y) && le(y, z) ==> le(x, z))
  }

  ghost predicate Sorted<T>(le: (T, T) -> bool, s: seq<T>) {
    forall i, j | 0 <= i < j < |s| :: le(s[i], s[j])
  }

  /** Places `x` behind every element of the sorted `s` that is not above it. */
  function Insert<T>(le: (T, T) -> bool, x: T, s: seq<T>): seq<T> {
    if s == [] then [x]
    else if le(Last(s), x) then s + [x]
    else Insert(le, x, DropLast(s)) + [Last(s)]
  }

  function Sort<T>(le: (T, T) -> bool, s: seq<T>): seq<T> {
    if s == [] then [] else Insert(le, Last(s), Sort(le, DropLast(s)))
  }

  function SameRank<T>(le: (T, T) -> bool, k: T): T -> bool {
    x => le(x, k) && le(k, x)
  }

  lemma SortSnoc<T>(le: (T, T) -> bool, s: seq<T>, x: T)
    ensures Sort(le, s + [x]) == Insert(le, x, Sort(le, s))
  {
    assert DropLast(s + [x]) == s;
  }

  lemma {:induction false} InsertAdds<T>(le: (T, T) -> bool, x: T, s: seq<T>)
    ensures multiset(Insert(le, x, s)) == multiset(s) + multiset{x}
    ensures |Insert(le, x, s)| == |s| + 1
    ensures forall y :: y in Insert(le, x, s) <==> y == x || y in s
  {
    if s != [] {
      assert s == DropLast(s) + [Last(s)];
      InsertAdds(le, x, DropLast(s));
    }
  }

  lemma BelowLast<T(!new)>(le: (T, T) -> bool, s: seq<T>, x: T)
    requires Sorted(le, s) && x in s
    ensures x == Last(s) || le(x, Last(s))
  {
    var i :| 0 <= i < |s| && s[i] == x;
    assert i == |s| - 1 || le(s[i], Last(s));
  }

  lemma {:induction false} InsertKeeps<T(!new)>(le: (T, T) -> bool, x: T, s: seq<T>)
    requires TotalPreorder(le) && Sorted(le, s)
    ensures Sorted(le, Insert(le, x, s))
  {
    if s != [] && !le(Last(s), x) {
      var init, l := DropLast(s), Last(s);
      InsertKeeps(le, x, init);
      InsertAdds(le, x, init);
      var r := Insert(le, x, init);
      forall i | 0 <= i < |r| ensures le(r[i], l) {
        assert r[i] in r;
        if r[i] != x {
          BelowLast(le, s, r[i]);
        }
      }
    }
  }

  lemma {:induction false} SortKeeps<T(!new)>(le: (T, T) -> bool, s: seq<T>)
    requires TotalPreorder(le)
    ensures Sorted(le, Sort(le, s))
    ensures multiset(Sort(le, s)) == multiset(s)
    ensures |Sort(le, s)| == |s|
    ensures forall x :: x in Sort(le, s) <==> x in s
  {
    if s != [] {
      assert s == DropLast(s) + [Last(s)];
      SortKeeps(le, DropLast(s));
      InsertKeeps(le, Last(s), Sort(le, DropLast(s)));
      InsertAdds(le, Last(s), Sort(le, DropLast(s)));
    }
    SameMembersOfEqualMultisets(Sort(le, s), s);
  }

  lemma {:induction false} InsertFilter<T(!new)>(le: (T, T) -> bool, p: T -> bool, x: T, s: seq<T>)
    requires TotalPreorder(le) && Sorted(le, s)
    ensures Filter(p, Insert(le, x, s)) == if p(x) then Insert(le, x, Filter(p, s)) else Filter(p, s)
  {
    if s == [] {
      FilterSnoc(p, [], x);
    } else {
      var init, l := DropLast(s), Last(s);
      var kept := Filter(p, s);
      FilterMembers(p, s);
      if le(l, x) {
        FilterSnoc(p, s, x);
        if kept != [] {
          assert Last(kept) in s;
          assert le(Last(kept), l) || Last(kept) == l;
        }
      } else {
        InsertFilter(le, p, x, init);
        FilterSnoc(p, Insert(le, x, init), l);
        if p(l) {
          assert DropLast(kept) == Filter(p, init);
        }
      }
    }
  }

  /** Dropping elements before or after sorting gives the same list. */
  lemma {:induction false} SortFilter<T(!new)>(le: (T, T) -> bool, p: T -> bool, s: seq<T>)
    requires TotalPreorder(le)
    ensures Filter(p, Sort(le, s)) == Sort(le, Filter(p, s))
  {
    if s != [] {
      var init, l := DropLast(s), Last(s);
      var sorted := Sort(le, init);
      SortFilter(le, p, init);
      assert Sorted(le, sorted) by { SortKeeps(le, init); }
      InsertFilter(le, p, l, sorted);
      if p(l) {
        assert Filter(p, s) == Filter(p, init) + [l];
        SortSnoc(le, Filter(p, init), l);
      }
    }
  }

  lemma {:induction false} SortOfSorted<T(!new)>(le: (T, T) -> bool, s: seq<T>)
    requires Sorted(le, s)
    ensures Sort(le, s) == s
  {
    if s != [] {
      SortOfSorted(le, DropLast(s));
    }
  }

  lemma FilterKeepsSorted<T(!new)>(le: (T, T) -> bool, p: T -> bool, xs: seq<T>)
    requires TotalPreorder(le) && Sorted(le, xs)
    ensures Sorted(le, Filter(p, xs))
  {
    SortOfSorted(le, xs);
    SortFilter(le, p, xs);
    SortKeeps(le, Filter(p, xs));
  }

  lemma {:induction false} SortAppendSorted<T(!new)>(le: (T, T) -> bool, a: seq<T>, b: seq<T>)
    requires TotalPreorder(le)
    ensures Sort(le, Sort(le, a) + b) == Sort(le, a + b)
  {
    if b == [] {
      SortKeeps(le, a);
      SortOfSorted(le, Sort(le, a));
      assert Sort(le, a) + b == Sort(le, a) && a + b == a;
    } else {
      SortAppendSorted(le, a, DropLast(b));
      assert DropLast(Sort(le, a) + b) == Sort(le, a) + DropLast(b);
      assert DropLast(a + b) == a + DropLast(b);
    }
  }

  /** Ties keep their order. */
  lemma SortIsStable<T(!new)>(le: (T, T) -> bool, s: seq<T>, k: T)
    requires TotalPreorder(le)
    ensures Filter(SameRank(le, k), Sort(le, s)) == Filter(SameRank(le, k), s)
  {
    var tie := SameRank(le, k);
    SortFilter(le, tie, s);
    FilterMembers(tie, s);
    var ties := Filter(tie, s);
    forall i, j | 0 <= i < j < |ties| ensures le(ties[i], ties[j]) {
      assert ties[i] in ties && ties[j] in ties;
    }
    SortOfSorted(le, ties);
  }

  lemma LastOfTopRank<T(!new)>(le: (T, T) -> bool, s: seq<T>, k: T)
    requires TotalPreorder(le) && Sorted(le, s) && s != []
    requires le(Last(s), k)
    requires exists x :: x in s && SameRank(le, k)(x)
    ensures SameRank(le, k)(Last(s))
    ensures Filter(SameRank(le, k), s) != [] && Last(Filter(SameRank(le, k), s)) == Last(s)
  {
    var x :| x in s && SameRank(le, k)(x);
    var i :| 0 <= i < |s| && s[i] == x;
    assert i == |s| - 1 || le(s[i], Last(s));
  }

  /** Two sorted lists whose ties agree rank by rank are the same list. */
  lemma {:induction false} StableOrderIsUnique<T(!new)>(le: (T, T) -> bool, a: seq<T>, b: seq<T>)
    requires TotalPreorder(le) && Sorted(le, a) && Sorted(le, b)
    requires forall k :: Filter(SameRank(le, k), a) == Filter(SameRank(le, k), b)
    ensures a == b
    decreases |a| + |b|
  {
    if a == [] && b == [] {
    } else {
      var k := if a == [] then Last(b) else if b == [] then Last(a)
               else if le(Last(a), Last(b)) then Last(b) else Last(a);
      var tie := SameRank(le, k);
      FilterMembers(tie, a);
      FilterMembers(tie, b);
      assert Filter(tie, a) == Filter(tie, b);
      assert k in Filter(tie, a);
      assert a != [] && b != [];
      LastOfTopRank(le, a, k);
      LastOfTopRank(le, b, k);
      forall j ensures Filter(SameRank(le, j), DropLast(a)) == Filter(SameRank(le, j), DropLast(b)) {
        var same := SameRank(le, j);
        assert Filter(same, a) == Filter(same, b);
        assert same(Last(a)) == same(Last(b));
        if same(Last(a)) {
          assert Filter(same, DropLast(a)) == DropLast(Filter(same, a));
          assert Filter(same, DropLast(b)) == DropLast(Filter(same, b));
        }
      }
      StableOrderIsUnique(le, DropLast(a), DropLast(b));
      assert a == DropLast(a) + [Last(a)] && b == DropLast(b) + [Last(b)];
    }
  }

  /** `r` is `s` put in order, the elements of every rank as they stood. */
  ghost predicate StablySorted<T(!new)>(le: (T, T) -> bool, s: seq<T>, r: seq<T>) {
    Sorted(le, r) && forall k :: Filter(SameRank(le, k), r) == Filter(SameRank(le, k), s)
  }

  /** A list has exactly one stably sorted form. */
  lemma SortIsTheStableOrder<T(!new)>(le: (T, T) -> bool, s: seq<T>, r: seq<T>)
    requires TotalPreorder(le)
    ensures r == Sort(le, s) <==> StablySorted(le, s, r)
  {
    SortKeeps(le, s);
    forall k ensures Filter(SameRank(le, k), Sort(le, s)) == Filter(SameRank(le, k), s) {
      SortIsStable(le, s, k);
    }
    if StablySorted(le, s, r) {
      StableOrderIsUnique(le, r, Sort(le, s));
    }
  }

  /** Only equal elements tie. */
  ghost predicate TiesAreEqual<T>(le: (T, T) -> bool, s: seq<T>) {
    forall x, y | x in s && y in s && le(x, y) && le(y, x) :: x == y
  }

  lemma SameLast<T(!new)>(le: (T, T) -> bool, a: seq<T>, b: seq<T>)
    requires Sorted(le, a) && Sorted(le, b) && TiesAreEqual(le, a)
    requires a != [] && b != [] && forall x :: x in a <==> x in b
    ensures Last(a) == Last(b)
  {
    assert Last(a) in a && Last(b) in b;
    BelowLast(le, b, Last(a));
    BelowLast(le, a, Last(b));
  }

  lemma DropSameLast<T>(a: seq<T>, b: seq<T>)
    requires multiset(a) == multiset(b)
    requires a != [] && b != [] && Last(a) == Last(b)
    ensures multiset(DropLast(a)) == multiset(DropLast(b))
  {
    assert a == DropLast(a) + [Last(a)] && b == DropLast(b) + [Last(b)];
    assert multiset(DropLast(a)) == multiset(a) - multiset{Last(a)};
    assert multiset(DropLast(b)) == multiset(b) - multiset{Last(b)};
  }

  lemma {:induction false} SortedPermutationsAgree<T(!new)>(le: (T, T) -> bool, a: seq<T>, b: seq<T>)
    requires Sorted(le, a) && Sorted(le, b)
    requires multiset(a) == multiset(b)
    requires TiesAreEqual(le, a)
    ensures a == b
  {
    SameMembersOfEqualMultisets(a, b);
    if a != [] {
      SameLast(le, a, b);
      DropSameLast(a, b);
      assert forall z | z in DropLast(a) :: z in a;
      SortedPermutationsAgree(le, DropLast(a), DropLast(b));
      assert a == DropLast(a) + [Last(a)] && b == DropLast(b) + [Last(b)];
    }
  }

  /** When no two different elements tie, the input order does not matter. */
  lemma SortIgnoresOrder<T(!new)>(le: (T, T) -> bool, a: seq<T>, b: seq<T>)
    requires TotalPreorder(le)
    requires multiset(a) == multiset(b)
    requires TiesAreEqual(le, a)
    ensures Sort(le, a) == Sort(le, b)
  {
    SortKeeps(le, a);
    SortKeeps(le, b);
    SortedPermutationsAgree(le, Sort(le, a), Sort(le, b));
  }

  /** Keeping only the first `k` before an insertion loses nothing of the first `k` after it. */
  lemma {:induction false} TakeInsert<T(!new)>(le: (T, T) -> bool, k: nat, x: T, s: seq<T>)
    requires TotalPreorder(le) && Sorted(le, s)
    ensures Take(k, Insert(le, x, s)) == Take(k, Insert(le, x, Take(k, s)))
  {
    if |s| > k {
      var init, l := DropLast(s), Last(s);
      InsertAdds(le, x, init);
      assert Take(k, s) == Take(k, init);
      if le(l, x) {
        if k > 0 {
          assert le(s[k - 1], l);
          assert le(Last(Take(k, s)), x);
        }
      } else {
        TakeInsert(le, k, x, init);
      }
    }
  }
}

/** Sequence functions that build from the end, as the loops do, and their laws. */
module Sequences {
  function Last<T>(s: seq<T>): T
    requires s != []
  {
    s[|s| - 1]
  }

  function DropLast<T>(s: seq<T>): seq<T>
    requires s != []
  {
    s[..|s| - 1]
  }

  /** The first `k` elements, or all of them: `Vec::truncate`, `Iterator::take`. */
  function Take<T>(k: nat, s: seq<T>): seq<T> {
    if |s| <= k then s else s[..k]
  }

  /** The last `k` elements, or all of them. */
  function TakeLast<T>(k: nat, s: seq<T>): seq<T> {
    if |s| <= k then s else s[|s| - k..]
  }

  /** The elements satisfying `p`, in order: `Vec::retain`, `Iterator::filter`. */
  function Filter<T>(p: T -> bool, s: seq<T>): seq<T> {
    if s == [] then []
    else if p(Last(s)) then Filter(p, DropLast(s)) + [Last(s)]
    else Filter(p, DropLast(s))
  }

  function Map<T, U>(f: T -> U, s: seq<T>): (r: seq<U>)
    ensures |r| == |s|
    ensures forall i | 0 <= i < |s| :: r[i] == f(s[i])
  {
    if s == [] then [] else Map(f, DropLast(s)) + [f(Last(s))]
  }

  lemma LastPutBack<T>(s: seq<T>)
    requires s != []
    ensures s == DropLast(s) + [Last(s)]
  {
  }

  lemma MapSnoc<T, U>(f: T -> U, s: seq<T>, x: T)
    ensures Map(f, s + [x]) == Map(f, s) + [f(x)]
  {
    assert DropLast(s + [x]) == s;
  }

  lemma AppendAssociative<T>(a: seq<T>, b: seq<T>, c: seq<T>)
    ensures (a + b) + c == a + (b + c)
  {
  }

  lemma FilterSnoc<T>(p: T -> bool, s: seq<T>, x: T)
    ensures Filter(p, s + [x]) == if p(x) then Filter(p, s) + [x] else Filter(p, s)
  {
    assert DropLast(s + [x]) == s;
  }

  lemma {:induction false} FilterAppend<T>(p: T -> bool, a: seq<T>, b: seq<T>)
    ensures Filter(p, a + b) == Filter(p, a) + Filter(p, b)
  {
    if b == [] {
      assert a + b == a;
    } else {
      assert DropLast(a + b) == a + DropLast(b);
      FilterAppend(p, a, DropLast(b));
    }
  }

  lemma {:induction false} FilterMembers<T>(p: T -> bool, s: seq<T>)
    ensures forall x :: x in Filter(p, s) <==> x in s && p(x)
  {
    if s != [] {
      FilterMembers(p, DropLast(s));
      assert s == DropLast(s) + [Last(s)];
    }
  }

  lemma {:induction false} FilterAll<T>(p: T -> bool, s: seq<T>)
    requires forall x | x in s :: p(x)
    ensures Filter(p, s) == s
  {
    if s != [] {
      var init, l := DropLast(s), Last(s);
      assert s == init + [l] && l in s;
      assert forall x | x in init :: x in s;
      FilterAll(p, init);
    }
  }

  lemma {:induction false} FilterNone<T>(p: T -> bool, s: seq<T>)
    requires forall x | x in s :: !p(x)
    ensures Filter(p, s) == []
  {
    if s != [] {
      FilterNone(p, DropLast(s));
    }
  }

  function Both<T>(p: T -> bool, q: T -> bool): T -> bool {
    x => p(x) && q(x)
  }

  lemma {:induction false} FilterFilter<T>(p: T -> bool, q: T -> bool, s: seq<T>)
    ensures Filter(p, Filter(q, s)) == Filter(Both(p, q), s)
  {
    if s != [] {
      FilterFilter(p, q, DropLast(s));
      if q(Last(s)) {
        FilterSnoc(p, Filter(q, DropLast(s)), Last(s));
      }
    }
  }

  lemma {:induction false} FilterSame<T>(p: T -> bool, q: T -> bool, s: seq<T>)
    requires forall x | x in s :: p(x) == q(x)
    ensures Filter(p, s) == Filter(q, s)
  {
    if s != [] {
      FilterSame(p, q, DropLast(s));
    }
  }

  lemma {:induction false} FilterMultiset<T>(p: T -> bool, s: seq<T>, x: T)
    ensures multiset(Filter(p, s))[x] == if p(x) then multiset(s)[x] else 0
  {
    if s != [] {
      assert s == DropLast(s) + [Last(s)];
      FilterMultiset(p, DropLast(s), x);
    }
  }

  function FlatMap<T, U>(f: T -> seq<U>, s: seq<T>): seq<U> {
    if s == [] then [] else FlatMap(f, DropLast(s)) + f(Last(s))
  }

  lemma FlatMapSnoc<T, U>(f: T -> seq<U>, s: seq<T>, x: T)
    ensures FlatMap(f, s + [x]) == FlatMap(f, s) + f(x)
  {
    assert DropLast(s + [x]) == s;
  }

  lemma {:induction false} FlatMapAppend<T, U>(f: T -> seq<U>, a: seq<T>, b: seq<T>)
    ensures FlatMap(f, a + b) == FlatMap(f, a) + FlatMap(f, b)
  {
    if b == [] {
      assert a + b == a;
    } else {
      FlatMapAppend(f, a, DropLast(b));
      assert DropLast(a + b) == a + DropLast(b);
      AppendAssociative(FlatMap(f, a), FlatMap(f, DropLast(b)), f(Last(b)));
    }
  }

  lemma Rejoin<T>(s: seq<T>, k: nat)
    requires k < |s|
    ensures (s[..k] + [s[k]]) + s[k + 1..] == s
  {
  }

  lemma MiddleOut<T>(a: seq<T>, b: seq<T>, c: seq<T>)
    ensures multiset((a + b) + c) == multiset(a + c) + multiset(b)
  {
  }

  lemma FlatMapTakeOut<T, U>(f: T -> seq<U>, s: seq<T>, k: nat)
    requires k < |s|
    ensures multiset(FlatMap(f, s)) == multiset(FlatMap(f, s[..k] + s[k + 1..])) + multiset(f(s[k]))
  {
    var a, b := s[..k], s[k + 1..];
    Rejoin(s, k);
    FlatMapAppend(f, a, b);
    FlatMapAppend(f, a + [s[k]], b);
    FlatMapSnoc(f, a, s[k]);
    MiddleOut(FlatMap(f, a), f(s[k]), FlatMap(f, b));
  }

  lemma TakeOutSame<T>(a: seq<T>, b: seq<T>, k: nat)
    requires multiset(a) == multiset(b) && a != [] && k < |b| && b[k] == Last(a)
    ensures multiset(DropLast(a)) == multiset(b[..k] + b[k + 1..])
  {
    LastPutBack(a);
    assert b == b[..k] + [b[k]] + b[k + 1..];
    assert multiset(DropLast(a)) == multiset(a) - multiset{Last(a)};
    assert multiset(b[..k] + b[k + 1..]) == multiset(b) - multiset{b[k]};
  }

  lemma {:induction false} SameMembersOfEqualMultisets<T>(a: seq<T>, b: seq<T>)
    requires multiset(a) == multiset(b)
    ensures |a| == |b|
    ensures forall x :: x in a <==> x in b
  {
    assert |multiset(a)| == |a| && |multiset(b)| == |b|;
    forall x ensures x in a <==> x in b {
      assert x in a <==> x in multiset(a);
      assert x in b <==> x in multiset(b);
    }
  }

  /** Another order of the arguments moves the results, but adds and loses none. */
  lemma {:induction false} FlatMapIgnoresOrder<T, U>(f: T -> seq<U>, a: seq<T>, b: seq<T>)
    requires multiset(a) == multiset(b)
    ensures multiset(FlatMap(f, a)) == multiset(FlatMap(f, b))
    decreases |a|
  {
    SameMembersOfEqualMultisets(a, b);
    if a != [] {
      assert Last(a) in b;
      var k :| 0 <= k < |b| && b[k] == Last(a);
      TakeOutSame(a, b, k);
      FlatMapIgnoresOrder(f, DropLast(a), b[..k] + b[k + 1..]);
      FlatMapTakeOut(f, b, k);
    }
  }

  /** `f` of every two neighbours: a `map` over `windows(2)`. */
  function Pairwise<T, U>(f: (T, T) -> U, s: seq<T>): seq<U> {
    if |s| < 2 then [] else Pairwise(f, DropLast(s)) + [f(s[|s| - 2], s[|s| - 1])]
  }

  lemma {:induction false} PairwiseLength<T, U>(f: (T, T) -> U, s: seq<T>)
    ensures |Pairwise(f, s)| == if s == [] then 0 else |s| - 1
  {
    if |s| >= 2 {
      PairwiseLength(f, DropLast(s));
    }
  }

  lemma {:induction false} PairwiseAt<T, U>(f: (T, T) -> U, s: seq<T>, i: nat)
    requires i < |s| - 1
    ensures |Pairwise(f, s)| == |s| - 1 && Pairwise(f, s)[i] == f(s[i], s[i + 1])
  {
    PairwiseLength(f, s);
    PairwiseLength(f, DropLast(s));
    if i < |s| - 2 {
      PairwiseAt(f, DropLast(s), i);
    }
  }

  /** Dropping some elements of `s` leaves `r`. */
  ghost predicate Subsequence<T>(r: seq<T>, s: seq<T>)
    decreases |s|
  {
    || r == []
    || (s != [] && Last(r) == Last(s) && Subsequence(DropLast(r), DropLast(s)))
    || (s != [] && Subsequence(r, DropLast(s)))
  }

  /** `r` is every occurrence in `s` of what satisfies `p`, and nothing else, in order. */
  ghost predicate KeepsExactly<T(!new)>(p: T -> bool, s: seq<T>, r: seq<T>) {
    Subsequence(r, s) && forall x :: multiset(r)[x] == if p(x) then multiset(s)[x] else 0
  }

  lemma {:induction false} SubsequenceHasNoMore<T>(r: seq<T>, s: seq<T>, x: T)
    requires Subsequence(r, s)
    ensures multiset(r)[x] <= multiset(s)[x]
    decreases |s|
  {
    if r != [] {
      LastPutBack(r);
      LastPutBack(s);
      if Last(r) == Last(s) && Subsequence(DropLast(r), DropLast(s)) {
        SubsequenceHasNoMore(DropLast(r), DropLast(s), x);
      } else {
        SubsequenceHasNoMore(r, DropLast(s), x);
      }
    }
  }

  lemma SubsequenceSnoc<T>(r: seq<T>, s: seq<T>, x: T)
    requires Subsequence(r, s)
    ensures Subsequence(r, s + [x]) && Subsequence(r + [x], s + [x])
  {
    assert DropLast(s + [x]) == s && DropLast(r + [x]) == r;
  }

  lemma {:induction false} FilterIsSubsequence<T>(p: T -> bool, s: seq<T>)
    ensures Subsequence(Filter(p, s), s)
  {
    if s != [] {
      FilterIsSubsequence(p, DropLast(s));
      if p(Last(s)) {
        assert DropLast(Filter(p, s)) == Filter(p, DropLast(s));
      }
    }
  }

  lemma LastIsKept<T(!new)>(p: T -> bool, s: seq<T>, r: seq<T>)
    requires KeepsExactly(p, s, r) && s != [] && p(Last(s))
    ensures r != [] && Last(r) == Last(s) && Subsequence(DropLast(r), DropLast(s))
  {
    var init, l := DropLast(s), Last(s);
    LastPutBack(s);
    assert multiset(s)[l] == multiset(init)[l] + 1;
    if Subsequence(r, init) {
      SubsequenceHasNoMore(r, init, l);
      assert false;
    }
  }

  lemma {:induction false} KeptIsFilter<T(!new)>(p: T -> bool, s: seq<T>, r: seq<T>)
    requires KeepsExactly(p, s, r)
    ensures r == Filter(p, s)
  {
    if s != [] {
      var init, l := DropLast(s), Last(s);
      LastPutBack(s);
      assert multiset(s) == multiset(init) + multiset{l};
      if p(l) {
        LastIsKept(p, s, r);
        LastPutBack(r);
        assert multiset(r) == multiset(DropLast(r)) + multiset{l};
        KeptIsFilter(p, init, DropLast(r));
      } else {
        assert multiset(r)[l] == 0;
        assert r != [] ==> Last(r) in r;
        KeptIsFilter(p, init, r);
      }
    }
  }

  /** There is exactly one such list. */
  lemma FilterKeepsExactly<T(!new)>(p: T -> bool, s: seq<T>, r: seq<T>)
    ensures r == Filter(p, s) <==> KeepsExactly(p, s, r)
  {
    FilterIsSubsequence(p, s);
    forall x ensures multiset(Filter(p, s))[x] == if p(x) then multiset(s)[x] else 0 {
      FilterMultiset(p, s, x);
    }
    if KeepsExactly(p, s, r) {
      KeptIsFilter(p, s, r);
    }
  }

  /** No element occurs twice. */
  ghost predicate Distinct<T>(s: seq<T>) {
    forall i, j | 0 <= i < j < |s| :: s[i] != s[j]
  }

  lemma {:induction false} FilterDistinct<T>(p: T -> bool, s: seq<T>)
    requires Distinct(s)
    ensures Distinct(Filter(p, s))
  {
    if s != [] {
      FilterDistinct(p, DropLast(s));
      FilterMembers(p, DropLast(s));
    }
  }
}

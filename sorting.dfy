/**
  The query combinators of the services: filtering (`Array.prototype.filter`
  and SQL `WHERE`), `LIMIT`, and a stable sort by key. The services sort with JavaScript's
  `Array.prototype.sort`, which ECMAScript 2019 requires to be stable, and with
  SQL `ORDER BY`, whose ties the model breaks by the order of the rows it is
  given. Both are modelled by insertion sort: an element is inserted in front
  of the first element it may precede, so of two elements with equal keys the
  one that came first stays first.
*/
module Sorting {

  /** `before(a, b)`: a key `a` may be placed before a key `b`. A total order
      (reflexive by totality, antisymmetric and transitive). */
  ghost predicate TotalOrder<K(!new)>(before: (K, K) -> bool) {
    && (forall a, b :: before(a, b) || before(b, a))
    && (forall a, b :: before(a, b) && before(b, a) ==> a == b)
    && (forall a, b, c :: before(a, b) && before(b, c) ==> before(a, c))
  }

  ghost predicate SortedBy<T, K>(s: seq<T>, key: T -> K, before: (K, K) -> bool) {
    forall i, j :: 0 <= i < j < |s| ==> before(key(s[i]), key(s[j]))
  }

  /** The elements of `s` whose key is `k`, in their order in `s`. */
  function WithKey<T, K(==)>(s: seq<T>, key: T -> K, k: K): (r: seq<T>)
    ensures |r| <= |s|
  {
    if s == [] then []
    else (if key(s[0]) == k then [s[0]] else []) + WithKey(s[1..], key, k)
  }

  function Insert<T(==), K>(x: T, s: seq<T>, key: T -> K, before: (K, K) -> bool): (r: seq<T>)
    ensures multiset(r) == multiset(s) + multiset{x}
    decreases |s|
  {
    if s == [] then [x]
    else if before(key(x), key(s[0])) then [x] + s
    else
      assert s == [s[0]] + s[1..];
      [s[0]] + Insert(x, s[1..], key, before)
  }

  /** Sort `s` so that keys come in `before` order; equal keys keep their
      order in `s`. */
  function Sort<T(==), K>(s: seq<T>, key: T -> K, before: (K, K) -> bool): (r: seq<T>)
    ensures multiset(r) == multiset(s)
    ensures |r| == |s|
  {
    if s == [] then []
    else
      assert s == [s[0]] + s[1..];
      Insert(s[0], Sort(s[1..], key, before), key, before)
  }

  lemma InMultisetInSeq<T>(y: T, s: seq<T>, r: seq<T>)
    requires multiset(r) == multiset(s)
    ensures y in r <==> y in s
  {
    assert y in r <==> y in multiset(r);
    assert y in s <==> y in multiset(s);
  }

  /** Every element of `Insert(x, s, ...)` is `x` or an element of `s`. */
  lemma InInsert<T, K>(x: T, s: seq<T>, key: T -> K, before: (K, K) -> bool, j: nat)
    requires j < |Insert(x, s, key, before)|
    ensures Insert(x, s, key, before)[j] == x || Insert(x, s, key, before)[j] in s
  {
    var r := Insert(x, s, key, before);
    assert r[j] in multiset(r);
  }

  lemma SortedCons<T, K>(y: T, t: seq<T>, key: T -> K, before: (K, K) -> bool)
    requires SortedBy(t, key, before)
    requires forall j :: 0 <= j < |t| ==> before(key(y), key(t[j]))
    ensures SortedBy([y] + t, key, before)
  {
    var r := [y] + t;
    forall i, j | 0 <= i < j < |r| ensures before(key(r[i]), key(r[j])) {
      assert r[j] == t[j - 1];
      if i > 0 {
        assert r[i] == t[i - 1];
      }
    }
  }

  lemma {:induction false} InsertSorted<T, K(!new)>(x: T, s: seq<T>, key: T -> K, before: (K, K) -> bool)
    requires TotalOrder(before)
    requires SortedBy(s, key, before)
    ensures SortedBy(Insert(x, s, key, before), key, before)
    decreases |s|
  {
    if s != [] && !before(key(x), key(s[0])) {
      var t := s[1..];
      var rt := Insert(x, t, key, before);
      assert SortedBy(t, key, before) by {
        forall i, j | 0 <= i < j < |t| ensures before(key(t[i]), key(t[j])) {
          assert t[i] == s[i + 1] && t[j] == s[j + 1];
        }
      }
      InsertSorted(x, t, key, before);
      assert before(key(s[0]), key(x));
      forall j | 0 <= j < |rt| ensures before(key(s[0]), key(rt[j])) {
        InInsert(x, t, key, before, j);
        if rt[j] != x {
          var m :| 0 <= m < |t| && t[m] == rt[j];
          assert s[m + 1] == rt[j];
        }
      }
      SortedCons(s[0], rt, key, before);
    }
  }

  lemma {:induction false} SortSorted<T, K(!new)>(s: seq<T>, key: T -> K, before: (K, K) -> bool)
    requires TotalOrder(before)
    ensures SortedBy(Sort(s, key, before), key, before)
    decreases |s|
  {
    if s != [] {
      SortSorted(s[1..], key, before);
      InsertSorted(s[0], Sort(s[1..], key, before), key, before);
    }
  }

  lemma {:induction false} InsertStable<T, K(!new)>(x: T, s: seq<T>, key: T -> K, before: (K, K) -> bool, k: K)
    requires forall a :: before(a, a)
    ensures WithKey(Insert(x, s, key, before), key, k)
         == (if key(x) == k then [x] else []) + WithKey(s, key, k)
    decreases |s|
  {
    if s == [] || before(key(x), key(s[0])) {
      assert Insert(x, s, key, before) == [x] + s;
      WithKeyCons(x, s, key, k);
    } else {
      assert key(x) != key(s[0]) by {
        assert before(key(x), key(x));
      }
      InsertStable(x, s[1..], key, before, k);
      WithKeyCons(s[0], Insert(x, s[1..], key, before), key, k);
      WithKeyCons(s[0], s[1..], key, k);
      assert [s[0]] + s[1..] == s;
    }
  }

  lemma WithKeyCons<T, K>(y: T, t: seq<T>, key: T -> K, k: K)
    ensures WithKey([y] + t, key, k) == (if key(y) == k then [y] else []) + WithKey(t, key, k)
  {
    assert ([y] + t)[1..] == t;
  }

  /** Stability: for every key, the elements with that key appear in the
      sorted sequence in the same order as in the input. */
  lemma {:induction false} SortStable<T, K(!new)>(s: seq<T>, key: T -> K, before: (K, K) -> bool, k: K)
    requires TotalOrder(before)
    ensures WithKey(Sort(s, key, before), key, k) == WithKey(s, key, k)
    decreases |s|
  {
    if s != [] {
      SortStable(s[1..], key, before, k);
      assert forall a :: before(a, a);
      InsertStable(s[0], Sort(s[1..], key, before), key, before, k);
    }
  }

  /** No two elements of `s` agree on `f`. */
  ghost predicate DistinctBy<T, L>(s: seq<T>, f: T -> L) {
    forall i, j :: 0 <= i < j < |s| ==> f(s[i]) != f(s[j])
  }

  lemma DistinctCons<T, L>(y: T, t: seq<T>, f: T -> L)
    requires DistinctBy(t, f)
    requires forall j :: 0 <= j < |t| ==> f(y) != f(t[j])
    ensures DistinctBy([y] + t, f)
  {
    var r := [y] + t;
    forall i, j | 0 <= i < j < |r| ensures f(r[i]) != f(r[j]) {
      assert r[j] == t[j - 1];
      if i > 0 {
        assert r[i] == t[i - 1];
      }
    }
  }

  lemma {:induction false} InsertDistinctBy<T, K, L>(x: T, s: seq<T>, key: T -> K, before: (K, K) -> bool, f: T -> L)
    requires DistinctBy(s, f)
    requires forall i :: 0 <= i < |s| ==> f(s[i]) != f(x)
    ensures DistinctBy(Insert(x, s, key, before), f)
    decreases |s|
  {
    if s != [] && !before(key(x), key(s[0])) {
      var t := s[1..];
      var rt := Insert(x, t, key, before);
      InsertDistinctBy(x, t, key, before, f);
      forall j | 0 <= j < |rt| ensures f(s[0]) != f(rt[j]) {
        InInsert(x, t, key, before, j);
        if rt[j] != x {
          var m :| 0 <= m < |t| && t[m] == rt[j];
          assert s[m + 1] == rt[j];
        }
      }
      DistinctCons(s[0], rt, f);
    } else if s != [] {
      DistinctCons(x, s, f);
    }
  }

  /** Sorting keeps any property of the elements that tells them apart:
      when no two elements agree on `f`, no two sorted elements do. */
  lemma {:induction false} SortDistinctBy<T, K, L>(s: seq<T>, key: T -> K, before: (K, K) -> bool, f: T -> L)
    requires DistinctBy(s, f)
    ensures DistinctBy(Sort(s, key, before), f)
    decreases |s|
  {
    if s != [] {
      var t := s[1..];
      assert DistinctBy(t, f) by {
        forall i, j | 0 <= i < j < |t| ensures f(t[i]) != f(t[j]) {
          assert t[i] == s[i + 1] && t[j] == s[j + 1];
        }
      }
      SortDistinctBy(t, key, before, f);
      var st := Sort(t, key, before);
      forall i | 0 <= i < |st| ensures f(st[i]) != f(s[0]) {
        var y := st[i];
        assert y in multiset(st);
        assert y in multiset(t);
        var m :| 0 <= m < |t| && t[m] == y;
        assert s[m + 1] == y;
      }
      InsertDistinctBy(s[0], st, key, before, f);
    }
  }

  /** `s.filter(p)` and SQL `WHERE p`: the elements satisfying `p`, in
      their order in `s`. */
  function Filter<T>(s: seq<T>, p: T -> bool): (r: seq<T>)
    ensures |r| <= |s|
    ensures forall i :: 0 <= i < |r| ==> p(r[i]) && r[i] in s
    ensures forall i :: 0 <= i < |s| && p(s[i]) ==> s[i] in r
    decreases |s|
  {
    if s == [] then []
    else
      var n := |s| - 1;
      assert s == s[..n] + [s[n]];
      Filter(s[..n], p) + (if p(s[n]) then [s[n]] else [])
  }

  /** A `WHERE` that every row meets keeps the table as it is. */
  lemma {:induction false} FilterAll<T>(s: seq<T>, p: T -> bool)
    requires forall x :: p(x)
    ensures Filter(s, p) == s
    decreases |s|
  {
    if s != [] {
      var n := |s| - 1;
      FilterAll(s[..n], p);
      assert s == s[..n] + [s[n]];
    }
  }

  /** Filtering keeps the order: a sorted sequence stays sorted. */
  lemma {:induction false} FilterSortedBy<T, K>(s: seq<T>, p: T -> bool, key: T -> K, before: (K, K) -> bool)
    requires SortedBy(s, key, before)
    ensures SortedBy(Filter(s, p), key, before)
    decreases |s|
  {
    if s != [] {
      var n := |s| - 1;
      var q := s[..n];
      assert SortedBy(q, key, before) by {
        forall i, j | 0 <= i < j < |q| ensures before(key(q[i]), key(q[j])) {
          assert q[i] == s[i] && q[j] == s[j];
        }
      }
      FilterSortedBy(q, p, key, before);
      var r0 := Filter(q, p);
      if p(s[n]) {
        var r := r0 + [s[n]];
        forall i, j | 0 <= i < j < |r| ensures before(key(r[i]), key(r[j])) {
          if j < |r0| {
            assert r[i] == r0[i] && r[j] == r0[j];
          } else {
            assert r[i] == r0[i] && r0[i] in q;
            var m :| 0 <= m < |q| && q[m] == r0[i];
            assert s[m] == r[i] && s[n] == r[j];
          }
        }
      }
    }
  }

  /** SQL `LIMIT n`: the first `n` rows, all of them when there are fewer. */
  function Take<T>(s: seq<T>, n: nat): (r: seq<T>)
    ensures |r| == if n < |s| then n else |s|
    ensures forall i :: 0 <= i < |r| ==> r[i] == s[i]
  {
    if n < |s| then s[..n] else s
  }

  /** `ORDER BY <column> DESC` on an integer column. */
  predicate AtLeast(x: int, y: int) {
    x >= y
  }

  lemma AtLeastTotal()
    ensures TotalOrder(AtLeast)
  {
  }

  /** `LIMIT ${n}` interpolated into the query text: a negative `n` is an
      SQL syntax error, which the services' `catch` turns into []. */
  function Limited<T>(rows: seq<T>, n: int): (r: seq<T>)
    ensures n < 0 ==> r == []
    ensures n >= 0 ==> r == Take(rows, n)
  {
    if n < 0 then [] else Take(rows, n)
  }

  /** `ORDER BY ... LIMIT n` returns the top rows: the result is sorted, and
      every row it leaves out comes after every row it keeps. */
  lemma LimitedTop<T, K>(s: seq<T>, key: T -> K, before: (K, K) -> bool, n: int, x: T)
    requires SortedBy(s, key, before)
    ensures SortedBy(Limited(s, n), key, before)
    ensures x in s && x !in Limited(s, n) ==>
      forall i :: 0 <= i < |Limited(s, n)| ==> before(key(Limited(s, n)[i]), key(x))
  {
    var r := Limited(s, n);
    assert forall i :: 0 <= i < |r| ==> r[i] == s[i];
    if x in s && x !in r {
      var j :| 0 <= j < |s| && s[j] == x;
      assert j >= |r|;
    }
  }

  /** What a `WHERE p ORDER BY key LIMIT n` query promises: matching rows
      of the table, each no more often than the table holds it, in order;
      exactly `n` of them, or every matching row when there are fewer; none
      for a negative `n`; and every matching row left out ranked after
      every row returned. */
  ghost predicate TopRows<T, K>(rows: seq<T>, p: T -> bool, key: T -> K, before: (K, K) -> bool,
                                n: int, r: seq<T>) {
    && multiset(r) <= multiset(Filter(rows, p))
    && (forall i :: 0 <= i < |r| ==> r[i] in rows && p(r[i]))
    && SortedBy(r, key, before)
    && (n < 0 ==> r == [])
    && (n >= 0 ==> |r| == if n < |Filter(rows, p)| then n else |Filter(rows, p)|)
    && (forall x :: x in rows && p(x) && x !in r ==> forall i :: 0 <= i < |r| ==> before(key(r[i]), key(x)))
    && (n >= |Filter(rows, p)| ==> forall x :: x in rows && p(x) ==> x in r)
  }

  lemma TakeSubMultiset<T>(s: seq<T>, n: nat)
    ensures multiset(Take(s, n)) <= multiset(s)
  {
    if n < |s| {
      assert s == s[..n] + s[n..];
      assert multiset(s) == multiset(s[..n]) + multiset(s[n..]);
    }
  }

  /** The query the services build really returns the top rows. */
  lemma QueryIsTop<T, K(!new)>(rows: seq<T>, p: T -> bool, key: T -> K, before: (K, K) -> bool, n: int)
    requires TotalOrder(before)
    ensures TopRows(rows, p, key, before, n, Limited(Sort(Filter(rows, p), key, before), n))
  {
    var m := Filter(rows, p);
    var s := Sort(m, key, before);
    var r := Limited(s, n);
    SortSorted(m, key, before);
    if n >= 0 {
      TakeSubMultiset(s, n);
    }
    forall x ensures x in rows && p(x) && x !in r ==> forall i :: 0 <= i < |r| ==> before(key(r[i]), key(x)) {
      LimitedTop(s, key, before, n, x);
      if x in rows && p(x) {
        var j :| 0 <= j < |rows| && rows[j] == x;
        InMultisetInSeq(x, m, s);
      }
    }
    forall i | 0 <= i < |r| ensures r[i] in rows && p(r[i]) {
      InMultisetInSeq(s[i], m, s);
    }
    if n >= |m| {
      assert r == s;
      forall x | x in rows && p(x) ensures x in r {
        var j :| 0 <= j < |rows| && rows[j] == x;
        InMultisetInSeq(x, m, s);
      }
    }
  }

  /** What a second filter `q` over the answer `w` of a top-rows query
      promises: rows of the table meeting `q`, in order, no more than the
      query's limit; every row of `w` meeting `q`; a row meeting `q` that
      is not returned ranks after every row of `w` and of the result; and
      when `w` held every row meeting `p`, every row meeting `q`. */
  ghost predicate FilteredTop<T, K>(rows: seq<T>, p: T -> bool, key: T -> K, before: (K, K) -> bool, n: int,
                                    w: seq<T>, q: T -> bool, r: seq<T>) {
    && (forall i :: 0 <= i < |r| ==> r[i] in rows && q(r[i]))
    && SortedBy(r, key, before)
    && |r| <= (if n < 0 then 0 else n)
    && (forall i :: 0 <= i < |w| && q(w[i]) ==> w[i] in r)
    && (forall x :: x in rows && q(x) && x !in r ==>
          && (forall i :: 0 <= i < |w| ==> before(key(w[i]), key(x)))
          && (forall i :: 0 <= i < |r| ==> before(key(r[i]), key(x))))
    && (n >= |Filter(rows, p)| ==> forall x :: x in rows && q(x) ==> x in r)
  }

  lemma FilterOfTopRows<T, K>(rows: seq<T>, p: T -> bool, key: T -> K, before: (K, K) -> bool, n: int,
                              w: seq<T>, q: T -> bool)
    requires TopRows(rows, p, key, before, n, w)
    ensures forall i :: 0 <= i < |Filter(w, q)| ==> Filter(w, q)[i] in rows && q(Filter(w, q)[i])
    ensures SortedBy(Filter(w, q), key, before)
    ensures |Filter(w, q)| <= (if n < 0 then 0 else n)
  {
    var r := Filter(w, q);
    FilterSortedBy(w, q, key, before);
    forall i | 0 <= i < |r| ensures r[i] in rows {
      var k :| 0 <= k < |w| && w[k] == r[i];
    }
  }

  lemma FilterOfTopDropped<T, K>(rows: seq<T>, p: T -> bool, key: T -> K, before: (K, K) -> bool, n: int,
                                 w: seq<T>, q: T -> bool)
    requires TopRows(rows, p, key, before, n, w)
    requires forall x :: q(x) ==> p(x)
    ensures forall x :: x in rows && q(x) && x !in Filter(w, q) ==>
      && (forall i :: 0 <= i < |w| ==> before(key(w[i]), key(x)))
      && (forall i :: 0 <= i < |Filter(w, q)| ==> before(key(Filter(w, q)[i]), key(x)))
    ensures n >= |Filter(rows, p)| ==> forall x :: x in rows && q(x) ==> x in Filter(w, q)
  {
    var r := Filter(w, q);
    forall x | x in rows && q(x) && x !in r
      ensures forall i :: 0 <= i < |w| ==> before(key(w[i]), key(x))
      ensures forall i :: 0 <= i < |r| ==> before(key(r[i]), key(x))
    {
      forall i | 0 <= i < |r| ensures before(key(r[i]), key(x)) {
        var k :| 0 <= k < |w| && w[k] == r[i];
      }
    }
    if n >= |Filter(rows, p)| {
      forall x | x in rows && q(x) ensures x in r {
        var k :| 0 <= k < |w| && w[k] == x;
      }
    }
  }

  /** Filtering the answer of a top-rows query by a narrower `q`. */
  lemma FilterOfTop<T, K>(rows: seq<T>, p: T -> bool, key: T -> K, before: (K, K) -> bool, n: int,
                          w: seq<T>, q: T -> bool)
    requires TopRows(rows, p, key, before, n, w)
    requires forall x :: q(x) ==> p(x)
    ensures FilteredTop(rows, p, key, before, n, w, q, Filter(w, q))
  {
    FilterOfTopRows(rows, p, key, before, n, w, q);
    FilterOfTopDropped(rows, p, key, before, n, w, q);
  }
}

/** Sequence helpers: an order-keeping filter (list comprehensions and
    `Array.prototype.filter`), a stable insertion sort by a comparison (standing
    in for JavaScript's `Array.prototype.sort` and Python's `sorted`, both
    stable) and `slice(0, n)`. */
module Seqs {

  /** The elements of `s` that satisfy `p`, in their original order. */
  function Filter<T(!new)>(s: seq<T>, p: T -> bool): (r: seq<T>)
    ensures |r| <= |s|
    ensures forall x :: x in r <==> x in s && p(x)
    ensures forall i :: 0 <= i < |r| ==> p(r[i])
  {
    if s == [] then []
    else
      var init := s[..|s| - 1];
      assert s == init + [s[|s| - 1]];
      Filter(init, p) + (if p(s[|s| - 1]) then [s[|s| - 1]] else [])
  }

  lemma FilterAppend<T(!new)>(s: seq<T>, x: T, p: T -> bool)
    ensures Filter(s + [x], p) == Filter(s, p) + (if p(x) then [x] else [])
  {
    assert (s + [x])[..|s|] == s;
  }

  lemma {:induction false} FilterConcat<T(!new)>(a: seq<T>, b: seq<T>, p: T -> bool)
    ensures Filter(a + b, p) == Filter(a, p) + Filter(b, p)
    decreases |b|
  {
    if b == [] {
      assert a + b == a;
      assert Filter(a, p) + [] == Filter(a, p);
    } else {
      var init := b[..|b| - 1];
      var x := b[|b| - 1];
      var m := if p(x) then [x] else [];
      assert b == init + [x];
      assert a + b == (a + init) + [x];
      FilterConcat(a, init, p);
      FilterAppend(a + init, x, p);
      FilterAppend(init, x, p);
      assert (Filter(a, p) + Filter(init, p)) + m == Filter(a, p) + (Filter(init, p) + m);
    }
  }

  /** Filtering keeps everything when everything passes, and nothing when nothing does. */
  lemma {:induction false} FilterAllOrNone<T(!new)>(s: seq<T>, p: T -> bool)
    ensures (forall k :: 0 <= k < |s| ==> p(s[k])) ==> Filter(s, p) == s
    ensures (forall k :: 0 <= k < |s| ==> !p(s[k])) ==> Filter(s, p) == []
    decreases |s|
  {
    if s != [] {
      var init := s[..|s| - 1];
      assert s == init + [s[|s| - 1]];
      FilterAllOrNone(init, p);
    }
  }

  /** Filtering out an element that is present makes the sequence shorter. */
  lemma {:induction false} FilterDrops<T(!new)>(s: seq<T>, p: T -> bool, x: T)
    requires x in s && !p(x)
    ensures |Filter(s, p)| < |s|
    decreases |s|
  {
    var init := s[..|s| - 1];
    assert s == init + [s[|s| - 1]];
    if s[|s| - 1] != x {
      assert x in init;
      FilterDrops(init, p, x);
    }
  }

  lemma FilterTwice<T(!new)>(s: seq<T>, p: T -> bool)
    ensures Filter(Filter(s, p), p) == Filter(s, p)
  {
    FilterAllOrNone(Filter(s, p), p);
  }

  /** Two positions of a filtered sequence come from two positions of the input,
      in the same order. */
  lemma {:induction false} FilterIndices<T(!new)>(s: seq<T>, p: T -> bool, i: int, j: int)
    requires 0 <= i < j < |Filter(s, p)|
    ensures exists a, b :: 0 <= a < b < |s| && s[a] == Filter(s, p)[i] && s[b] == Filter(s, p)[j]
  {
    var init := s[..|s| - 1];
    var x := s[|s| - 1];
    FilterAppend(init, x, p);
    assert s == init + [x];
    if j < |Filter(init, p)| {
      FilterIndices(init, p, i, j);
      var a, b :| 0 <= a < b < |init| && init[a] == Filter(init, p)[i] && init[b] == Filter(init, p)[j];
      assert s[a] == init[a] && s[b] == init[b];
    } else {
      assert Filter(s, p)[j] == x;
      assert Filter(s, p)[i] == Filter(init, p)[i];
      assert Filter(init, p)[i] in init;
      var a :| 0 <= a < |init| && init[a] == Filter(init, p)[i];
      assert s[a] == init[a] && s[|s| - 1] == x;
    }
  }

  ghost predicate IsTotalPreorder<T(!new)>(le: (T, T) -> bool) {
    && (forall a, b :: le(a, b) || le(b, a))
    && (forall a, b, c :: le(a, b) && le(b, c) ==> le(a, c))
  }

  predicate SortedBy<T>(s: seq<T>, le: (T, T) -> bool) {
    forall i, j :: 0 <= i < j < |s| ==> le(s[i], s[j])
  }

  /** Puts `x` in front of the first element it does not come after. */
  function Insert<T>(x: T, s: seq<T>, le: (T, T) -> bool): (r: seq<T>)
    ensures multiset(r) == multiset(s) + multiset{x}
    ensures |r| == |s| + 1
  {
    if s == [] || le(x, s[0]) then [x] + s
    else
      assert s == [s[0]] + s[1..];
      [s[0]] + Insert(x, s[1..], le)
  }

  lemma {:induction false} InsertSorted<T(!new)>(x: T, s: seq<T>, le: (T, T) -> bool)
    requires IsTotalPreorder(le) && SortedBy(s, le)
    ensures SortedBy(Insert(x, s, le), le)
  {
    if s != [] && !le(x, s[0]) {
      InsertSorted(x, s[1..], le);
      var r := Insert(x, s, le);
      var tail := Insert(x, s[1..], le);
      assert r == [s[0]] + tail;
      assert le(s[0], x);
      forall k | 0 <= k < |tail| ensures le(s[0], tail[k]) {
        assert tail[k] in multiset(tail);
        assert tail[k] == x || tail[k] in multiset(s[1..]);
        if tail[k] != x {
          assert tail[k] in s[1..];
          var m :| 0 <= m < |s[1..]| && s[1..][m] == tail[k];
          assert s[1 + m] == tail[k];
        }
      }
    }
  }

  /** Stable sort: an element is placed before every later element it does not
      come after. */
  function Sort<T(!new)>(s: seq<T>, le: (T, T) -> bool): (r: seq<T>)
    ensures multiset(r) == multiset(s)
    ensures |r| == |s|
    ensures IsTotalPreorder(le) ==> SortedBy(r, le)
  {
    if s == [] then []
    else
      var rest := Sort(s[1..], le);
      InsertSortedWhenPreorder(s[0], rest, le);
      assert s == [s[0]] + s[1..];
      Insert(s[0], rest, le)
  }

  lemma InsertSortedWhenPreorder<T(!new)>(x: T, s: seq<T>, le: (T, T) -> bool)
    ensures IsTotalPreorder(le) && SortedBy(s, le) ==> SortedBy(Insert(x, s, le), le)
  {
    if IsTotalPreorder(le) && SortedBy(s, le) {
      InsertSorted(x, s, le);
    }
  }

  /** Filtering a filtered sequence by a stronger condition is filtering once. */
  lemma {:induction false} FilterOfFilter<T(!new)>(s: seq<T>, q: T -> bool, p: T -> bool)
    requires forall x :: p(x) ==> q(x)
    ensures Filter(Filter(s, q), p) == Filter(s, p)
    decreases |s|
  {
    if s != [] {
      var init := s[..|s| - 1];
      var x := s[|s| - 1];
      assert s == init + [x];
      FilterOfFilter(init, q, p);
      FilterAppend(init, x, q);
      FilterAppend(init, x, p);
      if q(x) {
        assert Filter(s, q) == Filter(init, q) + [x];
        FilterAppend(Filter(init, q), x, p);
      } else {
        assert Filter(s, q) == Filter(init, q);
      }
    }
  }

  lemma FilterPrepend<T(!new)>(x: T, s: seq<T>, p: T -> bool)
    ensures Filter([x] + s, p) == (if p(x) then [x] else []) + Filter(s, p)
  {
    FilterConcat([x], s, p);
    assert Filter([x], p) == (if p(x) then [x] else []) by {
      FilterAppend([], x, p);
      assert [] + [x] == [x];
    }
  }

  /** Inserting keeps the elements picked by `p` in their order, when those
      elements are all tied under `le`. */
  lemma {:induction false} InsertStable<T(!new)>(x: T, s: seq<T>, le: (T, T) -> bool, p: T -> bool)
    requires forall a, b :: p(a) && p(b) ==> le(a, b)
    ensures Filter(Insert(x, s, le), p) == Filter([x] + s, p)
    decreases |s|
  {
    if s != [] && !le(x, s[0]) {
      var h := s[0];
      var t := s[1..];
      var r := Insert(x, t, le);
      var ph := if p(h) then [h] else [];
      var px := if p(x) then [x] else [];
      assert s == [h] + t;
      assert Insert(x, s, le) == [h] + r;
      InsertStable(x, t, le, p);
      FilterPrepend(h, r, p);
      FilterPrepend(x, t, p);
      FilterPrepend(x, s, p);
      FilterPrepend(h, t, p);
      var f := Filter(t, p);
      assert Filter([h] + r, p) == ph + (px + f);
      assert Filter([x] + s, p) == px + (ph + f);
      if p(h) {
        assert !p(x);
        assert ph + (px + f) == px + (ph + f) by { assert px == []; assert [] + f == f; assert [] + (ph + f) == ph + f; }
      } else {
        assert ph + (px + f) == px + (ph + f) by { assert ph == []; assert [] + f == f; assert [] + (px + f) == px + f; }
      }
    } else {
      assert Insert(x, s, le) == [x] + s;
    }
  }

  /** `Sort` is stable: the elements picked by `p`, all tied under `le`, keep
      their input order. */
  lemma {:induction false} SortStable<T(!new)>(s: seq<T>, le: (T, T) -> bool, p: T -> bool)
    requires forall a, b :: p(a) && p(b) ==> le(a, b)
    ensures Filter(Sort(s, le), p) == Filter(s, p)
    decreases |s|
  {
    if s != [] {
      assert s == [s[0]] + s[1..];
      SortStable(s[1..], le, p);
      InsertStable(s[0], Sort(s[1..], le), le, p);
      FilterPrepend(s[0], Sort(s[1..], le), p);
      FilterPrepend(s[0], s[1..], p);
    }
  }

  /** The first `n` elements, or all of them: `slice(0, n)`. */
  function Take<T>(s: seq<T>, n: nat): (r: seq<T>)
    ensures |r| <= n && |r| <= |s|
    ensures |s| <= n ==> r == s
    ensures |s| > n ==> |r| == n
    ensures r == s[..|r|]
  {
    if |s| <= n then s else s[..n]
  }

  /** The first `n` elements of a sort that comes out sorted (as it does
      under a total preorder): `min(n, |s|)`
      of the input's elements, sorted, all of it when it has at most `n`
      elements, and none of the elements left out comes strictly before a
      kept one. */
  lemma {:induction false} TakeOfSort<T(!new)>(s: seq<T>, le: (T, T) -> bool, n: nat)
    requires SortedBy(Sort(s, le), le)
    ensures |Take(Sort(s, le), n)| == (if |s| <= n then |s| else n)
    ensures SortedBy(Take(Sort(s, le), n), le)
    ensures multiset(Take(Sort(s, le), n)) <= multiset(s)
    ensures forall x :: x in Take(Sort(s, le), n) ==> x in s
    ensures |s| <= n ==> multiset(Take(Sort(s, le), n)) == multiset(s)
    ensures forall k, d :: k in Take(Sort(s, le), n) && d in multiset(s) - multiset(Take(Sort(s, le), n)) ==> le(k, d)
  {
    var sorted := Sort(s, le);
    var r := Take(sorted, n);
    var rest := sorted[|r|..];
    assert sorted == r + rest;
    assert multiset(sorted) == multiset(r) + multiset(rest);
    assert multiset(s) - multiset(r) == multiset(rest);
    forall i, j | 0 <= i < j < |r| ensures le(r[i], r[j]) {
      assert r[i] == sorted[i] && r[j] == sorted[j];
    }
    forall x | x in r ensures x in s {
      assert x in sorted;
      assert x in multiset(sorted);
    }
    forall k, d | k in r && d in multiset(s) - multiset(r) ensures le(k, d) {
      var i :| 0 <= i < |r| && r[i] == k;
      assert d in rest;
      var j :| 0 <= j < |rest| && rest[j] == d;
      assert sorted[i] == k && sorted[|r| + j] == d;
    }
  }

  /** `r` is what `.sort(le).slice(0, n)` gives on `matches`: `min(n, |matches|)`
      of its elements, sorted, all of them when there are at most `n`, and
      none of the elements left out comes strictly before a kept one. */
  ghost predicate FirstSorted<T(!new)>(r: seq<T>, matches: seq<T>, le: (T, T) -> bool, n: nat) {
    && |r| == (if |matches| <= n then |matches| else n)
    && SortedBy(r, le)
    && multiset(r) <= multiset(matches)
    && (|matches| <= n ==> multiset(r) == multiset(matches))
    && forall k, d :: k in r && d in multiset(matches) - multiset(r) ==> le(k, d)
  }

  /** `TakeOfSort` on the elements of `s` that satisfy `p`. */
  lemma FirstOfSortedMatches<T(!new)>(s: seq<T>, p: T -> bool, le: (T, T) -> bool, n: nat)
    requires SortedBy(Sort(Filter(s, p), le), le)
    ensures FirstSorted(Take(Sort(Filter(s, p), le), n), Filter(s, p), le, n)
    ensures forall x :: x in Take(Sort(Filter(s, p), le), n) ==> x in s && p(x)
  {
    TakeOfSort(Filter(s, p), le, n);
  }

  /** The head of the first `n` elements of a sort under a total preorder
      comes from the input and may precede every element of it. */
  lemma {:induction false} SortHeadIsLeast<T(!new)>(s: seq<T>, le: (T, T) -> bool, n: nat, x: T) returns (head: T)
    requires IsTotalPreorder(le) && x in s && n > 0
    ensures Take(Sort(s, le), n) != [] && Take(Sort(s, le), n)[0] == head
    ensures head in s && le(head, x)
  {
    var sorted := Sort(s, le);
    assert x in multiset(sorted);
    assert sorted[0] in multiset(s);
    var k :| 0 <= k < |sorted| && sorted[k] == x;
    if k == 0 {
      assert le(x, x) || le(x, x);
    }
    assert Take(sorted, n)[0] == sorted[0];
    head := sorted[0];
  }
}

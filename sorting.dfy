/**
 * Python's `sorted(..., reverse=True)` / `list.sort(reverse=True)` and
 * `sorted(key=lambda x: -x)`: a stable sort into non-increasing key order.
 * Keys are pairs compared lexicographically, which covers both the plain
 * scores of the source and its `(fontsize, y_top)` tuples.  Floating-point
 * keys are modelled as reals (no NaN).
 */
module Sorting {

  datatype Rank = Rank(major: real, minor: real)

  /** Lexicographic order on ranks, as Python compares tuples. */
  predicate RankLe(a: Rank, b: Rank) {
    a.major < b.major || (a.major == b.major && a.minor <= b.minor)
  }

  /** Non-increasing order of keys. */
  predicate SortedDesc<T>(s: seq<T>, key: T -> Rank) {
    forall i, j :: 0 <= i < j < |s| ==> RankLe(key(s[j]), key(s[i]))
  }

  /** Every key in `s` is at most `b`. */
  predicate AllAtMost<T>(s: seq<T>, key: T -> Rank, b: Rank) {
    forall i :: 0 <= i < |s| ==> RankLe(key(s[i]), b)
  }

  /** Put `x` in front of the first element whose key is not above its own. */
  function InsertDesc<T>(x: T, s: seq<T>, key: T -> Rank): (r: seq<T>)
    ensures multiset(r) == multiset(s) + multiset{x}
    ensures |r| == |s| + 1
  {
    if s == [] || RankLe(key(s[0]), key(x)) then
      [x] + s
    else
      assert s == [s[0]] + s[1..];
      [s[0]] + InsertDesc(x, s[1..], key)
  }

  lemma {:induction false} InsertDescAtMost<T>(x: T, s: seq<T>, key: T -> Rank, b: Rank)
    requires AllAtMost(s, key, b) && RankLe(key(x), b)
    ensures AllAtMost(InsertDesc(x, s, key), key, b)
  {
    if s != [] && !RankLe(key(s[0]), key(x)) {
      InsertDescAtMost(x, s[1..], key, b);
    }
  }

  /** Insertion keeps a descending sequence descending. */
  lemma {:induction false} InsertDescSorted<T>(x: T, s: seq<T>, key: T -> Rank)
    requires SortedDesc(s, key)
    ensures SortedDesc(InsertDesc(x, s, key), key)
  {
    if s != [] && !RankLe(key(s[0]), key(x)) {
      InsertDescSorted(x, s[1..], key);
      InsertDescAtMost(x, s[1..], key, key(s[0]));
    }
  }

  /** The elements whose key is `k`, in order. */
  function WithKey<T>(s: seq<T>, key: T -> Rank, k: Rank): (r: seq<T>)
    ensures |r| <= |s|
  {
    if s == [] then [] else (if key(s[0]) == k then [s[0]] else []) + WithKey(s[1..], key, k)
  }

  /** Insertion goes in front of the elements with an equal key: it is stable. */
  lemma {:induction false} InsertDescStable<T>(x: T, s: seq<T>, key: T -> Rank, k: Rank)
    ensures WithKey(InsertDesc(x, s, key), key, k) ==
              (if key(x) == k then [x] else []) + WithKey(s, key, k)
  {
    if s == [] || RankLe(key(s[0]), key(x)) {
      assert ([x] + s)[1..] == s;
    } else {
      var rest := InsertDesc(x, s[1..], key);
      InsertDescStable(x, s[1..], key, k);
      assert ([s[0]] + rest)[1..] == rest;
      assert key(s[0]) != key(x);
    }
  }

  /** The stable descending sort. */
  function SortDesc<T>(s: seq<T>, key: T -> Rank): (r: seq<T>)
    ensures |r| == |s|
    ensures multiset(r) == multiset(s)
    ensures SortedDesc(r, key)
  {
    if s == [] then []
    else
      assert s == [s[0]] + s[1..];
      var rest := SortDesc(s[1..], key);
      InsertDescSorted(s[0], rest, key);
      InsertDesc(s[0], rest, key)
  }

  /** Stability: the elements sharing a key keep their order. */
  lemma {:induction false} SortDescStable<T>(s: seq<T>, key: T -> Rank, k: Rank)
    ensures WithKey(SortDesc(s, key), key, k) == WithKey(s, key, k)
  {
    if s != [] {
      SortDescStable(s[1..], key, k);
      InsertDescStable(s[0], SortDesc(s[1..], key), key, k);
    }
  }

  /** The elements of a prefix that share a key are a prefix of those of the whole. */
  lemma {:induction false} WithKeyPrefix<T>(s: seq<T>, m: nat, key: T -> Rank, k: Rank)
    requires m <= |s|
    ensures |WithKey(s[..m], key, k)| <= |WithKey(s, key, k)|
    ensures WithKey(s, key, k)[..|WithKey(s[..m], key, k)|] == WithKey(s[..m], key, k)
  {
    if m > 0 {
      assert s[..m][1..] == s[1..][..m - 1];
      assert s[..m][0] == s[0];
      WithKeyPrefix(s[1..], m - 1, key, k);
    }
  }

  /**
   * `sorted(s, key=..., reverse=True)[:k]`: the `k` best elements, best
   * first; an element left out is no better than any kept one.
   */
  function Top<T>(s: seq<T>, key: T -> Rank, k: nat): (r: seq<T>)
    ensures |r| == if |s| <= k then |s| else k
    ensures multiset(r) <= multiset(s)
    ensures SortedDesc(r, key)
    ensures forall x :: x in s && x !in r ==> |r| == k && forall y :: y in r ==> RankLe(key(x), key(y))
  {
    TopCut(s, key, k);
    Take(SortDesc(s, key), k)
  }

  lemma PrefixMultiset<T>(s: seq<T>, m: nat)
    requires m <= |s|
    ensures multiset(s[..m]) <= multiset(s)
  {
    assert s == s[..m] + s[m..];
  }

  lemma PrefixSorted<T>(s: seq<T>, m: nat, key: T -> Rank)
    requires m <= |s| && SortedDesc(s, key)
    ensures SortedDesc(s[..m], key)
  {
    var r := s[..m];
    forall i, j | 0 <= i < j < |r| ensures RankLe(key(r[j]), key(r[i])) {
      assert r[i] == s[i] && r[j] == s[j];
    }
  }

  /** An element beyond the cut of a sorted sequence is no better than any before it. */
  lemma PrefixCut<T>(s: seq<T>, m: nat, key: T -> Rank, x: T)
    requires m <= |s| && SortedDesc(s, key)
    requires x in s && x !in s[..m]
    ensures m < |s| && forall y :: y in s[..m] ==> RankLe(key(x), key(y))
  {
    forall q | 0 <= q < m ensures s[q] != x {
      assert s[..m][q] == s[q];
    }
    forall y | y in s[..m] ensures RankLe(key(x), key(y)) {
      var i :| 0 <= i < m && s[..m][i] == y;
      assert s[i] == y;
    }
  }

  lemma TopCut<T>(s: seq<T>, key: T -> Rank, k: nat)
    ensures var r := Take(SortDesc(s, key), k);
            multiset(r) <= multiset(s)
            && SortedDesc(r, key)
            && forall x :: x in s && x !in r ==> |r| == k && forall y :: y in r ==> RankLe(key(x), key(y))
  {
    var sorted := SortDesc(s, key);
    var m := if |sorted| <= k then |sorted| else k;
    assert Take(sorted, k) == sorted[..m];
    PrefixMultiset(sorted, m);
    PrefixSorted(sorted, m, key);
    forall x | x in s && x !in sorted[..m]
      ensures m == k && forall y :: y in sorted[..m] ==> RankLe(key(x), key(y))
    {
      assert x in multiset(sorted);
      PrefixCut(sorted, m, key, x);
    }
  }

  /** Among elements with equal keys, the kept ones are the first of them in the input. */
  lemma TopStable<T>(s: seq<T>, key: T -> Rank, k: nat, kk: Rank)
    ensures |WithKey(Top(s, key, k), key, kk)| <= |WithKey(s, key, kk)|
    ensures WithKey(s, key, kk)[..|WithKey(Top(s, key, k), key, kk)|] == WithKey(Top(s, key, k), key, kk)
  {
    var sorted := SortDesc(s, key);
    SortDescStable(s, key, kk);
    var r := Top(s, key, k);
    assert r == sorted[..|r|];
    WithKeyPrefix(sorted, |r|, key, kk);
  }

  /** Sorting neither adds nor loses elements. */
  lemma SortDescSameElements<T>(s: seq<T>, key: T -> Rank)
    ensures forall x :: x in SortDesc(s, key) <==> x in s
  {
    var r := SortDesc(s, key);
    forall x ensures x in r <==> x in s {
      assert x in r <==> x in multiset(r);
      assert x in s <==> x in multiset(s);
    }
  }

  /** No two elements share an image under `f`. */
  predicate InjectiveOn<T, K(==)>(s: seq<T>, f: T -> K) {
    forall i, j :: 0 <= i < j < |s| ==> f(s[i]) != f(s[j])
  }

  lemma {:induction false} InsertDescInjective<T, K>(x: T, s: seq<T>, key: T -> Rank, f: T -> K)
    requires InjectiveOn(s, f)
    requires forall y :: y in s ==> f(y) != f(x)
    ensures InjectiveOn(InsertDesc(x, s, key), f)
  {
    if s != [] && !RankLe(key(s[0]), key(x)) {
      var rest := InsertDesc(x, s[1..], key);
      InsertDescInjective(x, s[1..], key, f);
      forall j | 0 <= j < |rest|
        ensures f(rest[j]) != f(s[0])
      {
        assert rest[j] in multiset(rest);
        if rest[j] != x {
          assert rest[j] in multiset(s[1..]);
          var k :| 0 <= k < |s[1..]| && s[1..][k] == rest[j];
          assert s[k + 1] == rest[j];
        }
      }
      var r := [s[0]] + rest;
      forall i, j | 0 <= i < j < |r|
        ensures f(r[i]) != f(r[j])
      {
        if i > 0 {
          assert r[i] == rest[i - 1] && r[j] == rest[j - 1];
        } else {
          assert r[j] == rest[j - 1];
        }
      }
    } else {
      var r := [x] + s;
      forall i, j | 0 <= i < j < |r|
        ensures f(r[i]) != f(r[j])
      {
        if i > 0 {
          assert r[i] == s[i - 1] && r[j] == s[j - 1];
        } else {
          assert r[j] == s[j - 1];
        }
      }
    }
  }

  /** Sorting keeps elements with distinct images distinct. */
  lemma {:induction false} SortDescInjective<T, K>(s: seq<T>, key: T -> Rank, f: T -> K)
    requires InjectiveOn(s, f)
    ensures InjectiveOn(SortDesc(s, key), f)
  {
    if s != [] {
      var tail := s[1..];
      assert InjectiveOn(tail, f) by {
        forall i, j | 0 <= i < j < |tail|
          ensures f(tail[i]) != f(tail[j])
        {
          assert tail[i] == s[i + 1] && tail[j] == s[j + 1];
        }
      }
      SortDescInjective(tail, key, f);
      var sorted := SortDesc(tail, key);
      forall y | y in sorted
        ensures f(y) != f(s[0])
      {
        assert y in multiset(sorted);
        assert y in multiset(tail);
        var k :| 0 <= k < |tail| && tail[k] == y;
        assert s[k + 1] == y;
      }
      InsertDescInjective(s[0], sorted, key, f);
    }
  }

  /** `[f(x) for x in s if keep(x)]` */
  function FilterMap<T, U>(s: seq<T>, keep: T -> bool, f: T --> U): (r: seq<U>)
    requires forall i :: 0 <= i < |s| && keep(s[i]) ==> f.requires(s[i])
    ensures |r| <= |s|
  {
    if s == [] then []
    else
      var n := |s| - 1;
      assert forall i :: 0 <= i < n ==> s[..n][i] == s[i];
      FilterMap(s[..n], keep, f) + if keep(s[n]) then [f(s[n])] else []
  }

  /** The comprehension's items are exactly the images of the kept elements. */
  lemma {:induction false} FilterMapMembers<T, U>(s: seq<T>, keep: T -> bool, f: T --> U, u: U)
    requires forall i :: 0 <= i < |s| && keep(s[i]) ==> f.requires(s[i])
    ensures u in FilterMap(s, keep, f) <==> exists i :: 0 <= i < |s| && keep(s[i]) && u == f(s[i])
  {
    if s != [] {
      var n := |s| - 1;
      assert forall i :: 0 <= i < n ==> s[..n][i] == s[i];
      FilterMapMembers(s[..n], keep, f, u);
      var init := FilterMap(s[..n], keep, f);
      var last := if keep(s[n]) then [f(s[n])] else [];
      assert FilterMap(s, keep, f) == init + last;
      assert u in init + last <==> u in init || u in last;
      if exists i :: 0 <= i < |s| && keep(s[i]) && u == f(s[i]) {
        var i :| 0 <= i < |s| && keep(s[i]) && u == f(s[i]);
        assert i < n ==> s[..n][i] == s[i];
      }
    }
  }

  /** The comprehension keeps the order of its input: two runs are mapped one after the other. */
  lemma {:induction false} FilterMapAppend<T, U>(a: seq<T>, b: seq<T>, keep: T -> bool, f: T --> U)
    requires forall i :: 0 <= i < |a + b| && keep((a + b)[i]) ==> f.requires((a + b)[i])
    ensures forall i :: 0 <= i < |a| && keep(a[i]) ==> f.requires(a[i])
    ensures forall i :: 0 <= i < |b| && keep(b[i]) ==> f.requires(b[i])
    ensures FilterMap(a + b, keep, f) == FilterMap(a, keep, f) + FilterMap(b, keep, f)
    decreases |b|
  {
    assert forall i :: 0 <= i < |a| ==> (a + b)[i] == a[i];
    assert forall i :: 0 <= i < |b| ==> (a + b)[|a| + i] == b[i];
    if b == [] {
      assert a + b == a;
    } else {
      var n := |b| - 1;
      var last := if keep(b[n]) then [f(b[n])] else [];
      assert (a + b)[..|a + b| - 1] == a + b[..n];
      assert (a + b)[|a + b| - 1] == b[n];
      assert forall i :: 0 <= i < n ==> b[..n][i] == b[i];
      FilterMapAppend(a, b[..n], keep, f);
      assert FilterMap(a + b, keep, f) == FilterMap(a + b[..n], keep, f) + last;
      assert FilterMap(b, keep, f) == FilterMap(b[..n], keep, f) + last;
      assert FilterMap(a, keep, f) + FilterMap(b[..n], keep, f) + last
          == FilterMap(a, keep, f) + (FilterMap(b[..n], keep, f) + last);
    }
  }

  /** One more element extends the comprehension by its image, if kept. */
  lemma FilterMapSnoc<T, U>(s: seq<T>, i: nat, keep: T -> bool, f: T --> U)
    requires i < |s|
    requires forall j :: 0 <= j < |s| && keep(s[j]) ==> f.requires(s[j])
    ensures FilterMap(s[..i + 1], keep, f) == FilterMap(s[..i], keep, f) + if keep(s[i]) then [f(s[i])] else []
  {
    assert s[..i + 1][..i] == s[..i];
  }

  /** `s[:k]` */
  function Take<T>(s: seq<T>, k: nat): (r: seq<T>)
    ensures |r| <= k && |r| <= |s|
    ensures |s| <= k ==> r == s
    ensures |s| > k ==> |r| == k
    ensures r == s[..|r|]
  {
    if |s| <= k then s else s[..k]
  }

  /** Sum of a weight over a sequence. */
  function SumOf<T>(s: seq<T>, w: T -> int): int {
    if s == [] then 0 else w(s[0]) + SumOf(s[1..], w)
  }

  lemma {:induction false} SumOfInsert<T>(x: T, s: seq<T>, key: T -> Rank, w: T -> int)
    ensures SumOf(InsertDesc(x, s, key), w) == w(x) + SumOf(s, w)
  {
    if s != [] && !RankLe(key(s[0]), key(x)) {
      SumOfInsert(x, s[1..], key, w);
    }
  }

  /** Sorting does not change a sum over the elements. */
  lemma {:induction false} SumOfSort<T>(s: seq<T>, key: T -> Rank, w: T -> int)
    ensures SumOf(SortDesc(s, key), w) == SumOf(s, w)
  {
    if s != [] {
      SumOfSort(s[1..], key, w);
      SumOfInsert(s[0], SortDesc(s[1..], key), key, w);
    }
  }
}

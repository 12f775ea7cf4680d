/**
 * The counting pattern that several loops of the source use:
 * `counts[x] = counts.get(x, 0) + 1` over a list, where the dictionary's key
 * order is the order in which keys first appear.
 */
module Tally {

  /** No element occurs twice. */
  predicate NoDup<T(==)>(s: seq<T>) {
    forall i, j :: 0 <= i < j < |s| ==> s[i] != s[j]
  }

  lemma NoDupSnoc<T>(s: seq<T>, x: T)
    requires NoDup(s) && x !in s
    ensures NoDup(s + [x])
  {
  }

  /** In a list without repeats each element occurs at most once. */
  lemma {:induction false} NoDupCount<T>(s: seq<T>, x: T)
    requires NoDup(s)
    ensures multiset(s)[x] <= 1
  {
    if s != [] {
      assert s == [s[0]] + s[1..];
      assert NoDup(s[1..]) by {
        forall i, j | 0 <= i < j < |s[1..]| ensures s[1..][i] != s[1..][j] {
          assert s[1..][i] == s[i + 1] && s[1..][j] == s[j + 1];
        }
      }
      NoDupCount(s[1..], x);
      if s[0] == x {
        assert x !in s[1..] by {
          forall i | 0 <= i < |s[1..]| ensures s[1..][i] != x {
            assert s[1..][i] == s[i + 1];
          }
        }
      }
    }
  }

  /** A sub-multiset of a list without repeats has no repeats either. */
  lemma NoDupSub<T>(r: seq<T>, s: seq<T>)
    requires NoDup(s) && multiset(r) <= multiset(s)
    ensures NoDup(r)
  {
    forall i, j | 0 <= i < j < |r| ensures r[i] != r[j] {
      var x := r[j];
      assert r == r[..j] + [x] + r[j + 1..];
      assert r[..j][i] == r[i];
      NoDupCount(s, x);
      assert multiset(r)[x] == multiset(r[..j])[x] + 1 + multiset(r[j + 1..])[x];
      assert multiset(r[..j])[x] == 0;
      assert r[i] in r[..j];
    }
  }

  /** The first components of a list of pairs. */
  function Firsts<A, B>(s: seq<(A, B)>): (r: seq<A>)
    ensures |r| == |s| && forall i :: 0 <= i < |s| ==> r[i] == s[i].0
  {
    if s == [] then [] else [s[0].0] + Firsts(s[1..])
  }

  /**
   * When each pair's second component is a function of its first, an
   * element occurs among the firsts as often as its pair occurs.
   */
  lemma {:induction false} FirstsCount<A, B>(s: seq<(A, B)>, f: A -> B, x: A)
    requires forall i :: 0 <= i < |s| ==> s[i].1 == f(s[i].0)
    ensures multiset(Firsts(s))[x] == multiset(s)[(x, f(x))]
  {
    if s != [] {
      FirstsCount(s[1..], f, x);
      assert s == [s[0]] + s[1..];
    }
  }

  /** The keys of a Python dict filled from `s`, in insertion order. */
  function FirstAppearance<T(==,!new)>(s: seq<T>): (keys: seq<T>)
    ensures NoDup(keys)
    ensures forall x :: x in keys <==> x in s
    ensures |keys| <= |s|
  {
    if s == [] then []
    else
      var d := FirstAppearance(s[..|s| - 1]);
      assert forall x :: x in s <==> x in s[..|s| - 1] || x == s[|s| - 1] by {
        assert s == s[..|s| - 1] + [s[|s| - 1]];
      }
      if s[|s| - 1] in d then d else d + [s[|s| - 1]]
  }

  /** Sum of the multiplicities in `m` of the given keys. */
  function Total<T>(keys: seq<T>, m: multiset<T>): nat {
    if keys == [] then 0 else m[keys[0]] + Total(keys[1..], m)
  }

  lemma {:induction false} TotalAdd<T>(keys: seq<T>, m: multiset<T>, x: T)
    requires NoDup(keys)
    ensures Total(keys, m + multiset{x}) == Total(keys, m) + (if x in keys then 1 else 0)
  {
    if keys != [] {
      assert x in keys <==> x == keys[0] || x in keys[1..] by {
        assert keys == [keys[0]] + keys[1..];
      }
      assert keys[0] == x ==> x !in keys[1..];
      TotalAdd(keys[1..], m, x);
    }
  }

  lemma {:induction false} TotalAppend<T>(keys: seq<T>, x: T, m: multiset<T>)
    ensures Total(keys + [x], m) == Total(keys, m) + m[x]
  {
    if keys == [] {
      assert [x][1..] == [];
    } else {
      assert (keys + [x])[1..] == keys[1..] + [x];
      TotalAppend(keys[1..], x, m);
    }
  }

  /** The counts over the distinct keys add up to the length of the list. */
  lemma {:induction false} TotalOfFirstAppearance<T(!new)>(s: seq<T>)
    ensures Total(FirstAppearance(s), multiset(s)) == |s|
  {
    if s != [] {
      var init, last := s[..|s| - 1], s[|s| - 1];
      assert s == init + [last];
      var d := FirstAppearance(init);
      TotalOfFirstAppearance(init);
      TotalAdd(d, multiset(init), last);
      assert multiset(s) == multiset(init) + multiset{last};
      if last !in d {
        TotalAppend(d, last, multiset(s));
        assert multiset(init)[last] == 0;
      }
    }
  }

  /** Extending the list by one element extends its keys and counts accordingly. */
  lemma CountStep<T(!new)>(s: seq<T>, i: nat, keys: seq<T>)
    requires i < |s| && keys == FirstAppearance(s[..i])
    ensures multiset(s[..i + 1]) == multiset(s[..i]) + multiset{s[i]}
    ensures FirstAppearance(s[..i + 1]) == if s[i] in keys then keys else keys + [s[i]]
  {
    assert s[..i + 1] == s[..i] + [s[i]];
    assert s[..i + 1][..i] == s[..i];
  }

  /** `counts` holds exactly the keys, each with its multiplicity in `m`. */
  ghost predicate Counted<T(!new)>(keys: seq<T>, counts: map<T, nat>, m: multiset<T>) {
    (forall x :: x in counts <==> x in keys) && (forall x :: x in counts ==> counts[x] == m[x])
  }

  lemma CountedBump<T(!new)>(keys: seq<T>, counts: map<T, nat>, m: multiset<T>, x: T)
    requires Counted(keys, counts, m) && x in counts
    ensures Counted(keys, counts[x := counts[x] + 1], m + multiset{x})
  {
  }

  lemma CountedNew<T(!new)>(keys: seq<T>, counts: map<T, nat>, m: multiset<T>, x: T)
    requires Counted(keys, counts, m) && x !in counts && m[x] == 0
    ensures Counted(keys + [x], counts[x := 1], m + multiset{x})
  {
  }

  /** `counts[x] = counts.get(x, 0) + 1`, with the key recorded on first sight. */
  method Record<T(==,!new)>(keys: seq<T>, counts: map<T, nat>, ghost m: multiset<T>, x: T)
    returns (keys': seq<T>, counts': map<T, nat>)
    requires Counted(keys, counts, m) && (x !in keys ==> m[x] == 0)
    ensures keys' == if x in keys then keys else keys + [x]
    ensures Counted(keys', counts', m + multiset{x})
  {
    if x in counts {
      CountedBump(keys, counts, m, x);
      keys', counts' := keys, counts[x := counts[x] + 1];
    } else {
      CountedNew(keys, counts, m, x);
      keys', counts' := keys + [x], counts[x := 1];
    }
  }

  /**
   * The counting loop: returns the distinct values in first-appearance
   * order and how often each occurs.
   */
  method CountOccurrences<T(==,!new)>(s: seq<T>) returns (keys: seq<T>, counts: map<T, nat>)
    ensures keys == FirstAppearance(s)
    ensures forall x :: x in counts <==> x in s
    ensures forall x :: x in counts ==> counts[x] == multiset(s)[x]
  {
    keys, counts := [], map[];
    ghost var m: multiset<T> := multiset{};
    var i := 0;
    while i < |s|
      invariant 0 <= i <= |s|
      invariant keys == FirstAppearance(s[..i])
      invariant m == multiset(s[..i])
      invariant Counted(keys, counts, m)
    {
      CountStep(s, i, keys);
      keys, counts := Record(keys, counts, m, s[i]);
      m := m + multiset{s[i]};
      i := i + 1;
    }
    assert s[..|s|] == s;
  }
}

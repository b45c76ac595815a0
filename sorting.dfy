/** Python's `sorted(xs, key=k)`, a stable sort, written as an insertion
    sort. `sorted(xs, key=k, reverse=True)` keeps equal keys in their input
    order too, so it is the same sort on the negated key. */
module Sorting {

  /** Put `x` after every leading element whose key is at most `key(x)`. */
  function Insert<T>(s: seq<T>, x: T, key: T -> real): seq<T>
  {
    if |s| == 0 then [x]
    else if key(s[0]) <= key(x) then [s[0]] + Insert(s[1..], x, key)
    else [x] + s
  }

  function SortBy<T>(xs: seq<T>, key: T -> real): seq<T>
  {
    if |xs| == 0 then []
    else Insert(SortBy(xs[..|xs| - 1], key), xs[|xs| - 1], key)
  }

  predicate Ordered<T>(s: seq<T>, key: T -> real) {
    forall i, j :: 0 <= i < j < |s| ==> key(s[i]) <= key(s[j])
  }

  /** The elements of `s` whose key is `v`, in their order in `s`. */
  function WithKey<T>(s: seq<T>, key: T -> real, v: real): seq<T>
  {
    if |s| == 0 then []
    else (if key(s[0]) == v then [s[0]] else []) + WithKey(s[1..], key, v)
  }

  lemma {:induction false} InsertPermutes<T>(s: seq<T>, x: T, key: T -> real)
    ensures multiset(Insert(s, x, key)) == multiset(s) + multiset{x}
  {
    if |s| > 0 && key(s[0]) <= key(x) {
      InsertPermutes(s[1..], x, key);
      assert s == [s[0]] + s[1..];
    }
  }

  /** The sorted sequence is a permutation of the input. */
  lemma {:induction false} SortPermutes<T>(xs: seq<T>, key: T -> real)
    ensures multiset(SortBy(xs, key)) == multiset(xs)
  {
    if |xs| > 0 {
      var init := xs[..|xs| - 1];
      SortPermutes(init, key);
      InsertPermutes(SortBy(init, key), xs[|xs| - 1], key);
      assert xs == init + [xs[|xs| - 1]];
    }
  }

  lemma SortLength<T>(xs: seq<T>, key: T -> real)
    ensures |SortBy(xs, key)| == |xs|
  {
    SortPermutes(xs, key);
    assert |multiset(SortBy(xs, key))| == |multiset(xs)|;
  }

  lemma {:induction false} InsertOrdered<T>(s: seq<T>, x: T, key: T -> real)
    requires Ordered(s, key)
    ensures Ordered(Insert(s, x, key), key)
    ensures |Insert(s, x, key)| == |s| + 1
    ensures |s| > 0 ==> Insert(s, x, key)[0] == s[0] || Insert(s, x, key)[0] == x
  {
    if |s| > 0 && key(s[0]) <= key(x) {
      InsertOrdered(s[1..], x, key);
    }
  }

  /** The sorted sequence is in non-decreasing key order. */
  lemma {:induction false} SortOrdered<T>(xs: seq<T>, key: T -> real)
    ensures Ordered(SortBy(xs, key), key)
  {
    if |xs| > 0 {
      SortOrdered(xs[..|xs| - 1], key);
      InsertOrdered(SortBy(xs[..|xs| - 1], key), xs[|xs| - 1], key);
    }
  }

  lemma {:induction false} WithKeyAppend<T>(a: seq<T>, b: seq<T>, key: T -> real, v: real)
    ensures WithKey(a + b, key, v) == WithKey(a, key, v) + WithKey(b, key, v)
  {
    if |a| > 0 {
      WithKeyAppend(a[1..], b, key, v);
      assert (a + b)[1..] == a[1..] + b;
    } else {
      assert a + b == b;
    }
  }

  /** In an ordered sequence whose first key exceeds `v`, no key is `v`. */
  lemma {:induction false} WithKeyAbove<T>(s: seq<T>, key: T -> real, v: real)
    requires Ordered(s, key) && |s| > 0 && key(s[0]) > v
    ensures WithKey(s, key, v) == []
  {
    if |s| > 1 {
      WithKeyAbove(s[1..], key, v);
    }
  }

  lemma {:induction false} InsertStable<T>(s: seq<T>, x: T, key: T -> real, v: real)
    requires Ordered(s, key)
    ensures WithKey(Insert(s, x, key), key, v) == WithKey(s, key, v) + WithKey([x], key, v)
  {
    if |s| > 0 {
      var head: seq<T> := if key(s[0]) == v then [s[0]] else [];
      assert WithKey(s, key, v) == head + WithKey(s[1..], key, v);
      if key(s[0]) <= key(x) {
        var rest := Insert(s[1..], x, key);
        InsertStable(s[1..], x, key, v);
        assert Insert(s, x, key) == [s[0]] + rest;
        assert ([s[0]] + rest)[1..] == rest;
        assert WithKey(Insert(s, x, key), key, v) == head + WithKey(rest, key, v);
      } else {
        assert Insert(s, x, key) == [x] + s;
        assert ([x] + s)[1..] == s;
        if key(x) == v {
          WithKeyAbove(s, key, v);
        }
      }
    }
  }

  /** The elements with key `v` among the first `k` are the first ones of
      all the elements with key `v`. */
  lemma WithKeyTake<T>(s: seq<T>, k: nat, key: T -> real, v: real)
    requires k <= |s|
    ensures |WithKey(s[..k], key, v)| <= |WithKey(s, key, v)|
    ensures WithKey(s[..k], key, v) == WithKey(s, key, v)[..|WithKey(s[..k], key, v)|]
  {
    WithKeyAppend(s[..k], s[k..], key, v);
    assert s[..k] + s[k..] == s;
  }

  /** Stability: among elements with equal keys, the input order is kept. */
  lemma {:induction false} SortStable<T>(xs: seq<T>, key: T -> real, v: real)
    ensures WithKey(SortBy(xs, key), key, v) == WithKey(xs, key, v)
  {
    if |xs| > 0 {
      var init := xs[..|xs| - 1];
      SortStable(init, key, v);
      SortOrdered(init, key);
      InsertStable(SortBy(init, key), xs[|xs| - 1], key, v);
      assert xs == init + [xs[|xs| - 1]];
      WithKeyAppend(init, [xs[|xs| - 1]], key, v);
    }
  }
}

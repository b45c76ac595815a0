/** Sequence helpers shared by the modules: first-occurrence dedup (what a
    loop with an `if x not in seen` check computes), occurrence counts and
    concatenation of a sequence of sequences. */
module Lists {

  predicate NoDups<T(==)>(xs: seq<T>) {
    forall i, j :: 0 <= i < j < |xs| ==> xs[i] != xs[j]
  }

  /** The index of the first occurrence of `x` in `xs`. */
  function FirstIndex<T(==)>(xs: seq<T>, x: T): (k: nat)
    requires x in xs
    ensures k < |xs| && xs[k] == x
    ensures forall i :: 0 <= i < k ==> xs[i] != x
  {
    if xs[0] == x then 0 else 1 + FirstIndex(xs[1..], x)
  }

  /** Concatenation is associative. */
  lemma AppendAssoc<T>(a: seq<T>, b: seq<T>, c: seq<T>)
    ensures a + b + c == a + (b + c)
  {
  }

  /** A prefix one longer is the prefix and the next element. */
  lemma PrefixSnoc<T>(xs: seq<T>, n: nat)
    requires n < |xs|
    ensures xs[..n + 1] == xs[..n] + [xs[n]]
  {
  }

  lemma PrefixAll<T>(xs: seq<T>)
    ensures xs[..|xs|] == xs
  {
  }

  lemma FirstIndexPrefix<T>(xs: seq<T>, n: nat, x: T)
    requires n <= |xs| && x in xs[..n]
    ensures FirstIndex(xs[..n], x) == FirstIndex(xs, x)
  {
    var k := FirstIndex(xs[..n], x);
    assert xs[k] == x;
    forall i | 0 <= i < k ensures xs[i] != x {
      assert xs[..n][i] == xs[i];
    }
  }

  /** The elements of `xs` without repetitions, each where it first occurs. */
  function Dedup<T(==,!new)>(xs: seq<T>): (r: seq<T>)
    ensures forall x :: x in r <==> x in xs
    ensures |r| <= |xs|
  {
    if |xs| == 0 then []
    else
      var d := Dedup(xs[..|xs| - 1]);
      if xs[|xs| - 1] in d then d else d + [xs[|xs| - 1]]
  }

  /** One more element is added unless already present. */
  lemma DedupAppend<T(!new)>(xs: seq<T>, x: T)
    ensures Dedup(xs + [x]) == if x in Dedup(xs) then Dedup(xs) else Dedup(xs) + [x]
  {
    assert (xs + [x])[..|xs|] == xs;
  }

  lemma {:induction false} DedupUnique<T(!new)>(xs: seq<T>)
    ensures NoDups(Dedup(xs))
  {
    if |xs| > 0 {
      DedupUnique(xs[..|xs| - 1]);
    }
  }

  /** The elements of `Dedup(xs)` appear in the order of their first
      occurrences in `xs`. */
  lemma {:induction false} DedupOrder<T(!new)>(xs: seq<T>)
    ensures forall i, j :: 0 <= i < j < |Dedup(xs)| ==> FirstIndex(xs, Dedup(xs)[i]) < FirstIndex(xs, Dedup(xs)[j])
  {
    if |xs| > 0 {
      var init := xs[..|xs| - 1];
      var last := xs[|xs| - 1];
      var d := Dedup(init);
      DedupOrder(init);
      assert xs == init + [last];
      forall y | y in init ensures FirstIndex(xs, y) == FirstIndex(init, y) {
        FirstIndexPrefix(xs, |xs| - 1, y);
      }
      if last !in d {
        assert FirstIndex(xs, last) == |xs| - 1;
      }
    }
  }

  lemma {:induction false} DedupNoDups<T(!new)>(xs: seq<T>)
    requires NoDups(xs)
    ensures Dedup(xs) == xs
  {
    if |xs| > 0 {
      var init := xs[..|xs| - 1];
      DedupNoDups(init);
      assert xs == init + [xs[|xs| - 1]];
    }
  }

  /** How many times `x` occurs in `xs`. */
  function Count<T(==)>(xs: seq<T>, x: T): (n: nat)
    ensures n <= |xs|
    ensures n == 0 <==> x !in xs
  {
    if |xs| == 0 then 0
    else Count(xs[..|xs| - 1], x) + (if xs[|xs| - 1] == x then 1 else 0)
  }

  /** The concatenation of the sequences in `xss`, in order. */
  function Flatten<T>(xss: seq<seq<T>>): seq<T>
  {
    if |xss| == 0 then [] else Flatten(xss[..|xss| - 1]) + xss[|xss| - 1]
  }

  function SumLengths<T>(xss: seq<seq<T>>): nat
  {
    if |xss| == 0 then 0 else SumLengths(xss[..|xss| - 1]) + |xss[|xss| - 1]|
  }

  lemma {:induction false} FlattenLength<T>(xss: seq<seq<T>>)
    ensures |Flatten(xss)| == SumLengths(xss)
  {
    if |xss| > 0 {
      FlattenLength(xss[..|xss| - 1]);
    }
  }

  lemma FlattenAppend<T>(xss: seq<seq<T>>, ys: seq<T>)
    ensures Flatten(xss + [ys]) == Flatten(xss) + ys
  {
    assert (xss + [ys])[..|xss|] == xss;
  }

  lemma {:induction false} FlattenConcat<T>(xss: seq<seq<T>>, yss: seq<seq<T>>)
    ensures Flatten(xss + yss) == Flatten(xss) + Flatten(yss)
  {
    if |yss| > 0 {
      var init := yss[..|yss| - 1];
      FlattenConcat(xss, init);
      assert (xss + yss)[..|xss + yss| - 1] == xss + init;
    } else {
      assert xss + yss == xss;
    }
  }

  /** What the flattening holds is what the sequences hold. */
  lemma {:induction false} FlattenMember<T>(xss: seq<seq<T>>, x: T)
    ensures x in Flatten(xss) <==> exists k :: 0 <= k < |xss| && x in xss[k]
  {
    if |xss| > 0 {
      var init := xss[..|xss| - 1];
      FlattenMember(init, x);
      if exists k :: 0 <= k < |xss| && x in xss[k] {
        var k :| 0 <= k < |xss| && x in xss[k];
        if k < |init| {
          assert init[k] == xss[k];
        }
      }
      if exists k :: 0 <= k < |init| && x in init[k] {
        var k :| 0 <= k < |init| && x in init[k];
        assert init[k] == xss[k];
      }
    }
  }

  /** The flattening around element `i`. */
  lemma FlattenAround<T>(bs: seq<seq<T>>, i: nat)
    requires i < |bs|
    ensures Flatten(bs) == Flatten(bs[..i]) + bs[i] + Flatten(bs[i + 1..])
  {
    var pre, after := bs[..i + 1], bs[i + 1..];
    FlattenSplit(bs, pre, after);
    PrefixSnoc(bs, i);
    FlattenAppend(bs[..i], bs[i]);
  }

  lemma FlattenSplit<T>(bs: seq<seq<T>>, pre: seq<seq<T>>, after: seq<seq<T>>)
    requires bs == pre + after
    ensures Flatten(bs) == Flatten(pre) + Flatten(after)
  {
    FlattenConcat(pre, after);
  }

  /** `xs` is obtained from `ys` by deleting elements (order kept). */
  predicate IsSubsequence<T(==)>(xs: seq<T>, ys: seq<T>)
    decreases |ys|
  {
    if |xs| == 0 then true
    else if |ys| == 0 then false
    else if xs[|xs| - 1] == ys[|ys| - 1] then IsSubsequence(xs[..|xs| - 1], ys[..|ys| - 1])
    else IsSubsequence(xs, ys[..|ys| - 1])
  }

  lemma SubsequenceExtend<T>(xs: seq<T>, ys: seq<T>, y: T, keep: bool)
    requires IsSubsequence(xs, ys)
    ensures IsSubsequence(if keep then xs + [y] else xs, ys + [y])
  {
    var ys' := ys + [y];
    assert ys'[..|ys'| - 1] == ys;
    if keep {
      assert (xs + [y])[..|xs|] == xs;
    } else {
      SubsequenceWeaken(xs, ys, y);
    }
  }

  lemma {:induction false} SubsequenceWeaken<T>(xs: seq<T>, ys: seq<T>, y: T)
    requires IsSubsequence(xs, ys)
    ensures IsSubsequence(xs, ys + [y])
    decreases |ys|, 1
  {
    var ys' := ys + [y];
    assert ys'[..|ys'| - 1] == ys;
    if |xs| > 0 && xs[|xs| - 1] == y {
      SubsequencePrefixShift(xs, ys);
    }
  }

  /** Dropping the last element of a subsequence keeps it a subsequence. */
  lemma {:induction false} SubsequencePrefixShift<T>(xs: seq<T>, ys: seq<T>)
    requires |xs| > 0 && IsSubsequence(xs, ys)
    ensures IsSubsequence(xs[..|xs| - 1], ys)
    decreases |ys|, 0
  {
    var xs' := xs[..|xs| - 1];
    var ys0 := ys[..|ys| - 1];
    assert ys0 + [ys[|ys| - 1]] == ys;
    if xs[|xs| - 1] != ys[|ys| - 1] {
      SubsequencePrefixShift(xs, ys0);
    }
    SubsequenceWeaken(xs', ys0, ys[|ys| - 1]);
  }

  /** The elements of `xs` that satisfy `keep`, in order. */
  function Filter<T>(xs: seq<T>, keep: T -> bool): (r: seq<T>)
    ensures |r| <= |xs|
  {
    if |xs| == 0 then []
    else
      var n := |xs| - 1;
      Filter(xs[..n], keep) + (if keep(xs[n]) then [xs[n]] else [])
  }

  lemma {:induction false} FilterMember<T>(xs: seq<T>, keep: T -> bool)
    ensures forall x :: x in Filter(xs, keep) <==> x in xs && keep(x)
  {
    if |xs| > 0 {
      var n := |xs| - 1;
      FilterMember(xs[..n], keep);
      assert xs == xs[..n] + [xs[n]];
    }
  }

  lemma {:induction false} FilterSubsequence<T>(xs: seq<T>, keep: T -> bool)
    ensures IsSubsequence(Filter(xs, keep), xs)
  {
    if |xs| > 0 {
      var n := |xs| - 1;
      FilterSubsequence(xs[..n], keep);
      SubsequenceExtend(Filter(xs[..n], keep), xs[..n], xs[n], keep(xs[n]));
      assert xs[..n] + [xs[n]] == xs;
      var r := Filter(xs[..n], keep);
      assert r + [] == r;
    }
  }

  lemma FilterSnoc<T>(ys: seq<T>, y: T, keep: T -> bool)
    ensures Filter(ys + [y], keep) == Filter(ys, keep) + (if keep(y) then [y] else [])
  {
    assert (ys + [y])[..|ys|] == ys;
  }

  /** Filtering twice is filtering once by a rule that agrees with both
      rules together on the elements. */
  lemma {:induction false} FilterCompose<T>(xs: seq<T>, f: T -> bool, g: T -> bool, h: T -> bool)
    requires forall x :: x in xs ==> (f(x) && g(x)) == h(x)
    ensures Filter(Filter(xs, f), g) == Filter(xs, h)
  {
    if |xs| > 0 {
      var n := |xs| - 1;
      var init, last := xs[..n], xs[n];
      assert xs == init + [last];
      assert forall x :: x in init ==> x in xs;
      FilterCompose(init, f, g, h);
      var r := Filter(init, f);
      FilterSnoc(init, last, f);
      FilterSnoc(init, last, h);
      if f(last) {
        FilterSnoc(r, last, g);
      } else {
        assert r + [] == r;
        var s := Filter(init, h);
        assert s + [] == s;
      }
    }
  }

  /** A rule that holds on every element keeps them all. */
  lemma {:induction false} FilterAll<T>(xs: seq<T>, keep: T -> bool)
    requires forall x :: x in xs ==> keep(x)
    ensures Filter(xs, keep) == xs
  {
    if |xs| > 0 {
      var n := |xs| - 1;
      var init := xs[..n];
      forall x | x in init ensures keep(x) {
        var j :| 0 <= j < |init| && init[j] == x;
        assert xs[j] in xs;
      }
      FilterAll(init, keep);
      assert xs[n] in xs;
    }
  }

  /** Filtering distributes over concatenation. */
  lemma {:induction false} FilterConcat<T>(a: seq<T>, b: seq<T>, keep: T -> bool)
    ensures Filter(a + b, keep) == Filter(a, keep) + Filter(b, keep)
    decreases |b|
  {
    if |b| == 0 {
      assert a + b == a;
    } else {
      var n := |b| - 1;
      FilterConcat(a, b[..n], keep);
      assert a + b == (a + b[..n]) + [b[n]];
      assert b == b[..n] + [b[n]];
      FilterSnoc(a + b[..n], b[n], keep);
      FilterSnoc(b[..n], b[n], keep);
    }
  }

  /** A rule that holds on no element keeps nothing. */
  lemma {:induction false} FilterNone<T>(xs: seq<T>, keep: T -> bool)
    requires forall i :: 0 <= i < |xs| ==> !keep(xs[i])
    ensures Filter(xs, keep) == []
  {
    if |xs| > 0 {
      FilterNone(xs[..|xs| - 1], keep);
    }
  }

  /** Filtering a sequence with a first element. */
  lemma FilterCons<T>(x: T, xs: seq<T>, keep: T -> bool)
    ensures Filter([x] + xs, keep) == (if keep(x) then [x] else []) + Filter(xs, keep)
  {
    FilterConcat([x], xs, keep);
    assert [x] == [] + [x];
    FilterSnoc([], x, keep);
  }

  /** Python's `d.get(k, default)`. */
  function GetOr<K, V>(d: map<K, V>, k: K, default: V): (v: V)
    ensures k in d ==> v == d[k]
    ensures k !in d ==> v == default
  {
    if k in d then d[k] else default
  }
}

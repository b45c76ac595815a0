/** The Python string operations the core relies on (strip, split, join,
    replace, `in`, lower, whitespace runs), written out over `seq<char>`. */
module Text {
  import opened Wrappers
  import opened Lists

  /** Python's `str.isspace()`, which is also what the regular-expression
      class `\s` matches in a str pattern. */
  predicate IsSpace(c: char) {
    var n := c as int;
    (9 <= n <= 13) || (0x1c <= n <= 0x20) || n == 0x85 || n == 0xa0 || n == 0x1680
    || (0x2000 <= n <= 0x200a) || n == 0x2028 || n == 0x2029 || n == 0x202f
    || n == 0x205f || n == 0x3000
  }

  predicate IsAsciiDigit(c: char) { '0' <= c <= '9' }

  predicate IsAsciiUpper(c: char) { 'A' <= c <= 'Z' }

  predicate IsAscii(c: char) { c as int < 128 }

  /** `str.lower()` restricted to the ASCII letters. */
  function LowerChar(c: char): (r: char)
    ensures !IsAsciiUpper(r)
    ensures IsAsciiUpper(c) ==> r as int == c as int + 32
    ensures !IsAsciiUpper(c) ==> r == c
  {
    if IsAsciiUpper(c) then (c as int + 32) as char else c
  }

  function Lower(s: string): (r: string)
    ensures |r| == |s|
    ensures forall i :: 0 <= i < |s| ==> r[i] == LowerChar(s[i])
  {
    seq(|s|, i requires 0 <= i < |s| => LowerChar(s[i]))
  }

  lemma LowerIdempotent(s: string)
    ensures Lower(Lower(s)) == Lower(s)
  {
  }

  /** The number of whitespace characters `s` starts with. */
  function LeadingSpaces(s: string): (n: nat)
    ensures n <= |s|
    ensures forall i :: 0 <= i < n ==> IsSpace(s[i])
    ensures n == |s| || !IsSpace(s[n])
  {
    if |s| > 0 && IsSpace(s[0]) then 1 + LeadingSpaces(s[1..]) else 0
  }

  /** The number of whitespace characters `s` ends with. */
  function TrailingSpaces(s: string): (n: nat)
    ensures n <= |s|
    ensures forall i :: |s| - n <= i < |s| ==> IsSpace(s[i])
    ensures n == |s| || !IsSpace(s[|s| - 1 - n])
  {
    if |s| > 0 && IsSpace(s[|s| - 1]) then 1 + TrailingSpaces(s[..|s| - 1]) else 0
  }

  /** `str.lstrip()`: drop the leading whitespace. */
  function LStrip(s: string): string {
    s[LeadingSpaces(s)..]
  }

  /** `str.rstrip()`: drop the trailing whitespace. */
  function RStrip(s: string): string {
    s[..|s| - TrailingSpaces(s)]
  }

  /** `str.strip()`. */
  function Strip(s: string): (r: string)
    ensures |r| <= |s|
    ensures r == [] || (!IsSpace(r[0]) && !IsSpace(r[|r| - 1]))
  {
    var l := LStrip(s);
    var r := RStrip(l);
    assert |r| > 0 ==> r[0] == s[LeadingSpaces(s)];
    r
  }

  lemma StripNoEdgeSpace(s: string)
    requires s == [] || (!IsSpace(s[0]) && !IsSpace(s[|s| - 1]))
    ensures Strip(s) == s
  {
  }

  lemma StripIdempotent(s: string)
    ensures Strip(Strip(s)) == Strip(s)
  {
    StripNoEdgeSpace(Strip(s));
  }

  /** A non-space character at index `n` survives `rstrip`, and so does
      everything before it. */
  lemma RStripKeeps(s: string, n: nat)
    requires n < |s| && !IsSpace(s[n])
    ensures |RStrip(s)| > n && RStrip(s)[..n + 1] == s[..n + 1]
  {
  }

  /** Stripping keeps a prefix that starts and ends with non-space characters. */
  lemma StripKeepsPrefix(s: string, p: string)
    requires StartsWith(s, p) && |p| > 0
    requires !IsSpace(p[0]) && !IsSpace(p[|p| - 1])
    ensures StartsWith(Strip(s), p)
  {
    assert LeadingSpaces(s) == 0;
    assert LStrip(s) == s;
    RStripKeeps(s, |p| - 1);
    assert RStrip(s)[..|p|] == s[..|p|];
  }

  predicate StartsWith(s: string, p: string) {
    |p| <= |s| && s[..|p|] == p
  }

  predicate EndsWith(s: string, p: string) {
    |p| <= |s| && s[|s| - |p|..] == p
  }

  /** `p` occurs in `s` starting at index `i`. */
  predicate OccursAt(s: string, p: string, i: int) {
    0 <= i && i + |p| <= |s| && s[i..i + |p|] == p
  }

  /** The first index from `i` on where `p` occurs in `s`. */
  function FindFrom(s: string, p: string, i: nat): (r: Option<nat>)
    ensures r.Some? ==> i <= r.value && OccursAt(s, p, r.value)
    ensures r.Some? ==> forall j :: i <= j < r.value ==> !OccursAt(s, p, j)
    ensures r.None? ==> forall j :: i <= j ==> !OccursAt(s, p, j)
    decreases |s| - i
  {
    if i + |p| > |s| then None
    else if OccursAt(s, p, i) then Some(i)
    else FindFrom(s, p, i + 1)
  }

  /** The index of the first occurrence of `p` in `s` (`str.find`). */
  function Find(s: string, p: string): (r: Option<nat>)
    ensures r.Some? ==> OccursAt(s, p, r.value)
    ensures r.Some? ==> forall j :: 0 <= j < r.value ==> !OccursAt(s, p, j)
    ensures r.None? ==> forall j :: !OccursAt(s, p, j)
  {
    FindFrom(s, p, 0)
  }

  /** Python's `p in s`. */
  predicate Contains(s: string, p: string) {
    Find(s, p).Some?
  }

  lemma ContainsAt(s: string, p: string, i: int)
    requires OccursAt(s, p, i)
    ensures Contains(s, p)
  {
  }

  /** No occurrence anywhere means `Contains` is false. */
  lemma NoOccurrence(s: string, p: string)
    requires forall j :: !OccursAt(s, p, j)
    ensures !Contains(s, p)
  {
  }

  lemma NotContainsPrefix(s: string, p: string, i: nat)
    requires i <= |s| && |p| > 0
    requires forall j :: 0 <= j < i ==> !OccursAt(s, p, j)
    ensures !Contains(s[..i], p)
  {
    forall j ensures !OccursAt(s[..i], p, j) {
      if 0 <= j && j + |p| <= i {
        assert s[..i][j..j + |p|] == s[j..j + |p|];
        assert !OccursAt(s, p, j);
      }
    }
  }

  lemma NotContainsTail(s: string, p: string)
    requires |s| > 0 && !Contains(s, p)
    ensures !Contains(s[1..], p)
  {
    forall j ensures !OccursAt(s[1..], p, j) {
      if 0 <= j && j + |p| <= |s| - 1 {
        assert !OccursAt(s, p, j + 1);
        assert s[1..][j..j + |p|] == s[j + 1..j + 1 + |p|];
      }
    }
  }

  /** Occurrences of `p` in `a + b` from index |a| on are those of `b`, shifted. */
  lemma OccursInSuffix(a: string, b: string, p: string)
    ensures forall j :: |a| <= j ==> (OccursAt(a + b, p, j) <==> OccursAt(b, p, j - |a|))
  {
    var s := a + b;
    forall j | |a| <= j ensures OccursAt(s, p, j) <==> OccursAt(b, p, j - |a|) {
      if j + |p| <= |s| {
        assert s[j..j + |p|] == b[j - |a|..j - |a| + |p|];
      }
    }
  }

  /** An occurrence of `p` wholly inside `a` is one of `a`. */
  lemma OccursInPrefix(a: string, b: string, p: string)
    requires !Contains(a, p)
    ensures forall j :: 0 <= j <= |a| - |p| ==> !OccursAt(a + b, p, j)
  {
    var s := a + b;
    forall j | 0 <= j <= |a| - |p| ensures !OccursAt(s, p, j) {
      assert s[j..j + |p|] == a[j..j + |p|];
      assert !OccursAt(a, p, j);
    }
  }

  /** No occurrence of `p` before index |a| of `a + b`. */
  predicate NoneBefore(a: string, b: string, p: string) {
    forall j :: 0 <= j < |a| ==> !OccursAt(a + b, p, j)
  }

  lemma NoneBeforeSeam(a: string, b: string, p: string)
    requires !Contains(a, p)
    requires forall j :: |a| - |p| < j < |a| ==> !OccursAt(a + b, p, j)
    ensures NoneBefore(a, b, p)
  {
    OccursInPrefix(a, b, p);
  }

  lemma FindAfterPrefixNone(a: string, b: string, p: string)
    requires NoneBefore(a, b, p) && Find(b, p).None?
    ensures Find(a + b, p).None?
  {
    OccursInSuffix(a, b, p);
    forall j ensures !OccursAt(a + b, p, j) {
      if j >= |a| {
        assert !OccursAt(b, p, j - |a|);
      }
    }
  }

  lemma FindAfterPrefixSome(a: string, b: string, p: string)
    requires NoneBefore(a, b, p) && Find(b, p).Some?
    ensures Find(a + b, p) == Some(|a| + Find(b, p).value)
  {
    OccursInSuffix(a, b, p);
    var i := Find(b, p).value;
    assert OccursAt(a + b, p, |a| + i);
    var k := Find(a + b, p).value;
    assert OccursAt(b, p, k - |a|);
  }

  /** When no occurrence of `p` lies in `a` or across the seam, the first
      occurrence in `a + b` is the first one in `b`, shifted by |a|. */
  lemma FindAfterPrefix(a: string, b: string, p: string)
    requires !Contains(a, p)
    requires forall j :: |a| - |p| < j < |a| ==> !OccursAt(a + b, p, j)
    ensures Find(a + b, p) == match Find(b, p) { case None => None case Some(i) => Some(|a| + i) }
  {
    NoneBeforeSeam(a, b, p);
    if Find(b, p).None? {
      FindAfterPrefixNone(a, b, p);
    } else {
      FindAfterPrefixSome(a, b, p);
    }
  }

  /** No occurrence of `p` can straddle `a` and `b`: no proper prefix of `p`
      ends `a` while the rest of `p` starts `b`. */
  predicate NoStraddle(a: string, b: string, p: string) {
    forall k :: 0 < k < |p| ==> !(EndsWith(a, p[..k]) && StartsWith(b, p[k..]))
  }

  /** An occurrence that starts inside `a` and ends inside `b` splits `p`
      into a suffix of `a` and a prefix of `b`. */
  lemma StraddleSplit(a: string, b: string, p: string, j: int)
    requires |a| - |p| < j < |a| && 0 <= j
    ensures OccursAt(a + b, p, j) ==> EndsWith(a, p[..|a| - j]) && StartsWith(b, p[|a| - j..])
  {
    var s := a + b;
    if OccursAt(s, p, j) {
      var k := |a| - j;
      assert a[|a| - k..] == s[j..|a|] == p[..k];
      assert b[..|p| - k] == s[|a|..j + |p|] == p[k..];
    }
  }

  lemma NoStraddleOccurs(a: string, b: string, p: string)
    requires NoStraddle(a, b, p)
    ensures forall j :: |a| - |p| < j < |a| ==> !OccursAt(a + b, p, j)
  {
    forall j | |a| - |p| < j < |a| && 0 <= j ensures !OccursAt(a + b, p, j) {
      StraddleSplit(a, b, p, j);
      var k := |a| - j;
      assert !(EndsWith(a, p[..k]) && StartsWith(b, p[k..]));
    }
  }

  /** `p` occurs in neither part nor across the seam, so not in the whole. */
  lemma NotContainsConcat(a: string, b: string, p: string)
    requires !Contains(a, p) && !Contains(b, p)
    requires NoStraddle(a, b, p)
    ensures !Contains(a + b, p)
  {
    NoStraddleOccurs(a, b, p);
    FindAfterPrefix(a, b, p);
  }

  /** `sep.join(xs)`. */
  function Join(xs: seq<string>, sep: string): string
  {
    if |xs| == 0 then ""
    else if |xs| == 1 then xs[0]
    else xs[0] + sep + Join(xs[1..], sep)
  }

  /** `s.split(sep)` for a non-empty separator: the pieces between the
      successive leftmost non-overlapping occurrences of `sep`. */
  function Split(s: string, sep: string): (r: seq<string>)
    requires |sep| > 0
    ensures |r| >= 1
    ensures Join(r, sep) == s
    ensures forall k :: 0 <= k < |r| ==> !Contains(r[k], sep)
    decreases |s|
  {
    match Find(s, sep)
    case None => [s]
    case Some(i) =>
      NotContainsPrefix(s, sep, i);
      var rest := Split(s[i + |sep|..], sep);
      assert s == s[..i] + sep + s[i + |sep|..];
      [s[..i]] + rest
  }

  /** Splitting the join of separator-free pieces gives the pieces back,
      provided no occurrence of the separator straddles a seam. */
  lemma {:induction false} SplitJoin(xs: seq<string>, sep: string)
    requires |sep| > 0 && |xs| >= 1
    requires forall k :: 0 <= k < |xs| ==> !Contains(xs[k], sep)
    requires forall k :: 0 <= k < |xs| - 1 ==> NoStraddle(xs[k], sep + Join(xs[k + 1..], sep), sep)
    ensures Split(Join(xs, sep), sep) == xs
  {
    if |xs| > 1 {
      var rest := Join(xs[1..], sep);
      var s := xs[0] + (sep + rest);
      assert Join(xs, sep) == s;
      NoStraddleOccurs(xs[0], sep + rest, sep);
      FindAfterPrefix(xs[0], sep + rest, sep);
      assert Find(sep + rest, sep) == Some(0);
      assert Find(s, sep) == Some(|xs[0]|);
      assert s[|xs[0]| + |sep|..] == rest;
      assert s[..|xs[0]|] == xs[0];
      forall k | 0 <= k < |xs[1..]| - 1
        ensures NoStraddle(xs[1..][k], sep + Join(xs[1..][k + 1..], sep), sep)
      {
        assert xs[1..][k + 1..] == xs[k + 2..];
      }
      SplitJoin(xs[1..], sep);
    } else {
      assert Join(xs, sep) == xs[0];
    }
  }

  /** A separator of one character can never straddle a seam. */
  lemma NoStraddleSingle(a: string, b: string, p: string)
    requires |p| == 1
    ensures NoStraddle(a, b, p)
  {
  }

  /** A text without `p[k]` does not contain `p`. */
  lemma LacksChar(s: string, p: string, k: nat)
    requires k < |p| && forall i :: 0 <= i < |s| ==> s[i] != p[k]
    ensures !Contains(s, p)
  {
    forall j ensures !OccursAt(s, p, j) {
      if 0 <= j && j + |p| <= |s| {
        assert s[j..j + |p|][k] == s[j + k];
      }
    }
  }

  /** A text that contains the separator splits into at least two pieces. */
  lemma SplitHasSep(s: string, sep: string)
    requires |sep| > 0 && Contains(s, sep)
    ensures |Split(s, sep)| >= 2
  {
  }

  /** A text without the separator is its own single piece. */
  lemma SplitAbsent(s: string, sep: string)
    requires |sep| > 0 && !Contains(s, sep)
    ensures Split(s, sep) == [s]
  {
  }

  /** The first `c` of `a + [c] + b` is the first one of `a`, if any, else
      the one appended. */
  lemma FindSingleConcat(a: string, c: char, b: string)
    ensures Find(a + [c] + b, [c]) == if Find(a, [c]).Some? then Find(a, [c]) else Some(|a|)
  {
    var sep := [c];
    var s := a + sep + b;
    var k := if Find(a, sep).Some? then Find(a, sep).value else |a|;
    forall j | 0 <= j < k ensures !OccursAt(s, sep, j) {
      assert s[j..j + 1] == a[j..j + 1];
      assert !OccursAt(a, sep, j);
    }
    if k < |a| {
      assert OccursAt(a, sep, k);
      assert s[k..k + 1] == a[k..k + 1];
    }
    assert OccursAt(s, sep, k);
  }

  lemma SplitSingleNone(a: string, c: char, b: string)
    requires Find(a, [c]).None?
    ensures Split(a + [c] + b, [c]) == [a] + Split(b, [c])
  {
    var s := a + [c] + b;
    FindSingleConcat(a, c, b);
    assert s[..|a|] == a && s[|a| + 1..] == b;
  }

  /** Splitting on one character distributes over a join at that character. */
  lemma {:induction false} SplitSingleAppend(a: string, c: char, b: string)
    ensures Split(a + [c] + b, [c]) == Split(a, [c]) + Split(b, [c])
    decreases |a|
  {
    var sep := [c];
    if Find(a, sep).None? {
      SplitSingleNone(a, c, b);
    } else {
      var s := a + sep + b;
      var i := Find(a, sep).value;
      FindSingleConcat(a, c, b);
      var rest := a[i + 1..];
      assert s[i + 1..] == rest + sep + b;
      assert s[..i] == a[..i];
      SplitSingleAppend(rest, c, b);
    }
  }

  /** One leading space in front of stripped text is all `strip` removes. */
  lemma StripSpacePrefix(s: string)
    requires s == [] || (!IsSpace(s[0]) && !IsSpace(s[|s| - 1]))
    ensures Strip(" " + s) == s
  {
    var t := " " + s;
    assert t[1..] == s;
    assert LeadingSpaces(t) == 1 + LeadingSpaces(s);
  }

  /** `s.replace(pat, rep)`: every leftmost non-overlapping occurrence of a
      non-empty `pat` is replaced by `rep`. */
  function ReplaceAll(s: string, pat: string, rep: string): string
    requires |pat| > 0
    decreases |s|
  {
    if StartsWith(s, pat) then rep + ReplaceAll(s[|pat|..], pat, rep)
    else if |s| == 0 then ""
    else [s[0]] + ReplaceAll(s[1..], pat, rep)
  }

  lemma {:induction false} ReplaceAllAbsent(s: string, pat: string, rep: string)
    requires |pat| > 0 && !Contains(s, pat)
    ensures ReplaceAll(s, pat, rep) == s
    decreases |s|
  {
    assert !OccursAt(s, pat, 0);
    if |s| > 0 {
      NotContainsTail(s, pat);
      ReplaceAllAbsent(s[1..], pat, rep);
      assert s == [s[0]] + s[1..];
    }
  }

  lemma ReplaceAllAtStart(p: string, c: string, rep: string)
    requires |p| > 0
    ensures ReplaceAll(p + c, p, rep) == rep + ReplaceAll(c, p, rep)
  {
    assert StartsWith(p + c, p);
    assert (p + c)[|p|..] == c;
  }

  /** A character that the replacement does not hold is absent from the
      result when it was absent before, or when it is the whole pattern. */
  lemma {:induction false} ReplaceAllDropsChar(s: string, pat: string, rep: string, c: char)
    requires |pat| > 0 && c !in rep && (c !in s || pat == [c])
    ensures c !in ReplaceAll(s, pat, rep)
    decreases |s|
  {
    if StartsWith(s, pat) {
      var t := s[|pat|..];
      assert forall k :: 0 <= k < |t| ==> t[k] == s[|pat| + k];
      ReplaceAllDropsChar(t, pat, rep, c);
    } else if |s| > 0 {
      assert s[0] != c by {
        if pat == [c] {
          assert s[..1] == [s[0]];
        }
      }
      assert s == [s[0]] + s[1..];
      ReplaceAllDropsChar(s[1..], pat, rep, c);
    }
  }

  /** No `a` is directly followed by `b`. */
  predicate NoPair(s: string, a: char, b: char) {
    forall i :: 0 <= i < |s| - 1 ==> !(s[i] == a && s[i + 1] == b)
  }

  lemma NoPairConcat(x: string, y: string, a: char, b: char)
    requires NoPair(x, a, b) && NoPair(y, a, b)
    requires |x| == 0 || |y| == 0 || !(x[|x| - 1] == a && y[0] == b)
    ensures NoPair(x + y, a, b)
  {
    var s := x + y;
    forall i | 0 <= i < |s| - 1 ensures !(s[i] == a && s[i + 1] == b) {
      if i < |x| - 1 {
        assert s[i] == x[i] && s[i + 1] == x[i + 1];
      } else if i >= |x| {
        assert s[i] == y[i - |x|] && s[i + 1] == y[i - |x| + 1];
      }
    }
  }

  lemma ReplaceAllHead(s: string, pat: string, rep: string)
    requires |pat| > 0 && |rep| > 0 && |s| > 0
    ensures |ReplaceAll(s, pat, rep)| > 0
    ensures ReplaceAll(s, pat, rep)[0] == if StartsWith(s, pat) then rep[0] else s[0]
  {
  }

  /** Replacing with text that holds neither `a` nor `b` leaves no `a`
      followed by `b` when there was none, or when the pattern is that pair. */
  lemma {:induction false} ReplaceAllNoPair(s: string, pat: string, rep: string, a: char, b: char)
    requires |pat| > 0 && |rep| > 0 && a !in rep && b !in rep
    requires pat == [a, b] || NoPair(s, a, b)
    ensures NoPair(ReplaceAll(s, pat, rep), a, b)
    decreases |s|
  {
    assert NoPair(rep, a, b);
    if StartsWith(s, pat) {
      var t := s[|pat|..];
      if pat != [a, b] {
        assert forall i :: 0 <= i < |t| ==> t[i] == s[|pat| + i];
      }
      ReplaceAllNoPair(t, pat, rep, a, b);
      NoPairConcat(rep, ReplaceAll(t, pat, rep), a, b);
    } else if |s| > 0 {
      var t := s[1..];
      if pat != [a, b] {
        assert forall i :: 0 <= i < |t| ==> t[i] == s[1 + i];
      }
      ReplaceAllNoPair(t, pat, rep, a, b);
      if |t| > 0 && s[0] == a {
        assert s[1] != b by {
          if pat == [a, b] {
            assert s[..2] == [s[0], s[1]];
          } else {
            assert !(s[0] == a && s[1] == b);
          }
        }
        ReplaceAllHead(t, pat, rep);
      }
      NoPairConcat([s[0]], ReplaceAll(t, pat, rep), a, b);
    }
  }

  /** Without an `a` followed by `b`, nothing that starts with them occurs. */
  lemma NoPairNotContains(s: string, p: string, a: char, b: char)
    requires |p| >= 2 && p[0] == a && p[1] == b && NoPair(s, a, b)
    ensures !Contains(s, p)
  {
    forall j | 0 <= j && j + |p| <= |s| ensures !OccursAt(s, p, j) {
      assert s[j..j + |p|][0] == s[j] && s[j..j + |p|][1] == s[j + 1];
    }
    NoOccurrence(s, p);
  }

  /** A pattern longer than the text, or as long and different, does not occur. */
  lemma TooLongNotContained(s: string, p: string)
    requires |p| > |s| || (|p| == |s| && p != s)
    ensures !Contains(s, p)
  {
    if |p| == |s| {
      assert s[0..|s|] == s;
    }
    NoOccurrence(s, p);
  }

  /** A string none of whose characters is `c` does not contain `[c]`. */
  lemma NotContainsChar(s: string, c: char)
    requires forall i :: 0 <= i < |s| ==> s[i] != c
    ensures !Contains(s, [c])
  {
    forall j ensures !OccursAt(s, [c], j) {
      if 0 <= j < |s| {
        assert s[j..j + 1][0] == s[j];
      }
    }
  }

  /** An occurrence inside an occurrence is an occurrence. */
  lemma OccursWithin(s: string, piece: string, off: int, p: string, at: int)
    requires OccursAt(s, piece, off) && OccursAt(piece, p, at)
    ensures OccursAt(s, p, off + at)
  {
    forall t | 0 <= t < |p| ensures s[off + at..off + at + |p|][t] == p[t] {
      assert s[off..off + |piece|][at + t] == piece[at + t];
      assert piece[at..at + |p|][t] == piece[at + t];
    }
  }

  /** Whatever an occurrence contains, the enclosing text contains. */
  lemma ContainsWithin(s: string, piece: string, off: int, p: string)
    requires OccursAt(s, piece, off) && Contains(piece, p)
    ensures Contains(s, p)
  {
    var at := Find(piece, p).value;
    OccursWithin(s, piece, off, p, at);
    ContainsAt(s, p, off + at);
  }

  /** The stripped text occurs in the original right after the leading
      whitespace. */
  lemma StripOccurs(s: string)
    ensures OccursAt(s, Strip(s), LeadingSpaces(s))
  {
    var off := LeadingSpaces(s);
    var r := RStrip(LStrip(s));
    assert s[off..off + |r|] == s[off..][..|r|];
  }

  lemma StripContains(s: string, p: string)
    ensures Contains(Strip(s), p) ==> Contains(s, p)
  {
    if Contains(Strip(s), p) {
      StripOccurs(s);
      ContainsWithin(s, Strip(s), LeadingSpaces(s), p);
    }
  }

  /** Every piece of a split occurs in the split text. */
  lemma SplitPieceOccurs(s: string, sep: string, k: nat)
    requires |sep| > 0 && k < |Split(s, sep)|
    ensures exists off :: OccursAt(s, Split(s, sep)[k], off)
  {
    JoinPieceOccurs(Split(s, sep), sep, k);
  }

  /** Every piece of a join occurs in the joined text. */
  lemma {:induction false} JoinPieceOccurs(xs: seq<string>, sep: string, k: nat)
    requires k < |xs|
    ensures exists off :: OccursAt(Join(xs, sep), xs[k], off)
    decreases |xs|
  {
    var s := Join(xs, sep);
    if |xs| == 1 {
      assert OccursAt(s, xs[k], 0);
    } else {
      var head := xs[0] + sep;
      assert s == head + Join(xs[1..], sep);
      if k == 0 {
        assert OccursAt(s, xs[0], 0);
      } else {
        JoinPieceOccurs(xs[1..], sep, k - 1);
        assert s[|head|..] == Join(xs[1..], sep) && xs[1..][k - 1] == xs[k];
        OccursInTail(s, |head|, xs[k]);
      }
    }
  }

  /** What occurs in a suffix occurs in the whole text. */
  lemma OccursInTail(s: string, j: nat, p: string)
    requires j <= |s| && exists off :: OccursAt(s[j..], p, off)
    ensures exists off :: OccursAt(s, p, off)
  {
    var off :| OccursAt(s[j..], p, off);
    assert OccursAt(s, s[j..], j);
    OccursWithin(s, s[j..], j, p, off);
  }

  /** What a piece of a split contains, the split text contains. */
  lemma SplitPieceContains(s: string, sep: string, k: nat, p: string)
    requires |sep| > 0 && k < |Split(s, sep)| && Contains(Split(s, sep)[k], p)
    ensures Contains(s, p)
  {
    SplitPieceOccurs(s, sep, k);
    var off :| OccursAt(s, Split(s, sep)[k], off);
    ContainsWithin(s, Split(s, sep)[k], off, p);
  }

  /** The longest prefix of `s` whose characters all satisfy `p`. */
  function RunLength(s: string, p: char -> bool): (n: nat)
    ensures n <= |s|
    ensures forall i :: 0 <= i < n ==> p(s[i])
    ensures n == |s| || !p(s[n])
  {
    if |s| > 0 && p(s[0]) then 1 + RunLength(s[1..], p) else 0
  }

  /** `re.sub(r'X+', ' ', s)` for a one-character class X given by `inRun`:
      every maximal run of such characters becomes a single space. */
  function CollapseRuns(s: string, inRun: char -> bool): string
    decreases |s|
  {
    if |s| == 0 then ""
    else if inRun(s[0]) then [' '] + CollapseRuns(s[RunLength(s, inRun)..], inRun)
    else [s[0]] + CollapseRuns(s[1..], inRun)
  }

  /** Every whitespace character is a plain space and no two are adjacent:
      the shape `re.sub(r'\s+', ' ', s)` leaves. */
  predicate Collapsed(s: string) {
    forall i :: 0 <= i < |s| && IsSpace(s[i]) ==> s[i] == ' ' && (i + 1 < |s| ==> !IsSpace(s[i + 1]))
  }

  /** A text starting with a character outside the class keeps it first. */
  lemma CollapseRunsHead(s: string, inRun: char -> bool)
    requires |s| > 0 && !inRun(s[0])
    ensures |CollapseRuns(s, inRun)| > 0 && CollapseRuns(s, inRun)[0] == s[0]
  {
  }

  /** Collapsing only adds spaces: every other character comes from `s` and
      is outside the class. */
  lemma {:induction false} CollapseRunsChars(s: string, inRun: char -> bool)
    ensures forall c :: c in CollapseRuns(s, inRun) ==> c == ' ' || (c in s && !inRun(c))
    decreases |s|
  {
    if |s| > 0 {
      var n := if inRun(s[0]) then RunLength(s, inRun) else 1;
      CollapseRunsChars(s[n..], inRun);
      assert forall c :: c in s[n..] ==> c in s;
    }
  }

  lemma {:induction false} CollapseRunsCollapsed(s: string)
    ensures Collapsed(CollapseRuns(s, IsSpace))
    decreases |s|
  {
    if |s| > 0 {
      var n := if IsSpace(s[0]) then RunLength(s, IsSpace) else 1;
      var rest := CollapseRuns(s[n..], IsSpace);
      CollapseRunsCollapsed(s[n..]);
      if IsSpace(s[0]) && n < |s| {
        CollapseRunsHead(s[n..], IsSpace);
      }
      var r := CollapseRuns(s, IsSpace);
      assert r == [r[0]] + rest;
      forall i | 0 <= i < |r| && IsSpace(r[i]) ensures r[i] == ' ' && (i + 1 < |r| ==> !IsSpace(r[i + 1])) {
        if i > 0 {
          assert r[i] == rest[i - 1];
        }
      }
    }
  }

  /** Collapsing a collapsed text changes nothing. */
  lemma {:induction false} CollapsedFixed(s: string)
    requires Collapsed(s)
    ensures CollapseRuns(s, IsSpace) == s
    decreases |s|
  {
    if |s| > 0 {
      assert forall i :: 0 <= i < |s| - 1 && IsSpace(s[1..][i]) ==> s[1..][i] == s[i + 1];
      CollapsedFixed(s[1..]);
      if IsSpace(s[0]) {
        assert RunLength(s, IsSpace) == 1;
      }
      assert s == [s[0]] + s[1..];
    }
  }

  /** `strip` takes a slice. */
  lemma StripSlice(s: string)
    ensures LeadingSpaces(s) + |Strip(s)| <= |s|
    ensures Strip(s) == s[LeadingSpaces(s)..LeadingSpaces(s) + |Strip(s)|]
  {
  }

  lemma CollapsedSlice(s: string, a: nat, b: nat)
    requires Collapsed(s) && a <= b <= |s|
    ensures Collapsed(s[a..b])
  {
    assert forall i :: 0 <= i < b - a ==> s[a..b][i] == s[a + i];
  }

  predicate NotSpace(c: char) { !IsSpace(c) }

  /** A word: non-empty, without whitespace. */
  predicate IsWord(w: string) {
    |w| > 0 && forall i :: 0 <= i < |w| ==> !IsSpace(w[i])
  }

  /** `s.split()` with no argument: the maximal runs of non-whitespace
      characters, in order; whitespace alone gives no word. */
  function Words(s: string): (r: seq<string>)
    ensures forall k :: 0 <= k < |r| ==> IsWord(r[k])
    ensures |s| > 0 && !IsSpace(s[0]) ==> |r| > 0
    decreases |s|
  {
    if |s| == 0 then []
    else if IsSpace(s[0]) then Words(s[LeadingSpaces(s)..])
    else
      var n := RunLength(s, NotSpace);
      [s[..n]] + Words(s[n..])
  }

  /** Words of non-space characters, joined by single spaces, start and end
      with a non-space character; the join is empty only without words. */
  lemma {:induction false} JoinWordsEdges(xs: seq<string>)
    requires forall k :: 0 <= k < |xs| ==> IsWord(xs[k])
    ensures var j := Join(xs, " "); (|j| == 0 <==> |xs| == 0) && (j == [] || (!IsSpace(j[0]) && !IsSpace(j[|j| - 1])))
  {
    if |xs| > 1 {
      JoinWordsEdges(xs[1..]);
      var rest := Join(xs[1..], " ");
      assert Join(xs, " ") == xs[0] + " " + rest;
    }
  }

  /** A prefix of non-space characters passes through the collapse as it is. */
  lemma {:induction false} CollapseNonSpacePrefix(s: string, n: nat)
    requires n <= |s| && forall i :: 0 <= i < n ==> !IsSpace(s[i])
    ensures CollapseRuns(s, IsSpace) == s[..n] + CollapseRuns(s[n..], IsSpace)
  {
    if n == 0 {
      assert s[n..] == s;
    } else {
      var tail := s[1..];
      CollapseNonSpacePrefix(tail, n - 1);
      assert CollapseRuns(s, IsSpace) == [s[0]] + CollapseRuns(tail, IsSpace);
      assert tail[n - 1..] == s[n..];
      assert s[..n] == [s[0]] + tail[..n - 1];
    }
  }

  /** The whitespace run the collapse replaces at the front is the leading
      whitespace. */
  lemma RunIsLeading(s: string)
    ensures RunLength(s, IsSpace) == LeadingSpaces(s)
  {
  }

  /** A text opening with whitespace collapses to one space followed by
      the collapse of the rest, and has the words of the rest. */
  lemma CollapseGap(s: string)
    requires |s| > 0 && IsSpace(s[0])
    ensures CollapseRuns(s, IsSpace) == " " + CollapseRuns(s[LeadingSpaces(s)..], IsSpace)
    ensures Words(s) == Words(s[LeadingSpaces(s)..])
  {
    RunIsLeading(s);
  }

  lemma JoinCons(w: string, ws: seq<string>)
    requires |ws| > 0
    ensures Join([w] + ws, " ") == w + " " + Join(ws, " ")
  {
    assert ([w] + ws)[1..] == ws;
  }

  /** " " when `s` ends with whitespace, else "". */
  function TrailingGap(s: string): string {
    if |s| > 0 && IsSpace(s[|s| - 1]) then " " else ""
  }

  /** A text opening with a non-space character has its first run of
      non-space characters as first word. */
  lemma WordsHead(s: string)
    requires |s| > 0 && !IsSpace(s[0])
    ensures Words(s) == [s[..RunLength(s, NotSpace)]] + Words(s[RunLength(s, NotSpace)..])
  {
  }

  /** The end of a text is the end of any non-empty suffix. */
  lemma TrailingGapSuffix(s: string, k: nat)
    requires k < |s|
    ensures TrailingGap(s[k..]) == TrailingGap(s)
  {
    assert s[k..][|s| - k - 1] == s[|s| - 1];
  }

  /** The step of `CollapseJoin` for a text that is one word followed by
      whitespace and the text `t` after it. */
  lemma CollapseJoinStep(s: string, n: nat, t: string)
    requires 0 < n < |s| && !IsSpace(s[0]) && n == RunLength(s, NotSpace)
    requires t == s[n..][LeadingSpaces(s[n..])..]
    requires CollapseRuns(t, IsSpace) == Join(Words(t), " ") + TrailingGap(t)
    ensures CollapseRuns(s, IsSpace) == Join(Words(s), " ") + TrailingGap(s)
  {
    var w, cs, ct := StepCollapse(s, n, t);
    var ws := StepWords(s, n, t);
    StepGap(s, n, t);
    if |t| == 0 {
      JoinGapLast(w, ws, ct, TrailingGap(t), cs);
    } else {
      JoinGapMore(w, ws, ct, TrailingGap(t), cs);
    }
  }

  /** The collapse of one word, whitespace and `t`. */
  lemma StepCollapse(s: string, n: nat, t: string) returns (w: string, cs: string, ct: string)
    requires 0 < n < |s| && n == RunLength(s, NotSpace)
    requires t == s[n..][LeadingSpaces(s[n..])..]
    ensures w == s[..n] && cs == CollapseRuns(s, IsSpace) && ct == CollapseRuns(t, IsSpace)
    ensures cs == w + " " + ct
  {
    w, cs, ct := s[..n], CollapseRuns(s, IsSpace), CollapseRuns(t, IsSpace);
    CollapseNonSpacePrefix(s, n);
    CollapseGap(s[n..]);
  }

  /** The words of one word, whitespace and `t`. */
  lemma StepWords(s: string, n: nat, t: string) returns (ws: seq<string>)
    requires 0 < n < |s| && !IsSpace(s[0]) && n == RunLength(s, NotSpace)
    requires t == s[n..][LeadingSpaces(s[n..])..]
    ensures ws == Words(t) && Words(s) == [s[..n]] + ws
    ensures |t| == 0 ==> ws == []
    ensures |t| > 0 ==> |ws| > 0
  {
    ws := Words(t);
    WordsHead(s);
    CollapseGap(s[n..]);
  }

  /** The trailing gap of one word, whitespace and `t`. */
  lemma StepGap(s: string, n: nat, t: string)
    requires 0 < n < |s| && n == RunLength(s, NotSpace)
    requires t == s[n..][LeadingSpaces(s[n..])..]
    ensures |t| == 0 ==> TrailingGap(t) == "" && TrailingGap(s) == " "
    ensures |t| > 0 ==> TrailingGap(s) == TrailingGap(t)
  {
    var rest := s[n..];
    TrailingGapSuffix(s, n);
    if |t| == 0 {
      assert LeadingSpaces(rest) == |rest|;
      assert IsSpace(rest[|rest| - 1]);
    } else {
      TrailingGapSuffix(rest, LeadingSpaces(rest));
    }
  }

  lemma JoinGapLast(w: string, ws: seq<string>, ct: string, gt: string, cs: string)
    requires ws == [] && gt == "" && ct == Join(ws, " ") + gt && cs == w + " " + ct
    ensures cs == Join([w] + ws, " ") + " "
  {
    assert [w] + ws == [w];
  }

  lemma JoinGapMore(w: string, ws: seq<string>, ct: string, gt: string, cs: string)
    requires |ws| > 0 && ct == Join(ws, " ") + gt && cs == w + " " + ct
    ensures cs == Join([w] + ws, " ") + gt
  {
    JoinCons(w, ws);
  }

  lemma GapSpaces(s: string)
    ensures forall i :: 0 <= i < |TrailingGap(s)| ==> IsSpace(TrailingGap(s)[i])
  {
  }

  /** Collapsing a text that does not start with whitespace gives its words
      joined by single spaces, followed by one space when it ends with
      whitespace. */
  lemma {:induction false} CollapseJoin(s: string)
    requires |s| == 0 || !IsSpace(s[0])
    ensures CollapseRuns(s, IsSpace) == Join(Words(s), " ") + TrailingGap(s)
    decreases |s|
  {
    if |s| > 0 {
      var n := RunLength(s, NotSpace);
      if n == |s| {
        CollapseNonSpacePrefix(s, n);
        WordsHead(s);
      } else {
        var rest := s[n..];
        var t := rest[LeadingSpaces(rest)..];
        CollapseJoin(t);
        CollapseJoinStep(s, n, t);
      }
    }
  }

  /** Stripping removes exactly the whitespace around a text without
      whitespace at its ends. */
  lemma StripAround(a: string, m: string, b: string)
    requires forall i :: 0 <= i < |a| ==> IsSpace(a[i])
    requires forall i :: 0 <= i < |b| ==> IsSpace(b[i])
    requires m == [] || (!IsSpace(m[0]) && !IsSpace(m[|m| - 1]))
    ensures Strip(a + m + b) == m
  {
    var x := a + m + b;
    var n := LeadingSpaces(x);
    if m == [] {
      assert x == a + b;
      assert n == |x|;
    } else {
      assert x[|a|] == m[0];
      assert n == |a|;
      var l := LStrip(x);
      assert l == m + b;
      var t := TrailingSpaces(l);
      assert l[|m| - 1] == m[|m| - 1];
      assert t == |b|;
      assert RStrip(l) == m;
    }
  }

  /** `re.sub(r'\s+', ' ', s).strip()` is `' '.join(s.split())`. */
  lemma StripCollapse(s: string)
    ensures Strip(CollapseRuns(s, IsSpace)) == Join(Words(s), " ")
  {
    if |s| > 0 && IsSpace(s[0]) {
      var t := s[LeadingSpaces(s)..];
      CollapseGap(s);
      StripJoinSpaced(t);
    } else {
      StripJoinGap(s);
    }
  }

  /** The collapse of a text not starting with whitespace strips to its
      joined words. */
  lemma StripJoinGap(t: string)
    requires |t| == 0 || !IsSpace(t[0])
    ensures Strip(CollapseRuns(t, IsSpace)) == Join(Words(t), " ")
  {
    var c, j, g := CollapseFacts(t);
    StripGapped("", c, j, g);
    assert "" + c == c;
  }

  /** The same behind one space. */
  lemma StripJoinSpaced(t: string)
    requires |t| == 0 || !IsSpace(t[0])
    ensures Strip(" " + CollapseRuns(t, IsSpace)) == Join(Words(t), " ")
  {
    var c, j, g := CollapseFacts(t);
    StripGapped(" ", c, j, g);
  }

  /** The collapse of a text not starting with whitespace is its joined
      words `j` followed by a gap `g` of at most one space. */
  lemma CollapseFacts(t: string) returns (c: string, j: string, g: string)
    requires |t| == 0 || !IsSpace(t[0])
    ensures c == CollapseRuns(t, IsSpace) && j == Join(Words(t), " ") && g == TrailingGap(t)
    ensures c == j + g
    ensures j == [] || (!IsSpace(j[0]) && !IsSpace(j[|j| - 1]))
    ensures forall i :: 0 <= i < |g| ==> IsSpace(g[i])
  {
    c, j, g := CollapseRuns(t, IsSpace), Join(Words(t), " "), TrailingGap(t);
    CollapseJoin(t);
    JoinWordsEdges(Words(t));
    GapSpaces(t);
  }

  lemma StripGapped(lead: string, c: string, j: string, g: string)
    requires c == j + g
    requires forall i :: 0 <= i < |lead| ==> IsSpace(lead[i])
    requires forall i :: 0 <= i < |g| ==> IsSpace(g[i])
    requires j == [] || (!IsSpace(j[0]) && !IsSpace(j[|j| - 1]))
    ensures Strip(lead + c) == j
  {
    assert lead + c == lead + j + g;
    StripAround(lead, j, g);
  }

  /** Collapsing whitespace keeps every non-space character, in order. */
  lemma {:induction false} FilterCollapse(s: string)
    ensures Filter(CollapseRuns(s, IsSpace), NotSpace) == Filter(s, NotSpace)
    decreases |s|
  {
    if |s| > 0 {
      var n := if IsSpace(s[0]) then RunLength(s, IsSpace) else 1;
      var rest := s[n..];
      FilterCollapse(rest);
      assert s == s[..n] + rest;
      FilterConcat(s[..n], rest, NotSpace);
      var c := CollapseRuns(rest, IsSpace);
      if IsSpace(s[0]) {
        FilterNone(s[..n], NotSpace);
        FilterCons(' ', c, NotSpace);
      } else {
        assert s[..n] == [s[0]];
        FilterCons(s[0], c, NotSpace);
        FilterCons(s[0], [], NotSpace);
        assert Filter([s[0]], NotSpace) == [s[0]] + Filter([], NotSpace);
      }
    }
  }

  /** Stripping keeps every non-space character, in order. */
  lemma StripFilter(x: string)
    ensures Filter(Strip(x), NotSpace) == Filter(x, NotSpace)
  {
    var pre, r, post := StripParts(x);
    FilterAround(pre, r, post);
  }

  /** A text is its leading whitespace, its stripped text and its trailing
      whitespace. */
  lemma StripParts(x: string) returns (pre: string, r: string, post: string)
    ensures r == Strip(x) && x == pre + r + post
    ensures forall i :: 0 <= i < |pre| ==> IsSpace(pre[i])
    ensures forall i :: 0 <= i < |post| ==> IsSpace(post[i])
  {
    StripSlice(x);
    var a := LeadingSpaces(x);
    r := Strip(x);
    var e := a + |r|;
    var l := LStrip(x);
    pre, post := x[..a], x[e..];
    assert forall i :: 0 <= i < |post| ==> post[i] == l[|l| - TrailingSpaces(l) + i];
    assert x == pre + r + post;
  }

  /** Whitespace around a text adds nothing to its non-space characters. */
  lemma FilterAround(pre: string, m: string, post: string)
    requires forall i :: 0 <= i < |pre| ==> IsSpace(pre[i])
    requires forall i :: 0 <= i < |post| ==> IsSpace(post[i])
    ensures Filter(pre + m + post, NotSpace) == Filter(m, NotSpace)
  {
    FilterConcat(pre + m, post, NotSpace);
    FilterConcat(pre, m, NotSpace);
    FilterNone(pre, NotSpace);
    FilterNone(post, NotSpace);
  }

  /** The decimal digits of a natural number, as Python's `str(n)`. */
  function NatToString(n: nat): (r: string)
    ensures |r| >= 1
    ensures forall i :: 0 <= i < |r| ==> IsAsciiDigit(r[i])
  {
    if n < 10 then [(48 + n) as char] else NatToString(n / 10) + [(48 + n % 10) as char]
  }
}

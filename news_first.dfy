/** The News 1st scraper: the title and content cleaners, the article links
    of a listing page (made absolute, duplicates removed), the filter that
    decides which links are articles, the extraction loop, and the daily
    sequence of listing dates. Page fetching and HTML parsing are
    parameters: a listing page is the `href`s its containers hold, an
    article is what the extraction call returns. */
module NewsFirst {
  import opened Wrappers
  import opened Text
  import opened Lists
  import opened Calendar
  import opened Days
  import opened DayLoop

  // ---------------------------------------------------------------------
  // clean_text

  /** `clean_text`: "" for a missing or empty text; otherwise every
      whitespace run becomes one space and the ends are stripped, which
      is the words of the text joined by single spaces, and every
      non-space character of the text survives, in order. */
  function CleanText(text: Option<string>): (r: string)
    ensures text.None? || text.value == [] ==> r == []
    ensures text.Some? ==> r == Join(Words(text.value), " ")
    ensures text.Some? ==> Filter(r, NotSpace) == Filter(text.value, NotSpace)
    ensures Collapsed(r)
    ensures r == [] || (!IsSpace(r[0]) && !IsSpace(r[|r| - 1]))
  {
    match text
    case None => ""
    case Some(t) =>
      if t == "" then ""
      else
        var c := CollapseRuns(t, IsSpace);
        CollapsedWords(t, c);
        Strip(c)
  }

  /** The stripped collapse is the joined words and keeps the non-space
      characters. */
  lemma CollapsedWords(t: string, c: string)
    requires c == CollapseRuns(t, IsSpace)
    ensures Strip(c) == Join(Words(t), " ")
    ensures Filter(Strip(c), NotSpace) == Filter(t, NotSpace)
    ensures Collapsed(Strip(c))
  {
    CollapseRunsCollapsed(t);
    StripSlice(c);
    CollapsedSlice(c, LeadingSpaces(c), LeadingSpaces(c) + |Strip(c)|);
    StripCollapse(t);
    StripFilter(c);
    FilterCollapse(t);
  }

  /** Cleaning a cleaned text changes nothing. */
  lemma CleanTextIdempotent(text: Option<string>)
    ensures CleanText(Some(CleanText(text))) == CleanText(text)
  {
    var r := CleanText(text);
    if r != [] {
      CollapsedFixed(r);
      StripNoEdgeSpace(r);
    }
  }

  /** A text without whitespace comes back unchanged. */
  lemma CleanTextNoSpace(t: string)
    requires forall i :: 0 <= i < |t| ==> !IsSpace(t[i])
    ensures CleanText(Some(t)) == t
  {
    if t != [] {
      CollapsedFixed(t);
      StripNoEdgeSpace(t);
    }
  }

  // ---------------------------------------------------------------------
  // clean_content

  /** The exact prefixes, in the order they are tried. */
  const ExactPrefixes: seq<string> := [
    "(BBC) - ",
    "Colombo (News 1st) - ",
    "Colombo (News 1st) -",
    "Colombo (News 1st);",
    "Colombo (News 1st):",
    "COLOMBO (News 1st): ",
    "COLOMBO (News 1st) - ",
    "COLOMBO (News 1st) -",
    "COLOMBO (News 1st);",
    "COLOMBO (News 1st):",
    "COLOMBO News 1st;",
    " COLOMBO News 1st;",
    " COLOMBO (News 1st):",
    "(Bloomberg) -- ",
    "Colombo (Sri Lanka) - ",
    "NEW DELHI (AP) - ",
    "TOKYO (AP) - ",
    "WASHINGTON (AP) - ",
    "LONDON (AP) - "
  ]

  /** The punctuation the special-character pass keeps. */
  const KeptPunctuation: string := ".,;:?!'\"-"

  /** The punctuation a preceding whitespace run is removed before. */
  const ClosingPunctuation: string := ".,;:?!"

  /** The index of the first prefix, from `from` on, that `s` starts with. */
  function FirstPrefix(s: string, prefixes: seq<string>, from: nat): (r: Option<nat>)
    ensures r.Some? ==> from <= r.value < |prefixes| && StartsWith(s, prefixes[r.value])
    ensures r.Some? ==> forall j :: from <= j < r.value ==> !StartsWith(s, prefixes[j])
    ensures r.None? ==> forall j :: from <= j < |prefixes| ==> !StartsWith(s, prefixes[j])
    decreases |prefixes| - from
  {
    if from >= |prefixes| then None
    else if StartsWith(s, prefixes[from]) then Some(from)
    else FirstPrefix(s, prefixes, from + 1)
  }

  /** `s` without the first of `prefixes` it starts with, if any. */
  function DropPrefix(s: string, prefixes: seq<string>): string {
    match FirstPrefix(s, prefixes, 0)
    case None => s
    case Some(k) => s[|prefixes[k]|..]
  }

  /** At most one prefix is removed, and it is the first matching one in
      list order; with no match the text is unchanged. */
  lemma DropPrefixFirst(s: string, prefixes: seq<string>)
    ensures (forall j :: 0 <= j < |prefixes| ==> !StartsWith(s, prefixes[j])) ==> DropPrefix(s, prefixes) == s
    ensures forall k ::
      (0 <= k < |prefixes| && StartsWith(s, prefixes[k]) && forall j :: 0 <= j < k ==> !StartsWith(s, prefixes[j]))
      ==> s == prefixes[k] + DropPrefix(s, prefixes)
  {
    match FirstPrefix(s, prefixes, 0)
    case None =>
    case Some(k) =>
      assert s == prefixes[k] + s[|prefixes[k]|..];
  }

  /** A prefix repeated twice loses one copy only. */
  lemma OnePrefixRemoved(rest: string)
    ensures DropPrefix(ExactPrefixes[0] + rest, ExactPrefixes) == rest
  {
    var s := ExactPrefixes[0] + rest;
    assert s[..|ExactPrefixes[0]|] == ExactPrefixes[0];
  }

  /** Content is stripped before the prefixes are tried, so the two prefixes
      that begin with a space never match. */
  lemma SpacedPrefixesNeverMatch(content: string, k: nat)
    requires k < |ExactPrefixes| && IsSpace(ExactPrefixes[k][0])
    ensures !StartsWith(Strip(content), ExactPrefixes[k])
  {
    NotStartsWithSpace(Strip(content), ExactPrefixes[k]);
  }

  lemma NotStartsWithSpace(s: string, p: string)
    requires |p| > 0 && IsSpace(p[0]) && (s == [] || !IsSpace(s[0]))
    ensures !StartsWith(s, p)
  {
    if |p| <= |s| {
      assert s[..|p|][0] == s[0];
    }
  }

  /** The exact-prefix loop: the first prefix in list order that the content
      starts with is cut off and the loop stops. */
  method RemoveExactPrefix(content: string) returns (r: string)
    ensures r == DropPrefix(content, ExactPrefixes)
  {
    r := content;
    for i := 0 to |ExactPrefixes|
      invariant FirstPrefix(content, ExactPrefixes, 0) == FirstPrefix(content, ExactPrefixes, i)
      invariant r == content
    {
      if StartsWith(r, ExactPrefixes[i]) {
        r := r[|ExactPrefixes[i]|..];
        return;
      }
    }
  }

  /** What the special-character pass keeps: word characters, whitespace
      and the kept punctuation. `isWord` is the Unicode `\w` class. */
  predicate Allowed(c: char, isWord: char -> bool) {
    isWord(c) || IsSpace(c) || c in KeptPunctuation
  }

  /** `re.sub(r'[^\w\s.,;:?!\'"-]', ' ', s)`. */
  function Sanitize(s: string, isWord: char -> bool): (r: string)
    ensures |r| == |s|
    ensures forall c :: c in r ==> Allowed(c, isWord)
  {
    seq(|s|, i requires 0 <= i < |s| => if Allowed(s[i], isWord) then s[i] else ' ')
  }

  predicate IsNewline(c: char) { c == '\n' }

  predicate IsTab(c: char) { c == '\t' }

  /** `re.sub(r'\s+([.,;:?!])', r'\1', s)`: a whitespace run is removed when
      the character after it is closing punctuation. */
  function DropSpaceBefore(s: string): string
    decreases |s|
  {
    if |s| == 0 then ""
    else if IsSpace(s[0]) then
      var n := RunLength(s, IsSpace);
      if n < |s| && s[n] in ClosingPunctuation then DropSpaceBefore(s[n..])
      else s[..n] + DropSpaceBefore(s[n..])
    else [s[0]] + DropSpaceBefore(s[1..])
  }

  /** The whitespace shape of cleaned content: whitespace is a single plain
      space, never before closing punctuation. */
  predicate Tidy(s: string) {
    forall i :: 0 <= i < |s| && IsSpace(s[i]) ==>
      s[i] == ' ' && (i + 1 < |s| ==> !IsSpace(s[i + 1]) && s[i + 1] !in ClosingPunctuation)
  }

  /** The steps of `clean_content` after the prefixes, in order. */
  function Tidied(s: string, isWord: char -> bool): (r: string)
    ensures r == [] || (!IsSpace(r[0]) && !IsSpace(r[|r| - 1]))
  {
    var a := Sanitize(s, isWord);
    var b := CollapseRuns(a, IsNewline);
    var c := CollapseRuns(b, IsTab);
    var d := CollapseRuns(c, IsSpace);
    Strip(DropSpaceBefore(d))
  }

  // ---------------------------------------------------------------------
  // The regular-expression prefixes of clean_content

  /** `[A-Za-z]`, read over the ASCII letters. */
  predicate IsAsciiLetter(c: char) {
    'A' <= c <= 'Z' || 'a' <= c <= 'z'
  }

  /** `[A-Za-z\s]`. */
  predicate IsLetterOrSpace(c: char) {
    IsAsciiLetter(c) || IsSpace(c)
  }

  /** The end of the longest run of characters satisfying `p` from `i`. */
  function RunEnd(s: string, i: nat, p: char -> bool): (e: nat)
    requires i <= |s|
    ensures i <= e <= |s|
    ensures forall k :: i <= k < e ==> p(s[k])
    ensures e == |s| || !p(s[e])
  {
    i + RunLength(s[i..], p)
  }

  /** `\s*[seps]\s*` from position `i`: where the match ends. The runs of
      whitespace are taken whole, as no shorter run can be followed by a
      separator. */
  function SeparatorEnd(s: string, i: nat, seps: set<char>): (r: Option<nat>)
    requires i <= |s|
    ensures r.Some? ==> i < r.value <= |s| && (r.value == |s| || !IsSpace(s[r.value]))
    ensures r.Some? <==> RunEnd(s, i, IsSpace) < |s| && s[RunEnd(s, i, IsSpace)] in seps
  {
    var q := RunEnd(s, i, IsSpace);
    if q < |s| && s[q] in seps then Some(RunEnd(s, q + 1, IsSpace)) else None
  }

  /** The first pattern, `^\([A-Za-z]+\)\s*-\s*`: a bracketed word such as
      "(Reuters) - ". Where the match ends, or None. */
  function BracketTagEnd(s: string): (r: Option<nat>)
    ensures r.Some? ==> 0 < |s| && r.value <= |s| && s[0] == '('
  {
    if |s| > 0 && s[0] == '(' then
      var p := RunEnd(s, 1, IsAsciiLetter);
      if p > 1 && p < |s| && s[p] == ')' then SeparatorEnd(s, p + 1, {'-'}) else None
    else None
  }

  /** `^[A-Za-z]+\s*\(`, the place name and the opening bracket the second
      and third patterns share: the position after the bracket. */
  function PlaceEnd(s: string): (r: Option<nat>)
    ensures r.Some? ==> 1 < r.value <= |s| && IsAsciiLetter(s[0]) && s[r.value - 1] == '('
  {
    var l := RunEnd(s, 0, IsAsciiLetter);
    var q := RunEnd(s, l, IsSpace);
    if l > 0 && q < |s| && s[q] == '(' then Some(q + 1) else None
  }

  /** The second pattern, `^[A-Za-z]+\s*\([A-Za-z\s]+\s*[0-9]*[a-z]*\)\s*[-:;]\s*`:
      a place and a bracketed source that may end in a number with a
      suffix, as in "Kandy (News 1st): ". Inside the brackets the letters
      and spaces, then the digits, then the letters are each taken whole:
      only the first `)` can close the match, and a shorter run never
      reaches it when the longest does not. */
  function PlaceTagEnd(s: string): (r: Option<nat>)
    ensures r.Some? ==> r.value <= |s| && PlaceEnd(s).Some?
  {
    match PlaceEnd(s)
    case None => None
    case Some(o) =>
      var m := RunEnd(s, o, IsLetterOrSpace);
      var d := RunEnd(s, m, IsAsciiDigit);
      var e := RunEnd(s, d, IsAsciiLetter);
      if m > o && e < |s| && s[e] == ')' then SeparatorEnd(s, e + 1, {'-', ':', ';'}) else None
  }

  /** The third pattern, `^[A-Za-z]+\s*\([A-Za-z\s]+\)\s*[-:;]\s*`: a place
      and a bracketed source of letters and spaces. */
  function PlaceNameEnd(s: string): (r: Option<nat>)
    ensures r.Some? ==> r.value <= |s| && PlaceEnd(s).Some?
  {
    match PlaceEnd(s)
    case None => None
    case Some(o) =>
      var m := RunEnd(s, o, IsLetterOrSpace);
      if m > o && m < |s| && s[m] == ')' then SeparatorEnd(s, m + 1, {'-', ':', ';'}) else None
  }

  /** `re.sub` of an anchored pattern: the match, when there is one, is
      removed from the front. */
  function Cut(s: string, end: Option<nat>): (r: string)
    requires end.Some? ==> end.value <= |s|
    ensures EndsWith(s, r)
  {
    if end.Some? then s[end.value..] else s
  }

  /** The three regular-expression removals, in order. */
  function RegexPrefixes(s: string): (r: string)
    ensures EndsWith(s, r)
    ensures |s| == 0 || (s[0] != '(' && !IsAsciiLetter(s[0])) ==> r == s
  {
    var a := Cut(s, BracketTagEnd(s));
    var b := Cut(a, PlaceTagEnd(a));
    var r := Cut(b, PlaceNameEnd(b));
    SuffixOfSuffix(s, a, b);
    SuffixOfSuffix(s, b, r);
    NothingToCut(s);
    r
  }

  /** Text that starts with neither a bracket nor a letter matches none of
      the three patterns. */
  lemma NothingToCut(s: string)
    ensures |s| == 0 || (s[0] != '(' && !IsAsciiLetter(s[0])) ==>
              BracketTagEnd(s).None? && PlaceTagEnd(s).None? && PlaceNameEnd(s).None?
  {
  }

  /** A suffix of a suffix of `s` is a suffix of `s`. */
  lemma SuffixOfSuffix(s: string, a: string, b: string)
    requires EndsWith(s, a) && EndsWith(a, b)
    ensures EndsWith(s, b)
  {
    assert a[|a| - |b|..] == s[|s| - |b|..];
  }

  /** Whatever the third pattern matches, the second matches too, and up to
      the same point: the third pattern only removes a second prefix left
      after the second pattern's removal. */
  lemma PlaceNameWithinPlaceTag(s: string)
    requires PlaceNameEnd(s).Some?
    ensures PlaceTagEnd(s) == PlaceNameEnd(s)
  {
    var o := PlaceEnd(s).value;
    var m := RunEnd(s, o, IsLetterOrSpace);
    assert s[m] == ')';
    assert RunEnd(s, m, IsAsciiDigit) == m;
    assert RunEnd(s, m, IsAsciiLetter) == m;
  }

  /** A removal by the second or third pattern leaves text that does not
      start with whitespace. */
  lemma PlaceTagLeavesNoSpace(s: string)
    requires PlaceTagEnd(s).Some?
    ensures var r := s[PlaceTagEnd(s).value..]; r == [] || !IsSpace(r[0])
  {
  }

  /** `clean_content`: "" for missing or empty content; otherwise the
      content stripped, one exact prefix removed, the three patterns
      applied, and the remaining steps. */
  function CleanedContent(content: Option<string>, isWord: char -> bool): (r: string)
    ensures content.None? || content.value == "" ==> r == ""
    ensures CleanShape(r, isWord)
  {
    if content.None? || content.value == "" then ""
    else
      var s := RegexPrefixes(DropPrefix(Strip(content.value), ExactPrefixes));
      var t := Tidied(s, isWord);
      TidiedShape(s, isWord);
      t
  }

  /** `clean_content`, step by step. */
  method CleanContent(content: Option<string>, isWord: char -> bool) returns (r: string)
    ensures r == CleanedContent(content, isWord)
  {
    if content.None? || content.value == "" {
      return "";
    }
    var c := Strip(content.value);
    c := RemoveExactPrefix(c);
    c := Cut(c, BracketTagEnd(c));
    c := Cut(c, PlaceTagEnd(c));
    c := Cut(c, PlaceNameEnd(c));
    c := Sanitize(c, isWord);
    c := CollapseRuns(c, IsNewline);
    c := CollapseRuns(c, IsTab);
    c := CollapseRuns(c, IsSpace);
    c := DropSpaceBefore(c);
    r := Strip(c);
  }

  lemma DropSpaceBeforeHead(s: string)
    requires |s| > 0 && !IsSpace(s[0])
    ensures |DropSpaceBefore(s)| > 0 && DropSpaceBefore(s)[0] == s[0]
  {
  }

  lemma {:induction false} DropSpaceBeforeChars(s: string)
    ensures forall c :: c in DropSpaceBefore(s) ==> c in s
    decreases |s|
  {
    if |s| > 0 {
      var n := if IsSpace(s[0]) then RunLength(s, IsSpace) else 1;
      DropSpaceBeforeChars(s[n..]);
      assert forall c :: c in s[..n] ==> c in s;
      assert forall c :: c in s[n..] ==> c in s;
    }
  }

  lemma {:induction false} DropSpaceBeforeTidy(s: string)
    requires Collapsed(s)
    ensures Tidy(DropSpaceBefore(s))
    decreases |s|
  {
    if |s| > 0 {
      CollapsedSlice(s, 1, |s|);
      DropSpaceBeforeTidy(s[1..]);
      var rest := DropSpaceBefore(s[1..]);
      if IsSpace(s[0]) {
        if |s| > 1 {
          DropSpaceBeforeHead(s[1..]);
        }
        assert RunLength(s, IsSpace) == 1;
        if 1 < |s| && s[1] in ClosingPunctuation {
        } else {
          var r := DropSpaceBefore(s);
          assert r == [' '] + rest;
          forall i | 0 <= i < |r| && IsSpace(r[i])
            ensures r[i] == ' ' && (i + 1 < |r| ==> !IsSpace(r[i + 1]) && r[i + 1] !in ClosingPunctuation)
          {
            if i > 0 {
              assert r[i] == rest[i - 1];
            }
          }
        }
      } else {
        var r := DropSpaceBefore(s);
        assert r == [s[0]] + rest;
        forall i | 0 <= i < |r| && IsSpace(r[i])
          ensures r[i] == ' ' && (i + 1 < |r| ==> !IsSpace(r[i + 1]) && r[i + 1] !in ClosingPunctuation)
        {
          assert r[i] == rest[i - 1];
        }
      }
    }
  }

  lemma TidySlice(s: string, a: nat, b: nat)
    requires Tidy(s) && a <= b <= |s|
    ensures Tidy(s[a..b])
  {
    assert forall i :: 0 <= i < b - a ==> s[a..b][i] == s[a + i];
  }

  lemma StripChars(s: string)
    ensures forall c :: c in Strip(s) ==> c in s
  {
    StripSlice(s);
    assert forall c :: c in Strip(s) ==> c in s[LeadingSpaces(s)..LeadingSpaces(s) + |Strip(s)|];
  }

  /** Characters that survive the passes after the special-character
      pass are spaces or allowed characters. */
  lemma TidiedChars(s: string, isWord: char -> bool)
    ensures forall c :: c in Tidied(s, isWord) ==> c == ' ' || Allowed(c, isWord)
  {
    var a := Sanitize(s, isWord);
    var b := CollapseRuns(a, IsNewline);
    var c := CollapseRuns(b, IsTab);
    var d := CollapseRuns(c, IsSpace);
    var e := DropSpaceBefore(d);
    CollapseRunsChars(a, IsNewline);
    CollapseRunsChars(b, IsTab);
    CollapseRunsChars(c, IsSpace);
    DropSpaceBeforeChars(d);
    StripChars(e);
  }

  lemma TidiedTidy(s: string, isWord: char -> bool)
    ensures Tidy(Tidied(s, isWord))
  {
    var c := CollapseRuns(CollapseRuns(Sanitize(s, isWord), IsNewline), IsTab);
    var d := CollapseRuns(c, IsSpace);
    var e := DropSpaceBefore(d);
    CollapseRunsCollapsed(c);
    DropSpaceBeforeTidy(d);
    StripSlice(e);
    TidySlice(e, LeadingSpaces(e), LeadingSpaces(e) + |Strip(e)|);
  }

  /** The shape of cleaned content: only word characters, spaces and the
      kept punctuation; single plain spaces, so no tab or newline; no space
      before closing punctuation; no whitespace at either end. */
  predicate CleanShape(r: string, isWord: char -> bool) {
    (forall i :: 0 <= i < |r| ==> r[i] == ' ' || isWord(r[i]) || r[i] in KeptPunctuation)
    && (forall i :: 0 <= i < |r| ==> r[i] != '\t' && r[i] != '\n')
    && Tidy(r)
    && (r == [] || (!IsSpace(r[0]) && !IsSpace(r[|r| - 1])))
  }

  /** The shape of the steps after the prefixes, on any text. */
  lemma TidiedShape(s: string, isWord: char -> bool)
    ensures CleanShape(Tidied(s, isWord), isWord)
  {
    var r := Tidied(s, isWord);
    TidiedChars(s, isWord);
    TidiedTidy(s, isWord);
    forall i | 0 <= i < |r| ensures r[i] == ' ' || isWord(r[i]) || r[i] in KeptPunctuation {
      assert r[i] in r;
    }
  }

  // ---------------------------------------------------------------------
  // Article links

  /** The first three `/`-separated parts of a URL, joined back:
      `scheme://host`. */
  function BaseUrl(url: string): string {
    var parts := Split(url, "/");
    Join(parts[..if |parts| < 3 then |parts| else 3], "/")
  }

  /** A link starting with `/` is prefixed with the base URL. */
  function Absolute(href: string, base: string): string {
    if StartsWith(href, "/") then base + href else href
  }

  /** `scheme//rest` splits into the scheme, an empty part and the parts
      of `rest`. */
  lemma SplitDoubleSlash(scheme: string, rest: string)
    requires !Contains(scheme, "/")
    ensures Split(scheme + "//" + rest, "/") == [scheme, ""] + Split(rest, "/")
  {
    var slash: string := ['/'];
    assert "/" == slash;
    var tail := [] + slash + rest;
    assert scheme + "//" + rest == scheme + slash + tail;
    SplitSingleAppend(scheme, '/', tail);
    SplitSingleAppend([], '/', rest);
    SplitAbsent(scheme, slash);
    SplitAbsent([], slash);
    var r := Split(rest, slash);
    assert Split(tail, slash) == [[]] + r;
    assert Split(scheme + slash + tail, slash) == [scheme] + ([[]] + r);
    assert [scheme] + ([[]] + r) == [scheme, ""] + r;
  }

  /** The parts of `scheme://host/path` start with the scheme, an empty
      part and the host. */
  lemma HostParts(scheme: string, host: string, path: string)
    requires !Contains(scheme, "/") && !Contains(host, "/")
    requires path == "" || path[0] == '/'
    ensures var parts := Split(scheme + "//" + host + path, "/");
      |parts| >= 3 && parts[..3] == [scheme, "", host]
  {
    var rest := host + path;
    assert scheme + "//" + host + path == scheme + "//" + rest;
    SplitDoubleSlash(scheme, rest);
    HostFirst(host, path);
    var tail := Split(rest, "/");
    var parts := [scheme, ""] + tail;
    assert parts[..3] == [scheme, "", tail[0]];
  }

  lemma HostFirst(host: string, path: string)
    requires !Contains(host, "/")
    requires path == "" || path[0] == '/'
    ensures Split(host + path, "/")[0] == host
  {
    SplitAbsent(host, "/");
    if path == "" {
      assert host + path == host;
    } else {
      assert host + path == host + ['/'] + path[1..];
      SplitSingleAppend(host, '/', path[1..]);
    }
  }

  lemma JoinHost(scheme: string, host: string)
    ensures Join([scheme, "", host], "/") == scheme + "//" + host
  {
    assert Join([scheme, "", host], "/") == scheme + "/" + Join(["", host], "/");
    assert Join(["", host], "/") == "" + "/" + host;
  }

  /** The base of `scheme://host/path` is `scheme://host`, and a link
      starting with `/` is made absolute against it; other links are kept. */
  lemma AbsoluteAgainstHost(scheme: string, host: string, path: string, href: string)
    requires !Contains(scheme, "/") && !Contains(host, "/")
    requires path == "" || path[0] == '/'
    ensures BaseUrl(scheme + "//" + host + path) == scheme + "//" + host
    ensures Absolute(href, BaseUrl(scheme + "//" + host + path)) ==
      if StartsWith(href, "/") then scheme + "//" + host + href else href
  {
    HostParts(scheme, host, path);
    JoinHost(scheme, host);
  }

  /** The `href`s of a listing page, in document order: those in the
      `local_news_main` containers, those in the `local_news_main`
      containers inside `lap_news_div` containers, and those in the other
      article-like containers. */
  datatype ListingPage = ListingPage(newsMain: seq<string>, lapNews: seq<string>, other: seq<string>)

  function Absolutized(hrefs: seq<string>, base: string): (r: seq<string>)
    ensures |r| == |hrefs|
  {
    seq(|hrefs|, i requires 0 <= i < |hrefs| => Absolute(hrefs[i], base))
  }

  /** The links collected from a page: the first two kinds, or the third
      only when they give none. */
  function Collected(page: ListingPage, base: string): seq<string> {
    var found := Absolutized(page.newsMain, base) + Absolutized(page.lapNews, base);
    if |found| > 0 then found else Absolutized(page.other, base)
  }

  /** The unique article links of a listing page; none when the page could
      not be fetched. */
  function ListingLinks(page: Outcome<ListingPage>, url: string): seq<string> {
    match page
    case Fail(_) => []
    case Ok(p) => Dedup(Collected(p, BaseUrl(url)))
  }

  /** One container loop: each `href` made absolute and appended. */
  method AppendLinks(links: seq<string>, hrefs: seq<string>, base: string) returns (r: seq<string>)
    ensures r == links + Absolutized(hrefs, base)
  {
    r := links;
    for i := 0 to |hrefs|
      invariant r == links + Absolutized(hrefs[..i], base)
    {
      assert Absolutized(hrefs[..i + 1], base) == Absolutized(hrefs[..i], base) + [Absolute(hrefs[i], base)];
      r := r + [Absolute(hrefs[i], base)];
    }
    assert hrefs[..|hrefs|] == hrefs;
  }

  /** The order-preserving duplicate removal. */
  method UniqueLinks(links: seq<string>) returns (unique: seq<string>)
    ensures unique == Dedup(links)
  {
    unique := [];
    for i := 0 to |links|
      invariant unique == Dedup(links[..i])
    {
      assert links[..i + 1] == links[..i] + [links[i]];
      DedupAppend(links[..i], links[i]);
      if links[i] !in unique {
        unique := unique + [links[i]];
      }
    }
    assert links[..|links|] == links;
  }

  /** `get_article_links`. */
  method ArticleLinks(page: Outcome<ListingPage>, url: string) returns (links: seq<string>)
    ensures links == ListingLinks(page, url)
  {
    if page.Fail? {
      return [];
    }
    var base := BaseUrl(url);
    var found := AppendLinks([], page.value.newsMain, base);
    assert found == Absolutized(page.value.newsMain, base);
    found := AppendLinks(found, page.value.lapNews, base);
    if |found| == 0 {
      found := AppendLinks([], page.value.other, base);
      assert found == Absolutized(page.value.other, base);
    }
    links := UniqueLinks(found);
  }

  /** The links returned have no duplicates, are exactly the links
      collected, and keep the order of their first occurrence. */
  lemma ListingLinksUnique(page: Outcome<ListingPage>, url: string)
    requires page.Ok?
    ensures var links := ListingLinks(page, url);
      var all := Collected(page.value, BaseUrl(url));
      NoDups(links)
      && (forall l :: l in links <==> l in all)
      && (forall i, j :: 0 <= i < j < |links| ==> FirstIndex(all, links[i]) < FirstIndex(all, links[j]))
  {
    var all := Collected(page.value, BaseUrl(url));
    DedupUnique(all);
    DedupOrder(all);
  }

  // ---------------------------------------------------------------------
  // Extraction

  /** What an article page gives: its URL and the cleaned title, date and
      content (each "" when its element is missing). */
  datatype Article = Article(url: string, title: string, date: string, content: string)

  /** An article as kept, with the listing page it came from. */
  datatype Kept = Kept(article: Article, sourcePage: string)

  /** The filter for links that look like articles. */
  predicate IsArticleLink(link: string) {
    EndsWith(link, ".html") || Contains(link, "/20")
    || Contains(Lower(link), "article") || Contains(Lower(link), "news") || Contains(Lower(link), "story")
  }

  /** What one link contributes: nothing when it is not an article link,
      when extraction fails, or when title and content are both empty. */
  function KeptFrom(mainUrl: string, link: string, extract: string -> Outcome<Article>): seq<Kept> {
    if !IsArticleLink(link) then []
    else
      match extract(link)
      case Fail(_) => []
      case Ok(a) => if a.content != "" || a.title != "" then [Kept(a, mainUrl)] else []
  }

  function KeptAll(mainUrl: string, links: seq<string>, extract: string -> Outcome<Article>): (r: seq<Kept>)
    ensures |r| <= |links|
  {
    if |links| == 0 then []
    else KeptAll(mainUrl, links[..|links| - 1], extract) + KeptFrom(mainUrl, links[|links| - 1], extract)
  }

  /** The loop of `extract_all_news_articles` over the links. */
  method ExtractArticles(mainUrl: string, links: seq<string>, extract: string -> Outcome<Article>)
    returns (articles: seq<Kept>)
    ensures articles == KeptAll(mainUrl, links, extract)
  {
    articles := [];
    for i := 0 to |links|
      invariant articles == KeptAll(mainUrl, links[..i], extract)
    {
      assert links[..i + 1][..i] == links[..i];
      var link := links[i];
      if !IsArticleLink(link) {
        continue;
      }
      var data := extract(link);
      if data.Ok? && (data.value.content != "" || data.value.title != "") {
        articles := articles + [Kept(data.value, mainUrl)];
      }
    }
    assert links[..|links|] == links;
  }

  /** `extract_all_news_articles`: the article links of the listing page,
      then each one extracted. */
  method ExtractAllNewsArticles(mainUrl: string, page: Outcome<ListingPage>, extract: string -> Outcome<Article>)
    returns (articles: seq<Kept>)
    ensures articles == KeptAll(mainUrl, ListingLinks(page, mainUrl), extract)
  {
    var links := ArticleLinks(page, mainUrl);
    if |links| == 0 {
      return [];
    }
    articles := ExtractArticles(mainUrl, links, extract);
  }

  /** An article is kept exactly when its link passes the filter, its
      extraction succeeds with a title or content, and it is tagged with
      the listing page. */
  lemma {:induction false} KeptAllMember(mainUrl: string, links: seq<string>, extract: string -> Outcome<Article>, k: Kept)
    ensures k in KeptAll(mainUrl, links, extract) <==>
      exists i :: 0 <= i < |links| && IsArticleLink(links[i]) && extract(links[i]).Ok?
        && (extract(links[i]).value.content != "" || extract(links[i]).value.title != "")
        && k == Kept(extract(links[i]).value, mainUrl)
  {
    if |links| > 0 {
      var n := |links| - 1;
      KeptAllMember(mainUrl, links[..n], extract, k);
      assert forall i :: 0 <= i < n ==> links[..n][i] == links[i];
    }
  }

  // ---------------------------------------------------------------------
  // Daily dates

  /** The format `%Y/%m/%d`. */
  const SlashFormat: seq<Directive> := YearFirstFormat('/')

  function SlashDate(d: Date): string
    requires Valid(d)
  {
    YearFirstDate(d, '/')
  }

  /** `generate_daily_date_sequence`, on dates. `today` is the current date.
      None where a date does not parse, and where stepping past 9999-12-31
      overflows. An end before the start is replaced by today. */
  function DailyDates(startText: string, endText: Option<string>, today: Date): (r: Option<seq<string>>)
    requires Valid(today)
    ensures Strptime(startText, SlashFormat).None? ==> r.None?
    ensures endText.Some? && endText.value != "" && Strptime(endText.value, SlashFormat).None? ==> r.None?
  {
    match Strptime(startText, SlashFormat)
    case None => None
    case Some(start) =>
      var parsedEnd := if endText.None? || endText.value == "" then Some(today) else Strptime(endText.value, SlashFormat);
      match parsedEnd
      case None => None
      case Some(end0) =>
        var end := if Ordinal(end0) < Ordinal(start) then today else end0;
        if end == MaxDate && Ordinal(start) <= Ordinal(end) then None
        else Some(Written(DateRange(start, end), '/'))
  }

  /** `generate_daily_date_sequence`. */
  method DailyDateSequence(startText: string, endText: Option<string>, today: Date) returns (r: Option<seq<string>>)
    requires Valid(today)
    ensures r == DailyDates(startText, endText, today)
  {
    var start := Strptime(startText, SlashFormat);
    if start.None? {
      return None;
    }
    var end: Option<Date>;
    if endText.Some? && endText.value != "" {
      end := Strptime(endText.value, SlashFormat);
      if end.None? {
        return None;
      }
    } else {
      end := Some(today);
    }
    var last := end.value;
    if Ordinal(last) < Ordinal(start.value) {
      last := today;
    }
    DailyDatesEnd(startText, endText, today, start.value, end.value);
    r := DayByDay(start.value, last, '/');
  }

  /** How the result follows from the parsed start and end. */
  lemma DailyDatesEnd(startText: string, endText: Option<string>, today: Date, start: Date, end0: Date)
    requires Valid(today)
    requires Strptime(startText, SlashFormat) == Some(start)
    requires (if endText.None? || endText.value == "" then Some(today) else Strptime(endText.value, SlashFormat)) == Some(end0)
    ensures Valid(start) && Valid(end0)
    ensures var end := if Ordinal(end0) < Ordinal(start) then today else end0;
      DailyDates(startText, endText, today)
      == if end == MaxDate && Ordinal(start) <= Ordinal(end) then None else Some(Written(DateRange(start, end), '/'))
  {
  }

  lemma DailyDatesInRange(startText: string, endText: string, today: Date, start: Date, end: Date)
    requires Valid(today)
    requires Strptime(startText, SlashFormat) == Some(start) && endText != ""
    requires Strptime(endText, SlashFormat) == Some(end)
    requires Ordinal(start) <= Ordinal(end) < Ordinal(MaxDate)
    ensures DailyDates(startText, Some(endText), today) == Some(Written(DateRange(start, end), '/'))
  {
  }

  /** With an end on or after the start, the sequence names every day from
      the start to the end, once each and in order: item `k` reads back as
      the date `k` days after the start, and a date is named exactly when it
      lies between the two. */
  lemma DailyDatesEveryDay(startText: string, endText: string, today: Date, start: Date, end: Date)
    requires Valid(today)
    requires Strptime(startText, SlashFormat) == Some(start) && endText != ""
    requires Strptime(endText, SlashFormat) == Some(end)
    requires Ordinal(start) <= Ordinal(end) < Ordinal(MaxDate)
    ensures var r := DailyDates(startText, Some(endText), today);
      r.Some? && |r.value| == Ordinal(end) - Ordinal(start) + 1
      && (forall k :: 0 <= k < |r.value| ==>
            Strptime(r.value[k], SlashFormat) == Some(DateRange(start, end)[k])
            && Ordinal(DateRange(start, end)[k]) == Ordinal(start) + k)
      && (forall d :: Valid(d) ==> (SlashDate(d) in r.value <==> Ordinal(start) <= Ordinal(d) <= Ordinal(end)))
  {
    DailyDatesInRange(startText, endText, today, start, end);
    WrittenReadsBack(DateRange(start, end), '/');
    forall d | Valid(d) ensures SlashDate(d) in Written(DateRange(start, end), '/') <==> Ordinal(start) <= Ordinal(d) <= Ordinal(end) {
      WrittenMember(start, end, d, '/');
    }
  }
}

/** The newswire.lk scraper: the date of a day's archive page taken from its
    url, the urls of the archive's pages, the crawl over those pages, the
    character-replacement table of `clean_text`, the weekly batches a date
    range is cut into, the dates of one week, and the records handed to
    MongoDB. HTML parsing, HTTP, HTML entity decoding and Unicode
    normalisation are parameters. */
module NewsWire {
  import opened Wrappers
  import opened Text
  import opened Calendar
  import opened Days
  import opened DayLoop
  import opened Lists

  // ---------------------------------------------------------------------
  // The date in an archive url

  predicate DigitsAt(s: string, i: nat, n: nat) {
    i + n <= |s| && forall k :: i <= k < i + n ==> IsAsciiDigit(s[k])
  }

  /** The pattern `/(\d{4})/(\d{2})/(\d{2})/` matches at index `i`. */
  predicate DatePatternAt(url: string, i: nat) {
    i + 12 <= |url| && url[i] == '/' && DigitsAt(url, i + 1, 4) && url[i + 5] == '/'
    && DigitsAt(url, i + 6, 2) && url[i + 8] == '/' && DigitsAt(url, i + 9, 2) && url[i + 11] == '/'
  }

  /** The leftmost match at or after `i`, as `re.search` finds it. */
  function FirstDatePattern(url: string, i: nat): (r: Option<nat>)
    ensures r.Some? ==> i <= r.value && DatePatternAt(url, r.value)
    ensures r.Some? ==> forall j :: i <= j < r.value ==> !DatePatternAt(url, j)
    ensures r.None? ==> forall j :: i <= j ==> !DatePatternAt(url, j)
    decreases |url| - i
  {
    if i + 12 > |url| then None
    else if DatePatternAt(url, i) then Some(i)
    else FirstDatePattern(url, i + 1)
  }

  /** The page date `"YYYY-MM-DD"` built from the three groups of the first
      match, None when the url has none. */
  function PageDate(url: string): (r: Option<string>)
    ensures r.None? <==> forall j :: !DatePatternAt(url, j)
    ensures r.Some? ==> |r.value| == 10 && r.value[4] == '-' && r.value[7] == '-'
    ensures r.Some? ==> forall k :: 0 <= k < 10 && k != 4 && k != 7 ==> IsAsciiDigit(r.value[k])
  {
    match FirstDatePattern(url, 0)
    case None => None
    case Some(i) =>
      var p := url[i + 1..i + 5] + "-" + url[i + 6..i + 8] + "-" + url[i + 9..i + 11];
      assert forall k :: 0 <= k < 4 ==> p[k] == url[i + 1 + k];
      assert forall k :: 5 <= k < 7 ==> p[k] == url[i + 1 + k];
      assert forall k :: 8 <= k < 10 ==> p[k] == url[i + 1 + k];
      Some(p)
  }

  lemma IsoDateLayout(d: Date, sep: char)
    requires Valid(d)
    ensures |Pad(d.year, 4)| == 4 && |Pad(d.month, 2)| == 2 && |Pad(d.day, 2)| == 2
    ensures |YearFirstDate(d, sep)| == 10
  {
    PadWidth(d.year, 4);
    PadWidth(d.month, 2);
    PadWidth(d.day, 2);
  }

  /** The archive url of a day, behind a prefix without digits, yields that
      day written `%Y-%m-%d`. */
  lemma PageDateOfArchiveUrl(prefix: string, d: Date, rest: string)
    requires Valid(d)
    requires forall k :: 0 <= k < |prefix| ==> !IsAsciiDigit(prefix[k])
    ensures PageDate(prefix + "/" + YearFirstDate(d, '/') + "/" + rest) == Some(IsoDate(d))
  {
    IsoDateLayout(d, '/');
    var y, m, dd := Pad(d.year, 4), Pad(d.month, 2), Pad(d.day, 2);
    var url := prefix + "/" + YearFirstDate(d, '/') + "/" + rest;
    var i := |prefix|;
    assert url[i + 1..i + 5] == y;
    assert url[i + 6..i + 8] == m;
    assert url[i + 9..i + 11] == dd;
    assert url[i] == '/' && url[i + 5] == '/' && url[i + 8] == '/' && url[i + 11] == '/';
    assert forall k :: i + 1 <= k < i + 5 ==> url[k] == y[k - i - 1];
    assert forall k :: i + 6 <= k < i + 8 ==> url[k] == m[k - i - 6];
    assert forall k :: i + 9 <= k < i + 11 ==> url[k] == dd[k - i - 9];
    assert DatePatternAt(url, i);
    forall j | 0 <= j < i ensures !DatePatternAt(url, j) {
      assert j + 1 < i ==> url[j + 1] == prefix[j + 1];
    }
    var found := FirstDatePattern(url, 0);
    assert found == Some(i);
    assert IsoDate(d) == y + "-" + m + "-" + dd;
  }

  /** The url of page `n` of a day: the base url for page 1, the base url
      followed by `page/n/` after it. */
  function PageUrl(base: string, n: nat): (r: string)
    requires n >= 1
    ensures StartsWith(r, base)
    ensures r == base <==> n == 1
  {
    if n == 1 then base else base + "page/" + NatToString(n) + "/"
  }

  /** Different pages have different urls. */
  lemma PageUrlInjective(base: string, m: nat, n: nat)
    requires 1 <= m && 1 <= n && m != n
    ensures PageUrl(base, m) != PageUrl(base, n)
  {
    if m > 1 && n > 1 && PageUrl(base, m) == PageUrl(base, n) {
      var a, b := NatToString(m), NatToString(n);
      var um, un := PageUrl(base, m), PageUrl(base, n);
      assert |a| == |b|;
      assert um[|base| + 5..|base| + 5 + |a|] == a;
      assert un[|base| + 5..|base| + 5 + |b|] == b;
      NatToStringValue(m);
      NatToStringValue(n);
    }
  }

  /** The urls of pages 1 to `n`, in order. */
  function PageUrls(base: string, n: nat): (r: seq<string>)
    ensures |r| == n
  {
    seq(n, k requires 0 <= k < n => PageUrl(base, k + 1))
  }

  /** No page is fetched twice. */
  lemma PageUrlsDistinct(base: string, n: nat)
    ensures forall i, j :: 0 <= i < j < n ==> PageUrls(base, n)[i] != PageUrls(base, n)[j]
  {
    forall i, j | 0 <= i < j < n ensures PageUrls(base, n)[i] != PageUrls(base, n)[j] {
      PageUrlInjective(base, i + 1, j + 1);
    }
  }

  // ---------------------------------------------------------------------
  // The crawl over a day's pages

  /** What a request for a page gives: a listing (the article elements,
      each with or without a title link, and whether a next-page link is
      present), a 404, another status than 200, or an exception. */
  datatype PageReply = Listing(titled: seq<bool>, hasNext: bool) | NotFound | Failed | Raised

  /** The site's reply for page `n`: its listing pages are `site`, and
      every page after them is a 404. */
  function Reply(site: seq<PageReply>, n: nat): PageReply {
    if 1 <= n <= |site| then site[n - 1] else NotFound
  }

  /** Article elements with a title link; the others are skipped. */
  function CountTitled(titled: seq<bool>): (c: nat)
    ensures c <= |titled|
  {
    if |titled| == 0 then 0
    else CountTitled(titled[..|titled| - 1]) + (if titled[|titled| - 1] then 1 else 0)
  }

  /** The outcome of a crawl: articles found and pages requested. */
  datatype Crawled = Crawled(found: nat, pages: nat)

  /** The crawl from page `n` on, `total` articles found so far. A failure
      on page 1 gives 0 found; a later one (a 404 included) ends the crawl
      with what was found. A first page without article elements gives 0.
      A page without a next-page link is the last. */
  function Crawl(site: seq<PageReply>, n: nat, total: nat): (r: Crawled)
    requires 1 <= n <= |site| + 1
    ensures n <= r.pages <= |site| + 1
    ensures n > 1 ==> total <= r.found
    decreases |site| + 1 - n
  {
    match Reply(site, n)
    case Listing(titled, hasNext) =>
      if |titled| == 0 && n == 1 then Crawled(0, n)
      else if !hasNext then Crawled(total + CountTitled(titled), n)
      else Crawl(site, n + 1, total + CountTitled(titled))
    case _ => Crawled(if n == 1 then 0 else total, n)
  }

  /** `scrape_newswire_page`: no page is requested when the url holds no
      date; otherwise the pages are requested in order and the titled
      articles counted. */
  method ScrapeNewswirePage(baseUrl: string, site: seq<PageReply>) returns (found: nat, fetched: seq<string>)
    ensures PageDate(baseUrl).None? ==> found == 0 && fetched == []
    ensures PageDate(baseUrl).Some? ==> found == Crawl(site, 1, 0).found
    ensures PageDate(baseUrl).Some? ==> fetched == PageUrls(baseUrl, Crawl(site, 1, 0).pages)
  {
    var pageDate := PageDate(baseUrl);
    if pageDate.None? {
      return 0, [];
    }
    var total: nat := 0;
    var current: nat := 1;
    var hasNext := true;
    fetched := [];
    while hasNext
      invariant 1 <= current <= |site| + 1
      invariant hasNext ==> fetched == PageUrls(baseUrl, current - 1) && Crawl(site, current, total) == Crawl(site, 1, 0)
      invariant !hasNext ==> fetched == PageUrls(baseUrl, current) && Crawled(total, current) == Crawl(site, 1, 0)
      decreases |site| + 1 - current, hasNext
    {
      var url := PageUrl(baseUrl, current);
      assert PageUrls(baseUrl, current) == PageUrls(baseUrl, current - 1) + [url];
      fetched := fetched + [url];
      var reply := Reply(site, current);
      if !reply.Listing? {
        if current == 1 {
          return 0, fetched;
        }
        break;
      }
      if |reply.titled| == 0 && current == 1 {
        return 0, fetched;
      }
      total := total + CountTitled(reply.titled);
      if !reply.hasNext {
        hasNext := false;
      } else {
        current := current + 1;
      }
    }
    found := total;
  }

  /** The crawl requests at most one page past the listing pages, and a
      first page that fails or lists nothing counts for 0. */
  lemma CrawlBounds(site: seq<PageReply>)
    ensures 1 <= Crawl(site, 1, 0).pages <= |site| + 1
    ensures !Reply(site, 1).Listing? || |Reply(site, 1).titled| == 0 ==> Crawl(site, 1, 0).found == 0
  {
  }

  /** When every listing page links to the next, the crawl requests them
      all and the page after them, and counts every titled article. */
  lemma {:induction false} CrawlChained(site: seq<PageReply>, n: nat, total: nat)
    requires forall k :: 0 <= k < |site| ==> site[k].Listing? && site[k].hasNext
    requires 1 <= n <= |site| + 1 && (n > 1 || |site| == 0 || |site[0].titled| > 0)
    ensures Crawl(site, n, total).pages == |site| + 1
    ensures Crawl(site, n, total).found == (if n == 1 && |site| == 0 then 0 else total + TitledFrom(site, n))
    decreases |site| + 1 - n
  {
    if n <= |site| {
      CrawlChained(site, n + 1, total + CountTitled(site[n - 1].titled));
    }
  }

  /** The titled articles of the listing pages from page `n` on. */
  function TitledFrom(site: seq<PageReply>, n: nat): nat
    requires 1 <= n
    decreases |site| + 1 - n
  {
    if n > |site| then 0
    else (if site[n - 1].Listing? then CountTitled(site[n - 1].titled) else 0) + TitledFrom(site, n + 1)
  }

  // ---------------------------------------------------------------------
  // The replacement table of clean_text

  /** The first two characters of the mojibake sequences: UTF-8 bytes
      E2 80 read as Windows-1252. */
  const Lead: char := '\U{00E2}'
  const Euro: char := '\U{20AC}'

  /** The table in the order the dictionary literal gives it. */
  const Replacements: seq<(string, string)> := [
    ("\U{2018}", "'"),
    ("\U{2019}", "'"),
    ("\U{201C}", "\""),
    ("\U{201D}", "\""),
    ("\U{2013}", "-"),
    ("\U{2014}", "--"),
    ("\U{2026}", "..."),
    ("\U{00A0}", " "),
    ("\U{00E2}\U{20AC}\U{2122}", "'"),
    ("\U{00E2}\U{20AC}\U{0153}", "\""),
    ("\U{00E2}\U{20AC}", "\""),
    ("\U{00E2}\U{20AC}\"", "-"),
    ("\U{00E2}\U{20AC}\U{00A6}", "...")
  ]

  /** The same table with the two-character sequence moved after the
      three-character ones that start with it. */
  const FixedReplacements: seq<(string, string)> := [
    ("\U{2018}", "'"),
    ("\U{2019}", "'"),
    ("\U{201C}", "\""),
    ("\U{201D}", "\""),
    ("\U{2013}", "-"),
    ("\U{2014}", "--"),
    ("\U{2026}", "..."),
    ("\U{00A0}", " "),
    ("\U{00E2}\U{20AC}\U{2122}", "'"),
    ("\U{00E2}\U{20AC}\U{0153}", "\""),
    ("\U{00E2}\U{20AC}\"", "-"),
    ("\U{00E2}\U{20AC}\U{00A6}", "..."),
    ("\U{00E2}\U{20AC}", "\"")
  ]

  predicate KeysNonEmpty(reps: seq<(string, string)>) {
    forall i :: 0 <= i < |reps| ==> |reps[i].0| > 0
  }

  /** The text after the first `n` entries of the table are applied, each
      with `str.replace`. */
  function ReplacedUpTo(text: string, reps: seq<(string, string)>, n: nat): string
    requires KeysNonEmpty(reps) && n <= |reps|
  {
    if n == 0 then text
    else ReplaceAll(ReplacedUpTo(text, reps, n - 1), reps[n - 1].0, reps[n - 1].1)
  }

  /** The whole table applied, entry by entry: text holding none of the
      keys comes out as it went in. */
  function ReplaceEach(text: string, reps: seq<(string, string)>): (r: string)
    requires KeysNonEmpty(reps)
    ensures (forall i :: 0 <= i < |reps| ==> !Contains(text, reps[i].0)) ==> r == text
  {
    if forall i :: 0 <= i < |reps| ==> !Contains(text, reps[i].0) then
      UntouchedBefore(text, reps, |reps|);
      ReplacedUpTo(text, reps, |reps|)
    else ReplacedUpTo(text, reps, |reps|)
  }

  /** The replacement loop. */
  method ApplyReplacements(text: string, reps: seq<(string, string)>) returns (r: string)
    requires KeysNonEmpty(reps)
    ensures r == ReplaceEach(text, reps)
  {
    r := text;
    for i := 0 to |reps|
      invariant r == ReplacedUpTo(text, reps, i)
    {
      r := ReplaceAll(r, reps[i].0, reps[i].1);
    }
  }

  /** `clean_text` as written: HTML entities decoded, the text normalised
      to NFKC, then the table applied in its written order. No key of the
      table is left, and ASCII text passes the table unchanged. */
  function CleanedTextAsWritten(text: string, unescape: string -> string, normalize: string -> string): (r: string)
    ensures forall i :: 0 <= i < |Replacements| ==> !Contains(r, Replacements[i].0)
    ensures AsciiText(normalize(unescape(text))) ==> r == normalize(unescape(text))
  {
    var t := normalize(unescape(text));
    TablesWellFormed();
    ReplaceEachLeavesNoKey(t, Replacements, 10);
    AsciiPassesTable(t, Replacements);
    ReplaceEach(t, Replacements)
  }

  /** `clean_text` with the table in the corrected order, with the same
      guarantees. */
  function CleanedText(text: string, unescape: string -> string, normalize: string -> string): (r: string)
    ensures forall i :: 0 <= i < |FixedReplacements| ==> !Contains(r, FixedReplacements[i].0)
    ensures AsciiText(normalize(unescape(text))) ==> r == normalize(unescape(text))
  {
    var t := normalize(unescape(text));
    TablesWellFormed();
    ReplaceEachLeavesNoKey(t, FixedReplacements, 12);
    AsciiPassesTable(t, FixedReplacements);
    ReplaceEach(t, FixedReplacements)
  }

  method CleanText(text: string, unescape: string -> string, normalize: string -> string) returns (r: string)
    ensures r == CleanedText(text, unescape, normalize)
  {
    var t := unescape(text);
    t := normalize(t);
    r := ApplyReplacements(t, FixedReplacements);
  }

  predicate AsciiText(s: string) {
    forall i :: 0 <= i < |s| ==> IsAscii(s[i])
  }

  /** Every replacement is non-empty ASCII; every key is one non-ASCII
      character or starts with the mojibake pair. */
  predicate WellFormedTable(reps: seq<(string, string)>) {
    forall i :: 0 <= i < |reps| ==>
      |reps[i].1| > 0 && AsciiText(reps[i].1)
      && ((|reps[i].0| == 1 && !IsAscii(reps[i].0[0]))
          || (|reps[i].0| >= 2 && reps[i].0[0] == Lead && reps[i].0[1] == Euro))
  }

  lemma TablesWellFormed()
    ensures WellFormedTable(Replacements) && Replacements[10].0 == [Lead, Euro]
    ensures WellFormedTable(FixedReplacements) && FixedReplacements[12].0 == [Lead, Euro]
  {
  }

  /** What the first `n` entries have removed: each single character, and
      once the bare pair has been replaced, every occurrence of the pair. */
  predicate Scrubbed(t: string, reps: seq<(string, string)>, n: nat)
    requires n <= |reps|
  {
    (forall i :: 0 <= i < n && |reps[i].0| == 1 ==> reps[i].0[0] !in t)
    && ((exists i :: 0 <= i < n && reps[i].0 == [Lead, Euro]) ==> NoPair(t, Lead, Euro))
  }

  lemma {:induction false} ReplacedUpToScrubbed(text: string, reps: seq<(string, string)>, n: nat)
    requires WellFormedTable(reps) && n <= |reps|
    ensures Scrubbed(ReplacedUpTo(text, reps, n), reps, n)
  {
    if n > 0 {
      ReplacedUpToScrubbed(text, reps, n - 1);
      var t := ReplacedUpTo(text, reps, n - 1);
      var key, rep := reps[n - 1].0, reps[n - 1].1;
      forall i | 0 <= i < n && |reps[i].0| == 1 ensures reps[i].0[0] !in ReplaceAll(t, key, rep) {
        var c := reps[i].0[0];
        assert c !in rep by {
          assert forall k :: 0 <= k < |rep| ==> IsAscii(rep[k]);
        }
        if i == n - 1 {
          assert key == [c];
        }
        ReplaceAllDropsChar(t, key, rep, c);
      }
      if exists i :: 0 <= i < n && reps[i].0 == [Lead, Euro] {
        assert Lead !in rep && Euro !in rep by {
          assert forall k :: 0 <= k < |rep| ==> IsAscii(rep[k]);
        }
        if key != [Lead, Euro] {
          var i :| 0 <= i < n && reps[i].0 == [Lead, Euro];
          assert i < n - 1;
        }
        ReplaceAllNoPair(t, key, rep, Lead, Euro);
      }
    }
  }

  /** A table that holds the bare pair leaves none of its keys behind. */
  lemma ReplaceEachLeavesNoKey(text: string, reps: seq<(string, string)>, m: nat)
    requires WellFormedTable(reps) && m < |reps| && reps[m].0 == [Lead, Euro]
    ensures forall i :: 0 <= i < |reps| ==> !Contains(ReplaceEach(text, reps), reps[i].0)
  {
    var r := ReplaceEach(text, reps);
    ReplacedUpToScrubbed(text, reps, |reps|);
    forall i | 0 <= i < |reps| ensures !Contains(r, reps[i].0) {
      if |reps[i].0| == 1 {
        assert reps[i].0 == [reps[i].0[0]];
        NotContainsChar(r, reps[i].0[0]);
      } else {
        NoPairNotContains(r, reps[i].0, Lead, Euro);
      }
    }
  }

  /** ASCII text holds none of the keys of a table whose keys start with a
      non-ASCII character. */
  lemma AsciiPassesTable(t: string, reps: seq<(string, string)>)
    requires WellFormedTable(reps)
    ensures AsciiText(t) ==> forall i :: 0 <= i < |reps| ==> !Contains(t, reps[i].0)
  {
    if AsciiText(t) {
      forall i | 0 <= i < |reps| ensures !Contains(t, reps[i].0) {
        AsciiHoldsNoKey(t, reps[i].0);
      }
    }
  }

  /** ASCII text holds no key. */
  lemma AsciiHoldsNoKey(s: string, key: string)
    requires AsciiText(s) && |key| > 0 && !IsAscii(key[0])
    ensures !Contains(s, key)
  {
    forall j | 0 <= j && j + |key| <= |s| ensures !OccursAt(s, key, j) {
      assert s[j..j + |key|][0] == s[j];
    }
    NoOccurrence(s, key);
  }

  /** Text none of whose earlier keys occurs passes those entries as it is. */
  lemma {:induction false} UntouchedBefore(s: string, reps: seq<(string, string)>, n: nat)
    requires KeysNonEmpty(reps) && n <= |reps|
    requires forall i :: 0 <= i < n ==> !Contains(s, reps[i].0)
    ensures ReplacedUpTo(s, reps, n) == s
  {
    if n > 0 {
      UntouchedBefore(s, reps, n - 1);
      ReplaceAllAbsent(s, reps[n - 1].0, reps[n - 1].1);
    }
  }

  /** Once a key has become its ASCII replacement, the later entries leave
      it alone. */
  lemma {:induction false} ReplacedFrom(reps: seq<(string, string)>, k: nat, n: nat)
    requires WellFormedTable(reps) && k < n <= |reps|
    requires forall i :: 0 <= i < k ==> !Contains(reps[k].0, reps[i].0)
    ensures ReplacedUpTo(reps[k].0, reps, n) == reps[k].1
  {
    var key, rep := reps[k].0, reps[k].1;
    if n == k + 1 {
      UntouchedBefore(key, reps, k);
      ReplaceAllAtStart(key, "", rep);
      assert key + "" == key && rep + "" == rep;
    } else {
      ReplacedFrom(reps, k, n - 1);
      var next := reps[n - 1].0;
      assert !IsAscii(next[0]) by {
        assert next[0] == Lead || |next| == 1;
      }
      AsciiHoldsNoKey(rep, next);
      ReplaceAllAbsent(rep, next, reps[n - 1].1);
    }
  }

  /** In the corrected table no key occurs inside a later key. */
  lemma FixedUnshadowed()
    ensures forall k, i :: 0 <= i < k < |FixedReplacements| ==> !Contains(FixedReplacements[k].0, FixedReplacements[i].0)
  {
    var f := FixedReplacements;
    forall k, i | 0 <= i < k < |f| ensures !Contains(f[k].0, f[i].0) {
      if i < 8 {
        assert f[i].0 == [f[i].0[0]];
        NotContainsChar(f[k].0, f[i].0[0]);
      } else {
        TooLongNotContained(f[k].0, f[i].0);
      }
    }
  }

  /** With the corrected order every key, the mojibake sequences included,
      comes out as its own replacement. */
  lemma FixedEveryKeyReplaced()
    ensures forall k :: 0 <= k < |FixedReplacements| ==> ReplaceEach(FixedReplacements[k].0, FixedReplacements) == FixedReplacements[k].1
    ensures ReplaceEach("\U{00E2}\U{20AC}\U{00A6}", FixedReplacements) == "..."
    ensures ReplaceEach("\U{00E2}\U{20AC}\"", FixedReplacements) == "-"
  {
    TablesWellFormed();
    FixedUnshadowed();
    forall k | 0 <= k < |FixedReplacements|
      ensures ReplaceEach(FixedReplacements[k].0, FixedReplacements) == FixedReplacements[k].1
    {
      ReplacedFrom(FixedReplacements, k, |FixedReplacements|);
    }
    assert FixedReplacements[11].0 == "\U{00E2}\U{20AC}\U{00A6}";
    assert FixedReplacements[10].0 == "\U{00E2}\U{20AC}\"";
  }

  /** As written, the bare pair comes before the two keys that start with
      it: after it no pair is left, so those two entries never apply. */
  lemma AsWrittenShadowed(text: string)
    ensures Contains(Replacements[11].0, Replacements[10].0) && Contains(Replacements[12].0, Replacements[10].0)
    ensures ReplaceEach(text, Replacements) == ReplacedUpTo(text, Replacements, 11)
  {
    TablesWellFormed();
    var reps := Replacements;
    ContainsAt(reps[11].0, reps[10].0, 0);
    ContainsAt(reps[12].0, reps[10].0, 0);
    ReplacedUpToScrubbed(text, reps, 11);
    var t := ReplacedUpTo(text, reps, 11);
    NoPairNotContains(t, reps[11].0, Lead, Euro);
    NoPairNotContains(t, reps[12].0, Lead, Euro);
    ReplaceAllAbsent(t, reps[11].0, reps[11].1);
    assert ReplacedUpTo(text, reps, 12) == t;
    ReplaceAllAbsent(t, reps[12].0, reps[12].1);
    assert ReplacedUpTo(text, reps, 13) == t;
  }

  /** The mojibake ellipsis before the bare pair's entry is left as it is. */
  lemma EllipsisUntouched()
    ensures ReplacedUpTo("\U{00E2}\U{20AC}\U{00A6}", Replacements, 10) == "\U{00E2}\U{20AC}\U{00A6}"
  {
    var reps := Replacements;
    var e := "\U{00E2}\U{20AC}\U{00A6}";
    forall i | 0 <= i < 10 ensures !Contains(e, reps[i].0) {
      if i < 8 {
        assert reps[i].0 == [reps[i].0[0]];
        NotContainsChar(e, reps[i].0[0]);
      } else {
        TooLongNotContained(e, reps[i].0);
      }
    }
    UntouchedBefore(e, reps, 10);
  }

  /** The bare pair's entry turns the mojibake ellipsis into a double
      quote followed by a broken bar. */
  lemma EllipsisAfterPairEntry()
    ensures ReplacedUpTo("\U{00E2}\U{20AC}\U{00A6}", Replacements, 11) == "\"\U{00A6}"
  {
    var e := "\U{00E2}\U{20AC}\U{00A6}";
    assert ReplacedUpTo(e, Replacements, 11) == ReplaceAll(e, [Lead, Euro], "\"") by {
      TablesWellFormed();
      EllipsisUntouched();
      assert Replacements[10].1 == "\"";
    }
    PairBeforeBar();
  }

  /** Replacing the bare pair in the mojibake ellipsis. */
  lemma PairBeforeBar()
    ensures ReplaceAll("\U{00E2}\U{20AC}\U{00A6}", [Lead, Euro], "\"") == "\"\U{00A6}"
  {
    var bar := "\U{00A6}";
    var quote := "\"";
    var pair := [Lead, Euro];
    assert "\U{00E2}\U{20AC}\U{00A6}" == pair + bar;
    ReplaceAllAtStart(pair, bar, quote);
    TooLongNotContained(bar, pair);
    ReplaceAllAbsent(bar, pair, quote);
  }

  /** As written, an ellipsis in mojibake becomes a double quote followed
      by a broken bar instead of three dots. */
  lemma AsWrittenEllipsis()
    ensures ReplaceEach("\U{00E2}\U{20AC}\U{00A6}", Replacements) == "\"\U{00A6}"
  {
    EllipsisAfterPairEntry();
    AsWrittenShadowed("\U{00E2}\U{20AC}\U{00A6}");
  }

  // ---------------------------------------------------------------------
  // Weekly batches

  /** The number of days `--num-days` asks for: 30 when it is absent or 0,
      as 0 is false in Python. */
  function DaysWanted(numDays: Option<int>): (n: int)
    ensures n != 0
  {
    if numDays.Some? && numDays.value != 0 then numDays.value else 30
  }

  /** How the end of the range is settled. */
  datatype EndChoice =
    | EndAt(end: Date)   // the last day of the range
    | BeforeStart        // a negative day count: the range is empty
    | OutOfRange         // the end lies outside `datetime`'s years
    | Unparsable         // the explicit end does not parse

  /** The end of the range: the explicit end when it is given and not
      empty, otherwise `num_days` days from the start. */
  function ChosenEnd(start: Date, endText: Option<string>, numDays: Option<int>): (r: EndChoice)
    requires Valid(start)
    ensures r.EndAt? ==> Valid(r.end)
  {
    if endText.Some? && endText.value != "" then
      match Strptime(endText.value, IsoFormat)
      case None => Unparsable
      case Some(e) => EndAt(e)
    else
      var n := DaysWanted(numDays);
      var last := Ordinal(start) + n - 1;
      if !(1 <= last <= Ordinal(MaxDate)) then OutOfRange
      else if n < 0 then BeforeStart
      else EndAt(AddDays(start, n - 1))
  }

  /** An explicit non-empty end wins, and fails only when it does not
      parse. Otherwise the range has `num_days` days, 30 by default: the
      end is that many days after the start less one, a negative count
      gives an empty range, and a last day outside `datetime`'s years
      fails. */
  lemma ChosenEndRules(start: Date, endText: Option<string>, numDays: Option<int>)
    requires Valid(start)
    ensures var r := ChosenEnd(start, endText, numDays);
      endText.Some? && endText.value != "" ==>
        (r.EndAt? || r.Unparsable?) && (r.EndAt? <==> Strptime(endText.value, IsoFormat).Some?)
        && (r.EndAt? ==> Strptime(endText.value, IsoFormat) == Some(r.end))
    ensures var r := ChosenEnd(start, endText, numDays);
      var n := DaysWanted(numDays);
      var last := Ordinal(start) + n - 1;
      !(endText.Some? && endText.value != "") ==>
        (r.OutOfRange? <==> !(1 <= last <= Ordinal(MaxDate)))
        && (r.EndAt? <==> n >= 1 && last <= Ordinal(MaxDate))
        && (r.EndAt? ==> Ordinal(r.end) == last)
        && (r.BeforeStart? <==> n < 0 && 1 <= last)
        && (numDays.None? || numDays.value == 0 ==> n == 30)
        && (numDays.Some? && numDays.value != 0 ==> n == numDays.value)
  {
  }

  /** `math.ceil(total_days / 7)` with `total_days` the days from `start`
      to `end` inclusive; `range` of a count of 0 or less is empty. */
  function WeekCount(start: Date, end: Date): (c: nat)
    requires Valid(start) && Valid(end)
    ensures var total := Ordinal(end) - Ordinal(start) + 1;
      (total <= 0 ==> c == 0) && (total > 0 ==> c > 0 && 7 * (c - 1) < total <= 7 * c)
  {
    var total := Ordinal(end) - Ordinal(start) + 1;
    if total <= 0 then 0 else (total + 6) / 7
  }

  /** Week `w` runs from `start + 7w` to `min(start + 7w + 6, end)`. */
  function WeekOf(start: Date, end: Date, w: nat): (r: (Date, Date))
    requires Valid(start) && Valid(end) && Ordinal(start) + 7 * w <= Ordinal(end)
    ensures Valid(r.0) && Valid(r.1) && Ordinal(r.0) == Ordinal(start) + 7 * w
    ensures Ordinal(r.1) == Min(Ordinal(start) + 7 * w + 6, Ordinal(end))
  {
    OrdinalAtMostMax(end);
    (AddDays(start, 7 * w), if Ordinal(start) + 7 * w + 6 <= Ordinal(end) then AddDays(start, 7 * w + 6) else end)
  }

  /** The weeks of the range, in order. */
  function Weeks(start: Date, end: Date): (r: seq<(Date, Date)>)
    requires Valid(start) && Valid(end)
    ensures |r| == WeekCount(start, end)
  {
    var c := WeekCount(start, end);
    seq(c, w requires 0 <= w < c => WeekOf(start, end, w))
  }

  /** A week's last day is six days after its first. */
  const LastDayOffset: nat := 6

  function Min(a: int, b: int): int {
    if a <= b then a else b
  }

  /** Some week's sixth day after its start lies past 9999-12-31, which
      raises `OverflowError` even where the end of the range is earlier. */
  predicate WeeksOverflow(start: Date, end: Date)
    requires Valid(start) && Valid(end)
  {
    WeekCount(start, end) > 0 && Ordinal(start) + 7 * (WeekCount(start, end) - 1) + 6 > Ordinal(MaxDate)
  }

  /** A week written `(%Y-%m-%d, %Y-%m-%d)`. */
  function Label(week: (Date, Date)): (r: (string, string))
    requires Valid(week.0) && Valid(week.1)
    ensures Strptime(r.0, IsoFormat) == Some(week.0) && Strptime(r.1, IsoFormat) == Some(week.1)
  {
    IsoRoundTrip(week.0);
    IsoRoundTrip(week.1);
    (IsoDate(week.0), IsoDate(week.1))
  }

  function Labelled(weeks: seq<(Date, Date)>): (r: seq<(string, string)>)
    requires forall w :: 0 <= w < |weeks| ==> Valid(weeks[w].0) && Valid(weeks[w].1)
    ensures |r| == |weeks|
  {
    seq(|weeks|, w requires 0 <= w < |weeks| => Label(weeks[w]))
  }

  /** The labels of the weeks of the range. */
  function WeekLabels(start: Date, end: Date): (r: seq<(string, string)>)
    requires Valid(start) && Valid(end)
    ensures |r| == WeekCount(start, end)
  {
    Labelled(Weeks(start, end))
  }

  /** `generate_weekly_batches`, on values: None where a date does not
      parse or a day lies outside `datetime`'s years. */
  function WeeklyBatches(startText: string, endText: Option<string>, numDays: Option<int>): (r: Option<seq<(string, string)>>)
    ensures Strptime(startText, IsoFormat).None? ==> r.None?
    ensures r.Some? && |r.value| > 0 ==>
      Strptime(startText, IsoFormat).Some? && ChosenEnd(Strptime(startText, IsoFormat).value, endText, numDays).EndAt?
  {
    match Strptime(startText, IsoFormat)
    case None => None
    case Some(start) =>
      match ChosenEnd(start, endText, numDays)
      case EndAt(end) => if WeeksOverflow(start, end) then None else Some(WeekLabels(start, end))
      case BeforeStart => Some([])
      case _ => None
  }

  lemma AddDaysTwice(d: Date, a: nat, b: nat)
    requires Valid(d) && Ordinal(d) + a + b <= Ordinal(MaxDate)
    ensures AddDays(AddDays(d, a), b) == AddDays(d, a + b)
  {
    OrdinalInjective(AddDays(AddDays(d, a), b), AddDays(d, a + b));
  }

  /** The end of the range as the loop computes it. */
  method ResolveEnd(start: Date, endText: Option<string>, numDays: Option<int>) returns (r: EndChoice)
    requires Valid(start)
    ensures r == ChosenEnd(start, endText, numDays)
  {
    if endText.Some? && endText.value != "" {
      var e := Strptime(endText.value, IsoFormat);
      if e.None? {
        return Unparsable;
      }
      return EndAt(e.value);
    }
    var n := DaysWanted(numDays);
    if !(1 <= Ordinal(start) + n - 1 <= Ordinal(MaxDate)) {
      return OutOfRange;
    }
    if n < 0 {
      return BeforeStart;
    }
    r := EndAt(AddDays(start, n - 1));
  }

  /** One turn of the week loop: the week's first day, the day six days
      later or the end when that is earlier, both written `%Y-%m-%d`. */
  method WeekBatch(start: Date, end: Date, weekStart: Date, ghost w: nat) returns (batch: (string, string))
    requires Valid(start) && Valid(end) && Ordinal(start) + 7 * w <= Ordinal(end)
    requires weekStart == AddDays(start, 7 * w) && Ordinal(weekStart) + 6 <= Ordinal(MaxDate)
    ensures batch == Label(WeekOf(start, end, w))
  {
    ghost var week := WeekOf(start, end, w);
    var sixLater := AddDays(weekStart, LastDayOffset);
    var weekEnd := if Ordinal(sixLater) <= Ordinal(end) then sixLater else end;
    OrdinalInjective(weekStart, week.0);
    OrdinalInjective(weekEnd, week.1);
    batch := (IsoDate(weekStart), IsoDate(weekEnd));
  }

  /** The labels of the first `w + 1` weeks are those of the first `w` and
      the label of week `w`. */
  lemma LabelledSnoc(start: Date, end: Date, w: nat)
    requires Valid(start) && Valid(end) && w < WeekCount(start, end)
    ensures Ordinal(start) + 7 * w <= Ordinal(end)
    ensures WeekLabels(start, end)[..w + 1] == WeekLabels(start, end)[..w] + [Label(WeekOf(start, end, w))]
  {
    var weeks := Weeks(start, end);
    var labels := Labelled(weeks);
    assert labels[w] == Label(weeks[w]);
    PrefixSnoc(labels, w);
  }

  /** One turn of the week loop: the week's label is appended, or None
      when its sixth day after the start lies past 9999-12-31. */
  method WeekTurn(start: Date, end: Date, week: nat, batches: seq<(string, string)>)
    returns (r: Option<seq<(string, string)>>)
    requires Valid(start) && Valid(end) && week < WeekCount(start, end)
    requires batches == WeekLabels(start, end)[..week]
    ensures r.None? <==> Ordinal(start) + 7 * week + 6 > Ordinal(MaxDate)
    ensures r.Some? ==> r.value == WeekLabels(start, end)[..week + 1]
  {
    WeekInRange(start, end, week);
    if Ordinal(start) + 7 * week + 6 > Ordinal(MaxDate) {
      return None;
    }
    var appended := WeekAppend(start, end, week, batches);
    r := Some(appended);
  }

  /** A week of the range starts within it. */
  lemma WeekInRange(start: Date, end: Date, week: nat)
    requires Valid(start) && Valid(end) && week < WeekCount(start, end)
    ensures Ordinal(start) + 7 * week <= Ordinal(end) <= Ordinal(MaxDate)
  {
    OrdinalAtMostMax(end);
  }

  /** The label of week `week` appended to those before it. */
  method WeekAppend(start: Date, end: Date, week: nat, batches: seq<(string, string)>)
    returns (appended: seq<(string, string)>)
    requires Valid(start) && Valid(end) && week < WeekCount(start, end)
    requires Ordinal(start) + 7 * week + 6 <= Ordinal(MaxDate)
    requires batches == WeekLabels(start, end)[..week]
    ensures appended == WeekLabels(start, end)[..week + 1]
  {
    WeekInRange(start, end, week);
    var weekStart := AddDays(start, 7 * week);
    var batch := WeekBatch(start, end, weekStart, week);
    LabelledSnoc(start, end, week);
    appended := batches + [batch];
  }

  /** The week loop of `generate_weekly_batches`. */
  method WeekLoop(start: Date, end: Date) returns (r: Option<seq<(string, string)>>)
    requires Valid(start) && Valid(end)
    ensures r == if WeeksOverflow(start, end) then None else Some(WeekLabels(start, end))
  {
    var numWeeks := WeekCount(start, end);
    var batches: seq<(string, string)> := [];
    for week := 0 to numWeeks
      invariant batches == WeekLabels(start, end)[..week]
      invariant week > 0 ==> Ordinal(start) + 7 * (week - 1) + 6 <= Ordinal(MaxDate)
    {
      var next := WeekTurn(start, end, week, batches);
      if next.None? {
        OverflowLater(start, end, week);
        return None;
      }
      batches := next.value;
    }
    PrefixAll(WeekLabels(start, end));
    r := Some(batches);
  }

  /** A week past 9999-12-31 makes the last one past it too. */
  lemma OverflowLater(start: Date, end: Date, w: nat)
    requires Valid(start) && Valid(end) && w < WeekCount(start, end)
    requires Ordinal(start) + 7 * w + 6 > Ordinal(MaxDate)
    ensures WeeksOverflow(start, end)
  {
  }

  /** `generate_weekly_batches`. */
  method GenerateWeeklyBatches(startText: string, endText: Option<string>, numDays: Option<int>)
    returns (r: Option<seq<(string, string)>>)
    ensures r == WeeklyBatches(startText, endText, numDays)
  {
    var start := Strptime(startText, IsoFormat);
    if start.None? {
      return None;
    }
    var end := ResolveEnd(start.value, endText, numDays);
    if end.BeforeStart? {
      return Some([]);
    }
    if !end.EndAt? {
      return None;
    }
    r := WeekLoop(start.value, end.end);
  }

  /** Weeks are contiguous, each holds one to seven days, the first starts
      on the start date and the last ends on the end date. */
  lemma WeeksTile(start: Date, end: Date)
    requires Valid(start) && Valid(end) && Ordinal(start) <= Ordinal(end)
    ensures var r := Weeks(start, end);
      |r| > 0 && r[0].0 == start && r[|r| - 1].1 == end
      && (forall w :: 0 <= w < |r| ==> Ordinal(r[w].0) <= Ordinal(r[w].1) <= Ordinal(r[w].0) + 6)
      && (forall w :: 0 <= w < |r| - 1 ==> Ordinal(r[w + 1].0) == Ordinal(r[w].1) + 1)
  {
    WeeksEnds(start, end);
    WeeksSpan(start, end);
    WeeksContiguous(start, end);
  }

  lemma WeeksEnds(start: Date, end: Date)
    requires Valid(start) && Valid(end) && Ordinal(start) <= Ordinal(end)
    ensures var r := Weeks(start, end);
      |r| > 0 && r[0].0 == start && r[|r| - 1].1 == end
  {
    var r := Weeks(start, end);
    WeekBounds(start, end, 0);
    OrdinalInjective(r[0].0, start);
    WeekBounds(start, end, |r| - 1);
    OrdinalInjective(r[|r| - 1].1, end);
  }

  lemma WeeksSpan(start: Date, end: Date)
    requires Valid(start) && Valid(end)
    ensures var r := Weeks(start, end);
      forall w :: 0 <= w < |r| ==> Ordinal(r[w].0) <= Ordinal(r[w].1) <= Ordinal(r[w].0) + 6
  {
    var r := Weeks(start, end);
    forall w | 0 <= w < |r| ensures Ordinal(r[w].0) <= Ordinal(r[w].1) <= Ordinal(r[w].0) + 6 {
      WeekBounds(start, end, w);
    }
  }

  lemma WeeksContiguous(start: Date, end: Date)
    requires Valid(start) && Valid(end)
    ensures var r := Weeks(start, end);
      forall w :: 0 <= w < |r| - 1 ==> Ordinal(r[w + 1].0) == Ordinal(r[w].1) + 1
  {
    var r := Weeks(start, end);
    forall w | 0 <= w < |r| - 1 ensures Ordinal(r[w + 1].0) == Ordinal(r[w].1) + 1 {
      WeekBounds(start, end, w);
      WeekBounds(start, end, w + 1);
    }
  }

  /** The first and last day of week `w`, as ordinals. */
  lemma WeekBounds(start: Date, end: Date, w: nat)
    requires Valid(start) && Valid(end) && w < WeekCount(start, end)
    ensures var r := Weeks(start, end)[w];
      Valid(r.0) && Valid(r.1) && Ordinal(r.0) == Ordinal(start) + 7 * w
      && Ordinal(r.1) == Min(Ordinal(start) + 7 * w + 6, Ordinal(end))
  {
    assert Weeks(start, end)[w] == WeekOf(start, end, w);
  }

  /** A date lies in the range exactly when it lies in a week, and then in
      week `(date - start) / 7` only. */
  lemma WeeksCover(start: Date, end: Date, d: Date)
    requires Valid(start) && Valid(end) && Valid(d)
    ensures var r := Weeks(start, end);
      (Ordinal(start) <= Ordinal(d) <= Ordinal(end) <==>
        exists w :: 0 <= w < |r| && Ordinal(r[w].0) <= Ordinal(d) <= Ordinal(r[w].1))
      && forall w :: 0 <= w < |r| && Ordinal(r[w].0) <= Ordinal(d) <= Ordinal(r[w].1) ==>
        w == (Ordinal(d) - Ordinal(start)) / 7
  {
    var r := Weeks(start, end);
    if Ordinal(start) <= Ordinal(d) <= Ordinal(end) {
      var w := (Ordinal(d) - Ordinal(start)) / 7;
      assert 0 <= w < |r|;
      assert Ordinal(r[w].0) <= Ordinal(d) <= Ordinal(r[w].1);
    }
  }

  /** Every label reads back as its week's days. */
  lemma LabelledReadsBack(start: Date, end: Date)
    requires Valid(start) && Valid(end)
    ensures var r := Weeks(start, end);
      forall w :: 0 <= w < |r| ==>
        Strptime(Labelled(r)[w].0, IsoFormat) == Some(r[w].0) && Strptime(Labelled(r)[w].1, IsoFormat) == Some(r[w].1)
  {
    var r := Weeks(start, end);
    forall w | 0 <= w < |r|
      ensures Strptime(Labelled(r)[w].0, IsoFormat) == Some(r[w].0) && Strptime(Labelled(r)[w].1, IsoFormat) == Some(r[w].1)
    {
      IsoRoundTrip(r[w].0);
      IsoRoundTrip(r[w].1);
    }
  }

  /** With neither an end nor a day count the range is 30 days: five
      batches, the last ending 29 days after the start. */
  lemma DefaultThirtyDays(startText: string, start: Date)
    requires Strptime(startText, IsoFormat) == Some(start)
    requires Ordinal(start) + 35 <= Ordinal(MaxDate)
    ensures var r := WeeklyBatches(startText, None, None);
      r.Some? && |r.value| == 5
      && Strptime(r.value[4].1, IsoFormat) == Some(AddDays(start, 29))
  {
    var end := AddDays(start, 29);
    ChosenEndRules(start, None, None);
    OrdinalInjective(ChosenEnd(start, None, None).end, end);
    assert WeekCount(start, end) == 5 && !WeeksOverflow(start, end);
    var weeks := Weeks(start, end);
    OrdinalInjective(weeks[4].1, end);
    assert Labelled(weeks)[4] == Label(weeks[4]);
    IsoRoundTrip(end);
  }

  // ---------------------------------------------------------------------
  // The dates of one week

  /** `generate_dates_for_week`, on values: every day from the start to
      the end written `%Y-%m-%d`; None where a date does not parse or the
      day after 9999-12-31 would be needed. */
  function DatesForWeek(startText: string, endText: string): (r: Option<seq<string>>)
    ensures r.Some? ==> Strptime(startText, IsoFormat).Some? && Strptime(endText, IsoFormat).Some?
    ensures r.Some? ==>
      var a := Ordinal(Strptime(startText, IsoFormat).value);
      var b := Ordinal(Strptime(endText, IsoFormat).value);
      |r.value| == if b < a then 0 else b - a + 1
    ensures (Strptime(startText, IsoFormat).Some? && Strptime(endText, IsoFormat).Some?
             && Ordinal(Strptime(endText, IsoFormat).value) < Ordinal(MaxDate)) ==> r.Some?
  {
    match (Strptime(startText, IsoFormat), Strptime(endText, IsoFormat))
    case (Some(start), Some(end)) =>
      if end == MaxDate && Ordinal(start) <= Ordinal(end) then None
      else Some(Written(DateRange(start, end), '-'))
    case _ => None
  }

  method GenerateDatesForWeek(startText: string, endText: string) returns (r: Option<seq<string>>)
    ensures r == DatesForWeek(startText, endText)
  {
    var start := Strptime(startText, IsoFormat);
    var end := Strptime(endText, IsoFormat);
    if start.None? || end.None? {
      return None;
    }
    r := DayByDay(start.value, end.value, '-');
  }

  /** The dates of a week name each of its days once, in order. */
  lemma DatesForWeekEveryDay(startText: string, endText: string, start: Date, end: Date)
    requires Strptime(startText, IsoFormat) == Some(start) && Strptime(endText, IsoFormat) == Some(end)
    requires Ordinal(start) <= Ordinal(end) < Ordinal(MaxDate)
    ensures var r := DatesForWeek(startText, endText);
      r.Some? && |r.value| == Ordinal(end) - Ordinal(start) + 1
      && (forall k :: 0 <= k < |r.value| ==>
            Strptime(r.value[k], IsoFormat) == Some(DateRange(start, end)[k])
            && Ordinal(DateRange(start, end)[k]) == Ordinal(start) + k)
      && (forall d :: Valid(d) ==> (IsoDate(d) in r.value <==> Ordinal(start) <= Ordinal(d) <= Ordinal(end)))
  {
    assert DatesForWeek(startText, endText) == Some(Written(DateRange(start, end), '-'));
    WrittenReadsBack(DateRange(start, end), '-');
    forall d | Valid(d) ensures IsoDate(d) in Written(DateRange(start, end), '-') <==> Ordinal(start) <= Ordinal(d) <= Ordinal(end) {
      WrittenMember(start, end, d, '-');
    }
  }

  /** The labels of a batch give back one to seven dates, its days. */
  lemma BatchDates(start: Date, end: Date, w: nat)
    requires Valid(start) && Valid(end) && Ordinal(end) < Ordinal(MaxDate)
    requires w < |Weeks(start, end)|
    ensures var b := WeekLabels(start, end)[w];
      var r := DatesForWeek(b.0, b.1);
      r.Some? && 1 <= |r.value| <= 7
      && r.value == Written(DateRange(Weeks(start, end)[w].0, Weeks(start, end)[w].1), '-')
  {
    var week := Weeks(start, end)[w];
    WeekBounds(start, end, w);
    WeekInRange(start, end, w);
    assert WeekLabels(start, end)[w] == Label(week);
    LabelDates(week.0, week.1);
  }

  /** The labels of two dates, the first not after the second and the
      second before 9999-12-31, give back the days between them. */
  lemma LabelDates(a: Date, b: Date)
    requires Valid(a) && Valid(b) && Ordinal(a) <= Ordinal(b) < Ordinal(MaxDate)
    ensures DatesForWeek(IsoDate(a), IsoDate(b)) == Some(Written(DateRange(a, b), '-'))
  {
    IsoRoundTrip(a);
    IsoRoundTrip(b);
  }

  // ---------------------------------------------------------------------
  // Records for MongoDB

  /** A scraped article as the dictionary it is. */
  type Record = map<string, string>

  const Source: string := "newswire.lk"

  function BatchId(weekStart: string, weekEnd: string): string {
    "batch_" + weekStart + "_to_" + weekEnd
  }

  /** A copy of `article` with the three keys added (or overwritten) and
      every other key as it was. */
  predicate IsStampedCopy(doc: Record, article: Record, timestamp: string, batchId: string) {
    doc.Keys == article.Keys + {"timestamp", "batch_id", "source"}
    && doc["timestamp"] == timestamp && doc["batch_id"] == batchId && doc["source"] == Source
    && forall k :: k in article && k !in {"timestamp", "batch_id", "source"} ==> doc[k] == article[k]
  }

  function Stamped(article: Record, timestamp: string, batchId: string): (r: Record)
    ensures IsStampedCopy(r, article, timestamp, batchId)
  {
    article["timestamp" := timestamp]["batch_id" := batchId]["source" := Source]
  }

  /** `save_to_mongodb`: nothing is handed over and 0 is returned without a
      client or without articles; otherwise one stamped copy per article is
      handed to `insert_many`, and the count is the number inserted, 0 when
      the insert raises. The articles themselves are values and stay as
      they are. */
  method SaveToMongodb(connected: bool, articles: seq<Record>, weekStart: string, weekEnd: string,
                       timestamp: string, insertRaises: bool)
    returns (count: nat, docs: seq<Record>)
    ensures !connected || |articles| == 0 ==> count == 0 && docs == []
    ensures connected && |articles| > 0 ==>
      |docs| == |articles|
      && (forall i :: 0 <= i < |docs| ==> IsStampedCopy(docs[i], articles[i], timestamp, BatchId(weekStart, weekEnd)))
      && count == (if insertRaises then 0 else |articles|)
  {
    if !connected || |articles| == 0 {
      return 0, [];
    }
    var batchId := "batch_" + weekStart + "_to_" + weekEnd;
    docs := [];
    for i := 0 to |articles|
      invariant |docs| == i
      invariant forall j :: 0 <= j < i ==> IsStampedCopy(docs[j], articles[j], timestamp, batchId)
    {
      var copy := articles[i];
      copy := copy["timestamp" := timestamp];
      copy := copy["batch_id" := batchId];
      copy := copy["source" := Source];
      docs := docs + [copy];
    }
    if insertRaises {
      return 0, docs;
    }
    count := |docs|;
  }

  /** Batch ids of two weeks are equal only for the same week. */
  lemma BatchIdInjective(a: Date, b: Date, c: Date, d: Date)
    requires Valid(a) && Valid(b) && Valid(c) && Valid(d)
    requires BatchId(IsoDate(a), IsoDate(b)) == BatchId(IsoDate(c), IsoDate(d))
    ensures a == c && b == d
  {
    IsoDateLayout(a, '-');
    IsoDateLayout(b, '-');
    IsoDateLayout(c, '-');
    IsoDateLayout(d, '-');
    var x, y := BatchId(IsoDate(a), IsoDate(b)), BatchId(IsoDate(c), IsoDate(d));
    assert x[6..16] == IsoDate(a) && y[6..16] == IsoDate(c);
    assert x[20..30] == IsoDate(b) && y[20..30] == IsoDate(d);
    IsoRoundTrip(a);
    IsoRoundTrip(b);
    IsoRoundTrip(c);
    IsoRoundTrip(d);
  }
}

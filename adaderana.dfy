/** The Ada Derana scraper: the text cleaner, the news id taken from an
    article url, the extraction of one article page with its placeholders
    and error records, and the batch loop that walks the article ids from a
    starting id, records every attempt, counts the valid articles, hands
    them to MongoDB and saves its progress. Page fetching and HTML parsing
    are parameters: a reply is the status and the text of the tags found. */
module Adaderana {
  import opened Wrappers
  import opened Text
  import opened Lists

  // ---------------------------------------------------------------------
  // clean_text

  /** The punctuation the special-character pass keeps. */
  const Punctuation: seq<char> := ".,;:!?()-"

  /** What `re.sub(r'[^\w\s.,;:!?()-]', '', text)` keeps: word characters,
      whitespace and the kept punctuation. `isWord` is the Unicode `\w`
      class. */
  predicate Kept(c: char, isWord: char -> bool) {
    isWord(c) || IsSpace(c) || c in Punctuation
  }

  function KeptBy(isWord: char -> bool): char -> bool {
    c => Kept(c, isWord)
  }

  /** The shape of cleaned text: only kept characters, whitespace only as
      plain spaces, and none at either end. */
  predicate Clean(s: string, isWord: char -> bool) {
    (forall i :: 0 <= i < |s| ==> Kept(s[i], isWord) && (IsSpace(s[i]) ==> s[i] == ' '))
    && (s == [] || (!IsSpace(s[0]) && !IsSpace(s[|s| - 1])))
  }

  /** Text whose characters are kept and whose whitespace is plain spaces
      is clean once stripped. */
  lemma StrippedClean(s: string, isWord: char -> bool)
    requires forall i :: 0 <= i < |s| ==> Kept(s[i], isWord) && (IsSpace(s[i]) ==> s[i] == ' ')
    ensures Clean(Strip(s), isWord)
  {
    StripSlice(s);
    var a := LeadingSpaces(s);
    var r := Strip(s);
    assert forall i :: 0 <= i < |r| ==> r[i] == s[a + i];
  }

  /** After collapsing and the special-character pass every character is
      kept and every whitespace character is a plain space. */
  lemma FilteredKept(c: string, isWord: char -> bool)
    requires forall x :: x in c ==> x == ' ' || !IsSpace(x)
    ensures forall i :: 0 <= i < |Filter(c, KeptBy(isWord))| ==>
      Kept(Filter(c, KeptBy(isWord))[i], isWord) && (IsSpace(Filter(c, KeptBy(isWord))[i]) ==> Filter(c, KeptBy(isWord))[i] == ' ')
  {
    var f := Filter(c, KeptBy(isWord));
    FilterMember(c, KeptBy(isWord));
    forall i | 0 <= i < |f| ensures Kept(f[i], isWord) && (IsSpace(f[i]) ==> f[i] == ' ') {
      assert f[i] in f;
    }
  }

  /** The non-space characters the special-character pass keeps. */
  function KeptWord(isWord: char -> bool): char -> bool {
    c => Kept(c, isWord) && !IsSpace(c)
  }

  /** `clean_text`: whitespace runs become one space, characters outside
      the kept classes are deleted, and the ends are stripped; the
      non-space characters of the result are exactly the kept non-space
      characters of the text, in order. */
  function CleanText(text: string, isWord: char -> bool): (r: string)
    ensures Clean(r, isWord)
    ensures Filter(r, NotSpace) == Filter(text, KeptWord(isWord))
  {
    var collapsed := CollapseRuns(text, IsSpace);
    var kept := Filter(collapsed, KeptBy(isWord));
    CollapseRunsChars(text, IsSpace);
    FilteredKept(collapsed, isWord);
    StrippedClean(kept, isWord);
    KeptNonSpace(text, collapsed, kept, isWord);
    Strip(kept)
  }

  /** Deleting, collapsing and stripping all keep the kept non-space
      characters in order. */
  lemma KeptNonSpace(text: string, collapsed: string, kept: string, isWord: char -> bool)
    requires collapsed == CollapseRuns(text, IsSpace)
    requires kept == Filter(collapsed, KeptBy(isWord))
    ensures Filter(Strip(kept), NotSpace) == Filter(text, KeptWord(isWord))
  {
    var h := KeptWord(isWord);
    StripFilter(kept);
    FilterCompose(collapsed, KeptBy(isWord), NotSpace, h);
    FilterCompose(collapsed, NotSpace, KeptBy(isWord), h);
    FilterCollapse(text);
    FilterCompose(text, NotSpace, KeptBy(isWord), h);
  }

  /** Collapsing text of kept characters leaves nothing to delete. */
  lemma CollapsedAllKept(text: string, isWord: char -> bool)
    requires forall c :: c in text ==> Kept(c, isWord)
    ensures Filter(CollapseRuns(text, IsSpace), KeptBy(isWord)) == CollapseRuns(text, IsSpace)
  {
    var c := CollapseRuns(text, IsSpace);
    CollapseRunsChars(text, IsSpace);
    assert forall x :: x in c ==> KeptBy(isWord)(x);
    FilterAll(c, KeptBy(isWord));
  }

  /** When no character is deleted the result is the whitespace-collapsed,
      stripped text, and no two spaces are adjacent. */
  lemma CleanTextNothingDeleted(text: string, isWord: char -> bool)
    requires forall c :: c in text ==> Kept(c, isWord)
    ensures CleanText(text, isWord) == Strip(CollapseRuns(text, IsSpace))
    ensures Collapsed(CleanText(text, isWord))
  {
    CollapsedAllKept(text, isWord);
    var c := CollapseRuns(text, IsSpace);
    CollapseRunsCollapsed(text);
    StripSlice(c);
    CollapsedSlice(c, LeadingSpaces(c), LeadingSpaces(c) + |Strip(c)|);
  }

  /** Cleaning clean text with single spaces gives it back. */
  lemma CleanTextFixed(s: string, isWord: char -> bool)
    requires Clean(s, isWord) && Collapsed(s)
    ensures CleanText(s, isWord) == s
  {
    CollapsedFixed(s);
    FilterAll(s, KeptBy(isWord));
    StripNoEdgeSpace(s);
  }

  /** The deletion runs after the collapsing, so a deleted character
      between two spaces leaves two spaces side by side: `"a # b"` cleans
      to `"a  b"`, whose whitespace is not collapsed. */
  lemma CleanTextKeepsDoubleSpace(isWord: char -> bool)
    requires isWord('a') && isWord('b') && !isWord('#')
    ensures CleanText("a # b", isWord) == "a  b"
    ensures !Collapsed(CleanText("a # b", isWord))
  {
    var r := "a  b";
    assert CollapseRuns("a # b", IsSpace) == "a # b" by {
      assert Collapsed("a # b");
      CollapsedFixed("a # b");
    }
    assert Filter("a # b", KeptBy(isWord)) == r by {
      DeletionExample(isWord);
    }
    assert Strip(r) == r by {
      StripNoEdgeSpace(r);
    }
    assert IsSpace(r[1]) && IsSpace(r[2]);
  }

  /** The special-character pass on `"a # b"`. */
  lemma DeletionExample(isWord: char -> bool)
    requires isWord('a') && isWord('b') && !isWord('#')
    ensures Filter("a # b", KeptBy(isWord)) == "a  b"
  {
    var keep := KeptBy(isWord);
    var t1 := [] + ['a'];
    var t2 := t1 + [' '];
    var t3 := t2 + ['#'];
    var t4 := t3 + [' '];
    var text := t4 + ['b'];
    assert Filter(t1, keep) == ['a'] by { FilterSnoc([], 'a', keep); }
    assert Filter(t2, keep) == ['a', ' '] by { FilterSnoc(t1, ' ', keep); }
    assert Filter(t3, keep) == ['a', ' '] by { FilterSnoc(t2, '#', keep); }
    assert Filter(t4, keep) == ['a', ' ', ' '] by { FilterSnoc(t3, ' ', keep); }
    assert Filter(text, keep) == ['a', ' ', ' ', 'b'] by { FilterSnoc(t4, 'b', keep); }
    assert text == "a # b";
  }

  // ---------------------------------------------------------------------
  // news_id

  const NidMarker: string := "nid="

  /** The article page of an id: the base url and the id in decimal. */
  const BaseUrl: string := "https://www.adaderana.lk/news.php?nid="

  /** Python's `str(n)` for an int. */
  function IntToString(n: int): (r: string)
    ensures forall i :: 0 <= i < |r| ==> IsAsciiDigit(r[i]) || r[i] == '-'
  {
    if n < 0 then "-" + NatToString(-n) else NatToString(n)
  }

  /** The article page of an id: the base url, then the id in decimal. */
  function PageUrl(id: int): (r: string)
    ensures StartsWith(r, BaseUrl) && |r| > |BaseUrl|
    ensures forall i :: |BaseUrl| <= i < |r| ==> IsAsciiDigit(r[i]) || r[i] == '-'
  {
    BaseUrl + IntToString(id)
  }

  lemma SplitInTwo(s: string, sep: string)
    requires |sep| > 0
    ensures |Split(s, sep)| >= 2 <==> Contains(s, sep)
  {
    if Contains(s, sep) {
      SplitHasSep(s, sep);
    } else {
      SplitAbsent(s, sep);
    }
  }

  /** `url.split("nid=")[1]`: the text after the first `nid=` up to the
      next one; None where the index is out of range, the url having no
      `nid=`. */
  function NewsId(url: string): (r: Option<string>)
    ensures r.None? <==> !Contains(url, NidMarker)
    ensures r.Some? ==> !Contains(r.value, NidMarker)
  {
    var parts := Split(url, NidMarker);
    SplitInTwo(url, NidMarker);
    if |parts| >= 2 then Some(parts[1]) else None
  }

  /** The news id of an article page url is the id it was built from. */
  lemma NewsIdOfPageUrl(id: int)
    ensures NewsId(PageUrl(id)) == Some(IntToString(id))
  {
    var xs := [SiteQuery, IntToString(id)];
    PageUrlJoin(id);
    PageUrlSplit(IntToString(id));
    assert Split(PageUrl(id), NidMarker) == xs;
  }

  /** The part of the page url before the news id marker. */
  const SiteQuery := "https://www.adaderana.lk/news.php?"

  lemma PageUrlJoin(id: int)
    ensures PageUrl(id) == Join([SiteQuery, IntToString(id)], NidMarker)
  {
    var xs := [SiteQuery, IntToString(id)];
    assert BaseUrl == SiteQuery + NidMarker;
    assert Join(xs[1..], NidMarker) == IntToString(id);
  }

  lemma PageUrlSplit(digits: string)
    requires forall i :: 0 <= i < |digits| ==> IsAsciiDigit(digits[i]) || digits[i] == '-'
    ensures Split(Join([SiteQuery, digits], NidMarker), NidMarker) == [SiteQuery, digits]
  {
    assert forall i :: 0 <= i < |SiteQuery| ==> SiteQuery[i] != '=';
    MarkerSplit(SiteQuery, digits);
  }

  /** A query ending in `?` and an id, neither holding `=`, joined by the
      marker, split back into the two. */
  lemma MarkerSplit(host: string, digits: string)
    requires |host| > 0 && host[|host| - 1] == '?'
    requires forall i :: 0 <= i < |host| ==> host[i] != '='
    requires forall i :: 0 <= i < |digits| ==> digits[i] != '='
    ensures Split(Join([host, digits], NidMarker), NidMarker) == [host, digits]
  {
    var xs := [host, digits];
    LacksChar(host, NidMarker, 3);
    LacksChar(digits, NidMarker, 3);
    assert forall k :: 0 < k < |NidMarker| ==> !EndsWith(host, NidMarker[..k]) by {
      forall k | 0 < k < |NidMarker| ensures !EndsWith(host, NidMarker[..k]) {
        assert NidMarker[..k][k - 1] != '?';
      }
    }
    assert Join(xs[1..], NidMarker) == digits;
    SplitJoin(xs, NidMarker);
  }

  // ---------------------------------------------------------------------
  // extract_news_data

  /** The texts of the tags inside `<article class="news">`: the `h1`, the
      `p.news-datestamp` and the `div.news-content`, None for a tag that is
      not there. */
  datatype ArticleTag = ArticleTag(title: Option<string>, date: Option<string>, content: Option<string>)

  /** What fetching a url gives: the request raising, or a status and the
      article tag when the page has one. */
  datatype Reply =
    | RequestFailed(reason: string)
    | Response(status: nat, article: Option<ArticleTag>)

  /** The dictionary `extract_news_data` returns: the article's fields, or
      an error with the url. */
  datatype Extraction =
    | Extracted(url: string, newsId: string, title: string, date: string, content: string)
    | ExtractError(error: string, url: string)

  const NoTitle: string := "No title found"
  const NoDate: string := "No date found"
  const NoContent: string := "No content found"

  /** A tag's cleaned text, or the placeholder when the tag is missing. */
  function TagText(tag: Option<string>, placeholder: string, isWord: char -> bool): (r: string)
    ensures tag.None? ==> r == placeholder
    ensures tag.Some? ==> Clean(r, isWord)
  {
    if tag.Some? then CleanText(tag.value, isWord) else placeholder
  }

  /** `extract_news_data`: a failed request, a status other than 200, a
      page without the article tag and a url without `nid=` (the
      `IndexError` caught by the general handler) give an error; otherwise
      the url, the news id and the three fields, each cleaned or its
      placeholder. */
  function ExtractNewsData(url: string, reply: Reply, isWord: char -> bool): (r: Extraction)
    ensures r.url == url
    ensures r.Extracted? ==> reply.Response? && reply.status == 200 && reply.article.Some?
  {
    match reply
    case RequestFailed(reason) => ExtractError("Error fetching the URL: " + reason, url)
    case Response(status, article) =>
      if status != 200 then ExtractError("Page not found: Status code " + NatToString(status), url)
      else if article.None? then ExtractError("No <article class=\"news\"> tag found on the page.", url)
      else
        match NewsId(url)
        case None => ExtractError("An error occurred: list index out of range", url)
        case Some(id) =>
          var tag := article.value;
          Extracted(url, id, TagText(tag.title, NoTitle, isWord), TagText(tag.date, NoDate, isWord),
                    TagText(tag.content, NoContent, isWord))
  }

  /** The outcome of `extract_news_data` in terms of its input: it always
      names the url, it succeeds exactly for a 200 reply with the article
      tag and a url with `nid=`, and then carries the news id and the three
      fields, each cleaned or its placeholder. */
  lemma ExtractNewsDataRules(url: string, reply: Reply, isWord: char -> bool)
    ensures var r := ExtractNewsData(url, reply, isWord);
      && r.url == url
      && (r.Extracted? <==> reply.Response? && reply.status == 200 && reply.article.Some? && Contains(url, NidMarker))
      && (r.Extracted? ==> (Some(r.newsId) == NewsId(url)
        && r.title == TagText(reply.article.value.title, NoTitle, isWord)
        && r.date == TagText(reply.article.value.date, NoDate, isWord)
        && r.content == TagText(reply.article.value.content, NoContent, isWord)))
  {
  }

  /** `\w` holds for the ASCII letters, as it does in Python. */
  predicate WordLetters(isWord: char -> bool) {
    forall c :: ('a' <= c <= 'z' || 'A' <= c <= 'Z') ==> isWord(c)
  }

  /** ASCII letters and single inner spaces make clean text. */
  lemma LettersClean(s: string, isWord: char -> bool)
    requires WordLetters(isWord)
    requires forall i :: 0 <= i < |s| ==> s[i] == ' ' || 'a' <= s[i] <= 'z' || 'A' <= s[i] <= 'Z'
    requires |s| > 0 && s[0] != ' ' && s[|s| - 1] != ' '
    ensures Clean(s, isWord)
  {
  }

  lemma PlaceholdersClean(isWord: char -> bool)
    requires WordLetters(isWord)
    ensures Clean(NoTitle, isWord) && Clean(NoDate, isWord) && Clean(NoContent, isWord)
  {
    LettersClean(NoTitle, isWord);
    LettersClean(NoDate, isWord);
    LettersClean(NoContent, isWord);
  }

  /** Every field of an extracted article is clean text, a placeholder
      included, and the news id never holds another `nid=`. */
  lemma ExtractedFieldsClean(url: string, reply: Reply, isWord: char -> bool)
    requires WordLetters(isWord)
    ensures var r := ExtractNewsData(url, reply, isWord);
      r.Extracted? ==> (Clean(r.title, isWord) && Clean(r.date, isWord) && Clean(r.content, isWord)
        && !Contains(r.newsId, NidMarker))
  {
    PlaceholdersClean(isWord);
  }

  // ---------------------------------------------------------------------
  // The batch loop of main

  /** One entry of a batch file: the extracted article marked valid, or
      the id, url and error of a failed attempt. */
  datatype Entry =
    | ValidEntry(article: Extraction)
    | InvalidEntry(newsId: int, url: string, error: string)

  /** The attempt at one id. */
  function EntryFor(id: int, fetch: string -> Reply, isWord: char -> bool): (r: Entry)
    ensures r.ValidEntry? ==> r.article.Extracted? && r.article.url == PageUrl(id)
    ensures r.InvalidEntry? ==> r.newsId == id && r.url == PageUrl(id)
  {
    var url := PageUrl(id);
    var r := ExtractNewsData(url, fetch(url), isWord);
    if r.ExtractError? then InvalidEntry(id, url, r.error) else ValidEntry(r)
  }

  function Max0(n: int): nat {
    if n < 0 then 0 else n
  }

  /** The attempt at every id, as one function of the id. */
  function Attempts(fetch: string -> Reply, isWord: char -> bool): int -> Entry {
    id => EntryFor(id, fetch, isWord)
  }

  /** The entries of a batch: the attempts at the ids from `first` on,
      `size` of them (none for a size below one, as `range` gives). */
  function BatchEntries(first: int, size: int, attempt: int -> Entry): (r: seq<Entry>)
    ensures |r| == Max0(size)
    decreases Max0(size)
  {
    if size <= 0 then []
    else
      var k := size - 1;
      BatchEntries(first, k, attempt) + [attempt(first + k)]
  }

  /** The number of valid entries. */
  function ValidCount(entries: seq<Entry>): (n: nat)
    ensures n <= |entries|
  {
    if |entries| == 0 then 0
    else ValidCount(entries[..|entries| - 1]) + (if entries[|entries| - 1].ValidEntry? then 1 else 0)
  }

  const Source: string := "adaderana.lk"

  /** The document handed to `insert_one`: the article with its batch id
      and source (the timestamp is the clock's reading and is not part of
      this model). */
  datatype StoredArticle = StoredArticle(article: Extraction, batchId: string, source: string)

  function BatchId(batchNum: nat): string {
    "batch_" + NatToString(batchNum)
  }

  /** The documents handed over for a batch: one per valid entry, in
      order. */
  function StoredOf(entries: seq<Entry>, batchNum: nat): (r: seq<StoredArticle>)
    ensures |r| == ValidCount(entries)
  {
    if |entries| == 0 then []
    else
      var n := |entries| - 1;
      StoredOf(entries[..n], batchNum)
        + (if entries[n].ValidEntry? then [StoredArticle(entries[n].article, BatchId(batchNum), Source)] else [])
  }

  /** One id of the batch: its url is fetched and extracted, an error
      becoming an invalid entry with the id, the url and the message. */
  method Attempt(articleId: int, fetch: string -> Reply, isWord: char -> bool) returns (entry: Entry)
    ensures entry == EntryFor(articleId, fetch, isWord)
  {
    var url := BaseUrl + IntToString(articleId);
    var results := ExtractNewsData(url, fetch(url), isWord);
    if results.ExtractError? {
      return InvalidEntry(articleId, url, results.error);
    }
    entry := ValidEntry(results);
  }

  lemma EntrySnoc(entries: seq<Entry>, e: Entry, batchNum: nat)
    ensures ValidCount(entries + [e]) == ValidCount(entries) + (if e.ValidEntry? then 1 else 0)
    ensures StoredOf(entries + [e], batchNum) == StoredOf(entries, batchNum)
      + (if e.ValidEntry? then [StoredArticle(e.article, BatchId(batchNum), Source)] else [])
  {
    assert (entries + [e])[..|entries|] == entries;
  }

  /** Recording one entry: it is appended, counted when valid and, when
      MongoDB is in use, handed over with its batch id and source. */
  method Record(entry: Entry, batchNum: nat, storing: bool, results: seq<Entry>, validCount: nat, stored: seq<StoredArticle>)
    returns (results': seq<Entry>, validCount': nat, stored': seq<StoredArticle>)
    requires validCount == ValidCount(results)
    requires stored == if storing then StoredOf(results, batchNum) else []
    ensures results' == results + [entry]
    ensures validCount' == ValidCount(results')
    ensures stored' == if storing then StoredOf(results', batchNum) else []
  {
    EntrySnoc(results, entry, batchNum);
    results', validCount', stored' := results + [entry], validCount, stored;
    if entry.ValidEntry? {
      if storing {
        stored' := stored + [StoredArticle(entry.article, BatchId(batchNum), Source)];
      }
      validCount' := validCount + 1;
    }
  }

  /** One batch of `main`: ids `first` to `first + size - 1` in turn, a
      failure recorded as invalid and passed over, a success recorded as
      valid, handed to MongoDB when it is in use, and counted. */
  method ScrapeBatch(batchNum: nat, first: int, size: int, fetch: string -> Reply, isWord: char -> bool, storing: bool)
    returns (results: seq<Entry>, validCount: nat, stored: seq<StoredArticle>)
    ensures results == BatchEntries(first, size, Attempts(fetch, isWord))
    ensures validCount == ValidCount(results)
    ensures stored == if storing then StoredOf(results, batchNum) else []
  {
    results, validCount, stored := [], 0, [];
    for i := 0 to Max0(size)
      invariant results == BatchEntries(first, i, Attempts(fetch, isWord))
      invariant validCount == ValidCount(results)
      invariant stored == if storing then StoredOf(results, batchNum) else []
    {
      var entry := Attempt(first + i, fetch, isWord);
      results, validCount, stored := Record(entry, batchNum, storing, results, validCount, stored);
    }
  }

  /** The first id of batch `b`: each batch starts `size` ids after the
      one before. */
  function FirstId(startId: int, size: int, b: nat): int {
    if b == 0 then startId else FirstId(startId, size, b - 1) + size
  }

  /** Batch `b` starts `b * size` ids after the start. */
  lemma {:induction false} FirstIdProduct(startId: int, size: int, b: nat)
    ensures FirstId(startId, size, b) == startId + b * size
  {
    if b > 0 {
      FirstIdProduct(startId, size, b - 1);
      assert b * size == (b - 1) * size + size;
    }
  }


  /** The documents handed over across the batches, batch by batch. */
  function AllStored(files: seq<seq<Entry>>): seq<StoredArticle> {
    if |files| == 0 then []
    else AllStored(files[..|files| - 1]) + StoredOf(files[|files| - 1], |files|)
  }

  /** The batch files of the first `n` batches. */
  function Batches(startId: int, size: int, n: nat, attempt: int -> Entry): (r: seq<seq<Entry>>)
    ensures |r| == n
  {
    if n == 0 then []
    else Batches(startId, size, n - 1, attempt) + [BatchEntries(FirstId(startId, size, n - 1), size, attempt)]
  }

  /** Batch `b` of the files is the batch starting at its first id. */
  lemma {:induction false} BatchAt(startId: int, size: int, n: nat, attempt: int -> Entry, b: nat)
    requires b < n
    ensures Batches(startId, size, n, attempt)[b] == BatchEntries(FirstId(startId, size, b), size, attempt)
  {
    if b < n - 1 {
      BatchAt(startId, size, n - 1, attempt, b);
    }
  }

  /** The valid counts of the batch files. */
  function Counts(files: seq<seq<Entry>>): (r: seq<nat>)
    ensures |r| == |files|
  {
    if |files| == 0 then [] else Counts(files[..|files| - 1]) + [ValidCount(files[|files| - 1])]
  }

  /** The progress saved after each of the first `n` batches. */
  function Progress(startId: int, size: int, n: nat): (r: seq<int>)
    ensures |r| == n
    ensures forall b :: 0 <= b < n ==> r[b] == FirstId(startId, size, b + 1)
  {
    if n == 0 then [] else Progress(startId, size, n - 1) + [FirstId(startId, size, n)]
  }

  lemma FilesSnoc(files: seq<seq<Entry>>, f: seq<Entry>)
    ensures AllStored(files + [f]) == AllStored(files) + StoredOf(f, |files| + 1)
    ensures Counts(files + [f]) == Counts(files) + [ValidCount(f)]
  {
    assert (files + [f])[..|files|] == files;
  }

  /** Recording one batch: its file is kept, its valid count noted and
      its documents added to those handed over. */
  method RecordBatch(storing: bool, files: seq<seq<Entry>>, counts: seq<nat>, stored: seq<StoredArticle>,
                     batchNum: nat, results: seq<Entry>, validCount: nat, batchStored: seq<StoredArticle>)
    returns (files': seq<seq<Entry>>, counts': seq<nat>, stored': seq<StoredArticle>)
    requires counts == Counts(files) && stored == (if storing then AllStored(files) else [])
    requires batchNum == |files| + 1 && validCount == ValidCount(results)
    requires batchStored == if storing then StoredOf(results, batchNum) else []
    ensures files' == files + [results]
    ensures counts' == Counts(files')
    ensures stored' == if storing then AllStored(files') else []
  {
    FilesSnoc(files, results);
    files', counts', stored' := files + [results], counts + [validCount], stored + batchStored;
  }

  /** One turn of the batch loop: the batch starting at the current id is
      scraped and recorded. */
  method BatchTurn(startId: int, size: int, batch: nat, currentId: int, fetch: string -> Reply, isWord: char -> bool,
                   storing: bool, files: seq<seq<Entry>>, counts: seq<nat>, stored: seq<StoredArticle>)
    returns (files': seq<seq<Entry>>, counts': seq<nat>, stored': seq<StoredArticle>)
    requires currentId == FirstId(startId, size, batch)
    requires files == Batches(startId, size, batch, Attempts(fetch, isWord))
    requires counts == Counts(files) && stored == (if storing then AllStored(files) else [])
    ensures files' == Batches(startId, size, batch + 1, Attempts(fetch, isWord))
    ensures counts' == Counts(files')
    ensures stored' == if storing then AllStored(files') else []
  {
    var results, validCount, batchStored := ScrapeBatch(batch + 1, currentId, size, fetch, isWord, storing);
    files', counts', stored' := RecordBatch(storing, files, counts, stored, batch + 1, results, validCount, batchStored);
  }

  /** The batch loop of `main`: batch `b` checks the ids from
      `startId + b * size` on, its valid articles are counted, and the
      progress saved after it is the first id of the next batch. */
  method ScrapeBatches(startId: int, size: int, numBatches: int, fetch: string -> Reply, isWord: char -> bool, storing: bool)
    returns (files: seq<seq<Entry>>, counts: seq<nat>, progress: seq<int>, stored: seq<StoredArticle>)
    ensures files == Batches(startId, size, Max0(numBatches), Attempts(fetch, isWord))
    ensures counts == Counts(files)
    ensures progress == Progress(startId, size, Max0(numBatches))
    ensures stored == if storing then AllStored(files) else []
  {
    files, counts, progress, stored := [], [], [], [];
    var currentId := startId;
    for batch := 0 to Max0(numBatches)
      invariant currentId == FirstId(startId, size, batch)
      invariant files == Batches(startId, size, batch, Attempts(fetch, isWord))
      invariant counts == Counts(files)
      invariant progress == Progress(startId, size, batch)
      invariant stored == if storing then AllStored(files) else []
    {
      files, counts, stored := BatchTurn(startId, size, batch, currentId, fetch, isWord, storing, files, counts, stored);
      currentId := currentId + size;
      progress := progress + [currentId];
    }
  }

  /** The entry of an id names it: a failure records the id and its url,
      a success the url and, as news id, the id in decimal. */
  lemma EntryNamesItsId(id: int, fetch: string -> Reply, isWord: char -> bool)
    ensures var e := EntryFor(id, fetch, isWord);
      (e.InvalidEntry? ==> e.newsId == id && e.url == PageUrl(id))
      && (e.ValidEntry? ==> e.article.url == PageUrl(id) && e.article.newsId == IntToString(id))
  {
    NewsIdOfPageUrl(id);
  }

  /** Position `i` of a batch is the attempt at id `first + i`. */
  lemma {:induction false} BatchEntryAt(first: int, size: int, attempt: int -> Entry, i: nat)
    requires i < Max0(size)
    ensures BatchEntries(first, size, attempt)[i] == attempt(first + i)
    decreases size
  {
    if i < size - 1 {
      BatchEntryAt(first, size - 1, attempt, i);
    }
  }

  /** The id checked at position `i` of batch `b`. */
  function IdAt(startId: int, size: int, b: nat, i: nat): int {
    FirstId(startId, size, b) + i
  }

  /** With a positive batch size the batches check every id from the start
      up to `size * numBatches` ids on. */
  lemma BatchesCoverIds(startId: int, size: int, n: nat, id: int)
    requires size > 0
    ensures startId <= id < FirstId(startId, size, n) <==>
      exists b: nat, i: nat :: b < n && i < size && id == IdAt(startId, size, b, i)
  {
    if startId <= id < FirstId(startId, size, n) {
      var b, i := IdInBatch(startId, size, n, id);
    }
    forall b: nat, i: nat | b < n && i < size ensures startId <= IdAt(startId, size, b, i) < FirstId(startId, size, n) {
      IdAtInRange(startId, size, n, b, i);
    }
  }

  /** The batch and position of an id in the range. */
  lemma IdInBatch(startId: int, size: int, n: nat, id: int) returns (b: nat, i: nat)
    requires size > 0 && startId <= id < FirstId(startId, size, n)
    ensures b < n && i < size && id == IdAt(startId, size, b, i)
  {
    FirstIdProduct(startId, size, n);
    b := (id - startId) / size;
    i := (id - startId) % size;
    FirstIdProduct(startId, size, b);
    if b >= n {
      MulMonotone(n, b, size);
    }
  }

  lemma IdAtInRange(startId: int, size: int, n: nat, b: nat, i: nat)
    requires size > 0 && b < n && i < size
    ensures startId <= IdAt(startId, size, b, i) < FirstId(startId, size, n)
  {
    FirstIdProduct(startId, size, n);
    FirstIdProduct(startId, size, b);
    MulMonotone(b + 1, n, size);
    assert (b + 1) * size == b * size + size;
  }

  /** No id is checked twice: one batch and one position per id. */
  lemma BatchIdsDistinct(startId: int, size: int)
    requires size > 0
    ensures forall b: nat, i: nat, b2: nat, i2: nat ::
      i < size && i2 < size && IdAt(startId, size, b, i) == IdAt(startId, size, b2, i2) ==> b == b2 && i == i2
  {
    forall b: nat, i: nat, b2: nat, i2: nat | i < size && i2 < size && IdAt(startId, size, b, i) == IdAt(startId, size, b2, i2)
      ensures b == b2 && i == i2
    {
      IdAtOrder(startId, size, b, i, b2, i2);
      IdAtOrder(startId, size, b2, i2, b, i);
    }
  }

  /** Ids grow with the batch, whatever the positions. */
  lemma IdAtOrder(startId: int, size: int, b: nat, i: nat, b2: nat, i2: nat)
    requires size > 0 && i < size
    ensures b < b2 ==> IdAt(startId, size, b, i) < IdAt(startId, size, b2, i2)
  {
    if b < b2 {
      FirstIdProduct(startId, size, b);
      FirstIdProduct(startId, size, b2);
      MulMonotone(b + 1, b2, size);
      assert (b + 1) * size == b * size + size;
    }
  }

  lemma MulMonotone(a: nat, b: nat, size: int)
    requires a <= b && size > 0
    ensures a * size <= b * size
  {
  }

  // ---------------------------------------------------------------------
  // Progress

  /** The progress file: absent, unreadable, or read with the recorded
      `last_processed_id`, if any. */
  datatype ProgressFile = NoProgressFile | Unreadable | ProgressRecord(lastProcessedId: Option<int>)

  const DefaultStartId: int := 87263

  /** `save_progress`. */
  function SaveProgress(currentId: int): (r: ProgressFile)
    ensures LoadProgress(r) == currentId
  {
    ProgressRecord(Some(currentId))
  }

  /** `load_progress`: the recorded id, the default when there is none. */
  function LoadProgress(file: ProgressFile): (r: int)
    ensures file.ProgressRecord? && file.lastProcessedId.Some? ==> r == file.lastProcessedId.value
    ensures !(file.ProgressRecord? && file.lastProcessedId.Some?) ==> r == DefaultStartId
  {
    match file
    case ProgressRecord(Some(id)) => id
    case _ => DefaultStartId
  }

  /** The starting id: the saved progress with `--resume` or without
      `--start`, `--start` otherwise. */
  function StartId(resume: bool, start: Option<int>, file: ProgressFile): (r: int)
    ensures !resume && start.Some? ==> r == start.value
    ensures (resume || start.None?) && file.ProgressRecord? && file.lastProcessedId.Some? ==> r == file.lastProcessedId.value
    ensures (resume || start.None?) && !(file.ProgressRecord? && file.lastProcessedId.Some?) ==> r == DefaultStartId
  {
    if resume || start.None? then LoadProgress(file) else start.value
  }

  /** A run resumed from the progress another run saved after `n` batches
      starts where that run's batch `n` would have: the id ranges of the
      two runs join without a gap or an overlap. */
  lemma ResumeContinues(startId: int, size: int, n: nat, start: Option<int>)
    requires n > 0
    ensures StartId(true, start, SaveProgress(FirstId(startId, size, (n - 1) + 1))) == FirstId(startId, size, n)
    ensures forall b: nat :: FirstId(FirstId(startId, size, n), size, b) == FirstId(startId, size, n + b)
  {
    forall b: nat ensures FirstId(FirstId(startId, size, n), size, b) == FirstId(startId, size, n + b) {
      FirstIdProduct(startId, size, n);
      FirstIdProduct(startId, size, n + b);
      FirstIdProduct(FirstId(startId, size, n), size, b);
      assert (n + b) * size == n * size + b * size;
    }
  }
}

/** The deterministic part of the two Streamlit search pages,
    step-03-view-agent.py and step-03-view-search.py: ranking of the index
    matches, projection of matches into result rows, the metadata filter,
    the summary prompt, and the ordering and parsing of the fact-verification
    lines. The index query and the chat model are inputs. */
module SearchView {
  import opened Wrappers
  import opened Text
  import opened Lists
  import opened Sorting
  import Calendar
  import Dates
  import FV = FactVerification

  // ---------------------------------------------------------------------
  // Search request and ranking

  /** One index match: its id, similarity score and string metadata. */
  datatype Match = Match(id: string, score: real, metadata: map<string, string>)

  /** The value of a metadata filter entry: an exact value or `{"$in": values}`. */
  datatype Condition = Equals(value: string) | AnyOf(values: seq<string>)

  type Filter = map<string, Condition>

  /** The `entity_filters` argument of the agent page: absent, a list (what
      the entity agent returns) or a dict. */
  datatype EntityArg = NoEntityArg | EntityList(items: seq<string>) | EntityDict(conditions: Filter)

  /** What is sent to the index: how many matches, and the filter if any. */
  datatype Request = Request(topK: nat, filter: Option<Filter>)

  /** The index is always asked for this many matches. */
  const IndexTopK: nat := 30

  /** Only a dict of entity filters is merged into the filter. */
  function MergeEntityFilters(filter: Filter, arg: EntityArg): (r: Filter)
    ensures !arg.EntityDict? ==> r == filter
    ensures arg.EntityDict? ==> r.Keys == filter.Keys + arg.conditions.Keys
    ensures arg.EntityDict? ==> forall k :: k in arg.conditions ==> r[k] == arg.conditions[k]
    ensures arg.EntityDict? ==> forall k :: k in filter && k !in arg.conditions ==> r[k] == filter[k]
  {
    if arg.EntityDict? then filter + arg.conditions else filter
  }

  function SearchRequest(filter: Filter, arg: EntityArg): (r: Request)
    ensures r.topK == IndexTopK
    ensures r.filter.Some? <==> |MergeEntityFilters(filter, arg)| > 0
    ensures r.filter.Some? ==> r.filter.value == MergeEntityFilters(filter, arg)
  {
    var merged := MergeEntityFilters(filter, arg);
    Request(IndexTopK, if |merged| > 0 then Some(merged) else None)
  }

  /** The entity agent hands over a list, so its filters never reach the
      index: the request carries the page's own filter only. */
  lemma EntityListNeverMerged(filter: Filter, arg: EntityArg)
    requires !arg.EntityDict?
    ensures SearchRequest(filter, arg).filter == if |filter| > 0 then Some(filter) else None
  {
  }

  /** Sorting on the negated score is `sorted(..., reverse=True)` on the score. */
  function NegScore(m: Match): real {
    -m.score
  }

  /** Python's `s[:k]` for `k >= 0`. */
  function Take<T>(s: seq<T>, k: nat): (r: seq<T>)
    ensures |r| == if k <= |s| then k else |s|
    ensures forall i :: 0 <= i < |r| ==> r[i] == s[i]
  {
    if k <= |s| then s[..k] else s
  }

  /** The matches `search_pinecone` hands back for an index reply: none when
      the query fails or the reply has no "matches"; otherwise the matches
      sorted by score, highest first, cut to `topK`. */
  function Ranked(reply: Outcome<Option<seq<Match>>>, topK: nat): (r: seq<Match>)
    ensures |r| <= topK
    ensures reply.Ok? && reply.value.Some? ==> |r| == if topK <= |reply.value.value| then topK else |reply.value.value|
    ensures !(reply.Ok? && reply.value.Some?) ==> r == []
  {
    match reply
    case Fail(_) => []
    case Ok(None) => []
    case Ok(Some(ms)) =>
      SortLength(ms, NegScore);
      Take(SortBy(ms, NegScore), topK)
  }

  /** The ranked matches come from the reply, each at most as often, and
      their scores do not increase. */
  lemma RankedOrder(ms: seq<Match>, topK: nat)
    ensures multiset(Ranked(Ok(Some(ms)), topK)) <= multiset(ms)
    ensures forall i, j :: 0 <= i < j < |Ranked(Ok(Some(ms)), topK)| ==>
      Ranked(Ok(Some(ms)), topK)[i].score >= Ranked(Ok(Some(ms)), topK)[j].score
  {
    var sorted := SortBy(ms, NegScore);
    var r := Ranked(Ok(Some(ms)), topK);
    RankedPrefix(ms, topK);
    assert multiset(r) <= multiset(ms) by {
      SortPermutes(ms, NegScore);
      assert sorted == r + sorted[|r|..];
      assert multiset(sorted) == multiset(r) + multiset(sorted[|r|..]);
    }
    forall i, j | 0 <= i < j < |r| ensures r[i].score >= r[j].score {
      SortOrdered(ms, NegScore);
      assert NegScore(sorted[i]) <= NegScore(sorted[j]);
    }
  }

  /** The ranked matches are the first ones of the sorted reply. */
  lemma RankedPrefix(ms: seq<Match>, topK: nat)
    ensures |Ranked(Ok(Some(ms)), topK)| <= |SortBy(ms, NegScore)|
    ensures Ranked(Ok(Some(ms)), topK) == SortBy(ms, NegScore)[..|Ranked(Ok(Some(ms)), topK)|]
  {
    SortLength(ms, NegScore);
  }

  /** In a sequence ordered by descending score, nothing after position `k`
      scores higher than anything before it. */
  lemma OrderedCut(sorted: seq<Match>, k: nat)
    requires Ordered(sorted, NegScore) && k <= |sorted|
    ensures forall x, y :: x in sorted[k..] && y in sorted[..k] ==> x.score <= y.score
  {
    forall x, y | x in sorted[k..] && y in sorted[..k] ensures x.score <= y.score {
      var a :| 0 <= a < |sorted[k..]| && sorted[k..][a] == x;
      var b :| 0 <= b < |sorted[..k]| && sorted[..k][b] == y;
      assert NegScore(sorted[b]) <= NegScore(sorted[k + a]);
    }
  }

  /** No match left out scores higher than a match kept. */
  lemma RankedKeepsBest(ms: seq<Match>, topK: nat)
    ensures forall x, y :: x in multiset(ms) - multiset(Ranked(Ok(Some(ms)), topK)) && y in Ranked(Ok(Some(ms)), topK) ==>
      x.score <= y.score
  {
    var sorted := SortBy(ms, NegScore);
    var r := Ranked(Ok(Some(ms)), topK);
    RankedPrefix(ms, topK);
    assert multiset(ms) - multiset(r) == multiset(sorted[|r|..]) by {
      SortPermutes(ms, NegScore);
      assert sorted == r + sorted[|r|..];
    }
    SortOrdered(ms, NegScore);
    OrderedCut(sorted, |r|);
  }

  /** Ties keep the index's order: for every score, the kept matches with
      that score are the first ones the index returned with it. */
  lemma RankedStable(ms: seq<Match>, topK: nat, score: real)
    ensures var kept := WithKey(Ranked(Ok(Some(ms)), topK), NegScore, -score);
      var all := WithKey(ms, NegScore, -score);
      |kept| <= |all| && kept == all[..|kept|]
  {
    var sorted := SortBy(ms, NegScore);
    SortStable(ms, NegScore, -score);
    SortLength(ms, NegScore);
    var k := if topK <= |sorted| then topK else |sorted|;
    assert Ranked(Ok(Some(ms)), topK) == sorted[..k];
    WithKeyTake(sorted, k, NegScore, -score);
  }

  // ---------------------------------------------------------------------
  // Result rows

  /** The row `process_results` builds for one match. */
  datatype Row = Row(title: string, content: string, date: string, url: string, score: real, id: string, source: string)

  /** `strptime(s, "%Y-%m-%d").strftime("%B %d, %Y")`, or `s` unchanged when
      it does not parse. */
  function DisplayDate(s: string): (r: string)
    ensures Calendar.Strptime(s, Calendar.IsoFormat).None? ==> r == s
    ensures Calendar.Strptime(s, Calendar.IsoFormat).Some? ==> r == Calendar.LongDate(Calendar.Strptime(s, Calendar.IsoFormat).value)
  {
    match Calendar.Strptime(s, Calendar.IsoFormat)
    case Some(d) => Calendar.LongDate(d)
    case None => s
  }

  function RowOf(m: Match): (r: Row)
    ensures r.score == m.score && r.id == m.id
    ensures r.title == (if "title" in m.metadata then m.metadata["title"] else "N/A")
    ensures r.content == (if "content" in m.metadata then m.metadata["content"] else "N/A")
    ensures r.url == (if "url" in m.metadata then m.metadata["url"] else "N/A")
    ensures r.source == (if "source_db" in m.metadata then m.metadata["source_db"] else "Unknown")
    ensures "date" !in m.metadata ==> r.date == "N/A"
  {
    Row(GetOr(m.metadata, "title", "N/A"), GetOr(m.metadata, "content", "N/A"),
        DisplayDate(GetOr(m.metadata, "date", "N/A")), GetOr(m.metadata, "url", "N/A"),
        m.score, m.id, GetOr(m.metadata, "source_db", "Unknown"))
  }

  /** One row per match, in order. */
  method ProcessResults(matches: seq<Match>) returns (rows: seq<Row>)
    ensures |rows| == |matches|
    ensures forall i :: 0 <= i < |rows| ==> rows[i] == RowOf(matches[i])
  {
    rows := [];
    if |matches| == 0 {
      return;
    }
    for i := 0 to |matches|
      invariant |rows| == i
      invariant forall k :: 0 <= k < i ==> rows[k] == RowOf(matches[k])
    {
      var md := matches[i].metadata;
      var dateText := GetOr(md, "date", "N/A");
      var formatted := DisplayDate(dateText);
      var row := Row(GetOr(md, "title", "N/A"), GetOr(md, "content", "N/A"), formatted,
                     GetOr(md, "url", "N/A"), matches[i].score, matches[i].id,
                     GetOr(md, "source_db", "Unknown"));
      rows := rows + [row];
    }
  }

  /** Text that does not start with a digit is no `%Y-%m-%d` date and is
      shown as it is; in particular the "N/A" placeholder. */
  lemma DisplayDateKeeps(s: string)
    requires |s| == 0 || !IsAsciiDigit(s[0])
    ensures DisplayDate(s) == s
  {
    assert Calendar.DigitRun(s, 0, 4) == 0;
  }

  /** Missing fields become "N/A", a missing source "Unknown". */
  lemma RowDefaults(m: Match)
    ensures "title" !in m.metadata ==> RowOf(m).title == "N/A"
    ensures "content" !in m.metadata ==> RowOf(m).content == "N/A"
    ensures "url" !in m.metadata ==> RowOf(m).url == "N/A"
    ensures "date" !in m.metadata ==> RowOf(m).date == "N/A"
    ensures "source_db" !in m.metadata ==> RowOf(m).source == "Unknown"
    ensures RowOf(m).score == m.score && RowOf(m).id == m.id
  {
    DisplayDateKeeps("N/A");
  }

  /** A stored ISO date is shown as "Month DD, YYYY", and the date
      normaliser turns that display text back into the stored date. */
  lemma RowDateRoundTrip(m: Match, d: Calendar.Date)
    requires Calendar.Valid(d) && "date" in m.metadata && m.metadata["date"] == Calendar.IsoDate(d)
    ensures RowOf(m).date == Calendar.LongDate(d)
    ensures Dates.ParseDate(Some(RowOf(m).date)) == Calendar.IsoDate(d)
  {
    Calendar.IsoRoundTrip(d);
    Dates.LongDateNormalises(d);
  }

  // ---------------------------------------------------------------------
  // Metadata filter built by the page

  const AllSources := "All Sources"

  function LowerAll(xs: seq<string>): (r: seq<string>)
    ensures |r| == |xs| && forall i :: 0 <= i < |xs| ==> r[i] == Lower(xs[i])
  {
    seq(|xs|, i requires 0 <= i < |xs| => Lower(xs[i]))
  }

  /** All entities, lowercased, across the entity types in order, with
      repetitions kept. */
  function Keywords(entities: seq<(string, seq<string>)>): seq<string> {
    if |entities| == 0 then []
    else Keywords(entities[..|entities| - 1]) + LowerAll(entities[|entities| - 1].1)
  }

  lemma {:induction false} KeywordsMembers(entities: seq<(string, seq<string>)>, x: string)
    ensures x in Keywords(entities) <==>
      exists i, j :: 0 <= i < |entities| && 0 <= j < |entities[i].1| && x == Lower(entities[i].1[j])
  {
    if |entities| > 0 {
      var init := entities[..|entities| - 1];
      KeywordsMembers(init, x);
      var last := entities[|entities| - 1].1;
      if x in Keywords(entities) && x !in Keywords(init) {
        var j :| 0 <= j < |last| && LowerAll(last)[j] == x;
        assert x == Lower(entities[|entities| - 1].1[j]);
      }
      if exists i, j :: 0 <= i < |entities| && 0 <= j < |entities[i].1| && x == Lower(entities[i].1[j]) {
        var i, j :| 0 <= i < |entities| && 0 <= j < |entities[i].1| && x == Lower(entities[i].1[j]);
        if i < |entities| - 1 {
          assert entities[i] == init[i];
        } else {
          assert LowerAll(last)[j] == x;
        }
      }
    }
  }

  /** Nothing is dropped or merged: one keyword per entity. */
  lemma {:induction false} KeywordsLength(entities: seq<(string, seq<string>)>)
    ensures |Keywords(entities)| == SumLengths(seq(|entities|, i requires 0 <= i < |entities| => entities[i].1))
  {
    if |entities| > 0 {
      var init := entities[..|entities| - 1];
      KeywordsLength(init);
      var lists := seq(|entities|, i requires 0 <= i < |entities| => entities[i].1);
      assert lists[..|lists| - 1] == seq(|init|, i requires 0 <= i < |init| => init[i].1);
    }
  }

  /** `filter_params` as `main` fills it: the chosen source unless it is
      "All Sources", and the lowercased entities when there are any. The
      search page passes no entities. */
  method BuildFilter(selectedSource: string, entities: seq<(string, seq<string>)>) returns (filter: Filter)
    ensures "source_db" in filter <==> selectedSource != AllSources
    ensures "source_db" in filter ==> filter["source_db"] == Equals(selectedSource)
    ensures "keywords" in filter <==> |Keywords(entities)| > 0
    ensures "keywords" in filter ==> filter["keywords"] == AnyOf(Keywords(entities))
    ensures forall k :: k in filter ==> k == "source_db" || k == "keywords"
  {
    filter := map[];
    if selectedSource != AllSources {
      filter := filter["source_db" := Equals(selectedSource)];
    }
    var all: seq<string> := [];
    for i := 0 to |entities|
      invariant all == Keywords(entities[..i])
    {
      assert entities[..i + 1][..i] == entities[..i];
      var list := entities[i].1;
      if |list| > 0 {
        all := all + LowerAll(list);
      }
    }
    assert entities[..|entities|] == entities;
    if |all| > 0 {
      filter := filter["keywords" := AnyOf(all)];
    }
  }

  // ---------------------------------------------------------------------
  // Summary prompt

  /** Which page builds the prompt: the two headers differ. */
  datatype Page = AgentPage | SearchPage

  /** The fixed opening of the agent page's prompt. */
  const AgentIntro := "Summarize the following news articles clear and consise, \n        "
    + "capturing the key events, causes, and resolutions related to Sri Lanka. Exclude unnecessary details and prioritize clarity and coherence, \n        "
    + "make sure you reject any article not relate to original user query: "

  /** The fixed opening of the search page's prompt. */
  const SearchIntro := "Summarize the following news articles into events list include dates or months which event took place, "
    + "capturing the key events, causes, and resolutions related to Sri Lanka, Exclude unnecessary details and prioritize clarity and coherence, "
    + "make sure you reject any article not relate to original user query :"

  /** The page's fixed opening, the query, then the blank line before the
      articles. */
  function Header(page: Page, query: string): (r: string)
    ensures StartsWith(r, if page.AgentPage? then AgentIntro else SearchIntro)
    ensures OccursAt(r, query, |if page.AgentPage? then AgentIntro else SearchIntro|)
    ensures EndsWith(r, "\n\n")
  {
    match page
    case AgentPage => AgentIntro + query + ".\n\n"
    case SearchPage => SearchIntro + query + " \n\n"
  }

  /** The prompt text of the `n`-th article (numbered from 1), in the five
      pieces the page appends one after the other. */
  function Block(n: nat, row: Row): string {
    ("Article " + NatToString(n) + ": " + row.title + "\n")
    + ("Date: " + row.date + "\n")
    + ("Source: " + row.source + "\n")
    + ("URL: " + row.url + "\n\n")
    + ("Content: " + row.content + "\n\n")
  }

  lemma AppendNothing(head: string, bs: seq<string>)
    ensures head + Flatten(bs[..0]) == head
  {
    assert bs[..0] == [];
  }

  lemma PrefixStep<T>(s: seq<T>, i: nat)
    requires i < |s|
    ensures s[..i + 1] == s[..i] + [s[i]]
  {
  }

  lemma AppendFive(p: string, a: string, b: string, c: string, d: string, e: string)
    ensures p + a + b + c + d + e == p + (a + b + c + d + e)
  {
  }

  function Blocks(rows: seq<Row>): (r: seq<string>)
    ensures |r| == |rows| && forall i :: 0 <= i < |rows| ==> r[i] == Block(i + 1, rows[i])
  {
    seq(|rows|, i requires 0 <= i < |rows| => Block(i + 1, rows[i]))
  }

  /** The prompt: the header, then the articles' blocks in order. */
  function Prompt(page: Page, rows: seq<Row>, query: string): (r: string)
    ensures StartsWith(r, Header(page, query))
    ensures |r| == |Header(page, query)| + SumLengths(Blocks(rows))
  {
    FlattenLength(Blocks(rows));
    Header(page, query) + Flatten(Blocks(rows))
  }

  /** The page's loop, which appends each article's five pieces to `head`. */
  method AppendBlocks(head: string, rows: seq<Row>) returns (prompt: string)
    ensures prompt == head + Flatten(Blocks(rows))
  {
    ghost var bs := Blocks(rows);
    prompt := head;
    AppendNothing(head, bs);
    for i := 0 to |rows|
      invariant prompt == head + Flatten(bs[..i])
    {
      var r := rows[i];
      var before := prompt;
      PrefixStep(bs, i);
      FlattenAppend(bs[..i], bs[i]);
      var a := "Article " + NatToString(i + 1) + ": " + r.title + "\n";
      var b := "Date: " + r.date + "\n";
      var c := "Source: " + r.source + "\n";
      var d := "URL: " + r.url + "\n\n";
      var e := "Content: " + r.content + "\n\n";
      prompt := prompt + a;
      prompt := prompt + b;
      prompt := prompt + c;
      prompt := prompt + d;
      prompt := prompt + e;
      AppendFive(before, a, b, c, d, e);
      assert a + b + c + d + e == bs[i];
      AppendAssoc(head, Flatten(bs[..i]), bs[i]);
    }
    assert bs[..|rows|] == bs;
  }

  /** The prompt the page sends: its header, then the articles. */
  method SummaryPrompt(page: Page, rows: seq<Row>, query: string) returns (prompt: string)
    ensures prompt == Prompt(page, rows, query)
  {
    prompt := AppendBlocks(Header(page, query), rows);
  }

  lemma OccursAfter(h: string, a: string, b: string, c: string)
    ensures StartsWith(h + (a + b + c), h)
    ensures OccursAt(h + (a + b + c), b, |h| + |a|)
  {
    var s := h + (a + b + c);
    assert s[..|h|] == h;
    assert s[|h| + |a|..|h| + |a| + |b|] == b;
  }

  /** Piece `i` of `bs` sits in `h + Flatten(bs)` right after `h` and the
      pieces before it. */
  lemma FlattenPiece(h: string, bs: seq<string>, i: nat)
    requires i < |bs|
    ensures StartsWith(h + Flatten(bs), h)
    ensures OccursAt(h + Flatten(bs), bs[i], |h| + SumLengths(bs[..i]))
  {
    var before, after := Flatten(bs[..i]), Flatten(bs[i + 1..]);
    FlattenAround(bs, i);
    FlattenLength(bs[..i]);
    OccursAfter(h, before, bs[i], after);
    assert h + Flatten(bs) == h + (before + bs[i] + after);
  }

  /** Article `i + 1`'s block sits in the prompt right after the header and
      the blocks of the articles before it. */
  lemma BlockInPrompt(page: Page, rows: seq<Row>, query: string, i: nat)
    requires i < |rows|
    ensures StartsWith(Prompt(page, rows, query), Header(page, query))
    ensures OccursAt(Prompt(page, rows, query), Block(i + 1, rows[i]),
                     |Header(page, query)| + SumLengths(Blocks(rows)[..i]))
  {
    FlattenPiece(Header(page, query), Blocks(rows), i);
  }

  /** `summarize_with_openai`: no call without results; the model's reply,
      or the error text when the call fails. */
  method Summarize(page: Page, rows: seq<Row>, query: string, chat: string -> Outcome<string>) returns (summary: string)
    ensures |rows| == 0 ==> summary == "No results to summarize."
    ensures |rows| > 0 ==> summary == match chat(Prompt(page, rows, query))
      case Ok(text) => text
      case Fail(e) => "Error generating summary: " + e
  {
    if |rows| == 0 {
      summary := "No results to summarize.";
    } else {
      var prompt := SummaryPrompt(page, rows, query);
      var reply := chat(prompt);
      if reply.Ok? {
        summary := reply.value;
      } else {
        summary := "Error generating summary: " + reply.message;
      }
    }
  }

  // ---------------------------------------------------------------------
  // Fact-verification lines: ordering and parsing

  /** `get_verification_priority`. */
  function Priority(line: string): (p: nat)
    ensures p <= 2
  {
    if Contains(line, ": (Verified)") then 0
    else if Contains(line, ": (Partially Verified)") then 1
    else 2
  }

  function PriorityKey(line: string): real {
    Priority(line) as real
  }

  /** `sorted(results, key=get_verification_priority)`. */
  function SortResults(lines: seq<string>): (r: seq<string>)
    ensures multiset(r) == multiset(lines)
    ensures Ordered(r, PriorityKey)
  {
    SortPermutes(lines, PriorityKey);
    SortOrdered(lines, PriorityKey);
    SortBy(lines, PriorityKey)
  }

  /** The lines are reordered, not changed; verified ones come first; equal
      priorities keep their order. */
  lemma SortResultsSpec(lines: seq<string>, p: nat)
    ensures multiset(SortResults(lines)) == multiset(lines)
    ensures forall i, j :: 0 <= i < j < |SortResults(lines)| ==>
      Priority(SortResults(lines)[i]) <= Priority(SortResults(lines)[j])
    ensures WithKey(SortResults(lines), PriorityKey, p as real) == WithKey(lines, PriorityKey, p as real)
  {
    SortPermutes(lines, PriorityKey);
    SortOrdered(lines, PriorityKey);
    SortStable(lines, PriorityKey, p as real);
    var r := SortResults(lines);
    forall i, j | 0 <= i < j < |r| ensures Priority(r[i]) <= Priority(r[j]) {
      assert PriorityKey(r[i]) <= PriorityKey(r[j]);
    }
  }

  function Rank(v: FV.Verdict): nat {
    match v
    case Verified => 0
    case PartiallyVerified => 1
    case NotVerified => 2
  }

  /** The text before " : (" in a verdict line. */
  function Head(claim: string, links: seq<string>): string {
    claim + " - " + FV.LinksText(links)
  }

  /** Text free of ": (" is free of " : (" too. */
  lemma ColonParenFree(s: string)
    requires !Contains(s, ": (")
    ensures !Contains(s, " : (")
  {
    forall j ensures !OccursAt(s, " : (", j) {
      if 0 <= j && j + 4 <= |s| {
        assert !OccursAt(s, ": (", j + 1);
        assert s[j + 1..j + 4] == s[j..j + 4][1..];
      }
    }
  }

  /** The head and the verdict tail share no occurrence of ": (" or of a
      longer pattern starting with it. */
  lemma SeamFree(h: string, tail: string, p: string)
    requires !Contains(h, ": (") && |p| >= 3 && p[..3] == ": ("
    requires |tail| >= 2 && tail[0] == ' ' && tail[1] == ':'
    ensures !Contains(h, p)
    ensures forall j :: |h| - |p| < j < |h| ==> !OccursAt(h + tail, p, j)
  {
    var s := h + tail;
    forall j ensures !OccursAt(h, p, j) {
      if 0 <= j && j + |p| <= |h| {
        assert !OccursAt(h, ": (", j);
        assert h[j..j + 3] == h[j..j + |p|][..3];
      }
    }
    forall j | |h| - |p| < j < |h| ensures !OccursAt(s, p, j) {
      if 0 <= j && j + |p| <= |s| {
        assert s[j..j + |p|][..3] == s[j..j + 3];
        if j + 3 <= |h| {
          assert h[j..j + 3] == s[j..j + 3];
          assert !OccursAt(h, ": (", j);
        } else {
          assert p[2] == p[..3][2] == '(';
          assert s[j..j + |p|][2] == s[j + 2];
          assert s[j + 2] == if j == |h| - 1 then tail[1] else tail[0];
        }
      }
    }
  }

  /** The verdict names: non-empty, and free of ':' and ')'. */
  lemma VerdictNameChars(v: FV.Verdict)
    ensures |FV.VerdictName(v)| > 0
    ensures forall i :: 0 <= i < |FV.VerdictName(v)| ==> FV.VerdictName(v)[i] != ':' && FV.VerdictName(v)[i] != ')'
  {
  }

  /** In " : (" + name + ")" the only ':' is at index 1, so ": (" + w + ")"
      occurs in it only as its suffix from index 1; for names with different
      first letters that means `w == name`. */
  lemma TailMatch(name: string, w: string)
    requires |name| > 0 && |w| > 0 && (name == w || name[0] != w[0])
    requires forall i :: 0 <= i < |name| ==> name[i] != ':'
    ensures Contains(" : (" + name + ")", ": (" + w + ")") <==> name == w
  {
    var t := " : (" + name + ")";
    var p := ": (" + w + ")";
    if name == w {
      assert t[1..] == p;
      assert OccursAt(t, p, 1);
    } else {
      forall j ensures !OccursAt(t, p, j) {
        if 0 <= j && j + |p| <= |t| {
          assert t[j..j + |p|][0] == t[j];
          assert t[j..j + |p|][3] == t[j + 3];
          if 4 <= j < 4 + |name| {
            assert t[j] == name[j - 4];
          }
        }
      }
    }
  }

  /** The verdict tail " : (Name)" contains ": (Verified)" only for the name
      "Verified", and ": (Partially Verified)" only for "Partially Verified". */
  lemma TailPriority(v: FV.Verdict)
    ensures Contains(" : (" + FV.VerdictName(v) + ")", ": (Verified)") <==> v == FV.Verified
    ensures Contains(" : (" + FV.VerdictName(v) + ")", ": (Partially Verified)") <==> v == FV.PartiallyVerified
  {
    VerdictNameChars(v);
    assert ": (Verified)" == ": (" + "Verified" + ")";
    assert ": (Partially Verified)" == ": (" + "Partially Verified" + ")";
    TailMatch(FV.VerdictName(v), "Verified");
    TailMatch(FV.VerdictName(v), "Partially Verified");
  }

  /** The priority of a verdict line reflects its verdict, as long as the
      claim and the links never contain ": (". */
  lemma PriorityOfResultLine(claim: string, links: seq<string>)
    requires !Contains(Head(claim, links), ": (")
    ensures Priority(FV.ResultLine(claim, links)) == Rank(FV.VerdictFor(|links|))
  {
    var h := Head(claim, links);
    var v := FV.VerdictFor(|links|);
    var t := " : (" + FV.VerdictName(v) + ")";
    assert FV.ResultLine(claim, links) == h + t;
    TailPriority(v);
    SeamFree(h, t, ": (Verified)");
    FindAfterPrefix(h, t, ": (Verified)");
    SeamFree(h, t, ": (Partially Verified)");
    FindAfterPrefix(h, t, ": (Partially Verified)");
  }

  /** `s.rstrip(c)`. */
  function RStripChar(s: string, c: char): (r: string)
    ensures |r| <= |s| && r == s[..|r|]
    ensures |r| == 0 || r[|r| - 1] != c
  {
    if |s| > 0 && s[|s| - 1] == c then RStripChar(s[..|s| - 1], c) else s
  }

  /** A line as the verification panel takes it apart. */
  datatype ParsedLine = Unexpected(line: string) | Parsed(claim: string, sources: string, status: string)

  /** Split on " : (" into exactly two parts, strip the closing parentheses
      of the status, then split the head once on " - ". */
  function ParseResult(line: string): (r: ParsedLine)
    ensures r.Unexpected? <==> |Split(line, " : (")| != 2
    ensures r.Unexpected? ==> r.line == line
    ensures r.Parsed? ==> |r.status| == 0 || r.status[|r.status| - 1] != ')'
    ensures r.Parsed? && !Contains(Split(line, " : (")[0], " - ") ==>
              r.claim == Split(line, " : (")[0] && r.sources == "No supporting articles"
  {
    var parts := Split(line, " : (");
    if |parts| != 2 then Unexpected(line)
    else
      var status := RStripChar(parts[1], ')');
      match Find(parts[0], " - ")
      case Some(i) => Parsed(parts[0][..i], parts[0][i + 3..], status)
      case None => Parsed(parts[0], "No supporting articles", status)
  }

  /** No " : (" straddles the end of a head and the start of `" : (" + tail`
      when the tail has no ':'. */
  lemma VerdictSeam(h: string, tail: string)
    requires forall i :: 0 <= i < |tail| ==> tail[i] != ':'
    ensures forall j :: |h| - |" : ("| < j < |h| ==> !OccursAt(h + (" : (" + tail), " : (", j)
  {
    var sep := " : (";
    var s := h + (sep + tail);
    forall j | |h| - |sep| < j < |h| ensures !OccursAt(s, sep, j) {
      if 0 <= j && j + 4 <= |s| {
        var w := s[j..j + 4];
        if j == |h| - 2 {
          assert w[3] == ':';
        } else {
          assert w[|h| - j] == ' ';
        }
      }
    }
  }

  /** The first " : (" of `h + " : (" + tail` is the one after the head. */
  lemma FindVerdict(h: string, tail: string)
    requires !Contains(h, " : (")
    requires forall i :: 0 <= i < |tail| ==> tail[i] != ':'
    ensures Find(h + " : (" + tail, " : (") == Some(|h|)
  {
    var sep := " : (";
    VerdictSeam(h, tail);
    FindAfterPrefix(h, sep + tail, sep);
    assert OccursAt(sep + tail, sep, 0);
    assert h + (sep + tail) == h + sep + tail;
  }

  /** Splitting on " : (" separates a head without it from a tail without ':'. */
  lemma SplitAtVerdict(h: string, tail: string)
    requires !Contains(h, " : (")
    requires forall i :: 0 <= i < |tail| ==> tail[i] != ':'
    ensures Split(h + " : (" + tail, " : (") == [h, tail]
  {
    var sep := " : (";
    var s := h + sep + tail;
    FindVerdict(h, tail);
    LacksChar(tail, sep, 1);
    SplitAbsent(tail, sep);
    assert s[..|h|] == h;
    assert s[|h| + |sep|..] == tail;
  }

  /** The first " - " of `claim + rest` is the one `rest` starts with, when
      the claim has none and does not end with " -". */
  lemma FindDash(claim: string, rest: string)
    requires !Contains(claim, " - ") && !EndsWith(claim, " -") && StartsWith(rest, " - ")
    ensures Find(claim + rest, " - ") == Some(|claim|)
  {
    var s := claim + rest;
    forall j | |claim| - 3 < j < |claim| ensures !OccursAt(s, " - ", j) {
      if 0 <= j && j + 3 <= |s| {
        if j == |claim| - 1 {
          assert s[j..j + 3][1] == rest[0];
        } else {
          assert s[j..j + 3][..2] == claim[|claim| - 2..];
        }
      }
    }
    FindAfterPrefix(claim, rest, " - ");
    assert OccursAt(rest, " - ", 0);
  }

  /** The two facts above, for the line shape the agent builds. */
  lemma LineParts(claim: string, x: string, name: string)
    requires !Contains(claim, " - ") && !EndsWith(claim, " -")
    requires !Contains(claim + " - " + x, " : (")
    requires forall i :: 0 <= i < |name| ==> name[i] != ':'
    ensures Split(claim + " - " + x + " : (" + name + ")", " : (") == [claim + " - " + x, name + ")"]
    ensures Find(claim + " - " + x, " - ") == Some(|claim|)
  {
    var h := claim + " - " + x;
    AppendAssoc(h + " : (", name, ")");
    SplitAtVerdict(h, name + ")");
    AppendAssoc(claim, " - ", x);
    FindDash(claim, " - " + x);
  }

  lemma ParseParts(line: string, h: string, tail: string, i: nat)
    requires Split(line, " : (") == [h, tail]
    requires Find(h, " - ") == Some(i)
    ensures ParseResult(line) == Parsed(h[..i], h[i + 3..], RStripChar(tail, ')'))
  {
  }

  /** Parsing a line built from a claim, a links text and a status name. */
  lemma ParseLine(claim: string, x: string, name: string)
    requires !Contains(claim, " - ") && !EndsWith(claim, " -")
    requires !Contains(claim + " - " + x, ": (")
    requires forall i :: 0 <= i < |name| ==> name[i] != ':' && name[i] != ')'
    ensures ParseResult(claim + " - " + x + " : (" + name + ")") == Parsed(claim, x, name)
  {
    var h := claim + " - " + x;
    ColonParenFree(h);
    LineParts(claim, x, name);
    ParseParts(h + " : (" + name + ")", h, name + ")", |claim|);
    assert RStripChar(name + ")", ')') == name;
    assert h[..|claim|] == claim && h[|claim| + 3..] == x;
  }

  /** The panel finds the claim and its verdict in the line the
      verification agent built, as long as the claim contains no " - " and
      does not end with " -" and the text before the verdict has no ": (". */
  lemma ParseResultLine(claim: string, links: seq<string>)
    requires !Contains(claim, " - ") && !EndsWith(claim, " -")
    requires !Contains(Head(claim, links), ": (")
    ensures ParseResult(FV.ResultLine(claim, links))
      == Parsed(claim, FV.LinksText(links), FV.VerdictName(FV.VerdictFor(|links|)))
  {
    VerdictNameChars(FV.VerdictFor(|links|));
    ParseLine(claim, FV.LinksText(links), FV.VerdictName(FV.VerdictFor(|links|)));
  }
}

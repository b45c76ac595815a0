/** The relevance agent: each article of a result list is shown to the
    model with the user's query, the model's reply is read for a
    "SCORE: x" line, and the articles scoring at least the threshold are
    kept, in their input order. The MCP server's `check_relevance` tool
    reads a reply the same way and hands back the score alone.

    The model call is a parameter: `chat(query, title, preview)` is the
    reply text or the failure message. Python's `float(...)` on the score
    text is a parameter too: `number(t)` is the value, or None where
    `float` raises. */
module Relevance {
  import opened Wrappers
  import opened Text
  import opened Lists
  import SearchView

  /** The `threshold` argument's default. */
  const DefaultThreshold: real := 0.7

  /** The score given when the reply has no score line or its number does
      not parse. */
  const FallbackScore: real := 0.5

  /** How many characters of the content the model sees. */
  const PreviewLimit: nat := 1000

  /** The marker of the score line. */
  const Marker: string := "SCORE:"

  /** `content[:1000] + "..."` when the content is longer than 1000
      characters, else the content itself. */
  function Preview(content: string): (r: string)
    ensures |content| <= PreviewLimit ==> r == content
    ensures |content| > PreviewLimit ==> |r| == PreviewLimit + 3 && r[..PreviewLimit] == content[..PreviewLimit] && r[PreviewLimit..] == "..."
  {
    if |content| > PreviewLimit then content[..PreviewLimit] + "..." else content
  }

  /** The index of the first line holding the marker; `|lines|` when no
      line holds it. */
  function FirstMarked(lines: seq<string>): (k: nat)
    ensures k <= |lines|
    ensures forall j :: 0 <= j < k ==> !Contains(lines[j], Marker)
    ensures k < |lines| ==> Contains(lines[k], Marker)
  {
    if |lines| == 0 || Contains(lines[0], Marker) then 0 else 1 + FirstMarked(lines[1..])
  }

  /** The first marked line is the only index with no marked line before it
      and, unless it is the end, a marked line at it. */
  lemma FirstMarkedUnique(lines: seq<string>, k: nat)
    requires k <= |lines|
    requires forall j :: 0 <= j < k ==> !Contains(lines[j], Marker)
    requires k < |lines| ==> Contains(lines[k], Marker)
    ensures FirstMarked(lines) == k
  {
  }

  /** The lines that contain the marker, in order: there is one exactly when
      some line holds the marker, and the first is the first such line. */
  function ScoreLines(lines: seq<string>): (r: seq<string>)
    ensures forall x :: x in r <==> x in lines && Contains(x, Marker)
    ensures |r| > 0 <==> FirstMarked(lines) < |lines|
    ensures |r| > 0 ==> r[0] == lines[FirstMarked(lines)]
  {
    if |lines| == 0 then []
    else
      var n := |lines| - 1;
      var init, last := lines[..n], lines[n];
      var before := ScoreLines(init);
      var f := FirstMarked(init);
      assert forall j :: 0 <= j < n ==> init[j] == lines[j];
      if f < n then
        FirstMarkedUnique(lines, f);
        before + (if Contains(last, Marker) then [last] else [])
      else
        FirstMarkedUnique(lines, if Contains(last, Marker) then n else n + 1);
        before + (if Contains(last, Marker) then [last] else [])
  }

  /** What follows the marker on a marked line, stripped:
      `line.split('SCORE:')[1].strip()`. */
  function AfterMarker(line: string): string
    requires Contains(line, Marker)
  {
    SplitHasSep(line, Marker);
    Strip(Split(line, Marker)[1])
  }

  /** What is read from one reply: the score and the reasoning. */
  datatype Judgement = Judgement(score: real, reasoning: string)

  /** The parse of a reply: the number after the marker on the first line
      holding it, with the stripped text before the first marker as the
      reasoning; 0.5 when no line holds the marker; 0.5 and the reply
      behind "Error parsing score. " when the number does not parse. */
  function ParseReply(text: string, number: string -> Option<real>): (r: Judgement)
    ensures var lines := Split(text, "\n"); var k := FirstMarked(lines);
      k == |lines| ==> r == Judgement(FallbackScore, Strip(Split(text, Marker)[0]))
    ensures var lines := Split(text, "\n"); var k := FirstMarked(lines);
      k < |lines| && number(AfterMarker(lines[k])).Some? ==>
        r == Judgement(number(AfterMarker(lines[k])).value, Strip(Split(text, Marker)[0]))
    ensures var lines := Split(text, "\n"); var k := FirstMarked(lines);
      k < |lines| && number(AfterMarker(lines[k])).None? ==>
        r == Judgement(FallbackScore, "Error parsing score. " + text)
  {
    var found := ScoreLines(Split(text, "\n"));
    var reasoning := Strip(Split(text, Marker)[0]);
    if |found| == 0 then Judgement(FallbackScore, reasoning)
    else
      match number(AfterMarker(found[0]))
      case Some(v) => Judgement(v, reasoning)
      case None => Judgement(FallbackScore, "Error parsing score. " + text)
  }

  /** A reply without the marker scores 0.5, with the whole stripped reply
      as its reasoning. */
  lemma ParseWithoutMarker(text: string, number: string -> Option<real>)
    requires !Contains(text, Marker)
    ensures ParseReply(text, number) == Judgement(FallbackScore, Strip(text))
  {
    var lines := Split(text, "\n");
    forall k | 0 <= k < |lines| ensures !Contains(lines[k], Marker) {
      if Contains(lines[k], Marker) {
        SplitPieceContains(text, "\n", k, Marker);
      }
    }
    ScoreLinesNone(lines);
    SplitAbsent(text, Marker);
  }

  /** No line holds the marker: no score line. */
  lemma {:induction false} ScoreLinesNone(lines: seq<string>)
    requires forall k :: 0 <= k < |lines| ==> !Contains(lines[k], Marker)
    ensures ScoreLines(lines) == []
  {
    if |lines| > 0 {
      ScoreLinesNone(lines[..|lines| - 1]);
    }
  }

  /** The lines of a reasoning without the marker followed by one last
      marked line: that line is the only score line. */
  lemma ScoreLineLast(reason: string, line: string)
    requires !Contains(reason, Marker) && Contains(line, Marker)
    requires forall i :: 0 <= i < |line| ==> line[i] != '\n'
    ensures ScoreLines(Split(reason + "\n" + line, "\n")) == [line]
  {
    SplitSingleAppend(reason, '\n', line);
    LacksChar(line, "\n", 0);
    SplitAbsent(line, "\n");
    var before := Split(reason, "\n");
    assert Split(reason + "\n" + line, "\n") == before + [line];
    forall k | 0 <= k < |before| ensures !Contains(before[k], Marker) {
      if Contains(before[k], Marker) {
        SplitPieceContains(reason, "\n", k, Marker);
      }
    }
    ScoreLinesNone(before);
    assert (before + [line])[..|before|] == before;
  }

  /** The text after the marker of "SCORE: x", stripped, is `x`. */
  lemma ScoreText(num: string)
    requires forall i :: 0 <= i < |num| ==> num[i] != ':'
    requires num == [] || (!IsSpace(num[0]) && !IsSpace(num[|num| - 1]))
    ensures |Split(Marker + " " + num, Marker)| >= 2
    ensures Strip(Split(Marker + " " + num, Marker)[1]) == num
  {
    var rest := " " + num;
    var line := Marker + rest;
    assert Marker + " " + num == line;
    OccursAt0(Marker, rest);
    LacksChar(rest, Marker, 5);
    SplitAbsent(rest, Marker);
    assert Find(line, Marker) == Some(0);
    assert line[|Marker|..] == rest;
    assert Split(line, Marker) == [""] + [rest];
    StripSpacePrefix(num);
  }

  /** The text before the first marker of a reasoning without the marker,
      a line break and a marked line is the reasoning and the line break. */
  lemma ReasoningPart(reason: string, line: string)
    requires !Contains(reason, Marker) && StartsWith(line, Marker)
    ensures Split(reason + "\n" + line, Marker)[0] == reason + "\n"
  {
    var head := reason + "\n";
    var text := head + line;
    NotContainsLineEnd(reason);
    forall j | |head| - |Marker| < j < |head| ensures !OccursAt(text, Marker, j) {
      if 0 <= j && j + |Marker| <= |text| {
        var w := text[j..j + |Marker|];
        assert w[|head| - 1 - j] == '\n';
      }
    }
    assert OccursAt(line, Marker, 0);
    FindAfterPrefix(head, line, Marker);
    assert Find(text, Marker) == Some(|head|);
    assert text[..|head|] == head;
  }

  /** A reply that follows the requested layout, reasoning then a last line
      "SCORE: x", scores `number(x)` with the stripped reasoning; a number
      that does not parse gives 0.5 and the marked-up reply. */
  lemma ParseWellFormed(reason: string, num: string, number: string -> Option<real>)
    requires !Contains(reason, Marker)
    requires forall i :: 0 <= i < |num| ==> num[i] != ':' && num[i] != '\n'
    requires num == [] || (!IsSpace(num[0]) && !IsSpace(num[|num| - 1]))
    ensures var text := reason + "\n" + (Marker + " " + num);
      ParseReply(text, number) ==
        match number(num)
        case Some(v) => Judgement(v, Strip(reason + "\n"))
        case None => Judgement(FallbackScore, "Error parsing score. " + text)
  {
    var line := Marker + " " + num;
    OccursAt0(Marker, " " + num);
    assert line == Marker + (" " + num);
    assert forall i :: 0 <= i < |line| ==> line[i] != '\n';
    ScoreLineLast(reason, line);
    ScoreText(num);
    ReasoningPart(reason, line);
  }

  /** `p` occurs at the very start of `p + c`. */
  lemma OccursAt0(p: string, c: string)
    ensures OccursAt(p + c, p, 0) && Contains(p + c, p)
  {
    assert (p + c)[..|p|] == p;
  }

  /** The reasoning with a line break after it still lacks the marker. */
  lemma NotContainsLineEnd(reason: string)
    requires !Contains(reason, Marker)
    ensures !Contains(reason + "\n", Marker)
  {
    var s := reason + "\n";
    forall j ensures !OccursAt(s, Marker, j) {
      if 0 <= j && j + |Marker| <= |s| {
        if j + |Marker| <= |reason| {
          assert s[j..j + |Marker|] == reason[j..j + |Marker|];
          assert !OccursAt(reason, Marker, j);
        } else {
          assert s[j..j + |Marker|][|Marker| - 1] == '\n';
        }
      }
    }
  }

  /** The score of one article: a number, or the text 'Error' after a
      failed call. */
  datatype Score = Number(value: real) | Failed

  /** One entry of the analysis map. */
  datatype Entry = Entry(score: Score, reasoning: string, title: string)

  /** The entry recorded for one article. */
  function Assess(query: string, article: SearchView.Row, chat: (string, string, string) -> Outcome<string>,
                  number: string -> Option<real>): (e: Entry)
    ensures e.title == article.title
    ensures e.score.Failed? <==> chat(query, article.title, Preview(article.content)).Fail?
  {
    match chat(query, article.title, Preview(article.content))
    case Fail(message) => Entry(Failed, "Error during evaluation: " + message, article.title)
    case Ok(text) =>
      var j := ParseReply(text, number);
      Entry(Number(j.score), j.reasoning, article.title)
  }

  /** An article stays when its call failed, or its score reaches the
      threshold (inclusive). */
  predicate Keeps(e: Entry, threshold: real) {
    e.score.Failed? || e.score.value >= threshold
  }

  /** The entry of every article, in order. */
  function Entries(query: string, articles: seq<SearchView.Row>,
                   chat: (string, string, string) -> Outcome<string>, number: string -> Option<real>): seq<Entry>
  {
    seq(|articles|, i requires 0 <= i < |articles| => Assess(query, articles[i], chat, number))
  }

  /** The articles whose entries pass, in input order. */
  function Kept(articles: seq<SearchView.Row>, entries: seq<Entry>, threshold: real): (r: seq<SearchView.Row>)
    requires |entries| == |articles|
    ensures |r| <= |articles|
  {
    if |articles| == 0 then []
    else
      var n := |articles| - 1;
      Kept(articles[..n], entries[..n], threshold) + (if Keeps(entries[n], threshold) then [articles[n]] else [])
  }

  /** The analysis map: one entry per article id, a later article with the
      same id overwriting an earlier one. */
  function Analysis(articles: seq<SearchView.Row>, entries: seq<Entry>): (m: map<string, Entry>)
    requires |entries| == |articles|
    ensures m.Keys == set i | 0 <= i < |articles| :: articles[i].id
  {
    if |articles| == 0 then map[]
    else
      var n := |articles| - 1;
      var m := Analysis(articles[..n], entries[..n]);
      assert forall i :: 0 <= i < n ==> articles[..n][i] == articles[i];
      m[articles[n].id := entries[n]]
  }

  /** `filter_by_relevance`: the articles kept and the analysis map, as the
      entries of the model's replies decide them. */
  method FilterByRelevance(query: string, articles: seq<SearchView.Row>, threshold: real,
                           chat: (string, string, string) -> Outcome<string>, number: string -> Option<real>)
    returns (kept: seq<SearchView.Row>, analysis: map<string, Entry>)
    ensures kept == Kept(articles, Entries(query, articles, chat, number), threshold)
    ensures analysis == Analysis(articles, Entries(query, articles, chat, number))
    ensures |articles| == 0 ==> kept == [] && analysis == map[]
  {
    if |articles| == 0 {
      return [], map[];
    }
    ghost var entries := Entries(query, articles, chat, number);
    kept := [];
    analysis := map[];
    for i := 0 to |articles|
      invariant kept == Kept(articles[..i], entries[..i], threshold)
      invariant analysis == Analysis(articles[..i], entries[..i])
    {
      var article := articles[i];
      var entry := Assess(query, article, chat, number);
      EntryAt(query, articles, chat, number, i);
      FilterStep(articles, entries, i, threshold);
      if Keeps(entry, threshold) {
        kept := kept + [article];
      }
      analysis := analysis[article.id := entry];
    }
    assert articles[..|articles|] == articles;
    assert entries[..|articles|] == entries;
  }

  lemma EntryAt(query: string, articles: seq<SearchView.Row>,
                chat: (string, string, string) -> Outcome<string>, number: string -> Option<real>, i: nat)
    requires i < |articles|
    ensures Entries(query, articles, chat, number)[i] == Assess(query, articles[i], chat, number)
  {
  }

  /** One more article extends both the kept list and the map by its entry. */
  lemma FilterStep(articles: seq<SearchView.Row>, entries: seq<Entry>, i: nat, threshold: real)
    requires |entries| == |articles| && i < |articles|
    ensures Kept(articles[..i + 1], entries[..i + 1], threshold)
      == Kept(articles[..i], entries[..i], threshold) + (if Keeps(entries[i], threshold) then [articles[i]] else [])
    ensures Analysis(articles[..i + 1], entries[..i + 1]) == Analysis(articles[..i], entries[..i])[articles[i].id := entries[i]]
  {
    assert articles[..i + 1][..i] == articles[..i];
    assert entries[..i + 1][..i] == entries[..i];
  }

  /** The kept articles are the input with some articles left out, the
      order unchanged. */
  lemma {:induction false} KeptSubsequence(articles: seq<SearchView.Row>, entries: seq<Entry>, threshold: real)
    requires |entries| == |articles|
    ensures IsSubsequence(Kept(articles, entries, threshold), articles)
  {
    if |articles| > 0 {
      var n := |articles| - 1;
      KeptSubsequence(articles[..n], entries[..n], threshold);
      SubsequenceExtend(Kept(articles[..n], entries[..n], threshold), articles[..n], articles[n],
                        Keeps(entries[n], threshold));
      assert articles[..n] + [articles[n]] == articles;
      var xs := Kept(articles[..n], entries[..n], threshold);
      if Keeps(entries[n], threshold) {
        assert Kept(articles, entries, threshold) == xs + [articles[n]];
      } else {
        assert Kept(articles, entries, threshold) == xs + [];
        assert xs + [] == xs;
      }
    }
  }

  /** An article is kept exactly when some position holds it with a passing
      entry. */
  lemma {:induction false} KeptPositions(articles: seq<SearchView.Row>, entries: seq<Entry>, threshold: real, x: SearchView.Row)
    requires |entries| == |articles|
    ensures x in Kept(articles, entries, threshold) <==>
      exists i :: 0 <= i < |articles| && articles[i] == x && Keeps(entries[i], threshold)
  {
    if |articles| > 0 {
      var n := |articles| - 1;
      KeptPositions(articles[..n], entries[..n], threshold, x);
      if x in Kept(articles[..n], entries[..n], threshold) {
        var i :| 0 <= i < n && articles[..n][i] == x && Keeps(entries[..n][i], threshold);
        assert articles[i] == x && entries[i] == entries[..n][i];
      }
      if exists i :: 0 <= i < |articles| && articles[i] == x && Keeps(entries[i], threshold) {
        var i :| 0 <= i < |articles| && articles[i] == x && Keeps(entries[i], threshold);
        if i < n {
          assert articles[..n][i] == x && entries[..n][i] == entries[i];
        }
      }
    }
  }

  /** With the agent's entries, an article is kept exactly when it is in the
      input and its call failed or its score reaches the threshold. */
  lemma KeptMembers(query: string, articles: seq<SearchView.Row>, threshold: real,
                    chat: (string, string, string) -> Outcome<string>, number: string -> Option<real>,
                    x: SearchView.Row)
    ensures x in Kept(articles, Entries(query, articles, chat, number), threshold) <==>
      x in articles && Keeps(Assess(query, x, chat, number), threshold)
  {
    var entries := Entries(query, articles, chat, number);
    KeptPositions(articles, entries, threshold, x);
    if x in articles {
      var i :| 0 <= i < |articles| && articles[i] == x;
      assert entries[i] == Assess(query, x, chat, number);
    }
  }

  /** A failed call never drops the article. */
  lemma FailOpen(query: string, articles: seq<SearchView.Row>, threshold: real,
                 chat: (string, string, string) -> Outcome<string>, number: string -> Option<real>,
                 x: SearchView.Row)
    requires x in articles && chat(query, x.title, Preview(x.content)).Fail?
    ensures x in Kept(articles, Entries(query, articles, chat, number), threshold)
  {
    KeptMembers(query, articles, threshold, chat, number, x);
  }

  /** A reply scoring exactly the default threshold keeps its article. */
  lemma ThresholdInclusive(query: string, articles: seq<SearchView.Row>,
                           chat: (string, string, string) -> Outcome<string>, number: string -> Option<real>,
                           x: SearchView.Row)
    requires x in articles && Assess(query, x, chat, number).score == Number(DefaultThreshold)
    ensures x in Kept(articles, Entries(query, articles, chat, number), DefaultThreshold)
  {
    KeptMembers(query, articles, DefaultThreshold, chat, number, x);
  }

  /** The entry under an id is the one of the last article with that id. */
  lemma {:induction false} AnalysisLatest(articles: seq<SearchView.Row>, entries: seq<Entry>, id: string)
    requires |entries| == |articles|
    ensures id in Analysis(articles, entries) ==>
      exists k :: 0 <= k < |articles| && articles[k].id == id
        && (forall j :: k < j < |articles| ==> articles[j].id != id)
        && Analysis(articles, entries)[id] == entries[k]
  {
    if |articles| > 0 {
      var n := |articles| - 1;
      AnalysisLatest(articles[..n], entries[..n], id);
      if articles[n].id != id && id in Analysis(articles, entries) {
        var k :| 0 <= k < n && articles[..n][k].id == id
          && (forall j :: k < j < n ==> articles[..n][j].id != id)
          && Analysis(articles[..n], entries[..n])[id] == entries[..n][k];
        assert articles[k] == articles[..n][k] && entries[k] == entries[..n][k];
        forall j | k < j < |articles| ensures articles[j].id != id {
          if j < n {
            assert articles[j] == articles[..n][j];
          }
        }
      }
    }
  }

  /** What the `check_relevance` tool returns: the score, or the JSON error
      text built from the failure message. */
  datatype ToolResult = ScoreValue(value: real) | ErrorJson(error: string)

  /** `check_relevance`: the model call sees the question and the preview;
      the reply is read exactly as the agent reads it. */
  function CheckRelevance(question: string, chunk: string, chat: (string, string) -> Outcome<string>,
                          number: string -> Option<real>): (r: ToolResult)
    ensures r.ScoreValue? <==> chat(question, Preview(chunk)).Ok?
    ensures r.ErrorJson? ==> r.error == chat(question, Preview(chunk)).message
  {
    match chat(question, Preview(chunk))
    case Ok(text) => ScoreValue(ParseReply(text, number).score)
    case Fail(message) => ErrorJson(message)
  }

  /** The tool and the agent agree: given the same reply, the tool's score
      is the score the agent records, 0.5 for a reply without a score line. */
  lemma ToolMatchesAgent(question: string, chunk: string, chat: (string, string) -> Outcome<string>,
                         number: string -> Option<real>, article: SearchView.Row,
                         agentChat: (string, string, string) -> Outcome<string>)
    requires article.content == chunk
    requires agentChat(question, article.title, Preview(chunk)) == chat(question, Preview(chunk))
    requires chat(question, Preview(chunk)).Ok?
    ensures Assess(question, article, agentChat, number).score == Number(CheckRelevance(question, chunk, chat, number).value)
    ensures !Contains(chat(question, Preview(chunk)).value, Marker) ==> CheckRelevance(question, chunk, chat, number).value == FallbackScore
  {
    var text := chat(question, Preview(chunk)).value;
    if !Contains(text, Marker) {
      ParseWithoutMarker(text, number);
    }
  }
}

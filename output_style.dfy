/** The output-style agent: the model names a presentation style for the
    answer, the reply is matched against the six known styles, and a
    summary is reformatted into the chosen style. The model's replies are
    parameters: their text, or the failure message of the call. */
module OutputStyle {
  import opened Wrappers
  import opened Text
  import SearchView

  /** The style keys, in the order of the agent's table. */
  const Styles: seq<string> := ["event_list", "summary_paragraph", "table_structure", "point_form", "question_answer", "timeline"]

  /** What each style is, as the formatting prompt describes it. */
  const Descriptions: map<string, string> := map[
    "event_list" := "A chronologically ordered list of events with dates",
    "summary_paragraph" := "A concise paragraph summarizing the key information",
    "table_structure" := "A structured table with dates, events, and outcomes",
    "point_form" := "A bulleted list of key information points",
    "question_answer" := "A Q&A format addressing key aspects of the topic",
    "timeline" := "A chronological timeline of events"
  ]

  /** The style used when the reply names none, or the call fails. */
  const DefaultStyle: string := "summary_paragraph"

  /** The description used for a style the table does not know. */
  const FallbackDescription: string := "concise summary"

  lemma StylesAreDescribed()
    ensures forall s :: s in Styles <==> s in Descriptions
    ensures DefaultStyle in Styles
  {
  }

  /** The first style of `styles` that occurs in `reply`, if any. */
  function FirstMentioned(styles: seq<string>, reply: string): (r: Option<nat>)
    ensures r.Some? ==> r.value < |styles| && Contains(reply, styles[r.value])
    ensures r.Some? ==> forall k :: 0 <= k < r.value ==> !Contains(reply, styles[k])
    ensures r.None? ==> forall k :: 0 <= k < |styles| ==> !Contains(reply, styles[k])
  {
    if |styles| == 0 then None
    else if Contains(reply, styles[0]) then Some(0)
    else match FirstMentioned(styles[1..], reply)
      case None => None
      case Some(k) => Some(k + 1)
  }

  /** `determine_output_style`: the first style, in table order, that the
      stripped, lowercased reply contains; the default otherwise and on a
      failed call. */
  function DetermineStyle(reply: Outcome<string>): (r: string)
    ensures r in Styles
    ensures reply.Fail? ==> r == DefaultStyle
  {
    match reply
    case Fail(_) => DefaultStyle
    case Ok(text) =>
      match FirstMentioned(Styles, Lower(Strip(text)))
      case Some(k) => Styles[k]
      case None => DefaultStyle
  }

  /** A style is chosen exactly when the reply names it and names no style
      before it in the table; the default also when it names none. */
  lemma ChosenStyle(text: string, k: nat)
    requires k < |Styles|
    ensures DetermineStyle(Ok(text)) == Styles[k] <==>
      (Contains(Lower(Strip(text)), Styles[k]) && forall j :: 0 <= j < k ==> !Contains(Lower(Strip(text)), Styles[j]))
      || (Styles[k] == DefaultStyle && forall j :: 0 <= j < |Styles| ==> !Contains(Lower(Strip(text)), Styles[j]))
  {
    var reply := Lower(Strip(text));
    match FirstMentioned(Styles, reply)
    case Some(i) =>
      if Styles[i] == Styles[k] && i != k {
        assert i < k || k < i;
        StyleNamesDistinct(i, k);
      }
    case None =>
      if DetermineStyle(Ok(text)) == Styles[k] {
        assert Styles[k] == DefaultStyle;
      }
  }

  lemma StyleNamesDistinct(i: nat, k: nat)
    requires i < |Styles| && k < |Styles| && i != k
    ensures Styles[i] != Styles[k]
  {
  }

  /** A style reply does not name an earlier style: each name occurs only in
      itself and in no later one. */
  lemma NoEarlierStyle(k: nat, j: nat)
    requires j < k < |Styles|
    ensures !Contains(Styles[k], Styles[j])
  {
    var s := Styles[k];
    var p := Styles[j];
    if |p| > |s| {
      TooLong(s, p);
    } else if j == 0 {
      // "event_list" has a 'v', which no later style has.
      LacksChar(s, p, 1);
    } else if j == 1 {
      // "summary_paragraph" is longer than every later style.
      assert false;
    } else if j == 2 {
      // "table_structure" has a 'b', which no later style has.
      LacksChar(s, p, 2);
    } else {
      // "point_form" has a 'p', which no later style has.
      assert j == 3;
      LacksChar(s, p, 0);
    }
  }

  /** A pattern longer than the text does not occur in it. */
  lemma TooLong(s: string, p: string)
    requires |p| > |s|
    ensures !Contains(s, p)
  {
  }

  /** The style names are made of lowercase letters and '_' only. */
  predicate Plain(s: string) {
    forall i :: 0 <= i < |s| ==> ('a' <= s[i] <= 'z') || s[i] == '_'
  }

  lemma StyleNamesPlain(k: nat)
    requires k < |Styles|
    ensures |Styles[k]| > 0 && Plain(Styles[k])
  {
  }

  /** Stripping and lowercasing leave a plain name alone. */
  lemma PlainUnchanged(s: string)
    requires |s| > 0 && Plain(s)
    ensures Lower(Strip(s)) == s
  {
    assert !IsSpace(s[0]) && !IsSpace(s[|s| - 1]);
    StripNoEdgeSpace(s);
  }

  /** Replying with exactly a style's name chooses that style. */
  lemma StyleRoundTrip(k: nat)
    requires k < |Styles|
    ensures DetermineStyle(Ok(Styles[k])) == Styles[k]
  {
    var s := Styles[k];
    StyleNamesPlain(k);
    PlainUnchanged(s);
    OccursAtStart(s);
    forall j | 0 <= j < k ensures !Contains(s, Styles[j]) {
      NoEarlierStyle(k, j);
    }
    ChosenStyle(s, k);
  }

  lemma OccursAtStart(s: string)
    ensures Contains(s, s)
  {
    assert OccursAt(s, s, 0);
  }

  /** `self.styles.get(style, 'concise summary')`. */
  function Description(style: string): (d: string)
    ensures style in Descriptions ==> d == Descriptions[style]
    ensures style !in Descriptions ==> d == FallbackDescription
  {
    if style in Descriptions then Descriptions[style] else FallbackDescription
  }

  /** A chosen style always has its own description, never the fallback. */
  lemma ChosenStyleDescribed(reply: Outcome<string>)
    ensures Description(DetermineStyle(reply)) == Descriptions[DetermineStyle(reply)]
    ensures Description(DetermineStyle(reply)) != FallbackDescription
  {
    StylesAreDescribed();
  }

  /** `format_summary`: the stripped reformatted text, or the summary
      unchanged when the call fails. */
  function FormatSummary(summary: string, reply: Outcome<string>): (r: string)
    ensures reply.Fail? ==> r == summary
    ensures reply.Ok? ==> r == Strip(reply.value)
  {
    match reply
    case Fail(_) => summary
    case Ok(text) => Strip(text)
  }

  /** How many result titles the context mentions. */
  const ContextTitles: nat := 3

  /** The user message of `determine_output_style`: the query, then the
      titles of at most the first three results when there are any. */
  function Context(query: string, results: seq<SearchView.Row>): string
  {
    var n := if |results| < ContextTitles then |results| else ContextTitles;
    "User query: " + query + "\n\n"
      + if |results| == 0 then ""
        else "Search returned articles about: " + Join(seq(n, i requires 0 <= i < n => results[i].title), ", ") + "\n"
  }

  /** The context is built by appending to the query line. */
  method BuildContext(query: string, results: seq<SearchView.Row>) returns (context: string)
    ensures context == Context(query, results)
  {
    context := "User query: " + query + "\n\n";
    if |results| > 0 {
      context := context + "Search returned articles about: ";
      var n := if |results| < ContextTitles then |results| else ContextTitles;
      var titles := seq(n, i requires 0 <= i < n => results[i].title);
      context := context + Join(titles, ", ") + "\n";
    }
  }

  /** Results after the third never reach the context. */
  lemma ContextFirstThree(query: string, results: seq<SearchView.Row>)
    requires |results| >= ContextTitles
    ensures Context(query, results) == Context(query, results[..ContextTitles])
  {
    var a := seq(ContextTitles, i requires 0 <= i < ContextTitles => results[i].title);
    var b := seq(ContextTitles, i requires 0 <= i < ContextTitles => results[..ContextTitles][i].title);
    assert a == b;
  }
}

/** The fact-verification agent: it pulls "CLAIM:" lines out of a model
    reply, asks the model about every article once for all claims, turns each
    reply into one verification record per claim, and aggregates the records
    of every distinct claim into a verdict line
    "{claim} - {links} : ({verdict})". The model's replies are inputs. */
module FactVerification {
  import opened Wrappers
  import opened Text
  import opened Lists

  // ---------------------------------------------------------------------
  // Claim extraction

  /** A reply line announces a claim when, stripped, it starts with "CLAIM:". */
  predicate IsClaimLine(line: string) {
    StartsWith(Strip(line), "CLAIM:")
  }

  /** Every "CLAIM: " (with its space) is removed, then the line is stripped. */
  function ClaimText(line: string): string {
    Strip(ReplaceAll(line, "CLAIM: ", ""))
  }

  predicate IsStripped(s: string) {
    s == [] || (!IsSpace(s[0]) && !IsSpace(s[|s| - 1]))
  }

  /** The claims of the claim lines, in line order. */
  function ClaimsOfLines(lines: seq<string>): (r: seq<string>)
    ensures |r| <= |lines|
  {
    if |lines| == 0 then []
    else
      var init := ClaimsOfLines(lines[..|lines| - 1]);
      var last := lines[|lines| - 1];
      if IsClaimLine(last) then init + [ClaimText(last)] else init
  }

  /** `extract_claims_from_summary`: the claims of the reply's lines, or no
      claims at all when the call failed. */
  function ExtractClaims(reply: Outcome<string>): (r: seq<string>)
    ensures reply.Fail? ==> r == []
    ensures reply.Ok? ==> |r| <= |Split(reply.value, "\n")|
  {
    match reply
    case Fail(_) => []
    case Ok(text) => ClaimsOfLines(Split(text, "\n"))
  }

  lemma {:induction false} ClaimsOfLinesStripped(lines: seq<string>)
    ensures forall k :: 0 <= k < |ClaimsOfLines(lines)| ==> IsStripped(ClaimsOfLines(lines)[k])
  {
    if |lines| > 0 {
      ClaimsOfLinesStripped(lines[..|lines| - 1]);
    }
  }

  /** Every extracted claim is stripped. */
  lemma ExtractedClaimsStripped(reply: Outcome<string>)
    ensures forall k :: 0 <= k < |ExtractClaims(reply)| ==> IsStripped(ExtractClaims(reply)[k])
  {
    if reply.Ok? {
      ClaimsOfLinesStripped(Split(reply.value, "\n"));
    }
  }

  lemma {:induction false} NoClaimLinesNoClaims(lines: seq<string>)
    requires forall k :: 0 <= k < |lines| ==> !IsClaimLine(lines[k])
    ensures ClaimsOfLines(lines) == []
  {
    if |lines| > 0 {
      NoClaimLinesNoClaims(lines[..|lines| - 1]);
    }
  }

  /** A reply without "CLAIM:" anywhere yields no claims. */
  lemma NoMarkerNoClaims(text: string)
    requires !Contains(text, "CLAIM:")
    ensures ExtractClaims(Ok(text)) == []
  {
    ClaimsWithoutMarker(text, Split(text, "\n"));
    NoClaimLinesNoClaims(Split(text, "\n"));
  }

  /** A line of a reply without "CLAIM:" cannot be a claim line. */
  lemma ClaimsWithoutMarker(text: string, lines: seq<string>)
    requires lines == Split(text, "\n")
    ensures !Contains(text, "CLAIM:") ==> forall k :: 0 <= k < |lines| ==> !IsClaimLine(lines[k])
  {
    forall k | 0 <= k < |lines| ensures IsClaimLine(lines[k]) ==> Contains(text, "CLAIM:") {
      if IsClaimLine(lines[k]) {
        assert OccursAt(Strip(lines[k]), "CLAIM:", 0);
        ContainsAt(Strip(lines[k]), "CLAIM:", 0);
        StripContains(lines[k], "CLAIM:");
        SplitPieceContains(text, "\n", k, "CLAIM:");
      }
    }
  }

  /** A reply written as one "CLAIM: {c}" line per claim. */
  function ClaimLines(cs: seq<string>): (r: seq<string>)
    ensures |r| == |cs|
    ensures forall k :: 0 <= k < |cs| ==> r[k] == "CLAIM: " + cs[k]
  {
    seq(|cs|, k requires 0 <= k < |cs| => "CLAIM: " + cs[k])
  }

  /** A claim that survives extraction unchanged: stripped, on one line, and
      without the "CLAIM: " marker. */
  predicate PlainClaim(c: string) {
    IsStripped(c) && !Contains(c, "\n") && !Contains(c, "CLAIM: ")
  }

  lemma ClaimLineRoundTrip(c: string)
    requires PlainClaim(c)
    ensures IsClaimLine("CLAIM: " + c)
    ensures ClaimText("CLAIM: " + c) == c
  {
    var line := "CLAIM: " + c;
    assert line[..6] == "CLAIM:";
    StripKeepsPrefix(line, "CLAIM:");
    ReplaceAllAtStart("CLAIM: ", c, "");
    ReplaceAllAbsent(c, "CLAIM: ", "");
    StripNoEdgeSpace(c);
  }

  lemma {:induction false} ClaimsOfClaimLines(cs: seq<string>)
    requires forall k :: 0 <= k < |cs| ==> PlainClaim(cs[k])
    ensures ClaimsOfLines(ClaimLines(cs)) == cs
  {
    if |cs| > 0 {
      var init := cs[..|cs| - 1];
      assert ClaimLines(cs)[..|cs| - 1] == ClaimLines(init);
      ClaimsOfClaimLines(init);
      ClaimLineRoundTrip(cs[|cs| - 1]);
    }
  }

  /** Round trip: a reply made of one "CLAIM: {c}" line per claim yields
      exactly those claims, in order. */
  lemma ExtractClaimsRoundTrip(cs: seq<string>)
    requires forall k :: 0 <= k < |cs| ==> PlainClaim(cs[k])
    ensures ExtractClaims(Ok(Join(ClaimLines(cs), "\n"))) == cs
  {
    var lines := ClaimLines(cs);
    if |cs| == 0 {
      assert Find("", "\n") == None;
      assert Split("", "\n") == [""];
    } else {
      forall k | 0 <= k < |lines| ensures !Contains(lines[k], "\n") {
        NotContainsChar("CLAIM: ", '\n');
        NoStraddleSingle("CLAIM: ", cs[k], "\n");
        NotContainsConcat("CLAIM: ", cs[k], "\n");
      }
      forall k | 0 <= k < |lines| - 1
        ensures NoStraddle(lines[k], "\n" + Join(lines[k + 1..], "\n"), "\n")
      {
        NoStraddleSingle(lines[k], "\n" + Join(lines[k + 1..], "\n"), "\n");
      }
      SplitJoin(lines, "\n");
      ClaimsOfClaimLines(cs);
    }
  }

  /** Only "CLAIM: " with its space is removed: "CLAIM:x" is a claim line
      whose claim keeps the marker. */
  lemma MarkerWithoutSpaceKept()
    ensures IsClaimLine("CLAIM:x")
    ensures ClaimText("CLAIM:x") == "CLAIM:x"
  {
    MarkerWithoutSpaceIsClaim();
    MarkerWithoutSpaceText();
  }

  lemma MarkerWithoutSpaceIsClaim()
    ensures IsClaimLine("CLAIM:x")
  {
    var line := "CLAIM:x";
    assert line[..6] == "CLAIM:";
    StripKeepsPrefix(line, "CLAIM:");
  }

  lemma MarkerWithoutSpaceText()
    ensures ClaimText("CLAIM:x") == "CLAIM:x"
  {
    var line := "CLAIM:x";
    MarkerAbsent(line);
    ReplaceAllAbsent(line, "CLAIM: ", "");
    StripNoEdgeSpace(line);
  }

  lemma MarkerAbsent(line: string)
    requires line == "CLAIM:x"
    ensures !Contains(line, "CLAIM: ")
  {
    var marker := "CLAIM: ";
    forall j ensures !OccursAt(line, marker, j) {
      if j == 0 { assert line[6] != marker[6]; }
    }
  }

  // ---------------------------------------------------------------------
  // Verification of the claims against one article

  /** The four support levels the model may name, plus the two the agent
      records itself. */
  datatype Level = DirectlySupported | IndirectlySupported | NotSupported | Contradicted
                 | Unknown | Error

  function LevelName(l: Level): string {
    match l
    case DirectlySupported => "DIRECTLY SUPPORTED"
    case IndirectlySupported => "INDIRECTLY SUPPORTED"
    case NotSupported => "NOT SUPPORTED"
    case Contradicted => "CONTRADICTED"
    case Unknown => "UNKNOWN"
    case Error => "ERROR"
  }

  predicate IsModelLevel(l: Level) {
    l == DirectlySupported || l == IndirectlySupported || l == NotSupported || l == Contradicted
  }

  const Token := "VERIFICATION:"

  /** The level named right after the (optional) whitespace that follows a
      "VERIFICATION:" token, if any. */
  function LevelAfter(rest: string): (r: Option<Level>)
    ensures r.Some? ==> IsModelLevel(r.value) && StartsWith(LStrip(rest), LevelName(r.value))
    ensures r.None? ==> forall l :: IsModelLevel(l) ==> !StartsWith(LStrip(rest), LevelName(l))
  {
    var t := LStrip(rest);
    if StartsWith(t, "DIRECTLY SUPPORTED") then Some(DirectlySupported)
    else if StartsWith(t, "INDIRECTLY SUPPORTED") then Some(IndirectlySupported)
    else if StartsWith(t, "NOT SUPPORTED") then Some(NotSupported)
    else if StartsWith(t, "CONTRADICTED") then Some(Contradicted)
    else None
  }

  /** What the status pattern matches when the search tries index `i`. */
  function MatchAt(s: string, i: int): Option<Level> {
    if 0 <= i <= |s| && StartsWith(s[i..], Token) then LevelAfter(s[i + |Token|..]) else None
  }

  /** The leftmost index from `i` on where the status pattern matches. */
  function FirstMatch(s: string, i: nat): (r: Option<nat>)
    ensures r.Some? ==> i <= r.value && MatchAt(s, r.value).Some?
    ensures r.Some? ==> forall m :: i <= m < r.value ==> MatchAt(s, m).None?
    ensures r.None? ==> forall k :: i <= k ==> MatchAt(s, k).None?
    decreases |s| + 1 - i
  {
    if i > |s| then None
    else if MatchAt(s, i).Some? then Some(i)
    else FirstMatch(s, i + 1)
  }

  /** The support level of a section: the level of the leftmost
      "VERIFICATION:" that is followed by whitespace and one of the four
      levels, or UNKNOWN when there is none. */
  function SectionLevel(section: string): (r: Level)
    ensures r == Unknown || IsModelLevel(r)
    ensures r == Unknown <==> forall k :: MatchAt(section, k).None?
    ensures r != Unknown ==> exists k :: MatchAt(section, k) == Some(r)
                                         && forall m :: 0 <= m < k ==> MatchAt(section, m).None?
  {
    match FirstMatch(section, 0)
    case None => Unknown
    case Some(k) => MatchAt(section, k).value
  }

  lemma MatchAtOccurs(s: string, k: int)
    ensures MatchAt(s, k).Some? ==> OccursAt(s, Token, k)
  {
    if MatchAt(s, k).Some? {
      assert s[k..k + |Token|] == s[k..][..|Token|];
    }
  }

  lemma NoTokenUnknown(section: string)
    requires !Contains(section, Token)
    ensures SectionLevel(section) == Unknown
  {
    forall k ensures MatchAt(section, k).None? {
      MatchAtOccurs(section, k);
    }
  }

  /** The reasoning of a section: the stripped text before its first
      "VERIFICATION:", or the whole section when the token is absent. */
  function Reasoning(section: string): (r: string)
    ensures !Contains(r, Token)
    ensures !Contains(section, Token) ==> r == section
    ensures Contains(section, Token) ==> IsStripped(r) && |r| < |section|
  {
    match Find(section, Token)
    case None => section
    case Some(i) =>
      NotContainsPrefix(section, Token, i);
      StripContains(section[..i], Token);
      Strip(section[..i])
  }

  /** The reasoning is `section.split("VERIFICATION:")[0].strip()`: the
      stripped text before the first occurrence of the token. */
  lemma ReasoningBeforeToken(section: string, i: nat)
    requires OccursAt(section, Token, i)
    requires forall k :: 0 <= k < i ==> !OccursAt(section, Token, k)
    ensures Reasoning(section) == Strip(section[..i])
  {
    var f := Find(section, Token);
    assert f.Some? && f.value == i;
  }

  /** The label the agent looks for in the sections of claim `j` (0-based). */
  function ClaimLabel(j: nat): string {
    "Claim " + NatToString(j + 1)
  }

  /** The index of the first section containing `label`. */
  function FirstSectionWith(sections: seq<string>, tag: string): (r: Option<nat>)
    ensures r.Some? ==> r.value < |sections| && Contains(sections[r.value], tag)
    ensures r.Some? ==> forall k :: 0 <= k < r.value ==> !Contains(sections[k], tag)
    ensures r.None? ==> forall k :: 0 <= k < |sections| ==> !Contains(sections[k], tag)
  {
    if |sections| == 0 then None
    else if Contains(sections[0], tag) then Some(0)
    else match FirstSectionWith(sections[1..], tag)
      case None => None
      case Some(k) => Some(k + 1)
  }

  /** The section for claim `j`: the first one labelled "Claim {j+1}", else
      section `j` by position, else the empty text. */
  function SectionFor(sections: seq<string>, j: nat): (r: string)
    ensures r == "" || r in sections
    ensures Contains(r, ClaimLabel(j)) || r == "" || (j < |sections| && r == sections[j])
    ensures (exists k :: 0 <= k < |sections| && Contains(sections[k], ClaimLabel(j))) ==> Contains(r, ClaimLabel(j))
    ensures (forall k :: 0 <= k < |sections| ==> !Contains(sections[k], ClaimLabel(j))) ==>
              r == (if j < |sections| then sections[j] else "")
  {
    match FirstSectionWith(sections, ClaimLabel(j))
    case Some(k) => sections[k]
    case None => if j < |sections| then sections[j] else ""
  }

  /** The section taken is the first one that holds the label. */
  lemma SectionForFirst(sections: seq<string>, j: nat, k: nat)
    requires k < |sections| && Contains(sections[k], ClaimLabel(j))
    requires forall m :: 0 <= m < k ==> !Contains(sections[m], ClaimLabel(j))
    ensures SectionFor(sections, j) == sections[k]
  {
    var f := FirstSectionWith(sections, ClaimLabel(j));
    assert f.Some?;
    assert f.value == k;
  }

  /** The label "Claim 1" also matches inside "Claim 10". */
  lemma LabelPrefixClash()
    ensures SectionFor(["Claim 10: x", "Claim 1: y"], 0) == "Claim 10: x"
  {
    assert ClaimLabel(0) == "Claim 1";
    assert OccursAt("Claim 10: x", "Claim 1", 0);
    ContainsAt("Claim 10: x", "Claim 1", 0);
  }

  /** The article fields the records carry, with the agent's defaults. */
  datatype ArticleInfo = ArticleInfo(id: string, title: string, source: string, url: string)

  function InfoOf(article: map<string, string>, i: nat): (a: ArticleInfo)
    ensures "ID" !in article ==> a.id == "article_" + NatToString(i)
    ensures "Source" !in article ==> a.source == "Unknown"
    ensures "URL" !in article ==> a.url == "#"
    ensures "Title" !in article ==> a.title == "Untitled"
    ensures "ID" in article ==> a.id == article["ID"]
    ensures "Source" in article ==> a.source == article["Source"]
    ensures "URL" in article ==> a.url == article["URL"]
    ensures "Title" in article ==> a.title == article["Title"]
  {
    ArticleInfo(GetOr(article, "ID", "article_" + NatToString(i)),
                GetOr(article, "Title", "Untitled"),
                GetOr(article, "Source", "Unknown"),
                GetOr(article, "URL", "#"))
  }

  datatype Record = Record(article: ArticleInfo, status: Level, reasoning: string)

  /** The record for claim `j` out of one article's reply sections. */
  function SectionRecord(a: ArticleInfo, sections: seq<string>, j: nat): (r: Record)
    ensures r.article == a
    ensures r.status == Unknown || IsModelLevel(r.status)
    ensures SectionFor(sections, j) == "" ==>
              r.status == Unknown && r.reasoning == "Could not extract verification for this claim"
    ensures SectionFor(sections, j) != "" ==>
              r.status == SectionLevel(SectionFor(sections, j)) && r.reasoning == Reasoning(SectionFor(sections, j))
  {
    var section := SectionFor(sections, j);
    if section != "" then Record(a, SectionLevel(section), Reasoning(section))
    else Record(a, Unknown, "Could not extract verification for this claim")
  }

  /** The record for claim `j` out of one article's reply (or its failure). */
  function ClaimRecord(a: ArticleInfo, reply: Outcome<string>, j: nat): (r: Record)
    ensures r.article == a
    ensures r.status == Error <==> reply.Fail?
    ensures reply.Fail? ==> r.reasoning == "Error during verification: " + reply.message
    ensures reply.Ok? ==> r == SectionRecord(a, Split(reply.value, "---"), j)
  {
    match reply
    case Fail(e) => Record(a, Error, "Error during verification: " + e)
    case Ok(text) => SectionRecord(a, Split(text, "---"), j)
  }

  /** An article together with the model's reply to the prompt about it. */
  datatype Checked = Checked(article: map<string, string>, reply: Outcome<string>)

  /** The record of every claim position for one article and reply. */
  function Recorder(a: ArticleInfo, reply: Outcome<string>): nat -> Record {
    (j: nat) => ClaimRecord(a, reply, j)
  }

  /** The records one article contributes to the key `c`: the record of
      every position among the first `n` claims that holds `c`. */
  function ArticleRecords(claims: seq<string>, n: nat, c: string, record: nat -> Record): seq<Record>
    requires n <= |claims|
  {
    if n == 0 then []
    else
      ArticleRecords(claims, n - 1, c, record)
      + (if claims[n - 1] == c then [record(n - 1)] else [])
  }

  lemma {:induction false} ArticleRecordsCount(claims: seq<string>, n: nat, c: string, record: nat -> Record)
    requires n <= |claims|
    ensures |ArticleRecords(claims, n, c, record)| == Count(claims[..n], c)
  {
    if n > 0 {
      ArticleRecordsCount(claims, n - 1, c, record);
      assert claims[..n][..n - 1] == claims[..n - 1];
    }
  }

  /** The records the key `c` holds after the first `m` articles. */
  function ClaimRecords(claims: seq<string>, checked: seq<Checked>, m: nat, c: string): seq<Record>
    requires m <= |checked|
  {
    if m == 0 then []
    else
      ClaimRecords(claims, checked, m - 1, c)
      + ArticleRecords(claims, |claims|, c, Recorder(InfoOf(checked[m - 1].article, m - 1), checked[m - 1].reply))
  }

  /** A claim that occurs several times is one key that collects one record
      per occurrence per article. */
  lemma {:induction false} ClaimRecordsCount(claims: seq<string>, checked: seq<Checked>, m: nat, c: string)
    requires m <= |checked|
    ensures |ClaimRecords(claims, checked, m, c)| == m * Count(claims, c)
  {
    if m > 0 {
      ClaimRecordsCount(claims, checked, m - 1, c);
      ArticleRecordsCount(claims, |claims|, c, Recorder(InfoOf(checked[m - 1].article, m - 1), checked[m - 1].reply));
      assert claims[..|claims|] == claims;
      var n := Count(claims, c);
      assert (m - 1) * n + n == m * n;
    }
  }

  // ---------------------------------------------------------------------
  // Aggregation

  predicate Supports(r: Record) {
    r.status == DirectlySupported || r.status == IndirectlySupported
  }

  /** "[source](url)" for a supporting record. */
  function Link(r: Record): string {
    "[" + r.article.source + "](" + r.article.url + ")"
  }

  /** The links of the supporting records, in record order. */
  function SupportLinks(recs: seq<Record>): (r: seq<string>)
    ensures |r| <= |recs|
    ensures forall l :: l in r ==> exists rec :: rec in recs && Supports(rec) && l == Link(rec)
    ensures forall rec :: rec in recs && Supports(rec) ==> Link(rec) in r
  {
    if |recs| == 0 then []
    else
      var init := recs[..|recs| - 1];
      var last := recs[|recs| - 1];
      assert recs == init + [last];
      SupportLinks(init) + (if Supports(last) then [Link(last)] else [])
  }

  datatype Verdict = Verified | PartiallyVerified | NotVerified

  /** Two or more supporting articles verify a claim, one partially verifies it. */
  function VerdictFor(support: nat): Verdict {
    if support >= 2 then Verified
    else if support == 1 then PartiallyVerified
    else NotVerified
  }

  function VerdictName(v: Verdict): string {
    match v
    case Verified => "Verified"
    case PartiallyVerified => "Partially Verified"
    case NotVerified => "Not Verified"
  }

  /** The links joined by ", ", or the fixed text "No supporting articles". */
  function LinksText(links: seq<string>): string {
    if |links| == 0 then "No supporting articles" else Join(links, ", ")
  }

  /** "{claim} - {links text} : ({verdict})". */
  function ResultLine(claim: string, links: seq<string>): string {
    claim + " - " + LinksText(links) + " : (" + VerdictName(VerdictFor(|links|)) + ")"
  }

  /** No supporting record leaves a claim without links, hence Not Verified. */
  lemma {:induction false} NoSupportNoLinks(recs: seq<Record>)
    ensures |SupportLinks(recs)| == 0 <==> forall i :: 0 <= i < |recs| ==> !Supports(recs[i])
  {
    if |recs| > 0 {
      var init := recs[..|recs| - 1];
      NoSupportNoLinks(init);
      assert forall i :: 0 <= i < |init| ==> init[i] == recs[i];
    }
  }

  lemma {:induction false} TwoSupportsTwoLinks(recs: seq<Record>, i: nat, j: nat)
    requires i < j < |recs| && Supports(recs[i]) && Supports(recs[j])
    ensures |SupportLinks(recs)| >= 2
  {
    var init := recs[..|recs| - 1];
    if j < |recs| - 1 {
      assert init[i] == recs[i] && init[j] == recs[j];
      TwoSupportsTwoLinks(init, i, j);
    } else {
      assert init[i] == recs[i];
      NoSupportNoLinks(init);
    }
  }

  lemma {:induction false} TwoLinksTwoSupports(recs: seq<Record>) returns (i: nat, j: nat)
    requires |SupportLinks(recs)| >= 2
    ensures i < j < |recs| && Supports(recs[i]) && Supports(recs[j])
  {
    var init := recs[..|recs| - 1];
    var last := recs[|recs| - 1];
    if Supports(last) {
      NoSupportNoLinks(init);
      var k :| 0 <= k < |init| && Supports(init[k]);
      i, j := k, |recs| - 1;
    } else {
      i, j := TwoLinksTwoSupports(init);
    }
  }

  /** Two supporting records make a claim Verified, none leave it Not
      Verified, and a single one makes it Partially Verified. */
  lemma VerdictOfRecords(recs: seq<Record>)
    ensures VerdictFor(|SupportLinks(recs)|) == Verified <==>
              exists i, j :: 0 <= i < j < |recs| && Supports(recs[i]) && Supports(recs[j])
    ensures VerdictFor(|SupportLinks(recs)|) == NotVerified <==>
              forall i :: 0 <= i < |recs| ==> !Supports(recs[i])
  {
    NoSupportNoLinks(recs);
    if |SupportLinks(recs)| >= 2 {
      var i, j := TwoLinksTwoSupports(recs);
    }
    forall i, j | 0 <= i < j < |recs| && Supports(recs[i]) && Supports(recs[j])
      ensures |SupportLinks(recs)| >= 2
    {
      TwoSupportsTwoLinks(recs, i, j);
    }
  }

  lemma ResultLineNoSupport(c: string)
    ensures ResultLine(c, []) == c + " - " + "No supporting articles" + " : (" + "Not Verified" + ")"
  {
  }

  /** The lines `verify_claims_in_articles` returns: one per distinct claim,
      in the order claims first occur. */
  function Results(claims: seq<string>, checked: seq<Checked>): (r: seq<string>)
    ensures |r| == |Dedup(claims)|
  {
    var keys := Dedup(claims);
    seq(|keys|, k requires 0 <= k < |keys| => ResultLine(keys[k], SupportLinks(ClaimRecords(claims, checked, |checked|, keys[k]))))
  }

  lemma NoClaimsNoResults(checked: seq<Checked>)
    ensures Results([], checked) == []
  {
  }

  /** With no articles every claim is left without support. */
  lemma NoArticlesNotVerified(claims: seq<string>)
    ensures forall k :: 0 <= k < |Results(claims, [])| ==>
              Results(claims, [])[k] == Dedup(claims)[k] + " - " + "No supporting articles" + " : (" + "Not Verified" + ")"
  {
    forall k | 0 <= k < |Results(claims, [])| {
      ResultLineNoSupport(Dedup(claims)[k]);
    }
  }

  /** One article's turn in `verify_claims_in_articles`: one record is
      appended to the list of every claim position, all of them ERROR records
      when the call failed. */
  method AddArticleRecords(table: map<string, seq<Record>>, claims: seq<string>, a: ArticleInfo, reply: Outcome<string>)
    returns (table': map<string, seq<Record>>)
    requires forall c :: c in claims ==> c in table
    ensures forall c :: c in claims ==> (c in table' && table'[c] == table[c] + ArticleRecords(claims, |claims|, c, Recorder(a, reply)))
  {
    match reply {
      case Ok(text) =>
        table' := AddSectionRecords(table, claims, a, text);
      case Fail(e) =>
        table' := AddErrorRecords(table, claims, a, e);
    }
  }

  /** The record of claim position `j` is appended to the list of its
      claim; every other list is left as it was. */
  method AppendRecord(ghost table: map<string, seq<Record>>, current: map<string, seq<Record>>, claims: seq<string>,
                      j: nat, ghost record: nat -> Record, rec: Record)
    returns (next: map<string, seq<Record>>)
    requires j < |claims| && rec == record(j)
    requires forall c :: c in claims ==> c in table
    requires forall c :: c in claims ==> (c in current && current[c] == table[c] + ArticleRecords(claims, j, c, record))
    ensures forall c :: c in claims ==> (c in next && next[c] == table[c] + ArticleRecords(claims, j + 1, c, record))
  {
    next := current[claims[j] := current[claims[j]] + [rec]];
    forall c | c in claims
      ensures c in next && next[c] == table[c] + ArticleRecords(claims, j + 1, c, record)
    {
      AppendKey(table, current, claims, j, record, rec, c);
    }
  }

  /** The step above for one key. */
  lemma AppendKey(table: map<string, seq<Record>>, current: map<string, seq<Record>>, claims: seq<string>,
                  j: nat, record: nat -> Record, rec: Record, c: string)
    requires j < |claims| && rec == record(j)
    requires c in table && c in current && current[c] == table[c] + ArticleRecords(claims, j, c, record)
    requires claims[j] in current
    ensures var next := current[claims[j] := current[claims[j]] + [rec]];
      c in next && next[c] == table[c] + ArticleRecords(claims, j + 1, c, record)
  {
    var next := current[claims[j] := current[claims[j]] + [rec]];
    if c == claims[j] {
      assert next[c] == current[c] + [rec];
      AppendAssoc(table[c], ArticleRecords(claims, j, c, record), [rec]);
    } else {
      assert next[c] == current[c];
    }
  }

  /** The reply is split into "---" sections and every claim position gets
      the record of its section. */
  method AddSectionRecords(table: map<string, seq<Record>>, claims: seq<string>, a: ArticleInfo, text: string)
    returns (table': map<string, seq<Record>>)
    requires forall c :: c in claims ==> c in table
    ensures forall c :: c in claims ==> (c in table' && table'[c] == table[c] + ArticleRecords(claims, |claims|, c, Recorder(a, Ok(text))))
  {
    table' := table;
    var sections := Split(text, "---");
    var j := 0;
    while j < |claims|
      invariant 0 <= j <= |claims|
      invariant forall c :: c in claims ==> (c in table' && table'[c] == table[c] + ArticleRecords(claims, j, c, Recorder(a, Ok(text))))
    {
      var rec := SectionRecord(a, sections, j);
      table' := AppendRecord(table, table', claims, j, Recorder(a, Ok(text)), rec);
      j := j + 1;
    }
  }

  /** A failed call gives every claim position an ERROR record. */
  method AddErrorRecords(table: map<string, seq<Record>>, claims: seq<string>, a: ArticleInfo, e: string)
    returns (table': map<string, seq<Record>>)
    requires forall c :: c in claims ==> c in table
    ensures forall c :: c in claims ==> (c in table' && table'[c] == table[c] + ArticleRecords(claims, |claims|, c, Recorder(a, Fail(e))))
  {
    table' := table;
    var j := 0;
    while j < |claims|
      invariant 0 <= j <= |claims|
      invariant forall c :: c in claims ==> (c in table' && table'[c] == table[c] + ArticleRecords(claims, j, c, Recorder(a, Fail(e))))
    {
      var rec := Record(a, Error, "Error during verification: " + e);
      table' := AppendRecord(table, table', claims, j, Recorder(a, Fail(e)), rec);
      j := j + 1;
    }
  }

  /** The verdict line of one claim, with the support links gathered in a loop. */
  method AggregateClaim(claim: string, recs: seq<Record>) returns (line: string)
    ensures line == ResultLine(claim, SupportLinks(recs))
  {
    var links: seq<string> := [];
    var n := 0;
    while n < |recs|
      invariant 0 <= n <= |recs|
      invariant links == SupportLinks(recs[..n])
    {
      assert recs[..n + 1][..n] == recs[..n];
      if recs[n].status == DirectlySupported || recs[n].status == IndirectlySupported {
        links := links + ["[" + recs[n].article.source + "](" + recs[n].article.url + ")"];
      }
      n := n + 1;
    }
    assert recs[..n] == recs;
    var status := if |links| >= 2 then "Verified" else if |links| == 1 then "Partially Verified" else "Not Verified";
    if |links| > 0 {
      line := claim + " - " + Join(links, ", ") + " : (" + status + ")";
    } else {
      line := claim + " - " + "No supporting articles" + " : (" + status + ")";
    }
  }

  /** The first half of `verify_claims_in_articles`: a table from every
      claim to its records, filled article by article. */
  method CollectRecords(claims: seq<string>, checked: seq<Checked>) returns (table: map<string, seq<Record>>)
    ensures forall c :: c in claims ==> (c in table && table[c] == ClaimRecords(claims, checked, |checked|, c))
  {
    table := map c | c in claims :: [];
    var i := 0;
    while i < |checked|
      invariant 0 <= i <= |checked|
      invariant forall c :: c in claims ==> (c in table && table[c] == ClaimRecords(claims, checked, i, c))
    {
      var a := InfoOf(checked[i].article, i);
      table := AddArticleRecords(table, claims, a, checked[i].reply);
      i := i + 1;
    }
  }

  /** `verify_claims_in_articles`: the records are collected in a table from
      each distinct claim to its list, then every key is turned into its
      verdict line in the order the keys were created. */
  method VerifyClaimsInArticles(claims: seq<string>, checked: seq<Checked>) returns (results: seq<string>)
    ensures results == Results(claims, checked)
  {
    var table := CollectRecords(claims, checked);
    var keys := Dedup(claims);
    results := [];
    var k := 0;
    while k < |keys|
      invariant 0 <= k <= |keys|
      invariant results == Results(claims, checked)[..k]
    {
      results := AggregateNext(claims, checked, table, keys, k, results);
      k := k + 1;
    }
    PrefixAll(Results(claims, checked));
  }

  /** The verdict line of the next key is appended. */
  method AggregateNext(claims: seq<string>, checked: seq<Checked>, table: map<string, seq<Record>>,
                       keys: seq<string>, k: nat, results: seq<string>)
    returns (results': seq<string>)
    requires keys == Dedup(claims) && k < |keys|
    requires forall c :: c in claims ==> (c in table && table[c] == ClaimRecords(claims, checked, |checked|, c))
    requires results == Results(claims, checked)[..k]
    ensures results' == Results(claims, checked)[..k + 1]
  {
    assert keys[k] in claims;
    var line := AggregateClaim(keys[k], table[keys[k]]);
    assert line == Results(claims, checked)[k];
    PrefixSnoc(Results(claims, checked), k);
    results' := results + [line];
  }
}

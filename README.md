# News QA pipeline: a verified model of its deterministic core

The system answers questions about Sri Lankan news. Three scrapers collect articles into MongoDB: News 1st, newswire.lk and Ada Derana. A migration job moves the articles into a Pinecone vector index, and a duplicate remover cleans the collections. Two Streamlit pages search the index, and a chain of language-model "agents" works on what they find:
- it refines the query;
- it extracts entities to filter on;
- it filters the matches by relevance;
- it picks an output style;
- it summarises;
- it checks the summary's claims against the articles.

Almost every step wraps a remote call: OpenAI chat completions, sentence embeddings, Pinecone, MongoDB or HTTP. This project models every such call as an input to the code, either a successful value (reply text, index matches, stored documents) or a failure. Where the code carries on after a failed call, the model also says which call fails. It then proves properties of the code that turns those inputs into results.

One Dafny module models each core source file:
- `FactVerification`: claim extraction, section matching, support levels, verdicts and result lines.
- `Relevance`: score parsing, the inclusive threshold, the fail-open path and the analysis map.
- `QueryRefinement`: the three-times length guard.
- `OutputStyle`: style selection and the formatting fallback.
- `EntityExtractionAgent`, `EntityExtraction` and `EntityExtractionLocal`: the three entity extractors.
- `SearchView`: ranking, result rows, the metadata filter, the summary prompt, and the ordering and parsing of verdict lines in the two search pages.
- `Dates`: `parse_date` and `vectorize_text`.
- `Migration` and `MigrateMain`: the migration of one collection and its driver.
- `RemoveDuplicates`: the duplicate remover.
- `NewsFirst`, `NewsWire` and `Adaderana`: the three scrapers.

Shared modules:
- `Wrappers`: call outcomes.
- `Text`: Python string operations over `seq<char>`.
- `Lists`: first-occurrence dedup and flattening.
- `Sorting`: Python's stable `sorted`.
- `Calendar`: dates, and the subset of `strptime`/`strftime` that is used.
- `Days`: day arithmetic by proleptic Gregorian ordinal.
- `DayLoop`: the day-by-day date loop both scrapers use.

Code that updates state step by step is modelled with methods whose loops carry invariants. Each such method is proved against a specification function, and lemmas state the properties of those functions:
- the duplicate remover works on a `Collection` class whose document sequence `delete_many` reassigns;
- the batch loops, the extraction loops and the result accumulators are `while`/`for` loops over sequences.

Pure code is modelled as functions and lemmas.

## Model

| member | source | states |
|---|---|---|
| QueryRefinement.RefineQuery | query_refinement_agent.py:35-45 | the result is the original query or the stripped reply, and never longer than three times the original; the stripped reply is kept exactly when its length is at most three times the original's (equal is accepted), the original otherwise and on a failed call |
| QueryRefinement.RefineIdempotent | query_refinement_agent.py:35-41 | guarding the accepted rewrite again with the same reply gives the same rewrite |
| QueryRefinement.ErrorJson | mcp/server.py:86-87 | the failure text is the message wrapped in `{"error": "` and `"}`, 13 characters longer than the message |
| QueryRefinement.RefineQueryTool | mcp/server.py:78-87 | on success the same three-times guard as the agent applies; on a failure the JSON error text is returned, not the original query |
| OutputStyle.StylesAreDescribed | output_style_agent.py:5-12 | the six style keys are exactly the keys of the description table, and the default style is one of them |
| OutputStyle.FirstMentioned | output_style_agent.py:65-67 | the index found is that of a style the reply contains, and no earlier style in table order is contained; none found means no style is contained |
| OutputStyle.DetermineStyle | output_style_agent.py:62-74 | the result is always one of the six style keys, and `summary_paragraph` when the call fails |
| OutputStyle.ChosenStyle | output_style_agent.py:62-70 | a style is chosen exactly when the stripped, lowercased reply contains it and no style earlier in the table, or when it is the default and the reply contains no style at all |
| OutputStyle.StyleNamesDistinct | output_style_agent.py:5-12 | the six style keys are pairwise different |
| OutputStyle.NoEarlierStyle | output_style_agent.py:5-12 | no style key contains a key earlier in the table, so a reply naming one style is never read as an earlier one |
| OutputStyle.StyleNamesPlain | output_style_agent.py:5-12 | every style key is a non-empty word of lowercase letters and `_` |
| OutputStyle.PlainUnchanged | output_style_agent.py:62 | stripping and lowercasing leave such a key unchanged |
| OutputStyle.StyleRoundTrip | output_style_agent.py:62-67 | replying with exactly a style's key chooses that style |
| OutputStyle.Description | output_style_agent.py:90 | a known style gets its table description, any other style the text "concise summary" |
| OutputStyle.ChosenStyleDescribed | output_style_agent.py:14-90 | whatever style is chosen has its own description and never falls back to "concise summary" |
| OutputStyle.FormatSummary | output_style_agent.py:106-111 | a failed call returns the summary unchanged; a successful one returns the stripped reply |
| OutputStyle.BuildContext | output_style_agent.py:42-48 | the context built by appending equals the query line followed, only when there are results, by the titles of at most the first three results joined by ", " |
| OutputStyle.ContextFirstThree | output_style_agent.py:47 | results after the third never change the context |
| Relevance.Preview | relevance_agent.py:47 | content of at most 1000 characters is sent as is; longer content is cut to its first 1000 characters followed by "..." |
| Relevance.FirstMarked | relevance_agent.py:85-86 | the index of the first line holding "SCORE:": no line before it holds the marker, and the line at it does unless it is the end |
| Relevance.ScoreLines | relevance_agent.py:85 | a line is a score line exactly when it is a line of the reply and contains "SCORE:"; there is a score line exactly when some line holds the marker, and the first score line is the first line holding it |
| Relevance.ParseWithoutMarker | relevance_agent.py:85-95 | a reply without "SCORE:" scores 0.5 and its reasoning is the whole stripped reply |
| Relevance.ScoreLinesNone | relevance_agent.py:85-86 | with no line holding the marker there is no score line |
| Relevance.ScoreLineLast | relevance_agent.py:85 | for reasoning without the marker followed by one marked last line, that line is the only score line |
| Relevance.ScoreText | relevance_agent.py:88 | the stripped text after the marker of "SCORE: x" is x |
| Relevance.ParseReply | relevance_agent.py:83-100 | with no line holding "SCORE:" the score is 0.5 and the reasoning the stripped text before the first marker; otherwise the text after the marker on the first marked line, stripped, decides: a number gives that score with the same reasoning, and text `float` rejects gives 0.5 with "Error parsing score. " followed by the reply |
| Relevance.ReasoningPart | relevance_agent.py:95 | the text before the first marker is the reasoning and its line break |
| Relevance.ParseWellFormed | relevance_agent.py:83-100 | a reply laid out as requested, reasoning then "SCORE: x", scores the number x with the stripped reasoning; when x does not parse as a number the score is 0.5 and the reasoning is "Error parsing score. " followed by the reply |
| Relevance.Assess | relevance_agent.py:68-121 | the entry keeps the article's title, and its score is 'Error' exactly when the call fails |
| Relevance.Kept | relevance_agent.py:109-116 | the kept list is no longer than the input |
| Relevance.Analysis | relevance_agent.py:103-121 | the analysis map has exactly one key per article id of the input |
| Relevance.FilterByRelevance | relevance_agent.py:33-123 | the loop's kept list and map are those of the entries the replies decide, and an empty input gives `([], {})` |
| Relevance.FilterStep | relevance_agent.py:40-121 | one more article appends itself to the kept list exactly when its entry passes, and sets its id in the map to its entry |
| Relevance.KeptSubsequence | relevance_agent.py:40-116 | the kept articles are the input with some left out, in the input order |
| Relevance.KeptPositions | relevance_agent.py:110-116 | an article is kept exactly when some position holds it with a passing entry |
| Relevance.KeptMembers | relevance_agent.py:110-116 | an article is kept exactly when it is in the input and its call failed or its score is at least the threshold |
| Relevance.FailOpen | relevance_agent.py:113-116 | an article whose call fails is always kept |
| Relevance.ThresholdInclusive | relevance_agent.py:110 | a score equal to the threshold (0.7 by default) keeps its article |
| Relevance.AnalysisLatest | relevance_agent.py:42-107 | the entry under an id is the entry of the last article with that id |
| Relevance.CheckRelevance | mcp/server.py:95-145 | the tool returns a score exactly when the call succeeds, and otherwise the JSON error carrying the call's message |
| Relevance.ToolMatchesAgent | mcp/server.py:125-143 | given the same reply, the tool's score is the score the agent records, and 0.5 for a reply without a score line |
| EntityExtractionAgent.Values | entity_extraction_agent.py:76 | the lists of the parsed object, one per key in key order |
| EntityExtractionAgent.ExtractEntities | entity_extraction_agent.py:59-68 | a failed call or a stripped reply that `json.loads` rejects gives `{}`; otherwise the parsed object is returned as it is, its keys unchecked |
| EntityExtractionAgent.ProcessQuery | entity_extraction_agent.py:70-79 | the flat list built by extending is the concatenation of the lists in key order, its length is the sum of their lengths, and it holds exactly the entities of the lists, neither lowercased nor deduplicated |
| EntityExtractionAgent.FailedExtractionIsEmpty | entity_extraction_agent.py:66-77 | a failed call or an unparseable reply leaves the flat list empty |
| EntityExtraction.Excerpt | entity_extraction.py:31 | the text analysed is the prefix of the text of length min(2000, length) |
| EntityExtraction.ExtractEntities | entity_extraction.py:28-62 | a failed call gives `{}`; otherwise the parse of the stripped reply to the excerpt, or `{}` when it does not parse |
| EntityExtraction.OnlyExcerptMatters | entity_extraction.py:28-62 | two texts that agree on their first 2000 characters extract the same entities |
| EntityExtraction.AllEntitiesAsList | entity_extraction.py:64-69 | the result has no duplicates, and a string is in it exactly when it is the lowercased form of some entity of some list |
| EntityExtractionLocal.Truthy | embeddings/entity_extraction_local.py:45 | the items kept are exactly the non-empty ones |
| EntityExtractionLocal.Coerce | embeddings/entity_extraction_local.py:43-47 | a string is used as it is; a list with no non-empty item gives "", with one it gives that item |
| EntityExtractionLocal.CoerceItems | embeddings/entity_extraction_local.py:43-47 | a list input is joined with single spaces over its non-empty items, so splitting the text on spaces gives those items back when none holds a space |
| EntityExtractionLocal.Candidates | embeddings/entity_extraction_local.py:53-73 | a string is a candidate exactly when it is the stripped, lowercased text, longer than one character, of an entity whose label is PERSON, ORG, GPE, LOC, FAC or EVENT |
| EntityExtractionLocal.ProcessArticleEntities | embeddings/entity_extraction_local.py:41-81 | the loop returns the candidates once each in the order of their first occurrence, and `[]` when the recogniser fails |
| EntityExtractionLocal.AddEntity | embeddings/entity_extraction_local.py:65-74 | one turn of the loop appends the entity's cleaned text exactly when its label is kept, it is longer than one character and it is not yet in the list |
| EntityExtractionLocal.CandidatesStep | embeddings/entity_extraction_local.py:65-74 | one more entity extends the deduplicated candidates by its cleaned text exactly when it is wanted and new |
| EntityExtractionLocal.CleanedIsClean | embeddings/entity_extraction_local.py:72 | a cleaned entity text is lowercase and has no whitespace at either end |
| EntityExtractionLocal.KeptAreClean | embeddings/entity_extraction_local.py:72-74 | every kept string is lowercase, longer than one character and without whitespace at either end |
| EntityExtractionLocal.KeptOnceInOrder | embeddings/entity_extraction_local.py:73-74 | the kept strings have no duplicates and appear in the order of their first occurrences among the candidates |
| SearchView.MergeEntityFilters | step-03-view-agent.py:103-105 | only a dict is merged: its conditions are added to the page filter and win on shared keys; any other argument leaves the filter as it is |
| SearchView.SearchRequest | step-03-view-agent.py:97-112 | the index is always asked for 30 matches; a filter is sent exactly when the page filter merged with a dict of entity filters is non-empty, and it is that merged filter |
| SearchView.EntityListNeverMerged | step-03-view-agent.py:104-105 | entity filters handed over as a list (what the entity agent returns) never reach the index: the request carries the page's own filter only |
| SearchView.Take | step-03-view-agent.py:130 | `s[:k]` keeps the first `min(k, len(s))` items unchanged |
| SearchView.Ranked | step-03-view-agent.py:115-135 | at most `top_k` matches; exactly `min(top_k, n)` of the `n` the index returned; none when the query fails or the reply has no matches |
| SearchView.RankedOrder | step-03-view-agent.py:123-130 | the ranked matches come from the reply (as a sub-multiset) and their scores never increase |
| SearchView.RankedPrefix | step-03-view-agent.py:123-130 | the ranked matches are the first ones of the reply sorted by descending score |
| SearchView.OrderedCut | step-03-view-agent.py:123-127 | in a descending order, nothing after a cut scores higher than anything before it |
| SearchView.RankedKeepsBest | step-03-view-search.py:63-71 | no match left out scores higher than a match kept |
| SearchView.RankedStable | step-03-view-search.py:64-68 | ties keep the index's order: for each score, the kept matches with it are the first ones the index returned with it |
| SearchView.ProcessResults | step-03-view-agent.py:138-166 | one row per match, in order, each the projection of that match |
| SearchView.DisplayDate | step-03-view-agent.py:145-153 | a date that parses as `%Y-%m-%d` is shown as "Month DD, YYYY"; any other text is shown as it is |
| SearchView.RowOf | step-03-view-agent.py:145-163 | score and id are copied; title, content and url are the metadata's or "N/A", the source its `source_db` or "Unknown", a missing date "N/A" |
| SearchView.DisplayDateKeeps | step-03-view-agent.py:148-153 | text that does not start with a digit fails `%Y-%m-%d` and is shown as it is, the "N/A" placeholder included |
| SearchView.RowDefaults | step-03-view-search.py:86-103 | a missing title, content, url or date becomes "N/A", a missing source "Unknown"; score and id are copied |
| SearchView.RowDateRoundTrip | step-03-view-agent.py:145-151 | a stored ISO date is shown as "Month DD, YYYY", and the date normaliser turns that text back into the stored date |
| SearchView.LowerAll | step-03-view-agent.py:461 | one lowercased entity per entity, in order |
| SearchView.KeywordsMembers | step-03-view-agent.py:457-461 | a keyword is in the list exactly when it is the lowercase of some extracted entity of some type |
| SearchView.KeywordsLength | step-03-view-agent.py:457-461 | nothing is dropped or merged: one keyword per extracted entity |
| SearchView.BuildFilter | step-03-view-agent.py:431-464 | `source_db` is set exactly when the source is not "All Sources", `keywords` exactly when there are entities (as `$in` of the keywords), and no other key |
| SearchView.AppendBlocks | step-03-view-agent.py:222-227 | the loop leaves the head followed by every article's block, in order |
| SearchView.Header | step-03-view-search.py:139 | the prompt opens with the page's fixed text, the query right after it, and ends with a blank line; `BlockInPrompt` places the articles after it |
| SearchView.Prompt | step-03-view-agent.py:218-227 | the prompt starts with the header and is as long as the header and all article blocks together; `BlockInPrompt` says where each block sits |
| SearchView.SummaryPrompt | step-03-view-search.py:137-147 | the prompt is the page's header followed by the articles' blocks |
| SearchView.BlockInPrompt | step-03-view-agent.py:218-227 | the prompt starts with the header, and article `i + 1`'s block sits right after the header and the blocks before it |
| SearchView.Summarize | step-03-view-agent.py:210-245 | "No results to summarize." without results and no call; otherwise the model's reply to the prompt, or "Error generating summary: " and the error |
| SearchView.Priority | step-03-view-agent.py:281-287 | the priority is 0, 1 or 2 |
| SearchView.SortResults | step-03-view-agent.py:289 | the lines are a permutation of the input ordered by priority; `SortResultsSpec` adds that equal priorities keep their order |
| SearchView.SortResultsSpec | step-03-view-agent.py:289 | sorting reorders the lines without changing them, puts lower priorities first, and keeps the order of equal priorities |
| SearchView.TailPriority | step-03-view-agent.py:282-285 | a verdict tail contains ": (Verified)" only for Verified and ": (Partially Verified)" only for Partially Verified |
| SearchView.PriorityOfResultLine | step-03-view-agent.py:281-287 | a line the verification agent builds gets the priority of its own verdict, as long as its claim and links contain no ": (" |
| SearchView.RStripChar | step-03-view-agent.py:305 | `rstrip(c)` leaves a prefix of the text that does not end with `c` |
| SearchView.SplitAtVerdict | step-03-view-agent.py:298 | splitting on " : (" separates a head without it from a tail without ':' into exactly two parts |
| SearchView.FindDash | step-03-view-agent.py:308-309 | the first " - " is the one after the claim when the claim has none and does not end with " -" |
| SearchView.ParseLine | step-03-view-agent.py:298-312 | a line built from a claim, a links text and a status name parses back into those three |
| SearchView.ParseResult | step-03-view-agent.py:298-312 | a line is unexpected exactly when " : (" does not split it in two; the status loses its closing brackets; a head without " - " is the claim with "No supporting articles"; `ParseResultLine` states the round trip |
| SearchView.ParseResultLine | step-03-view-agent.py:298-312 | the panel recovers the claim, the links text and the verdict name of every line the verification agent builds, under the same conditions on the claim |
| FactVerification.ClaimsOfLines | fact_verification_agent.py:53 | at most one claim per line |
| FactVerification.ExtractClaims | fact_verification_agent.py:41-59 | no claims when the call fails; otherwise at most one claim per reply line |
| FactVerification.ExtractedClaimsStripped | fact_verification_agent.py:53 | every extracted claim is stripped |
| FactVerification.NoMarkerNoClaims | fact_verification_agent.py:53 | a reply without "CLAIM:" anywhere yields no claims |
| FactVerification.ClaimLines | fact_verification_agent.py:38 | the reply format the prompt asks for: one "CLAIM: " line per claim |
| FactVerification.ClaimLineRoundTrip | fact_verification_agent.py:53 | a stripped one-line claim without the marker, written as a claim line, is recognised and read back unchanged |
| FactVerification.ExtractClaimsRoundTrip | fact_verification_agent.py:38-55 | a reply of one "CLAIM: {c}" line per such claim yields exactly those claims, in order |
| FactVerification.MarkerWithoutSpaceKept | fact_verification_agent.py:53 | only "CLAIM: " with its space is removed: "CLAIM:x" is a claim line whose claim keeps the marker |
| FactVerification.LevelAfter | fact_verification_agent.py:134 | the level found after a "VERIFICATION:" token is one of the four the pattern names, and it is named right after the whitespace; none when no level follows |
| FactVerification.FirstMatch | fact_verification_agent.py:134 | the leftmost position from `i` on where the pattern matches, or none when it matches nowhere |
| FactVerification.SectionLevel | fact_verification_agent.py:134-135 | UNKNOWN exactly when the pattern matches nowhere; otherwise the level of its leftmost match |
| FactVerification.NoTokenUnknown | fact_verification_agent.py:134-135 | a section without "VERIFICATION:" has status UNKNOWN |
| FactVerification.Reasoning | fact_verification_agent.py:138 | the reasoning never contains the token; it is the whole section when the token is absent, otherwise a stripped text shorter than the section |
| FactVerification.ReasoningBeforeToken | fact_verification_agent.py:138 | with the first "VERIFICATION:" at position `i`, the reasoning is the text before it, stripped |
| FactVerification.FirstSectionWith | fact_verification_agent.py:129-130 | the first section containing the label, or none when no section does |
| FactVerification.SectionFor | fact_verification_agent.py:128-130 | the section is empty or one of the sections; a section labelled "Claim {j+1}" when there is one; otherwise section `j` by position, or the empty text |
| FactVerification.SectionForFirst | fact_verification_agent.py:129-130 | when section `k` is the first to hold the label "Claim {j+1}", it is the section chosen |
| FactVerification.LabelPrefixClash | fact_verification_agent.py:129 | the label "Claim 1" also matches a section labelled "Claim 10" that comes first |
| FactVerification.InfoOf | fact_verification_agent.py:78-82 | each of ID, Source, URL and Title is copied when present; a missing one gets its default: "article_{i}", "Unknown", "#", "Untitled" |
| FactVerification.SectionRecord | fact_verification_agent.py:127-158 | the record carries the article; its status is UNKNOWN or one of the four levels; an empty section gives UNKNOWN with the fixed reasoning text; a non-empty one gives the level its pattern finds and its reasoning |
| FactVerification.ClaimRecord | fact_verification_agent.py:111-171 | the status is ERROR exactly when the call failed, and then the reasoning is the error text; a reply is split on "---" and the record is that of the claim's section |
| FactVerification.ArticleRecordsCount | fact_verification_agent.py:127-171 | one article adds one record to a claim per position that holds it |
| FactVerification.ClaimRecordsCount | fact_verification_agent.py:74-171 | a claim that occurs several times is one key, collecting one record per occurrence per article |
| FactVerification.SupportLinks | fact_verification_agent.py:178-183 | every link comes from a supporting record, and every supporting record has its link |
| FactVerification.NoSupportNoLinks | fact_verification_agent.py:178-183 | there are no links exactly when no record is DIRECTLY or INDIRECTLY SUPPORTED |
| FactVerification.VerdictOfRecords | fact_verification_agent.py:186-191 | Verified exactly when two records support the claim, Not Verified exactly when none does |
| FactVerification.ResultLineNoSupport | fact_verification_agent.py:197-198 | a claim without support reads "{claim} - No supporting articles : (Not Verified)" |
| FactVerification.Results | fact_verification_agent.py:173-202 | one result line per distinct claim |
| FactVerification.NoClaimsNoResults | fact_verification_agent.py:74-202 | no claims give no result lines |
| FactVerification.NoArticlesNotVerified | fact_verification_agent.py:74-202 | without articles every distinct claim is Not Verified with no supporting articles |
| FactVerification.AddArticleRecords | fact_verification_agent.py:111-171 | every claim's list grows by that article's records for it, ERROR records when the call failed |
| FactVerification.AppendRecord | fact_verification_agent.py:141-158 | the record of claim position `j` is appended to its claim's list; the other lists keep their contents |
| FactVerification.AddSectionRecords | fact_verification_agent.py:124-158 | every claim position gets the record of its section |
| FactVerification.AddErrorRecords | fact_verification_agent.py:160-171 | every claim position gets an ERROR record |
| FactVerification.AggregateClaim | fact_verification_agent.py:176-198 | the loop builds the verdict line of the claim's supporting links |
| FactVerification.CollectRecords | fact_verification_agent.py:74-171 | every claim maps to the records of all articles, in article order |
| FactVerification.VerifyClaimsInArticles | fact_verification_agent.py:61-202 | the lines returned are the verdict lines of the distinct claims in first-occurrence order |
| FactVerification.AggregateNext | fact_verification_agent.py:176-200 | the verdict line of the next key is appended |
| Calendar.IsoRoundTrip | utils.py:44-60 | a date written `%Y-%m-%d` reads back as itself with the same format |
| Calendar.YearFirstRoundTrip | web-scraper/step-01-scrape-newsfirst.py:413-420 | a date written year first with a non-digit separator reads back as itself with the same format |
| Calendar.LongRoundTrip | utils.py:33-35 | a date written `%B %d, %Y` reads back as itself with that format |
| Calendar.LongWithoutTime | utils.py:28-30 | the same text fails `%B %d, %Y %I:%M %p`, the time being missing |
| Calendar.Strptime | utils.py:57-62 | a date `strptime` returns is a valid calendar date |
| Dates.Attempts | utils.py:57-62 | one attempt per format, each what `strptime` makes of the text under it |
| Dates.FirstSome | utils.py:57-60 | the first format that succeeds, or none when all fail |
| Dates.Cascade | utils.py:15-66 | the rules are tried in order, pipe form, month names, ISO shape, then the formats; a date any of them yields is a valid calendar date |
| Dates.ParseDate | utils.py:8-70 | "" for an empty or missing input; otherwise the input unchanged or the ISO text of some valid date |
| Dates.EmbeddingInput | utils.py:72-78 | at most the first 8192 characters are embedded, and shorter texts are embedded whole |
| Dates.IsoShapedKept | utils.py:40-41 | a text already shaped `dddd-dd-dd` is returned as it is, without a calendar check |
| Dates.ParseDateIdempotent | utils.py:8-70 | normalising twice is normalising once |
| Dates.LongDateNormalises | utils.py:26-35 | the `%B %d, %Y` text of a date normalises to its ISO form |
| Dates.NumericNotIso | utils.py:45 | a day-first numeric date fails `%Y-%m-%d` |
| Dates.SlashDateDayFirst | utils.py:44-60 | a `dd/mm/yyyy` date is read day first, since `%d/%m/%Y` comes before `%m/%d/%Y` |
| Dates.PipeDateDayFirst | utils.py:16-21 | in the Newsfirst form "dd-mm-yyyy \|..." the date before the first bar is read day first, whatever follows |
| Dates.PipeHead | utils.py:17-18 | the text before the first bar, stripped, is the date |
| NewsFirst.CleanText | web-scraper/step-01-scrape-newsfirst.py:22-28 | "" for a missing or empty text; otherwise the words of the text (`text.split()`) joined by single spaces, so every non-space character survives in order, no whitespace run is longer than one character and no whitespace is at either end |
| NewsFirst.CollapsedWords | web-scraper/step-01-scrape-newsfirst.py:27-28 | collapsing whitespace runs and stripping gives the joined words, keeps the non-space characters in order and leaves no whitespace run longer than one space |
| Text.Words | web-scraper/step-01-scrape-newsfirst.py:27-28 | `s.split()`: every word is non-empty and holds no whitespace, and a text opening with a non-space character has at least one word |
| Text.StripCollapse | web-scraper/step-01-scrape-newsfirst.py:27-28 | `re.sub(r'\s+', ' ', s).strip()` equals `' '.join(s.split())` for every text |
| Text.FilterCollapse | web-scraper/step-01-scrape-newsfirst.py:27 | collapsing whitespace runs keeps every non-space character, in order |
| Text.StripFilter | web-scraper/step-01-scrape-newsfirst.py:28 | stripping keeps every non-space character, in order |
| NewsFirst.CleanTextIdempotent | web-scraper/step-01-scrape-newsfirst.py:22-28 | cleaning a cleaned text changes nothing |
| NewsFirst.CleanTextNoSpace | web-scraper/step-01-scrape-newsfirst.py:22-28 | a text without whitespace comes back unchanged |
| NewsFirst.FirstPrefix | web-scraper/step-01-scrape-newsfirst.py:66-67 | the first prefix in list order that the text starts with, or none when it starts with none |
| NewsFirst.DropPrefixFirst | web-scraper/step-01-scrape-newsfirst.py:65-69 | at most one prefix is removed, the first matching one in list order; with no match the text is unchanged |
| NewsFirst.OnePrefixRemoved | web-scraper/step-01-scrape-newsfirst.py:69 | a prefix repeated twice loses one copy only |
| NewsFirst.SpacedPrefixesNeverMatch | web-scraper/step-01-scrape-newsfirst.py:39-67 | the content is stripped before the prefixes are tried, so the prefixes that begin with a space never match |
| NewsFirst.RemoveExactPrefix | web-scraper/step-01-scrape-newsfirst.py:65-69 | the loop cuts off the first prefix in list order that the content starts with, and stops |
| NewsFirst.Sanitize | web-scraper/step-01-scrape-newsfirst.py:82 | the length is kept and every character left is a word character, whitespace or kept punctuation |
| NewsFirst.RunEnd | web-scraper/step-01-scrape-newsfirst.py:74-76 | the run of a character class from a position ends at the first character outside the class |
| NewsFirst.SeparatorEnd | web-scraper/step-01-scrape-newsfirst.py:74-76 | `\s*[seps]\s*` matches exactly when a separator follows the spaces, and the match ends before a non-space |
| NewsFirst.BracketTagEnd | web-scraper/step-01-scrape-newsfirst.py:74 | the first pattern matches only text that starts with "(" |
| NewsFirst.PlaceEnd | web-scraper/step-01-scrape-newsfirst.py:75-76 | the place name and bracket the other two patterns start with: a letter first, and the match ends just after "(" |
| NewsFirst.PlaceTagEnd | web-scraper/step-01-scrape-newsfirst.py:75 | the second pattern matches only text with a place name and a bracket |
| NewsFirst.PlaceNameEnd | web-scraper/step-01-scrape-newsfirst.py:76 | the third pattern matches only text with a place name and a bracket |
| NewsFirst.Cut | web-scraper/step-01-scrape-newsfirst.py:79 | `re.sub` of an anchored pattern leaves a suffix of the text |
| NewsFirst.RegexPrefixes | web-scraper/step-01-scrape-newsfirst.py:72-79 | the three removals leave a suffix of the text, and leave text starting with neither a letter nor "(" unchanged |
| NewsFirst.PlaceNameWithinPlaceTag | web-scraper/step-01-scrape-newsfirst.py:75-76 | whatever the third pattern matches the second matches up to the same point, so the third only removes a second prefix |
| NewsFirst.PlaceTagLeavesNoSpace | web-scraper/step-01-scrape-newsfirst.py:75 | a removal by the second pattern leaves text that does not start with whitespace |
| NewsFirst.Tidied | web-scraper/step-01-scrape-newsfirst.py:81-96 | the passes after the prefixes leave no whitespace at either end |
| NewsFirst.CleanedContent | web-scraper/step-01-scrape-newsfirst.py:30-96 | "" for missing or empty content; cleaned content holds only word characters, single plain spaces and the kept punctuation, no tab or newline, no space before closing punctuation and none at either end |
| NewsFirst.CleanContent | web-scraper/step-01-scrape-newsfirst.py:30-96 | the steps, in order, give the cleaned content |
| NewsFirst.TidiedChars | web-scraper/step-01-scrape-newsfirst.py:82-94 | what the passes after the special-character pass leave is spaces and allowed characters |
| NewsFirst.TidiedShape | web-scraper/step-01-scrape-newsfirst.py:82-96 | the same shape for the passes after the prefixes, on any text |
| NewsFirst.AbsoluteAgainstHost | web-scraper/step-01-scrape-newsfirst.py:169-181 | the base of `scheme://host/path` is `scheme://host`, and a link starting with `/` is made absolute against it; other links are kept |
| NewsFirst.Absolutized | web-scraper/step-01-scrape-newsfirst.py:175-181 | one link per href |
| NewsFirst.AppendLinks | web-scraper/step-01-scrape-newsfirst.py:175-181 | each link of a container is made absolute and appended, in order |
| NewsFirst.UniqueLinks | web-scraper/step-01-scrape-newsfirst.py:223-228 | the loop removes duplicates, keeping first occurrences in order |
| NewsFirst.ArticleLinks | web-scraper/step-01-scrape-newsfirst.py:140-237 | the links collected from the three container kinds, deduplicated; none when the page could not be fetched |
| NewsFirst.ListingLinksUnique | web-scraper/step-01-scrape-newsfirst.py:223-230 | the links returned have no duplicates, are exactly the links collected, and keep the order of their first occurrence |
| NewsFirst.KeptAll | web-scraper/step-01-scrape-newsfirst.py:345-378 | at most one article per link |
| NewsFirst.ExtractArticles | web-scraper/step-01-scrape-newsfirst.py:345-378 | the loop keeps the articles of the links in order |
| NewsFirst.ExtractAllNewsArticles | web-scraper/step-01-scrape-newsfirst.py:318-381 | the article links of the listing page, each extracted and kept when it has a title or content |
| NewsFirst.KeptAllMember | web-scraper/step-01-scrape-newsfirst.py:345-362 | an article is kept exactly when its link passes the article filter, its extraction succeeds with a title or content, and it is tagged with the listing page |
| NewsFirst.DailyDates | web-scraper/step-01-scrape-newsfirst.py:383-420 | no sequence when the start does not parse, or when an end is given and does not parse |
| NewsFirst.DailyDateSequence | web-scraper/step-01-scrape-newsfirst.py:383-420 | the sequence of the parsed start and end, an end before the start replaced by today; none where a date does not parse |
| NewsFirst.DailyDatesInRange | web-scraper/step-01-scrape-newsfirst.py:396-420 | with an end on or after the start, the sequence is every day from start to end written `%Y/%m/%d` |
| NewsFirst.DailyDatesEveryDay | web-scraper/step-01-scrape-newsfirst.py:413-420 | every item reads back as the date that many days after the start, and a date is named exactly when it lies between start and end |
| DayLoop.Written | web-scraper/step-01-scrape-newsfirst.py:417 | one text per day |
| DayLoop.DayStep | web-scraper/step-01-scrape-newsfirst.py:416-418 | one turn appends the current day and takes the next one; none only at 9999-12-31 |
| DayLoop.DayByDay | web-scraper/step-01-scrape-newsfirst.py:413-420 | every day of the range written with the separator, in order; none when the range reaches 9999-12-31, where stepping on overflows |
| DayLoop.WrittenReadsBack | web-scraper/step-01-scrape-newsfirst.py:417 | every item reads back, with the same format, as its date |
| DayLoop.WrittenMember | web-scraper/step-01-scrape-newsfirst.py:413-420 | a date is named exactly when it lies in the range |
| DayLoop.WrittenOnlyItsDays | web-scraper/step-01-scrape-newsfirst.py:417 | a date written in the list is one of its days |
| DayLoop.WrittenEveryDay | web-scraper/step-01-scrape-newsfirst.py:417 | every day of the list is written in it |
| Days.NextDay | web-scraper/step-01-scrape-newsfirst.py:418 | the next day is a valid date one ordinal further |
| Days.AddDays | web-scraper/step-01-scrape-newswire.py:343-350 | adding `n` days gives a valid date `n` ordinals further |
| Days.AddDaysStep | web-scraper/step-01-scrape-newswire.py:343-350 | adding days one after another is adding them at once |
| Days.OrdinalInjective | web-scraper/step-01-scrape-newsfirst.py:416 | different dates have different ordinals, so comparing ordinals is comparing dates |
| Days.DateRange | web-scraper/step-01-scrape-newsfirst.py:413-420 | the days from start to end, both included, one ordinal apart; none when the end is before the start |
| Days.DateRangeMember | web-scraper/step-01-scrape-newsfirst.py:416 | a date is in the range exactly when it lies between its ends |
| NewsWire.FirstDatePattern | web-scraper/step-01-scrape-newswire.py:29 | the leftmost position from `i` on where `/dddd/dd/dd/` occurs, or none when it occurs nowhere after `i` |
| NewsWire.PageDate | web-scraper/step-01-scrape-newswire.py:29-36 | none exactly when the url holds no `/dddd/dd/dd/`; otherwise ten characters `dddd-dd-dd` |
| NewsWire.PageDateOfArchiveUrl | web-scraper/step-01-scrape-newswire.py:29-33 | the archive url of a day, behind a prefix without digits, yields that day written `%Y-%m-%d` |
| NewsWire.PageUrlInjective | web-scraper/step-01-scrape-newswire.py:46-49 | different pages have different urls |
| NewsWire.PageUrls | web-scraper/step-01-scrape-newswire.py:44-49 | one url per page requested |
| NewsWire.PageUrl | web-scraper/step-01-scrape-newswire.py:46-49 | the url extends the base, and is the base exactly for page 1; `PageUrlInjective` shows pages differ |
| NewsWire.PageUrlsDistinct | web-scraper/step-01-scrape-newswire.py:44-49 | no page is requested twice |
| NewsWire.CountTitled | web-scraper/step-01-scrape-newswire.py:92-113 | at most one article per article element; those without a title link are skipped |
| NewsWire.Crawl | web-scraper/step-01-scrape-newswire.py:44-135 | the crawl stops at most one page past the listing pages, and a later failure keeps what was found |
| NewsWire.ScrapeNewswirePage | web-scraper/step-01-scrape-newswire.py:23-138 | no page is requested when the url holds no date; otherwise the pages are requested in order and the titled articles counted |
| NewsWire.CrawlBounds | web-scraper/step-01-scrape-newswire.py:61-90 | at most one page past the listing pages is requested, and a first page that fails or lists nothing counts 0 |
| NewsWire.CrawlChained | web-scraper/step-01-scrape-newswire.py:117-121 | when every listing page links to the next, all of them and the 404 after them are requested and every titled article counted |
| NewsWire.ReplaceEach | web-scraper/step-01-scrape-newswire.py:212-213 | text holding none of the keys comes out of the table unchanged |
| NewsWire.ApplyReplacements | web-scraper/step-01-scrape-newswire.py:212-213 | the loop applies the table's entries one after another, in order |
| NewsWire.CleanText | web-scraper/step-01-scrape-newswire.py:186-215 | unescaping, NFKC, then the table in the corrected order |
| NewsWire.TablesWellFormed | web-scraper/step-01-scrape-newswire.py:195-211 | every replacement is non-empty ASCII, and every key is one non-ASCII character or starts with the mojibake pair |
| NewsWire.AsciiPassesTable | web-scraper/step-01-scrape-newswire.py:195-211 | ASCII text holds none of the keys, each starting with a non-ASCII character |
| NewsWire.CleanedTextAsWritten | web-scraper/step-01-scrape-newswire.py:186-215 | after cleaning as written no key of the table is left, and ASCII text after unescaping and NFKC passes the table unchanged |
| NewsWire.CleanedText | web-scraper/step-01-scrape-newswire.py:186-215 | the same with the table in the corrected order |
| NewsWire.FixedUnshadowed | web-scraper/step-01-scrape-newswire.py:195-211 | in the corrected order no key occurs inside a later key |
| NewsWire.FixedEveryKeyReplaced | web-scraper/step-01-scrape-newswire.py:195-213 | with the corrected order every key comes out as its own replacement; the mojibake ellipsis becomes "..." |
| NewsWire.AsWrittenShadowed | web-scraper/step-01-scrape-newswire.py:195-213 | as written, the bare pair comes before the two keys that start with it, so those two entries never apply |
| NewsWire.AsWrittenEllipsis | web-scraper/step-01-scrape-newswire.py:195-213 | as written, the mojibake ellipsis becomes a double quote and a broken bar instead of three dots |
| NewsWire.DaysWanted | web-scraper/step-01-scrape-newswire.py:329-333 | the day count is never 0: absent or 0 means 30 |
| NewsWire.ChosenEnd | web-scraper/step-01-scrape-newswire.py:325-333 | the end chosen, when there is one, is a valid date |
| NewsWire.ChosenEndRules | web-scraper/step-01-scrape-newswire.py:325-333 | an explicit non-empty end wins and fails only when it does not parse; otherwise the end is `num_days - 1` days after the start (30 days by default), a negative count gives an empty range, and a day outside `datetime`'s years fails |
| NewsWire.ResolveEnd | web-scraper/step-01-scrape-newswire.py:325-333 | the end the method computes is the chosen end |
| NewsWire.WeekCount | web-scraper/step-01-scrape-newswire.py:336-339 | `ceil(total_days / 7)` of the inclusive day count, 0 when that is not positive |
| NewsWire.WeekOf | web-scraper/step-01-scrape-newswire.py:344-345 | week `w` runs from `start + 7w` to `min(start + 7w + 6, end)` |
| NewsWire.Weeks | web-scraper/step-01-scrape-newswire.py:343-350 | one week per counted week |
| NewsWire.WeekBatch | web-scraper/step-01-scrape-newswire.py:344-348 | one turn yields the label of week `w` |
| NewsWire.Label | web-scraper/step-01-scrape-newswire.py:347-350 | both `%Y-%m-%d` texts read back as the week's first and last days |
| NewsWire.WeekLabels | web-scraper/step-01-scrape-newswire.py:337-352 | one label per week of the range; `LabelledReadsBack` states that each reads back as its week |
| NewsWire.WeekTurn | web-scraper/step-01-scrape-newswire.py:343-350 | the week's label is appended; none exactly when its sixth day lies past 9999-12-31 |
| NewsWire.WeekAppend | web-scraper/step-01-scrape-newswire.py:343-350 | the label of the week is appended to those before it |
| NewsWire.WeekInRange | web-scraper/step-01-scrape-newswire.py:343-345 | a week of the range starts within it |
| NewsWire.WeekLoop | web-scraper/step-01-scrape-newswire.py:343-352 | the labels of all weeks, or none when a week overflows the calendar |
| NewsWire.WeeklyBatches | web-scraper/step-01-scrape-newswire.py:317-352 | no batches when the start does not parse; batches only when the end of the range is settled |
| NewsWire.GenerateWeeklyBatches | web-scraper/step-01-scrape-newswire.py:317-352 | the batches are the week labels of the parsed range |
| NewsWire.DatesForWeek | web-scraper/step-01-scrape-newswire.py:354-365 | dates only when both ends parse, then one per day from start to end inclusive, none for an end before the start; a result whenever both parse and the end is before 9999-12-31 |
| NewsWire.WeeksTile | web-scraper/step-01-scrape-newswire.py:336-350 | weeks are contiguous, each holds one to seven days, the first starts on the start date and the last ends on the end date |
| NewsWire.WeekBounds | web-scraper/step-01-scrape-newswire.py:344-345 | the first and last day of week `w`, as ordinals |
| NewsWire.WeeksCover | web-scraper/step-01-scrape-newswire.py:336-350 | a date lies in the range exactly when it lies in a week, and then in exactly one |
| NewsWire.LabelledReadsBack | web-scraper/step-01-scrape-newswire.py:346-348 | every label reads back as its week's first and last days |
| NewsWire.DefaultThirtyDays | web-scraper/step-01-scrape-newswire.py:332-339 | with neither an end nor a day count there are five batches and the last one ends 29 days after the start |
| NewsWire.GenerateDatesForWeek | web-scraper/step-01-scrape-newswire.py:354-365 | the loop gives the week's dates |
| NewsWire.DatesForWeekEveryDay | web-scraper/step-01-scrape-newswire.py:354-365 | the dates of a week name each of its days once, in order |
| NewsWire.BatchDates | web-scraper/step-01-scrape-newswire.py:343-365 | the labels of a batch give back one to seven dates, its days |
| NewsWire.LabelDates | web-scraper/step-01-scrape-newswire.py:354-365 | the labels of two ordered dates give every day between them |
| NewsWire.Stamped | web-scraper/step-01-scrape-newswire.py:273-277 | a copy of the article with timestamp, batch id and source added |
| NewsWire.SaveToMongodb | web-scraper/step-01-scrape-newswire.py:255-287 | nothing is written and 0 returned without a client or articles; otherwise one stamped copy per article, in order, and the count inserted, 0 when the insert raises |
| NewsWire.BatchIdInjective | web-scraper/step-01-scrape-newswire.py:268 | batch ids of two weeks are equal only for the same week |
| Adaderana.StrippedClean | web-scraper/step-01-scrape-adaderana.py:33 | text of kept characters whose whitespace is plain spaces is clean once stripped |
| Adaderana.FilteredKept | web-scraper/step-01-scrape-adaderana.py:30-32 | after collapsing and the special-character pass every character is kept and every whitespace character is a plain space |
| Adaderana.CleanText | web-scraper/step-01-scrape-adaderana.py:19-33 | the result holds only word characters, plain spaces and the kept punctuation, with no whitespace at either end, and its non-space characters are exactly the text's word characters and kept punctuation, in order |
| Adaderana.KeptNonSpace | web-scraper/step-01-scrape-adaderana.py:29-33 | collapsing, deleting the unkept characters and stripping leave exactly the kept non-space characters of the text, in order |
| Adaderana.CleanTextNothingDeleted | web-scraper/step-01-scrape-adaderana.py:29-33 | when nothing is deleted the result is the collapsed, stripped text, with no two adjacent spaces |
| Adaderana.CleanTextFixed | web-scraper/step-01-scrape-adaderana.py:19-33 | clean text with single spaces comes back unchanged |
| Adaderana.CleanTextKeepsDoubleSpace | web-scraper/step-01-scrape-adaderana.py:30-32 | the deletion runs after the collapsing, so "a # b" becomes "a  b", whose double space is kept |
| Adaderana.IntToString | web-scraper/step-01-scrape-adaderana.py:361 | the decimal text of an id holds only digits and a minus sign |
| Adaderana.SplitInTwo | web-scraper/step-01-scrape-adaderana.py:74 | splitting gives a second part exactly when the separator occurs |
| Adaderana.NewsId | web-scraper/step-01-scrape-adaderana.py:74 | none (Python's IndexError) exactly when the url has no `nid=`; otherwise the text after the first `nid=` up to the next one |
| Adaderana.NewsIdOfPageUrl | web-scraper/step-01-scrape-adaderana.py:74 | the news id of an article page url is the id it was built from |
| Adaderana.PageUrl | web-scraper/step-01-scrape-adaderana.py:340-361 | the url is the base url followed by the id's decimal digits; `NewsIdOfPageUrl` reads the id back |
| Adaderana.PageUrlSplit | web-scraper/step-01-scrape-adaderana.py:340-361 | the page url of an id splits on `nid=` into the site query and the id |
| Adaderana.TagText | web-scraper/step-01-scrape-adaderana.py:84-104 | a missing tag gives its placeholder; a present one gives clean text |
| Adaderana.ExtractNewsData | web-scraper/step-01-scrape-adaderana.py:35-117 | the result always names the url, and an extracted article comes only from a 200 reply with the article tag |
| Adaderana.ExtractNewsDataRules | web-scraper/step-01-scrape-adaderana.py:35-117 | the result always names the url; it succeeds exactly for a 200 reply with the article tag and a url with `nid=`, and then carries the news id and the three fields, each cleaned or its placeholder |
| Adaderana.ExtractedFieldsClean | web-scraper/step-01-scrape-adaderana.py:76-104 | every field of an extracted article is clean text, placeholders included, and the news id holds no other `nid=` |
| Adaderana.PlaceholdersClean | web-scraper/step-01-scrape-adaderana.py:84-104 | the three placeholders are clean text |
| Adaderana.EntryFor | web-scraper/step-01-scrape-adaderana.py:360-380 | a valid entry holds an extracted article of the id's page url; an invalid one names the id and that url |
| Adaderana.BatchEntries | web-scraper/step-01-scrape-adaderana.py:359-360 | one entry per id of the batch |
| Adaderana.ValidCount | web-scraper/step-01-scrape-adaderana.py:356-389 | at most one valid article per entry |
| Adaderana.StoredOf | web-scraper/step-01-scrape-adaderana.py:383-384 | one stored document per valid entry |
| Adaderana.Attempt | web-scraper/step-01-scrape-adaderana.py:360-380 | one id is fetched and extracted; an error becomes an invalid entry with the id, the url and the message |
| Adaderana.Record | web-scraper/step-01-scrape-adaderana.py:367-389 | the entry is appended, counted when valid and, with MongoDB in use, handed over with its batch id and source |
| Adaderana.ScrapeBatch | web-scraper/step-01-scrape-adaderana.py:350-399 | the batch's entries are the attempts at its ids in order, with their valid count and their stored documents |
| Adaderana.FirstIdProduct | web-scraper/step-01-scrape-adaderana.py:346-409 | batch `b` starts `b * batch_size` ids after the start |
| Adaderana.BatchAt | web-scraper/step-01-scrape-adaderana.py:348-409 | batch file `b` is the batch starting at its first id |
| Adaderana.Progress | web-scraper/step-01-scrape-adaderana.py:408-412 | the progress saved after batch `b` is the first id of the next batch |
| Adaderana.RecordBatch | web-scraper/step-01-scrape-adaderana.py:401-412 | the batch file is kept, its valid count noted, its documents added to those handed over |
| Adaderana.BatchTurn | web-scraper/step-01-scrape-adaderana.py:348-412 | one turn scrapes and records the batch starting at the current id |
| Adaderana.ScrapeBatches | web-scraper/step-01-scrape-adaderana.py:346-419 | the files, the counts, the saved progress and the stored documents are those of the batches in order |
| Adaderana.EntryNamesItsId | web-scraper/step-01-scrape-adaderana.py:360-378 | a failure records the id and its url; a success the url and, as news id, the id in decimal |
| Adaderana.BatchEntryAt | web-scraper/step-01-scrape-adaderana.py:359-360 | position `i` of a batch is the attempt at id `first + i` |
| Adaderana.BatchesCoverIds | web-scraper/step-01-scrape-adaderana.py:346-409 | with a positive batch size the batches check exactly the ids from the start up to `batch_size * num_batches` ids on |
| Adaderana.BatchIdsDistinct | web-scraper/step-01-scrape-adaderana.py:346-409 | no id is checked twice |
| Adaderana.IdAtOrder | web-scraper/step-01-scrape-adaderana.py:346-409 | ids grow with the batch |
| Adaderana.LoadProgress | web-scraper/step-01-scrape-adaderana.py:218-240 | the recorded id, or 87263 when the file is absent, unreadable or has no id |
| Adaderana.SaveProgress | web-scraper/step-01-scrape-adaderana.py:153-173 | loading saved progress gives back the id saved |
| Adaderana.StartId | web-scraper/step-01-scrape-adaderana.py:332-338 | `--start` wins unless `--resume` is given; otherwise the recorded id, or 87263; `ResumeContinues` shows a resumed run joins the earlier one |
| Adaderana.ResumeContinues | web-scraper/step-01-scrape-adaderana.py:332-338 | a resumed run starts at the id after the last batch of the run that saved the progress, so the two runs join without gap or overlap |
| Migration.FirstNonEmpty | migration.py:57-88 | "" exactly when every named field is missing or empty; otherwise the value of the first non-empty one in list order |
| Migration.Skips | migration.py:90-101 | a text of fewer than nine title and content characters is always skipped; a kept document has at least ten characters in "title content" stripped |
| Migration.ListRepr | migration.py:134 | `str(keywords)` starts with "[" and ends with "]", and is "[]" for no keywords |
| Migration.Budget | migration.py:127-139 | the room left for the content is at most the limit minus the allowance, the brackets of the keyword list, the title and the url |
| Migration.PyPrefix | migration.py:144 | `s[:k]`: the first `k` characters for `k >= 0`, all but the last `-k` for a negative `k` |
| Migration.TruncateAsWritten | migration.py:141-144 | as written: content within the budget is kept whole; longer content becomes a prefix of itself followed by the marker |
| Migration.AsWrittenKeepsMost | migration.py:139-144 | as written, a negative budget does not shrink the content to nothing but drops only its last characters |
| Migration.AsWrittenOverrun | migration.py:127-144 | as written, a 39000-character title leaves a budget of -202, and 300 characters of content keep 98 of them |
| Migration.TruncateContent | migration.py:139-146 | content within the budget is kept; longer content keeps at most the budget's characters (none for a negative budget), in order, followed by the marker |
| Migration.MetadataWithinLimit | migration.py:127-146 | with a non-negative budget the metadata fields stay within 39000 characters, the marker apart |
| Migration.Keywords | migration.py:118-125 | no keywords without an extractor or when it fails; otherwise its keywords |
| Migration.Prepare | migration.py:55-167 | skipped exactly when the document has no meaningful text; dropped exactly when it is not skipped and the embedding fails; otherwise the record holds the id "db_mongoid", the embedded text and its vector, and as metadata the url, the standardized date, the title, the mongo id, the source database, the content cut to the budget and the keywords |
| Migration.RecordIdsDistinct | migration.py:160-161 | two documents of one database with different ids get different record ids |
| Migration.Prepared | migration.py:51-167 | what each document comes to, in order |
| Migration.Records | migration.py:51-167 | at most one record per document; a record is there exactly when some document yields it |
| Migration.ReadyRecords | migration.py:166 | at most one record per document |
| Migration.FatesAddUp | migration.py:90-167 | every document is processed, skipped or dropped: the three counts add up to the number of documents |
| Migration.ReadyStep | migration.py:166-167 | one more document adds its record when it has one, and one to the skip count when it is skipped |
| Migration.ReadyMember | migration.py:166 | a record is kept exactly when some document yields it |
| Migration.Selected | migration.py:27-37 | all documents without a usable resume id; otherwise exactly those whose id is at least the resume id |
| Migration.From | migration.py:29-32 | the documents at or after the resume id, in their order |
| Migration.BatchLimit | migration.py:171 | the buffer is sent once it holds `batch_size` records; a size of 0 sends each record on its own |
| Migration.MigrateCollection | migration.py:8-228 | a failed collection gives 0 and no upload; otherwise the uploads are a prefix of the records of the selected documents in order, the count is the number of records when the last upsert went through and 0 when it failed, and the skip count is the number skipped; when every upsert succeeds every record is uploaded exactly once, in full batches with a shorter last one |
| Migration.Upload | migration.py:166-218 | the same for the fates of the documents: a failed upsert keeps its records buffered, so the next upsert resends them; the count falls to 0 exactly when records are left unsent after the final upsert |
| Migration.SendRest | migration.py:215-218 | the rest of the buffer is sent as a last, shorter upload; when that upsert fails the count becomes 0 and nothing more is uploaded |
| Migration.Buffer | migration.py:166-177 | a record goes to the buffer; once the buffer holds `batch_size` records it is upserted, and cleared only when the upsert succeeds; while no upsert has failed each upload holds exactly `batch_size` records |
| MigrateMain.ParseSpec | embeddings/step-02-migrate_mongodb_to_pinecone.py:136-140 | a parsed spec is two dot-free names that rejoin with a dot into the spec |
| MigrateMain.SpecRoundTrip | embeddings/step-02-migrate_mongodb_to_pinecone.py:136-140 | names without a dot parse back from their `db.collection` form |
| MigrateMain.ThreePartsRejected | embeddings/step-02-migrate_mongodb_to_pinecone.py:137-139 | a spec with a second dot, such as "a.b.c", is rejected |
| MigrateMain.ParseAll | embeddings/step-02-migrate_mongodb_to_pinecone.py:133-141 | the targets exist exactly when every spec parses, and then target `i` is spec `i` parsed |
| MigrateMain.ParsedWith | embeddings/step-02-migrate_mongodb_to_pinecone.py:135-141 | the same for any parser |
| MigrateMain.ParseCollections | embeddings/step-02-migrate_mongodb_to_pinecone.py:133-141 | the loop appends each spec in order and stops the program at the first malformed one |
| MigrateMain.NotAllParse | embeddings/step-02-migrate_mongodb_to_pinecone.py:137-139 | one malformed spec rejects the whole list |
| MigrateMain.CheckExistence | embeddings/step-02-migrate_mongodb_to_pinecone.py:143-154 | a warning is given exactly for the targets whose database or collection is missing, in order, and nothing else changes |
| MigrateMain.Start | embeddings/step-02-migrate_mongodb_to_pinecone.py:199-206 | processing starts at the first exact match of the resume target, at the end when none matches, at 0 without one |
| MigrateMain.Rows | embeddings/step-02-migrate_mongodb_to_pinecone.py:208-228 | one summary row per processed collection |
| MigrateMain.MigrateAll | embeddings/step-02-migrate_mongodb_to_pinecone.py:184-228 | a malformed non-empty `--resume-from` stops before any migration; otherwise (an absent or empty one means no resuming) the collections from the resume point on are migrated in order, the resume id going to the first only, and the total is the sum of the rows |
| MigrateMain.ResumeUnmatched | embeddings/step-02-migrate_mongodb_to_pinecone.py:199-203 | nothing is migrated when the resume target is not in the list |
| MigrateMain.ResumeMatched | embeddings/step-02-migrate_mongodb_to_pinecone.py:199-228 | with the resume target in the list, it is migrated first with the resume id and every later collection without one |
| RemoveDuplicates.Collection.constructor | web-scraper/remove-duplicates-mongodb.py:34-35 | a collection holds the given documents, whose ids are distinct |
| RemoveDuplicates.Collection.DeleteMany | web-scraper/remove-duplicates-mongodb.py:66-67 | `delete_many` on a set of ids removes exactly the documents with those ids, keeps the rest in order, and its deleted count is the drop in size |
| RemoveDuplicates.HandleOne | web-scraper/remove-duplicates-mongodb.py:58-66 | after one more url is handled, a document survives exactly when it survived before and is not one of that url's duplicates |
| RemoveDuplicates.FindUnhandled | web-scraper/remove-duplicates-mongodb.py:58 | while a url has not been handled, the find for it still sees every document with that url |
| RemoveDuplicates.HandleStep | web-scraper/remove-duplicates-mongodb.py:56-72 | deleting a url's duplicates from the collection handled so far gives the collection with that url handled too |
| RemoveDuplicates.NothingToDelete | web-scraper/remove-duplicates-mongodb.py:60 | a url with one document or none has no duplicates to delete |
| RemoveDuplicates.Deduplicated | web-scraper/remove-duplicates-mongodb.py:56-72 | deduplication never adds documents |
| RemoveDuplicates.RemoveForUrl | web-scraper/remove-duplicates-mongodb.py:56-72 | one turn of the url loop: all documents after the first with the url are deleted, nothing else changes, and the count returned is the number deleted |
| RemoveDuplicates.RemoveDuplicatesFor | web-scraper/remove-duplicates-mongodb.py:27-97 | the urls handled are some of the collection's and the collection is left with exactly those handled, whatever order the distinct urls come in; without a database error every url is handled; an error at turn `t` leaves `t` urls handled and fails; a count is returned exactly when no error occurs and the collection was not empty (the summary line divides by its size), and it is the documents before minus after |
| RemoveDuplicates.RemoveAllUrls | web-scraper/remove-duplicates-mongodb.py:56-87 | the url loop and the count after it: it fails exactly when the database fails at some turn up to the number of urls, and then that many urls are handled; otherwise every url is handled and the number removed is the drop in size |
| RemoveDuplicates.HandleUrl | web-scraper/remove-duplicates-mongodb.py:56-72 | one turn: the url moves from the remaining urls to the handled ones and its duplicates are deleted |
| RemoveDuplicates.MoveUrl | web-scraper/remove-duplicates-mongodb.py:56 | moving one url from the remaining to the handled urls keeps the two a partition of all urls |
| RemoveDuplicates.DeduplicatedOnce | web-scraper/remove-duplicates-mongodb.py:56-72 | after deduplication no two documents with a url share it |
| RemoveDuplicates.DeduplicatedOnlyDeletes | web-scraper/remove-duplicates-mongodb.py:63-67 | deduplication only deletes: the result is a subsequence of the collection |
| RemoveDuplicates.DeduplicatedKeepsFirst | web-scraper/remove-duplicates-mongodb.py:61-63 | each url keeps exactly its first document, and no url disappears |
| RemoveDuplicates.UrlLessKept | web-scraper/remove-duplicates-mongodb.py:44-58 | a document without a `url` field is never deleted, since `distinct` and `find` never return it; a collection without urls (the Newswire one, whose link is stored under another key) is left unchanged, so its run returns 0 |
| RemoveDuplicates.RemoveDuplicatesAll | web-scraper/remove-duplicates-mongodb.py:99-140 | each collection is processed in turn; a failing one is passed over with the deletions it made before failing kept; one without a database error ends deduplicated; the total is the sum of the deletions of the runs that return a count |

Notes on behaviour:
- The Ada Derana `clean_text` deletes characters after collapsing whitespace, so its result can hold two adjacent spaces. `Adaderana.CleanTextKeepsDoubleSpace` states this.
- The round trip between the verdict lines the fact checker writes and the parser in step-03-view-agent.py needs the claim to contain neither " - " nor " : (". It also needs the claim not to end in " -": the separator " - " overlaps itself, so such a claim is split one character early. `SearchView.ParseResultLine` states the exact condition.
- `"Claim 1"` also occurs inside `"Claim 10"`, so with ten or more claims the section of claim 1 can be the one labelled for claim 10. `FactVerification.LabelPrefixClash` states this.
- `--num-days 0` gives the default 30 days, because 0 is false in Python (`NewsWire.DaysWanted`).
- embeddings/step-02-migrate_mongodb_to_pinecone.py holds a stray `]` at line 117 and does not parse as written. `MigrateMain` models the evidently intended program.

## Left out

- All remote calls are inputs: OpenAI chat completions, SentenceTransformer `encode`, Pinecone query/upsert/describe, MongoDB find/insert/delete/distinct/count, and `requests` HTTP. What the services themselves do is not modelled. Most calls are a success value or a failure (`Wrappers.Outcome`). Two kinds of call are given differently, because the code goes on after they fail:
  - the Pinecone upserts of a migration are numbered in order, and the parameter `accepts` says which of them succeed;
  - the MongoDB calls of the duplicate remover fail, if at all, at one turn of its url loop (the parameter `fault`).
- Migration.Upload: an upsert that fails inside the loop is caught per document, so the buffer is kept and sent again with the next record. The model follows this. It does not model an exception raised while the buffer is being built other than a failed embedding.
- Migration.Prepare: the content is cut with the corrected `TruncateContent`, not with the negative-budget slice as written (see the first finding, whose as-written side is `TruncateAsWritten`).
- Migration.ListRepr: `str(keywords)` is modelled for keywords without quotes or backslashes. Python's escaping and its switch to double quotes for a keyword holding a single quote are not modelled, so for such keywords the budget differs by the escaping characters.
- RemoveDuplicates.RemoveDuplicatesFor: a database error is modelled at the start of a url's turn or at the final count. A `delete_many` that fails after deleting part of its documents is not modelled. An error in the first count or in `distinct` has the same effect as an error at turn 0.
- EntityExtractionAgent.ExtractEntities: `parse` stands for `json.loads` restricted to JSON objects whose values are lists of strings. Python returns any other JSON value as it is: an array, a string or a number then makes `.items()` in `process_query` raise an error that nothing catches, and an object with a string value has that string extended into the flat list character by character. The model covers neither case.
- Adaderana.LoadProgress: the recorded id is taken to be an integer. Python returns whatever JSON value the file holds under `last_processed_id`, including `null` or a string, and the model does not cover that.
- NewsWire.CleanText: the replacement table is applied in the corrected order, not in the order written (see the second finding, whose as-written side is `CleanedTextAsWritten`).
- EntityExtractionLocal.Truthy: the items of an entity's list are taken to be strings, so Python's `if item` dropping `0`, `None` or other falsy non-strings is not modelled.
- NewsFirst.RegexPrefixes: the three patterns are read over ASCII letters. Under `re.IGNORECASE`, Python's `[A-Za-z]` also matches a few non-ASCII letters ("ſ", "ı", "İ" and the Kelvin sign), which the model does not.
- HTML parsing (BeautifulSoup), `html_to_markdown`, `try_encodings` and page fetching are parameters of the scraper models, given as the tags or `href`s a page yields.
- `html.unescape`, Unicode NFKC normalisation, Unicode `\w` and Unicode `\d` are parameters or are written out over ASCII. `\w` is a predicate parameter. Digits and `lower()` are ASCII only, because the library's Unicode tables are not part of this model.
- Python's `float(...)` is a partial oracle parameter (`number`). Scores are `real`. IEEE rounding, nan, inf and exponent forms are not modelled.
- `json.loads` is a parameter. QueryRefinement.ErrorJson: `json.dumps` escaping of quotes and control characters in the error message is not modelled; the message is wrapped as it is.
- Anything read from `datetime.now()` is a parameter: the timestamps on stored records, `scraped_at`, and the end-before-start fallback to today in step-01-scrape-newsfirst.py.
- `time.sleep`, random delays, `print` output, progress bars and elapsed times are left out. So are JSON/CSV file writing and argparse. The progress file of the Ada Derana scraper is modelled as a value.
- `create_mongodb_indexes`, the connection setup, `sys.exit` on missing environment variables, and the MongoDB insert result are left out as I/O.
- In migration.py, the server-side cursor batching and the `CursorNotFound` recovery are left out. The collection is its documents in `find` order, or a failure.
- The embedding model is the parameter `encode`, and its vectors are opaque values. Only the 8192-character cut before encoding and the failure path of `vectorize_text` are modelled.
- The Streamlit rendering is left out: the `display_*` functions except the sort and the parse of verdict lines, index.py and the dashboard page. So are mcp/mcp-client.py, the configuration files and embeddings/remove-duplicates-pinecone.py.
- The order in which MongoDB `distinct` returns urls is left open. The duplicate remover is proved for every order.
- The newswire archive is a finite sequence of page replies. The crawl stops at a failed page, or at a page without a next-page link, as the source does. The model does not say what a site that never ends would do.
- Dates run from year 1 to 9999 as in `datetime`. Stepping past 9999-12-31 is the `OverflowError` path.
- Concurrency is not modelled: every loop in the core processes its items one at a time.

## Findings

| source | as written | input that shows it | evidently intended | confidence | as-written member | corrected member |
|---|---|---|---|---|---|---|
| migration.py:139-144 | when the other metadata fields leave a negative budget, `content[:max_content_size]` drops only the last characters of the content | a 39000-character title with 300 characters of content, an empty url, date, MongoDB id and database name, and no keywords (`"[]"`) gives a budget of -202 and keeps 98 characters, so the metadata exceeds the limit | a negative budget keeps no content, so only the marker remains | not executed | Migration.AsWrittenOverrun | Migration.TruncateContent |
| web-scraper/step-01-scrape-newswire.py:195-213 | the bare two-character mojibake key comes before the two longer keys that start with it, so those entries never apply | the mojibake ellipsis "â€¦", which NFKC leaves as it is, becomes a double quote followed by "¦" | every key that can still occur after NFKC is replaced by its own replacement, so the ellipsis becomes "..." | not executed | NewsWire.AsWrittenEllipsis | NewsWire.FixedEveryKeyReplaced |

The table is applied after NFKC normalisation. NFKC already turns U+2026 into "..." and U+00A0 into a space, so those two entries never fire. It also turns "™" into "TM", so the key "â€™" never occurs: its text becomes "â€TM", which the bare pair entry turns into a double quote followed by "TM", in either order of the table. `NewsWire.FixedEveryKeyReplaced` is a statement about the table on its own keys, before normalisation.

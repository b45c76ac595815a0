/** The migration of one stored news collection into the vector index:
    each document's fields are found under their several possible names,
    thin documents are skipped, the content is cut to fit the index's
    metadata budget, and the records are uploaded in batches.

    The collection is a parameter: its documents in `find` order, or the
    failure of the first database call. The entity extractor, when there is
    one, is a parameter too (its keywords or its failure), and so is the
    parsing of a resume id as an ObjectId (its value, or None where it
    raises). Uploads are returned as the sequence of batches sent. */
module Migration {
  import opened Wrappers
  import opened Text
  import opened Lists
  import Dates

  /** A stored document: its `_id` as `str` shows it, the id's value for the
      `$gte` comparison, and its string fields. */
  datatype Doc = Doc(id: string, oid: nat, fields: map<string, string>)

  datatype Metadata = Metadata(url: string, date: string, title: string, mongoId: string,
                               sourceDb: string, content: string, keywords: seq<string>)

  /** One index record: its id, the text the encoder is given, the vector
      it returned, and the metadata. */
  datatype Record = Record(id: string, embedded: string, values: seq<real>, metadata: Metadata)

  /** The field names tried for each value, in order. */
  const UrlFields: seq<string> := ["News Page URL", "url", "URL"]
  const DateFields: seq<string> := ["Date", "date", "published_date"]
  const TitleFields: seq<string> := ["News Title", "title", "headline"]
  const ContentFields: seq<string> := ["Page Content", "content", "article_text", "body"]

  /** The first non-empty value among the named fields, or "". */
  function FirstNonEmpty(fields: map<string, string>, names: seq<string>): (r: string)
    ensures r == "" <==> forall k :: 0 <= k < |names| ==> GetOr(fields, names[k], "") == ""
    ensures r != "" ==> exists k :: 0 <= k < |names| && GetOr(fields, names[k], "") == r
                                    && forall j :: 0 <= j < k ==> GetOr(fields, names[j], "") == ""
  {
    if |names| == 0 then ""
    else
      var v := GetOr(fields, names[0], "");
      if v != "" then v
      else
        var r := FirstNonEmpty(fields, names[1..]);
        assert forall k :: 1 <= k < |names| ==> names[k] == names[1..][k - 1];
        if r != "" then
          var k :| 0 <= k < |names[1..]| && GetOr(fields, names[1..][k], "") == r
            && forall j :: 0 <= j < k ==> GetOr(fields, names[1..][j], "") == "";
          assert GetOr(fields, names[k + 1], "") == r;
          r
        else r
  }

  /** A document is skipped when it has neither title nor content, or when
      "title content" stripped has fewer than ten characters. */
  predicate Skips(title: string, content: string)
    ensures |title| + |content| < 9 ==> Skips(title, content)
    ensures !Skips(title, content) ==> |Strip(title + " " + content)| >= 10
  {
    (title == "" && content == "") || |Strip(title + " " + content)| < 10
  }

  /** The upper limit the metadata is kept under, and the allowance for
      field names and JSON structure. */
  const MetadataLimit: int := 39000
  const Overhead: int := 200

  /** The marker put after cut content. */
  const CutMarker: string := "... [truncated]"

  /** `str(keywords)` for a list of strings without quotes or backslashes. */
  function ListRepr(xs: seq<string>): (r: string)
    ensures |r| >= 2 && r[0] == '[' && r[|r| - 1] == ']'
    ensures |xs| == 0 ==> r == "[]"
  {
    "[" + Join(seq(|xs|, i requires 0 <= i < |xs| => "'" + xs[i] + "'"), ", ") + "]"
  }

  /** The room left for the content: the limit minus every other field's
      length and the allowance. It is negative when the other fields alone
      exceed the limit. */
  function Budget(url: string, date: string, title: string, mongoId: string, dbName: string, keywords: seq<string>): (b: int)
    ensures b <= MetadataLimit - Overhead - 2 - |title| - |url|
  {
    MetadataLimit - (|url| + |date| + |title| + |mongoId| + |dbName| + |ListRepr(keywords)| + Overhead)
  }

  /** Python's `s[:k]`: a negative `k` counts from the end. */
  function PyPrefix(s: string, k: int): (r: string)
    ensures k >= 0 ==> r == s[..if k < |s| then k else |s|]
    ensures k < 0 ==> r == s[..if |s| + k > 0 then |s| + k else 0]
  {
    if k >= 0 then (if k < |s| then s[..k] else s)
    else if |s| + k > 0 then s[..|s| + k] else []
  }

  /** The cut as the migration writes it: `content[:budget]` plus the
      marker whenever the content is longer than the budget, which for a
      negative budget keeps all but the last `-budget` characters. */
  function TruncateAsWritten(content: string, budget: int): (r: string)
    ensures |content| <= budget ==> r == content
    ensures |content| > budget ==>
      |r| >= |CutMarker| && EndsWith(r, CutMarker) && StartsWith(content, r[..|r| - |CutMarker|])
  {
    if |content| > budget then PyPrefix(content, budget) + CutMarker else content
  }

  /** A negative budget does not shrink the content to nothing: it drops
      only the last `-budget` characters. */
  lemma AsWrittenKeepsMost(content: string, budget: int)
    requires budget < 0 && |content| > -budget
    ensures TruncateAsWritten(content, budget) == content[..|content| + budget] + CutMarker
    ensures |TruncateAsWritten(content, budget)| > |CutMarker|
  {
  }

  /** A title of 39000 characters leaves a budget of -202, and 300
      characters of content then keep 98 of them. */
  lemma AsWrittenOverrun(title: string, content: string)
    requires |title| == 39000 && |content| == 300
    ensures Budget("", "", title, "", "", []) == -202
    ensures |TruncateAsWritten(content, Budget("", "", title, "", "", []))| == 98 + |CutMarker|
  {
    assert ListRepr([]) == "[]";
    AsWrittenKeepsMost(content, -202);
  }

  /** The cut as intended: at most `budget` characters of content, none when
      the budget is negative, then the marker. */
  function TruncateContent(content: string, budget: int): (r: string)
    ensures |content| <= budget ==> r == content
    ensures |content| > budget ==> |CutMarker| <= |r| <= (if budget > 0 then budget else 0) + |CutMarker|
    ensures |content| > budget ==> r[..|r| - |CutMarker|] == content[..|r| - |CutMarker|]
    ensures |content| > budget ==> r[|r| - |CutMarker|..] == CutMarker
  {
    if |content| > budget then
      var kept := content[..if budget > 0 then budget else 0];
      assert (kept + CutMarker)[..|kept|] == kept;
      kept + CutMarker
    else content
  }

  /** With a non-negative budget the metadata stays within the limit, the
      marker apart. */
  lemma MetadataWithinLimit(url: string, date: string, title: string, mongoId: string, dbName: string,
                            keywords: seq<string>, content: string)
    requires Budget(url, date, title, mongoId, dbName, keywords) >= 0
    ensures |url| + |date| + |title| + |mongoId| + |dbName| + |ListRepr(keywords)| + Overhead
      + |TruncateContent(content, Budget(url, date, title, mongoId, dbName, keywords))| <= MetadataLimit + |CutMarker|
  {
  }

  /** The keywords of a text: none without an extractor or when it fails. */
  function Keywords(extractor: Option<string -> Outcome<seq<string>>>, text: string): (r: seq<string>)
    ensures extractor.None? || extractor.value(text).Fail? ==> r == []
    ensures extractor.Some? && extractor.value(text).Ok? ==> r == extractor.value(text).value
  {
    match extractor
    case None => []
    case Some(extract) =>
      match extract(text)
      case Ok(keywords) => keywords
      case Fail(_) => []
  }

  /** A document's fields under their several names. */
  function UrlOf(doc: Doc): string { FirstNonEmpty(doc.fields, UrlFields) }
  function DateOf(doc: Doc): string { FirstNonEmpty(doc.fields, DateFields) }
  function TitleOf(doc: Doc): string { FirstNonEmpty(doc.fields, TitleFields) }
  function ContentOf(doc: Doc): string { FirstNonEmpty(doc.fields, ContentFields) }

  /** The text a document is embedded and its keywords extracted from. */
  function TextOf(doc: Doc): string { TitleOf(doc) + " " + ContentOf(doc) }

  /** What becomes of one document: skipped and counted, dropped because its
      embedding failed (the error is caught per document and counted
      nowhere), or a record for the buffer. */
  datatype Fate = Skip | Drop(message: string) | Ready(record: Record)

  /** The fate of a document. `encode` is the embedding model on the text
      `vectorize_text` gives it: the vector, or the failure message. */
  function Prepare(doc: Doc, dbName: string, extractor: Option<string -> Outcome<seq<string>>>,
                   encode: string -> Outcome<seq<real>>): (r: Fate)
    ensures r.Skip? <==> Skips(TitleOf(doc), ContentOf(doc))
    ensures r.Drop? <==> !Skips(TitleOf(doc), ContentOf(doc)) && encode(Dates.EmbeddingInput(TextOf(doc))).Fail?
    ensures r.Ready? ==>
      var rec := r.record;
      var keywords := Keywords(extractor, TextOf(doc));
      var date := Dates.ParseDate(Some(DateOf(doc)));
      rec.id == dbName + "_" + doc.id
      && rec.embedded == Dates.EmbeddingInput(TextOf(doc))
      && rec.values == encode(rec.embedded).value
      && rec.metadata == Metadata(UrlOf(doc), date, TitleOf(doc), doc.id, dbName,
                                  TruncateContent(ContentOf(doc), Budget(UrlOf(doc), date, TitleOf(doc), doc.id, dbName, keywords)),
                                  keywords)
  {
    var url := UrlOf(doc);
    var standardized := Dates.ParseDate(Some(DateOf(doc)));
    var title := TitleOf(doc);
    var content := ContentOf(doc);
    if Skips(title, content) then Skip
    else
      var text := title + " " + content;
      var embedded := Dates.EmbeddingInput(text);
      match encode(embedded)
      case Fail(e) => Drop(e)
      case Ok(vector) =>
        var keywords := Keywords(extractor, text);
        var budget := Budget(url, standardized, title, doc.id, dbName, keywords);
        Ready(Record(dbName + "_" + doc.id, embedded, vector,
                     Metadata(url, standardized, title, doc.id, dbName, TruncateContent(content, budget), keywords)))
  }

  /** Record ids are "db_mongoid": two documents of one database with
      different ids never overwrite each other's record. */
  lemma RecordIdsDistinct(a: Doc, b: Doc, dbName: string, extractor: Option<string -> Outcome<seq<string>>>,
                          encode: string -> Outcome<seq<real>>)
    requires Prepare(a, dbName, extractor, encode).Ready? && Prepare(b, dbName, extractor, encode).Ready?
    requires a.id != b.id
    ensures Prepare(a, dbName, extractor, encode).record.id != Prepare(b, dbName, extractor, encode).record.id
  {
    var p := dbName + "_";
    assert (p + a.id)[|p|..] == a.id;
    assert (p + b.id)[|p|..] == b.id;
  }

  /** What each document yields, in order. */
  function Prepared(docs: seq<Doc>, dbName: string, extractor: Option<string -> Outcome<seq<string>>>,
                    encode: string -> Outcome<seq<real>>): (r: seq<Fate>)
    ensures |r| == |docs| && forall i :: 0 <= i < |docs| ==> r[i] == Prepare(docs[i], dbName, extractor, encode)
  {
    seq(|docs|, i requires 0 <= i < |docs| => Prepare(docs[i], dbName, extractor, encode))
  }

  /** The records of the documents, in order, the skipped and dropped ones
      left out. */
  function Records(docs: seq<Doc>, dbName: string, extractor: Option<string -> Outcome<seq<string>>>,
                   encode: string -> Outcome<seq<real>>): (r: seq<Record>)
    ensures |r| <= |docs|
    ensures forall rec :: rec in r <==> exists i :: 0 <= i < |docs| && Prepare(docs[i], dbName, extractor, encode) == Ready(rec)
  {
    var prepared := Prepared(docs, dbName, extractor, encode);
    ReadyMember(prepared);
    ReadyRecords(prepared)
  }

  /** The records of the ready documents, in order. */
  function ReadyRecords(fates: seq<Fate>): (r: seq<Record>)
    ensures |r| <= |fates|
  {
    if |fates| == 0 then []
    else
      var n := |fates| - 1;
      ReadyRecords(fates[..n]) + (if fates[n].Ready? then [fates[n].record] else [])
  }

  /** The number of skipped documents, and of dropped ones. */
  function SkipCount(fates: seq<Fate>): nat {
    if |fates| == 0 then 0 else SkipCount(fates[..|fates| - 1]) + (if fates[|fates| - 1].Skip? then 1 else 0)
  }

  function DropCount(fates: seq<Fate>): nat {
    if |fates| == 0 then 0 else DropCount(fates[..|fates| - 1]) + (if fates[|fates| - 1].Drop? then 1 else 0)
  }

  /** Every document is ready, skipped or dropped: a dropped one is counted
      neither as processed nor as skipped. */
  lemma {:induction false} FatesAddUp(fates: seq<Fate>)
    ensures |ReadyRecords(fates)| + SkipCount(fates) + DropCount(fates) == |fates|
  {
    if |fates| > 0 {
      FatesAddUp(fates[..|fates| - 1]);
    }
  }

  lemma ReadyStep(fates: seq<Fate>, i: nat)
    requires i < |fates|
    ensures ReadyRecords(fates[..i + 1]) == ReadyRecords(fates[..i]) + (if fates[i].Ready? then [fates[i].record] else [])
    ensures SkipCount(fates[..i + 1]) == SkipCount(fates[..i]) + (if fates[i].Skip? then 1 else 0)
  {
    assert fates[..i + 1][..i] == fates[..i];
  }

  lemma {:induction false} ReadyMember(fates: seq<Fate>)
    ensures forall x :: x in ReadyRecords(fates) <==> exists i :: 0 <= i < |fates| && fates[i] == Ready(x)
  {
    if |fates| > 0 {
      var n := |fates| - 1;
      ReadyMember(fates[..n]);
      forall x ensures x in ReadyRecords(fates) <==> exists i :: 0 <= i < |fates| && fates[i] == Ready(x) {
        if x in ReadyRecords(fates[..n]) {
          var i :| 0 <= i < n && fates[..n][i] == Ready(x);
          assert fates[i] == Ready(x);
        }
        if exists i :: 0 <= i < |fates| && fates[i] == Ready(x) {
          var i :| 0 <= i < |fates| && fates[i] == Ready(x);
          if i < n {
            assert fates[..n][i] == Ready(x);
          }
        }
      }
    }
  }

  /** The documents from the resume point on: all of them without a resume
      id or with one that does not parse, else those with `_id >=` it. */
  function Selected(docs: seq<Doc>, resumeId: string, parseOid: string -> Option<nat>): (r: seq<Doc>)
    ensures forall d :: d in r <==> d in docs && (resumeId == "" || parseOid(resumeId).None? || d.oid >= parseOid(resumeId).value)
  {
    if resumeId == "" || parseOid(resumeId).None? then docs
    else From(docs, parseOid(resumeId).value)
  }

  function From(docs: seq<Doc>, start: nat): (r: seq<Doc>)
    ensures forall d :: d in r <==> d in docs && d.oid >= start
    ensures IsSubsequence(r, docs)
  {
    if |docs| == 0 then []
    else
      var n := |docs| - 1;
      var init := docs[..n];
      assert forall d :: d in docs <==> d in init || d == docs[n];
      var r := From(init, start);
      SubsequenceExtend(r, init, docs[n], docs[n].oid >= start);
      assert init + [docs[n]] == docs;
      if docs[n].oid >= start then r + [docs[n]]
      else
        assert r + [] == r;
        r
  }

  /** The size of an upload: the buffer is sent once it holds `batchSize`
      records, which for a size of 0 is after every record. */
  function BatchLimit(batchSize: nat): (n: nat)
    ensures n >= 1 && (batchSize >= 1 ==> n == batchSize)
  {
    if batchSize == 0 then 1 else batchSize
  }

  /** Every batch before the last holds exactly the limit, none is empty or
      larger. */
  predicate WellCut(uploads: seq<seq<Record>>, limit: nat) {
    (forall i :: 0 <= i < |uploads| ==> 0 < |uploads[i]| <= limit)
    && (forall i :: 0 <= i < |uploads| - 1 ==> |uploads[i]| == limit)
  }

  /** What holds of the uploads made so far: each holds at least the limit;
      while no upsert has failed, each holds exactly the limit and the
      buffer is below it. */
  predicate Batched(uploads: seq<seq<Record>>, buffer: seq<Record>, limit: nat, calls: nat, accepts: nat -> bool) {
    (forall k :: 0 <= k < |uploads| ==> |uploads[k]| >= limit)
    && ((forall k :: 0 <= k < calls ==> accepts(k)) ==>
          |buffer| < limit && forall k :: 0 <= k < |uploads| ==> |uploads[k]| == limit)
  }

  /** `migrate_collection_to_pinecone`. The index's upserts are the
      parameter `accepts`: upsert number `k` (from 0) succeeds when
      `accepts(k)`. The records of the selected documents are uploaded in
      order and none twice; a failed upsert keeps its records in the buffer,
      so they go out again with the next upsert. The count returned is the
      number of records when all of them were uploaded, and 0 when the final
      upsert failed. A failed collection yields 0 and no upload. */
  method MigrateCollection(collection: Outcome<seq<Doc>>, dbName: string,
                           extractor: Option<string -> Outcome<seq<string>>>,
                           encode: string -> Outcome<seq<real>>, batchSize: nat,
                           resumeId: string, parseOid: string -> Option<nat>, accepts: nat -> bool)
    returns (processed: nat, skipped: nat, uploads: seq<seq<Record>>)
    ensures collection.Fail? ==> processed == 0 && skipped == 0 && uploads == []
    ensures collection.Ok? ==>
      var records := Records(Selected(collection.value, resumeId, parseOid), dbName, extractor, encode);
      Flatten(uploads) <= records
      && processed == (if Flatten(uploads) == records then |records| else 0)
      && skipped == SkipCount(Prepared(Selected(collection.value, resumeId, parseOid), dbName, extractor, encode))
    ensures collection.Ok? && (forall k :: accepts(k)) ==>
      Flatten(uploads) == Records(Selected(collection.value, resumeId, parseOid), dbName, extractor, encode)
      && WellCut(uploads, BatchLimit(batchSize))
    ensures forall i :: 0 <= i < |uploads| ==> |uploads[i]| > 0
    ensures forall i :: 0 <= i < |uploads| - 1 ==> |uploads[i]| >= BatchLimit(batchSize)
  {
    if collection.Fail? {
      return 0, 0, [];
    }
    var docs := Selected(collection.value, resumeId, parseOid);
    processed, skipped, uploads := Upload(Prepared(docs, dbName, extractor, encode), batchSize, accepts);
  }

  /** The batching loop: ready records go to the buffer, which is upserted
      once it holds `batchSize` of them and cleared when the upsert
      succeeds; what is left is upserted at the end, and a failure there
      makes the count 0. */
  method Upload(fates: seq<Fate>, batchSize: nat, accepts: nat -> bool)
    returns (processed: nat, skipped: nat, uploads: seq<seq<Record>>)
    ensures Flatten(uploads) <= ReadyRecords(fates)
    ensures processed == if Flatten(uploads) == ReadyRecords(fates) then |ReadyRecords(fates)| else 0
    ensures skipped == SkipCount(fates)
    ensures (forall k :: accepts(k)) ==> Flatten(uploads) == ReadyRecords(fates) && WellCut(uploads, BatchLimit(batchSize))
    ensures forall i :: 0 <= i < |uploads| ==> |uploads[i]| > 0
    ensures forall i :: 0 <= i < |uploads| - 1 ==> |uploads[i]| >= BatchLimit(batchSize)
  {
    var buffer: seq<Record> := [];
    var calls: nat := 0;
    uploads := [];
    processed, skipped := 0, 0;
    for i := 0 to |fates|
      invariant Flatten(uploads) + buffer == ReadyRecords(fates[..i])
      invariant processed == |ReadyRecords(fates[..i])| && skipped == SkipCount(fates[..i])
      invariant Batched(uploads, buffer, BatchLimit(batchSize), calls, accepts)
    {
      ReadyStep(fates, i);
      match fates[i] {
        case Skip =>
          skipped := skipped + 1;
        case Drop(_) =>
        case Ready(record) =>
          processed := processed + 1;
          uploads, buffer, calls := Buffer(record, batchSize, uploads, buffer, calls, accepts);
      }
    }
    PrefixAll(fates);
    uploads, processed := SendRest(batchSize, uploads, buffer, calls, accepts, processed);
  }

  /** What is left in the buffer is upserted as a last, shorter upload; when
      that upsert fails the migration reports 0. */
  method SendRest(batchSize: nat, uploads: seq<seq<Record>>, buffer: seq<Record>, calls: nat,
                  accepts: nat -> bool, processed: nat)
    returns (uploads': seq<seq<Record>>, processed': nat)
    requires Batched(uploads, buffer, BatchLimit(batchSize), calls, accepts)
    ensures |buffer| == 0 || accepts(calls) ==> Flatten(uploads') == Flatten(uploads) + buffer && processed' == processed
    ensures |buffer| > 0 && !accepts(calls) ==> uploads' == uploads && processed' == 0
    ensures (forall k :: accepts(k)) ==> WellCut(uploads', BatchLimit(batchSize))
    ensures forall i :: 0 <= i < |uploads'| ==> |uploads'[i]| > 0
    ensures forall i :: 0 <= i < |uploads'| - 1 ==> |uploads'[i]| >= BatchLimit(batchSize)
  {
    uploads', processed' := uploads, processed;
    if |buffer| > 0 {
      if accepts(calls) {
        FlattenAppend(uploads, buffer);
        uploads' := uploads + [buffer];
      } else {
        processed' := 0;
      }
    } else {
      assert Flatten(uploads) + buffer == Flatten(uploads);
    }
  }

  /** A ready record goes to the buffer; once the buffer holds `batchSize`
      records it is upserted (upsert number `calls`) and cleared if the
      upsert succeeds. */
  method Buffer(record: Record, batchSize: nat, uploads: seq<seq<Record>>, buffer: seq<Record>,
                calls: nat, accepts: nat -> bool)
    returns (uploads': seq<seq<Record>>, buffer': seq<Record>, calls': nat)
    requires Batched(uploads, buffer, BatchLimit(batchSize), calls, accepts)
    ensures Flatten(uploads') + buffer' == Flatten(uploads) + buffer + [record]
    ensures Batched(uploads', buffer', BatchLimit(batchSize), calls', accepts)
  {
    var b := buffer + [record];
    if |b| >= batchSize {
      if accepts(calls) {
        FlushStep(uploads, buffer, record);
        uploads', buffer' := uploads + [b], [];
      } else {
        uploads', buffer' := uploads, b;
      }
      calls' := calls + 1;
    } else {
      uploads', buffer', calls' := uploads, b, calls;
    }
  }

  lemma FlushStep(uploads: seq<seq<Record>>, buffer: seq<Record>, record: Record)
    ensures Flatten(uploads + [buffer + [record]]) + [] == Flatten(uploads) + buffer + [record]
  {
    FlattenAppend(uploads, buffer + [record]);
  }
}

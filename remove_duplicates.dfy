/** The duplicate remover for the scraped news collections: for every
    distinct url the first document in `find` order is kept and the others
    with that url are deleted, the deletions are counted, and the three
    collections are processed one after another with the failure of one
    not stopping the others. */
module RemoveDuplicates {
  import opened Wrappers
  import opened Lists

  /** A stored document: its `_id` and its `url` field, which a document
      may lack (the Newswire scraper stores its link under another key). */
  datatype Doc = Doc(id: nat, url: Option<string>)

  /** `_id` is unique within a collection. */
  predicate UniqueIds(docs: seq<Doc>) {
    forall i, j :: 0 <= i < j < |docs| ==> docs[i].id != docs[j].id
  }

  /** `distinct('url')`: the urls of the documents that have one. */
  function Urls(docs: seq<Doc>): set<string> {
    set d | d in docs && d.url.Some? :: d.url.value
  }

  function UrlIs(url: string): Doc -> bool {
    (d: Doc) => d.url == Some(url)
  }

  function IdNotIn(ids: set<nat>): Doc -> bool {
    (d: Doc) => d.id !in ids
  }

  /** `find({'url': url})`: the documents with that url, in `find` order. */
  function WithUrl(docs: seq<Doc>, url: string): seq<Doc> {
    Filter(docs, UrlIs(url))
  }

  /** `d` has a url and is the first document of `docs` with it. */
  predicate IsFirst(docs: seq<Doc>, d: Doc) {
    d.url.Some? && |WithUrl(docs, d.url.value)| > 0 && WithUrl(docs, d.url.value)[0].id == d.id
  }

  /** Once the urls in `done` are handled, a document of the original
      collection `docs` remains when it has no url, when its url is not
      handled yet, or when it is the first with its url. */
  function KeepRule(docs: seq<Doc>, done: set<string>): Doc -> bool {
    (d: Doc) => d.url.None? || d.url.value !in done || IsFirst(docs, d)
  }

  function Handled(docs: seq<Doc>, done: set<string>): seq<Doc> {
    Filter(docs, KeepRule(docs, done))
  }

  /** The collection once every url is handled. */
  function Deduplicated(docs: seq<Doc>): (r: seq<Doc>)
    ensures |r| <= |docs|
  {
    Handled(docs, Urls(docs))
  }

  /** A collection of documents, changed in place by deletions. */
  class Collection {
    var docs: seq<Doc>

    predicate Valid()
      reads this
    {
      UniqueIds(docs)
    }

    constructor(docs: seq<Doc>)
      requires UniqueIds(docs)
      ensures this.docs == docs && Valid()
    {
      this.docs := docs;
    }

    /** `delete_many({'_id': {'$in': ids}})` and its `deleted_count`. */
    method DeleteMany(ids: set<nat>) returns (deleted: nat)
      requires Valid()
      modifies this
      ensures docs == Filter(old(docs), IdNotIn(ids))
      ensures deleted == |old(docs)| - |docs|
      ensures Valid()
    {
      var before := docs;
      docs := Filter(docs, IdNotIn(ids));
      FilterUnique(before, IdNotIn(ids));
      deleted := |before| - |docs|;
    }
  }

  lemma {:induction false} FilterUnique(docs: seq<Doc>, keep: Doc -> bool)
    requires UniqueIds(docs)
    ensures UniqueIds(Filter(docs, keep))
  {
    if |docs| > 0 {
      var n := |docs| - 1;
      FilterUnique(docs[..n], keep);
      FilterMember(docs[..n], keep);
      var r := Filter(docs[..n], keep);
      forall i | 0 <= i < |r| ensures r[i].id != docs[n].id {
        assert r[i] in docs[..n];
      }
    }
  }

  /** Two documents of a collection with one id are the same document. */
  lemma SameId(docs: seq<Doc>, a: Doc, b: Doc)
    requires UniqueIds(docs) && a in docs && b in docs && a.id == b.id
    ensures a == b
  {
  }

  /** The ids `delete_many` gets for a url: all but the first document's. */
  function Duplicates(docs: seq<Doc>, url: string): set<nat> {
    var w := WithUrl(docs, url);
    set k | 1 <= k < |w| :: w[k].id
  }

  /** Handling one more url deletes exactly its duplicates. */
  lemma HandleOne(docs: seq<Doc>, done: set<string>, url: string, d: Doc)
    requires UniqueIds(docs) && d in docs && url !in done
    ensures (KeepRule(docs, done)(d) && IdNotIn(Duplicates(docs, url))(d)) == KeepRule(docs, done + {url})(d)
  {
    var w := WithUrl(docs, url);
    FilterMember(docs, UrlIs(url));
    FilterUnique(docs, UrlIs(url));
    if d.url == Some(url) {
      var k :| 0 <= k < |w| && w[k] == d;
      if k > 0 {
        assert d.id in Duplicates(docs, url);
      }
    } else {
      forall k | 1 <= k < |w| ensures w[k].id != d.id {
        if w[k].id == d.id {
          assert w[k] in docs;
          SameId(docs, w[k], d);
        }
      }
    }
  }

  /** While the url is not handled, every document with it is still there. */
  lemma FindUnhandled(docs: seq<Doc>, done: set<string>, url: string)
    requires url !in done
    ensures WithUrl(Handled(docs, done), url) == WithUrl(docs, url)
  {
    FilterCompose(docs, KeepRule(docs, done), UrlIs(url), UrlIs(url));
  }

  lemma HandleStep(docs: seq<Doc>, done: set<string>, url: string)
    requires UniqueIds(docs) && url !in done
    ensures Filter(Handled(docs, done), IdNotIn(Duplicates(docs, url))) == Handled(docs, done + {url})
  {
    forall d | d in docs
      ensures (KeepRule(docs, done)(d) && IdNotIn(Duplicates(docs, url))(d)) == KeepRule(docs, done + {url})(d)
    {
      HandleOne(docs, done, url, d);
    }
    FilterCompose(docs, KeepRule(docs, done), IdNotIn(Duplicates(docs, url)), KeepRule(docs, done + {url}));
  }

  lemma HandledNone(docs: seq<Doc>)
    ensures Handled(docs, {}) == docs
  {
    FilterAll(docs, KeepRule(docs, {}));
  }

  /** The result of a url with one document or none is the same as deleting
      nothing. */
  lemma NothingToDelete(docs: seq<Doc>, url: string)
    requires |WithUrl(docs, url)| <= 1
    ensures Duplicates(docs, url) == {}
  {
  }

  /** One url of the loop: the documents with it are found and all but
      the first are deleted when there is more than one. */
  method RemoveForUrl(c: Collection, ghost docs0: seq<Doc>, ghost done: set<string>, url: string)
    returns (deleted: nat)
    requires c.Valid() && UniqueIds(docs0) && c.docs == Handled(docs0, done) && url !in done
    modifies c
    ensures c.Valid() && c.docs == Handled(docs0, done + {url})
    ensures deleted == |old(c.docs)| - |c.docs|
  {
    var withUrl := WithUrl(c.docs, url);
    FindUnhandled(docs0, done, url);
    HandleStep(docs0, done, url);
    deleted := 0;
    if |withUrl| > 1 {
      var ids := set k | 1 <= k < |withUrl| :: withUrl[k].id;
      deleted := c.DeleteMany(ids);
    } else {
      NothingToDelete(docs0, url);
      FilterAll(c.docs, IdNotIn({}));
    }
  }

  /** Whether a run on a collection of `docs` returns a count: the database
      raises no error before the end (`fault` is the turn of the url loop at
      which it does, a turn equal to the number of urls standing for the
      count after the loop), and the collection is not empty, for the
      summary line divides by its size. */
  predicate Succeeds(docs: seq<Doc>, fault: Option<nat>) {
    |docs| > 0 && (fault.None? || fault.value > |Urls(docs)|)
  }

  /** `remove_duplicates_for_collection`: for each distinct url (in the
      order `distinct` gives, which the model leaves open), the documents
      after the first with that url are deleted. It returns the number
      deleted, which is the count before minus the count after, or fails
      on the division by zero of the reduction percentage when the
      collection was empty. A database error at turn `fault` ends the run
      with a failure and leaves the deletions of the urls handled before
      it (`handled`); an error in the first count or in `distinct` has the
      effect of one at turn 0. */
  method RemoveDuplicatesFor(c: Collection, fault: Option<nat>) returns (r: Outcome<nat>, ghost handled: set<string>)
    requires c.Valid()
    modifies c
    ensures c.Valid()
    ensures handled <= Urls(old(c.docs)) && c.docs == Handled(old(c.docs), handled)
    ensures fault.None? || fault.value > |Urls(old(c.docs))| ==> handled == Urls(old(c.docs))
    ensures fault.Some? && fault.value <= |Urls(old(c.docs))| ==> |handled| == fault.value
    ensures fault.None? ==> c.docs == Deduplicated(old(c.docs))
    ensures r.Ok? <==> Succeeds(old(c.docs), fault)
    ensures r.Ok? ==> r.value == |old(c.docs)| - |c.docs| && c.docs == Deduplicated(old(c.docs))
  {
    var totalDocs := |c.docs|;
    var failed, removed;
    failed, handled, removed := RemoveAllUrls(c, fault);
    if failed {
      return Fail("database error"), handled;
    }
    if totalDocs == 0 {
      return Fail("division by zero"), handled;
    }
    r := Ok(removed);
  }

  /** Moving one url from the remaining ones to the handled ones keeps them
      a partition of the urls. */
  lemma MoveUrl(urls: set<string>, remaining: set<string>, done: set<string>, url: string)
    requires remaining <= urls && done == urls - remaining && url in remaining
    requires |done| + |remaining| == |urls|
    ensures remaining - {url} <= urls && done + {url} == urls - (remaining - {url})
    ensures |done + {url}| + |remaining - {url}| == |urls| && url !in done
  {
  }

  /** One turn of the url loop, with its bookkeeping. */
  method HandleUrl(c: Collection, ghost docs0: seq<Doc>, ghost urls: set<string>, remaining: set<string>,
                   ghost done: set<string>, removed: nat, url: string)
    returns (remaining': set<string>, ghost done': set<string>, removed': nat)
    requires UniqueIds(docs0) && urls == Urls(docs0)
    requires remaining <= urls && done == urls - remaining && url in remaining && |done| + |remaining| == |urls|
    requires c.Valid() && c.docs == Handled(docs0, done) && removed == |docs0| - |c.docs|
    modifies c
    ensures remaining' == remaining - {url} && done' == done + {url}
    ensures remaining' <= urls && done' == urls - remaining' && |done'| == |done| + 1 && |done'| + |remaining'| == |urls|
    ensures c.Valid() && c.docs == Handled(docs0, done') && removed' == |docs0| - |c.docs|
  {
    MoveUrl(urls, remaining, done, url);
    var deleted := RemoveForUrl(c, docs0, done, url);
    removed' := removed + deleted;
    remaining' := remaining - {url};
    done' := done + {url};
  }

  /** The url loop and the count after it: every url is handled unless the
      database fails first, at turn `fault`. */
  method RemoveAllUrls(c: Collection, fault: Option<nat>) returns (failed: bool, ghost done: set<string>, removed: nat)
    requires c.Valid()
    modifies c
    ensures c.Valid() && done <= Urls(old(c.docs)) && c.docs == Handled(old(c.docs), done)
    ensures failed <==> fault.Some? && fault.value <= |Urls(old(c.docs))|
    ensures failed ==> |done| == fault.value
    ensures !failed ==> done == Urls(old(c.docs)) && removed == |old(c.docs)| - |c.docs|
  {
    ghost var docs0 := c.docs;
    var urls := Urls(c.docs);
    var remaining := urls;
    done := {};
    assert UniqueIds(docs0);
    var turn: nat := 0;
    removed := 0;
    HandledNone(docs0);
    while remaining != {}
      invariant remaining <= urls && done == urls - remaining
      invariant turn == |done| && |done| + |remaining| == |urls|
      invariant fault.Some? ==> turn <= fault.value
      invariant c.Valid() && c.docs == Handled(docs0, done)
      invariant removed == |docs0| - |c.docs|
      decreases remaining
    {
      var url :| url in remaining;
      if fault.Some? && fault.value == turn {
        assert |remaining| > 0 by { assert url in remaining; }
        return true, done, removed;
      }
      remaining, done, removed := HandleUrl(c, docs0, urls, remaining, done, removed, url);
      turn := turn + 1;
    }
    assert done == Urls(docs0) && turn == |Urls(docs0)|;
    failed := fault.Some? && fault.value == turn;
  }

  /** After deduplication every url occurs once. */
  lemma DeduplicatedOnce(docs: seq<Doc>)
    requires UniqueIds(docs)
    ensures forall i, j :: 0 <= i < j < |Deduplicated(docs)| && Deduplicated(docs)[i].url.Some? ==>
      Deduplicated(docs)[i].url != Deduplicated(docs)[j].url
  {
    var r := Deduplicated(docs);
    FilterUnique(docs, KeepRule(docs, Urls(docs)));
    FilterMember(docs, KeepRule(docs, Urls(docs)));
    forall i, j | 0 <= i < j < |r| && r[i].url.Some? ensures r[i].url != r[j].url {
      assert r[i] in docs && r[j] in docs;
    }
  }

  /** Documents are only deleted: what is left is the collection with some
      documents taken out, in the same order. */
  lemma DeduplicatedOnlyDeletes(docs: seq<Doc>)
    ensures IsSubsequence(Deduplicated(docs), docs)
  {
    FilterSubsequence(docs, KeepRule(docs, Urls(docs)));
  }

  /** The document kept for each url is the first one with that url, and
      every url keeps one. */
  lemma DeduplicatedKeepsFirst(docs: seq<Doc>)
    requires UniqueIds(docs)
    ensures forall d :: d in Deduplicated(docs) && d.url.Some? ==>
      |WithUrl(docs, d.url.value)| > 0 && d == WithUrl(docs, d.url.value)[0]
    ensures Urls(Deduplicated(docs)) == Urls(docs)
  {
    var r := Deduplicated(docs);
    FilterMember(docs, KeepRule(docs, Urls(docs)));
    forall d | d in r && d.url.Some? ensures |WithUrl(docs, d.url.value)| > 0 && d == WithUrl(docs, d.url.value)[0] {
      FilterMember(docs, UrlIs(d.url.value));
      assert WithUrl(docs, d.url.value)[0] in docs;
      SameId(docs, d, WithUrl(docs, d.url.value)[0]);
    }
    forall u | u in Urls(docs) ensures u in Urls(r) {
      var d :| d in docs && d.url == Some(u);
      FilterMember(docs, UrlIs(u));
      var first := WithUrl(docs, u)[0];
      assert first in docs && first.url == Some(u);
      assert first in r;
    }
  }

  /** A document without a url is never deleted: `distinct('url')` leaves
      it out and no `find({'url': url})` returns it. A collection none of
      whose documents has a url is left as it is. */
  lemma UrlLessKept(docs: seq<Doc>, handled: set<string>)
    ensures forall d :: d in docs && d.url.None? ==> d in Handled(docs, handled)
    ensures Urls(docs) == {} ==> Deduplicated(docs) == docs
  {
    FilterMember(docs, KeepRule(docs, handled));
    if Urls(docs) == {} {
      HandledNone(docs);
    }
  }

  /** The collection `docs` is `docs0` with the urls of some set handled. */
  ghost predicate PartlyHandled(docs0: seq<Doc>, docs: seq<Doc>) {
    exists h :: h <= Urls(docs0) && docs == Handled(docs0, h)
  }

  /** `remove_duplicates_all_collections`: each collection in turn, a
      failing one reported and passed over with the deletions it made
      before failing kept; the total counts the successful ones.
      `faults[i]` is where the database fails on collection `i`. */
  method RemoveDuplicatesAll(cols: seq<Collection>, ghost before: seq<seq<Doc>>, faults: seq<Option<nat>>)
    returns (total: nat)
    requires |before| == |cols| && |faults| == |cols|
    requires forall i, j :: 0 <= i < j < |cols| ==> cols[i] != cols[j]
    requires forall i :: 0 <= i < |cols| ==> cols[i].Valid() && cols[i].docs == before[i]
    modifies set i | 0 <= i < |cols| :: cols[i]
    ensures forall i :: 0 <= i < |cols| ==> PartlyHandled(before[i], cols[i].docs)
    ensures forall i :: 0 <= i < |cols| && faults[i].None? ==> cols[i].docs == Deduplicated(before[i])
    ensures total == TotalRemoved(before, faults)
  {
    assert forall j :: 0 <= j < |cols| ==> UniqueIds(before[j]);
    total := 0;
    for i := 0 to |cols|
      invariant forall j :: 0 <= j < i ==> PartlyHandled(before[j], cols[j].docs)
      invariant forall j :: 0 <= j < i && faults[j].None? ==> cols[j].docs == Deduplicated(before[j])
      invariant forall j :: i <= j < |cols| ==> cols[j].docs == before[j]
      invariant total == TotalRemoved(before[..i], faults[..i])
    {
      assert forall j :: 0 <= j < |cols| && j != i ==> cols[j] != cols[i];
      assert cols[i].Valid();
      var n := RemoveFrom(cols[i], before[i], faults[i]);
      TotalStep(before, faults, i);
      total := total + n;
    }
    assert before[..|cols|] == before;
    assert faults[..|cols|] == faults;
  }

  /** One turn of `remove_duplicates_all_collections`: the deletions the
      collection adds to the total. */
  method RemoveFrom(c: Collection, ghost docs0: seq<Doc>, fault: Option<nat>) returns (n: nat)
    requires c.Valid() && c.docs == docs0
    modifies c
    ensures PartlyHandled(docs0, c.docs)
    ensures fault.None? ==> c.docs == Deduplicated(docs0)
    ensures n == if Succeeds(docs0, fault) then |docs0| - |Deduplicated(docs0)| else 0
  {
    var r;
    ghost var h;
    r, h := RemoveDuplicatesFor(c, fault);
    assert h <= Urls(docs0) && c.docs == Handled(docs0, h);
    n := if r.Ok? then r.value else 0;
  }

  lemma TotalStep(before: seq<seq<Doc>>, faults: seq<Option<nat>>, i: nat)
    requires |faults| == |before| && i < |before|
    ensures TotalRemoved(before[..i + 1], faults[..i + 1])
            == TotalRemoved(before[..i], faults[..i])
               + (if Succeeds(before[i], faults[i]) then |before[i]| - |Deduplicated(before[i])| else 0)
  {
    assert before[..i + 1][..i] == before[..i];
    assert faults[..i + 1][..i] == faults[..i];
  }

  /** The deletions counted over the collections: only a run that succeeds
      adds its deletions. */
  function TotalRemoved(before: seq<seq<Doc>>, faults: seq<Option<nat>>): nat
    requires |faults| == |before|
  {
    if |before| == 0 then 0
    else
      var n := |before| - 1;
      TotalRemoved(before[..n], faults[..n])
        + (if Succeeds(before[n], faults[n]) then |before[n]| - |Deduplicated(before[n])| else 0)
  }
}

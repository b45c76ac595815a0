/** The language-model entity extractor used on queries: the reply is read
    as a JSON object from entity type to a list of entities, and the lists
    are concatenated. The model's reply is a parameter (its text or the
    failure message), and so is `json.loads` restricted to objects of
    string lists (`parse`, None where it raises). A JSON object is a sequence of (key, value) pairs in key
    order. */
module EntityExtractionAgent {
  import opened Wrappers
  import opened Text
  import opened Lists

  type Entities = seq<(string, seq<string>)>

  /** The entity lists, in key order. */
  function Values(entities: Entities): (lists: seq<seq<string>>)
    ensures |lists| == |entities| && forall i :: 0 <= i < |entities| ==> lists[i] == entities[i].1
  {
    seq(|entities|, i requires 0 <= i < |entities| => entities[i].1)
  }

  /** `extract_entities`: the parsed stripped reply, as it is; `{}` when the
      call fails or `parse` rejects the reply. */
  function ExtractEntities(reply: Outcome<string>, parse: string -> Option<Entities>): (r: Entities)
    ensures reply.Fail? ==> r == []
    ensures reply.Ok? && parse(Strip(reply.value)).None? ==> r == []
    ensures reply.Ok? && parse(Strip(reply.value)).Some? ==> r == parse(Strip(reply.value)).value
  {
    match reply
    case Fail(_) => []
    case Ok(text) =>
      match parse(Strip(text))
      case None => []
      case Some(entities) => entities
  }

  /** `process_query`: the entities and all their lists concatenated in key
      order, neither lowercased nor deduplicated. */
  method ProcessQuery(reply: Outcome<string>, parse: string -> Option<Entities>)
    returns (entities: Entities, all: seq<string>)
    ensures entities == ExtractEntities(reply, parse)
    ensures all == Flatten(Values(entities))
    ensures |all| == SumLengths(Values(entities))
    ensures forall x :: x in all <==> exists k :: 0 <= k < |entities| && x in entities[k].1
  {
    entities := ExtractEntities(reply, parse);
    ghost var lists := Values(entities);
    all := [];
    for i := 0 to |entities|
      invariant all == Flatten(lists[..i])
    {
      assert lists[..i + 1][..i] == lists[..i];
      all := all + entities[i].1;
    }
    assert lists[..|entities|] == lists;
    FlattenLength(lists);
    forall x ensures x in all <==> exists k :: 0 <= k < |entities| && x in entities[k].1 {
      FlattenMember(lists, x);
    }
  }

  /** A failed call, or a reply `parse` rejects, leaves nothing to search
      for. */
  lemma FailedExtractionIsEmpty(reply: Outcome<string>, parse: string -> Option<Entities>)
    requires reply.Fail? || parse(Strip(reply.value)).None?
    ensures Flatten(Values(ExtractEntities(reply, parse))) == []
  {
  }
}

/** The language-model entity extractor used on articles: only the start of
    the text is sent, and the entities of all types are merged into one
    lowercase collection without repetitions. */
module EntityExtraction {
  import opened Wrappers
  import opened Text
  import opened Lists
  import A = EntityExtractionAgent
  import SearchView

  /** How many characters of the article the model sees. */
  const ExcerptLimit: nat := 2000

  /** `text[:2000]`. */
  function Excerpt(text: string): (r: string)
    ensures |r| <= ExcerptLimit && |r| <= |text| && r == text[..|r|]
    ensures |text| <= ExcerptLimit ==> r == text
    ensures |text| > ExcerptLimit ==> |r| == ExcerptLimit
  {
    if |text| > ExcerptLimit then text[..ExcerptLimit] else text
  }

  /** `extract_entities`: the model sees the excerpt; the reply is read as
      the query agent reads it, `{}` on any failure. */
  function ExtractEntities(text: string, chat: string -> Outcome<string>,
                           parse: string -> Option<A.Entities>): (r: A.Entities)
    ensures chat(Excerpt(text)).Fail? ==> r == []
    ensures chat(Excerpt(text)).Ok? ==>
      var reply := Strip(chat(Excerpt(text)).value);
      r == if parse(reply).Some? then parse(reply).value else []
  {
    A.ExtractEntities(chat(Excerpt(text)), parse)
  }

  /** Only the first 2000 characters matter. */
  lemma OnlyExcerptMatters(text: string, other: string, chat: string -> Outcome<string>,
                           parse: string -> Option<A.Entities>)
    requires |text| >= ExcerptLimit && |other| >= ExcerptLimit
    requires text[..ExcerptLimit] == other[..ExcerptLimit]
    ensures ExtractEntities(text, chat, parse) == ExtractEntities(other, chat, parse)
  {
    assert Excerpt(text) == Excerpt(other);
  }

  /** `get_all_entities_as_list`: every entity lowercased, once each, in an
      order the set conversion leaves open. */
  method AllEntitiesAsList(entities: A.Entities) returns (r: seq<string>)
    ensures NoDups(r)
    ensures forall x :: x in r <==>
      exists i, j :: 0 <= i < |entities| && 0 <= j < |entities[i].1| && x == Lower(entities[i].1[j])
  {
    var all: seq<string> := [];
    for i := 0 to |entities|
      invariant all == SearchView.Keywords(entities[..i])
    {
      assert entities[..i + 1][..i] == entities[..i];
      all := all + SearchView.LowerAll(entities[i].1);
    }
    assert entities[..|entities|] == entities;
    var pool := set x | x in all;
    r := [];
    while pool != {}
      invariant NoDups(r)
      invariant forall x :: x in r ==> x in all && x !in pool
      invariant forall x :: x in all ==> x in r || x in pool
      invariant forall x :: x in pool ==> x in all
      decreases |pool|
    {
      var x :| x in pool;
      r := r + [x];
      pool := pool - {x};
    }
    forall x ensures x in r <==> exists i, j :: 0 <= i < |entities| && 0 <= j < |entities[i].1| && x == Lower(entities[i].1[j]) {
      SearchView.KeywordsMembers(entities, x);
    }
  }
}

/** The spaCy entity extractor used by the migration: the recogniser's
    entities are filtered by label, cleaned and deduplicated. The
    recogniser is a parameter: the entities it finds in a text, or the
    failure of the call. */
module EntityExtractionLocal {
  import opened Wrappers
  import opened Text
  import opened Lists

  /** What the extractor may be handed: a string, a list (its items as
      `str` shows them, an empty one being falsy) or any other value (as
      `str` shows it). */
  datatype Input = Str(text: string) | Items(items: seq<string>) | Other(shown: string)

  /** The non-empty items, in order. */
  function Truthy(items: seq<string>): (r: seq<string>)
    ensures forall x :: x in r <==> x in items && |x| > 0
  {
    if |items| == 0 then []
    else Truthy(items[..|items| - 1]) + (if |items[|items| - 1]| > 0 then [items[|items| - 1]] else [])
  }

  /** The text the recogniser is run on. */
  function Coerce(input: Input): (r: string)
    ensures input.Str? ==> r == input.text
    ensures input.Items? && |Truthy(input.items)| == 0 ==> r == ""
    ensures input.Items? && |Truthy(input.items)| == 1 ==> r == Truthy(input.items)[0]
  {
    match input
    case Str(text) => text
    case Items(items) => Join(Truthy(items), " ")
    case Other(shown) => shown
  }

  /** Items without spaces come back from the coerced text by splitting on
      spaces, the empty ones dropped. */
  lemma CoerceItems(items: seq<string>)
    requires forall x :: x in items ==> forall i :: 0 <= i < |x| ==> x[i] != ' '
    requires |Truthy(items)| > 0
    ensures Split(Coerce(Items(items)), " ") == Truthy(items)
  {
    var xs := Truthy(items);
    forall k | 0 <= k < |xs| ensures !Contains(xs[k], " ") {
      assert xs[k] in items;
      LacksChar(xs[k], " ", 0);
    }
    forall k | 0 <= k < |xs| - 1 ensures NoStraddle(xs[k], " " + Join(xs[k + 1..], " "), " ") {
      NoStraddleSingle(xs[k], " " + Join(xs[k + 1..], " "), " ");
    }
    SplitJoin(xs, " ");
  }

  /** One entity as the recogniser reports it. */
  datatype Ent = Ent(text: string, tag: string)

  /** The recogniser's labels that are kept, and the type each stands for. */
  const Mapping: map<string, string> := map[
    "PERSON" := "PERSON", "ORG" := "ORGANIZATION", "GPE" := "LOCATION",
    "LOC" := "LOCATION", "FAC" := "LOCATION", "EVENT" := "EVENT"
  ]

  /** The entity text stripped and lowercased. */
  function Cleaned(e: Ent): string {
    Lower(Strip(e.text))
  }

  /** The cleaned texts of the entities with a kept label and more than one
      character, in order, repetitions included. */
  function Candidates(ents: seq<Ent>): (r: seq<string>)
    ensures forall x :: x in r <==> exists e :: e in ents && e.tag in Mapping && |Cleaned(e)| > 1 && Cleaned(e) == x
  {
    if |ents| == 0 then []
    else
      var e := ents[|ents| - 1];
      var init := ents[..|ents| - 1];
      assert forall f :: f in ents <==> f in init || f == e;
      Candidates(init) + (if e.tag in Mapping && |Cleaned(e)| > 1 then [Cleaned(e)] else [])
  }

  /** `process_article_entities`: the recogniser's entities with a kept
      label, cleaned, longer than one character, each once in the order of
      its first occurrence; nothing when the recogniser fails. */
  method ProcessArticleEntities(input: Input, nlp: string -> Outcome<seq<Ent>>) returns (r: seq<string>)
    ensures nlp(Coerce(input)).Fail? ==> r == []
    ensures nlp(Coerce(input)).Ok? ==> r == Dedup(Candidates(nlp(Coerce(input)).value))
  {
    var text := Coerce(input);
    match nlp(text) {
      case Fail(_) =>
        return [];
      case Ok(ents) =>
        r := [];
        for i := 0 to |ents|
          invariant r == Dedup(Candidates(ents[..i]))
        {
          r := AddEntity(ents, i, r);
        }
        assert ents[..|ents|] == ents;
    }
  }

  /** One turn of the loop: the entity's cleaned text is appended when its
      label is kept, it is longer than one character and it is new. */
  method AddEntity(ents: seq<Ent>, i: nat, r: seq<string>) returns (r': seq<string>)
    requires i < |ents| && r == Dedup(Candidates(ents[..i]))
    ensures r' == Dedup(Candidates(ents[..i + 1]))
  {
    var ent := ents[i];
    CandidatesStep(ents, i);
    r' := r;
    if ent.tag in Mapping {
      var entityText := Lower(Strip(ent.text));
      if |entityText| > 0 && |entityText| > 1 && entityText !in r {
        r' := r + [entityText];
      }
    }
  }

  /** One more entity adds its cleaned text when it is wanted and new. */
  lemma CandidatesStep(ents: seq<Ent>, i: nat)
    requires i < |ents|
    ensures var e := ents[i]; var d := Dedup(Candidates(ents[..i]));
      Dedup(Candidates(ents[..i + 1])) ==
        if e.tag in Mapping && |Cleaned(e)| > 1 && Cleaned(e) !in d then d + [Cleaned(e)] else d
  {
    var e := ents[i];
    var c := Candidates(ents[..i]);
    assert ents[..i + 1][..i] == ents[..i];
    if e.tag in Mapping && |Cleaned(e)| > 1 {
      assert Candidates(ents[..i + 1]) == c + [Cleaned(e)];
      DedupAppend(c, Cleaned(e));
    } else {
      assert Candidates(ents[..i + 1]) == c + [];
      assert c + [] == c;
    }
  }

  /** A cleaned entity text is lowercase with no whitespace at either end. */
  lemma CleanedIsClean(e: Ent)
    ensures Lower(Cleaned(e)) == Cleaned(e)
    ensures |Cleaned(e)| > 0 ==> !IsSpace(Cleaned(e)[0]) && !IsSpace(Cleaned(e)[|Cleaned(e)| - 1])
  {
    var s := Strip(e.text);
    LowerIdempotent(s);
  }

  /** Each kept string is lowercase, has no whitespace at either end and is
      longer than one character. */
  lemma KeptAreClean(ents: seq<Ent>, x: string)
    requires x in Dedup(Candidates(ents))
    ensures |x| > 1 && Lower(x) == x
    ensures !IsSpace(x[0]) && !IsSpace(x[|x| - 1])
  {
    var e :| e in ents && e.tag in Mapping && |Cleaned(e)| > 1 && Cleaned(e) == x;
    CleanedIsClean(e);
  }

  /** No string is kept twice, and the kept strings keep the order of their
      first occurrences. */
  lemma KeptOnceInOrder(ents: seq<Ent>)
    ensures NoDups(Dedup(Candidates(ents)))
    ensures forall i, j :: 0 <= i < j < |Dedup(Candidates(ents))| ==>
      FirstIndex(Candidates(ents), Dedup(Candidates(ents))[i]) < FirstIndex(Candidates(ents), Dedup(Candidates(ents))[j])
  {
    DedupUnique(Candidates(ents));
    DedupOrder(Candidates(ents));
  }
}

/** The migration driver: the `db.collection` arguments are parsed, the
    collections are checked for existence (which only warns), and the
    collections are migrated one after another, from the resume point on
    when one is given. The per-collection migration is a parameter giving
    the number of documents it processed for a database, a collection and
    a resume id ("" for none). */
module MigrateMain {
  import opened Wrappers
  import opened Text
  import opened Lists

  /** A collection to migrate: its database and its name. */
  datatype Target = Target(db: string, collection: string)

  /** `spec.split('.')` must give exactly two parts. */
  function ParseSpec(spec: string): (r: Option<Target>)
    ensures r.Some? ==> r.value.db + "." + r.value.collection == spec
    ensures r.Some? ==> !Contains(r.value.db, ".") && !Contains(r.value.collection, ".")
  {
    var parts := Split(spec, ".");
    if |parts| != 2 then None
    else
      assert Join(parts, ".") == parts[0] + "." + Join(parts[1..], ".");
      Some(Target(parts[0], parts[1]))
  }

  /** Names without a dot parse back from their `db.collection` form. */
  lemma SpecRoundTrip(db: string, collection: string)
    requires !Contains(db, ".") && !Contains(collection, ".")
    ensures ParseSpec(db + "." + collection) == Some(Target(db, collection))
  {
    SplitSingleAppend(db, '.', collection);
    SplitAbsent(db, ".");
    SplitAbsent(collection, ".");
  }

  /** A spec with a second dot, such as "a.b.c", is rejected. */
  lemma ThreePartsRejected(a: string, b: string, c: string)
    requires !Contains(a, ".") && !Contains(b, ".") && !Contains(c, ".")
    ensures ParseSpec(a + "." + b + "." + c) == None
  {
    assert a + "." + b + "." + c == a + ['.'] + (b + ['.'] + c);
    SplitSingleAppend(a, '.', b + ['.'] + c);
    SplitSingleAppend(b, '.', c);
    SplitAbsent(a, ".");
    SplitAbsent(b, ".");
    SplitAbsent(c, ".");
  }

  /** The targets of all specs, or None as soon as one is malformed. */
  function ParseAll(specs: seq<string>): (r: Option<seq<Target>>)
    ensures r.Some? <==> forall i :: 0 <= i < |specs| ==> ParseSpec(specs[i]).Some?
    ensures r.Some? ==> |r.value| == |specs| && forall i :: 0 <= i < |specs| ==> Some(r.value[i]) == ParseSpec(specs[i])
  {
    ParsedWith(specs, ParseSpec)
  }

  /** Every spec read with `parse`, or None as soon as one fails. */
  function ParsedWith(specs: seq<string>, parse: string -> Option<Target>): (r: Option<seq<Target>>)
    ensures r.Some? <==> forall i :: 0 <= i < |specs| ==> parse(specs[i]).Some?
    ensures r.Some? ==> |r.value| == |specs| && forall i :: 0 <= i < |specs| ==> Some(r.value[i]) == parse(specs[i])
  {
    if |specs| == 0 then Some([])
    else
      var n := |specs| - 1;
      var init := specs[..n];
      assert forall i :: 0 <= i < n ==> init[i] == specs[i];
      match ParsedWith(init, parse)
      case None => None
      case Some(targets) =>
        match parse(specs[n])
        case None => None
        case Some(t) =>
          assert forall i :: 0 <= i < n ==> (targets + [t])[i] == targets[i];
          Some(targets + [t])
  }

  /** The `--collections` loop: each spec appended in order; a malformed one
      ends the program. */
  method ParseCollections(specs: seq<string>) returns (r: Option<seq<Target>>)
    ensures r == ParseAll(specs)
  {
    var targets: seq<Target> := [];
    for i := 0 to |specs|
      invariant ParseAll(specs[..i]) == Some(targets)
    {
      assert specs[..i + 1][..i] == specs[..i];
      var parsed := ParseSpec(specs[i]);
      if parsed.None? {
        assert specs[..i + 1][i] == specs[i];
        NotAllParse(specs, i);
        return None;
      }
      targets := targets + [parsed.value];
    }
    assert specs[..|specs|] == specs;
    r := Some(targets);
  }

  lemma NotAllParse(specs: seq<string>, i: nat)
    requires i < |specs| && ParseSpec(specs[i]).None?
    ensures ParseAll(specs) == None
  {
  }

  /** The existence checks: the targets whose database or collection is
      missing are warned about; the work list is left as it is. */
  method CheckExistence(targets: seq<Target>, databases: set<string>, collections: string -> set<string>)
    returns (warned: seq<Target>)
    ensures forall t :: t in warned <==> t in targets && (t.db !in databases || t.collection !in collections(t.db))
    ensures IsSubsequence(warned, targets)
  {
    warned := [];
    for i := 0 to |targets|
      invariant forall t :: t in warned <==> t in targets[..i] && (t.db !in databases || t.collection !in collections(t.db))
      invariant IsSubsequence(warned, targets[..i])
    {
      var t := targets[i];
      var missing := t.db !in databases || t.collection !in collections(t.db);
      assert targets[..i + 1] == targets[..i] + [t];
      SubsequenceExtend(warned, targets[..i], t, missing);
      if missing {
        warned := warned + [t];
      } else {
        assert warned + [] == warned;
      }
    }
    assert targets[..|targets|] == targets;
  }

  /** Where processing starts: at the first exact match of the resume
      target, at the end when nothing matches, at the start without one. */
  function Start(targets: seq<Target>, resume: Option<Target>): (k: nat)
    ensures k <= |targets|
    ensures resume.Some? ==> forall j :: 0 <= j < k ==> targets[j] != resume.value
    ensures resume.Some? && k < |targets| ==> targets[k] == resume.value
    ensures resume.None? ==> k == 0
  {
    match resume
    case None => 0
    case Some(p) => if p in targets then FirstIndex(targets, p) else |targets|
  }

  /** One summary row per processed collection. */
  datatype Row = Row(target: Target, processed: nat)

  /** The rows of the collections from `start` on; only the first gets the
      resume id. */
  function Rows(work: seq<Target>, resumeId: string, migrate: (string, string, string) -> nat): (r: seq<Row>)
    ensures |r| == |work|
  {
    seq(|work|, i requires 0 <= i < |work| =>
      Row(work[i], migrate(work[i].db, work[i].collection, if i == 0 then resumeId else "")))
  }

  function Total(rows: seq<Row>): nat {
    if |rows| == 0 then 0 else Total(rows[..|rows| - 1]) + rows[|rows| - 1].processed
  }

  /** The summary of a run. */
  datatype Summary = Summary(rows: seq<Row>, total: nat)

  /** `if args.resume_from:` — an absent or empty `--resume-from` turns
      resume mode off. */
  predicate ResumeGiven(resumeFrom: Option<string>) {
    resumeFrom.Some? && resumeFrom.value != ""
  }

  /** The collection loop of `main`. A malformed non-empty `--resume-from`
      ends the program before any collection is migrated. Otherwise collections are
      skipped while resume mode is on; the matching one turns it off and it
      and every later collection are migrated; the resume id goes to the
      first migrated collection only; the total is the sum of the rows. */
  method MigrateAll(targets: seq<Target>, resumeFrom: Option<string>, resumeId: string,
                    migrate: (string, string, string) -> nat)
    returns (r: Option<Summary>)
    ensures ResumeGiven(resumeFrom) && ParseSpec(resumeFrom.value).None? ==> r == None
    ensures !ResumeGiven(resumeFrom) || ParseSpec(resumeFrom.value).Some? ==>
      var resume := if !ResumeGiven(resumeFrom) then None else ParseSpec(resumeFrom.value);
      r == Some(Summary(Rows(targets[Start(targets, resume)..], resumeId, migrate),
                        Total(Rows(targets[Start(targets, resume)..], resumeId, migrate))))
  {
    var resume: Option<Target> := None;
    if resumeFrom.Some? && resumeFrom.value != "" {
      resume := ParseSpec(resumeFrom.value);
      if resume.None? {
        return None;
      }
    }
    var resumeMode := resume.Some?;
    ghost var start := Start(targets, resume);
    var currentId := resumeId;
    var rows: seq<Row> := [];
    var total := 0;
    for i := 0 to |targets|
      invariant resumeMode <==> resume.Some? && i <= start
      invariant currentId == if i <= start then resumeId else ""
      invariant i <= start ==> rows == []
      invariant i > start ==> rows == Rows(targets[start..i], resumeId, migrate)
      invariant total == Total(rows)
    {
      var t := targets[i];
      if resumeMode {
        if t != resume.value {
          continue;
        }
        resumeMode := false;
      }
      var processed := migrate(t.db, t.collection, currentId);
      RowsStep(targets, start, i, resumeId, migrate);
      rows := rows + [Row(t, processed)];
      total := total + processed;
      currentId := "";
    }
    if |targets| <= start {
      assert targets[start..] == [];
    } else {
      assert targets[start..|targets|] == targets[start..];
    }
    r := Some(Summary(rows, total));
  }

  lemma RowsStep(targets: seq<Target>, start: nat, i: nat, resumeId: string, migrate: (string, string, string) -> nat)
    requires start <= i < |targets|
    ensures Rows(targets[start..i + 1], resumeId, migrate) ==
      (if i == start then [] else Rows(targets[start..i], resumeId, migrate))
      + [Row(targets[i], migrate(targets[i].db, targets[i].collection, if i == start then resumeId else ""))]
  {
    var a := Rows(targets[start..i + 1], resumeId, migrate);
    var b := Rows(targets[start..i], resumeId, migrate);
    assert forall j :: 0 <= j < i - start ==> a[j] == b[j];
  }

  /** Nothing is migrated when the resume target is not in the list. */
  lemma ResumeUnmatched(targets: seq<Target>, p: Target, resumeId: string, migrate: (string, string, string) -> nat)
    requires p !in targets
    ensures Rows(targets[Start(targets, Some(p))..], resumeId, migrate) == []
  {
  }

  /** With a resume target in the list, the first migrated collection is
      that target and gets the resume id, and every later one gets none. */
  lemma ResumeMatched(targets: seq<Target>, p: Target, resumeId: string, migrate: (string, string, string) -> nat)
    requires p in targets
    ensures var rows := Rows(targets[Start(targets, Some(p))..], resumeId, migrate);
      |rows| >= 1 && rows[0] == Row(p, migrate(p.db, p.collection, resumeId))
      && forall j :: 1 <= j < |rows| ==> rows[j].processed == migrate(rows[j].target.db, rows[j].target.collection, "")
  {
  }
}

/** Detecting every stored item's language again, and writing only what moved. */
module Languages {
  import opened Text
  import opened Items
  import opened Store
  import Ingest
  import Retag

  /** Detection can fail outright, which is not the same as being unsure. */
  datatype Detection = Found(language: Option<string>) | Broken

  type Detector = (string, Option<string>) -> Detection

  datatype Report = Report(examined: nat, changed: nat, failed: nat)

  function Detected(item: Item, detect: Detector): Detection { detect(item.title, item.summary) }

  predicate Moves(item: Item, detect: Detector) {
    Detected(item, detect).Found? && Detected(item, detect).language != item.language
  }

  /** Ids whose language has to become this one. */
  function MovedTo(items: map<int, Item>, ids: set<int>, detect: Detector, language: Option<string>): set<int> {
    set id | id in ids && id in items && Moves(items[id], detect) && Detected(items[id], detect).language == language
  }

  function MovedIds(items: map<int, Item>, ids: set<int>, detect: Detector): set<int> {
    set id | id in ids && id in items && Moves(items[id], detect)
  }

  function BrokenIds(items: map<int, Item>, ids: set<int>, detect: Detector): set<int> {
    set id | id in ids && id in items && Detected(items[id], detect).Broken?
  }

  /** The item with the language detection gives it, and the one it has when detection fails. */
  function Redetected(item: Item, detect: Detector): Item {
    match Detected(item, detect)
    case Found(language) => item.(language := language)
    case Broken => item
  }

  function AllRedetected(items: map<int, Item>, detect: Detector): map<int, Item> {
    map id | id in items :: Redetected(items[id], detect)
  }

  /**
   * A row is written exactly when detection, asked about its title and summary, answers
   * something else than it has, and then only its language; it is counted as failed exactly
   * when detection fails on it.
   */
  lemma RedetectedIs(items: map<int, Item>, detect: Detector, id: int)
    requires id in items
    ensures var item := items[id]; var answer := detect(item.title, item.summary);
      && AllRedetected(items, detect).Keys == items.Keys
      && AllRedetected(items, detect)[id] ==
           Item(item.id, item.sourceId, item.canonicalUrl, item.title, item.summary, item.publishedAt,
                if answer.Found? then answer.language else item.language)
      && (id in MovedIds(items, items.Keys, detect) <==> answer.Found? && answer.language != item.language)
      && (id in BrokenIds(items, items.Keys, detect) <==> answer.Broken?)
  {
  }

  function At(changes: map<Option<string>, set<int>>, language: Option<string>): set<int> {
    if language in changes then changes[language] else {}
  }

  /** The changes are exactly what has to move among these ids. */
  ghost predicate Collects(
      changes: map<Option<string>, set<int>>, items: map<int, Item>, ids: set<int>, detect: Detector)
  {
    forall language :: At(changes, language) == MovedTo(items, ids, detect, language)
  }

  /** `UPDATE ... SET language WHERE id IN (...)`. */
  function Written(items: map<int, Item>, ids: set<int>, language: Option<string>): map<int, Item> {
    map id | id in items :: if id in ids then items[id].(language := language) else items[id]
  }

  /** One item of a batch: a failure is skipped, an answer that differs is set down. */
  lemma CollectOne(
      changes: map<Option<string>, set<int>>, items: map<int, Item>, ids: set<int>, id: int, detect: Detector)
    requires Collects(changes, items, ids, detect) && id in items && id !in ids
    ensures Moves(items[id], detect) ==>
      var language := Detected(items[id], detect).language;
      Collects(changes[language := At(changes, language) + {id}], items, ids + {id}, detect)
    ensures !Moves(items[id], detect) ==> Collects(changes, items, ids + {id}, detect)
  {
    forall language
      ensures MovedTo(items, ids + {id}, detect, language) == MovedTo(items, ids, detect, language)
        + if Moves(items[id], detect) && Detected(items[id], detect).language == language then {id} else {}
    {
    }
  }

  lemma BrokenOne(items: map<int, Item>, ids: set<int>, id: int, detect: Detector)
    requires id in items && id !in ids
    ensures |BrokenIds(items, ids + {id}, detect)| ==
      |BrokenIds(items, ids, detect)| + if Detected(items[id], detect).Broken? then 1 else 0
  {
    if Detected(items[id], detect).Broken? {
      assert BrokenIds(items, ids + {id}, detect) == BrokenIds(items, ids, detect) + {id};
    } else {
      assert BrokenIds(items, ids + {id}, detect) == BrokenIds(items, ids, detect);
    }
  }

  method CollectBatch(
      db: Database, detect: Detector, batch: set<int>, ghost done: set<int>,
      before: map<Option<string>, set<int>>, failedBefore: nat)
    returns (changes: map<Option<string>, set<int>>, failed: nat)
    requires batch <= db.items.Keys && batch !! done
    requires Collects(before, db.items, done, detect) && failedBefore == |BrokenIds(db.items, done, detect)|
    ensures Collects(changes, db.items, done + batch, detect) && failed == |BrokenIds(db.items, done + batch, detect)|
  {
    hide Collects, BrokenIds, Detected;
    changes, failed := before, failedBefore;
    var rest := batch;
    ghost var seen := done;
    while rest != {}
      invariant rest <= batch && seen == done + (batch - rest)
      invariant Collects(changes, db.items, seen, detect) && failed == |BrokenIds(db.items, seen, detect)|
      decreases rest
    {
      Retag.SomeId(rest);
      var id :| id in rest;
      var item := db.items[id];
      CollectOne(changes, db.items, seen, id, detect);
      BrokenOne(db.items, seen, id, detect);
      match Detected(item, detect) {
        case Broken => failed := failed + 1;
        case Found(language) =>
          if language != item.language {
            changes := changes[language := At(changes, language) + {id}];
          }
      }
      rest, seen := rest - {id}, seen + {id};
      assert seen == done + (batch - rest);
    }
    assert seen == done + batch;
  }

  method CollectChanges(db: Database, detect: Detector)
    returns (changes: map<Option<string>, set<int>>, examined: nat, failed: nat)
    requires Good(db.Contents())
    ensures Collects(changes, db.items, db.items.Keys, detect)
    ensures examined == |db.items| && failed == |BrokenIds(db.items, db.items.Keys, detect)|
  {
    var ids := db.items.Keys;
    var lastId := 0;
    changes, examined, failed := map[], 0, 0;
    ghost var done: set<int> := {};
    NothingYet(db.items, detect);
    while true
      invariant done == set id | id in ids && id <= lastId
      invariant Collects(changes, db.items, done, detect) && failed == |BrokenIds(db.items, done, detect)|
      invariant examined == |done|
      decreases ids - done
    {
      hide Collects, BrokenIds;
      var batch, last := Retag.NextBatch(ids, lastId, Retag.RETAG_BATCH);
      if batch == {} {
        break;
      }
      assert done !! batch;
      changes, failed := CollectBatch(db, detect, batch, done, changes, failed);
      examined := examined + |batch|;
      done, lastId := done + batch, last;
    }
    assert done == ids;
  }

  lemma NothingYet(items: map<int, Item>, detect: Detector)
    ensures Collects(map[], items, {}, detect) && BrokenIds(items, {}, detect) == {}
  {
  }

  /** Ids that have to move to one of these languages. */
  function MovedAmong(items: map<int, Item>, detect: Detector, languages: set<Option<string>>): set<int> {
    set id | id in items && Moves(items[id], detect) && Detected(items[id], detect).language in languages
  }

  lemma MovedAmongMore(
      items: map<int, Item>, detect: Detector, languages: set<Option<string>>, language: Option<string>)
    requires language !in languages
    ensures MovedAmong(items, detect, languages + {language}) ==
      MovedAmong(items, detect, languages) + MovedTo(items, items.Keys, detect, language)
    ensures MovedAmong(items, detect, languages) !! MovedTo(items, items.Keys, detect, language)
  {
  }

  lemma MovedAmongAll(changes: map<Option<string>, set<int>>, items: map<int, Item>, detect: Detector)
    requires Collects(changes, items, items.Keys, detect)
    ensures MovedAmong(items, detect, changes.Keys) == MovedIds(items, items.Keys, detect)
    ensures MovedAmong(items, detect, {}) == {}
  {
    forall id | id in items && Moves(items[id], detect)
      ensures Detected(items[id], detect).language in changes
    {
      var language := Detected(items[id], detect).language;
      assert id in MovedTo(items, items.Keys, detect, language);
      assert At(changes, language) != {};
    }
  }

  /** The number of ids set down, language by language. */
  method CountChanges(
      changes: map<Option<string>, set<int>>, ghost items: map<int, Item>, detect: Detector) returns (changed: nat)
    requires Collects(changes, items, items.Keys, detect)
    ensures changed == |MovedIds(items, items.Keys, detect)|
  {
    hide MovedAmong, MovedTo, MovedIds;
    var rest := changes.Keys;
    changed := 0;
    MovedAmongAll(changes, items, detect);
    assert changes.Keys - rest == {};
    while rest != {}
      invariant rest <= changes.Keys && changed == |MovedAmong(items, detect, changes.Keys - rest)|
      decreases rest
    {
      var language :| language in rest;
      MovedAmongMore(items, detect, changes.Keys - rest, language);
      assert At(changes, language) == MovedTo(items, items.Keys, detect, language);
      assert changes.Keys - rest + {language} == changes.Keys - (rest - {language});
      changed, rest := changed + |changes[language]|, rest - {language};
    }
    assert changes.Keys - rest == changes.Keys;
  }

  /** A row of later, with the changes for these languages written to it. */
  function Settled(
      before: map<int, Item>, item: Item, id: int, languages: set<Option<string>>, detect: Detector): Item
  {
    if id in before && Moves(before[id], detect) && Detected(before[id], detect).language in languages
    then item.(language := Detected(before[id], detect).language)
    else item
  }

  /** What the writes leave in a table of later: rows read earlier get their language, others are untouched. */
  ghost predicate Settles(
      before: map<int, Item>, later: map<int, Item>, after: map<int, Item>, languages: set<Option<string>>,
      detect: Detector)
  {
    && after.Keys == later.Keys
    && (forall id :: id in after ==> after[id] == Settled(before, later[id], id, languages, detect))
  }

  /** Writes the changes, a chunk of ids at a time; a row that is gone by then is not there to update. */
  method WriteChanges(
      db: Database, changes: map<Option<string>, set<int>>, ghost before: map<int, Item>, detect: Detector)
    requires Collects(changes, before, before.Keys, detect)
    modifies db`items
    ensures Settles(before, old(db.items), db.items, changes.Keys, detect)
  {
    var rest := changes.Keys;
    ghost var later := db.items;
    while rest != {}
      invariant rest <= changes.Keys && Settles(before, later, db.items, changes.Keys - rest, detect)
      decreases rest
    {
      hide Moves;
      var language :| language in rest;
      assert At(changes, language) == MovedTo(before, before.Keys, detect, language);
      ghost var was := db.items;
      WriteLanguage(db, changes[language], language);
      rest := rest - {language};
      assert db.items == Written(was, MovedTo(before, before.Keys, detect, language), language);
    }
    assert changes.Keys - rest == changes.Keys;
  }

  method WriteLanguage(db: Database, ids: set<int>, language: Option<string>)
    modifies db`items
    ensures db.items == Written(old(db.items), ids, language)
  {
    var rest := ids;
    ghost var was := db.items;
    while rest != {}
      invariant rest <= ids && db.items == Written(was, ids - rest, language)
      decreases rest
    {
      var chunk := Chunk(rest);
      db.items := map id | id in db.items :: if id in chunk then db.items[id].(language := language) else db.items[id];
      rest := rest - chunk;
    }
    assert ids - rest == ids;
  }

  method Chunk(ids: set<int>) returns (chunk: set<int>)
    requires ids != {}
    ensures {} < chunk <= ids && |chunk| <= Retag.RETAG_BATCH
  {
    Retag.SomeId(ids);
    var first :| first in ids;
    chunk := {first};
    var rest := ids - chunk;
    while rest != {} && |chunk| < Retag.RETAG_BATCH
      invariant chunk <= ids && rest <= ids && chunk !! rest && chunk != {} && |chunk| <= Retag.RETAG_BATCH
      decreases rest
    {
      Retag.SomeId(rest);
      var id :| id in rest;
      chunk, rest := chunk + {id}, rest - {id};
    }
  }

  method DetectItemLanguages(db: Database, detect: Detector, dryRun: bool) returns (report: Report)
    requires Good(db.Contents())
    modifies db`items
    ensures db.items == if dryRun then old(db.items) else AllRedetected(old(db.items), detect)
    ensures report.examined == |old(db.items)|
    ensures report.changed == |MovedIds(old(db.items), old(db.items).Keys, detect)|
    ensures report.failed == |BrokenIds(old(db.items), old(db.items).Keys, detect)|
  {
    hide Good, MovedIds, BrokenIds;
    ghost var before := db.items;
    var changes, examined, failed := CollectChanges(db, detect);
    if !dryRun {
      WriteChanges(db, changes, before, detect);
      SettledIsRedetected(changes, before, before, db.items, detect);
      SameRows(db.items, AllRedetected(before, detect));
    }
    var changed := CountChanges(changes, before, detect);
    report := Report(examined, changed, failed);
  }

  /**
   * Refreshes and prunes between the reading and the writing do no harm: rows that were read
   * and are still there end as detection says, and rows that came since are left alone.
   */
  lemma SettledIsRedetected(
      changes: map<Option<string>, set<int>>, before: map<int, Item>, later: map<int, Item>, after: map<int, Item>,
      detect: Detector)
    requires Collects(changes, before, before.Keys, detect) && Settles(before, later, after, changes.Keys, detect)
    requires forall id :: id in before && id in later ==> later[id] == before[id]
    ensures after.Keys == later.Keys
    ensures forall id :: id in later ==> after[id] == if id in before then Redetected(before[id], detect) else later[id]
  {
    forall id | id in later
      ensures after[id] == if id in before then Redetected(before[id], detect) else later[id]
    {
      if id in before && Moves(before[id], detect) {
        var language := Detected(before[id], detect).language;
        assert id in MovedTo(before, before.Keys, detect, language);
        assert At(changes, language) != {};
      }
    }
  }

  // --- a pass while refreshes and prunes run ------------------------------------------------

  /** Where the reading stands: the rows read so far, as they were read, and the last id. */
  datatype Reading = Reading(tables: Tables, read: map<int, Item>, lastId: int)

  datatype Action = Between(step: Ingest.Step) | ReadBatch(last: int)

  predicate Enabled(r: Reading, action: Action) {
    action.ReadBatch? ==> action.last in r.tables.items && action.last > r.lastId
  }

  function Next(r: Reading, action: Action, service: Ingest.Service): Reading {
    match action
    case Between(step) => r.(tables := Ingest.Apply(service, r.tables, step))
    case ReadBatch(last) =>
      var batch := map id | id in r.tables.items && r.lastId < id <= last :: r.tables.items[id];
      r.(read := r.read + batch, lastId := last)
  }

  ghost predicate IsRun(r: Reading, actions: seq<Action>, service: Ingest.Service)
    decreases |actions|
  {
    actions != [] ==> Enabled(r, actions[0]) && IsRun(Next(r, actions[0], service), actions[1..], service)
  }

  function Run(r: Reading, actions: seq<Action>, service: Ingest.Service): Reading
    decreases |actions|
  {
    if actions == [] then r else Run(Next(r, actions[0], service), actions[1..], service)
  }

  /** Rows up to the last id were read, those still there as they are. */
  ghost predicate ReadSoFar(r: Reading) {
    && Good(r.tables) && r.lastId < r.tables.nextId
    && (forall id :: id in r.read ==> id <= r.lastId)
    && (forall id :: id in r.tables.items && id <= r.lastId ==> id in r.read && r.read[id] == r.tables.items[id])
  }

  lemma ActionReads(r: Reading, action: Action, service: Ingest.Service)
    requires ReadSoFar(r) && Enabled(r, action)
    ensures ReadSoFar(Next(r, action, service))
  {
    hide Ingest.Apply;
    if action.Between? {
      Ingest.StepKeeps(service, r.tables, action.step);
    }
  }

  lemma {:induction false} RunReads(r: Reading, actions: seq<Action>, service: Ingest.Service)
    requires ReadSoFar(r) && IsRun(r, actions, service)
    ensures ReadSoFar(Run(r, actions, service))
    decreases |actions|
  {
    hide ReadSoFar, Next, Enabled;
    if actions != [] {
      ActionReads(r, actions[0], service);
      RunReads(Next(r, actions[0], service), actions[1..], service);
    }
  }

  /**
   * Batches are read with refreshes, prunes and saves between them, and more of those run before
   * the writes. Every row that was read and is still there ends as detection says; every row
   * that was there when the reading ended was read; rows that came since are left alone.
   */
  lemma InterleavedPassSettles(
      t: Tables, actions: seq<Action>, service: Ingest.Service, steps: seq<Ingest.Step>,
      changes: map<Option<string>, set<int>>, after: map<int, Item>, detect: Detector)
    requires Good(t) && IsRun(Reading(t, map[], 0), actions, service)
    requires var r := Run(Reading(t, map[], 0), actions, service); var later := Ingest.Run(service, r.tables, steps);
      && (forall id :: id in r.tables.items ==> id <= r.lastId)
      && Collects(changes, r.read, r.read.Keys, detect)
      && Settles(r.read, later.items, after, changes.Keys, detect)
    ensures var r := Run(Reading(t, map[], 0), actions, service); var later := Ingest.Run(service, r.tables, steps);
      && after.Keys == later.items.Keys
      && (forall id :: id in r.tables.items ==> id in r.read)
      && (forall id :: id in later.items ==>
            after[id] == if id in r.read then Redetected(later.items[id], detect) else later.items[id])
  {
    hide IsRun, Run, Collects, Settles, Good, Ingest.Run, Redetected;
    var start := Reading(t, map[], 0);
    StartReads(t);
    RunReads(start, actions, service);
    var r := Run(start, actions, service);
    Ingest.RunKeeps(service, r.tables, steps);
    SettledIsRedetected(changes, r.read, Ingest.Run(service, r.tables, steps).items, after, detect);
  }

  /** Any step may come between batches, and one more batch can always end the reading. */
  lemma ReadingCanEnd(r: Reading, step: Ingest.Step, service: Ingest.Service)
    ensures Enabled(r, Between(step)) && Next(r, Between(step), service).tables == Ingest.Apply(service, r.tables, step)
    ensures (forall id :: id in r.tables.items ==> id <= r.lastId)
      || exists last :: Enabled(r, ReadBatch(last))
           && forall id :: id in Next(r, ReadBatch(last), service).tables.items ==> id <= last
  {
    hide Ingest.Apply;
    if id :| id in r.tables.items && id > r.lastId {
      Retag.GreatestId(r.tables.items.Keys);
      var last :| last in r.tables.items.Keys && forall id :: id in r.tables.items.Keys ==> id <= last;
      assert Enabled(r, ReadBatch(last));
    }
  }

  lemma StartReads(t: Tables)
    requires Good(t)
    ensures ReadSoFar(Reading(t, map[], 0))
  {
  }

  lemma SameRows(a: map<int, Item>, b: map<int, Item>)
    requires a.Keys == b.Keys && forall id :: id in a ==> a[id] == b[id]
    ensures a == b
  {
    forall id: int | id in a
      ensures a[id] == b[id]
    {
    }
  }

  lemma RedetectedStays(item: Item, detect: Detector)
    ensures !Moves(Redetected(item, detect), detect)
    ensures Redetected(Redetected(item, detect), detect) == Redetected(item, detect)
    ensures Detected(Redetected(item, detect), detect) == Detected(item, detect)
  {
  }

  /** A second pass finds nothing to move and fails where the first one did. */
  lemma SecondPassIsIdle(items: map<int, Item>, detect: Detector)
    ensures var again := AllRedetected(items, detect);
      && MovedIds(again, again.Keys, detect) == {} && AllRedetected(again, detect) == again
      && BrokenIds(again, again.Keys, detect) == BrokenIds(items, items.Keys, detect)
  {
    hide Moves, Redetected, Detected;
    var again := AllRedetected(items, detect);
    forall id | id in items
      ensures !Moves(again[id], detect) && Redetected(again[id], detect) == again[id]
      ensures Detected(again[id], detect) == Detected(items[id], detect)
    {
      RedetectedStays(items[id], detect);
    }
    SameRows(AllRedetected(again, detect), again);
  }
}

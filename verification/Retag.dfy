/** Re-deriving the rule-owned topic links, alone and while refreshes run. */
module Retag {
  import opened Items
  import opened Store
  import Ingest

  const RETAG_BATCH: nat := 1000

  datatype Report = Report(examined: nat, added: nat, removed: nat)

  /** Every link the ruleset argues for, over all the stored items. */
  function Wanted(items: map<int, Item>, setup: Setup): set<Pair> { RulePairs(items, items.Keys, setup) }

  /** Pair by pair: the item's URL has a slug that the catalogue lists as the topic. */
  lemma WantedAre(items: map<int, Item>, setup: Setup, id: int, topic: int)
    ensures (id, topic) in Wanted(items, setup) <==> Argued(items, setup, id, topic)
  {
    RulePairsAre(items, items.Keys, setup, id, topic);
  }

  function Owned(links: map<Pair, Origin>): set<Pair> { set p | p in links && links[p] == ByRule }

  function BySources(links: map<Pair, Origin>): set<Pair> { set p | p in links && links[p] == BySource }

  /** The links a pass is meant to leave: the source's as they are, the rule's exactly as wanted. */
  ghost predicate Retagged(before: map<Pair, Origin>, after: map<Pair, Origin>, wanted: set<Pair>) {
    BySources(after) == BySources(before) && Owned(after) == wanted - BySources(before)
  }

  // --- one pass with the tables to itself ---------------------------------------------------

  /** `WHERE id > after ORDER BY id LIMIT n`: the ids up to and including the last of the batch. */
  method NextBatch(ids: set<int>, after: int, limit: nat) returns (batch: set<int>, last: int)
    requires limit >= 1
    ensures last >= after && batch == set id | id in ids && after < id <= last
    ensures batch == {} <==> forall id :: id in ids ==> id <= after
    ensures batch != {} ==> last in batch
    ensures |batch| <= limit
  {
    batch, last := {}, after;
    while |batch| < limit
      invariant last >= after && batch == set id | id in ids && after < id <= last
      invariant if batch == {} then last == after else last in batch
      invariant |batch| <= limit
      decreases limit - |batch|
    {
      var found, next := Smallest(ids, last);
      if !found {
        break;
      }
      batch, last := batch + {next}, next;
    }
  }

  /** The smallest id above a bound. */
  method Smallest(ids: set<int>, above: int) returns (found: bool, least: int)
    ensures found <==> exists id :: id in ids && id > above
    ensures found ==> least in ids && least > above && forall id :: id in ids && id > above ==> least <= id
  {
    found, least := false, above;
    var todo := set id | id in ids && id > above;
    ghost var all := todo;
    while todo != {}
      invariant todo <= all
      invariant !found ==> todo == all
      invariant found ==> least in all && forall id :: id in all && id !in todo ==> least <= id
      decreases todo
    {
      var id :| id in todo;
      todo := todo - {id};
      if !found || id < least {
        found, least := true, id;
      }
    }
    assert forall id :: id in ids && id > above <==> id in all;
  }

  /** Deletes the pairs the rules still own, a chunk at a time. */
  method DeleteRuleLinks(db: Database, pairs: set<Pair>)
    modifies db`links
    ensures db.links == old(db.links) - (pairs * Owned(old(db.links)))
  {
    var rest := pairs;
    ghost var was := db.links;
    assert was == was - ((pairs - rest) * Owned(was));
    while rest != {}
      invariant rest <= pairs && db.links == was - ((pairs - rest) * Owned(was))
      decreases rest
    {
      var chunk := Chunk(rest);
      db.links := map p | p in db.links && !(p in chunk && db.links[p] == ByRule) :: db.links[p];
      rest := rest - chunk;
    }
  }

  method Chunk(pairs: set<Pair>) returns (chunk: set<Pair>)
    requires pairs != {}
    ensures {} < chunk <= pairs && |chunk| <= RETAG_BATCH
  {
    var first :| first in pairs;
    chunk := {first};
    var rest := pairs - chunk;
    while rest != {} && |chunk| < RETAG_BATCH
      invariant chunk <= pairs && rest <= pairs && chunk !! rest && chunk != {} && |chunk| <= RETAG_BATCH
      decreases rest
    {
      var p :| p in rest;
      chunk, rest := chunk + {p}, rest - {p};
    }
  }

  /** Reads every item in batches of ids, and collects the wanted pairs. */
  method CollectWanted(db: Database, setup: Setup) returns (wanted: set<Pair>, examined: nat)
    requires Good(db.Contents())
    ensures wanted == Wanted(db.items, setup) && examined == |db.items|
  {
    var ids := db.items.Keys;
    var lastId := 0;
    wanted, examined := {}, 0;
    ghost var done: set<int> := {};
    while true
      invariant done == set id | id in ids && id <= lastId
      invariant wanted == RulePairs(db.items, done, setup) && examined == |done|
      decreases ids - done
    {
      var batch, last := NextBatch(ids, lastId, RETAG_BATCH);
      if batch == {} {
        break;
      }
      RulePairsSplit(db.items, done, batch, setup);
      wanted := wanted + RulePairs(db.items, batch, setup);
      examined := examined + |batch|;
      assert done !! batch;
      done, lastId := done + batch, last;
    }
    assert done == ids;
  }

  lemma RulePairsSplit(items: map<int, Item>, a: set<int>, b: set<int>, setup: Setup)
    ensures RulePairs(items, a + b, setup) == RulePairs(items, a, setup) + RulePairs(items, b, setup)
  {
  }

  method RetagItems(db: Database, setup: Setup, dryRun: bool) returns (report: Report)
    requires Good(db.Contents())
    modifies db`links
    ensures dryRun ==> db.links == old(db.links)
    ensures !dryRun ==> Retagged(old(db.links), db.links, Wanted(db.items, setup))
    ensures report.examined == |db.items|
    ensures report.added == |Wanted(db.items, setup) - old(db.links).Keys|
    ensures report.removed == |Owned(old(db.links)) - Wanted(db.items, setup)|
  {
    hide RulePairs, Good;
    var existing := db.links;
    var wanted, examined := CollectWanted(db, setup);
    var owned := Owned(existing);
    var toAdd := wanted - owned - existing.Keys;
    var toRemove := owned - wanted;
    assert toAdd == wanted - existing.Keys;
    if !dryRun {
      DeleteRuleLinks(db, toRemove);
      db.InsertRuleLinks(toAdd);
      PassRetags(existing, db.links, wanted);
    }
    report := Report(examined, |toAdd|, |toRemove|);
  }

  lemma PassRetags(before: map<Pair, Origin>, after: map<Pair, Origin>, wanted: set<Pair>)
    requires after ==
      (map p | p in wanted - before.Keys :: ByRule) + (before - ((Owned(before) - wanted) * Owned(before)))
    ensures Retagged(before, after, wanted)
  {
  }

  /** The counts are what changed, and a second pass has nothing left to do. */
  lemma SecondPassIsIdle(before: map<Pair, Origin>, after: map<Pair, Origin>, wanted: set<Pair>)
    requires Retagged(before, after, wanted)
    ensures wanted - before.Keys == after.Keys - before.Keys
    ensures Owned(before) - wanted == before.Keys - after.Keys
    ensures wanted - after.Keys == {} && Owned(after) - wanted == {}
    ensures forall again :: Retagged(after, again, wanted) ==> again == after
  {
    assert forall links: map<Pair, Origin>, p :: p in links <==> p in BySources(links) || p in Owned(links);
    forall again | Retagged(after, again, wanted)
      ensures again == after
    {
      assert again.Keys == after.Keys;
      forall p | p in after
        ensures again[p] == after[p]
      {
        assert p in BySources(after) <==> p in BySources(again);
      }
    }
  }

  // --- a pass while refreshes run -------------------------------------------------------------

  /** Where the pass stands; `known` are the ids that were there when it read the links. */
  datatype Phase =
    | Idle
    | Reading(existing: map<Pair, Origin>, known: set<int>, lastId: int, wanted: set<Pair>)
    | Removing(toRemove: set<Pair>, toAdd: set<Pair>)
    | Adding(toAdd: set<Pair>)

  datatype State = State(tables: Tables, phase: Phase)

  datatype Action =
    | Refresh(sourceId: int, rows: seq<NewItem>, topicIds: set<int>)
    | Snapshot
    | ReadBatch(last: int)
    | Compare
    | RemoveChunk(chunk: set<Pair>)
    | StartAdding
    | AddChunk(chunk: set<Pair>)
    | Finish

  ghost predicate Enabled(s: State, action: Action) {
    match action
    case Refresh(_, _, _) => true
    case Snapshot => s.phase.Idle?
    case ReadBatch(last) => s.phase.Reading? && last in s.tables.items && last > s.phase.lastId
    case Compare => s.phase.Reading? && forall id :: id in s.tables.items ==> id <= s.phase.lastId
    case RemoveChunk(chunk) => s.phase.Removing? && chunk <= s.phase.toRemove
    case StartAdding => s.phase.Removing? && s.phase.toRemove == {}
    case AddChunk(chunk) => s.phase.Adding? && chunk <= s.phase.toAdd
    case Finish => s.phase == Adding({})
  }

  /** Each action is one statement or one transaction of the refresh or of the pass. */
  function Next(s: State, action: Action, setup: Setup): State
    requires Enabled(s, action)
  {
    var t := s.tables;
    match action
    case Refresh(sourceId, rows, topicIds) => s.(tables := Upsert(t, sourceId, rows, topicIds, setup))
    case Snapshot => s.(phase := Reading(t.links, t.items.Keys, 0, {}))
    case ReadBatch(last) =>
      var batch := set id | id in t.items && s.phase.lastId < id <= last;
      s.(phase := s.phase.(lastId := last, wanted := s.phase.wanted + RulePairs(t.items, batch, setup)))
    case Compare =>
      s.(phase := Removing(Owned(s.phase.existing) - s.phase.wanted, s.phase.wanted - s.phase.existing.Keys))
    case RemoveChunk(chunk) =>
      State(t.(links := t.links - (chunk * Owned(t.links))), s.phase.(toRemove := s.phase.toRemove - chunk))
    case StartAdding => s.(phase := Adding(s.phase.toAdd))
    case AddChunk(chunk) =>
      State(t.(links := (map p | p in chunk :: ByRule) + t.links), s.phase.(toAdd := s.phase.toAdd - chunk))
    case Finish => s.(phase := Idle)
  }

  ghost predicate IsRun(s: State, actions: seq<Action>, setup: Setup)
    decreases |actions|
  {
    actions != [] ==> Enabled(s, actions[0]) && IsRun(Next(s, actions[0], setup), actions[1..], setup)
  }

  function Run(s: State, actions: seq<Action>, setup: Setup): State
    requires IsRun(s, actions, setup)
    decreases |actions|
  {
    if actions == [] then s else Run(Next(s, actions[0], setup), actions[1..], setup)
  }

  /** What holds of the links at each point of the pass. */
  ghost predicate PhaseHolds(t: Tables, phase: Phase, setup: Setup) {
    var wanted := Wanted(t.items, setup);
    match phase
    case Idle => true
    case Reading(existing, known, lastId, read) =>
      && known <= t.items.Keys && existing.Keys <= t.links.Keys && read <= wanted
      && (forall p :: p in existing ==> p.0 in known)
      && (forall p :: p in wanted && p.0 in known && p.0 <= lastId ==> p in read)
      && (forall p :: p in wanted && p.0 !in known ==> p in t.links)
      && (forall p :: p in Owned(t.links) ==> p in Owned(existing) || p in wanted)
    case Removing(toRemove, toAdd) =>
      && toAdd <= wanted
      && (forall p :: p in toRemove ==> p.0 in t.items && p !in wanted)
      && (forall p :: p in Owned(t.links) ==> p in toRemove || p in wanted)
      && (forall p :: p in wanted ==> p in t.links || p in toAdd)
    case Adding(toAdd) =>
      && toAdd <= wanted
      && (forall p :: p in Owned(t.links) ==> p in wanted)
      && (forall p :: p in wanted ==> p in t.links || p in toAdd)
  }

  ghost predicate Inv(s: State, setup: Setup) {
    Good(s.tables) && PhaseHolds(s.tables, s.phase, setup)
  }

  /** What a refresh can do to the links, whatever the pass is doing. */
  ghost predicate Moved(t: Tables, u: Tables, setup: Setup) {
    && (forall id :: id in t.items ==> id in u.items && u.items[id] == t.items[id])
    && t.links.Keys <= u.links.Keys
    && BySources(t.links) <= BySources(u.links)
    && Wanted(t.items, setup) <= Wanted(u.items, setup)
    && (forall p :: p in Wanted(u.items, setup) && p.0 in t.items ==> p in Wanted(t.items, setup))
    && (forall p :: p in Wanted(u.items, setup) && p.0 !in t.items ==> p in u.links)
    && (forall p :: p in Owned(u.links) ==> p in Owned(t.links) || p in Wanted(u.items, setup))
  }

  /** An item that an upsert brought in is one of its batch. */
  lemma NewcomersAreNamed(t: Tables, u: Tables, rows: seq<NewItem>, id: int)
    requires Good(t) && Good(u) && id in u.items && id !in t.items
    requires forall k :: k in t.items ==> k in u.items && u.items[k] == t.items[k]
    requires Urls(u.items) == Urls(t.items) + UrlSet(rows)
    ensures id in BatchIds(u.items, rows)
  {
    var url := u.items[id].canonicalUrl;
    assert url in Urls(u.items);
    assert url !in Urls(t.items) by {
      assert forall k :: k in t.items ==> u.items[k].canonicalUrl == t.items[k].canonicalUrl;
    }
  }

  lemma LinkAllMoves(t: Tables, u: Tables, ids: set<int>, source: set<Pair>, setup: Setup)
    requires forall id :: id in t.items ==> id in u.items && u.items[id] == t.items[id]
    requires ids <= u.items.Keys && forall id :: id in u.items && id !in t.items ==> id in ids
    requires u.links == LinkAll(t.links, source, RulePairs(u.items, ids, setup))
    ensures Moved(t, u, setup)
  {
    hide LinkAll, RulePairs;
    LinkAllIs(t.links, source, RulePairs(u.items, ids, setup));
    WantedGrows(t.items, u.items, ids, setup);
  }

  /** More items argue for more pairs, and each pair by its own item alone. */
  lemma WantedGrows(before: map<int, Item>, after: map<int, Item>, ids: set<int>, setup: Setup)
    requires forall id :: id in before ==> id in after && after[id] == before[id]
    requires forall id :: id in after && id !in before ==> id in ids
    ensures Wanted(before, setup) <= Wanted(after, setup)
    ensures RulePairs(after, ids, setup) <= Wanted(after, setup)
    ensures forall p :: p in Wanted(after, setup) ==>
      if p.0 in before then p in Wanted(before, setup) else p in RulePairs(after, ids, setup)
  {
  }

  lemma UpsertMoves(t: Tables, sourceId: int, rows: seq<NewItem>, topicIds: set<int>, setup: Setup)
    requires Good(t)
    ensures Moved(t, Upsert(t, sourceId, rows, topicIds, setup), setup)
  {
    hide Good, InsertItems, NewRows, Urls, UrlSet, SourcePairs, RulePairs, LinkAll, Moved;
    var u := Upsert(t, sourceId, rows, topicIds, setup);
    if rows == [] {
      NothingMoves(t, setup);
    } else {
      var v := InsertItems(t, sourceId, NewRows(t.items, rows), setup);
      InsertedItems(t, sourceId, NewRows(t.items, rows), setup);
      NewRowsAre(t.items, rows);
      assert Urls(v.items) == Urls(t.items) + UrlSet(rows);
      forall id | id in v.items && id !in t.items
        ensures id in BatchIds(v.items, rows)
      {
        NewcomersAreNamed(t, v, rows, id);
      }
      LinkAllMoves(t, u, BatchIds(v.items, rows), SourcePairs(BatchIds(v.items, rows), topicIds), setup);
    }
  }

  lemma NothingMoves(t: Tables, setup: Setup)
    ensures Moved(t, t, setup)
  {
  }

  /** A refresh slipping in at any point of the pass upsets none of what the pass relies on. */
  lemma RefreshKeepsPhase(t: Tables, u: Tables, phase: Phase, setup: Setup)
    requires Good(t) && Moved(t, u, setup) && PhaseHolds(t, phase, setup)
    ensures PhaseHolds(u, phase, setup)
  {
    hide Good, RulePairs;
    assert forall id :: id in t.items ==> id in u.items;
    match phase {
      case Idle =>
      case Reading(existing, known, _, _) =>
        assert forall id :: id in known ==> id in t.items;
      case Removing(toRemove, toAdd) =>
        forall p | p in toRemove
          ensures p.0 in u.items
        {
          var id := p.0;
          assert id in t.items;
        }
      case Adding(toAdd) =>
    }
  }

  lemma WantedHaveItems(items: map<int, Item>, setup: Setup)
    ensures forall p :: p in Wanted(items, setup) ==> p.0 in items
  {
  }

  lemma ReadBatchKeeps(t: Tables, phase: Phase, last: int, setup: Setup)
    requires phase.Reading? && last > phase.lastId && PhaseHolds(t, phase, setup)
    ensures var batch := set id | id in t.items && phase.lastId < id <= last;
      PhaseHolds(t, phase.(lastId := last, wanted := phase.wanted + RulePairs(t.items, batch, setup)), setup)
  {
  }

  lemma CompareKeeps(t: Tables, phase: Phase, setup: Setup)
    requires phase.Reading? && PhaseHolds(t, phase, setup)
    requires forall id :: id in t.items ==> id <= phase.lastId
    ensures PhaseHolds(t, Removing(Owned(phase.existing) - phase.wanted, phase.wanted - phase.existing.Keys), setup)
  {
    hide RulePairs;
  }

  lemma SnapshotKeeps(t: Tables, setup: Setup)
    requires Good(t)
    ensures PhaseHolds(t, Reading(t.links, t.items.Keys, 0, {}), setup)
  {
  }

  lemma PassKeeps(s: State, action: Action, setup: Setup)
    requires Inv(s, setup) && Enabled(s, action) && !action.Refresh?
    ensures Inv(Next(s, action, setup), setup)
  {
    hide RulePairs;
    match action {
      case Snapshot => SnapshotKeeps(s.tables, setup);
      case ReadBatch(last) => ReadBatchKeeps(s.tables, s.phase, last, setup);
      case Compare => CompareKeeps(s.tables, s.phase, setup);
      case RemoveChunk(chunk) =>
      case StartAdding =>
      case AddChunk(chunk) => WantedHaveItems(s.tables.items, setup);
      case Finish =>
    }
  }

  /** Every statement of the pass and every refresh keeps the invariant, and every source link. */
  lemma ActionKeeps(s: State, action: Action, setup: Setup)
    requires Inv(s, setup) && Enabled(s, action)
    ensures Inv(Next(s, action, setup), setup)
    ensures BySources(s.tables.links) <= BySources(Next(s, action, setup).tables.links)
  {
    hide RulePairs, PhaseHolds, Good, Upsert;
    if action.Refresh? {
      var u := Upsert(s.tables, action.sourceId, action.rows, action.topicIds, setup);
      UpsertMoves(s.tables, action.sourceId, action.rows, action.topicIds, setup);
      Ingest.UpsertKeeps(s.tables, action.sourceId, action.rows, action.topicIds, setup);
      RefreshKeepsPhase(s.tables, u, s.phase, setup);
    } else {
      PassKeeps(s, action, setup);
    }
  }

  /**
   * However refreshes and passes interleave, no source link is ever lost or demoted, and
   * what the pass relies on holds throughout.
   */
  lemma {:induction false} RunKeeps(s: State, actions: seq<Action>, setup: Setup)
    requires Inv(s, setup) && IsRun(s, actions, setup)
    ensures Inv(Run(s, actions, setup), setup)
    ensures BySources(s.tables.links) <= BySources(Run(s, actions, setup).tables.links)
    decreases |actions|
  {
    hide Inv, Next, Enabled, BySources;
    if actions != [] {
      ActionKeeps(s, actions[0], setup);
      RunKeeps(Next(s, actions[0], setup), actions[1..], setup);
    }
  }

  /** Rules own nothing they do not argue for, and nothing they argue for is missing. */
  ghost predicate Settled(t: Tables, setup: Setup) {
    Owned(t.links) == Wanted(t.items, setup) - BySources(t.links)
  }

  lemma AllAddedSettles(t: Tables, setup: Setup)
    requires PhaseHolds(t, Adding({}), setup)
    ensures Settled(t, setup)
  {
    hide RulePairs;
    assert forall p :: p in t.links <==> p in BySources(t.links) || p in Owned(t.links);
  }

  /**
   * A pass that has added its last chunk leaves the links settled for the items there are
   * then, whatever refreshes did while it ran, and whatever the links were when it began.
   */
  lemma PassSettles(t: Tables, actions: seq<Action>, setup: Setup)
    requires Good(t) && IsRun(State(t, Idle), actions, setup)
    requires Run(State(t, Idle), actions, setup).phase == Adding({})
    ensures Settled(Run(State(t, Idle), actions, setup).tables, setup)
  {
    hide IsRun, Run, Good, RulePairs, Settled;
    RunKeeps(State(t, Idle), actions, setup);
    AllAddedSettles(Run(State(t, Idle), actions, setup).tables, setup);
  }

  /** Pair by pair: a rule owns a link exactly if the item's URL argues for it and the source does not own it. */
  lemma SettledPairs(t: Tables, setup: Setup, id: int, topic: int)
    requires Settled(t, setup)
    ensures (id, topic) in t.links && t.links[(id, topic)] == ByRule <==>
      Argued(t.items, setup, id, topic) && !((id, topic) in t.links && t.links[(id, topic)] == BySource)
  {
    hide Wanted;
    WantedAre(t.items, setup, id, topic);
    assert (id, topic) in Owned(t.links) <==> (id, topic) in t.links && t.links[(id, topic)] == ByRule;
  }

  // --- a pass can always be finished ------------------------------------------------------------

  ghost predicate NoRefresh(actions: seq<Action>) { forall i :: 0 <= i < |actions| ==> !actions[i].Refresh? }

  /** By statements of its own the pass can get to where it has added everything. */
  ghost predicate CanFinish(s: State, setup: Setup) {
    exists actions ::
      IsRun(s, actions, setup) && NoRefresh(actions) && Run(s, actions, setup).phase == Adding({})
  }

  lemma FinishedIs(s: State, setup: Setup)
    requires s.phase == Adding({})
    ensures CanFinish(s, setup)
  {
    assert IsRun(s, [], setup) && NoRefresh([]) && Run(s, [], setup) == s;
  }

  lemma FinishesAfter(s: State, action: Action, setup: Setup)
    requires Enabled(s, action) && !action.Refresh? && CanFinish(Next(s, action, setup), setup)
    ensures CanFinish(s, setup)
  {
    hide Next, Enabled;
    var rest :| IsRun(Next(s, action, setup), rest, setup) && NoRefresh(rest)
      && Run(Next(s, action, setup), rest, setup).phase == Adding({});
    var all := [action] + rest;
    assert all[1..] == rest;
    assert IsRun(s, all, setup) && NoRefresh(all) && Run(s, all, setup) == Run(Next(s, action, setup), rest, setup);
  }

  lemma SomeId(ids: set<int>)
    ensures ids == {} || exists id :: id in ids
  {
    if forall id: int :: id !in ids {
      assert ids == {};
    }
  }

  lemma {:induction false} GreatestId(ids: set<int>)
    requires ids != {}
    ensures exists last :: last in ids && forall id :: id in ids ==> id <= last
  {
    SomeId(ids);
    var some :| some in ids;
    var rest := ids - {some};
    assert forall id: int :: id in ids <==> id == some || id in rest;
    if rest != {} {
      GreatestId(rest);
      var last :| last in rest && forall id :: id in rest ==> id <= last;
      var greatest := if last < some then some else last;
      assert greatest in ids && forall id :: id in ids ==> id <= greatest;
    }
  }

  lemma AddingFinishes(s: State, setup: Setup)
    requires s.phase.Adding?
    ensures CanFinish(s, setup)
  {
    var toAdd := s.phase.toAdd;
    assert toAdd - toAdd == {};
    FinishedIs(Next(s, AddChunk(toAdd), setup), setup);
    FinishesAfter(s, AddChunk(toAdd), setup);
  }

  lemma RemovingFinishes(s: State, setup: Setup)
    requires s.phase.Removing?
    ensures CanFinish(s, setup)
  {
    var toRemove := s.phase.toRemove;
    var removed := Next(s, RemoveChunk(toRemove), setup);
    assert toRemove - toRemove == {};
    AddingFinishes(Next(removed, StartAdding, setup), setup);
    FinishesAfter(removed, StartAdding, setup);
    FinishesAfter(s, RemoveChunk(toRemove), setup);
  }

  lemma ReadingFinishes(s: State, setup: Setup)
    requires s.phase.Reading?
    ensures CanFinish(s, setup)
  {
    hide CanFinish, RulePairs;
    if Enabled(s, Compare) {
      RemovingFinishes(Next(s, Compare, setup), setup);
      FinishesAfter(s, Compare, setup);
    } else {
      GreatestId(s.tables.items.Keys);
      var last :| last in s.tables.items.Keys && forall id :: id in s.tables.items.Keys ==> id <= last;
      var done := Next(s, ReadBatch(last), setup);
      RemovingFinishes(Next(done, Compare, setup), setup);
      FinishesAfter(done, Compare, setup);
      FinishesAfter(s, ReadBatch(last), setup);
    }
  }

  /** Wherever a pass stands, refreshes may come at any time, and the pass can still be finished. */
  lemma PassCanFinish(s: State, setup: Setup, sourceId: int, rows: seq<NewItem>, topicIds: set<int>)
    ensures Enabled(s, Refresh(sourceId, rows, topicIds))
    ensures CanFinish(s, setup) && CanFinish(Next(s, Refresh(sourceId, rows, topicIds), setup), setup)
  {
    hide CanFinish, Upsert;
    StateFinishes(s, setup);
    StateFinishes(Next(s, Refresh(sourceId, rows, topicIds), setup), setup);
  }

  lemma StateFinishes(s: State, setup: Setup)
    ensures CanFinish(s, setup)
  {
    hide CanFinish;
    match s.phase {
      case Idle =>
        ReadingFinishes(Next(s, Snapshot, setup), setup);
        FinishesAfter(s, Snapshot, setup);
      case Reading(_, _, _, _) => ReadingFinishes(s, setup);
      case Removing(_, _) => RemovingFinishes(s, setup);
      case Adding(_) => AddingFinishes(s, setup);
    }
  }

  /** Refreshes keep settled links settled. */
  lemma RefreshStaysSettled(t: Tables, sourceId: int, rows: seq<NewItem>, topicIds: set<int>, setup: Setup)
    requires Good(t) && Settled(t, setup)
    ensures Settled(Upsert(t, sourceId, rows, topicIds, setup), setup)
  {
    hide Upsert, Good, RulePairs;
    UpsertMoves(t, sourceId, rows, topicIds, setup);
    var u := Upsert(t, sourceId, rows, topicIds, setup);
    assert forall p :: p in u.links <==> p in BySources(u.links) || p in Owned(u.links);
    assert forall p :: p in t.links <==> p in BySources(t.links) || p in Owned(t.links);
  }
}

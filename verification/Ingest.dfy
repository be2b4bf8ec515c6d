/** Refreshes and prunes over time: what a run of them keeps, and what stays out. */
module Ingest {
  import opened Text
  import opened Items
  import opened Store
  import Normalise
  import opened PlainText

  const MAX_TITLE_LENGTH: nat := 1024
  const MAX_SUMMARY_LENGTH: nat := 2000

  /** How far ahead of the fetch a publication date may be, in microseconds. */
  const MAX_CLOCK_SKEW := 86_400_000_000

  datatype ParsedEntry = ParsedEntry(
    link: Option<string>, title: Option<string>, summary: Option<string>, published: Option<int>)

  /** `markup` is the foreign stripping of markup; retention is a length of time in microseconds. */
  datatype Service = Service(markup: string -> string, setup: Setup, retention: nat)

  function Truncate(text: string, limit: nat): string
    requires limit >= 1
  {
    if |text| <= limit then text else StripRight(text[..limit - 1]) + "\U{2026}"
  }

  /** The feed's date, or the fetch time when there is none or it is implausibly far ahead. */
  function NormalisePublished(published: Option<int>, fetchedAt: int): int {
    if published.None? || published.value > fetchedAt + MAX_CLOCK_SKEW then fetchedAt else published.value
  }

  /** The title as it is stored: plain and shortened, or the URL when nothing is left of it. */
  function StoredTitle(markup: string -> string, title: Option<string>, url: string): string {
    Truncate(match ToPlainText(markup, title) case Some(text) => text case None => url, MAX_TITLE_LENGTH)
  }

  function StoredSummary(markup: string -> string, summary: Option<string>): Option<string> {
    match ToPlainText(markup, summary)
    case Some(text) => Some(Truncate(text, MAX_SUMMARY_LENGTH))
    case None => None
  }

  function NormaliseEntry(markup: string -> string, entry: ParsedEntry, fetchedAt: int): Option<NewItem> {
    if entry.link.None? then None else
      match Normalise.NormaliseUrl(entry.link.value)
      case None => None
      case Some(url) =>
        Some(NewItem(url, StoredTitle(markup, entry.title, url), StoredSummary(markup, entry.summary),
                     NormalisePublished(entry.published, fetchedAt)))
  }

  lemma TruncateFits(text: string, limit: nat)
    requires limit >= 1
    ensures |Truncate(text, limit)| <= limit && (text != "" ==> Truncate(text, limit) != "")
    ensures Truncate(Truncate(text, limit), limit) == Truncate(text, limit)
  {
    if |text| > limit {
      StripRightIsPrefix(text[..limit - 1]);
    }
  }

  /** What is stored of an entry fits its columns, and is dated no later than the skew allows. */
  lemma EntryFits(markup: string -> string, entry: ParsedEntry, fetchedAt: int)
    requires NormaliseEntry(markup, entry, fetchedAt).Some?
    ensures var item := NormaliseEntry(markup, entry, fetchedAt).value;
      && |item.canonicalUrl| <= Normalise.MAX_URL_LENGTH && |item.title| <= MAX_TITLE_LENGTH
      && (item.summary.Some? ==> |item.summary.value| <= MAX_SUMMARY_LENGTH)
      && item.publishedAt <= fetchedAt + MAX_CLOCK_SKEW
      && item.title != "" && item.summary != Some("")
  {
    hide Truncate, Flattened, Normalise.NormaliseUrl;
    var url := Normalise.NormaliseUrl(entry.link.value).value;
    KeyIsFilled(entry.link.value);
    TruncateFits(match ToPlainText(markup, entry.title) case Some(text) => text case None => url, MAX_TITLE_LENGTH);
    if ToPlainText(markup, entry.summary).Some? {
      TruncateFits(ToPlainText(markup, entry.summary).value, MAX_SUMMARY_LENGTH);
    }
  }

  lemma KeyIsFilled(raw: string)
    requires Normalise.NormaliseUrl(raw).Some?
    ensures Normalise.NormaliseUrl(raw).value != "" && |Normalise.NormaliseUrl(raw).value| <= Normalise.MAX_URL_LENGTH
  {
    hide Normalise.ParseUrl, Normalise.Normal;
  }

  /** Usable entries inside the window, the first of each URL. */
  function Normalised(
      markup: string -> string, entries: seq<ParsedEntry>, fetchedAt: int, oldest: Option<int>): seq<NewItem>
  {
    if entries == [] then [] else
      var before := Normalised(markup, entries[..|entries| - 1], fetchedAt, oldest);
      match NormaliseEntry(markup, entries[|entries| - 1], fetchedAt)
      case None => before
      case Some(item) =>
        if item.canonicalUrl in UrlSet(before) || (oldest.Some? && item.publishedAt < oldest.value) then before
        else before + [item]
  }

  /** The loop over a feed's entries. */
  method NormaliseEntries(
      markup: string -> string, entries: seq<ParsedEntry>, fetchedAt: int, oldest: Option<int>)
    returns (items: seq<NewItem>)
    ensures items == Normalised(markup, entries, fetchedAt, oldest)
    ensures DistinctUrls(items)
  {
    hide NormaliseEntry;
    var seen: set<string> := {};
    items := [];
    for i := 0 to |entries|
      invariant items == Normalised(markup, entries[..i], fetchedAt, oldest)
      invariant seen == UrlSet(items) && DistinctUrls(items)
    {
      assert entries[..i + 1][..i] == entries[..i];
      match NormaliseEntry(markup, entries[i], fetchedAt) {
        case None =>
        case Some(item) =>
          if item.canonicalUrl !in seen && !(oldest.Some? && item.publishedAt < oldest.value) {
            DistinctSnoc(items, item);
            seen := seen + {item.canonicalUrl};
            items := items + [item];
          }
      }
    }
    assert entries[..|entries|] == entries;
  }

  lemma DistinctSnoc(rows: seq<NewItem>, item: NewItem)
    requires DistinctUrls(rows) && item.canonicalUrl !in UrlSet(rows)
    ensures DistinctUrls(rows + [item]) && UrlSet(rows + [item]) == UrlSet(rows) + {item.canonicalUrl}
  {
    UrlSetSnoc(rows + [item]);
    assert (rows + [item])[..|rows|] == rows;
    assert forall i :: 0 <= i < |rows| ==> rows[i].canonicalUrl in UrlSet(rows);
  }

  /** Everything handed to the store came from an entry, in the window. */
  lemma {:induction false} NormalisedFrom(
      markup: string -> string, entries: seq<ParsedEntry>, fetchedAt: int, oldest: Option<int>, url: string)
    requires url in UrlSet(Normalised(markup, entries, fetchedAt, oldest))
    ensures exists i :: 0 <= i < |entries| && Admits(markup, entries[i], fetchedAt, oldest, url)
  {
    hide NormaliseEntry;
    if entries == [] {
      NoUrls();
    } else {
      var front := entries[..|entries| - 1];
      var before := Normalised(markup, front, fetchedAt, oldest);
      var all := Normalised(markup, entries, fetchedAt, oldest);
      if url in UrlSet(before) {
        NormalisedFrom(markup, front, fetchedAt, oldest, url);
        var i :| 0 <= i < |front| && Admits(markup, front[i], fetchedAt, oldest, url);
        assert entries[i] == front[i];
      } else {
        UrlSetSnoc(all);
        assert Admits(markup, entries[|entries| - 1], fetchedAt, oldest, url);
      }
    }
  }

  /** The entry is a usable one for this URL, young enough to be stored. */
  ghost predicate Admits(
      markup: string -> string, entry: ParsedEntry, fetchedAt: int, oldest: Option<int>, url: string)
  {
    var item := NormaliseEntry(markup, entry, fetchedAt);
    item.Some? && item.value.canonicalUrl == url && (oldest.Some? ==> item.value.publishedAt >= oldest.value)
  }

  // --- runs -----------------------------------------------------------------------------

  datatype Step =
    | Refresh(sourceId: int, entries: seq<ParsedEntry>, topicIds: set<int>, now: int)
    | Prune(now: int)
    | Save(user: int, id: int, now: int)
    | Unsave(user: int, id: int, now: int)

  function Apply(s: Service, t: Tables, step: Step): Tables {
    match step
    case Refresh(sourceId, entries, topicIds, now) =>
      Upsert(t, sourceId, Normalised(s.markup, entries, now, Some(now - s.retention)), topicIds, s.setup)
    case Prune(now) => PruneItems(t, now - s.retention)
    case Save(user, id, now) =>
      if id in t.items && (user, id) !in t.bookmarks then t.(bookmarks := t.bookmarks[(user, id) := now]) else t
    case Unsave(user, id, _) => if id in t.items then t.(bookmarks := t.bookmarks - {(user, id)}) else t
  }

  function Run(s: Service, t: Tables, steps: seq<Step>): Tables
    decreases |steps|
  {
    if steps == [] then t else Run(s, Apply(s, t, steps[0]), steps[1..])
  }

  /** The imperative database and the steps agree: a refresh. */
  method RefreshSource(s: Service, db: Database, sourceId: int, entries: seq<ParsedEntry>, topicIds: set<int>, now: int)
    returns (inserted: nat)
    requires Good(db.Contents())
    modifies db
    ensures db.Contents() == Apply(s, old(db.Contents()), Refresh(sourceId, entries, topicIds, now))
    ensures inserted == |db.items| - |old(db.items)|
  {
    hide Normalised, NewRows, Upsert, DistinctUrls, Good;
    ghost var before := db.Contents();
    var items := NormaliseEntries(s.markup, entries, now, Some(now - s.retention));
    inserted := db.UpsertItems(sourceId, items, topicIds, s.setup);
    ReportedIsGrowth(before, sourceId, items, topicIds, s.setup);
    NewRowsDistinct(before.items, items);
  }

  lemma {:induction false} NewRowsDistinct(items: map<int, Item>, rows: seq<NewItem>)
    requires DistinctUrls(rows)
    ensures DistinctUrls(NewRows(items, rows))
    ensures UrlSet(NewRows(items, rows)) <= UrlSet(rows)
  {
    NewRowsAre(items, rows);
    if rows != [] {
      var front, last := rows[..|rows| - 1], rows[|rows| - 1];
      NewRowsDistinct(items, front);
      forall i | 0 <= i < |front|
        ensures front[i].canonicalUrl != last.canonicalUrl
      {
        assert rows[i] == front[i];
      }
      if last.canonicalUrl !in Urls(items) {
        assert last.canonicalUrl !in UrlSet(front);
        DistinctSnoc(NewRows(items, front), last);
      }
    }
  }

  /** Rows are neither rewritten nor given another row's id. */
  ghost predicate RowsStand(t: Tables, u: Tables) {
    && u.nextId >= t.nextId
    && forall id :: id in u.items && id < t.nextId ==> id in t.items && u.items[id] == t.items[id]
  }

  /** One step keeps the tables good, rewrites no row and reuses no id. */
  lemma StepKeeps(s: Service, t: Tables, step: Step)
    requires Good(t)
    ensures Good(Apply(s, t, step)) && RowsStand(t, Apply(s, t, step))
  {
    hide Upsert, Normalised, PruneItems;
    match step {
      case Refresh(sourceId, entries, topicIds, now) =>
        UpsertKeeps(t, sourceId, Normalised(s.markup, entries, now, Some(now - s.retention)), topicIds, s.setup);
      case Prune(now) =>
        PruneKeeps(t, now - s.retention);
      case Save(user, id, now) =>
      case Unsave(user, id, now) =>
    }
  }

  lemma PruneKeeps(t: Tables, cutoff: int)
    requires Good(t)
    ensures var u := PruneItems(t, cutoff);
      && Good(u) && RowsStand(t, u) && u.bookmarks == t.bookmarks && Urls(u.items) <= Urls(t.items)
      && forall id :: id in t.items && id !in u.items ==>
           t.items[id].publishedAt < cutoff && !Bookmarked(t, id) && t.items[id].canonicalUrl !in Urls(u.items)
  {
    var u := PruneItems(t, cutoff);
    forall b | b in u.bookmarks
      ensures b.1 in u.items
    {
      assert Bookmarked(t, b.1);
    }
  }

  lemma LinksHaveItems(t: Tables, ids: set<int>, topicIds: set<int>, setup: Setup)
    requires Good(t) && ids <= t.items.Keys
    ensures Good(t.(links := LinkAll(t.links, SourcePairs(ids, topicIds), RulePairs(t.items, ids, setup))))
  {
    LinkAllIs(t.links, SourcePairs(ids, topicIds), RulePairs(t.items, ids, setup));
  }

  lemma UpsertKeeps(t: Tables, sourceId: int, rows: seq<NewItem>, topicIds: set<int>, setup: Setup)
    requires Good(t)
    ensures var u := Upsert(t, sourceId, rows, topicIds, setup);
      && Good(u) && RowsStand(t, u) && u.bookmarks == t.bookmarks
      && (forall id :: id in t.items ==> id in u.items && u.items[id] == t.items[id])
      && Urls(u.items) == Urls(t.items) + UrlSet(rows)
  {
    hide NewRows, InsertItems, LinkAll, Urls, UrlSet, Good, SourcePairs, RulePairs;
    if rows == [] {
      NoUrls();
    } else {
      var v := InsertItems(t, sourceId, NewRows(t.items, rows), setup);
      InsertedItems(t, sourceId, NewRows(t.items, rows), setup);
      NewRowsAre(t.items, rows);
      LinksHaveItems(v, BatchIds(v.items, rows), topicIds, setup);
    }
  }

  /** Over any run: canonical URLs stay unique, rows are never rewritten, ids never come back. */
  lemma {:induction false} RunKeeps(s: Service, t: Tables, steps: seq<Step>)
    requires Good(t)
    ensures Good(Run(s, t, steps)) && RowsStand(t, Run(s, t, steps))
    decreases |steps|
  {
    hide Good, Apply;
    if steps != [] {
      StepKeeps(s, t, steps[0]);
      RunKeeps(s, Apply(s, t, steps[0]), steps[1..]);
    }
  }

  ghost predicate Keeps(t: Tables, u: Tables, user: int, id: int) {
    && id in t.items && id in u.items && u.items[id] == t.items[id]
    && (user, id) in t.bookmarks && (user, id) in u.bookmarks
    && u.bookmarks[(user, id)] == t.bookmarks[(user, id)]
  }

  ghost predicate LetsGo(step: Step, user: int, id: int) {
    step.Unsave? && step.user == user && step.id == id
  }

  /** A saved item survives every run in which its owner does not let it go, first save and all. */
  lemma {:induction false} SavedStays(s: Service, t: Tables, steps: seq<Step>, user: int, id: int)
    requires Good(t) && (user, id) in t.bookmarks
    requires forall i :: 0 <= i < |steps| ==> !LetsGo(steps[i], user, id)
    ensures Keeps(t, Run(s, t, steps), user, id)
    decreases |steps|
  {
    hide Apply, LetsGo;
    SavedIsStored(t, user, id);
    if steps != [] {
      StepKeepsSaved(s, t, steps[0], user, id);
      StepKeeps(s, t, steps[0]);
      SavedStays(s, Apply(s, t, steps[0]), steps[1..], user, id);
    }
  }

  /** Saving an item that is there bookmarks it, first save and all; letting go takes that bookmark and no other. */
  lemma BookmarkSteps(s: Service, t: Tables, user: int, id: int, now: int)
    requires Good(t)
    ensures var u := Apply(s, t, Save(user, id, now));
      && u.items == t.items && u.links == t.links && ((user, id) in u.bookmarks <==> id in t.items)
      && (id in t.items ==>
            u.bookmarks[(user, id)] == if (user, id) in t.bookmarks then t.bookmarks[(user, id)] else now)
      && forall b :: b != (user, id) ==>
           (b in u.bookmarks <==> b in t.bookmarks) && (b in t.bookmarks ==> u.bookmarks[b] == t.bookmarks[b])
    ensures var u := Apply(s, t, Unsave(user, id, now));
      && u.items == t.items && u.links == t.links && (user, id) !in u.bookmarks
      && forall b :: b != (user, id) ==>
           (b in u.bookmarks <==> b in t.bookmarks) && (b in t.bookmarks ==> u.bookmarks[b] == t.bookmarks[b])
  {
    assert (user, id) in t.bookmarks ==> (user, id).1 in t.items;
  }

  /** An item that is saved while it is there stays, as it is, until its owner lets it go. */
  lemma SaveKeeps(s: Service, t: Tables, before: seq<Step>, user: int, id: int, now: int, after: seq<Step>)
    requires Good(t) && id in Run(s, t, before).items
    requires forall i :: 0 <= i < |after| ==> !LetsGo(after[i], user, id)
    ensures var u, v := Run(s, t, before), Run(s, t, before + [Save(user, id, now)] + after);
      id in v.items && v.items[id] == u.items[id] && (user, id) in v.bookmarks
  {
    hide Good, Run, LetsGo;
    var u := Run(s, t, before);
    RunKeeps(s, t, before);
    StepKeeps(s, u, Save(user, id, now));
    BookmarkSteps(s, u, user, id, now);
    RunOn(s, t, before + [Save(user, id, now)], after);
    RunOn(s, t, before, [Save(user, id, now)]);
    RunOne(s, u, Save(user, id, now));
    SavedStays(s, Apply(s, u, Save(user, id, now)), after, user, id);
  }

  lemma SavedIsStored(t: Tables, user: int, id: int)
    requires Good(t) && (user, id) in t.bookmarks
    ensures id in t.items && Bookmarked(t, id)
  {
    assert (user, id).1 == id;
  }

  lemma StepKeepsSaved(s: Service, t: Tables, step: Step, user: int, id: int)
    requires Good(t) && (user, id) in t.bookmarks && !LetsGo(step, user, id)
    ensures Keeps(t, Apply(s, t, step), user, id)
  {
    hide Good, Upsert, Normalised, PruneItems, Bookmarked;
    SavedIsStored(t, user, id);
    match step {
      case Refresh(sourceId, entries, topicIds, now) =>
        UpsertKeeps(t, sourceId, Normalised(s.markup, entries, now, Some(now - s.retention)), topicIds, s.setup);
      case Prune(now) =>
        PruneKeeps(t, now - s.retention);
        SavedIsKept(t, PruneItems(t, now - s.retention), user, id);
      case Save(_, _, _) =>
      case Unsave(_, _, _) =>
    }
  }

  lemma SavedIsKept(t: Tables, u: Tables, user: int, id: int)
    requires Good(t) && Good(u) && RowsStand(t, u) && u.bookmarks == t.bookmarks && (user, id) in t.bookmarks
    ensures Keeps(t, u, user, id)
  {
    assert (user, id).1 == id;
  }

  // --- what retention removes ---------------------------------------------------------------

  ghost predicate Links(e: ParsedEntry, url: string) {
    e.link.Some? && Normalise.NormaliseUrl(e.link.value) == Some(url)
  }

  /** No date, one too far ahead to be believed, or one inside the window. */
  predicate Timely(s: Service, e: ParsedEntry, now: int) {
    e.published.None? || e.published.value > now + MAX_CLOCK_SKEW || e.published.value >= now - s.retention
  }

  lemma AdmitsIff(s: Service, e: ParsedEntry, now: int, url: string)
    ensures Admits(s.markup, e, now, Some(now - s.retention), url) <==> Links(e, url) && Timely(s, e, now)
  {
    hide Normalise.NormaliseUrl, StoredTitle, StoredSummary;
  }

  /** An entry that qualifies, or an earlier one of its URL, is handed to the store. */
  lemma {:induction false} NormalisedHas(
      markup: string -> string, entries: seq<ParsedEntry>, fetchedAt: int, oldest: Option<int>, url: string, i: nat)
    requires i < |entries| && Admits(markup, entries[i], fetchedAt, oldest, url)
    ensures url in UrlSet(Normalised(markup, entries, fetchedAt, oldest))
  {
    hide NormaliseEntry, UrlSet;
    var front, last := entries[..|entries| - 1], entries[|entries| - 1];
    var before, all := Normalised(markup, front, fetchedAt, oldest), Normalised(markup, entries, fetchedAt, oldest);
    if all != before {
      UrlSetSnoc(all);
      assert all[..|all| - 1] == before;
    }
    if i < |front| {
      NormalisedHas(markup, front, fetchedAt, oldest, url, i);
    }
  }

  /**
   * A refresh stores a URL that is not there, pruned before or never seen, if and only if one
   * of the entries for it carries no date, a date still implausibly far ahead, or one inside
   * the window.
   */
  lemma ReadmittedIff(
      s: Service, t: Tables, sourceId: int, entries: seq<ParsedEntry>, topicIds: set<int>, now: int, url: string)
    requires Good(t) && url !in Urls(t.items)
    ensures url in Urls(Apply(s, t, Refresh(sourceId, entries, topicIds, now)).items) <==>
      exists i :: 0 <= i < |entries| && Links(entries[i], url) && Timely(s, entries[i], now)
  {
    hide Normalised, Upsert, Urls, UrlSet, Good, Links, Timely, Admits;
    var oldest := Some(now - s.retention);
    UpsertKeeps(t, sourceId, Normalised(s.markup, entries, now, oldest), topicIds, s.setup);
    if url in UrlSet(Normalised(s.markup, entries, now, oldest)) {
      NormalisedFrom(s.markup, entries, now, oldest, url);
      var i :| 0 <= i < |entries| && Admits(s.markup, entries[i], now, oldest, url);
      AdmitsIff(s, entries[i], now, url);
    }
    if i :| 0 <= i < |entries| && Links(entries[i], url) && Timely(s, entries[i], now) {
      AdmitsIff(s, entries[i], now, url);
      NormalisedHas(s.markup, entries, now, oldest, url, i);
    }
  }

  /** From `start` on, the feeds date the URL, each as it likes, before the window of then. */
  ghost predicate DatedBefore(s: Service, steps: seq<Step>, url: string, start: int) {
    && (forall i :: 0 <= i < |steps| ==> steps[i].now >= start)
    && (forall i, k :: 0 <= i < |steps| && steps[i].Refresh? && 0 <= k < |steps[i].entries|
          && Links(steps[i].entries[k], url)
          ==> steps[i].entries[k].published.Some? && steps[i].entries[k].published.value < start - s.retention)
  }

  lemma {:induction false} StaysOut(s: Service, t: Tables, steps: seq<Step>, url: string, start: int)
    requires Good(t) && url !in Urls(t.items) && DatedBefore(s, steps, url, start)
    ensures url !in Urls(Run(s, t, steps).items)
    decreases |steps|
  {
    hide Good, Apply, Urls, Links;
    if steps != [] {
      DatedSplit(s, steps, url, start);
      StepLeavesOut(s, t, steps[0], url, start);
      StepKeeps(s, t, steps[0]);
      StaysOut(s, Apply(s, t, steps[0]), steps[1..], url, start);
    }
  }

  lemma DatedSplit(s: Service, steps: seq<Step>, url: string, start: int)
    requires steps != [] && DatedBefore(s, steps, url, start)
    ensures DatedBefore(s, [steps[0]], url, start) && DatedBefore(s, steps[1..], url, start)
  {
    hide Links;
    assert forall i :: 0 <= i < |steps[1..]| ==> steps[1..][i] == steps[i + 1];
  }

  lemma StepLeavesOut(s: Service, t: Tables, step: Step, url: string, start: int)
    requires Good(t) && url !in Urls(t.items) && DatedBefore(s, [step], url, start)
    ensures url !in Urls(Apply(s, t, step).items)
  {
    hide Good, Urls, Upsert, PruneItems, Normalised, Links;
    assert [step][0] == step;
    match step {
      case Refresh(sourceId, entries, topicIds, now) =>
        ReadmittedIff(s, t, sourceId, entries, topicIds, now, url);
        forall i | 0 <= i < |entries| && Links(entries[i], url)
          ensures !Timely(s, entries[i], now)
        {
          assert [step][0].entries[i] == entries[i];
        }
      case Prune(now) =>
        PruneKeeps(t, now - s.retention);
      case Save(_, _, _) =>
      case Unsave(_, _, _) =>
    }
  }

  /** With time moving on, what retention pruned and feeds date before the window is never stored again. */
  lemma PrunedNeverReturns(s: Service, t: Tables, id: int, pruned: int, steps: seq<Step>)
    requires Good(t) && id in t.items && id !in PruneItems(t, pruned - s.retention).items
    requires DatedBefore(s, steps, t.items[id].canonicalUrl, pruned)
    ensures t.items[id].canonicalUrl !in Urls(Run(s, PruneItems(t, pruned - s.retention), steps).items)
  {
    hide Good, PruneItems, Urls;
    PruneKeeps(t, pruned - s.retention);
    StaysOut(s, PruneItems(t, pruned - s.retention), steps, t.items[id].canonicalUrl, pruned);
  }

  // --- what a refresh leaves in the tables --------------------------------------------------

  /** The text, or the front of it up to a last character that is no white space, with an ellipsis. */
  ghost predicate ShortenedTo(shown: string, full: string, limit: nat) {
    if |full| <= limit then shown == full else
      exists n: nat :: Cut(full, n, limit) && shown == full[..n] + "\U{2026}"
  }

  ghost predicate Cut(full: string, n: nat, limit: nat) {
    && n < limit < |full| && (n > 0 ==> !IsSpace(full[n - 1]))
    && forall i :: n <= i < limit - 1 ==> IsSpace(full[i])
  }

  lemma {:induction false} StripRightCuts(s: string)
    ensures StripRight(s) <= s && (forall i :: |StripRight(s)| <= i < |s| ==> IsSpace(s[i]))
    ensures StripRight(s) != "" ==> !IsSpace(s[|StripRight(s)| - 1])
  {
    hide IsSpace;
    if s != "" && IsSpace(s[|s| - 1]) {
      StripRightCuts(s[..|s| - 1]);
    }
  }

  lemma TruncateShortens(text: string, limit: nat)
    requires limit >= 1
    ensures ShortenedTo(Truncate(text, limit), text, limit)
  {
    hide IsSpace, StripRight;
    if |text| > limit {
      var front := text[..limit - 1];
      StripRightCuts(front);
      var n := |StripRight(front)|;
      assert Cut(text, n, limit) && text[..n] == StripRight(front);
    }
  }

  /** What a row says of the entry it was made from. */
  ghost predicate Tells(
      markup: string -> string, title: string, summary: Option<string>, publishedAt: int, e: ParsedEntry, now: int,
      url: string)
  {
    && (ToPlainText(markup, e.title).Some? ==> ShortenedTo(title, ToPlainText(markup, e.title).value, 1024))
    && (ToPlainText(markup, e.title).None? ==> ShortenedTo(title, url, 1024))
    && (summary.Some? <==> ToPlainText(markup, e.summary).Some?)
    && (summary.Some? ==> ShortenedTo(summary.value, ToPlainText(markup, e.summary).value, 2000))
    && (e.published.Some? && e.published.value <= now + 24 * 3_600_000_000 ==> publishedAt == e.published.value)
    && (e.published.None? || e.published.value > now + 24 * 3_600_000_000 ==> publishedAt == now)
  }

  /** The entry, the first in the window for its URL, is what this row of the batch says. */
  ghost predicate ComesFrom(s: Service, row: NewItem, entries: seq<ParsedEntry>, i: nat, now: int)
    requires i < |entries|
  {
    && Links(entries[i], row.canonicalUrl) && Timely(s, entries[i], now)
    && (forall j :: 0 <= j < i ==> !(Links(entries[j], row.canonicalUrl) && Timely(s, entries[j], now)))
    && Tells(s.markup, row.title, row.summary, row.publishedAt, entries[i], now, row.canonicalUrl)
  }

  lemma EntryTells(markup: string -> string, e: ParsedEntry, now: int)
    requires NormaliseEntry(markup, e, now).Some?
    ensures var row := NormaliseEntry(markup, e, now).value;
      Links(e, row.canonicalUrl)
      && Tells(markup, row.title, row.summary, row.publishedAt, e, now, row.canonicalUrl)
  {
    hide Truncate, ToPlainText, Normalise.NormaliseUrl, ShortenedTo;
    var url := Normalise.NormaliseUrl(e.link.value).value;
    TruncateShortens(match ToPlainText(markup, e.title) case Some(text) => text case None => url, MAX_TITLE_LENGTH);
    if ToPlainText(markup, e.summary).Some? {
      TruncateShortens(ToPlainText(markup, e.summary).value, MAX_SUMMARY_LENGTH);
    }
  }

  /** Each row of a batch is the first entry in the window for its URL. */
  lemma {:induction false} RowComesFrom(s: Service, entries: seq<ParsedEntry>, now: int, k: nat)
    requires k < |Normalised(s.markup, entries, now, Some(now - s.retention))|
    ensures var rows := Normalised(s.markup, entries, now, Some(now - s.retention));
      exists i :: 0 <= i < |entries| && ComesFrom(s, rows[k], entries, i, now)
  {
    hide NormaliseEntry, Links, Timely, Tells, UrlSet;
    var oldest := Some(now - s.retention);
    var front, n := entries[..|entries| - 1], |entries| - 1;
    var before, rows := Normalised(s.markup, front, now, oldest), Normalised(s.markup, entries, now, oldest);
    if k < |before| {
      RowComesFrom(s, front, now, k);
      var i :| 0 <= i < |front| && ComesFrom(s, before[k], front, i, now);
      assert forall j :: 0 <= j <= i ==> front[j] == entries[j];
      assert ComesFrom(s, rows[k], entries, i, now);
    } else {
      var row := rows[k];
      EntryTells(s.markup, entries[n], now);
      AdmitsIff(s, entries[n], now, row.canonicalUrl);
      forall j | 0 <= j < n
        ensures !(Links(entries[j], row.canonicalUrl) && Timely(s, entries[j], now))
      {
        assert entries[j] == front[j];
        AdmitsIff(s, entries[j], now, row.canonicalUrl);
        if Admits(s.markup, front[j], now, oldest, row.canonicalUrl) {
          NormalisedHas(s.markup, front, now, oldest, row.canonicalUrl, j);
        }
      }
      assert ComesFrom(s, row, entries, n, now);
    }
  }

  /**
   * Every item a refresh adds is the first entry in the window for its URL: that entry's plain
   * title and summary, shortened to their columns, and its own date unless it has none or one
   * more than a day ahead.
   */
  lemma RefreshStores(
      s: Service, t: Tables, sourceId: int, entries: seq<ParsedEntry>, topicIds: set<int>, now: int, id: int)
    requires Good(t) && id !in t.items && id in Apply(s, t, Refresh(sourceId, entries, topicIds, now)).items
    ensures var item := Apply(s, t, Refresh(sourceId, entries, topicIds, now)).items[id];
      && item.sourceId == sourceId && item.language == s.setup.detect(item.title, item.summary)
      && exists i :: 0 <= i < |entries| && ComesFrom(s, RowOf(item), entries, i, now)
  {
    hide Good, Normalised, Upsert, ComesFrom, FirstOfUrl, Normalise.NormaliseUrl;
    var rows := Normalised(s.markup, entries, now, Some(now - s.retention));
    var item := Apply(s, t, Refresh(sourceId, entries, topicIds, now)).items[id];
    UpsertStores(t, sourceId, rows, topicIds, s.setup);
    var k :| 0 <= k < |rows| && Holds(item, sourceId, rows[k], s.setup) && FirstOfUrl(rows, k);
    RowComesFrom(s, entries, now, k);
    assert RowOf(item) == rows[k];
  }

  /** The columns of an item that come from its entry. */
  ghost function RowOf(item: Item): NewItem { NewItem(item.canonicalUrl, item.title, item.summary, item.publishedAt) }

  // --- canonical URLs over runs -------------------------------------------------------------

  ghost predicate Keyed(t: Tables) {
    forall id :: id in t.items ==> Normalise.NormaliseUrl(t.items[id].canonicalUrl) == Some(t.items[id].canonicalUrl)
  }

  lemma StepKeepsKeys(s: Service, t: Tables, step: Step)
    requires Good(t) && Keyed(t)
    ensures Keyed(Apply(s, t, step))
  {
    hide Good, Upsert, PruneItems, Normalised, Normalise.NormaliseUrl, ComesFrom;
    var u := Apply(s, t, step);
    match step {
      case Refresh(sourceId, entries, topicIds, now) =>
        UpsertStores(t, sourceId, Normalised(s.markup, entries, now, Some(now - s.retention)), topicIds, s.setup);
        forall id | id in u.items && id !in t.items
          ensures Normalise.NormaliseUrl(u.items[id].canonicalUrl) == Some(u.items[id].canonicalUrl)
        {
          RefreshStores(s, t, sourceId, entries, topicIds, now, id);
          var i :| 0 <= i < |entries| && ComesFrom(s, RowOf(u.items[id]), entries, i, now);
          LinkedIsKey(s, RowOf(u.items[id]), entries, i, now);
        }
      case Prune(now) =>
        PruneLeaves(t, now - s.retention);
      case Save(_, _, _) =>
      case Unsave(_, _, _) =>
    }
  }

  lemma LinkedIsKey(s: Service, row: NewItem, entries: seq<ParsedEntry>, i: nat, now: int)
    requires i < |entries| && ComesFrom(s, row, entries, i, now)
    ensures Normalise.NormaliseUrl(row.canonicalUrl) == Some(row.canonicalUrl)
  {
    hide Normalise.NormaliseUrl, Tells, Timely;
    Normalise.NormaliseIdempotent(entries[i].link.value);
  }

  /** Over any run every stored URL is its own canonical form. */
  lemma {:induction false} RunKeepsKeys(s: Service, t: Tables, steps: seq<Step>)
    requires Good(t) && Keyed(t)
    ensures Good(Run(s, t, steps)) && Keyed(Run(s, t, steps))
    decreases |steps|
  {
    hide Good, Keyed, Apply;
    if steps != [] {
      StepKeeps(s, t, steps[0]);
      StepKeepsKeys(s, t, steps[0]);
      RunKeepsKeys(s, Apply(s, t, steps[0]), steps[1..]);
    }
  }

  // --- what retention owes ------------------------------------------------------------------

  lemma {:induction false} RunOn(s: Service, t: Tables, before: seq<Step>, after: seq<Step>)
    ensures Run(s, t, before + after) == Run(s, Run(s, t, before), after)
    decreases |before|
  {
    if before == [] {
      assert before + after == after;
    } else {
      assert (before + after)[1..] == before[1..] + after;
      RunOn(s, Apply(s, t, before[0]), before[1..], after);
    }
  }

  /**
   * A prune, whenever it comes in a run, takes every item that has left the window and that
   * nobody holds then, and no later step brings that row back.
   */
  lemma LeavesTheWindow(s: Service, t: Tables, before: seq<Step>, now: int, after: seq<Step>, id: int)
    requires Good(t) && id in Run(s, t, before).items
    requires Run(s, t, before).items[id].publishedAt < now - s.retention
    requires forall user :: (user, id) !in Run(s, t, before).bookmarks
    ensures id !in Run(s, t, before + [Prune(now)] + after).items
  {
    hide Good, PruneItems;
    hide Run;
    var u := Run(s, t, before);
    var v := PruneItems(u, now - s.retention);
    RunKeeps(s, t, before);
    PruneLeaves(u, now - s.retention);
    PruneKeeps(u, now - s.retention);
    RunKeeps(s, v, after);
    RunOn(s, t, before + [Prune(now)], after);
    RunOn(s, t, before, [Prune(now)]);
    RunOne(s, u, Prune(now));
    IdIsUsed(u, id);
  }

  lemma RunOne(s: Service, t: Tables, step: Step)
    ensures Run(s, t, [step]) == Apply(s, t, step)
  {
    hide Apply;
    assert [step][1..] == [];
  }

  lemma IdIsUsed(t: Tables, id: int)
    requires Good(t) && id in t.items
    ensures id < t.nextId
  {
  }
}

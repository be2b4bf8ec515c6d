/** Feed items, topic links and bookmarks: what refreshes, prunes and bookmarks do to the tables. */
module Store {
  import opened Text
  import opened Items

  /** Who owns a topic link: the source's configuration, or a rule over the item's URL. */
  datatype Origin = BySource | ByRule

  type Pair = (int, int)  // (feed_item_id, topic_id)

  datatype Tables = Tables(
    items: map<int, Item>, links: map<Pair, Origin>,
    bookmarks: map<(int, int), int>,  // (user, item) to the instant it was saved
    nextId: int)

  /** An item as the normaliser hands it over. */
  datatype NewItem = NewItem(canonicalUrl: string, title: string, summary: Option<string>, publishedAt: int)

  /** Foreign and configured parts: language detection, the URL ruleset, the topic catalogue. */
  datatype Setup = Setup(
    detect: (string, Option<string>) -> Option<string>,
    rules: string -> set<string>,
    catalogue: map<string, int>)

  function Urls(items: map<int, Item>): set<string> {
    set id | id in items :: items[id].canonicalUrl
  }

  /** Keys agree with rows, canonical URLs are unique, ids are not reused, references hold. */
  ghost predicate Good(t: Tables) {
    && (forall id :: id in t.items ==> t.items[id].id == id && 0 < id < t.nextId)
    && (forall i, j :: i in t.items && j in t.items && t.items[i].canonicalUrl == t.items[j].canonicalUrl ==> i == j)
    && (forall p :: p in t.links ==> p.0 in t.items)
    && (forall b :: b in t.bookmarks ==> b.1 in t.items)
    && t.nextId > 0
  }

  // --- inserting items ----------------------------------------------------------------

  function StoredItem(id: int, sourceId: int, item: NewItem, setup: Setup): Item {
    Item(id, sourceId, item.canonicalUrl, item.title, item.summary, item.publishedAt,
         setup.detect(item.title, item.summary))
  }

  /** `INSERT ... ON CONFLICT (canonical_url) DO NOTHING` for one row. */
  function InsertItem(t: Tables, sourceId: int, item: NewItem, setup: Setup): Tables {
    if item.canonicalUrl in Urls(t.items) then t else
      t.(items := t.items[t.nextId := StoredItem(t.nextId, sourceId, item, setup)], nextId := t.nextId + 1)
  }

  function InsertItems(t: Tables, sourceId: int, rows: seq<NewItem>, setup: Setup): Tables
    decreases |rows|
  {
    if rows == [] then t else
      InsertItem(InsertItems(t, sourceId, rows[..|rows| - 1], setup), sourceId, rows[|rows| - 1], setup)
  }

  function UrlSet(rows: seq<NewItem>): set<string> {
    set i | 0 <= i < |rows| :: rows[i].canonicalUrl
  }

  /** The rows of a batch that are not stored yet. */
  function NewRows(items: map<int, Item>, rows: seq<NewItem>): seq<NewItem> {
    if rows == [] then [] else
      NewRows(items, rows[..|rows| - 1])
      + if rows[|rows| - 1].canonicalUrl in Urls(items) then [] else [rows[|rows| - 1]]
  }

  /** Ids of the stored items a batch names. */
  function BatchIds(items: map<int, Item>, rows: seq<NewItem>): set<int> {
    set id | id in items && items[id].canonicalUrl in UrlSet(rows)
  }

  // --- topic links ----------------------------------------------------------------------

  function SourcePairs(ids: set<int>, topicIds: set<int>): set<Pair> {
    set id, topic | id in ids && topic in topicIds :: (id, topic)
  }

  /** The links the ruleset derives from the items' own URLs, catalogue permitting. */
  function RulePairs(items: map<int, Item>, ids: set<int>, setup: Setup): set<Pair> {
    set id, slug | id in ids && id in items && slug in setup.rules(items[id].canonicalUrl) && slug in setup.catalogue
      :: (id, setup.catalogue[slug])
  }

  /** Source links are asserted over what is there; then rule links fill the gaps. */
  function LinkAll(links: map<Pair, Origin>, source: set<Pair>, rule: set<Pair>): map<Pair, Origin> {
    (map p | p in rule :: ByRule) + (links + map p | p in source :: BySource)
  }

  /** The whole effect of one `upsert_items`. */
  function Upsert(t: Tables, sourceId: int, rows: seq<NewItem>, topicIds: set<int>, setup: Setup): Tables {
    if rows == [] then t else
      var u := InsertItems(t, sourceId, NewRows(t.items, rows), setup);
      var ids := BatchIds(u.items, rows);
      u.(links := LinkAll(t.links, SourcePairs(ids, topicIds), RulePairs(u.items, ids, setup)))
  }

  predicate Bookmarked(t: Tables, id: int) { exists b :: b in t.bookmarks && b.1 == id }

  function Outdated(t: Tables, cutoff: int): set<int> {
    set id | id in t.items && t.items[id].publishedAt < cutoff && !Bookmarked(t, id)
  }

  /** Deletes what is older than the cutoff and not bookmarked, topic links with it. */
  function PruneItems(t: Tables, cutoff: int): Tables {
    var items := t.items - Outdated(t, cutoff);
    t.(items := items, links := map p | p in t.links && p.0 in items :: t.links[p])
  }

  /**
   * An item outlives a prune exactly when it is no older than the cutoff or somebody holds a
   * bookmark of it; a topic link outlives it exactly when its item does.
   */
  lemma PruneLeaves(t: Tables, cutoff: int)
    ensures var u := PruneItems(t, cutoff);
      && (forall id :: id in u.items <==>
            id in t.items && (t.items[id].publishedAt >= cutoff || exists user :: (user, id) in t.bookmarks))
      && (forall id :: id in u.items ==> u.items[id] == t.items[id])
      && (forall p :: p in u.links <==> p in t.links && p.0 in u.items)
      && (forall p :: p in u.links ==> u.links[p] == t.links[p])
      && u.bookmarks == t.bookmarks && u.nextId == t.nextId
  {
    forall id | Bookmarked(t, id)
      ensures exists user :: (user, id) in t.bookmarks
    {
      var b :| b in t.bookmarks && b.1 == id;
      HolderExists(t, b.0, id);
    }
    forall id, user | (user, id) in t.bookmarks
      ensures Bookmarked(t, id)
    {
      assert (user, id).1 == id;
    }
  }

  lemma ItemsLeft(t: Tables, cutoff: int)
    ensures forall id :: id in PruneItems(t, cutoff).items <==>
      id in t.items && (t.items[id].publishedAt >= cutoff || exists user :: (user, id) in t.bookmarks)
  {
    hide PruneItems;
    PruneLeaves(t, cutoff);
  }

  lemma OutdatedIs(t: Tables, cutoff: int)
    ensures Outdated(t, cutoff) ==
      set id | id in t.items && t.items[id].publishedAt < cutoff && !exists b :: b in t.bookmarks && b.1 == id
  {
  }

  lemma HolderExists(t: Tables, user: int, id: int)
    requires (user, id) in t.bookmarks
    ensures exists holder :: (holder, id) in t.bookmarks
  {
  }

  /** No source link is lost or demoted; a rule's claim never displaces the source's. */
  lemma LinkAllIs(links: map<Pair, Origin>, source: set<Pair>, rule: set<Pair>)
    ensures LinkAll(links, source, rule).Keys == links.Keys + source + rule
    ensures forall p :: p in LinkAll(links, source, rule) ==>
      (LinkAll(links, source, rule)[p] == BySource <==> p in source || (p in links && links[p] == BySource))
  {
  }

  const CHUNK_SIZE: nat := 400

  class Database {
    var items: map<int, Item>
    var links: map<Pair, Origin>
    var bookmarks: map<(int, int), int>
    var nextId: int

    ghost function Contents(): Tables
      reads this
    {
      Tables(items, links, bookmarks, nextId)
    }

    constructor ()
      ensures Good(Contents()) && Contents() == Tables(map[], map[], map[], 1)
    {
      items, links, bookmarks, nextId := map[], map[], map[], 1;
    }

    /** The advisory existence check, a chunk of parameters at a time. */
    method FindExisting(rows: seq<NewItem>) returns (existing: set<string>)
      ensures existing == UrlSet(rows) * Urls(items)
    {
      existing := {};
      var start := 0;
      while start < |rows|
        invariant 0 <= start <= |rows|
        invariant existing == UrlSet(rows[..start]) * Urls(items)
      {
        var end := if start + CHUNK_SIZE <= |rows| then start + CHUNK_SIZE else |rows|;
        existing := existing + UrlSet(rows[start..end]) * Urls(items);
        UrlSetSplit(rows, start, end);
        start := end;
      }
      assert rows[..start] == rows;
    }

    method SelectNew(rows: seq<NewItem>) returns (newRows: seq<NewItem>)
      ensures newRows == NewRows(items, rows)
    {
      var existing := FindExisting(rows);
      newRows := [];
      for i := 0 to |rows|
        invariant newRows == NewRows(items, rows[..i])
      {
        assert rows[..i + 1][..i] == rows[..i];
        assert rows[i].canonicalUrl in UrlSet(rows);
        if rows[i].canonicalUrl !in existing {
          newRows := newRows + [rows[i]];
        }
      }
      assert rows[..|rows|] == rows;
    }

    /** `ON CONFLICT DO UPDATE SET origin = 'source'`: a rule's link is promoted. */
    method LinkSourceTopics(pairs: set<Pair>)
      modifies this`links
      ensures links.Keys == old(links).Keys + pairs
      ensures forall p :: p in links ==>
        (links[p] == BySource <==> p in pairs || (p in old(links) && old(links)[p] == BySource))
      ensures links == old(links) + map p | p in pairs :: BySource
    {
      links := links + map p | p in pairs :: BySource;
    }

    /** `ON CONFLICT DO NOTHING`: a link that is there is left as it is. */
    method InsertRuleLinks(pairs: set<Pair>)
      modifies this`links
      ensures links.Keys == old(links).Keys + pairs
      ensures forall p :: p in links ==> links[p] == if p in old(links) then old(links)[p] else ByRule
      ensures links == (map p | p in pairs :: ByRule) + old(links)
    {
      links := (map p | p in pairs :: ByRule) + links;
    }

    /** Inserts the rows that are new, then asserts the links of the whole batch. */
    method UpsertItems(sourceId: int, rows: seq<NewItem>, topicIds: set<int>, setup: Setup) returns (inserted: nat)
      modifies this
      ensures Contents() == Upsert(old(Contents()), sourceId, rows, topicIds, setup)
      ensures inserted == |NewRows(old(items), rows)|
    {
      hide NewRows, InsertItems, SourcePairs, RulePairs, BatchIds;
      if rows == [] {
        NoNewRows(items);
        return 0;
      }
      var newRows := SelectNew(rows);
      InsertIgnore(sourceId, newRows, setup);
      var ids := BatchIds(items, rows);
      LinkSourceTopics(SourcePairs(ids, topicIds));
      InsertRuleLinks(RulePairs(items, ids, setup));
      inserted := |newRows|;
    }

    /** One insert-or-ignore statement: conflicting rows are skipped. */
    method InsertIgnore(sourceId: int, rows: seq<NewItem>, setup: Setup)
      modifies this`items, this`nextId
      ensures Contents() == InsertItems(old(Contents()), sourceId, rows, setup)
    {
      for i := 0 to |rows|
        invariant Contents() == InsertItems(old(Contents()), sourceId, rows[..i], setup)
      {
        assert rows[..i + 1][..i] == rows[..i];
        if rows[i].canonicalUrl !in Urls(items) {
          items := items[nextId := StoredItem(nextId, sourceId, rows[i], setup)];
          nextId := nextId + 1;
        }
      }
      assert rows[..|rows|] == rows;
    }

    /** Deletes items published before the cutoff that nobody bookmarked, links with them. */
    method PruneFeedItems(cutoff: int) returns (removed: nat)
      modifies this`items, this`links
      ensures Contents() == PruneItems(old(Contents()), cutoff)
      ensures forall id :: id in items <==>
        id in old(items) && (old(items)[id].publishedAt >= cutoff || exists user :: (user, id) in bookmarks)
      ensures removed == |old(items)| - |items|
    {
      hide Bookmarked, Outdated;
      ghost var before := Contents();
      var gone := set id | id in items && items[id].publishedAt < cutoff && !exists b :: b in bookmarks && b.1 == id;
      OutdatedIs(before, cutoff);
      removed := |gone|;
      DropItems(items, gone);
      items := items - gone;
      links := map p | p in links && p.0 in items :: links[p];
      ItemsLeft(before, cutoff);
    }

    /** An item that is not there is refused; a repeat keeps the instant of the first save. */
    method CreateBookmark(user: int, id: int, now: int) returns (found: bool)
      modifies this`bookmarks
      ensures found <==> id in items
      ensures bookmarks ==
        if found && (user, id) !in old(bookmarks) then old(bookmarks)[(user, id) := now] else old(bookmarks)
    {
      found := id in items;
      if found && (user, id) !in bookmarks {
        bookmarks := bookmarks[(user, id) := now];
      }
    }

    method RemoveBookmark(user: int, id: int) returns (found: bool)
      modifies this`bookmarks
      ensures found <==> id in items
      ensures bookmarks == if found then old(bookmarks) - {(user, id)} else old(bookmarks)
    {
      found := id in items;
      if found {
        bookmarks := bookmarks - {(user, id)};
      }
    }
  }

  lemma DropItems(items: map<int, Item>, gone: set<int>)
    requires gone <= items.Keys
    ensures |items - gone| == |items| - |gone|
    ensures (items - gone).Keys == items.Keys - gone
  {
    assert (items - gone).Keys == items.Keys - gone;
    assert items.Keys == (items.Keys - gone) + gone;
  }

  lemma NoNewRows(items: map<int, Item>)
    ensures NewRows(items, []) == []
  {
  }

  lemma UrlSetSplit(rows: seq<NewItem>, start: nat, end: nat)
    requires start <= end <= |rows|
    ensures UrlSet(rows[..end]) == UrlSet(rows[..start]) + UrlSet(rows[start..end])
  {
    var a, b, c := rows[..start], rows[start..end], rows[..end];
    forall u
      ensures u in UrlSet(c) <==> u in UrlSet(a) || u in UrlSet(b)
    {
      if u in UrlSet(c) {
        var i :| 0 <= i < |c| && c[i].canonicalUrl == u;
        assert if i < start then a[i] == c[i] else b[i - start] == c[i];
      }
      if u in UrlSet(a) {
        var i :| 0 <= i < |a| && a[i].canonicalUrl == u;
        assert c[i] == a[i];
      }
      if u in UrlSet(b) {
        var i :| 0 <= i < |b| && b[i].canonicalUrl == u;
        assert c[start + i] == b[i];
      }
    }
  }

  // --- counting what was inserted -------------------------------------------------------

  /** Rows only come to the tables: those there stay, and new ones get ids of their own. */
  ghost predicate Grown(t: Tables, u: Tables) {
    && u.links == t.links && u.bookmarks == t.bookmarks && u.nextId >= t.nextId
    && (forall id :: id in t.items ==> id in u.items && u.items[id] == t.items[id])
    && (forall id :: id in u.items && id !in t.items ==> id >= t.nextId)
  }

  lemma GrownChain(t: Tables, m: Tables, u: Tables)
    ensures Grown(t, t)
    ensures Grown(t, m) && Grown(m, u) ==> Grown(t, u)
  {
  }

  lemma {:induction false} InsertedItems(t: Tables, sourceId: int, rows: seq<NewItem>, setup: Setup)
    requires Good(t)
    ensures var u := InsertItems(t, sourceId, rows, setup);
      && Good(u) && Grown(t, u)
      && Urls(u.items) == Urls(t.items) + UrlSet(rows)
      && |u.items| == |t.items| + |UrlSet(rows) - Urls(t.items)|
  {
    hide Good, Urls, UrlSet, InsertItem, Grown;
    if rows == [] {
      NoUrls();
      GrownChain(t, t, t);
      assert UrlSet(rows) - Urls(t.items) == {};
    } else {
      var front, last := rows[..|rows| - 1], rows[|rows| - 1];
      InsertedItems(t, sourceId, front, setup);
      var m := InsertItems(t, sourceId, front, setup);
      UrlSetSnoc(rows);
      InsertedItem(m, sourceId, last, setup);
      GrownChain(t, m, InsertItem(m, sourceId, last, setup));
      NewUrls(UrlSet(front), Urls(t.items), last.canonicalUrl);
    }
  }

  lemma NewUrls(batch: set<string>, stored: set<string>, url: string)
    ensures |batch + {url} - stored| == |batch - stored| + (if url in stored + batch then 0 else 1)
    ensures stored + batch + {url} == stored + (batch + {url})
  {
    if url in stored + batch {
      assert batch + {url} - stored == batch - stored;
    } else {
      assert batch + {url} - stored == (batch - stored) + {url};
    }
  }

  lemma NoUrls()
    ensures UrlSet([]) == {}
  {
  }

  lemma UrlSetSnoc(rows: seq<NewItem>)
    requires rows != []
    ensures UrlSet(rows) == UrlSet(rows[..|rows| - 1]) + {rows[|rows| - 1].canonicalUrl}
  {
    UrlSetSplit(rows, |rows| - 1, |rows|);
    assert rows[..|rows|] == rows;
    assert UrlSet(rows[|rows| - 1..]) == {rows[|rows| - 1].canonicalUrl} by {
      assert rows[|rows| - 1..][0] == rows[|rows| - 1];
    }
  }

  lemma UrlsAfter(items: map<int, Item>, id: int, item: Item)
    requires id !in items
    ensures Urls(items[id := item]) == Urls(items) + {item.canonicalUrl}
    ensures |items[id := item]| == |items| + 1
  {
    var more := items[id := item];
    assert more.Keys == items.Keys + {id};
    forall url
      ensures url in Urls(more) <==> url in Urls(items) || url == item.canonicalUrl
    {
      if url in Urls(items) {
        var k :| k in items && items[k].canonicalUrl == url;
        assert more[k].canonicalUrl == url;
      }
      if url == item.canonicalUrl {
        assert more[id].canonicalUrl == url;
      }
    }
  }

  lemma InsertedItem(t: Tables, sourceId: int, item: NewItem, setup: Setup)
    requires Good(t)
    ensures var u := InsertItem(t, sourceId, item, setup);
      && Good(u) && Grown(t, u)
      && Urls(u.items) == Urls(t.items) + {item.canonicalUrl}
      && |u.items| == |t.items| + (if item.canonicalUrl in Urls(t.items) then 0 else 1)
  {
    hide Urls;
    if item.canonicalUrl !in Urls(t.items) {
      var row := StoredItem(t.nextId, sourceId, item, setup);
      UrlsAfter(t.items, t.nextId, row);
      UrlsHold(t.items);
      RowAdded(t, row);
    } else {
      GrownChain(t, t, t);
    }
  }

  lemma UrlsHold(items: map<int, Item>)
    ensures forall id :: id in items ==> items[id].canonicalUrl in Urls(items)
  {
  }

  lemma RowAdded(t: Tables, row: Item)
    requires Good(t) && row.id == t.nextId
    requires forall id :: id in t.items ==> t.items[id].canonicalUrl != row.canonicalUrl
    ensures var u := t.(items := t.items[row.id := row], nextId := t.nextId + 1); Good(u) && Grown(t, u)
  {
  }

  lemma {:induction false} NewRowsAre(items: map<int, Item>, rows: seq<NewItem>)
    ensures UrlSet(NewRows(items, rows)) == UrlSet(rows) - Urls(items)
  {
    hide Urls, UrlSet;
    if rows == [] {
      NoUrls();
    } else {
      var front, last := rows[..|rows| - 1], rows[|rows| - 1];
      NewRowsAre(items, front);
      UrlSetSnoc(rows);
      var some := NewRows(items, rows);
      if last.canonicalUrl !in Urls(items) {
        assert some[..|some| - 1] == NewRows(items, front) && some[|some| - 1] == last;
        UrlSetSnoc(some);
      } else {
        assert some == NewRows(items, front);
      }
    }
  }

  predicate DistinctUrls(rows: seq<NewItem>) {
    forall i, j :: 0 <= i < j < |rows| ==> rows[i].canonicalUrl != rows[j].canonicalUrl
  }

  lemma DistinctUrlsSnoc(rows: seq<NewItem>)
    requires rows != []
    ensures DistinctUrls(rows) <==>
      DistinctUrls(rows[..|rows| - 1]) && rows[|rows| - 1].canonicalUrl !in UrlSet(rows[..|rows| - 1])
  {
    var front, last := rows[..|rows| - 1], rows[|rows| - 1];
    assert forall i :: 0 <= i < |front| ==> rows[i] == front[i];
    if last.canonicalUrl in UrlSet(front) {
      var i :| 0 <= i < |front| && front[i].canonicalUrl == last.canonicalUrl;
      assert rows[i].canonicalUrl == rows[|rows| - 1].canonicalUrl;
    } else {
      assert forall i :: 0 <= i < |front| ==> front[i].canonicalUrl in UrlSet(front);
    }
  }

  lemma {:induction false} UrlSetSize(rows: seq<NewItem>)
    ensures |UrlSet(rows)| <= |rows|
    ensures |UrlSet(rows)| == |rows| <==> DistinctUrls(rows)
  {
    hide UrlSet;
    if rows == [] {
      NoUrls();
    } else {
      var front, last := rows[..|rows| - 1], rows[|rows| - 1];
      UrlSetSize(front);
      UrlSetSnoc(rows);
      DistinctUrlsSnoc(rows);
      if last.canonicalUrl in UrlSet(front) {
        assert UrlSet(rows) == UrlSet(front);
      }
    }
  }

  /**
   * The reported number is the growth of the table exactly when no new URL is twice in the
   * batch; otherwise it is too high.
   */
  lemma ReportedIsGrowth(t: Tables, sourceId: int, rows: seq<NewItem>, topicIds: set<int>, setup: Setup)
    requires Good(t)
    ensures var growth := |Upsert(t, sourceId, rows, topicIds, setup).items| - |t.items|;
      var reported := |NewRows(t.items, rows)|;
      reported >= growth && (reported == growth <==> DistinctUrls(NewRows(t.items, rows)))
  {
    hide NewRows, InsertItems, Urls, UrlSet, Good, LinkAll, DistinctUrls;
    var some := NewRows(t.items, rows);
    InsertedItems(t, sourceId, some, setup);
    NewRowsAre(t.items, rows);
    UrlSetSize(some);
    assert UrlSet(some) - Urls(t.items) == UrlSet(some);
    if rows == [] {
      NoNewRows(t.items);
    }
  }

  // --- what a batch leaves in the tables --------------------------------------------------

  /** No earlier row of the batch has this one's URL. */
  ghost predicate FirstOfUrl(rows: seq<NewItem>, k: nat)
    requires k < |rows|
  {
    forall j :: 0 <= j < k ==> rows[j].canonicalUrl != rows[k].canonicalUrl
  }

  /** The stored item is this row of the batch, column by column. */
  ghost predicate Holds(stored: Item, sourceId: int, row: NewItem, setup: Setup) {
    && stored.sourceId == sourceId && stored.canonicalUrl == row.canonicalUrl
    && stored.title == row.title && stored.summary == row.summary && stored.publishedAt == row.publishedAt
    && stored.language == setup.detect(row.title, row.summary)
  }

  ghost predicate IsFirstRow(stored: Item, sourceId: int, rows: seq<NewItem>, setup: Setup) {
    exists k :: 0 <= k < |rows| && Holds(stored, sourceId, rows[k], setup) && FirstOfUrl(rows, k)
  }

  lemma FirstRowOfMore(stored: Item, sourceId: int, rows: seq<NewItem>, setup: Setup)
    requires rows != [] && IsFirstRow(stored, sourceId, rows[..|rows| - 1], setup)
    ensures IsFirstRow(stored, sourceId, rows, setup)
  {
    var front := rows[..|rows| - 1];
    var k :| 0 <= k < |front| && Holds(stored, sourceId, front[k], setup) && FirstOfUrl(front, k);
    assert Holds(stored, sourceId, rows[k], setup);
    assert forall j :: 0 <= j <= k ==> front[j] == rows[j];
  }

  lemma InsertedHolds(t: Tables, sourceId: int, row: NewItem, setup: Setup)
    ensures var u := InsertItem(t, sourceId, row, setup);
      forall id :: id in u.items && id !in t.items ==>
        Holds(u.items[id], sourceId, row, setup) && row.canonicalUrl !in Urls(t.items)
  {
  }

  lemma LastIsFirst(rows: seq<NewItem>)
    requires rows != [] && rows[|rows| - 1].canonicalUrl !in UrlSet(rows[..|rows| - 1])
    ensures FirstOfUrl(rows, |rows| - 1)
  {
    var front := rows[..|rows| - 1];
    assert forall j :: 0 <= j < |front| ==> front[j].canonicalUrl in UrlSet(front) && front[j] == rows[j];
  }

  lemma {:induction false} NewItemHolds(t: Tables, sourceId: int, rows: seq<NewItem>, setup: Setup, id: int)
    requires Good(t) && id !in t.items
    requires id in InsertItems(t, sourceId, NewRows(t.items, rows), setup).items
    ensures IsFirstRow(InsertItems(t, sourceId, NewRows(t.items, rows), setup).items[id], sourceId, rows, setup)
  {
    hide Good, Urls, UrlSet, InsertItem, Holds, IsFirstRow, FirstOfUrl;
    if rows != [] {
      var front, last, some := rows[..|rows| - 1], rows[|rows| - 1], NewRows(t.items, rows);
      var m := InsertItems(t, sourceId, NewRows(t.items, front), setup);
      if last.canonicalUrl in Urls(t.items) {
        assert some == NewRows(t.items, front);
      } else {
        assert some[..|some| - 1] == NewRows(t.items, front) && some[|some| - 1] == last;
        InsertedItems(t, sourceId, NewRows(t.items, front), setup);
        NewRowsAre(t.items, front);
        InsertedHolds(m, sourceId, last, setup);
        InsertedItem(m, sourceId, last, setup);
      }
      if id in m.items {
        NewItemHolds(t, sourceId, front, setup, id);
        FirstRowOfMore(m.items[id], sourceId, rows, setup);
      } else {
        LastIsFirst(rows);
        LastRowIsFirst(InsertItem(m, sourceId, last, setup).items[id], sourceId, rows, setup);
      }
    }
  }

  lemma LastRowIsFirst(stored: Item, sourceId: int, rows: seq<NewItem>, setup: Setup)
    requires rows != [] && Holds(stored, sourceId, rows[|rows| - 1], setup) && FirstOfUrl(rows, |rows| - 1)
    ensures IsFirstRow(stored, sourceId, rows, setup)
  {
  }

  /**
   * After a batch every row that was there is as it was, each URL of the batch has a row, and
   * each new row holds the first of the batch with its URL: source, title, summary and date,
   * and the language detected in its text.
   */
  lemma UpsertStores(t: Tables, sourceId: int, rows: seq<NewItem>, topicIds: set<int>, setup: Setup)
    requires Good(t)
    ensures var u := Upsert(t, sourceId, rows, topicIds, setup);
      && (forall id :: id in t.items ==> id in u.items && u.items[id] == t.items[id])
      && (forall id :: id in u.items && id !in t.items ==> IsFirstRow(u.items[id], sourceId, rows, setup))
      && (forall k :: 0 <= k < |rows| ==> rows[k].canonicalUrl in Urls(u.items))
  {
    hide Good, Urls, NewRows, InsertItems, IsFirstRow, SourcePairs, RulePairs, LinkAll, BatchIds;
    var u := Upsert(t, sourceId, rows, topicIds, setup);
    if rows != [] {
      InsertedItems(t, sourceId, NewRows(t.items, rows), setup);
      NewRowsAre(t.items, rows);
      forall id | id in u.items && id !in t.items
        ensures IsFirstRow(u.items[id], sourceId, rows, setup)
      {
        NewItemHolds(t, sourceId, rows, setup, id);
      }
    }
  }

  /** The batch has a row with the item's URL. */
  ghost predicate Named(items: map<int, Item>, rows: seq<NewItem>, id: int) {
    id in items && exists k :: 0 <= k < |rows| && rows[k].canonicalUrl == items[id].canonicalUrl
  }

  /** The ruleset gives the item's URL a slug that the catalogue lists as this topic. */
  ghost predicate Argued(items: map<int, Item>, setup: Setup, id: int, topic: int) {
    && id in items
    && exists slug :: slug in setup.rules(items[id].canonicalUrl) && slug in setup.catalogue
                      && setup.catalogue[slug] == topic
  }

  /** The links the rules argue for are exactly those of the slugs the catalogue lists. */
  lemma RulePairsAre(items: map<int, Item>, ids: set<int>, setup: Setup, id: int, topic: int)
    ensures (id, topic) in RulePairs(items, ids, setup) <==> id in ids && Argued(items, setup, id, topic)
  {
  }

  /**
   * A batch links every item it names to the source's topics and to those its URL argues for,
   * and makes no other link; a link is the source's exactly if it was already, or is now asserted so.
   */
  lemma UpsertLinks(
      t: Tables, sourceId: int, rows: seq<NewItem>, topicIds: set<int>, setup: Setup, id: int, topic: int)
    ensures var u := Upsert(t, sourceId, rows, topicIds, setup);
      var asserted := Named(u.items, rows, id) && topic in topicIds;
      && ((id, topic) in u.links <==>
            || (id, topic) in t.links || asserted
            || (Named(u.items, rows, id) && Argued(u.items, setup, id, topic)))
      && ((id, topic) in u.links ==>
            (u.links[(id, topic)] == BySource <==>
               asserted || ((id, topic) in t.links && t.links[(id, topic)] == BySource)))
  {
    hide InsertItems, NewRows, RulePairs, Argued;
    if rows != [] {
      var u := Upsert(t, sourceId, rows, topicIds, setup);
      RulePairsAre(u.items, BatchIds(u.items, rows), setup, id, topic);
    }
  }
}

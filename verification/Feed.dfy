/** Feed and bookmark listings: filters, and the pages a reader gets by following cursors. */
module Feed {
  import opened Text
  import opened Items
  import opened Pagination
  import opened Keyset
  import UrlMutes

  datatype ReadFilter = AllItems | Unread | Read

  datatype Request = Request(
    topics: Option<set<string>>, sources: Option<set<string>>, readState: ReadFilter, query: Option<seq<string>>)

  /** The rows that belong to one reader. */
  datatype Reader = Reader(
    read: set<int>, topics: set<string>, sources: set<string>,
    mutedWords: set<string>, mutedTags: set<string>, mutedUrls: set<string>,
    languages: set<string>,
    bookmarks: map<int, int>)  // item id to the instant it was saved

  datatype Source = Source(slug: string, enabled: bool)

  /** The tables one request meets. */
  datatype Tables = Tables(
    items: seq<Item>, sources: map<int, Source>, itemTopics: map<int, set<string>>, enabledTopics: set<string>)

  /** Text matching, which each database engine answers its own way: text, words, all or any. */
  type TextMatch = (string, set<string>, bool) -> bool

  const MAX_SEARCH_TERMS := 8

  function Document(item: Item): string {
    item.title + " " + (if item.summary.Some? then item.summary.value else "")
  }

  function TopicsOf(t: Tables, item: Item): set<string> {
    if item.id in t.itemTopics then t.itemTopics[item.id] else {}
  }

  /** `None` narrows nothing; an explicit request is honoured as it is. */
  function EffectiveSources(reader: Reader, request: Request): Option<set<string>> {
    if request.sources.Some? then request.sources
    else if reader.sources == {} then None else Some(reader.sources)
  }

  /** A saved selection of every enabled topic narrows nothing. */
  function EffectiveTopics(t: Tables, reader: Reader, request: Request): Option<set<string>> {
    if request.topics.Some? then request.topics else
      var selected := reader.topics * t.enabledTopics;
      if selected == {} || |selected| == |t.enabledTopics| then None else Some(selected)
  }

  predicate MatchesSearch(matches: TextMatch, request: Request, item: Item) {
    match request.query
    case None => true
    case Some(words) =>
      var terms := if |words| <= MAX_SEARCH_TERMS then words else words[..MAX_SEARCH_TERMS];
      terms == [] || matches(Document(item), set w | w in terms, true)
  }

  predicate Muted(matches: TextMatch, t: Tables, reader: Reader, item: Item) {
    || (reader.mutedWords != {} && matches(Document(item), reader.mutedWords, false))
    || TopicsOf(t, item) * reader.mutedTags != {}
    || exists term :: term in reader.mutedUrls && UrlMutes.UrlMuted(item.canonicalUrl, term)
  }

  predicate LanguageAllowed(reader: Reader, item: Item) {
    item.language.None? || reader.languages == {} || item.language.value in reader.languages
  }

  predicate Visible(matches: TextMatch, t: Tables, reader: Reader, request: Request, item: Item) {
    && item.sourceId in t.sources && t.sources[item.sourceId].enabled
    && (request.readState.Unread? ==> item.id !in reader.read)
    && (request.readState.Read? ==> item.id in reader.read)
    && (EffectiveSources(reader, request).Some? ==>
          t.sources[item.sourceId].slug in EffectiveSources(reader, request).value)
    && MatchesSearch(matches, request, item)
    && !Muted(matches, t, reader, item)
    && LanguageAllowed(reader, item)
    && (EffectiveTopics(t, reader, request).Some? ==>
          TopicsOf(t, item) * EffectiveTopics(t, reader, request).value != {})
  }

  /** The filtered statement, before its cursor and its limit. */
  function Matching(matches: TextMatch, t: Tables, reader: Reader, request: Request, items: seq<Item>): seq<Entry> {
    if items == [] then [] else
      (if Visible(matches, t, reader, request, items[0])
       then [Entry(Position(items[0].publishedAt, items[0].id), items[0])] else [])
      + Matching(matches, t, reader, request, items[1..])
  }

  function GetFeedPage(
      matches: TextMatch, t: Tables, reader: Reader, request: Request, cursor: Option<string>, limit: nat)
    : Result<Page, CursorError>
    requires limit >= 1
  {
    PageOf(Matching(matches, t, reader, request, t.items), cursor, limit)
  }

  /** A reader's bookmarks, whether or not the source is enabled still, muted or not. */
  function Saved(reader: Reader, items: seq<Item>): seq<Entry> {
    if items == [] then [] else
      (if items[0].id in reader.bookmarks
       then [Entry(Position(reader.bookmarks[items[0].id], items[0].id), items[0])] else [])
      + Saved(reader, items[1..])
  }

  function ListBookmarks(t: Tables, reader: Reader, cursor: Option<string>, limit: nat): Result<Page, CursorError>
    requires limit >= 1
  {
    PageOf(Saved(reader, t.items), cursor, limit)
  }

  // --- the statements return listings ---------------------------------------------------

  /** Primary keys are unique and timestamps are instants. */
  ghost predicate GoodItems(items: seq<Item>) {
    && (forall i, j :: 0 <= i < j < |items| ==> items[i].id != items[j].id)
    && (forall i :: 0 <= i < |items| ==> Instant(items[i].publishedAt))
  }

  lemma {:induction false} MatchingRows(
      matches: TextMatch, t: Tables, reader: Reader, request: Request, items: seq<Item>)
    ensures forall e :: e in Matching(matches, t, reader, request, items) <==>
      e.item in items && e.at == Position(e.item.publishedAt, e.item.id) && Visible(matches, t, reader, request, e.item)
    ensures GoodItems(items) ==> Listing(Matching(matches, t, reader, request, items))
  {
    if items != [] {
      var rest := Matching(matches, t, reader, request, items[1..]);
      MatchingRows(matches, t, reader, request, items[1..]);
      assert items == [items[0]] + items[1..];
      if GoodItems(items) {
        assert GoodItems(items[1..]);
        ListingCons(items, rest);
      }
    }
  }

  lemma ListingCons(items: seq<Item>, rest: seq<Entry>)
    requires items != [] && GoodItems(items) && Listing(rest)
    requires forall e :: e in rest ==> e.item in items[1..] && e.at.id == e.item.id
    ensures forall micros :: Instant(micros) ==> Listing([Entry(Position(micros, items[0].id), items[0])] + rest)
  {
    forall i | 0 <= i < |rest|
      ensures rest[i].at.id != items[0].id
    {
      assert rest[i] in rest;
      var j :| 0 <= j < |items[1..]| && items[1..][j] == rest[i].item;
      assert items[j + 1] == rest[i].item;
    }
  }

  lemma {:induction false} SavedRows(reader: Reader, items: seq<Item>)
    requires GoodItems(items) && forall id :: id in reader.bookmarks ==> Instant(reader.bookmarks[id])
    ensures forall e :: e in Saved(reader, items) <==>
      e.item in items && e.item.id in reader.bookmarks && e.at == Position(reader.bookmarks[e.item.id], e.item.id)
    ensures Listing(Saved(reader, items))
  {
    if items != [] {
      assert GoodItems(items[1..]);
      SavedRows(reader, items[1..]);
      assert items == [items[0]] + items[1..];
      ListingCons(items, Saved(reader, items[1..]));
    }
  }

  /**
   * A feed page is an error exactly for a cursor that does not decode. Otherwise it holds, newest
   * first and no more than asked for, exactly the visible items below its cursor and not below
   * the next one.
   */
  lemma FeedPageHolds(
      matches: TextMatch, t: Tables, reader: Reader, request: Request, cursor: Option<string>, limit: nat, item: Item)
    requires limit >= 1 && GoodItems(t.items)
    ensures GetFeedPage(matches, t, reader, request, cursor, limit).Ok? <==> OurCursor(cursor)
    ensures OurCursor(cursor) ==>
      var page := GetFeedPage(matches, t, reader, request, cursor, limit).value;
      var at := Position(item.publishedAt, item.id);
      && Descending(page.entries) && |page.entries| <= limit && OurCursor(page.next)
      && (Entry(at, item) in page.entries <==>
            && item in t.items && Visible(matches, t, reader, request, item)
            && Under(At(cursor), at) && (page.next.Some? ==> !Under(At(page.next), at)))
  {
    hide Visible, DecodeCursor, EncodeCursor, GoodItems, Listing, Descending, Remaining;
    MatchingRows(matches, t, reader, request, t.items);
    PageHolds(Matching(matches, t, reader, request, t.items), cursor, limit,
              Entry(Position(item.publishedAt, item.id), item));
  }

  lemma PageHolds(rows: seq<Entry>, cursor: Option<string>, limit: nat, e: Entry)
    requires limit >= 1 && Listing(rows)
    ensures PageOf(rows, cursor, limit).Ok? <==> OurCursor(cursor)
    ensures OurCursor(cursor) ==>
      var page := PageOf(rows, cursor, limit).value;
      && Descending(page.entries) && |page.entries| <= limit && OurCursor(page.next)
      && (e in page.entries <==>
            e in rows && Under(At(cursor), e.at) && (page.next.Some? ==> !Under(At(page.next), e.at)))
  {
    hide DecodeCursor, EncodeCursor, Listing, Descending, Ordered, RowsUnder;
    if OurCursor(cursor) {
      PageCovers(rows, cursor, limit, e);
    }
  }

  /** The same of a page of bookmarks. */
  lemma BookmarkPageHolds(t: Tables, reader: Reader, cursor: Option<string>, limit: nat, item: Item)
    requires limit >= 1 && GoodItems(t.items) && forall id :: id in reader.bookmarks ==> Instant(reader.bookmarks[id])
    ensures ListBookmarks(t, reader, cursor, limit).Ok? <==> OurCursor(cursor)
    ensures OurCursor(cursor) && item.id in reader.bookmarks ==>
      var page := ListBookmarks(t, reader, cursor, limit).value;
      var at := Position(reader.bookmarks[item.id], item.id);
      && Descending(page.entries) && |page.entries| <= limit && OurCursor(page.next)
      && (Entry(at, item) in page.entries <==>
            item in t.items && Under(At(cursor), at) && (page.next.Some? ==> !Under(At(page.next), at)))
  {
    hide DecodeCursor, EncodeCursor, GoodItems, Listing, Descending, Remaining;
    SavedRows(reader, t.items);
    var at := Position(if item.id in reader.bookmarks then reader.bookmarks[item.id] else 0, item.id);
    PageHolds(Saved(reader, t.items), cursor, limit, Entry(at, item));
  }

  // --- a reader who follows the cursors ----------------------------------------------------

  /** What one request of a traversal meets; every part of it may change before the next. */
  datatype Visit = Visit(tables: Tables, reader: Reader, request: Request)

  function FeedListings(matches: TextMatch, visits: seq<Visit>): seq<seq<Entry>> {
    seq(|visits|, i requires 0 <= i < |visits| =>
      Matching(matches, visits[i].tables, visits[i].reader, visits[i].request, visits[i].tables.items))
  }

  /** Rows are inserted with ids of their own and keep their timestamp while they live. */
  ghost predicate RowsKeepTheirTime(visits: seq<Visit>) {
    && (forall i :: 0 <= i < |visits| ==> GoodItems(visits[i].tables.items))
    && (forall i, j, x, y ::
          0 <= i < j < |visits| && x in visits[i].tables.items && y in visits[j].tables.items && x.id == y.id
          ==> x.publishedAt == y.publishedAt)
  }

  lemma FeedListingsAreGood(matches: TextMatch, visits: seq<Visit>)
    requires RowsKeepTheirTime(visits)
    ensures AllListings(FeedListings(matches, visits)) && NeverMovesDown(FeedListings(matches, visits))
  {
    var listings := FeedListings(matches, visits);
    forall i | 0 <= i < |visits|
      ensures Listing(listings[i])
      ensures forall e: Entry :: e in listings[i] ==>
        e.item in visits[i].tables.items && e.at == Position(e.item.publishedAt, e.item.id)
    {
      MatchingRows(matches, visits[i].tables, visits[i].reader, visits[i].request, visits[i].tables.items);
    }
  }

  /**
   * Whatever is inserted, pruned, read, muted or re-filtered between pages, no item comes twice,
   * and one that is there and matches at each request comes.
   */
  lemma FeedTraversal(matches: TextMatch, visits: seq<Visit>, limit: nat)
    requires limit >= 1 && RowsKeepTheirTime(visits)
    ensures var pages := Follow(FeedListings(matches, visits), None, limit);
      && DistinctIds(Collected(pages))
      && (Exhausted(pages) ==>
            forall id, micros :: (forall i :: 0 <= i < |pages| && i < |visits| ==>
                HasPosition(FeedListings(matches, visits)[i], Position(micros, id)))
              ==> HasPosition(Collected(pages), Position(micros, id)))
  {
    var listings := FeedListings(matches, visits);
    var pages := Follow(listings, None, limit);
    FeedListingsAreGood(matches, visits);
    NothingTwice(listings, None, limit);
    if Exhausted(pages) {
      forall id, micros | forall i :: 0 <= i < |pages| && i < |visits| ==>
          HasPosition(listings[i], Position(micros, id))
        ensures HasPosition(Collected(pages), Position(micros, id))
      {
        assert MatchedThroughout(listings, |pages|, Position(micros, id));
        NothingLost(listings, None, limit, Position(micros, id));
      }
    }
  }

  /** With nothing changing, the pages are the filtered items, newest first, none missing, none over. */
  lemma FixedFeed(matches: TextMatch, visit: Visit, visits: seq<Visit>, limit: nat)
    requires limit >= 1 && GoodItems(visit.tables.items)
    requires forall i :: 0 <= i < |visits| ==> visits[i] == visit
    requires |visits| >= |visit.tables.items| + 1
    ensures var pages := Follow(FeedListings(matches, visits), None, limit);
      && Exhausted(pages)
      && Descending(Collected(pages))
      && forall item :: item in visit.tables.items && Visible(matches, visit.tables, visit.reader, visit.request, item)
           <==> Entry(Position(item.publishedAt, item.id), item) in Collected(pages)
  {
    var rows := Matching(matches, visit.tables, visit.reader, visit.request, visit.tables.items);
    MatchingRows(matches, visit.tables, visit.reader, visit.request, visit.tables.items);
    RemainingRows(rows, None);
    MatchingLength(matches, visit.tables, visit.reader, visit.request, visit.tables.items);
    RemainingLength(rows);
    PageCountBound(|Remaining(rows, None)|, limit);
    FixedListing(rows, FeedListings(matches, visits), None, limit);
  }

  lemma {:induction false} MatchingLength(
      matches: TextMatch, t: Tables, reader: Reader, request: Request, items: seq<Item>)
    ensures |Matching(matches, t, reader, request, items)| <= |items|
  {
    if items != [] {
      MatchingLength(matches, t, reader, request, items[1..]);
    }
  }

  lemma {:induction false} InsertLength(e: Entry, sorted: seq<Entry>)
    ensures |InsertRow(e, sorted)| == |sorted| + 1
  {
    if sorted != [] {
      InsertLength(e, sorted[1..]);
    }
  }

  lemma {:induction false} RemainingLength(rows: seq<Entry>)
    ensures |Remaining(rows, None)| == |rows|
  {
    if rows != [] {
      RemainingLength(rows[1..]);
      InsertLength(rows[0], Ordered(RowsUnder(rows[1..], None)));
      assert RowsUnder(rows, None) == [rows[0]] + RowsUnder(rows[1..], None);
    }
  }

  lemma {:induction false} PageCountBound(rows: nat, limit: nat)
    requires limit >= 1
    ensures PageCount(rows, limit) <= rows + 1
  {
    if rows > limit {
      PageCountBound(rows - limit, limit);
    }
  }

  // --- bookmarks -----------------------------------------------------------------------------

  function SavedListings(visits: seq<Visit>): seq<seq<Entry>> {
    seq(|visits|, i requires 0 <= i < |visits| => Saved(visits[i].reader, visits[i].tables.items))
  }

  /** A bookmark that is removed and made again carries a later instant, never an earlier one. */
  ghost predicate SavesMoveForward(visits: seq<Visit>) {
    && (forall i :: 0 <= i < |visits| ==> GoodItems(visits[i].tables.items))
    && (forall i, id :: 0 <= i < |visits| && id in visits[i].reader.bookmarks ==>
          Instant(visits[i].reader.bookmarks[id]))
    && (forall i, j, id :: 0 <= i < j < |visits| && id in visits[i].reader.bookmarks && id in visits[j].reader.bookmarks
          ==> visits[i].reader.bookmarks[id] <= visits[j].reader.bookmarks[id])
  }

  lemma SavedListingsAreGood(visits: seq<Visit>)
    requires SavesMoveForward(visits)
    ensures AllListings(SavedListings(visits)) && NeverMovesDown(SavedListings(visits))
  {
    var listings := SavedListings(visits);
    forall i | 0 <= i < |visits|
      ensures Listing(listings[i])
      ensures forall e: Entry :: e in listings[i] ==>
        e.item.id in visits[i].reader.bookmarks
        && e.at == Position(visits[i].reader.bookmarks[e.item.id], e.item.id)
    {
      SavedRows(visits[i].reader, visits[i].tables.items);
    }
  }

  /** Bookmarks may come and go between pages: still nothing twice, nothing that stayed is lost. */
  lemma BookmarkTraversal(visits: seq<Visit>, limit: nat)
    requires limit >= 1 && SavesMoveForward(visits)
    ensures var pages := Follow(SavedListings(visits), None, limit);
      && DistinctIds(Collected(pages))
      && (Exhausted(pages) ==>
            forall at :: MatchedThroughout(SavedListings(visits), |pages|, at) ==> HasPosition(Collected(pages), at))
  {
    var listings := SavedListings(visits);
    var pages := Follow(listings, None, limit);
    SavedListingsAreGood(visits);
    NothingTwice(listings, None, limit);
    if Exhausted(pages) {
      forall at | MatchedThroughout(listings, |pages|, at)
        ensures HasPosition(Collected(pages), at)
      {
        NothingLost(listings, None, limit, at);
      }
    }
  }
}

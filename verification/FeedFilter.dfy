/** What a reader's pages show and what they keep out, clause by clause. */
module FeedFilter {
  import opened Text
  import opened Items
  import opened Keyset
  import opened Feed
  import opened Pagination
  import Normalise
  import UrlMutes
  import Store
  import Ingest
  import Traversal

  // --- the clauses --------------------------------------------------------------------------

  /** The item is linked to one of the topics. */
  ghost predicate Tagged(t: Tables, item: Item, slugs: set<string>) {
    item.id in t.itemTopics && exists slug :: slug in slugs && slug in t.itemTopics[item.id]
  }

  /** Title and summary, a space between them. */
  ghost function Words(item: Item): string {
    match item.summary
    case None => item.title + " "
    case Some(summary) => item.title + " " + summary
  }

  ghost predicate ReadStateFits(reader: Reader, request: Request, item: Item) {
    match request.readState
    case AllItems => true
    case Unread => item.id !in reader.read
    case Read => item.id in reader.read
  }

  /** The source is enabled; it is one asked for or, with nothing asked for and any saved, one saved. */
  ghost predicate SourceFits(t: Tables, reader: Reader, request: Request, item: Item) {
    && item.sourceId in t.sources && t.sources[item.sourceId].enabled
    && (request.sources.Some? ==> t.sources[item.sourceId].slug in request.sources.value)
    && (request.sources.None? && (exists slug :: slug in reader.sources) ==>
          t.sources[item.sourceId].slug in reader.sources)
  }

  /** The saved topics narrow when some enabled topic is among them and some other is not. */
  ghost predicate SavedTopicsNarrow(t: Tables, reader: Reader) {
    && (exists slug :: slug in t.enabledTopics && slug in reader.topics)
    && (exists slug :: slug in t.enabledTopics && slug !in reader.topics)
  }

  ghost predicate TopicsFit(t: Tables, reader: Reader, request: Request, item: Item) {
    && (request.topics.Some? ==> Tagged(t, item, request.topics.value))
    && (request.topics.None? && SavedTopicsNarrow(t, reader) ==>
          Tagged(t, item, set slug | slug in t.enabledTopics && slug in reader.topics))
  }

  /** All of the first eight words asked for are found. */
  ghost predicate SearchFits(matches: TextMatch, request: Request, item: Item) {
    request.query.Some? && request.query.value != [] ==>
      matches(Words(item), set i | 0 <= i < 8 && i < |request.query.value| :: request.query.value[i], true)
  }

  ghost predicate LanguageFits(reader: Reader, item: Item) {
    item.language.Some? && (exists code :: code in reader.languages) ==> item.language.value in reader.languages
  }

  /** No muted word is found, no muted tag is carried, and the item is on no muted site. */
  ghost predicate NothingMuted(matches: TextMatch, t: Tables, reader: Reader, item: Item)
    requires Normalise.ParseUrl(item.canonicalUrl).Some?
  {
    && (reader.mutedWords != {} ==> !matches(Words(item), reader.mutedWords, false))
    && (forall tag :: tag in reader.mutedTags ==> !Tagged(t, item, {tag}))
    && (forall term :: term in reader.mutedUrls ==>
          !UrlMutes.SameSite(Normalise.ParseUrl(item.canonicalUrl).value, term))
  }

  /** The item satisfies every clause of the reader's request. */
  ghost predicate Passes(matches: TextMatch, t: Tables, reader: Reader, request: Request, item: Item)
    requires Normalise.ParseUrl(item.canonicalUrl).Some?
  {
    && SourceFits(t, reader, request, item) && ReadStateFits(reader, request, item)
    && TopicsFit(t, reader, request, item) && SearchFits(matches, request, item)
    && LanguageFits(reader, item) && NothingMuted(matches, t, reader, item)
  }

  /** Items under their canonical URLs, and mutes as they are saved. */
  ghost predicate Stored(reader: Reader, item: Item) {
    && Normalise.NormaliseUrl(item.canonicalUrl) == Some(item.canonicalUrl)
    && Normalise.ParseUrl(item.canonicalUrl).Some?
    && forall term :: term in reader.mutedUrls ==> UrlMutes.IsTerm(term)
  }

  // --- the statement and the clauses ----------------------------------------------------------

  lemma SourceClause(t: Tables, reader: Reader, request: Request, item: Item)
    ensures SourceFits(t, reader, request, item) <==>
      && item.sourceId in t.sources && t.sources[item.sourceId].enabled
      && (EffectiveSources(reader, request).Some? ==>
            t.sources[item.sourceId].slug in EffectiveSources(reader, request).value)
  {
    if request.sources.None? && reader.sources != {} {
      var slug :| slug in reader.sources;
    }
  }

  lemma SubsetSize(some: set<string>, all: set<string>)
    requires some <= all
    ensures |some| == |all| <==> some == all
  {
    if some != all {
      assert |all - some| == |all| - |some|;
      var x :| x in all && x !in some;
      assert x in all - some;
    }
  }

  lemma NarrowsIff(t: Tables, reader: Reader, request: Request)
    requires request.topics.None?
    ensures EffectiveTopics(t, reader, request) ==
      if SavedTopicsNarrow(t, reader) then Some(set slug | slug in t.enabledTopics && slug in reader.topics) else None
  {
    var selected := reader.topics * t.enabledTopics;
    assert forall slug :: slug in selected <==> slug in t.enabledTopics && slug in reader.topics;
    SubsetSize(selected, t.enabledTopics);
    if selected != {} && selected != t.enabledTopics {
      var slug :| slug in selected;
      var other :| other in t.enabledTopics && other !in selected;
      assert other !in reader.topics;
    }
    assert selected == set slug | slug in t.enabledTopics && slug in reader.topics;
  }

  lemma TaggedIff(t: Tables, item: Item, slugs: set<string>)
    ensures Tagged(t, item, slugs) <==> TopicsOf(t, item) * slugs != {}
  {
    if Tagged(t, item, slugs) {
      var slug :| slug in slugs && slug in t.itemTopics[item.id];
      assert slug in TopicsOf(t, item) * slugs;
    }
    if TopicsOf(t, item) * slugs != {} {
      var slug :| slug in TopicsOf(t, item) * slugs;
      assert slug in slugs && slug in t.itemTopics[item.id];
    }
  }

  lemma TopicClause(t: Tables, reader: Reader, request: Request, item: Item)
    ensures TopicsFit(t, reader, request, item) <==>
      (EffectiveTopics(t, reader, request).Some? ==>
         TopicsOf(t, item) * EffectiveTopics(t, reader, request).value != {})
  {
    hide Tagged, TopicsOf, SavedTopicsNarrow;
    if request.topics.Some? {
      TaggedIff(t, item, request.topics.value);
    } else {
      NarrowsIff(t, reader, request);
      TaggedIff(t, item, set slug | slug in t.enabledTopics && slug in reader.topics);
    }
  }

  lemma SearchClause(matches: TextMatch, request: Request, item: Item)
    ensures SearchFits(matches, request, item) <==> MatchesSearch(matches, request, item)
  {
    if request.query.Some? {
      var words := request.query.value;
      var terms := if |words| <= MAX_SEARCH_TERMS then words else words[..MAX_SEARCH_TERMS];
      assert (set i | 0 <= i < 8 && i < |words| :: words[i]) == set w | w in terms by {
        forall i | 0 <= i < 8 && i < |words|
          ensures words[i] in terms
        {
          assert terms[i] == words[i];
        }
      }
      assert Words(item) == Document(item);
    }
  }

  lemma TagClause(t: Tables, reader: Reader, item: Item)
    ensures TopicsOf(t, item) * reader.mutedTags != {} <==>
      exists tag :: tag in reader.mutedTags && Tagged(t, item, {tag})
  {
    if TopicsOf(t, item) * reader.mutedTags != {} {
      var tag :| tag in TopicsOf(t, item) * reader.mutedTags;
      assert tag in {tag} && tag in t.itemTopics[item.id];
      assert Tagged(t, item, {tag});
    }
    if tag :| tag in reader.mutedTags && Tagged(t, item, {tag}) {
      assert tag in TopicsOf(t, item) * reader.mutedTags;
    }
  }

  lemma MuteClause(matches: TextMatch, t: Tables, reader: Reader, item: Item)
    requires Stored(reader, item)
    ensures NothingMuted(matches, t, reader, item) <==> !Muted(matches, t, reader, item)
  {
    hide UrlMutes.SameSite, UrlMutes.UrlMuted, UrlMutes.IsTerm, Normalise.NormaliseUrl, Normalise.ParseUrl;
    hide Tagged, TopicsOf;
    assert Words(item) == Document(item);
    TagClause(t, reader, item);
    forall term | term in reader.mutedUrls
      ensures UrlMutes.UrlMuted(item.canonicalUrl, term) <==>
        UrlMutes.SameSite(Normalise.ParseUrl(item.canonicalUrl).value, term)
    {
      UrlMutes.MutedIffSameSite(item.canonicalUrl, term);
    }
  }

  /** The statement's condition holds of exactly the items that satisfy every clause. */
  lemma VisibleIff(matches: TextMatch, t: Tables, reader: Reader, request: Request, item: Item)
    requires Stored(reader, item)
    ensures Visible(matches, t, reader, request, item) <==> Passes(matches, t, reader, request, item)
  {
    hide SourceFits, EffectiveSources, TopicsFit, EffectiveTopics, TopicsOf, SearchFits, MatchesSearch;
    hide NothingMuted, Muted, Normalise.NormaliseUrl, Normalise.ParseUrl, UrlMutes.IsTerm;
    SourceClause(t, reader, request, item);
    TopicClause(t, reader, request, item);
    SearchClause(matches, request, item);
    MuteClause(matches, t, reader, item);
    if item.language.Some? && reader.languages != {} {
      var code :| code in reader.languages;
    }
  }

  // --- pages ------------------------------------------------------------------------------------

  /** Published later, or at the same instant under a higher id. */
  ghost predicate Before(a: Item, b: Item) {
    a.publishedAt > b.publishedAt || (a.publishedAt == b.publishedAt && a.id > b.id)
  }

  /** The position is older than the cursor: an earlier instant, or the same and a lower id. */
  ghost predicate Beyond(cursor: Option<string>, item: Item) {
    match cursor
    case None => true
    case Some(text) =>
      && DecodeCursor(text).Ok?
      && (var at := DecodeCursor(text).value;
          item.publishedAt < at.micros || (item.publishedAt == at.micros && item.id < at.id))
  }

  /**
   * A page shows exactly the items that satisfy every clause of the request and lie beyond its
   * cursor and not beyond the next, newest first.
   */
  lemma PageShows(
      matches: TextMatch, t: Tables, reader: Reader, request: Request, cursor: Option<string>, limit: nat, item: Item)
    requires limit >= 1 && GoodItems(t.items) && Stored(reader, item)
    requires GetFeedPage(matches, t, reader, request, cursor, limit).Ok?
    ensures var page := GetFeedPage(matches, t, reader, request, cursor, limit).value;
      var shown := Entry(Position(item.publishedAt, item.id), item);
      && (shown in page.entries <==>
            && item in t.items && Passes(matches, t, reader, request, item)
            && Beyond(cursor, item) && (page.next.Some? ==> !Beyond(page.next, item)))
      && |page.entries| <= limit
      && forall i, j :: 0 <= i < j < |page.entries| ==> Before(page.entries[i].item, page.entries[j].item)
  {
    hide Visible, Passes, DecodeCursor, GetFeedPage, GoodItems, Normalise.ParseUrl, Normalise.NormaliseUrl;
    FeedPageHolds(matches, t, reader, request, cursor, limit, item);
    VisibleIff(matches, t, reader, request, item);
    PageOrder(matches, t, reader, request, cursor, limit);
  }

  lemma PageOrder(
      matches: TextMatch, t: Tables, reader: Reader, request: Request, cursor: Option<string>, limit: nat)
    requires limit >= 1 && GoodItems(t.items)
    requires GetFeedPage(matches, t, reader, request, cursor, limit).Ok?
    ensures var entries := GetFeedPage(matches, t, reader, request, cursor, limit).value.entries;
      && (forall e :: e in entries ==> e.at == Position(e.item.publishedAt, e.item.id))
      && forall i, j :: 0 <= i < j < |entries| ==> Before(entries[i].item, entries[j].item)
  {
    hide Visible, DecodeCursor, GoodItems, Remaining, Listing;
    var page := GetFeedPage(matches, t, reader, request, cursor, limit).value;
    var rows := Matching(matches, t, reader, request, t.items);
    MatchingRows(matches, t, reader, request, t.items);
    forall e | e in page.entries
      ensures e.at == Position(e.item.publishedAt, e.item.id)
    {
      PageHolds(rows, cursor, limit, e);
    }
    if page.entries != [] {
      PageHolds(rows, cursor, limit, page.entries[0]);
    }
    assert forall i :: 0 <= i < |page.entries| ==> page.entries[i] in page.entries;
  }

  /** Followed from the start with nothing changing, the pages show every item that passes, and no other. */
  lemma FixedFeedShows(matches: TextMatch, visit: Visit, visits: seq<Visit>, limit: nat, item: Item)
    requires limit >= 1 && GoodItems(visit.tables.items) && Stored(visit.reader, item)
    requires forall i :: 0 <= i < |visits| ==> visits[i] == visit
    requires |visits| >= |visit.tables.items| + 1
    ensures var pages := Follow(FeedListings(matches, visits), None, limit);
      && Exhausted(pages)
      && (Entry(Position(item.publishedAt, item.id), item) in Collected(pages) <==>
            item in visit.tables.items && Passes(matches, visit.tables, visit.reader, visit.request, item))
  {
    hide Visible, Passes, GoodItems, FeedListings, Follow, Normalise.ParseUrl, Normalise.NormaliseUrl;
    FixedFeed(matches, visit, visits, limit);
    VisibleIff(matches, visit.tables, visit.reader, visit.request, item);
  }

  // --- mutes, from the paste to the page ----------------------------------------------------------

  /**
   * A reader pastes a link. Whatever refreshes, prunes and saves come before or after, and
   * whatever is asked for, no page shows an item on the site the link reduces to.
   */
  lemma PastedLinkIsKeptOut(
      matches: TextMatch, s: Ingest.Service, t: Store.Tables, steps: seq<Ingest.Step>, visit: Visit,
      cursor: Option<string>, limit: nat, link: string, e: Entry)
    requires limit >= 1 && Store.Good(t) && Ingest.Keyed(t)
    requires Traversal.Meets(visit, Ingest.Run(s, t, steps))
    requires UrlMutes.UrlMuteTerm(link).Ok? && UrlMutes.UrlMuteTerm(link).value in visit.reader.mutedUrls
    requires GetFeedPage(matches, visit.tables, visit.reader, visit.request, cursor, limit).Ok?
    requires e in GetFeedPage(matches, visit.tables, visit.reader, visit.request, cursor, limit).value.entries
    ensures Normalise.ParseUrl(e.item.canonicalUrl).Some?
    ensures !UrlMutes.SameSite(Normalise.ParseUrl(e.item.canonicalUrl).value, UrlMutes.UrlMuteTerm(link).value)
  {
    hide Normalise.ParseUrl, Normalise.NormaliseUrl, Ingest.Run, Store.Good, GoodItems, GetFeedPage;
    hide UrlMutes.UrlMuteTerm, UrlMutes.SameSite, UrlMutes.IsTerm, UrlMutes.UrlMuted;
    var u := Ingest.Run(s, t, steps);
    var term := UrlMutes.UrlMuteTerm(link).value;
    Ingest.RunKeepsKeys(s, t, steps);
    ShownIsVisible(matches, visit, cursor, limit, e);
    assert u.items[e.item.id] == e.item;
    UrlMutes.AcceptedTerm(link);
    UrlMutes.MutedIffSameSite(e.item.canonicalUrl, term);
  }

  lemma ShownIsVisible(matches: TextMatch, visit: Visit, cursor: Option<string>, limit: nat, e: Entry)
    requires limit >= 1 && GoodItems(visit.tables.items)
    requires GetFeedPage(matches, visit.tables, visit.reader, visit.request, cursor, limit).Ok?
    requires e in GetFeedPage(matches, visit.tables, visit.reader, visit.request, cursor, limit).value.entries
    ensures e.item in visit.tables.items
    ensures Visible(matches, visit.tables, visit.reader, visit.request, e.item)
  {
    hide Visible, DecodeCursor, GoodItems, Remaining, Listing;
    PageOrder(matches, visit.tables, visit.reader, visit.request, cursor, limit);
    FeedPageHolds(matches, visit.tables, visit.reader, visit.request, cursor, limit, e.item);
  }
}

/** Components put together: following cursors while the store is refreshed and pruned, and what the client shows. */
module Traversal {
  import opened Text
  import opened Items
  import opened Pagination
  import opened Keyset
  import Feed
  import Store
  import Ingest
  import PagedResource

  // --- the feed over a store that moves -----------------------------------------------------

  /** The states of the store met by successive requests, some steps apart. */
  function Stores(s: Ingest.Service, t: Store.Tables, between: seq<seq<Ingest.Step>>): (stores: seq<Store.Tables>)
    ensures |stores| == |between| + 1
    decreases |between|
  {
    [t] + if between == [] then [] else Stores(s, Ingest.Run(s, t, between[0]), between[1..])
  }

  /** The request meets the stored items, in whatever order the engine has them. */
  ghost predicate Meets(visit: Feed.Visit, t: Store.Tables) {
    && Feed.GoodItems(visit.tables.items)
    && forall item :: item in visit.tables.items ==> item.id in t.items && t.items[item.id] == item
  }

  lemma {:induction false} StoresStand(s: Ingest.Service, t: Store.Tables, between: seq<seq<Ingest.Step>>, j: nat)
    requires Store.Good(t) && j <= |between|
    ensures Store.Good(Stores(s, t, between)[j]) && Ingest.RowsStand(t, Stores(s, t, between)[j])
    decreases |between|
  {
    hide Store.Good, Ingest.Run;
    if j == 0 {
      if between != [] {
        Ingest.RunKeeps(s, t, between[0]);
        StoresStand(s, Ingest.Run(s, t, between[0]), between[1..], 0);
      }
      assert Ingest.RowsStand(t, t);
    } else {
      var u := Ingest.Run(s, t, between[0]);
      Ingest.RunKeeps(s, t, between[0]);
      StoresStand(s, u, between[1..], j - 1);
      RowsStandChain(t, u, Stores(s, u, between[1..])[j - 1]);
    }
  }

  lemma RowsStandChain(t: Store.Tables, m: Store.Tables, u: Store.Tables)
    requires Ingest.RowsStand(t, m) && Ingest.RowsStand(m, u)
    ensures Ingest.RowsStand(t, u)
  {
  }

  ghost predicate Agree(a: Store.Tables, b: Store.Tables) {
    forall id :: id in a.items && id in b.items ==> a.items[id] == b.items[id]
  }

  /** Any two of the stores agree on every row they both have. */
  lemma {:induction false} StoresAgree(
      s: Ingest.Service, t: Store.Tables, between: seq<seq<Ingest.Step>>, i: nat, j: nat)
    requires Store.Good(t) && i <= j <= |between|
    ensures Agree(Stores(s, t, between)[i], Stores(s, t, between)[j])
    decreases |between|
  {
    hide Ingest.Run;
    StoresStand(s, t, between, j);
    if i > 0 {
      var rest := Stores(s, Ingest.Run(s, t, between[0]), between[1..]);
      assert Stores(s, t, between) == [t] + rest;
      assert Stores(s, t, between)[i] == rest[i - 1] && Stores(s, t, between)[j] == rest[j - 1];
      Ingest.RunKeeps(s, t, between[0]);
      StoresAgree(s, Ingest.Run(s, t, between[0]), between[1..], i - 1, j - 1);
    } else {
      StandingAgrees(t, Stores(s, t, between)[j]);
    }
  }

  lemma StandingAgrees(t: Store.Tables, u: Store.Tables)
    requires Store.Good(t) && Ingest.RowsStand(t, u)
    ensures Agree(t, u)
  {
  }

  /** Requests that meet two of the stores see one publication date for an item. */
  lemma MeetingsAgree(
      s: Ingest.Service, t: Store.Tables, between: seq<seq<Ingest.Step>>, visits: seq<Feed.Visit>,
      i: nat, j: nat, x: Item, y: Item)
    requires Store.Good(t) && |visits| == |between| + 1 && i <= j < |visits|
    requires Meets(visits[i], Stores(s, t, between)[i]) && Meets(visits[j], Stores(s, t, between)[j])
    requires x in visits[i].tables.items && y in visits[j].tables.items && x.id == y.id
    ensures x == y
  {
    hide Stores, Store.Good, Feed.GoodItems;
    StoresAgree(s, t, between, i, j);
    var a, b := Stores(s, t, between)[i], Stores(s, t, between)[j];
    assert a.items[x.id] == b.items[x.id];
  }

  /**
   * Refreshes, prunes, saves and unsaves between any two requests: following the feed's
   * cursors still returns nothing twice, and everything there and matching each time.
   */
  lemma FeedOverMovingStore(
      matches: Feed.TextMatch, s: Ingest.Service, t: Store.Tables, between: seq<seq<Ingest.Step>>,
      visits: seq<Feed.Visit>, limit: nat)
    requires limit >= 1 && Store.Good(t) && |visits| == |between| + 1
    requires forall i :: 0 <= i < |visits| ==> Meets(visits[i], Stores(s, t, between)[i])
    ensures var pages := Follow(Feed.FeedListings(matches, visits), None, limit);
      && DistinctIds(Collected(pages))
      && (Exhausted(pages) ==>
            forall id, micros :: (forall i :: 0 <= i < |pages| && i < |visits| ==>
                HasPosition(Feed.FeedListings(matches, visits)[i], Position(micros, id)))
              ==> HasPosition(Collected(pages), Position(micros, id)))
  {
    hide Stores, Feed.FeedListings, Follow, Collected, Exhausted, HasPosition, DistinctIds, Store.Good, Feed.GoodItems;
    forall i, j, x, y |
        0 <= i < j < |visits| && x in visits[i].tables.items && y in visits[j].tables.items && x.id == y.id
      ensures x.publishedAt == y.publishedAt
    {
      MeetingsAgree(s, t, between, visits, i, j, x, y);
    }
    assert forall i :: 0 <= i < |visits| ==> Meets(visits[i], Stores(s, t, between)[i]);
    assert Feed.RowsKeepTheirTime(visits);
    Feed.FeedTraversal(matches, visits, limit);
  }

  // --- what the client makes of the pages -----------------------------------------------------

  /** The rows of a page as the client holds them, under the key it asked with. */
  function Received(rows: seq<Entry>, key: PagedResource.Key): seq<PagedResource.Entry> {
    seq(|rows|, i requires 0 <= i < |rows| => PagedResource.Entry(rows[i].at.id, 0, key))
  }

  /** The first page, then each further page merged in. */
  function Accumulated(pages: seq<Page>, key: PagedResource.Key): seq<PagedResource.Entry> {
    if pages == [] then [] else
      PagedResource.Merged(Accumulated(pages[..|pages| - 1], key), Received(pages[|pages| - 1].entries, key))
  }

  lemma {:induction false} CollectedSnoc(pages: seq<Page>, last: Page)
    ensures Collected(pages + [last]) == Collected(pages) + last.entries
  {
    if pages == [] {
      assert [] + [last] == [last] && [last][1..] == [];
      assert Collected([last]) == last.entries + [];
    } else {
      assert (pages + [last])[1..] == pages[1..] + [last];
      CollectedSnoc(pages[1..], last);
    }
  }

  lemma ReceivedIds(a: seq<Entry>, b: seq<Entry>, key: PagedResource.Key)
    requires DistinctIds(a + b)
    ensures DistinctIds(a)
    ensures PagedResource.DistinctIds(Received(a, key)) && PagedResource.DistinctIds(Received(b, key))
    ensures PagedResource.Ids(Received(a, key)) !! PagedResource.Ids(Received(b, key))
    ensures Received(a + b, key) == Received(a, key) + Received(b, key)
  {
    assert forall i :: 0 <= i < |a| ==> (a + b)[i] == a[i];
    assert forall i :: 0 <= i < |b| ==> (a + b)[|a| + i] == b[i];
  }

  /**
   * Pages without a repeated id, as the cursors give them, show up at the client as they
   * are, joined: the check for duplicates then drops nothing.
   */
  lemma {:induction false} ClientShowsThePages(pages: seq<Page>, key: PagedResource.Key)
    requires DistinctIds(Collected(pages))
    ensures Accumulated(pages, key) == Received(Collected(pages), key)
  {
    hide DistinctIds, PagedResource.DistinctIds, PagedResource.Ids, PagedResource.Merged, Collected, Received;
    if pages == [] {
      NothingReceived(key);
    } else {
      var front, last := pages[..|pages| - 1], pages[|pages| - 1];
      CollectedSnoc(front, last);
      assert front + [last] == pages;
      ReceivedIds(Collected(front), last.entries, key);
      ClientShowsThePages(front, key);
      PagedResource.NewPageIsAppended(Received(Collected(front), key), Received(last.entries, key));
    }
  }

  lemma NothingReceived(key: PagedResource.Key)
    ensures Received(Collected([]), key) == []
  {
  }
}

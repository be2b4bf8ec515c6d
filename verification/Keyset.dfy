/** Keyset pages over `(timestamp, id)`, newest first, and what following them returns. */
module Keyset {
  import opened Text
  import opened Items
  import opened Pagination

  /** A row of a listing with the position it is ordered by. */
  datatype Entry = Entry(at: Position, item: Item)

  datatype Page = Page(entries: seq<Entry>, next: Option<string>)

  predicate Newer(a: Position, b: Position) {
    a.micros > b.micros || (a.micros == b.micros && a.id > b.id)
  }

  /** The rows a statement may return: ids are unique, timestamps fit a datetime. */
  ghost predicate Listing(rows: seq<Entry>) {
    && (forall i, j :: 0 <= i < j < |rows| ==> rows[i].at.id != rows[j].at.id)
    && (forall i :: 0 <= i < |rows| ==> Instant(rows[i].at.micros))
  }

  ghost predicate Descending(rows: seq<Entry>) {
    forall i, j :: 0 <= i < j < |rows| ==> Newer(rows[i].at, rows[j].at)
  }

  // --- one page -------------------------------------------------------------------

  predicate Under(start: Option<Position>, at: Position) { start.Some? ==> Newer(start.value, at) }

  /** `WHERE (timestamp, id) < position` */
  function RowsUnder(rows: seq<Entry>, start: Option<Position>): seq<Entry> {
    if rows == [] then [] else
      (if Under(start, rows[0].at) then [rows[0]] else []) + RowsUnder(rows[1..], start)
  }

  function InsertRow(e: Entry, sorted: seq<Entry>): seq<Entry> {
    if sorted == [] || Newer(e.at, sorted[0].at) then [e] + sorted
    else [sorted[0]] + InsertRow(e, sorted[1..])
  }

  /** `ORDER BY timestamp DESC, id DESC` */
  function Ordered(rows: seq<Entry>): seq<Entry> {
    if rows == [] then [] else InsertRow(rows[0], Ordered(rows[1..]))
  }

  function Limited(rows: seq<Entry>, n: nat): seq<Entry> { if |rows| <= n then rows else rows[..n] }

  /** One page: a row over the page size tells whether there is another. */
  function PageOf(rows: seq<Entry>, cursor: Option<string>, limit: nat): Result<Page, CursorError>
    requires limit >= 1
  {
    var start := if cursor.None? then Ok(None) else
      match DecodeCursor(cursor.value) case Ok(at) => Ok(Some(at)) case Err(e) => Err(e);
    match start
    case Err(e) => Err(e)
    case Ok(from) =>
      var found := Limited(Ordered(RowsUnder(rows, from)), limit + 1);
      if |found| > limit then
        Ok(Page(found[..limit], Some(EncodeCursor(found[limit - 1].at))))
      else
        Ok(Page(found, None))
  }

  /** Following `next_cursor`: each request meets the listing as it is by then. */
  function Follow(listings: seq<seq<Entry>>, cursor: Option<string>, limit: nat): seq<Page>
    requires limit >= 1
  {
    if listings == [] then [] else
      match PageOf(listings[0], cursor, limit)
      case Err(_) => []
      case Ok(page) =>
        [page] + if page.next.None? then [] else Follow(listings[1..], page.next, limit)
  }

  function Collected(pages: seq<Page>): seq<Entry> {
    if pages == [] then [] else pages[0].entries + Collected(pages[1..])
  }

  // --- sorting and filtering ------------------------------------------------------

  lemma {:induction false} UnderRows(rows: seq<Entry>, start: Option<Position>)
    ensures forall e :: e in RowsUnder(rows, start) <==> e in rows && Under(start, e.at)
  {
    if rows != [] {
      UnderRows(rows[1..], start);
      assert rows == [rows[0]] + rows[1..];
    }
  }

  lemma {:induction false} UnderListing(rows: seq<Entry>, start: Option<Position>)
    requires Listing(rows)
    ensures Listing(RowsUnder(rows, start))
  {
    hide Instant, Under, Listing;
    if rows != [] {
      var rest := RowsUnder(rows[1..], start);
      TailListing(rows);
      UnderListing(rows[1..], start);
      UnderRows(rows[1..], start);
      forall i | 0 <= i < |rest|
        ensures rest[i].at.id != rows[0].at.id
      {
        assert rest[i] in rest;
        NotTheHead(rows, rest[i]);
      }
      ListingOfHead(rows[0], rest);
      assert [] + rest == rest;
    }
  }

  lemma TailListing(rows: seq<Entry>)
    requires Listing(rows) && rows != []
    ensures Listing(rows[1..]) && Instant(rows[0].at.micros)
  {
    hide Instant;
  }

  lemma ListingOfHead(e: Entry, rest: seq<Entry>)
    requires Instant(e.at.micros) && Listing(rest) && forall i :: 0 <= i < |rest| ==> rest[i].at.id != e.at.id
    ensures Listing([e] + rest)
  {
    hide Instant;
  }

  lemma NotTheHead(rows: seq<Entry>, e: Entry)
    requires Listing(rows) && rows != [] && e in rows[1..]
    ensures e.at.id != rows[0].at.id
  {
    var k :| 0 <= k < |rows[1..]| && rows[1..][k] == e;
    assert rows[k + 1] == e;
  }

  lemma InTail(sorted: seq<Entry>, x: Entry)
    requires Descending(sorted) && sorted != [] && x in sorted[1..]
    ensures Newer(sorted[0].at, x.at)
  {
    var i :| 0 <= i < |sorted[1..]| && sorted[1..][i] == x;
    assert sorted[i + 1] == x;
  }

  lemma {:induction false} InsertOrders(e: Entry, sorted: seq<Entry>)
    requires Descending(sorted)
    requires forall x :: x in sorted ==> x.at.id != e.at.id
    ensures Descending(InsertRow(e, sorted))
    ensures forall x :: x in InsertRow(e, sorted) <==> x == e || x in sorted
  {
    if sorted == [] {
    } else if Newer(e.at, sorted[0].at) {
      forall j | 0 <= j < |sorted|
        ensures Newer(e.at, sorted[j].at)
      {
        if j > 0 {
          InTail(sorted, sorted[j]);
        }
      }
    } else {
      var rest := InsertRow(e, sorted[1..]);
      assert sorted == [sorted[0]] + sorted[1..];
      assert sorted[0] in sorted;
      InsertOrders(e, sorted[1..]);
      forall j | 0 <= j < |rest|
        ensures Newer(sorted[0].at, rest[j].at)
      {
        assert rest[j] in rest;
        if rest[j] != e {
          InTail(sorted, rest[j]);
        }
      }
    }
  }

  /** Ordering keeps the rows and puts them newest first. */
  lemma {:induction false} OrderedRows(rows: seq<Entry>)
    requires Listing(rows)
    ensures Descending(Ordered(rows))
    ensures forall e :: e in Ordered(rows) <==> e in rows
  {
    if rows != [] {
      assert Listing(rows[1..]);
      OrderedRows(rows[1..]);
      assert rows == [rows[0]] + rows[1..];
      forall x | x in Ordered(rows[1..])
        ensures x.at.id != rows[0].at.id
      {
        assert x in rows[1..];
      }
      InsertOrders(rows[0], Ordered(rows[1..]));
    }
  }

  lemma HeadIsNewest(rows: seq<Entry>, e: Entry)
    requires Descending(rows) && e in rows
    ensures rows[0] == e || Newer(rows[0].at, e.at)
  {
  }

  lemma EmptyTogether(a: seq<Entry>, b: seq<Entry>)
    requires forall e :: e in a <==> e in b
    ensures a == [] <==> b == []
  {
    if a != [] {
      assert a[0] in a;
    }
    if b != [] {
      assert b[0] in b;
    }
  }

  lemma {:induction false} DescendingIsUnique(a: seq<Entry>, b: seq<Entry>)
    requires Descending(a) && Descending(b)
    requires forall e :: e in a <==> e in b
    ensures a == b
  {
    EmptyTogether(a, b);
    if a != [] {
      assert a[0] in a && a[0] in b;
      assert b[0] in b && b[0] in a;
      HeadIsNewest(a, b[0]);
      HeadIsNewest(b, a[0]);
      assert a[0] == b[0];
      forall e
        ensures e in a[1..] <==> e in b[1..]
      {
        TailOf(a, e);
        TailOf(b, e);
      }
      DescendingIsUnique(a[1..], b[1..]);
      assert a == [a[0]] + a[1..] && b == [b[0]] + b[1..];
    }
  }

  lemma TailOf(a: seq<Entry>, e: Entry)
    requires Descending(a) && a != []
    ensures e in a[1..] <==> e in a && e != a[0]
  {
    assert a == [a[0]] + a[1..];
    if e in a[1..] {
      var i :| 0 <= i < |a[1..]| && a[1..][i] == e;
      assert Newer(a[0].at, a[i + 1].at);
    }
  }

  // --- what one page guarantees ---------------------------------------------------

  ghost predicate OurCursor(cursor: Option<string>) {
    cursor.Some? ==> DecodeCursor(cursor.value).Ok?
  }

  ghost function At(cursor: Option<string>): Option<Position>
    requires OurCursor(cursor)
  {
    if cursor.None? then None else Some(DecodeCursor(cursor.value).value)
  }

  /** Rows from the cursor on, in order: what is still to be returned. */
  ghost function Remaining(rows: seq<Entry>, cursor: Option<string>): seq<Entry>
    requires OurCursor(cursor)
  {
    Ordered(RowsUnder(rows, At(cursor)))
  }

  lemma RemainingRows(rows: seq<Entry>, cursor: Option<string>)
    requires Listing(rows) && OurCursor(cursor)
    ensures Descending(Remaining(rows, cursor))
    ensures forall e :: e in Remaining(rows, cursor) <==> e in rows && Under(At(cursor), e.at)
  {
    UnderRows(rows, At(cursor));
    UnderListing(rows, At(cursor));
    OrderedRows(RowsUnder(rows, At(cursor)));
  }

  /** A page is the front of what remains, and its cursor marks where it stops. */
  lemma PageIsFront(rows: seq<Entry>, cursor: Option<string>, limit: nat)
    requires limit >= 1 && Listing(rows) && OurCursor(cursor)
    ensures PageOf(rows, cursor, limit).Ok?
    ensures var page := PageOf(rows, cursor, limit).value; var left := Remaining(rows, cursor);
      && (|left| <= limit ==> page == Page(left, None))
      && (|left| > limit ==>
            page.entries == left[..limit] && page.next.Some?
            && DecodeCursor(page.next.value) == Ok(left[limit - 1].at))
  {
    hide DecodeCursor, EncodeCursor, Ordered, RowsUnder;
    var left := Remaining(rows, cursor);
    RemainingRows(rows, cursor);
    if |left| > limit {
      assert left[..limit + 1][..limit] == left[..limit];
      assert left[limit - 1] in Remaining(rows, cursor);
      CursorRoundTrip(left[limit - 1].at);
    }
  }

  /** Page by page, seen from the rows: all below the old cursor, none below the new one. */
  lemma PageCovers(rows: seq<Entry>, cursor: Option<string>, limit: nat, e: Entry)
    requires limit >= 1 && Listing(rows) && OurCursor(cursor)
    ensures PageOf(rows, cursor, limit).Ok? && OurCursor(PageOf(rows, cursor, limit).value.next)
    ensures var page := PageOf(rows, cursor, limit).value;
      e in page.entries <==>
        e in rows && Under(At(cursor), e.at) && (page.next.Some? ==> !Under(At(page.next), e.at))
    ensures Descending(PageOf(rows, cursor, limit).value.entries)
  {
    hide DecodeCursor, EncodeCursor, PageOf, Remaining;
    PageIsFront(rows, cursor, limit);
    RemainingRows(rows, cursor);
    var left := Remaining(rows, cursor);
    if |left| > limit {
      FrontOf(left, limit, e);
    }
  }

  lemma FrontOf(left: seq<Entry>, limit: nat, e: Entry)
    requires Descending(left) && 1 <= limit < |left|
    ensures e in left[..limit] <==> e in left && !Newer(left[limit - 1].at, e.at)
  {
    if e in left[..limit] {
      var i :| 0 <= i < limit && left[i] == e;
      assert i < limit - 1 ==> Newer(left[i].at, left[limit - 1].at);
    }
    if e in left && !Newer(left[limit - 1].at, e.at) {
      var i :| 0 <= i < |left| && left[i] == e;
      assert i < limit;
      assert left[..limit][i] == e;
    }
  }

  // --- nothing twice ----------------------------------------------------------------

  /** Between requests a row that stays under its id never moves to an older position. */
  ghost predicate NeverMovesDown(listings: seq<seq<Entry>>) {
    forall i, j, x, y :: 0 <= i < j < |listings| && x in listings[i] && y in listings[j] && x.at.id == y.at.id
      ==> y.at.micros >= x.at.micros
  }

  ghost predicate AllListings(listings: seq<seq<Entry>>) {
    forall i :: 0 <= i < |listings| ==> Listing(listings[i])
  }

  lemma TailListings(listings: seq<seq<Entry>>)
    requires listings != [] && AllListings(listings) && NeverMovesDown(listings)
    ensures AllListings(listings[1..]) && NeverMovesDown(listings[1..])
    ensures forall j, x, y ::
              0 <= j < |listings[1..]| && x in listings[0] && y in listings[1..][j] && x.at.id == y.at.id
              ==> y.at.micros >= x.at.micros
  {
    assert forall j :: 0 <= j < |listings[1..]| ==> listings[1..][j] == listings[j + 1];
  }

  /** The cursor a page was asked for with: the first one, then the one on the page before. */
  function AskedWith(pages: seq<Page>, cursor: Option<string>, j: nat): Option<string>
    requires j < |pages|
  {
    if j == 0 then cursor else pages[j - 1].next
  }

  /** Each page is what its own request matched, below the cursor it was asked for with. */
  lemma {:induction false} FollowIsSound(
      listings: seq<seq<Entry>>, cursor: Option<string>, limit: nat, j: nat, e: Entry)
    requires limit >= 1 && AllListings(listings) && OurCursor(cursor)
    requires j < |Follow(listings, cursor, limit)| && e in Follow(listings, cursor, limit)[j].entries
    ensures j < |listings| && e in listings[j]
    ensures OurCursor(AskedWith(Follow(listings, cursor, limit), cursor, j))
    ensures Under(At(AskedWith(Follow(listings, cursor, limit), cursor, j)), e.at)
  {
    hide DecodeCursor, EncodeCursor, PageOf, OurCursor;
    var pages := Follow(listings, cursor, limit);
    PageCovers(listings[0], cursor, limit, e);
    if j > 0 {
      var next := pages[0].next;
      var rest := Follow(listings[1..], next, limit);
      assert pages == [pages[0]] + rest && rest[j - 1] == pages[j];
      assert AllListings(listings[1..]) by {
        assert forall i :: 0 <= i < |listings[1..]| ==> listings[1..][i] == listings[i + 1];
      }
      FollowIsSound(listings[1..], next, limit, j - 1, e);
      assert AskedWith(pages, cursor, j) == AskedWith(rest, next, j - 1);
    }
  }

  lemma {:induction false} CollectedIsSound(listings: seq<seq<Entry>>, cursor: Option<string>, limit: nat, e: Entry)
    requires limit >= 1 && AllListings(listings) && OurCursor(cursor)
    requires e in Collected(Follow(listings, cursor, limit))
    ensures Under(At(cursor), e.at)
    ensures exists j :: 0 <= j < |listings| && e in listings[j]
  {
    hide DecodeCursor, EncodeCursor, PageOf;
    var page := PageOf(listings[0], cursor, limit).value;
    PageCovers(listings[0], cursor, limit, e);
    if e !in page.entries {
      assert AllListings(listings[1..]);
      CollectedIsSound(listings[1..], page.next, limit, e);
      var j :| 0 <= j < |listings[1..]| && e in listings[1..][j];
      assert e in listings[j + 1];
      NextIsLower(listings[0], cursor, limit);
    }
  }

  /** A further page always starts strictly below where this one did. */
  lemma NextIsLower(rows: seq<Entry>, cursor: Option<string>, limit: nat)
    requires limit >= 1 && Listing(rows) && OurCursor(cursor)
    ensures PageOf(rows, cursor, limit).Ok? && OurCursor(PageOf(rows, cursor, limit).value.next)
    ensures var page := PageOf(rows, cursor, limit).value;
      page.next.Some? ==> Under(At(cursor), At(page.next).value)
  {
    hide DecodeCursor, EncodeCursor, PageOf, Remaining;
    var left := Remaining(rows, cursor);
    PageIsFront(rows, cursor, limit);
    RemainingRows(rows, cursor);
    if |left| > limit {
      assert left[limit - 1] in Remaining(rows, cursor);
    }
  }

  ghost predicate DistinctIds(rows: seq<Entry>) {
    forall i, j :: 0 <= i < j < |rows| ==> rows[i].at.id != rows[j].at.id
  }

  lemma ConcatDistinct(a: seq<Entry>, b: seq<Entry>)
    requires DistinctIds(a) && DistinctIds(b)
    requires forall x, y :: x in a && y in b ==> x.at.id != y.at.id
    ensures DistinctIds(a + b)
  {
  }

  lemma PageIdsDistinct(rows: seq<Entry>, page: seq<Entry>)
    requires Listing(rows) && Descending(page) && forall e :: e in page ==> e in rows
    ensures DistinctIds(page)
  {
    forall i, j | 0 <= i < j < |page|
      ensures page[i].at.id != page[j].at.id
    {
      assert page[i] in page && page[j] in page;
      var k :| 0 <= k < |rows| && rows[k] == page[i];
      var l :| 0 <= l < |rows| && rows[l] == page[j];
      assert Newer(page[i].at, page[j].at);
    }
  }

  lemma PageIsDistinct(rows: seq<Entry>, cursor: Option<string>, limit: nat)
    requires limit >= 1 && Listing(rows) && OurCursor(cursor)
    ensures PageOf(rows, cursor, limit).Ok? && DistinctIds(PageOf(rows, cursor, limit).value.entries)
  {
    PageIsFront(rows, cursor, limit);
    RemainingRows(rows, cursor);
    var page := PageOf(rows, cursor, limit).value.entries;
    forall e | e in page
      ensures e in rows
    {
      PageCovers(rows, cursor, limit, e);
    }
    PageIdsDistinct(rows, page);
  }

  /** An id on this page cannot come back on a later one. */
  lemma NotAgain(listings: seq<seq<Entry>>, cursor: Option<string>, limit: nat, x: Entry, y: Entry)
    requires limit >= 1 && AllListings(listings) && NeverMovesDown(listings) && OurCursor(cursor) && listings != []
    requires PageOf(listings[0], cursor, limit).Ok?
    requires var page := PageOf(listings[0], cursor, limit).value;
      page.next.Some? && x in page.entries && y in Collected(Follow(listings[1..], page.next, limit))
    ensures x.at.id != y.at.id
  {
    hide DecodeCursor, EncodeCursor, PageOf;
    var page := PageOf(listings[0], cursor, limit).value;
    PageCovers(listings[0], cursor, limit, x);
    TailListings(listings);
    CollectedIsSound(listings[1..], page.next, limit, y);
  }

  /** However the listing changes between requests, no id is ever returned twice. */
  lemma {:induction false} NothingTwice(listings: seq<seq<Entry>>, cursor: Option<string>, limit: nat)
    requires limit >= 1 && AllListings(listings) && NeverMovesDown(listings) && OurCursor(cursor)
    ensures DistinctIds(Collected(Follow(listings, cursor, limit)))
  {
    hide DecodeCursor, EncodeCursor, PageOf;
    if listings != [] {
      PageIsDistinct(listings[0], cursor, limit);
      var page := PageOf(listings[0], cursor, limit).value;
      if page.next.Some? {
        var rest := Collected(Follow(listings[1..], page.next, limit));
        NextIsLower(listings[0], cursor, limit);
        TailListings(listings);
        NothingTwice(listings[1..], page.next, limit);
        forall x, y | x in page.entries && y in rest
          ensures x.at.id != y.at.id
        {
          NotAgain(listings, cursor, limit, x, y);
        }
        ConcatDistinct(page.entries, rest);
      } else {
        assert page.entries + [] == page.entries;
      }
    }
  }

  // --- nothing lost -----------------------------------------------------------------

  ghost predicate Exhausted(pages: seq<Page>) {
    pages != [] && pages[|pages| - 1].next.None?
  }

  ghost predicate HasPosition(rows: seq<Entry>, at: Position) { exists e :: e in rows && e.at == at }

  /** Some row stands at the position at each of the first requests. */
  ghost predicate MatchedThroughout(listings: seq<seq<Entry>>, requests: nat, at: Position) {
    forall i :: 0 <= i < requests && i < |listings| ==> HasPosition(listings[i], at)
  }

  lemma LaterMatches(listings: seq<seq<Entry>>, requests: nat, at: Position)
    requires listings != [] && requests >= 1 && MatchedThroughout(listings, requests, at)
    ensures HasPosition(listings[0], at) && MatchedThroughout(listings[1..], requests - 1, at)
  {
    assert forall i :: 0 <= i < |listings[1..]| ==> listings[1..][i] == listings[i + 1];
  }

  lemma InConcat(a: seq<Entry>, b: seq<Entry>, at: Position)
    requires HasPosition(a, at) || HasPosition(b, at)
    ensures HasPosition(a + b, at)
  {
    if HasPosition(a, at) {
      var e :| e in a && e.at == at;
      assert e in a + b;
    } else {
      var e :| e in b && e.at == at;
      assert e in a + b;
    }
  }

  /** A row that matched, unmoved, at every request made is returned once the pages run out. */
  lemma {:induction false} NothingLost(listings: seq<seq<Entry>>, cursor: Option<string>, limit: nat, at: Position)
    requires limit >= 1 && AllListings(listings) && OurCursor(cursor)
    requires Exhausted(Follow(listings, cursor, limit))
    requires MatchedThroughout(listings, |Follow(listings, cursor, limit)|, at)
    requires Under(At(cursor), at)
    ensures HasPosition(Collected(Follow(listings, cursor, limit)), at)
  {
    hide DecodeCursor, EncodeCursor, PageOf;
    var pages := Follow(listings, cursor, limit);
    var page := PageOf(listings[0], cursor, limit).value;
    LaterMatches(listings, |pages|, at);
    var e :| e in listings[0] && e.at == at;
    PageCovers(listings[0], cursor, limit, e);
    var rest := if page.next.None? then [] else Follow(listings[1..], page.next, limit);
    assert pages == [page] + rest;
    if e !in page.entries {
      assert AllListings(listings[1..]);
      NothingLost(listings[1..], page.next, limit, at);
    }
    InConcat(page.entries, Collected(rest), at);
  }

  // --- a listing that does not change ---------------------------------------------------

  function PageCount(rows: nat, limit: nat): nat
    requires limit >= 1
  {
    if rows <= limit then 1 else 1 + PageCount(rows - limit, limit)
  }

  /** What remains from a cursor on is what the list has after the row the cursor marks. */
  lemma RemainingFrom(rows: seq<Entry>, cursor: Option<string>, next: Option<string>, n: nat)
    requires Listing(rows) && OurCursor(cursor) && OurCursor(next) && 1 <= n < |Remaining(rows, cursor)|
    requires At(next) == Some(Remaining(rows, cursor)[n - 1].at)
    ensures Remaining(rows, next) == Remaining(rows, cursor)[n..]
  {
    hide Remaining, Ordered, RowsUnder, DecodeCursor, EncodeCursor;
    var left := Remaining(rows, cursor);
    RemainingRows(rows, cursor);
    RemainingRows(rows, next);
    forall e
      ensures e in left[n..] <==> e in Remaining(rows, next)
    {
      BackOf(left, n, e);
      NewerTransitive(At(cursor), left[n - 1].at, e.at);
      assert left[n - 1] in left;
    }
    DescendingIsUnique(left[n..], Remaining(rows, next));
  }

  /** Everything after the cursor of a full page is what the page left out. */
  lemma RemainingAfter(rows: seq<Entry>, cursor: Option<string>, limit: nat)
    requires limit >= 1 && Listing(rows) && OurCursor(cursor) && |Remaining(rows, cursor)| > limit
    ensures var next := PageOf(rows, cursor, limit).value.next;
      OurCursor(next) && Remaining(rows, next) == Remaining(rows, cursor)[limit..]
  {
    hide Remaining, Ordered, RowsUnder, DecodeCursor, EncodeCursor, PageOf;
    PageIsFront(rows, cursor, limit);
    RemainingFrom(rows, cursor, PageOf(rows, cursor, limit).value.next, limit);
  }

  lemma NewerTransitive(start: Option<Position>, b: Position, c: Position)
    ensures Under(start, b) && Newer(b, c) ==> Under(start, c)
  {
  }

  lemma BackOf(left: seq<Entry>, limit: nat, e: Entry)
    requires Descending(left) && 1 <= limit < |left|
    ensures e in left[limit..] <==> e in left && Newer(left[limit - 1].at, e.at)
  {
    if e in left[limit..] {
      var i :| 0 <= i < |left[limit..]| && left[limit..][i] == e;
      assert left[limit + i] == e;
    }
    if e in left && Newer(left[limit - 1].at, e.at) {
      var i :| 0 <= i < |left| && left[i] == e;
      assert i < limit - 1 ==> Newer(left[i].at, left[limit - 1].at);
      assert left[limit..][i - limit] == e;
    }
  }

  /** On a fixed listing the pages join up to the whole list, in as few pages as hold it. */
  lemma {:induction false} FixedListing(
      rows: seq<Entry>, listings: seq<seq<Entry>>, cursor: Option<string>, limit: nat)
    requires limit >= 1 && Listing(rows) && OurCursor(cursor)
    requires forall i :: 0 <= i < |listings| ==> listings[i] == rows
    requires |listings| >= PageCount(|Remaining(rows, cursor)|, limit)
    ensures var pages := Follow(listings, cursor, limit);
      && Exhausted(pages)
      && |pages| == PageCount(|Remaining(rows, cursor)|, limit)
      && Collected(pages) == Remaining(rows, cursor)
  {
    hide PageOf, Remaining, DecodeCursor, EncodeCursor, Listing, OurCursor, Follow, Collected;
    var left := Remaining(rows, cursor);
    PageIsFront(rows, cursor, limit);
    FollowStep(listings, cursor, limit);
    var page := PageOf(rows, cursor, limit).value;
    if |left| > limit {
      RemainingAfter(rows, cursor, limit);
      FixedListing(rows, listings[1..], page.next, limit);
      CollectedCons(page, Follow(listings[1..], page.next, limit));
      assert left == left[..limit] + left[limit..];
    } else {
      CollectedCons(page, []);
      assert left + [] == left;
    }
  }

  lemma FollowStep(listings: seq<seq<Entry>>, cursor: Option<string>, limit: nat)
    requires limit >= 1 && listings != [] && PageOf(listings[0], cursor, limit).Ok?
    ensures var page := PageOf(listings[0], cursor, limit).value;
      Follow(listings, cursor, limit) ==
        [page] + if page.next.None? then [] else Follow(listings[1..], page.next, limit)
  {
    hide PageOf;
  }

  lemma CollectedCons(page: Page, pages: seq<Page>)
    ensures Collected([page] + pages) == page.entries + Collected(pages) && Collected([]) == []
  {
    assert ([page] + pages)[1..] == pages;
  }
}

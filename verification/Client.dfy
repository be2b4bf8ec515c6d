/** The paging hook against a server whose feed stands still: what the reader sees at every moment. */
module Client {
  import opened Text
  import opened Items
  import opened Pagination
  import opened Keyset
  import Feed
  import P = PagedResource
  import opened Traversal

  datatype Server = Server(rows: seq<Entry>, limit: nat)

  ghost predicate Serves(s: Server) { s.limit >= 1 && Listing(s.rows) }

  /** The whole list, newest first: what the pages join up to. */
  ghost function Whole(s: Server): seq<Entry> { Remaining(s.rows, None) }

  /** The cursor names the `n`-th row, and there are more. */
  ghost predicate MarksAt(s: Server, cursor: string, n: nat) {
    1 <= n < |Whole(s)| && DecodeCursor(cursor) == Ok(Whole(s)[n - 1].at)
  }

  ghost predicate Marks(s: Server, cursor: string, n: nat) { exists m: nat :: m <= n && MarksAt(s, cursor, m) }

  /** A response is an error, or the page asked for. */
  ghost predicate Answers(s: Server, key: P.Key, request: P.Request, outcome: Result<P.Page, string>)
    requires s.limit >= 1
  {
    outcome.Ok? ==>
      var page := PageOf(s.rows, request.cursor, s.limit);
      page.Ok? && outcome.value == P.Page(Received(page.value.entries, key), page.value.next)
  }

  /**
   * The reader stays with one key and changes no entry. A `loadMore` that is called captured a
   * cursor the view has shown; when `current`, the one it shows now.
   */
  ghost predicate Quiet(s: Server, key: P.Key, h: P.Hook, seen: set<string>, current: bool, action: P.Action)
    requires s.limit >= 1 && P.Enabled(h, action)
  {
    match action
    case Render(k) => k == key
    case Flush => true
    case LoadMore(k, cursor, _) =>
      k == key && (cursor.Some? ==> cursor.value in seen) && (current ==> cursor == h.view.nextCursor)
    case Respond(i, outcome) => Answers(s, key, h.open[i], outcome)
    case Patch(_, _, _) => false
    case Remove(_, _) => false
    case Unmount => false
  }

  /** Cursors shown so far. */
  function Seen(seen: set<string>, h: P.Hook): set<string> {
    seen + if h.view.nextCursor.Some? then {h.view.nextCursor.value} else {}
  }

  ghost predicate IsQuiet(s: Server, key: P.Key, h: P.Hook, seen: set<string>, current: bool, actions: seq<P.Action>)
    requires s.limit >= 1
    decreases |actions|
  {
    actions != [] ==>
      && P.Enabled(h, actions[0]) && Quiet(s, key, h, seen, current, actions[0])
      && var g := P.Next(h, actions[0]); IsQuiet(s, key, g, Seen(seen, g), current, actions[1..])
  }

  // --- what holds at every moment -----------------------------------------------------------

  ghost predicate Blank(key: P.Key, view: P.View, seen: set<string>) {
    view.entries == [] && view.nextCursor.None? && seen == {} && (key.enabled ==> view.status.Loading?)
  }

  ghost predicate CursorHolds(s: Server, cursor: string, n: nat, seen: set<string>, current: bool) {
    cursor in seen && (current ==> MarksAt(s, cursor, n))
  }

  ghost predicate RequestHolds(
      s: Server, key: P.Key, view: P.View, seen: set<string>, current: bool, request: P.Request)
  {
    && !request.aborted && request.key == key && request.source == key
    && if request.more then request.cursor.Some? && CursorHolds(s, request.cursor.value, |view.entries|, seen, current)
       else request.cursor.None? && Blank(key, view, seen)
  }

  /** The view is a prefix of the whole list, and the whole of it when it is ready and shows no cursor. */
  ghost predicate ViewHolds(s: Server, key: P.Key, view: P.View, seen: set<string>, current: bool) {
    var n := |view.entries|;
    && view.key == key && n <= |Whole(s)| && view.entries == Received(Whole(s)[..n], key)
    && (forall cursor :: cursor in seen ==> Marks(s, cursor, n))
    && (view.nextCursor.Some? ==> CursorHolds(s, view.nextCursor.value, n, seen, current))
    && (key.enabled && view.status.Ready? && view.nextCursor.None? ==> n == |Whole(s)|)
  }

  ghost predicate Shows(s: Server, key: P.Key, h: P.Hook, seen: set<string>, current: bool) {
    && P.Inv(h) && h.mounted && ViewHolds(s, key, h.view, seen, current)
    && (h.effects.None? ==> h.open == map[] && Blank(key, h.view, seen))
    && (h.effects.Some? ==> h.effects.value == key)
    && (forall i :: i in h.open ==> RequestHolds(s, key, h.view, seen, current, h.open[i]))
  }

  // --- pages and merges -----------------------------------------------------------------------

  function Upto(n: nat, limit: nat, all: nat): nat { if n + limit <= all then n + limit else all }

  /** The page after the first `n` rows. */
  lemma PageFrom(s: Server, cursor: Option<string>, n: nat)
    requires Serves(s) && n <= |Whole(s)|
    requires if cursor.None? then n == 0 else MarksAt(s, cursor.value, n)
    ensures PageOf(s.rows, cursor, s.limit).Ok?
    ensures var page := PageOf(s.rows, cursor, s.limit).value; var end := Upto(n, s.limit, |Whole(s)|);
      && n <= end && page.entries == Whole(s)[n..end]
      && (page.next.None? <==> end == |Whole(s)|)
      && (page.next.Some? ==> MarksAt(s, page.next.value, end))
  {
    hide Remaining, DecodeCursor, EncodeCursor, PageOf, Listing;
    var whole := Whole(s);
    if cursor.Some? {
      RemainingFrom(s.rows, None, cursor, n);
    } else {
      assert whole[0..] == whole;
    }
    PageIsFront(s.rows, cursor, s.limit);
    var left := whole[n..];
    var end := Upto(n, s.limit, |whole|);
    if |left| > s.limit {
      assert left[..s.limit] == whole[n..end] && left[s.limit - 1] == whole[end - 1];
    } else {
      assert left == whole[n..end];
    }
  }

  lemma {:induction false} MergedConcat(existing: seq<P.Entry>, a: seq<P.Entry>, b: seq<P.Entry>)
    ensures P.Merged(existing, a + b) == P.Merged(P.Merged(existing, a), b)
  {
    if b == [] {
      assert a + b == a;
    } else {
      assert (a + b)[..|a + b| - 1] == a + b[..|b| - 1];
      MergedConcat(existing, a, b[..|b| - 1]);
    }
  }

  lemma ReceivedSlice(rows: seq<Entry>, key: P.Key, start: nat, stop: nat, end: nat)
    requires start <= stop <= end <= |rows|
    ensures P.Ids(Received(rows[start..stop], key)) <= P.Ids(Received(rows[..end], key))
  {
    var part, all := Received(rows[start..stop], key), Received(rows[..end], key);
    forall i | 0 <= i < |part|
      ensures part[i].id in P.Ids(all)
    {
      assert all[start + i].id == part[i].id;
    }
  }

  /** Merging a stretch that begins within what is loaded adds just what lies beyond it. */
  lemma MergedStretch(rows: seq<Entry>, key: P.Key, n: nat, start: nat, stop: nat)
    requires DistinctIds(rows) && start <= n <= |rows| && start <= stop <= |rows|
    ensures P.Merged(Received(rows[..n], key), Received(rows[start..stop], key)) ==
      Received(rows[..if stop <= n then n else stop], key)
  {
    hide P.Merged, P.Ids, P.DistinctIds, DistinctIds;
    var loaded := Received(rows[..n], key);
    if stop <= n {
      ReceivedSlice(rows, key, start, stop, n);
      P.RepeatedPageIsDropped(loaded, Received(rows[start..stop], key));
    } else {
      var known, beyond := rows[start..n], rows[n..stop];
      assert rows[start..stop] == known + beyond && rows[..stop] == rows[..n] + beyond;
      assert Received(known + beyond, key) == Received(known, key) + Received(beyond, key);
      MergedConcat(loaded, Received(known, key), Received(beyond, key));
      ReceivedSlice(rows, key, start, n, n);
      P.RepeatedPageIsDropped(loaded, Received(known, key));
      FrontDistinct(rows, stop);
      ReceivedIds(rows[..n], beyond, key);
      P.NewPageIsAppended(loaded, Received(beyond, key));
    }
  }

  lemma FrontDistinct(rows: seq<Entry>, n: nat)
    requires DistinctIds(rows) && n <= |rows|
    ensures DistinctIds(rows[..n])
  {
  }

  lemma WholeIsDistinct(s: Server)
    requires Serves(s)
    ensures DistinctIds(Whole(s)) && Descending(Whole(s))
  {
    hide Remaining, Listing, DistinctIds, Descending;
    RemainingRows(s.rows, None);
    PageIdsDistinct(s.rows, Whole(s));
  }

  lemma MarksLater(s: Server, seen: set<string>, n: nat, later: nat)
    requires n <= later && forall cursor :: cursor in seen ==> Marks(s, cursor, n)
    ensures forall cursor :: cursor in seen ==> Marks(s, cursor, later)
  {
    hide MarksAt;
  }

  // --- one action ------------------------------------------------------------------------------

  /** While a continuation is open it is the only request. */
  lemma OnlyRequest(s: Server, key: P.Key, h: P.Hook, seen: set<string>, current: bool, i: nat)
    requires Shows(s, key, h, seen, current) && i in h.open
    ensures forall j :: j in h.open ==> j == i
  {
    hide ViewHolds, MarksAt, P.ViewHolds;
    forall j | j in h.open
      ensures j == i
    {
      assert RequestHolds(s, key, h.view, seen, current, h.open[i]);
      assert RequestHolds(s, key, h.view, seen, current, h.open[j]);
      assert P.Live(h, i) && P.Live(h, j);
    }
  }

  /** The first page. */
  lemma FirstPageShows(
      s: Server, key: P.Key, view: P.View, seen: set<string>, current: bool, outcome: Result<P.Page, string>)
    requires Serves(s) && ViewHolds(s, key, view, seen, current) && Blank(key, view, seen)
    requires var request := P.Request(key, key, false, None, false); Answers(s, key, request, outcome)
    ensures var shown := P.Shown(view, P.Request(key, key, false, None, false), outcome);
      var more := if shown.nextCursor.Some? then seen + {shown.nextCursor.value} else seen;
      ViewHolds(s, key, shown, more, current)
  {
    hide Whole, MarksAt, Received, PageOf;
    if outcome.Ok? {
      PageFrom(s, None, 0);
      var end := Upto(0, s.limit, |Whole(s)|);
      assert Whole(s)[0..end] == Whole(s)[..end];
      ReceivedLength(Whole(s)[..end], key);
      if outcome.value.nextCursor.Some? {
        assert Marks(s, outcome.value.nextCursor.value, end);
      }
    }
  }

  lemma ReceivedLength(rows: seq<Entry>, key: P.Key)
    ensures |Received(rows, key)| == |rows|
  {
  }

  /** A further page, from wherever its cursor starts within what is loaded. */
  lemma FurtherPageShows(
      s: Server, key: P.Key, view: P.View, seen: set<string>, current: bool, cursor: string,
      outcome: Result<P.Page, string>)
    requires Serves(s) && ViewHolds(s, key, view, seen, current)
    requires CursorHolds(s, cursor, |view.entries|, seen, current)
    requires Answers(s, key, P.Request(key, key, true, Some(cursor), false), outcome)
    ensures var shown := P.Shown(view, P.Request(key, key, true, Some(cursor), false), outcome);
      var more := if shown.nextCursor.Some? then seen + {shown.nextCursor.value} else seen;
      ViewHolds(s, key, shown, more, current)
  {
    hide Whole, MarksAt, Received, PageOf, P.Merged;
    if outcome.Ok? {
      var n := |view.entries|;
      var m: nat :| m <= n && MarksAt(s, cursor, m) && (current ==> m == n);
      var end := Upto(m, s.limit, |Whole(s)|);
      var later := if end <= n then n else end;
      MarkIsInside(s, cursor, m);
      PageFrom(s, Some(cursor), m);
      WholeIsDistinct(s);
      MergedStretch(Whole(s), key, n, m, end);
      ReceivedLength(Whole(s)[..later], key);
      MarksLater(s, seen, n, later);
      if outcome.value.nextCursor.Some? {
        assert Marks(s, outcome.value.nextCursor.value, later);
      }
    }
  }

  lemma MarkIsInside(s: Server, cursor: string, n: nat)
    requires MarksAt(s, cursor, n)
    ensures 1 <= n < |Whole(s)|
  {
  }

  lemma RespondShows(
      s: Server, key: P.Key, h: P.Hook, seen: set<string>, current: bool, i: nat, outcome: Result<P.Page, string>)
    requires Serves(s) && Shows(s, key, h, seen, current)
    requires P.Enabled(h, P.Respond(i, outcome)) && Answers(s, key, h.open[i], outcome)
    ensures var g := P.Responded(h, i, outcome); Shows(s, key, g, Seen(seen, g), current)
  {
    hide ViewHolds, MarksAt, Answers, CursorHolds, P.ViewHolds, P.OpenHolds, P.Shown;
    var request, g := h.open[i], P.Responded(h, i, outcome);
    assert RequestHolds(s, key, h.view, seen, current, request);
    OnlyRequest(s, key, h, seen, current, i);
    P.ActionKeeps(h, P.Respond(i, outcome));
    KeyHolds(s, key, h, seen, current);
    assert seen + {} == seen;
    if request.more {
      FurtherPageShows(s, key, h.view, seen, current, request.cursor.value, outcome);
    } else {
      FirstPageShows(s, key, h.view, seen, current, outcome);
      assert request == P.Request(key, key, false, None, false);
      assert h.effects == Some(key);
    }
  }

  lemma KeyHolds(s: Server, key: P.Key, h: P.Hook, seen: set<string>, current: bool)
    requires Shows(s, key, h, seen, current)
    ensures h.view.key == key
    ensures h.view.nextCursor.Some? ==> h.view.nextCursor.value in seen
  {
    hide MarksAt;
  }

  lemma ActionShows(s: Server, key: P.Key, h: P.Hook, seen: set<string>, current: bool, action: P.Action)
    requires Serves(s) && Shows(s, key, h, seen, current)
    requires P.Enabled(h, action) && Quiet(s, key, h, seen, current, action)
    ensures P.Prompt(h, action)
    ensures var g := P.Next(h, action); Shows(s, key, g, Seen(seen, g), current)
  {
    hide MarksAt, Answers, Whole, P.ViewHolds, P.OpenHolds, Received;
    KeyHolds(s, key, h, seen, current);
    assert h.view.nextCursor.Some? ==> seen + {h.view.nextCursor.value} == seen;
    P.ActionKeeps(h, action);
    match action {
      case Respond(i, outcome) => RespondShows(s, key, h, seen, current, i, outcome);
      case _ =>
    }
  }

  // --- every moment of a run --------------------------------------------------------------------

  lemma {:induction false} RunShows(
      s: Server, key: P.Key, h: P.Hook, seen: set<string>, current: bool, actions: seq<P.Action>)
    requires Serves(s) && Shows(s, key, h, seen, current) && IsQuiet(s, key, h, seen, current, actions)
    ensures P.IsRun(h, actions)
    ensures exists later :: Shows(s, key, P.Run(h, actions), later, current)
    decreases |actions|
  {
    hide Shows, Quiet, P.Next, P.Enabled, P.Prompt, Serves;
    if actions == [] {
      assert P.Run(h, actions) == h;
    } else {
      var g := P.Next(h, actions[0]);
      ActionShows(s, key, h, seen, current, actions[0]);
      RunShows(s, key, g, Seen(seen, g), current, actions[1..]);
      assert P.Run(h, actions) == P.Run(g, actions[1..]);
    }
  }

  lemma MountedShows(s: Server, key: P.Key, current: bool)
    requires Serves(s)
    ensures Shows(s, key, P.Mounted(key), {}, current)
  {
    hide MarksAt, Remaining;
    assert Received(Whole(s)[..0], key) == [];
  }

  /**
   * At every moment the entries shown are a prefix of the pages joined, and all of them once the
   * view is ready and shows no cursor. As long as no call captured an older cursor, the cursor
   * shown is the one that names the last entry shown; a call that did only sets the cursor back,
   * and the pages fetched again add nothing.
   */
  lemma ClientShowsPrefix(s: Server, key: P.Key, current: bool, actions: seq<P.Action>)
    requires Serves(s) && IsQuiet(s, key, P.Mounted(key), {}, current, actions)
    ensures P.IsRun(P.Mounted(key), actions)
    ensures var view := P.Run(P.Mounted(key), actions).view; var n := |view.entries|;
      && n <= |Whole(s)| && view.entries == Received(Whole(s)[..n], key)
      && (view.nextCursor.Some? ==> Marks(s, view.nextCursor.value, n))
      && (current && view.nextCursor.Some? ==> MarksAt(s, view.nextCursor.value, n))
      && (key.enabled && view.status.Ready? && view.nextCursor.None? ==> view.entries == Received(Whole(s), key))
  {
    hide IsQuiet, MarksAt, Whole, Received, P.IsRun, P.Run, Serves;
    MountedShows(s, key, current);
    RunShows(s, key, P.Mounted(key), {}, current, actions);
    var later :| Shows(s, key, P.Run(P.Mounted(key), actions), later, current);
    assert Whole(s)[..|Whole(s)|] == Whole(s);
  }

  /** A feed that stands still: a client that has come to its end shows every visible item, newest first, once. */
  lemma ClientShowsTheFeed(
      matches: Feed.TextMatch, visit: Feed.Visit, limit: nat, key: P.Key, current: bool, actions: seq<P.Action>)
    requires limit >= 1 && Feed.GoodItems(visit.tables.items) && key.enabled
    requires IsQuiet(FeedServer(matches, visit, limit), key, P.Mounted(key), {}, current, actions)
    ensures P.IsRun(P.Mounted(key), actions)
    ensures var view := P.Run(P.Mounted(key), actions).view; var whole := Whole(FeedServer(matches, visit, limit));
      && (view.status.Ready? && view.nextCursor.None? ==> view.entries == Received(whole, key))
      && Descending(whole)
      && forall item ::
           item in visit.tables.items && Feed.Visible(matches, visit.tables, visit.reader, visit.request, item)
           <==> Entry(Position(item.publishedAt, item.id), item) in whole
  {
    hide Feed.Visible, IsQuiet, Descending, Received, Remaining, MarksAt, P.Run, P.IsRun;
    var s := FeedServer(matches, visit, limit);
    Feed.MatchingRows(matches, visit.tables, visit.reader, visit.request, visit.tables.items);
    ClientShowsPrefix(s, key, current, actions);
    RemainingRows(s.rows, None);
  }

  function FeedServer(matches: Feed.TextMatch, visit: Feed.Visit, limit: nat): Server {
    Server(Feed.Matching(matches, visit.tables, visit.reader, visit.request, visit.tables.items), limit)
  }
}

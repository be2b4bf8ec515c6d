/** The client hook that accumulates pages: renders, effects, requests and responses interleaved. */
module PagedResource {
  import opened Text

  /** The cache key: the reload count, whether the resource is enabled, and the filters. */
  datatype Key = Key(reload: nat, enabled: bool, filters: string)

  /** An entry, and (for the proofs) the key whose request it answered. */
  datatype Entry = Entry(id: int, body: int, source: Key)

  datatype Page = Page(entries: seq<Entry>, nextCursor: Option<string>)

  datatype Status = Loading | Ready | Failed

  datatype View = View(
    key: Key, entries: seq<Entry>, status: Status, error: Option<string>, loadMoreError: Option<string>,
    nextCursor: Option<string>, loadingMore: bool)

  function FreshView(key: Key): View {
    View(key, [], if key.enabled then Loading else Ready, None, None, None, false)
  }

  predicate CanStartLoadMore(nextCursor: Option<string>, loadingMore: bool, inFlight: bool) {
    nextCursor.Some? && !loadingMore && !inFlight
  }

  // --- merging pages ------------------------------------------------------------------------

  function Ids(entries: seq<Entry>): set<int> { set i | 0 <= i < |entries| :: entries[i].id }

  predicate DistinctIds(entries: seq<Entry>) {
    forall i, j :: 0 <= i < j < |entries| ==> entries[i].id != entries[j].id
  }

  function Merged(existing: seq<Entry>, incoming: seq<Entry>): seq<Entry> {
    if incoming == [] then existing else
      var before := Merged(existing, incoming[..|incoming| - 1]);
      if incoming[|incoming| - 1].id in Ids(before) then before else before + [incoming[|incoming| - 1]]
  }

  method MergeUnique(existing: seq<Entry>, incoming: seq<Entry>) returns (merged: seq<Entry>)
    ensures merged == Merged(existing, incoming)
  {
    var seen := Ids(existing);
    merged := existing;
    for i := 0 to |incoming|
      invariant merged == Merged(existing, incoming[..i])
      invariant seen == Ids(merged)
    {
      assert incoming[..i + 1][..i] == incoming[..i];
      var entry := incoming[i];
      if entry.id in seen {
        continue;
      }
      IdsSnoc(merged, entry);
      seen := seen + {entry.id};
      merged := merged + [entry];
    }
    assert incoming[..|incoming|] == incoming;
  }

  lemma IdsSnoc(entries: seq<Entry>, entry: Entry)
    ensures Ids(entries + [entry]) == Ids(entries) + {entry.id}
  {
    var longer := entries + [entry];
    assert forall i :: 0 <= i < |entries| ==> longer[i] == entries[i];
    assert longer[|entries|] == entry;
  }

  ghost predicate AllFrom(entries: seq<Entry>, key: Key) {
    forall i :: 0 <= i < |entries| ==> entries[i].source == key
  }

  /** Merging only appends, keeps ids apart, loses no id, and adds nothing that is not in the page. */
  lemma {:induction false} MergedIs(existing: seq<Entry>, incoming: seq<Entry>)
    requires DistinctIds(existing)
    ensures existing <= Merged(existing, incoming) && DistinctIds(Merged(existing, incoming))
    ensures Ids(Merged(existing, incoming)) == Ids(existing) + Ids(incoming)
    ensures forall key :: AllFrom(existing, key) && AllFrom(incoming, key) ==> AllFrom(Merged(existing, incoming), key)
  {
    hide Ids, DistinctIds, AllFrom;
    if incoming == [] {
      NoIds();
    } else {
      var front, last := incoming[..|incoming| - 1], incoming[|incoming| - 1];
      MergedIs(existing, front);
      var before := Merged(existing, front);
      IdsSnoc(front, last);
      IdsSnoc(before, last);
      assert front + [last] == incoming;
      if last.id !in Ids(before) {
        DistinctSnoc(before, last);
      }
      forall key | AllFrom(existing, key) && AllFrom(incoming, key)
        ensures AllFrom(Merged(existing, incoming), key)
      {
        AllFromSnoc(front, last, key);
        AllFromSnoc(before, last, key);
      }
    }
  }

  lemma NoIds()
    ensures Ids([]) == {}
  {
  }

  lemma DistinctSnoc(entries: seq<Entry>, entry: Entry)
    requires DistinctIds(entries) && entry.id !in Ids(entries)
    ensures DistinctIds(entries + [entry])
  {
    assert forall i :: 0 <= i < |entries| ==> entries[i].id in Ids(entries);
  }

  lemma AllFromSnoc(entries: seq<Entry>, entry: Entry, key: Key)
    ensures AllFrom(entries + [entry], key) <==> AllFrom(entries, key) && entry.source == key
  {
    assert forall i :: 0 <= i < |entries| ==> (entries + [entry])[i] == entries[i];
    assert (entries + [entry])[|entries|] == entry;
  }

  /** Pages without an id in common with what is loaded are simply appended, in their order. */
  lemma {:induction false} NewPageIsAppended(existing: seq<Entry>, incoming: seq<Entry>)
    requires DistinctIds(existing) && DistinctIds(incoming) && Ids(existing) !! Ids(incoming)
    ensures Merged(existing, incoming) == existing + incoming
  {
    if incoming != [] {
      var front, last := incoming[..|incoming| - 1], incoming[|incoming| - 1];
      assert front + [last] == incoming;
      IdsSnoc(front, last);
      NewPageIsAppended(existing, front);
      MergedIs(existing, front);
      assert last.id in Ids(incoming);
      assert last.id !in Ids(front) by {
        assert forall i :: 0 <= i < |front| ==> front[i] == incoming[i];
      }
    }
  }

  /** A page that is already loaded changes nothing. */
  lemma {:induction false} RepeatedPageIsDropped(existing: seq<Entry>, incoming: seq<Entry>)
    requires Ids(incoming) <= Ids(existing)
    ensures Merged(existing, incoming) == existing
  {
    if incoming != [] {
      var front, last := incoming[..|incoming| - 1], incoming[|incoming| - 1];
      assert front + [last] == incoming;
      IdsSnoc(front, last);
      RepeatedPageIsDropped(existing, front);
    }
  }

  // --- the hook -----------------------------------------------------------------------------

  /**
   * A request: the key its callbacks were made for, the key whose fetch function answers it,
   * and whether it continues the list.
   */
  datatype Request = Request(key: Key, source: Key, more: bool, cursor: Option<string>, aborted: bool)

  /**
   * `view` has every queued update applied. `effects` is the key whose effects last ran, which
   * lags behind a render that changed the key. `inFlight` is the ref to the open continuation.
   */
  datatype Hook = Hook(
    view: View, effects: Option<Key>, open: map<nat, Request>, inFlight: Option<nat>, nextId: nat, mounted: bool)

  function Mounted(key: Key): Hook { Hook(FreshView(key), None, map[], None, 0, true) }

  datatype Action =
    | Render(key: Key)
    | Flush
    | LoadMore(key: Key, nextCursor: Option<string>, loadingMore: bool)  // what the called closure captured
    | Respond(request: nat, outcome: Result<Page, string>)
    | Patch(key: Key, id: int, update: int -> int)
    | Remove(key: Key, id: int)
    | Unmount

  ghost predicate Enabled(h: Hook, action: Action) {
    match action
    case Render(_) => h.mounted && h.effects == Some(h.view.key)
    case Flush => h.mounted && h.effects != Some(h.view.key)
    case LoadMore(_, _, _) => h.mounted && h.effects.Some?
    case Respond(id, outcome) =>
      id in h.open
      && (outcome.Ok? ==> DistinctIds(outcome.value.entries) && AllFrom(outcome.value.entries, h.open[id].source))
    case Patch(_, _, _) => h.mounted
    case Remove(_, _) => h.mounted
    case Unmount => h.mounted && h.effects == Some(h.view.key)
  }

  function Aborted(open: map<nat, Request>): map<nat, Request> {
    map i | i in open :: open[i].(aborted := true)
  }

  function Patched(entries: seq<Entry>, id: int, update: int -> int): seq<Entry> {
    seq(|entries|, i requires 0 <= i < |entries| =>
      if entries[i].id == id then entries[i].(body := update(entries[i].body)) else entries[i])
  }

  function Without(entries: seq<Entry>, id: int): seq<Entry> {
    if entries == [] then [] else
      Without(entries[..|entries| - 1], id) + if entries[|entries| - 1].id == id then [] else [entries[|entries| - 1]]
  }

  /** The clean-ups of the old key, then the first request of the new one. */
  function Flushed(h: Hook): Hook {
    var key := h.view.key;
    var open := Aborted(h.open);
    if key.enabled then
      h.(effects := Some(key), open := open[h.nextId := Request(key, key, false, None, false)],
         inFlight := None, nextId := h.nextId + 1)
    else
      h.(effects := Some(key), open := open, inFlight := None)
  }

  function LoadedMore(h: Hook, key: Key, nextCursor: Option<string>, loadingMore: bool): Hook
    requires h.effects.Some?
  {
    if !CanStartLoadMore(nextCursor, loadingMore, h.inFlight.Some?) then h else
      h.(open := h.open[h.nextId := Request(key, h.effects.value, true, nextCursor, false)],
         inFlight := Some(h.nextId), nextId := h.nextId + 1,
         view := if h.view.key == key then h.view.(loadingMore := true, loadMoreError := None) else h.view)
  }

  /** What a response that is not dropped writes. */
  function Shown(view: View, request: Request, outcome: Result<Page, string>): View {
    match outcome
    case Ok(page) =>
      if request.more then
        view.(entries := Merged(view.entries, page.entries), nextCursor := page.nextCursor, loadingMore := false)
      else
        view.(entries := page.entries, nextCursor := page.nextCursor, error := None, status := Ready)
    case Err(error) =>
      if request.more then view.(loadMoreError := Some(error), loadingMore := false)
      else view.(error := Some(error), status := Failed)
  }

  function Responded(h: Hook, id: nat, outcome: Result<Page, string>): Hook
    requires id in h.open
  {
    var request := h.open[id];
    h.(open := h.open - {id},
       inFlight := if h.inFlight == Some(id) then None else h.inFlight,
       view := if request.aborted || h.view.key != request.key then h.view else Shown(h.view, request, outcome))
  }

  function Next(h: Hook, action: Action): Hook
    requires Enabled(h, action)
  {
    match action
    case Render(key) => if h.view.key == key then h else h.(view := FreshView(key))
    case Flush => Flushed(h)
    case LoadMore(key, nextCursor, loadingMore) => LoadedMore(h, key, nextCursor, loadingMore)
    case Respond(id, outcome) => Responded(h, id, outcome)
    case Patch(key, id, update) =>
      if h.view.key != key then h else h.(view := h.view.(entries := Patched(h.view.entries, id, update)))
    case Remove(key, id) =>
      if h.view.key != key then h else h.(view := h.view.(entries := Without(h.view.entries, id)))
    case Unmount => h.(open := Aborted(h.open), inFlight := None, mounted := false)
  }

  // --- invariants ---------------------------------------------------------------------------

  /** What is shown was fetched for the key it is shown under, each id once. */
  ghost predicate ViewHolds(view: View) { AllFrom(view.entries, view.key) && DistinctIds(view.entries) }

  /** The request is open and nothing aborted it. */
  predicate Live(h: Hook, i: nat) { i in h.open && !h.open[i].aborted }

  /** Requests that can still write are those of the effects in force: one first page, one continuation. */
  ghost predicate OpenHolds(h: Hook) {
    && (forall i :: i in h.open ==> i < h.nextId)
    && (forall i :: Live(h, i) ==> h.mounted && h.effects == Some(h.open[i].key) && h.open[i].source == h.open[i].key)
    && (forall i :: Live(h, i) && h.open[i].more ==> h.inFlight == Some(i))
    && (forall i, j :: Live(h, i) && Live(h, j) && !h.open[i].more && !h.open[j].more ==> i == j)
    && (h.inFlight.Some? ==> Live(h, h.inFlight.value) && h.open[h.inFlight.value].more)
    && (h.mounted && h.view.loadingMore ==> h.inFlight.Some? && h.open[h.inFlight.value].key == h.view.key)
  }

  ghost predicate Inv(h: Hook) { ViewHolds(h.view) && OpenHolds(h) }

  /** A call of `loadMore` that starts a request was rendered under the key whose effects are in force. */
  predicate Prompt(h: Hook, action: Action) {
    (action.LoadMore? && CanStartLoadMore(action.nextCursor, action.loadingMore, h.inFlight.Some?)) ==>
      h.effects == Some(action.key)
  }

  lemma PatchedKeeps(entries: seq<Entry>, id: int, update: int -> int, key: Key)
    requires DistinctIds(entries) && AllFrom(entries, key)
    ensures DistinctIds(Patched(entries, id, update)) && AllFrom(Patched(entries, id, update), key)
  {
  }

  /** Removing an id takes that id and no other. */
  lemma {:induction false} WithoutIds(entries: seq<Entry>, id: int)
    ensures Ids(Without(entries, id)) == Ids(entries) - {id}
  {
    hide Ids;
    if entries == [] {
      NoIds();
    } else {
      var front, last := entries[..|entries| - 1], entries[|entries| - 1];
      assert front + [last] == entries && Without(front, id) + [] == Without(front, id);
      WithoutIds(front, id);
      IdsSnoc(front, last);
      IdsSnoc(Without(front, id), last);
    }
  }

  lemma {:induction false} WithoutKeeps(entries: seq<Entry>, id: int, key: Key)
    requires DistinctIds(entries) && AllFrom(entries, key)
    ensures DistinctIds(Without(entries, id)) && AllFrom(Without(entries, id), key)
  {
    hide Ids, DistinctIds, AllFrom;
    if entries != [] {
      var front, last := entries[..|entries| - 1], entries[|entries| - 1];
      assert front + [last] == entries && Without(front, id) + [] == Without(front, id);
      AllFromSnoc(front, last, key);
      AllFromSnoc(Without(front, id), last, key);
      DistinctFront(front, last);
      WithoutKeeps(front, id, key);
      WithoutIds(front, id);
      if last.id != id {
        DistinctSnoc(Without(front, id), last);
      }
    }
  }

  lemma DistinctFront(front: seq<Entry>, last: Entry)
    requires DistinctIds(front + [last])
    ensures DistinctIds(front) && last.id !in Ids(front)
  {
    assert forall i :: 0 <= i < |front| ==> (front + [last])[i] == front[i];
    assert (front + [last])[|front|] == last;
  }

  /** A response that is written keeps what is shown under one key, ids apart. */
  lemma ShownKeeps(view: View, request: Request, outcome: Result<Page, string>)
    requires ViewHolds(view) && request.key == view.key && request.source == request.key
    requires outcome.Ok? ==> DistinctIds(outcome.value.entries) && AllFrom(outcome.value.entries, request.source)
    ensures ViewHolds(Shown(view, request, outcome))
  {
    if outcome.Ok? && request.more {
      MergedIs(view.entries, outcome.value.entries);
    }
  }

  lemma ViewKept(h: Hook, action: Action)
    requires Inv(h) && Enabled(h, action)
    ensures ViewHolds(Next(h, action).view)
  {
    match action {
      case Respond(id, outcome) =>
        if !h.open[id].aborted && h.view.key == h.open[id].key {
          ShownKeeps(h.view, h.open[id], outcome);
        }
      case Patch(key, id, update) => PatchedKeeps(h.view.entries, id, update, h.view.key);
      case Remove(key, id) => WithoutKeeps(h.view.entries, id, h.view.key);
      case _ =>
    }
  }

  lemma OpenKept(h: Hook, action: Action)
    requires Inv(h) && Enabled(h, action) && Prompt(h, action)
    ensures OpenHolds(Next(h, action))
  {
    hide Merged, Without, Patched, ViewHolds;
  }

  lemma ActionKeeps(h: Hook, action: Action)
    requires Inv(h) && Enabled(h, action) && Prompt(h, action)
    ensures Inv(Next(h, action))
  {
    hide ViewHolds, OpenHolds, Next, Enabled, Prompt;
    ViewKept(h, action);
    OpenKept(h, action);
  }

  // --- runs -----------------------------------------------------------------------------------

  ghost predicate IsRun(h: Hook, actions: seq<Action>)
    decreases |actions|
  {
    actions != [] ==>
      Enabled(h, actions[0]) && Prompt(h, actions[0]) && IsRun(Next(h, actions[0]), actions[1..])
  }

  function Run(h: Hook, actions: seq<Action>): Hook
    requires IsRun(h, actions)
    decreases |actions|
  {
    if actions == [] then h else Run(Next(h, actions[0]), actions[1..])
  }

  lemma {:induction false} RunKeeps(h: Hook, actions: seq<Action>)
    requires Inv(h) && IsRun(h, actions)
    ensures Inv(Run(h, actions))
    decreases |actions|
  {
    hide Inv, Next, Enabled, Prompt;
    if actions != [] {
      ActionKeeps(h, actions[0]);
      RunKeeps(Next(h, actions[0]), actions[1..]);
    }
  }

  /** Whatever the interleaving: entries of the current key only, each once, and one continuation at most. */
  lemma EntriesBelong(key: Key, actions: seq<Action>)
    requires IsRun(Mounted(key), actions)
    ensures var h := Run(Mounted(key), actions);
      && AllFrom(h.view.entries, h.view.key) && DistinctIds(h.view.entries)
      && (forall i, j :: Live(h, i) && Live(h, j) && h.open[i].more && h.open[j].more ==> i == j)
  {
    hide IsRun, Run;
    RunKeeps(Mounted(key), actions);
  }

  /** A spinner always has its request, so it cannot stay for want of a response. */
  lemma SpinnerHasRequest(key: Key, actions: seq<Action>, outcome: Result<Page, string>)
    requires IsRun(Mounted(key), actions)
    requires Run(Mounted(key), actions).mounted && Run(Mounted(key), actions).view.loadingMore
    ensures var h := Run(Mounted(key), actions);
      h.inFlight.Some? && h.inFlight.value in h.open && !Responded(h, h.inFlight.value, outcome).view.loadingMore
  {
    hide IsRun, Run, Merged;
    RunKeeps(Mounted(key), actions);
  }

  /** Once the effects of another key have run, or the component is gone, a request stays aborted. */
  lemma {:induction false} AbortedStays(h: Hook, actions: seq<Action>, i: nat)
    requires Inv(h) && IsRun(h, actions) && i in h.open && h.open[i].aborted
    ensures var g := Run(h, actions); i in g.open ==> g.open[i].aborted
    decreases |actions|
  {
    hide ViewHolds, FreshView, Shown;
    if actions != [] {
      var g := Next(h, actions[0]);
      ActionKeeps(h, actions[0]);
      assert i < h.nextId;
      if i in g.open {
        AbortedStays(g, actions[1..], i);
      } else {
        GoneStays(g, actions[1..], i);
      }
    }
  }

  lemma {:induction false} GoneStays(h: Hook, actions: seq<Action>, i: nat)
    requires IsRun(h, actions) && i !in h.open && i < h.nextId
    ensures i !in Run(h, actions).open
    decreases |actions|
  {
    hide FreshView, Shown;
    if actions != [] {
      GoneStays(Next(h, actions[0]), actions[1..], i);
    }
  }

  /** The first page's response and every continuation's are dropped once another key's effects have run. */
  lemma SupersededIsDropped(h: Hook, actions: seq<Action>, i: nat, outcome: Result<Page, string>)
    requires Inv(h) && i in h.open && (Enabled(h, Flush) || Enabled(h, Unmount))
    requires var g := Next(h, if Enabled(h, Flush) then Flush else Unmount);
      IsRun(g, actions) && i in Run(g, actions).open
    ensures var g := Run(Next(h, if Enabled(h, Flush) then Flush else Unmount), actions);
      Responded(g, i, outcome).view == g.view
  {
    hide IsRun, Run, Shown, ViewHolds, OpenHolds;
    var g := Next(h, if Enabled(h, Flush) then Flush else Unmount);
    ActionKeeps(h, if Enabled(h, Flush) then Flush else Unmount);
    assert i in g.open && g.open[i].aborted by { assert OpenHolds(h); IdIsOld(h, i); }
    AbortedStays(g, actions, i);
  }

  lemma IdIsOld(h: Hook, i: nat)
    requires OpenHolds(h) && i in h.open
    ensures i < h.nextId
  {
  }

  /** A continuation's response appends to what is shown, or leaves it. */
  lemma LoadingAppends(h: Hook, i: nat, outcome: Result<Page, string>)
    requires Inv(h) && Enabled(h, Respond(i, outcome)) && h.open[i].more
    ensures h.view.entries <= Responded(h, i, outcome).view.entries
    ensures (outcome.Ok? && Live(h, i) && h.view.key == h.open[i].key
             && Ids(h.view.entries) !! Ids(outcome.value.entries)) ==>
      Responded(h, i, outcome).view.entries == h.view.entries + outcome.value.entries
  {
    hide Merged, OpenHolds;
    if outcome.Ok? {
      MergedIs(h.view.entries, outcome.value.entries);
      if Ids(h.view.entries) !! Ids(outcome.value.entries) {
        NewPageIsAppended(h.view.entries, outcome.value.entries);
      }
    }
  }

  // --- what each event shows ------------------------------------------------------------------

  /**
   * A new component shows a spinner and asks for its first page; the answer shows the page and
   * its cursor, or the error. A resource that is switched off is ready at once and asks for nothing.
   */
  lemma FirstResponse(key: Key, outcome: Result<Page, string>)
    requires outcome.Ok? ==> DistinctIds(outcome.value.entries) && AllFrom(outcome.value.entries, key)
    ensures var h := Mounted(key);
      && h.view == View(key, [], if key.enabled then Loading else Ready, None, None, None, false)
      && Enabled(h, Flush)
      && var g := Next(h, Flush);
         && g.view == h.view && g.effects == Some(key) && (!key.enabled ==> g.open == map[])
         && (key.enabled ==>
               && g.open == map[0 := Request(key, key, false, None, false)] && Enabled(g, Respond(0, outcome))
               && Next(g, Respond(0, outcome)).view ==
                    match outcome
                    case Ok(page) => View(key, page.entries, Ready, None, None, page.nextCursor, false)
                    case Err(error) => View(key, [], Failed, Some(error), None, None, false))
  {
  }

  /** A continuation that was asked for, answered. */
  function Answered(view: View, outcome: Result<Page, string>): View {
    match outcome
    case Ok(page) =>
      View(view.key, Merged(view.entries, page.entries), view.status, view.error, None, page.nextCursor, false)
    case Err(error) =>
      View(view.key, view.entries, view.status, view.error, Some(error), view.nextCursor, false)
  }

  /**
   * With a cursor shown and nothing in flight, `loadMore` starts a request for that cursor, and
   * a second call starts none. The answer brings the page and its cursor, or an error with
   * entries and cursor as they were, and either way the reader can ask again.
   */
  lemma MoreResponse(h: Hook, cursor: string, outcome: Result<Page, string>)
    requires Inv(h) && h.mounted && h.effects == Some(h.view.key) && h.inFlight.None?
    requires h.view.nextCursor == Some(cursor)
    requires outcome.Ok? ==> DistinctIds(outcome.value.entries) && AllFrom(outcome.value.entries, h.view.key)
    ensures var call := LoadMore(h.view.key, Some(cursor), h.view.loadingMore);
      && Enabled(h, call)
      && var g := Next(h, call);
         && h.nextId in g.open && g.open[h.nextId] == Request(h.view.key, h.view.key, true, Some(cursor), false)
         && g.view == h.view.(loadingMore := true, loadMoreError := None)
         && Enabled(g, call) && Next(g, call) == g
         && Enabled(g, Respond(h.nextId, outcome))
         && var after := Next(g, Respond(h.nextId, outcome));
            after.view == Answered(h.view, outcome) && after.inFlight.None? && after.open == h.open
  {
    hide Merged, ViewHolds;
    assert h.nextId !in h.open;
    assert h.open[h.nextId := Request(h.view.key, h.view.key, true, Some(cursor), false)] - {h.nextId} == h.open;
  }

  /** Another key blanks the view; its effects abort what is open and ask for its own first page. */
  lemma KeyChange(h: Hook, key: Key)
    requires Inv(h) && h.mounted && h.effects == Some(h.view.key) && key != h.view.key && key.enabled
    ensures Enabled(h, Render(h.view.key)) && Next(h, Render(h.view.key)) == h
    ensures Enabled(h, Render(key))
    ensures var g := Next(h, Render(key));
      && g.view == View(key, [], Loading, None, None, None, false) && g.open == h.open && Enabled(g, Flush)
      && var f := Next(g, Flush);
         && f.view == g.view && f.effects == Some(key) && f.inFlight.None?
         && f.open.Keys == h.open.Keys + {h.nextId}
         && f.open[h.nextId] == Request(key, key, false, None, false)
         && forall i :: i in h.open ==> f.open[i].aborted
  {
    hide ViewHolds;
  }

  /** Patching rewrites the one entry, and nothing else of the view. */
  lemma PatchIs(h: Hook, id: int, update: int -> int)
    requires h.mounted
    ensures var g := Next(h, Patch(h.view.key, id, update));
      && g == h.(view := h.view.(entries := g.view.entries)) && |g.view.entries| == |h.view.entries|
      && forall i :: 0 <= i < |h.view.entries| ==>
           var e := h.view.entries[i];
           g.view.entries[i] == Entry(e.id, if e.id == id then update(e.body) else e.body, e.source)
  {
  }

  // --- a handler kept across a key change -----------------------------------------------------

  /** A call keeps what the hook relies on exactly when it starts nothing, or was made under the key in force. */
  lemma PromptIff(h: Hook, key: Key, nextCursor: Option<string>, loadingMore: bool)
    requires Inv(h) && Enabled(h, LoadMore(key, nextCursor, loadingMore))
    ensures Inv(LoadedMore(h, key, nextCursor, loadingMore)) <==> Prompt(h, LoadMore(key, nextCursor, loadingMore))
  {
    hide ViewHolds;
    var g := LoadedMore(h, key, nextCursor, loadingMore);
    if CanStartLoadMore(nextCursor, loadingMore, h.inFlight.Some?) && h.effects != Some(key) {
      assert Live(g, h.nextId);
    } else if h.effects == Some(key) {
      ActionKeeps(h, LoadMore(key, nextCursor, loadingMore));
    }
  }

  /**
   * A handler rendered under an earlier key, called after the new key's effects ran, fetches
   * with the new key's function and the old key's guard; going back to the old key before
   * the response shows the new key's entries under it.
   */
  lemma StaleHandlerMixes(h: Hook, key: Key, nextCursor: string, page: Page)
    requires Inv(h) && h.mounted && h.effects == Some(h.view.key) && h.inFlight.None? && key != h.view.key
    requires page.entries != [] && DistinctIds(page.entries) && AllFrom(page.entries, h.view.key)
    ensures var g := Next(LoadedMore(h, key, Some(nextCursor), false), Render(key));
      && Enabled(g, Respond(h.nextId, Ok(page)))
      && !AllFrom(Responded(g, h.nextId, Ok(page)).view.entries, key)
  {
    hide Merged, ViewHolds, OpenHolds;
    NewPageIsAppended([], page.entries);
    assert Ids([]) == {};
    assert [] + page.entries == page.entries;
    assert page.entries[0].source == h.view.key;
  }
}

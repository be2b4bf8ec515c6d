/** Sliding-window rate limiting: pruned and evicted queues against an unbounded log. */
module RateLimit {

  /** The client address a limiter counts by. */
  datatype Client = Client(address: string)

  /** What the limiter did to one key: accepted a hit, evicted the key, or forgot everything. */
  datatype Event = Accepted(key: Client, at: real) | Evicted(key: Client) | Reset

  const MAX_KEYS: nat := 8192

  // --- the log --------------------------------------------------------------------

  /** Times of the hits accepted for the key since it was last evicted. */
  function Hits(log: seq<Event>, key: Client): seq<real> {
    if log == [] then [] else
      var before := Hits(log[..|log| - 1], key);
      match log[|log| - 1]
      case Accepted(k, at) => if k == key then before + [at] else before
      case Evicted(k) => if k == key then [] else before
      case Reset => []
  }

  /** The times later than a cutoff. */
  function After(times: seq<real>, cutoff: real): seq<real> {
    if times == [] then [] else
      (if times[0] > cutoff then [times[0]] else []) + After(times[1..], cutoff)
  }

  /** Accepted hits of the key that lie in the window ending now. */
  function InWindow(log: seq<Event>, key: Client, now: real, window: real): nat {
    |After(Hits(log, key), now - window)|
  }

  predicate Ascending(times: seq<real>) {
    forall i, j :: 0 <= i < j < |times| ==> times[i] <= times[j]
  }

  /** Times in the log never decrease and none is later than `now`. */
  ghost predicate Timed(log: seq<Event>, now: real) {
    && (forall i :: 0 <= i < |log| && log[i].Accepted? ==> log[i].at <= now)
    && (forall i, j :: 0 <= i < j < |log| && log[i].Accepted? && log[j].Accepted? ==> log[i].at <= log[j].at)
  }

  /** Every hit in the log was let through with fewer than `limit` hits in its window. */
  ghost predicate Lawful(log: seq<Event>, limit: int, window: real) {
    log != [] ==>
      var front, last := log[..|log| - 1], log[|log| - 1];
      && Lawful(front, limit, window)
      && (last.Accepted? ==> InWindow(front, last.key, last.at, window) < limit)
  }

  lemma {:induction false} HitsAreTimed(log: seq<Event>, key: Client, now: real)
    requires Timed(log, now)
    ensures Ascending(Hits(log, key))
    ensures forall i :: 0 <= i < |Hits(log, key)| ==> Hits(log, key)[i] <= now
  {
    if log != [] {
      var front, last := log[..|log| - 1], log[|log| - 1];
      var until := if last.Accepted? then last.at else now;
      assert Timed(front, until);
      HitsAreTimed(front, key, until);
    }
  }

  lemma {:induction false} AfterAppend(times: seq<real>, at: real, cutoff: real)
    ensures After(times + [at], cutoff) == After(times, cutoff) + if at > cutoff then [at] else []
  {
    if times == [] {
      assert times + [at] == [at] && [at][1..] == [];
    } else {
      assert (times + [at])[1..] == times[1..] + [at];
      AfterAppend(times[1..], at, cutoff);
    }
  }

  lemma {:induction false} AfterLater(times: seq<real>, early: real, late: real)
    requires early <= late
    ensures After(After(times, early), late) == After(times, late)
    ensures |After(times, late)| <= |After(times, early)|
  {
    if times != [] {
      AfterLater(times[1..], early, late);
      var rest := After(times[1..], early);
      assert ([times[0]] + rest)[1..] == rest && ([times[0]] + rest)[0] == times[0];
      assert [] + rest == rest;
    }
  }

  lemma {:induction false} AfterNone(times: seq<real>, cutoff: real)
    requires forall i :: 0 <= i < |times| ==> times[i] <= cutoff
    ensures After(times, cutoff) == []
  {
    if times != [] {
      AfterNone(times[1..], cutoff);
    }
  }

  lemma {:induction false} AfterAscending(times: seq<real>, cutoff: real, k: nat)
    requires Ascending(times) && k <= |times|
    requires forall i :: 0 <= i < k ==> times[i] <= cutoff
    requires k < |times| ==> times[k] > cutoff
    ensures After(times, cutoff) == times[k..]
  {
    if times != [] {
      if k == 0 {
        AfterAscending(times[1..], cutoff, 0);
      } else {
        AfterAscending(times[1..], cutoff, k - 1);
      }
    }
  }

  /**
   * What the limiter is for: at any moment, the hits a key was granted since it was last
   * evicted and that fall in the window ending then number at most the limit.
   */
  lemma {:induction false} NeverOverLimit(log: seq<Event>, limit: int, window: real, key: Client, now: real)
    requires Timed(log, now) && Lawful(log, limit, window)
    ensures InWindow(log, key, now, window) <= if limit > 0 then limit else 0
  {
    if log != [] {
      var front, last := log[..|log| - 1], log[|log| - 1];
      assert Timed(front, now);
      NeverOverLimit(front, limit, window, key, now);
      if last.Accepted? && last.key == key {
        AfterAppend(Hits(front, key), last.at, now - window);
        AfterLater(Hits(front, key), last.at - window, now - window);
      }
    }
  }

  /** The event is a hit of the key after the cutoff, and nothing forgot the key since. */
  ghost predicate Counts(log: seq<Event>, key: Client, cutoff: real, i: nat)
    requires i < |log|
  {
    && log[i].Accepted? && log[i].key == key && log[i].at > cutoff
    && forall j :: i < j < |log| ==> !log[j].Reset? && !(log[j].Evicted? && log[j].key == key)
  }

  ghost function Counted(log: seq<Event>, key: Client, cutoff: real): set<nat> {
    set i: nat | i < |log| && Counts(log, key, cutoff, i)
  }

  lemma CountedSnoc(log: seq<Event>, key: Client, cutoff: real)
    requires log != []
    ensures var front, last := log[..|log| - 1], log[|log| - 1];
      Counted(log, key, cutoff) ==
        (if last.Reset? || (last.Evicted? && last.key == key) then {} else Counted(front, key, cutoff))
        + (if last.Accepted? && last.key == key && last.at > cutoff then {|log| - 1} else {})
  {
    var front, last := log[..|log| - 1], log[|log| - 1];
    assert forall i :: 0 <= i < |front| ==> front[i] == log[i];
    if !(last.Reset? || (last.Evicted? && last.key == key)) {
      forall i: nat | i < |front|
        ensures Counts(front, key, cutoff, i) <==> Counts(log, key, cutoff, i)
      {
      }
    }
  }

  /** The window counts the hits that came after its start and after the key was last forgotten. */
  lemma {:induction false} InWindowCounts(log: seq<Event>, key: Client, now: real, window: real)
    ensures InWindow(log, key, now, window) == |Counted(log, key, now - window)|
  {
    hide Counts;
    if log == [] {
      assert Counted(log, key, now - window) == {};
    } else {
      var front, last := log[..|log| - 1], log[|log| - 1];
      InWindowCounts(front, key, now, window);
      CountedSnoc(log, key, now - window);
      if last.Accepted? && last.key == key {
        AfterAppend(Hits(front, key), last.at, now - window);
      }
    }
  }

  /** The queue holds the later part of the hits; what it lacks is at or before the cutoff. */
  ghost predicate Follows(queue: seq<real>, hits: seq<real>, cutoff: real) {
    exists k :: 0 <= k <= |hits| && DroppedFront(queue, hits, cutoff, k)
  }

  ghost predicate DroppedFront(queue: seq<real>, hits: seq<real>, cutoff: real, k: nat)
    requires k <= |hits|
  {
    queue == hits[k..] && forall i :: 0 <= i < k ==> hits[i] <= cutoff
  }

  lemma {:induction false} AfterDropped(hits: seq<real>, k: nat, cutoff: real)
    requires k <= |hits| && forall i :: 0 <= i < k ==> hits[i] <= cutoff
    ensures After(hits, cutoff) == After(hits[k..], cutoff)
  {
    if k > 0 {
      AfterDropped(hits[1..], k - 1, cutoff);
      assert hits[1..][k - 1..] == hits[k..];
      assert [] + After(hits[1..], cutoff) == After(hits[1..], cutoff);
    } else {
      assert hits[0..] == hits;
    }
  }

  lemma FollowsAfter(queue: seq<real>, hits: seq<real>, early: real, late: real)
    requires Follows(queue, hits, early) && early <= late
    ensures After(queue, late) == After(hits, late)
  {
    var k :| 0 <= k <= |hits| && DroppedFront(queue, hits, early, k);
    AfterDropped(hits, k, late);
  }

  lemma {:induction false} AfterFollows(hits: seq<real>, cutoff: real)
    requires Ascending(hits)
    ensures Follows(After(hits, cutoff), hits, cutoff)
  {
    var k := 0;
    while k < |hits| && hits[k] <= cutoff
      invariant k <= |hits| && forall i :: 0 <= i < k ==> hits[i] <= cutoff
    {
      k := k + 1;
    }
    AfterAscending(hits, cutoff, k);
    assert DroppedFront(hits[k..], hits, cutoff, k);
  }

  lemma FollowsAppend(queue: seq<real>, hits: seq<real>, cutoff: real, at: real)
    requires Follows(queue, hits, cutoff)
    ensures Follows(queue + [at], hits + [at], cutoff)
  {
    var k :| 0 <= k <= |hits| && DroppedFront(queue, hits, cutoff, k);
    assert DroppedFront(queue + [at], hits + [at], cutoff, k);
  }

  lemma FollowsAscending(queue: seq<real>, hits: seq<real>, cutoff: real)
    requires Follows(queue, hits, cutoff) && Ascending(hits)
    ensures Ascending(queue)
  {
  }

  // --- evictions in the log -------------------------------------------------------

  function Evictions(gone: seq<Client>): seq<Event> {
    seq(|gone|, i requires 0 <= i < |gone| => Evicted(gone[i]))
  }

  lemma {:induction false} HitsAfterEvictions(log: seq<Event>, gone: seq<Client>, key: Client)
    ensures Hits(log + Evictions(gone), key) == if key in gone then [] else Hits(log, key)
  {
    if gone == [] {
      assert log + Evictions(gone) == log;
    } else {
      var front := gone[..|gone| - 1];
      var long := log + Evictions(gone);
      assert long[..|long| - 1] == log + Evictions(front);
      HitsAfterEvictions(log, front, key);
      assert gone == front + [gone[|gone| - 1]];
    }
  }

  lemma {:induction false} EvictionsKeepLog(log: seq<Event>, gone: seq<Client>, limit: int, window: real, now: real)
    requires Timed(log, now) && Lawful(log, limit, window)
    ensures Timed(log + Evictions(gone), now) && Lawful(log + Evictions(gone), limit, window)
  {
    hide Timed, Lawful;
    if gone == [] {
      assert log + Evictions(gone) == log;
    } else {
      var front, last := gone[..|gone| - 1], gone[|gone| - 1];
      EvictionsKeepLog(log, front, limit, window, now);
      EvictionKeepsLog(log + Evictions(front), last, limit, window, now);
      assert log + Evictions(gone) == log + Evictions(front) + [Evicted(last)];
    }
  }

  lemma EvictionKeepsLog(log: seq<Event>, gone: Client, limit: int, window: real, now: real)
    requires Timed(log, now) && Lawful(log, limit, window)
    ensures Timed(log + [Evicted(gone)], now) && Lawful(log + [Evicted(gone)], limit, window)
  {
    hide InWindow;
    assert (log + [Evicted(gone)])[..|log|] == log;
  }

  lemma HitKeepsLog(log: seq<Event>, key: Client, limit: int, window: real, now: real)
    requires Timed(log, now) && Lawful(log, limit, window) && InWindow(log, key, now, window) < limit
    ensures Timed(log + [Accepted(key, now)], now) && Lawful(log + [Accepted(key, now)], limit, window)
  {
    assert (log + [Accepted(key, now)])[..|log|] == log;
  }

  lemma HitsAfterHit(log: seq<Event>, key: Client, now: real, other: Client)
    ensures Hits(log + [Accepted(key, now)], other) == Hits(log, other) + if key == other then [now] else []
  {
    assert (log + [Accepted(key, now)])[..|log|] == log;
  }

  lemma HitsAfterReset(log: seq<Event>, key: Client)
    ensures Hits(log + [Reset], key) == []
  {
  }

  // --- the limiter ----------------------------------------------------------------

  /** `while events and events[0] <= cutoff: popleft()` */
  method DropFront(times: seq<real>, cutoff: real) returns (kept: seq<real>)
    requires Ascending(times)
    ensures kept == After(times, cutoff)
  {
    kept := times;
    ghost var k := 0;
    while kept != [] && kept[0] <= cutoff
      invariant 0 <= k <= |times| && kept == times[k..]
      invariant forall i :: 0 <= i < k ==> times[i] <= cutoff
      decreases |kept|
    {
      kept := kept[1..];
      k := k + 1;
    }
    AfterAscending(times, cutoff, k);
  }

  type Queues = map<Client, seq<real>>

  /** The queue of a key, empty when it is not tracked. */
  ghost function QueueOf(events: Queues, key: Client): seq<real> {
    if key in events then events[key] else []
  }

  /** Each queue is the log of its key less hits that had already left the window. */
  ghost predicate Tracks(events: Queues, log: seq<Event>, cutoff: real) {
    forall key :: Follows(QueueOf(events, key), Hits(log, key), cutoff)
  }

  /** Each queue holds exactly the hits of its key after the cutoff. */
  ghost predicate Exact(events: Queues, log: seq<Event>, cutoff: real) {
    forall key :: QueueOf(events, key) == After(Hits(log, key), cutoff)
  }

  ghost predicate OthersLive(events: Queues, key: Client) {
    forall k :: k in events && k != key ==> events[k] != []
  }

  function Last(times: seq<real>): real
    requires times != []
  {
    times[|times| - 1]
  }

  /** At most one key was evicted to make room, another one, and the least recent. */
  ghost predicate MadeRoom(was: Queues, events: Queues, key: Client, gone: seq<Client>) {
    if gone == [] then events == was else
      && |gone| == 1 && gone[0] in was && gone[0] != key && was[gone[0]] != [] && events == was - {gone[0]}
      && forall k :: k in events && k != key ==> events[k] != [] && Last(was[gone[0]]) <= Last(events[k])
  }

  /** Time of the key's latest hit still in the window, or the window's start. */
  ghost function LastHit(log: seq<Event>, key: Client, cutoff: real): real {
    var live := After(Hits(log, key), cutoff);
    if live == [] then cutoff else Last(live)
  }

  /** The evicted key's last hit is no later than that of any other key still tracked. */
  ghost predicate LeastRecentGone(was: seq<Event>, tracked: set<Client>, key: Client, gone: seq<Client>, cutoff: real) {
    && |gone| <= 1 && key !in gone
    && forall g, k :: g in gone && k in tracked && k != key ==> LastHit(was, g, cutoff) <= LastHit(was, k, cutoff)
  }

  /** The queues and the log agree, as of the last call. */
  ghost predicate Sound(events: Queues, log: seq<Event>, now: real, limit: int, window: real) {
    Timed(log, now) && Lawful(log, limit, window) && Tracks(events, log, now - window)
  }

  lemma EmptyTracks(log: seq<Event>, cutoff: real)
    requires forall key :: Hits(log, key) == []
    ensures Tracks(map[], log, cutoff)
  {
    forall key
      ensures Follows(QueueOf(map[], key), Hits(log, key), cutoff)
    {
      assert DroppedFront([], Hits(log, key), cutoff, 0);
    }
  }

  lemma ResetKeepsLog(log: seq<Event>, now: real, limit: int, window: real)
    requires Timed(log, now) && Lawful(log, limit, window)
    ensures Timed(log + [Reset], now) && Lawful(log + [Reset], limit, window)
  {
    assert (log + [Reset])[..|log|] == log;
  }

  /** Forgetting everything leaves empty queues in agreement with the log. */
  lemma ResetIsSound(events: Queues, log: seq<Event>, now: real, limit: int, window: real)
    requires Sound(events, log, now, limit, window)
    ensures Sound(map[], log + [Reset], now, limit, window)
  {
    hide Timed, Lawful, Hits, Tracks;
    ResetKeepsLog(log, now, limit, window);
    forall k
      ensures Hits(log + [Reset], k) == []
    {
      HitsAfterReset(log, k);
    }
    EmptyTracks(log + [Reset], now - window);
  }

  lemma TrackedQueue(events: Queues, log: seq<Event>, now: real, early: real, late: real, key: Client)
    requires Tracks(events, log, early) && Timed(log, now) && (log != [] ==> early <= late)
    ensures Ascending(QueueOf(events, key))
    ensures After(QueueOf(events, key), late) == After(Hits(log, key), late)
  {
    HitsAreTimed(log, key, now);
    FollowsAscending(QueueOf(events, key), Hits(log, key), early);
    if log != [] {
      FollowsAfter(QueueOf(events, key), Hits(log, key), early, late);
    } else {
      assert Hits(log, key) == [];
    }
  }

  /** Half way through the pruning: the keys still to do are as they were. */
  ghost predicate Pruning(was: Queues, events: Queues, todo: set<Client>, key: Client, cutoff: real) {
    && todo <= events.Keys <= was.Keys
    && (forall k :: k in todo ==> events[k] == was[k])
    && (forall k :: k in was && k !in todo ==> QueueOf(events, k) == After(was[k], cutoff))
    && (forall k :: k in events && k !in todo && k != key ==> events[k] != [])
  }

  lemma PruneStep(was: Queues, events: Queues, todo: set<Client>, key: Client, cutoff: real, tracked: Client)
    requires Pruning(was, events, todo, key, cutoff) && tracked in todo
    ensures events[tracked] == was[tracked]
    ensures var times := After(was[tracked], cutoff);
      && (times != [] || tracked == key ==> Pruning(was, events[tracked := times], todo - {tracked}, key, cutoff))
      && (times == [] && tracked != key ==> Pruning(was, events - {tracked}, todo - {tracked}, key, cutoff))
  {
  }

  lemma QueuesAscend(events: Queues, log: seq<Event>, now: real, limit: int, window: real)
    requires Sound(events, log, now, limit, window)
    ensures forall k :: k in events ==> Ascending(events[k])
  {
    forall k | k in events
      ensures Ascending(events[k])
    {
      TrackedQueue(events, log, now, now - window, now - window, k);
    }
  }

  lemma PrunedIsExact(
      was: Queues, events: Queues, log: seq<Event>, last: real, now: real, limit: int, window: real, key: Client)
    requires Sound(was, log, last, limit, window) && (log != [] ==> last <= now)
    requires Pruning(was, events, {}, key, now - window)
    ensures Exact(events, log, now - window) && OthersLive(events, key) && |events| <= |was|
  {
    hide Hits, Follows;
    forall k
      ensures QueueOf(events, k) == After(Hits(log, k), now - window)
    {
      TrackedQueue(was, log, last, last - window, now - window, k);
    }
    SubsetSize(events.Keys, was.Keys);
  }

  lemma ExactTracks(events: Queues, log: seq<Event>, now: real, cutoff: real)
    requires Exact(events, log, cutoff) && Timed(log, now)
    ensures Tracks(events, log, cutoff)
  {
    forall key
      ensures Follows(QueueOf(events, key), Hits(log, key), cutoff)
    {
      HitsAreTimed(log, key, now);
      AfterFollows(Hits(log, key), cutoff);
    }
  }

  /** Logging the eviction keeps the queues exact. */
  lemma EvictionIsExact(was: Queues, events: Queues, log: seq<Event>, key: Client, gone: seq<Client>, cutoff: real)
    requires Exact(was, log, cutoff) && MadeRoom(was, events, key, gone)
    ensures Exact(events, log + Evictions(gone), cutoff)
    ensures Hits(log + Evictions(gone), key) == Hits(log, key)
    ensures LeastRecentGone(log, events.Keys + {key}, key, gone, cutoff)
  {
    HitsAfterEvictions(log, gone, key);
    forall k
      ensures QueueOf(events, k) == After(Hits(log + Evictions(gone), k), cutoff)
    {
      HitsAfterEvictions(log, gone, k);
      assert QueueOf(was, k) == After(Hits(log, k), cutoff);
    }
    forall g, k | g in gone && k in events && k != key
      ensures LastHit(log, g, cutoff) <= LastHit(log, k, cutoff)
    {
      assert g == gone[0];
      assert QueueOf(was, g) == After(Hits(log, g), cutoff) && QueueOf(was, k) == After(Hits(log, k), cutoff);
    }
  }

  /** `setdefault(key, deque())` */
  function Tracked(events: Queues, key: Client): Queues {
    if key in events then events else events[key := []]
  }

  lemma TrackedIsExact(events: Queues, log: seq<Event>, key: Client, cutoff: real)
    requires Exact(events, log, cutoff)
    ensures Exact(Tracked(events, key), log, cutoff)
    ensures Tracked(events, key).Keys == events.Keys + {key}
    ensures |Tracked(events, key)| == |events| + if key in events then 0 else 1
    ensures Tracked(events, key)[key] == After(Hits(log, key), cutoff)
  {
    forall k
      ensures QueueOf(Tracked(events, key), k) == After(Hits(log, k), cutoff)
    {
      assert QueueOf(events, k) == After(Hits(log, k), cutoff);
    }
    assert QueueOf(events, key) == After(Hits(log, key), cutoff);
  }

  /** The queues were pruned, room was made, and the key is tracked. */
  ghost predicate Settled(was: Queues, events: Queues, key: Client, gone: seq<Client>, cutoff: real) {
    exists pruned, roomy ::
      Pruning(was, pruned, {}, key, cutoff) && MadeRoom(pruned, roomy, key, gone) && events == Tracked(roomy, key)
  }

  lemma PrunedKeys(was: Queues, pruned: Queues, key: Client, cutoff: real)
    requires Pruning(was, pruned, {}, key, cutoff)
    ensures OthersLive(pruned, key) && |pruned| <= |was|
  {
    hide After;
    SubsetSize(pruned.Keys, was.Keys);
  }

  lemma TrackedKeys(events: Queues, key: Client)
    ensures Tracked(events, key).Keys == events.Keys + {key}
    ensures |Tracked(events, key)| == |events| + if key in events then 0 else 1
  {
  }

  /** Once the eviction is logged, queues and log are in agreement again. */
  lemma SettledIsSound(
      was: Queues, events: Queues, log: seq<Event>, last: real, now: real, limit: int, window: real,
      key: Client, gone: seq<Client>)
    requires Sound(was, log, last, limit, window) && (log != [] ==> last <= now)
    requires Settled(was, events, key, gone, now - window)
    ensures Sound(events, log + Evictions(gone), now, limit, window) && key in events
    ensures |events[key]| == InWindow(log, key, now, window) == InWindow(log + Evictions(gone), key, now, window)
    ensures LeastRecentGone(log, events.Keys, key, gone, now - window)
  {
    hide Hits, After, Lawful, Tracks, Exact, LeastRecentGone, MadeRoom, Pruning, Tracked, Evictions;
    var cutoff := now - window;
    var pruned, roomy :|
      Pruning(was, pruned, {}, key, cutoff) && MadeRoom(pruned, roomy, key, gone) && events == Tracked(roomy, key);
    PrunedIsExact(was, pruned, log, last, now, limit, window, key);
    EvictionIsExact(pruned, roomy, log, key, gone, cutoff);
    EvictionsKeepLog(log, gone, limit, window, now);
    TrackedIsExact(roomy, log + Evictions(gone), key, cutoff);
    ExactTracks(events, log + Evictions(gone), now, cutoff);
  }

  lemma HitTracks(events: Queues, log: seq<Event>, key: Client, now: real, cutoff: real)
    requires Tracks(events, log, cutoff) && key in events
    ensures Tracks(events[key := events[key] + [now]], log + [Accepted(key, now)], cutoff)
  {
    var after := events[key := events[key] + [now]];
    forall k
      ensures Follows(QueueOf(after, k), Hits(log + [Accepted(key, now)], k), cutoff)
    {
      HitsAfterHit(log, key, now, k);
      assert Follows(QueueOf(events, k), Hits(log, k), cutoff);
      if k == key {
        FollowsAppend(events[key], Hits(log, key), cutoff, now);
      } else {
        assert Hits(log, k) + [] == Hits(log, k);
      }
    }
  }

  lemma HitIsRecorded(events: Queues, log: seq<Event>, key: Client, limit: int, window: real, now: real)
    requires Sound(events, log, now, limit, window)
    requires key in events && InWindow(log, key, now, window) < limit
    ensures Sound(events[key := events[key] + [now]], log + [Accepted(key, now)], now, limit, window)
    ensures events[key := events[key] + [now]].Keys == events.Keys
  {
    HitKeepsLog(log, key, limit, window, now);
    HitTracks(events, log, key, now, now - window);
    assert events[key := events[key] + [now]].Keys == events.Keys;
  }

  lemma RemoveOne(events: Queues, key: Client)
    requires key in events
    ensures |events - {key}| == |events| - 1
  {
    assert (events - {key}).Keys == events.Keys - {key};
  }

  lemma OnlyKey(events: Queues, key: Client)
    requires |events| >= 1 && forall k :: k in events ==> k == key
    ensures events.Keys == {key}
  {
    var k :| k in events.Keys;
    assert events.Keys == {key};
  }

  lemma SubsetSize<T>(a: set<T>, b: set<T>)
    requires a <= b
    ensures |a| <= |b|
  {
    if a != {} {
      var x :| x in a;
      SubsetSize(a - {x}, b - {x});
    }
  }

  class SlidingWindowLimiter {
    const limit: int
    const window: real
    const maxKeys: nat
    var events: Queues
    ghost var log: seq<Event>
    ghost var lastCall: real

    ghost predicate Valid()
      reads this
    {
      maxKeys >= 1 && |events| <= maxKeys && Sound(events, log, lastCall, limit, window)
    }

    constructor (limit: int, window: real, maxKeys: nat := MAX_KEYS)
      requires maxKeys >= 1
      ensures Valid() && log == [] && this.limit == limit && this.window == window && this.maxKeys == maxKeys
    {
      this.limit, this.window, this.maxKeys := limit, window, maxKeys;
      events, log, lastCall := map[], [], 0.0;
      EmptyTracks([], 0.0 - window);
    }

    /** Drops the hits that left the window, and every other key left with none. */
    method DropOld(key: Client, cutoff: real)
      requires forall k :: k in events ==> Ascending(events[k])
      modifies this`events
      ensures Pruning(old(events), events, {}, key, cutoff)
    {
      ghost var was := events;
      var todo := events.Keys;
      while todo != {}
        invariant Pruning(was, events, todo, key, cutoff)
        decreases todo
      {
        var tracked :| tracked in todo;
        var times := DropFront(events[tracked], cutoff);
        PruneStep(was, events, todo, key, cutoff, tracked);
        todo := todo - {tracked};
        if times == [] && tracked != key {
          events := events - {tracked};
        } else {
          events := events[tracked := times];
        }
      }
    }

    /** The other key whose last hit is oldest. */
    method LeastRecent(key: Client) returns (found: bool, stale: Client)
      requires OthersLive(events, key)
      ensures !found ==> forall k :: k in events ==> k == key
      ensures found ==> stale in events && stale != key
      ensures found ==> forall k :: k in events && k != key ==> Last(events[stale]) <= Last(events[k])
    {
      found, stale := false, key;
      var todo := events.Keys - {key};
      while todo != {}
        invariant todo <= events.Keys - {key}
        invariant found ==> stale in events && stale != key
        invariant !found ==> todo == events.Keys - {key}
        invariant found ==> forall k :: k in events && k != key && k !in todo ==> Last(events[stale]) <= Last(events[k])
        decreases todo
      {
        var k :| k in todo;
        todo := todo - {k};
        if !found || Last(events[k]) < Last(events[stale]) {
          found, stale := true, k;
        }
      }
      assert forall k :: k in events && k != key ==> k in events.Keys - {key};
    }

    /** Evicts other keys, least recently active first, until there is room. */
    method MakeRoom(key: Client) returns (ghost gone: seq<Client>)
      requires maxKeys >= 1 && |events| <= maxKeys && OthersLive(events, key)
      modifies this`events
      ensures MadeRoom(old(events), events, key, gone)
      ensures gone != [] ==> |old(events)| == maxKeys
      ensures |events| < maxKeys || (events.Keys == {key} && |events| <= maxKeys)
    {
      gone := [];
      ghost var was := events;
      while |events| >= maxKeys
        invariant |events| <= maxKeys && (gone != [] ==> |events| < maxKeys && |was| == maxKeys)
        invariant MadeRoom(was, events, key, gone)
        decreases |events|
      {
        var found, stale := LeastRecent(key);
        if !found {
          OnlyKey(events, key);
          break;
        }
        RemoveOne(events, stale);
        gone := [stale];
        events := events - {stale};
      }
    }

    /** Drops what left the window, makes room, and tracks the key. */
    method Settle(key: Client, cutoff: real) returns (ghost gone: seq<Client>)
      requires maxKeys >= 1 && |events| <= maxKeys && forall k :: k in events ==> Ascending(events[k])
      modifies this`events
      ensures Settled(old(events), events, key, gone, cutoff) && |events| <= maxKeys
    {
      hide Hits, After, Ascending, Last;
      ghost var was := events;
      DropOld(key, cutoff);
      ghost var pruned := events;
      PrunedKeys(was, pruned, key, cutoff);
      gone := MakeRoom(key);
      ghost var roomy := events;
      events := Tracked(events, key);
      TrackedKeys(roomy, key);
      assert Pruning(was, pruned, {}, key, cutoff) && MadeRoom(pruned, roomy, key, gone)
        && events == Tracked(roomy, key);
    }

    /** The shared first half of both calls. */
    method Prune(key: Client, now: real) returns (ghost gone: seq<Client>)
      requires Valid() && (log != [] ==> now >= lastCall)
      modifies this
      ensures Valid() && lastCall == now && key in events
      ensures log == old(log) + Evictions(gone)
      ensures |events[key]| == InWindow(old(log), key, now, window) == InWindow(log, key, now, window)
      ensures LeastRecentGone(old(log), events.Keys, key, gone, now - window)
    {
      hide Sound, Hits, After, InWindow, Evictions, LastHit, LeastRecentGone, Settled, Ascending;
      QueuesAscend(events, log, lastCall, limit, window);
      ghost var was := events;
      gone := Settle(key, now - window);
      SettledIsSound(was, events, log, lastCall, now, limit, window, key, gone);
      log, lastCall := log + Evictions(gone), now;
    }

    /** Records an event; false once the key is over its limit. */
    method Hit(key: Client, now: real) returns (ok: bool, ghost gone: seq<Client>)
      requires Valid() && (log != [] ==> now >= lastCall)
      modifies this
      ensures Valid() && lastCall == now && key in events
      ensures ok <==> InWindow(old(log), key, now, window) < limit
      ensures log == old(log) + Evictions(gone) + if ok then [Accepted(key, now)] else []
      ensures LeastRecentGone(old(log), events.Keys, key, gone, now - window)
    {
      gone := Prune(key, now);
      if |events[key]| >= limit {
        assert log + [] == log;
        return false, gone;
      }
      HitIsRecorded(events, log, key, limit, window, now);
      events := events[key := events[key] + [now]];
      log := log + [Accepted(key, now)];
      return true, gone;
    }

    /** A check that consumes no budget. */
    method IsLimited(key: Client, now: real) returns (limited: bool, ghost gone: seq<Client>)
      requires Valid() && (log != [] ==> now >= lastCall)
      modifies this
      ensures Valid() && lastCall == now
      ensures limited <==> InWindow(old(log), key, now, window) >= limit
      ensures log == old(log) + Evictions(gone) && LeastRecentGone(old(log), events.Keys, key, gone, now - window)
    {
      gone := Prune(key, now);
      limited := |events[key]| >= limit;
    }

    method Clear()
      requires Valid()
      modifies this
      ensures Valid() && log == old(log) + [Reset] && events == map[]
    {
      hide Sound;
      ResetIsSound(events, log, lastCall, limit, window);
      events := map[];
      log := log + [Reset];
    }
  }
}

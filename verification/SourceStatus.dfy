/** When a source is due again, and what survives a restart of the process. */
module SourceStatus {
  import opened Text

  const MINUTE := 60_000_000  // microseconds
  const MAX_BACKOFF_MINUTES: nat := 360
  const MAX_DETAIL: nat := 500

  /** What the process remembers of a source. */
  datatype Status = Status(
    slug: string, lastAttemptAt: Option<int>, lastSuccessAt: Option<int>, lastFailureAt: Option<int>,
    errorClass: Option<string>, errorDetail: Option<string>, failures: nat,
    itemCount: nat, insertedCount: nat, nextDueAt: Option<int>)

  /** The row that outlives the process. An icon found before any outcome leaves the rest at its defaults. */
  datatype Row = Row(
    lastFetchedAt: Option<int>, lastSuccessAt: Option<int>, errorClass: Option<string>, errorDetail: Option<string>,
    failures: nat, icon: Option<string>)

  const NO_STATUS := Status("", None, None, None, None, None, 0, 0, 0, None)

  const NO_ROW := Row(None, None, None, None, 0, None)

  datatype State = State(memory: map<int, Status>, rows: map<int, Row>)

  // --- intervals ----------------------------------------------------------------------------

  function Power2(n: nat): (p: nat)
    ensures p >= 1
  {
    if n == 0 then 1 else 2 * Power2(n - 1)
  }

  function Min(a: int, b: int): int { if a <= b then a else b }

  function BackoffMinutes(minutes: nat, failures: nat): nat
    requires failures >= 1
  {
    Min(minutes * Min(Power2(failures - 1), 16), MAX_BACKOFF_MINUTES)
  }

  function Interval(minutes: nat, failures: nat): int {
    (if failures == 0 then minutes else BackoffMinutes(minutes, failures)) * MINUTE
  }

  lemma {:induction false} Power2Grows(n: nat, k: nat)
    requires n <= k
    ensures Power2(n) <= Power2(k)
  {
    if n < k {
      Power2Grows(n, k - 1);
    }
  }

  /** More failures never shorten the wait, and six hours is the longest. */
  lemma BackoffGrows(minutes: nat, few: nat, many: nat)
    requires 1 <= few <= many
    ensures BackoffMinutes(minutes, few) <= BackoffMinutes(minutes, many) <= MAX_BACKOFF_MINUTES
  {
    Power2Grows(few - 1, many - 1);
    var a, b := Min(Power2(few - 1), 16), Min(Power2(many - 1), 16);
    assert minutes * a <= minutes * b;
  }

  /**
   * The wait in microseconds: the interval itself while all is well; after failures the
   * interval, then twice that, and so on to sixteen times, and never more than six hours.
   */
  lemma WaitsDouble(minutes: nat, failures: nat)
    ensures Interval(minutes, 0) == minutes * 60_000_000
    ensures Interval(minutes, 1) == Min(minutes, 360) * 60_000_000
    ensures 1 <= failures < 5 ==>
      Interval(minutes, failures + 1) == Min(2 * Interval(minutes, failures), 360 * 60_000_000)
    ensures failures >= 5 ==> Interval(minutes, failures + 1) == Interval(minutes, failures)
  {
    assert Power2(0) == 1 && Power2(1) == 2 && Power2(2) == 4 && Power2(3) == 8 && Power2(4) == 16;
    if failures >= 5 {
      Power2Grows(4, failures - 1);
      Power2Grows(4, failures);
    }
  }

  /** Failing keeps a source waiting at least its ordinary interval exactly when that is at most six hours. */
  lemma BackoffCoversIntervalIff(minutes: nat, failures: nat)
    requires failures >= 1
    ensures BackoffMinutes(minutes, failures) >= minutes <==> minutes <= MAX_BACKOFF_MINUTES
  {
    var factor := Min(Power2(failures - 1), 16);
    assert minutes * factor >= minutes;
  }

  // --- the operations -----------------------------------------------------------------------

  /** The stored status, made a row; the icon column is another writer's. */
  function Persisted(rows: map<int, Row>, id: int, status: Status): map<int, Row> {
    rows[id := Row(status.lastAttemptAt, status.lastSuccessAt, status.errorClass, status.errorDetail, status.failures,
                   if id in rows then rows[id].icon else None)]
  }

  function Current(s: State, id: int): Status { if id in s.memory then s.memory[id] else NO_STATUS }

  function Updated(s: State, id: int, status: Status): State {
    State(s.memory[id := status], Persisted(s.rows, id, status))
  }

  function Succeeded(s: State, id: int, slug: string, minutes: nat, items: nat, inserted: nat, now: int): State {
    Updated(s, id, Current(s, id).(
      slug := slug, lastAttemptAt := Some(now), lastSuccessAt := Some(now), errorClass := None, errorDetail := None,
      failures := 0, itemCount := items, insertedCount := inserted, nextDueAt := Some(now + minutes * MINUTE)))
  }

  function Clip(detail: string): string { if |detail| <= MAX_DETAIL then detail else detail[..MAX_DETAIL] }

  /** The count goes on from memory, or from the row when the process has none. */
  function Failed(s: State, id: int, slug: string, minutes: nat, errorClass: string, detail: string, now: int): State {
    var (failures, lastSuccessAt) :=
      if id in s.memory then (s.memory[id].failures + 1, s.memory[id].lastSuccessAt)
      else if id in s.rows then (s.rows[id].failures + 1, s.rows[id].lastSuccessAt)
      else (1, None);
    Updated(s, id, Current(s, id).(
      slug := slug, lastAttemptAt := Some(now), lastSuccessAt := lastSuccessAt, lastFailureAt := Some(now),
      errorClass := Some(errorClass), errorDetail := Some(Clip(detail)), failures := failures,
      nextDueAt := Some(now + BackoffMinutes(minutes, failures) * MINUTE)))
  }

  function IsDue(s: State, id: int, minutes: Option<nat>, now: int): bool {
    if id in s.memory then s.memory[id].nextDueAt.None? || s.memory[id].nextDueAt.value <= now
    else if id !in s.rows || s.rows[id].lastFetchedAt.None? || minutes.None? then true
    else s.rows[id].lastFetchedAt.value + Interval(minutes.value, s.rows[id].failures) <= now
  }

  function IconFound(rows: map<int, Row>, id: int, icon: Option<string>): map<int, Row> {
    if icon.None? then rows
    else rows[id := (if id in rows then rows[id] else NO_ROW).(icon := icon)]
  }

  /** The registry of one process, over rows it shares with those before and after it. */
  class SourceStatusRegistry {
    var memory: map<int, Status>
    var rows: map<int, Row>

    ghost function Contents(): State
      reads this
    {
      State(memory, rows)
    }

    /** A process starts knowing nothing but the rows. */
    constructor (rows: map<int, Row>)
      ensures Contents() == State(map[], rows)
    {
      this.memory := map[];
      this.rows := rows;
    }

    method Due(id: int, minutes: Option<nat>, now: int) returns (due: bool)
      ensures due == IsDue(Contents(), id, minutes, now)
    {
      if id in memory {
        return memory[id].nextDueAt.None? || memory[id].nextDueAt.value <= now;
      }
      if id !in rows || rows[id].lastFetchedAt.None? || minutes.None? {
        return true;
      }
      return rows[id].lastFetchedAt.value + Interval(minutes.value, rows[id].failures) <= now;
    }

    method RecordSuccess(id: int, slug: string, minutes: nat, items: nat, inserted: nat, now: int)
      modifies this
      ensures Contents() == Succeeded(old(Contents()), id, slug, minutes, items, inserted, now)
      ensures id in memory && memory[id].slug == slug && memory[id].itemCount == items
      ensures memory[id].insertedCount == inserted && memory[id].nextDueAt == Some(now + minutes * 60_000_000)
      ensures id in rows && rows[id] ==
        Row(Some(now), Some(now), None, None, 0, if id in old(rows) then old(rows)[id].icon else None)
      ensures forall other :: other != id ==> (other in rows <==> other in old(rows))
      ensures forall other :: other != id && other in rows ==> rows[other] == old(rows)[other]
    {
      var current := if id in memory then memory[id] else NO_STATUS;
      Update(id, current.(
        slug := slug, lastAttemptAt := Some(now), lastSuccessAt := Some(now), errorClass := None, errorDetail := None,
        failures := 0, itemCount := items, insertedCount := inserted, nextDueAt := Some(now + minutes * MINUTE)));
    }

    method RecordFailure(id: int, slug: string, minutes: nat, errorClass: string, detail: string, now: int)
      modifies this
      ensures Contents() == Failed(old(Contents()), id, slug, minutes, errorClass, detail, now)
      ensures id in memory && memory[id].slug == slug && memory[id].lastFailureAt == Some(now)
      ensures memory[id].nextDueAt == Some(now + Interval(minutes, memory[id].failures))
      ensures id in rows && rows[id].lastFetchedAt == Some(now) && rows[id].errorClass == Some(errorClass)
      ensures rows[id].errorDetail == Some(if |detail| <= 500 then detail else detail[..500])
      ensures rows[id].icon == if id in old(rows) then old(rows)[id].icon else None
      ensures forall other :: other != id ==> (other in rows <==> other in old(rows))
      ensures forall other :: other != id && other in rows ==> rows[other] == old(rows)[other]
    {
      var failures, lastSuccessAt := 1, None;
      if id in memory {
        failures, lastSuccessAt := memory[id].failures + 1, memory[id].lastSuccessAt;
      } else if id in rows {
        failures, lastSuccessAt := rows[id].failures + 1, rows[id].lastSuccessAt;
      }
      var current := if id in memory then memory[id] else NO_STATUS;
      Update(id, current.(
        slug := slug, lastAttemptAt := Some(now), lastSuccessAt := lastSuccessAt, lastFailureAt := Some(now),
        errorClass := Some(errorClass), errorDetail := Some(Clip(detail)), failures := failures,
        nextDueAt := Some(now + BackoffMinutes(minutes, failures) * MINUTE)));
    }

    method Update(id: int, status: Status)
      modifies this
      ensures Contents() == Updated(old(Contents()), id, status)
    {
      memory := memory[id := status];
      rows := Persisted(rows, id, status);
    }

    method Forget(id: int)
      modifies this`memory
      ensures memory == old(memory) - {id}
    {
      memory := memory - {id};
    }

    /** An absent icon leaves the last good one. */
    method RecordDiscoveredIcon(id: int, icon: Option<string>) returns (moved: bool)
      modifies this`rows
      ensures rows == IconFound(old(rows), id, icon)
      ensures icon.Some? ==> id in rows && rows[id].icon == icon
      ensures icon.None? ==> rows == old(rows)
      ensures moved <==> rows != old(rows)
    {
      if icon.None? {
        return false;
      }
      if id in rows {
        if rows[id].icon == icon {
          assert rows[id := rows[id]] == rows;
          return false;
        }
        rows := rows[id := rows[id].(icon := icon)];
        return true;
      }
      rows := rows[id := NO_ROW.(icon := icon)];
      return true;
    }
  }

  // --- runs ---------------------------------------------------------------------------------

  datatype Event =
    | Success(id: int, slug: string, minutes: nat, items: nat, inserted: nat, now: int)
    | Failure(id: int, slug: string, minutes: nat, errorClass: string, detail: string, now: int)
    | Icon(id: int, icon: Option<string>)
    | Forget(id: int)
    | Restart

  function After(s: State, event: Event): State {
    match event
    case Success(id, slug, minutes, items, inserted, now) => Succeeded(s, id, slug, minutes, items, inserted, now)
    case Failure(id, slug, minutes, errorClass, detail, now) => Failed(s, id, slug, minutes, errorClass, detail, now)
    case Icon(id, icon) => s.(rows := IconFound(s.rows, id, icon))
    case Forget(id) => s.(memory := s.memory - {id})
    case Restart => s.(memory := map[])
  }

  function Run(run: seq<Event>): State {
    if run == [] then State(map[], map[]) else After(Run(run[..|run| - 1]), run[|run| - 1])
  }

  /** What the outcomes alone say of a source. */
  datatype Record = Record(lastAttemptAt: Option<int>, lastSuccessAt: Option<int>, trailingFailures: nat)

  /** One outcome as the record sees it. */
  function Recorded(before: Record, event: Event, id: int): Record {
    match event
    case Success(i, _, _, _, _, now) => if i == id then Record(Some(now), Some(now), 0) else before
    case Failure(i, _, _, _, _, now) =>
      if i == id then Record(Some(now), before.lastSuccessAt, before.trailingFailures + 1) else before
    case _ => before
  }

  /** Read off the outcomes, newest last: restarts, forgetting and icons do not figure. */
  function Outcomes(run: seq<Event>, id: int): Record {
    if run == [] then Record(None, None, 0) else Recorded(Outcomes(run[..|run| - 1], id), run[|run| - 1], id)
  }

  /** The operator leaves the source's interval alone. */
  predicate Steady(run: seq<Event>, id: int, minutes: nat) {
    forall i :: 0 <= i < |run| && (run[i].Success? || run[i].Failure?) && run[i].id == id ==> run[i].minutes == minutes
  }

  ghost predicate Tracks(s: State, record: Record, id: int, minutes: nat) {
    && (id in s.rows ==>
          && s.rows[id].lastFetchedAt == record.lastAttemptAt && s.rows[id].lastSuccessAt == record.lastSuccessAt
          && s.rows[id].failures == record.trailingFailures)
    && (id !in s.rows ==> record == Record(None, None, 0))
    && (id in s.memory ==>
          && record.lastAttemptAt.Some? && s.memory[id].lastAttemptAt == record.lastAttemptAt
          && s.memory[id].lastSuccessAt == record.lastSuccessAt && s.memory[id].failures == record.trailingFailures
          && s.memory[id].nextDueAt == Some(record.lastAttemptAt.value + Interval(minutes, record.trailingFailures)))
  }

  lemma StepTracks(s: State, record: Record, event: Event, id: int, minutes: nat)
    requires Tracks(s, record, id, minutes)
    requires (event.Success? || event.Failure?) && event.id == id ==> event.minutes == minutes
    ensures Tracks(After(s, event), Recorded(record, event, id), id, minutes)
  {
    hide BackoffMinutes, Clip;
  }

  lemma {:induction false} RunTracks(run: seq<Event>, id: int, minutes: nat)
    requires Steady(run, id, minutes)
    ensures Tracks(Run(run), Outcomes(run, id), id, minutes)
  {
    hide After, Recorded, Interval;
    if run != [] {
      var front := run[..|run| - 1];
      assert Steady(front, id, minutes);
      RunTracks(front, id, minutes);
      StepTracks(Run(front), Outcomes(front, id), run[|run| - 1], id, minutes);
    }
  }

  /**
   * Wherever the process restarted, a source is due by its last attempt and its trailing
   * failures, and the stored failure count and last success are those of the outcomes.
   */
  lemma DueByOutcomes(run: seq<Event>, id: int, minutes: nat, now: int)
    requires Steady(run, id, minutes)
    ensures var s, record := Run(run), Outcomes(run, id);
      && (IsDue(s, id, Some(minutes), now) <==>
            || record.lastAttemptAt.None?
            || record.lastAttemptAt.value + Interval(minutes, record.trailingFailures) <= now)
      && (if id in s.rows
          then s.rows[id].failures == record.trailingFailures && s.rows[id].lastSuccessAt == record.lastSuccessAt
          else record == Record(None, None, 0))
      && (id in s.memory ==>
            s.memory[id].failures == record.trailingFailures && s.memory[id].lastSuccessAt == record.lastSuccessAt)
  {
    hide Run, Outcomes, Interval, Steady;
    RunTracks(run, id, minutes);
  }

  /** A source whose interval is not known is due by what the process remembers, or at once. */
  lemma DueWithoutInterval(s: State, id: int, now: int)
    ensures IsDue(s, id, None, now) <==>
      id in s.memory ==> s.memory[id].nextDueAt.None? || s.memory[id].nextDueAt.value <= now
  {
  }

  function WithoutRestarts(run: seq<Event>): seq<Event> {
    if run == [] then [] else
      WithoutRestarts(run[..|run| - 1])
      + if run[|run| - 1].Restart? || run[|run| - 1].Forget? then [] else [run[|run| - 1]]
  }

  lemma ErasedSnoc(front: seq<Event>, last: Event, run: seq<Event>)
    requires run != [] && front == run[..|run| - 1] && last == run[|run| - 1]
    ensures var erased := WithoutRestarts(run);
      if last.Restart? || last.Forget? then erased == WithoutRestarts(front)
      else erased != [] && erased[..|erased| - 1] == WithoutRestarts(front) && erased[|erased| - 1] == last
  {
  }

  lemma {:induction false} ErasingKeepsOutcomes(run: seq<Event>, id: int, minutes: nat)
    requires Steady(run, id, minutes)
    ensures Steady(WithoutRestarts(run), id, minutes)
    ensures Outcomes(WithoutRestarts(run), id) == Outcomes(run, id)
  {
    if run != [] {
      var front, last := run[..|run| - 1], run[|run| - 1];
      assert Steady(front, id, minutes);
      ErasingKeepsOutcomes(front, id, minutes);
      ErasedSnoc(front, last, run);
    }
  }

  /** Restarts at any points change no answer about what is due. */
  lemma RestartsChangeNoAnswer(run: seq<Event>, id: int, minutes: nat, now: int)
    requires Steady(run, id, minutes)
    ensures IsDue(Run(run), id, Some(minutes), now) == IsDue(Run(WithoutRestarts(run)), id, Some(minutes), now)
  {
    hide Run, Outcomes, IsDue, Steady, WithoutRestarts, Interval;
    ErasingKeepsOutcomes(run, id, minutes);
    DueByOutcomes(run, id, minutes, now);
    DueByOutcomes(WithoutRestarts(run), id, minutes, now);
  }

  /**
   * When the operator has changed the interval, a restart takes the new one up at once; the
   * running process keeps its due time until the next outcome. The answers agree at every
   * instant exactly when the two intervals come to the same wait.
   */
  lemma RestartAgreesIff(s: State, id: int, before: nat, today: nat)
    requires id in s.memory && id in s.rows
    requires Tracks(s, Record(s.rows[id].lastFetchedAt, s.rows[id].lastSuccessAt, s.rows[id].failures), id, before)
    ensures (forall now :: IsDue(s, id, Some(today), now) == IsDue(After(s, Restart), id, Some(today), now))
      <==> Interval(before, s.rows[id].failures) == Interval(today, s.rows[id].failures)
  {
    hide Interval;
    var at, failures := s.rows[id].lastFetchedAt.value, s.rows[id].failures;
    if Interval(before, failures) != Interval(today, failures) {
      var now := at + Min(Interval(before, failures), Interval(today, failures));
      assert IsDue(s, id, Some(today), now) != IsDue(After(s, Restart), id, Some(today), now);
    }
  }

  /** A source that failed is not due again before its back-off is over, restart or no restart. */
  lemma FailureWaits(run: seq<Event>, failure: Event, id: int, minutes: nat, now: int)
    requires Steady(run + [failure], id, minutes) && failure.Failure? && failure.id == id
    ensures IsDue(After(Run(run + [failure]), Restart), id, Some(minutes), now) <==>
      now >= failure.now + BackoffMinutes(minutes, Outcomes(run, id).trailingFailures + 1) * MINUTE
  {
    hide BackoffMinutes, Run, Steady;
    var all := run + [failure] + [Restart];
    assert all[..|all| - 1] == run + [failure] && (run + [failure])[..|run|] == run;
    SteadyAfterRestart(run + [failure], id, minutes);
    DueByOutcomes(all, id, minutes, now);
    assert Run(all) == After(Run(run + [failure]), Restart) by { RunSnoc(run + [failure], Restart); }
  }

  lemma RunSnoc(run: seq<Event>, last: Event)
    ensures Run(run + [last]) == After(Run(run), last)
  {
    assert (run + [last])[..|run|] == run;
  }

  lemma SteadyAfterRestart(run: seq<Event>, id: int, minutes: nat)
    requires Steady(run, id, minutes)
    ensures Steady(run + [Restart], id, minutes)
  {
  }
}

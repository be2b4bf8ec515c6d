/** The session table: create, resolve, revoke, and the sweep that may run at any time. */
module Sessions {
  import opened Text

  const DAY := 86_400_000_000  // microseconds
  const REVOKED_RETENTION_DAYS := 7

  /** Instants are microseconds; `revokedAt` is NULL until the session is revoked. */
  datatype Row = Row(user: int, expiresAt: int, revokedAt: Option<int>)

  /** Rows by the hash of their token. */
  type Table = map<string, Row>

  // --- conditions as SQL evaluates them ---------------------------------------------------

  datatype Truth = Yes | No | Unknown

  function Sure(b: bool): Truth { if b then Yes else No }

  function IsNull(x: Option<int>): Truth { Sure(x.None?) }

  function NotAfter(x: Option<int>, y: int): Truth {
    if x.None? then Unknown else Sure(x.value <= y)
  }

  function And(a: Truth, b: Truth): Truth {
    if a == No || b == No then No else if a == Yes && b == Yes then Yes else Unknown
  }

  function Or(a: Truth, b: Truth): Truth {
    if a == Yes || b == Yes then Yes else if a == No && b == No then No else Unknown
  }

  /** The condition a sweep deletes on. */
  function Dead(row: Row, moment: int, retentionDays: int): Truth {
    Or(And(IsNull(row.revokedAt), NotAfter(Some(row.expiresAt), moment)),
       NotAfter(row.revokedAt, moment - retentionDays * DAY))
  }

  /** The condition a session resolves on. */
  function Live(row: Row, now: int): Truth {
    And(IsNull(row.revokedAt), Sure(row.expiresAt > now))
  }

  /** NULL never lets a live row be swept: each kind of row has one way to go. */
  lemma DeadIff(row: Row, moment: int, retentionDays: int)
    ensures Dead(row, moment, retentionDays) == Yes <==>
      match row.revokedAt
      case None => row.expiresAt <= moment
      case Some(at) => at <= moment - retentionDays * DAY
  {
  }

  // --- the statements -----------------------------------------------------------------------

  function Swept(t: Table, moment: int, retentionDays: int): Table {
    map h | h in t && Dead(t[h], moment, retentionDays) != Yes :: t[h]
  }

  function Created(t: Table, hash: string, user: int, expiresAt: int): Table {
    if hash in t then t else t[hash := Row(user, expiresAt, None)]
  }

  function Revoked(t: Table, hash: string, now: int): Table {
    if hash in t && IsNull(t[hash].revokedAt) == Yes then t[hash := t[hash].(revokedAt := Some(now))] else t
  }

  function Resolve(t: Table, hash: string, now: int): Option<int> {
    if hash in t && Live(t[hash], now) == Yes then Some(t[hash].user) else None
  }

  class SessionStore {
    var rows: Table
    const ttl: int  // microseconds

    constructor (ttl: int)
      ensures this.ttl == ttl && rows == map[]
    {
      this.ttl := ttl;
      rows := map[];
    }

    /** The hash is unique in the table: a second row with it is refused. */
    method CreateSession(hash: string, user: int, now: int) returns (created: bool)
      modifies this
      ensures created <==> hash !in old(rows)
      ensures rows == Created(old(rows), hash, user, now + ttl)
      ensures rows == if created then old(rows)[hash := Row(user, now + ttl, None)] else old(rows)
    {
      created := hash !in rows;
      if created {
        rows := rows[hash := Row(user, now + ttl, None)];
      }
    }

    method ResolveSession(hash: string, now: int) returns (user: Option<int>)
      ensures user == Resolve(rows, hash, now)
    {
      if hash in rows && Live(rows[hash], now) == Yes {
        return Some(rows[hash].user);
      }
      return None;
    }

    method RevokeSession(hash: string, now: int) returns (revoked: bool)
      modifies this
      ensures revoked <==> hash in old(rows) && old(rows)[hash].revokedAt.None?
      ensures rows == Revoked(old(rows), hash, now)
      ensures rows ==
        if revoked then old(rows)[hash := Row(old(rows)[hash].user, old(rows)[hash].expiresAt, Some(now))]
        else old(rows)
    {
      revoked := hash in rows && IsNull(rows[hash].revokedAt) == Yes;
      if revoked {
        rows := rows[hash := rows[hash].(revokedAt := Some(now))];
      }
    }

    method PruneSessions(moment: int, retentionDays: int := REVOKED_RETENTION_DAYS) returns (removed: nat)
      modifies this
      ensures rows == Swept(old(rows), moment, retentionDays)
      ensures removed == |old(rows)| - |rows|
    {
      var dead := set h | h in rows && Dead(rows[h], moment, retentionDays) == Yes;
      removed := |dead|;
      RowsLeft(rows, dead);
      rows := rows - dead;
    }
  }

  lemma RowsLeft(t: Table, gone: set<string>)
    requires gone <= t.Keys
    ensures |t - gone| == |t| - |gone|
  {
    assert (t - gone).Keys == t.Keys - gone;
    assert t.Keys == (t.Keys - gone) + gone;
  }

  // --- runs -----------------------------------------------------------------------------------

  datatype Event =
    | Create(hash: string, user: int, expiresAt: int, now: int)
    | Revoke(hash: string, now: int)
    | Sweep(moment: int, retentionDays: int, now: int)

  function After(t: Table, event: Event): Table {
    match event
    case Create(hash, user, expiresAt, _) => Created(t, hash, user, expiresAt)
    case Revoke(hash, now) => Revoked(t, hash, now)
    case Sweep(moment, retentionDays, _) => Swept(t, moment, retentionDays)
  }

  function Run(run: seq<Event>): Table {
    if run == [] then map[] else After(Run(run[..|run| - 1]), run[|run| - 1])
  }

  /** No event of the run is later than `now`. */
  predicate Until(run: seq<Event>, now: int) {
    run == [] || run[|run| - 1].now <= now
  }

  /** The clock does not go back, and no sweep is dated ahead of it. */
  predicate Ordered(run: seq<Event>) {
    run != [] ==>
      var front, last := run[..|run| - 1], run[|run| - 1];
      Ordered(front) && Until(front, last.now) && (last.Sweep? ==> last.moment <= last.now)
  }

  predicate Mentions(run: seq<Event>, hash: string) {
    run != [] && (Mentions(run[..|run| - 1], hash) || (run[|run| - 1].Create? && run[|run| - 1].hash == hash))
  }

  /** Every session gets a token of its own. */
  predicate Fresh(run: seq<Event>) {
    run != [] ==>
      var front, last := run[..|run| - 1], run[|run| - 1];
      Fresh(front) && (last.Create? ==> !Mentions(front, last.hash))
  }

  /** What the run itself says of a session, sweeps aside: who it is for and until when, unless revoked. */
  function Standing(run: seq<Event>, hash: string): Option<Row> {
    if run == [] then None else
      var before := Standing(run[..|run| - 1], hash);
      match run[|run| - 1]
      case Create(h, user, expiresAt, _) => if h == hash then Some(Row(user, expiresAt, None)) else before
      case Revoke(h, _) => if h == hash then None else before
      case Sweep(_, _, _) => before
  }

  /** The table holds every session still standing, and no unrevoked row besides. */
  ghost predicate Tracks(t: Table, run: seq<Event>, hash: string, now: int) {
    var standing := Standing(run, hash);
    && (hash in t ==> Mentions(run, hash))
    && (hash in t && t[hash].revokedAt.None? ==> standing == Some(t[hash]))
    && (standing.Some? ==> Mentions(run, hash) && standing.value.revokedAt.None?)
    && (standing.Some? && standing.value.expiresAt > now ==> hash in t && t[hash] == standing.value)
  }

  lemma StepTracks(t: Table, run: seq<Event>, last: Event, hash: string)
    requires Tracks(t, run, hash, last.now)
    requires last.Create? ==> !Mentions(run, last.hash)
    requires last.Sweep? ==> last.moment <= last.now
    ensures Tracks(After(t, last), run + [last], hash, last.now)
  {
    assert (run + [last])[..|run|] == run;
    if last.Sweep? && hash in t {
      DeadIff(t[hash], last.moment, last.retentionDays);
    }
  }

  lemma {:induction false} RunTracks(run: seq<Event>, hash: string, now: int)
    requires Ordered(run) && Fresh(run) && Until(run, now)
    ensures Tracks(Run(run), run, hash, now)
  {
    hide After;
    if run != [] {
      var front, last := run[..|run| - 1], run[|run| - 1];
      RunTracks(front, hash, last.now);
      StepTracks(Run(front), front, last, hash);
      assert front + [last] == run;
    }
  }

  /** A session resolves exactly while it is unexpired and nobody has revoked it. */
  lemma ResolvesIff(run: seq<Event>, hash: string, now: int)
    requires Ordered(run) && Fresh(run) && Until(run, now)
    ensures Resolve(Run(run), hash, now) ==
      match Standing(run, hash)
      case None => None
      case Some(row) => if row.expiresAt > now then Some(row.user) else None
  {
    hide Run, Standing, Mentions;
    RunTracks(run, hash, now);
  }

  // --- erasing the sweeps ---------------------------------------------------------------------

  function WithoutSweeps(run: seq<Event>): seq<Event> {
    if run == [] then [] else
      WithoutSweeps(run[..|run| - 1]) + if run[|run| - 1].Sweep? then [] else [run[|run| - 1]]
  }

  lemma ErasedSnoc(front: seq<Event>, last: Event, run: seq<Event>)
    requires run != [] && front == run[..|run| - 1] && last == run[|run| - 1]
    ensures var erased := WithoutSweeps(run);
      if last.Sweep? then erased == WithoutSweeps(front)
      else erased != [] && erased[..|erased| - 1] == WithoutSweeps(front) && erased[|erased| - 1] == last
  {
  }

  lemma {:induction false} UntilLater(run: seq<Event>, now: int)
    requires Ordered(run) && Until(run, now)
    ensures Until(WithoutSweeps(run), now)
  {
    if run != [] {
      UntilLater(run[..|run| - 1], now);
    }
  }

  lemma {:induction false} ErasingKeepsMentions(run: seq<Event>, hash: string)
    ensures Mentions(WithoutSweeps(run), hash) == Mentions(run, hash)
  {
    if run != [] {
      var front, last := run[..|run| - 1], run[|run| - 1];
      ErasingKeepsMentions(front, hash);
      ErasedSnoc(front, last, run);
    }
  }

  lemma {:induction false} ErasingKeepsStanding(run: seq<Event>, hash: string)
    requires Ordered(run) && Fresh(run)
    ensures Ordered(WithoutSweeps(run)) && Fresh(WithoutSweeps(run))
    ensures Standing(WithoutSweeps(run), hash) == Standing(run, hash)
  {
    hide Mentions;
    if run != [] {
      var front, last := run[..|run| - 1], run[|run| - 1];
      ErasingKeepsStanding(front, hash);
      ErasedSnoc(front, last, run);
      if !last.Sweep? {
        UntilLater(front, last.now);
        if last.Create? {
          ErasingKeepsMentions(front, last.hash);
        }
      }
    }
  }

  /** Sweeps anywhere in a run change no answer after it, whatever retention they are given. */
  lemma SweepsChangeNoAnswer(run: seq<Event>, hash: string, now: int)
    requires Ordered(run) && Fresh(run) && Until(run, now)
    ensures Resolve(Run(run), hash, now) == Resolve(Run(WithoutSweeps(run)), hash, now)
  {
    hide Run, Standing, Mentions, Resolve, Ordered, Fresh, Until, WithoutSweeps;
    ErasingKeepsStanding(run, hash);
    UntilLater(run, now);
    ResolvesIff(run, hash, now);
    ResolvesIff(WithoutSweeps(run), hash, now);
  }

  /** A sweep dated ahead of the clock signs somebody out exactly when it is dated past their expiry. */
  lemma EarlySweep(t: Table, hash: string, moment: int, retentionDays: int, now: int)
    requires Resolve(t, hash, now).Some?
    ensures Resolve(Swept(t, moment, retentionDays), hash, now) == Resolve(t, hash, now) <==> t[hash].expiresAt > moment
  {
    DeadIff(t[hash], moment, retentionDays);
  }

  /** What a sweep leaves: live sessions, and revoked ones for as long as they are kept. */
  lemma SweepLeaves(t: Table, moment: int, retentionDays: int, hash: string)
    ensures hash in Swept(t, moment, retentionDays) <==>
      hash in t && match t[hash].revokedAt
        case None => t[hash].expiresAt > moment
        case Some(at) => at > moment - retentionDays * 24 * 3_600_000_000
    ensures hash in Swept(t, moment, REVOKED_RETENTION_DAYS) <==>
      hash in t && match t[hash].revokedAt
        case None => t[hash].expiresAt > moment
        case Some(at) => at > moment - 604_800_000_000
    ensures hash in Swept(t, moment, retentionDays) ==> Swept(t, moment, retentionDays)[hash] == t[hash]
  {
    if hash in t {
      DeadIff(t[hash], moment, retentionDays);
      DeadIff(t[hash], moment, 7);
    }
  }
}

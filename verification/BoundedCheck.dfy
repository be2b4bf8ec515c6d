/** A readiness probe on one background worker, with callers that give up after a deadline. */
module BoundedCheck {

  datatype ProbeResult = ProbeResult(ok: bool, detail: string)

  const PLACEHOLDER := ProbeResult(false, "not yet checked")

  /** The fields guarded by the lock; `done` is the event the callers wait on. */
  datatype Fields = Fields(running: bool, done: bool, result: ProbeResult)

  function Entered(f: Fields): Fields {
    if f.running then f else f.(running := true, done := false)
  }

  function Finished(f: Fields, result: ProbeResult): Fields {
    f.(result := result, running := false, done := true)
  }

  /** The three sections of the code that hold the lock. */
  class Check {
    var running: bool
    var done: bool
    var result: ProbeResult

    ghost function Contents(): Fields
      reads this
    {
      Fields(running, done, result)
    }

    constructor ()
      ensures Contents() == Fields(false, false, PLACEHOLDER)
    {
      running, done, result := false, false, PLACEHOLDER;
    }

    /** A caller arrives: it starts an attempt, or joins the one under way. */
    method Enter() returns (starts: bool)
      modifies this
      ensures starts == !old(running)
      ensures Contents() == Entered(old(Contents()))
    {
      starts := !running;
      if !running {
        running := true;
        done := false;
      }
    }

    /** The worker reports. */
    method Finish(outcome: ProbeResult)
      modifies this
      ensures Contents() == Finished(old(Contents()), outcome)
    {
      result := outcome;
      running := false;
      done := true;
    }

    /** A caller whose wait succeeded takes the result that is there. */
    method Read() returns (r: ProbeResult)
      ensures r == Contents().result
    {
      r := result;
    }
  }

  // --- callers and workers interleaved --------------------------------------------------

  /** A call that entered at a given tick: about to wait, asleep, let through, or back. */
  datatype Call =
    | Arriving(since: nat)
    | Asleep(since: nat)
    | Awake(since: nat)
    | Answered(since: nat, result: ProbeResult)
    | TimedOut(since: nat)

  datatype Report = Report(attempt: nat, result: ProbeResult, at: nat)

  /** `reports` are the attempts that finished, in order; `clock` counts actions. */
  datatype State = State(
    fields: Fields, workers: set<nat>, started: nat, reports: seq<Report>, calls: map<nat, Call>, clock: nat)

  const INITIAL := State(Fields(false, false, PLACEHOLDER), {}, 0, [], map[], 0)

  datatype Action =
    | Enter(call: nat)
    | Wait(call: nat)
    | GiveUp(call: nat)
    | Read(call: nat)
    | Finish(attempt: nat, result: ProbeResult)

  ghost predicate Enabled(s: State, action: Action) {
    match action
    case Enter(call) => call !in s.calls
    case Wait(call) => call in s.calls && s.calls[call].Arriving?
    case GiveUp(call) => call in s.calls && s.calls[call].Asleep?
    case Read(call) => call in s.calls && s.calls[call].Awake?
    case Finish(attempt, _) => attempt in s.workers
  }

  /** Setting the event lets every sleeper through, whatever happens to it afterwards. */
  function Wake(calls: map<nat, Call>): map<nat, Call> {
    map c | c in calls :: if calls[c].Asleep? then Awake(calls[c].since) else calls[c]
  }

  function Next(s: State, action: Action): State
    requires Enabled(s, action)
  {
    var t := s.(clock := s.clock + 1);
    match action
    case Enter(call) =>
      t.(fields := Entered(s.fields), calls := s.calls[call := Arriving(s.clock)],
         workers := if s.fields.running then s.workers else s.workers + {s.started},
         started := if s.fields.running then s.started else s.started + 1)
    case Wait(call) =>
      var since := s.calls[call].since;
      t.(calls := s.calls[call := if s.fields.done then Awake(since) else Asleep(since)])
    case GiveUp(call) => t.(calls := s.calls[call := TimedOut(s.calls[call].since)])
    case Read(call) => t.(calls := s.calls[call := Answered(s.calls[call].since, s.fields.result)])
    case Finish(attempt, result) =>
      t.(fields := Finished(s.fields, result), workers := s.workers - {attempt},
         reports := s.reports + [Report(attempt, result, s.clock)], calls := Wake(s.calls))
  }

  ghost predicate IsRun(s: State, actions: seq<Action>)
    decreases |actions|
  {
    actions != [] ==> Enabled(s, actions[0]) && IsRun(Next(s, actions[0]), actions[1..])
  }

  function Run(s: State, actions: seq<Action>): State
    requires IsRun(s, actions)
    decreases |actions|
  {
    if actions == [] then s else Run(Next(s, actions[0]), actions[1..])
  }

  /** An attempt reported this result later than the given tick. */
  ghost predicate ReportedSince(s: State, since: nat, result: ProbeResult) {
    exists k :: 0 <= k < |s.reports| && s.reports[k].result == result && s.reports[k].at > since
  }

  ghost predicate LastReport(s: State, since: nat) {
    s.reports != [] && s.reports[|s.reports| - 1].at > since
  }

  ghost predicate CallHolds(s: State, call: Call) {
    && call.since < s.clock
    && match call
       case Arriving(since) => s.fields.running || LastReport(s, since)
       case Asleep(_) => s.fields.running
       case Awake(since) => LastReport(s, since)
       case Answered(since, result) => ReportedSince(s, since, result)
       case TimedOut(_) => true
  }

  /** At most one attempt in flight, running exactly then, and the event set exactly between attempts. */
  ghost predicate FieldsHold(s: State) {
    && s.workers == (if s.fields.running then {s.started - 1} else {})
    && (s.fields.running ==> s.started > 0 && !s.fields.done)
    && (!s.fields.running ==> (s.fields.done <==> s.started > 0))
    && |s.reports| == (if s.fields.running then s.started - 1 else s.started)
    && (forall k :: 0 <= k < |s.reports| ==> s.reports[k].attempt == k && s.reports[k].at < s.clock)
    && s.fields.result == (if s.reports == [] then PLACEHOLDER else s.reports[|s.reports| - 1].result)
  }

  ghost predicate Inv(s: State) {
    && FieldsHold(s)
    && forall c :: c in s.calls ==> CallHolds(s, s.calls[c])
  }

  lemma FieldsKept(s: State, action: Action)
    requires Inv(s) && Enabled(s, action)
    ensures FieldsHold(Next(s, action))
  {
  }

  /** What a call relies on outlives every action that is not its own. */
  lemma CallKept(s: State, action: Action, call: nat)
    requires Inv(s) && Enabled(s, action) && call in Next(s, action).calls
    ensures CallHolds(Next(s, action), Next(s, action).calls[call])
  {
    var t := Next(s, action);
    assert s.reports <= t.reports;
    if call in s.calls {
      assert CallHolds(s, s.calls[call]);
      if s.calls[call].Answered? {
        var answered := s.calls[call];
        var k :| 0 <= k < |s.reports| && s.reports[k].result == answered.result && s.reports[k].at > answered.since;
        assert t.reports[k] == s.reports[k];
      }
    }
  }

  lemma ActionKeeps(s: State, action: Action)
    requires Inv(s) && Enabled(s, action)
    ensures Inv(Next(s, action))
  {
    hide FieldsHold, CallHolds, Next, Enabled;
    FieldsKept(s, action);
    forall c | c in Next(s, action).calls
      ensures CallHolds(Next(s, action), Next(s, action).calls[c])
    {
      CallKept(s, action, c);
    }
  }

  lemma {:induction false} RunKeeps(s: State, actions: seq<Action>)
    requires Inv(s) && IsRun(s, actions)
    ensures Inv(Run(s, actions))
    decreases |actions|
  {
    hide Inv, Next, Enabled;
    if actions != [] {
      ActionKeeps(s, actions[0]);
      RunKeeps(Next(s, actions[0]), actions[1..]);
    }
  }

  /** However many callers there are, there is never a second worker. */
  lemma OneAttemptAtATime(actions: seq<Action>)
    requires IsRun(INITIAL, actions)
    ensures |Run(INITIAL, actions).workers| <= 1
    ensures Run(INITIAL, actions).started <= |Run(INITIAL, actions).reports| + 1
  {
    hide IsRun, Run;
    RunKeeps(INITIAL, actions);
  }

  /**
   * A call that is answered gets what an attempt reported after the call came in: not an
   * older report, and never the placeholder.
   */
  lemma AnswersAreFresh(actions: seq<Action>, call: nat)
    requires IsRun(INITIAL, actions)
    requires call in Run(INITIAL, actions).calls && Run(INITIAL, actions).calls[call].Answered?
    ensures var s := Run(INITIAL, actions); ReportedSince(s, s.calls[call].since, s.calls[call].result)
  {
    hide IsRun, Run;
    RunKeeps(INITIAL, actions);
    assert CallHolds(Run(INITIAL, actions), Run(INITIAL, actions).calls[call]);
  }

  /** Until an attempt has reported, the result that is there is not a good one. */
  lemma NotReadyAtFirst(actions: seq<Action>)
    requires IsRun(INITIAL, actions) && Run(INITIAL, actions).reports == []
    ensures !Run(INITIAL, actions).fields.result.ok
  {
    hide IsRun, Run;
    RunKeeps(INITIAL, actions);
  }

  /** A sleeper always has an attempt in flight to wake it, and that attempt's report does. */
  lemma NoLostWakeUp(actions: seq<Action>, call: nat, result: ProbeResult)
    requires IsRun(INITIAL, actions)
    requires call in Run(INITIAL, actions).calls && Run(INITIAL, actions).calls[call].Asleep?
    ensures var s := Run(INITIAL, actions);
      && s.workers == {s.started - 1} && s.started >= 1
      && Next(s, Finish(s.started - 1, result)).calls[call].Awake?
  {
    hide IsRun, Run;
    RunKeeps(INITIAL, actions);
    assert CallHolds(Run(INITIAL, actions), Run(INITIAL, actions).calls[call]);
  }

  /** A call's way to its answer: in, waiting, the report of the attempt in flight, out. */
  function Visit(call: nat, attempt: nat, result: ProbeResult): seq<Action> {
    [Enter(call), Wait(call), Finish(attempt, result), Read(call)]
  }

  /**
   * Whatever went before, a new call can come in and wait, there is then an attempt to report,
   * and with its report the call is answered.
   */
  lemma CallIsServed(actions: seq<Action>, call: nat, result: ProbeResult)
    requires IsRun(INITIAL, actions) && call !in Run(INITIAL, actions).calls
    ensures var s := Run(INITIAL, actions);
      var attempt := if s.fields.running then s.started - 1 else s.started;
      && (s.fields.running ==> s.started >= 1)
      && IsRun(s, Visit(call, attempt, result))
      && call in Run(s, Visit(call, attempt, result)).calls
      && Run(s, Visit(call, attempt, result)).calls[call] == Answered(s.clock, result)
  {
    hide IsRun, Run;
    var s := Run(INITIAL, actions);
    RunKeeps(INITIAL, actions);
    var attempt := if s.fields.running then s.started - 1 else s.started;
    var entered := Next(s, Enter(call));
    assert Enabled(s, Enter(call)) && Enabled(entered, Wait(call));
    var waiting := Next(entered, Wait(call));
    assert waiting.calls[call] == Asleep(s.clock) && attempt in waiting.workers;
    var reported := Next(waiting, Finish(attempt, result));
    assert reported.calls[call] == Awake(s.clock) && reported.fields.result == result;
    FourSteps(s, Enter(call), Wait(call), Finish(attempt, result), Read(call));
  }

  lemma FourSteps(s: State, a: Action, b: Action, c: Action, d: Action)
    requires Enabled(s, a) && Enabled(Next(s, a), b) && Enabled(Next(Next(s, a), b), c)
    requires Enabled(Next(Next(Next(s, a), b), c), d)
    ensures IsRun(s, [a, b, c, d]) && Run(s, [a, b, c, d]) == Next(Next(Next(Next(s, a), b), c), d)
  {
    hide IsRun, Run;
    var t := Next(Next(Next(s, a), b), c);
    assert [a, b, c, d][1..] == [b, c, d] && [b, c, d][1..] == [c, d] && [c, d][1..] == [d] && [d][1..] == [];
    NoStep(Next(t, d));
    OneStep(t, [d]);
    OneStep(Next(Next(s, a), b), [c, d]);
    OneStep(Next(s, a), [b, c, d]);
    OneStep(s, [a, b, c, d]);
  }

  lemma NoStep(s: State)
    ensures IsRun(s, []) && Run(s, []) == s
  {
  }

  lemma OneStep(s: State, actions: seq<Action>)
    requires actions != [] && Enabled(s, actions[0]) && IsRun(Next(s, actions[0]), actions[1..])
    ensures IsRun(s, actions) && Run(s, actions) == Run(Next(s, actions[0]), actions[1..])
  {
    hide Next, Enabled;
  }

  /** A call that sleeps can always give up. */
  lemma SleeperMayLeave(s: State, call: nat)
    requires call in s.calls && s.calls[call].Asleep?
    ensures Enabled(s, GiveUp(call)) && Next(s, GiveUp(call)).calls[call] == TimedOut(s.calls[call].since)
  {
  }
}

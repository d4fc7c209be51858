/**
  The scheduler of index.ts: leadership by an expiring Redis lock, terms with their timers, and task series.

  A process is a value that changes in steps, one for each callback that runs without an `await` in it. Timers, Redis
  calls and task runs are listed in the order in which they were made and keep their place.
*/
module Scheduler {
  import opened Options

  const SCHEDULER_LOCK_TTL: nat := 30
  const ELECTION_RETRY_MS: nat := SCHEDULER_LOCK_TTL * 1000
  const RENEW_INTERVAL_MS: nat := SCHEDULER_LOCK_TTL * 1000 / 2
  const SKIPPED_RUN_RETRY_MS: nat := 60_000

  /** One `runEvery` of `startScheduledTasks`. */
  datatype Series = Series(firstDelayMs: nat, intervalMs: nat)

  datatype Callback = RunDue(term: nat, series: nat, intervalMs: nat) | ElectionDue
  datatype Timer = Timer(dueAt: int, callback: Callback, isArmed: bool)
  datatype Term = Term(isActive: bool, timers: set<nat>)

  datatype Command = Acquire | Refresh | Release
  /** What Redis did with a call: nothing yet, refused it, or granted it as the given entry of the system's log. */
  datatype Outcome = Unsent | Refused | Granted(entry: nat)
  /** What goes on when a call is answered. */
  datatype Waiter =
    | RunAwaitsRenewal(term: nat, series: nat, intervalMs: nat)
    | IntervalAwaitsRenewal(term: nat)
    | ElectionAwaitsLock
    | ElectionAwaitsRenewal
    | ResignationAwaitsRelease
    | Answered
  datatype Call = Call(command: Command, outcome: Outcome, waiter: Waiter)

  datatype Run = Run(term: nat, series: nat, intervalMs: nat, isDone: bool)

  datatype Process = Process(
    schedule: seq<Series>,
    isStopping: bool,
    currentTerm: Option<nat>,
    terms: seq<Term>,
    timers: seq<Timer>,
    intervals: map<nat, int>,
    calls: seq<Call>,
    runs: seq<Run>)
  {
    predicate IsActive(term: nat) {
      term < |terms| && terms[term].isActive
    }
  }

  // Single actions

  function RunLater(p: Process, term: nat, delayMs: nat, series: nat, intervalMs: nat, now: int): Process {
    if !p.IsActive(term) then p
    else
      var timers := p.terms[term].timers + {|p.timers|};
      p.(timers := p.timers + [Timer(now + delayMs, RunDue(term, series, intervalMs), true)],
         terms := p.terms[term := Term(true, timers)])
  }

  function Disarmed(timers: seq<Timer>, ids: set<nat>): (r: seq<Timer>)
    ensures |r| == |timers|
    ensures forall i | 0 <= i < |r| :: r[i] == if i in ids then timers[i].(isArmed := false) else timers[i]
  {
    seq(|timers|, i requires 0 <= i < |timers| => if i in ids then timers[i].(isArmed := false) else timers[i])
  }

  function EndTerm(p: Process, term: nat): Process {
    if term < |p.terms|
    then p.(timers := Disarmed(p.timers, p.terms[term].timers), terms := p.terms[term := Term(false, {})])
    else p
  }

  function RetryElectionLater(p: Process, now: int): Process {
    p.(timers := p.timers + [Timer(now + ELECTION_RETRY_MS, ElectionDue, true)])
  }

  function Send(p: Process, command: Command, waiter: Waiter): Process {
    p.(calls := p.calls + [Call(command, Unsent, waiter)])
  }

  function TryBecomeScheduler(p: Process): Process {
    if p.isStopping then p else Send(p, Acquire, ElectionAwaitsLock)
  }

  /** Arms the first timer of each series from `series` on. */
  function ScheduledFrom(p: Process, term: nat, series: nat, now: int): Process
    decreases |p.schedule| - series
  {
    if series >= |p.schedule| then p
    else
      var Series(firstDelayMs, intervalMs) := p.schedule[series];
      ScheduledFrom(RunLater(p, term, firstDelayMs, series, intervalMs, now), term, series + 1, now)
  }

  function TermOpened(p: Process, now: int): Process {
    var term := |p.terms|;
    p.(terms := p.terms + [Term(true, {})], currentTerm := Some(term),
        intervals := p.intervals[term := now + RENEW_INTERVAL_MS])
  }

  function RunAsScheduler(p: Process, now: int): Process {
    ScheduledFrom(TermOpened(p, now), |p.terms|, 0, now)
  }

  // Callbacks

  function Fired(p: Process, id: nat): Process
    requires id < |p.timers|
  {
    p.(timers := p.timers[id := p.timers[id].(isArmed := false)])
  }

  function TimerDeleted(p: Process, term: nat, id: nat): Process {
    if term < |p.terms|
    then p.(terms := p.terms[term := Term(p.terms[term].isActive, p.terms[term].timers - {id})])
    else p
  }

  function OnTimer(p: Process, id: nat): Process
    requires id < |p.timers|
  {
    match p.timers[id].callback
    case ElectionDue => TryBecomeScheduler(Fired(p, id))
    case RunDue(term, series, intervalMs) =>
      Send(TimerDeleted(Fired(p, id), term, id), Refresh, RunAwaitsRenewal(term, series, intervalMs))
  }

  function OnInterval(p: Process, term: nat, now: int): Process {
    Send(p.(intervals := p.intervals[term := now + RENEW_INTERVAL_MS]), Refresh, IntervalAwaitsRenewal(term))
  }

  function WithAnswer(p: Process, id: nat): Process
    requires id < |p.calls|
  {
    p.(calls := p.calls[id := p.calls[id].(waiter := Answered)])
  }

  predicate StartsRun(p: Process, id: nat, ok: bool)
    requires id < |p.calls|
  {
    ok && p.calls[id].waiter.RunAwaitsRenewal? && p.IsActive(p.calls[id].waiter.term)
  }

  function RetryMs(intervalMs: nat): nat {
    if intervalMs < SKIPPED_RUN_RETRY_MS then intervalMs else SKIPPED_RUN_RETRY_MS
  }

  function OnRunAnswer(p: Process, term: nat, series: nat, intervalMs: nat, ok: bool, now: int): Process {
    if ok && p.IsActive(term)
    then p.(runs := p.runs + [Run(term, series, intervalMs, false)])
    else RunLater(p, term, RetryMs(intervalMs), series, intervalMs, now)
  }

  function OnIntervalAnswer(p: Process, term: nat, ok: bool, now: int): Process {
    if ok || !p.IsActive(term) then p
    else RetryElectionLater(EndTerm(p.(intervals := p.intervals - {term}), term), now)
  }

  function OnElectionAnswer(p: Process, isLastTry: bool, ok: bool, now: int): Process {
    if ok then RunAsScheduler(p, now)
    else if isLastTry then RetryElectionLater(p, now)
    else Send(p, Refresh, ElectionAwaitsRenewal)
  }

  function OnAnswer(p: Process, id: nat, ok: bool, now: int): Process
    requires id < |p.calls|
  {
    var q := WithAnswer(p, id);
    match p.calls[id].waiter
    case RunAwaitsRenewal(term, series, intervalMs) => OnRunAnswer(q, term, series, intervalMs, ok, now)
    case IntervalAwaitsRenewal(term) => OnIntervalAnswer(q, term, ok, now)
    case ElectionAwaitsLock => OnElectionAnswer(q, false, ok, now)
    case ElectionAwaitsRenewal => OnElectionAnswer(q, true, ok, now)
    case ResignationAwaitsRelease => q
    case Answered => q
  }

  function WithDone(p: Process, run: nat): Process
    requires run < |p.runs|
  {
    p.(runs := p.runs[run := p.runs[run].(isDone := true)])
  }

  function OnTaskEnd(p: Process, run: nat, now: int): Process
    requires run < |p.runs|
  {
    var Run(term, series, intervalMs, _) := p.runs[run];
    RunLater(WithDone(p, run), term, intervalMs, series, intervalMs, now)
  }

  function OnStop(p: Process): Process {
    if p.isStopping then p
    else
      var stopping := p.(isStopping := true);
      Send(if p.currentTerm.Some? then EndTerm(stopping, p.currentTerm.value)
          else stopping, Release, ResignationAwaitsRelease)
  }

  function Booted(schedule: seq<Series>): Process {
    TryBecomeScheduler(Process(schedule, false, None, [], [], map[], [], []))
  }
}

/**
  Any number of server instances around one lock key, over all runs.

  Redis carries out a call at some moment between its sending and forever after: also when the call was reported as
  failed, and an answer may be lost. Time only moves between callbacks.
*/
module SchedulerRuns {
  import opened Options
  import RedisLock
  import opened Scheduler
  import opened SchedulerProcessSafety

  datatype Event =
    | Acquired(instance: nat, at: int)
    | Refreshed(instance: nat, at: int)
    | Released(instance: nat, at: int)
    | TaskStarted(instance: nat, term: nat, series: nat, call: nat, behind: nat)

  datatype System = System(now: int, lock: Option<RedisLock.Held<nat>>, log: seq<Event>, processes: map<nat, Process>)

  datatype Action =
    | TimePasses(ms: nat)
    | Boots(instance: nat, schedule: seq<Series>)
    | TimerFires(instance: nat, id: nat)
    | IntervalFires(instance: nat, term: nat)
    | RedisActs(instance: nat, id: nat)
    | AnswerArrives(instance: nat, id: nat, ok: bool)
    | TaskEnds(instance: nat, run: nat)
    | StopSignal(instance: nat)

  predicate IsEnabled(s: System, a: Action) {
    match a
    case TimePasses(_) => true
    case Boots(i, _) => i !in s.processes
    case TimerFires(i, id) =>
      && i in s.processes
      && id < |s.processes[i].timers|
      && s.processes[i].timers[id].isArmed
      && s.processes[i].timers[id].dueAt <= s.now
    case IntervalFires(i, term) => i in s.processes && term in s.processes[i].intervals
        && s.processes[i].intervals[term] <= s.now
    case RedisActs(i, id) => i in s.processes && id < |s.processes[i].calls|
        && s.processes[i].calls[id].outcome == Unsent
    case AnswerArrives(i, id, ok) =>
      && i in s.processes
      && id < |s.processes[i].calls|
      && s.processes[i].calls[id].waiter != Answered
      && (ok ==> s.processes[i].calls[id].outcome.Granted?)
    case TaskEnds(i, run) => i in s.processes && run < |s.processes[i].runs| && !s.processes[i].runs[run].isDone
    case StopSignal(i) => i in s.processes
  }

  /** What the lock key answers to a command of the given instance, and the entry it leaves in the log. */
  function Carried(s: System, i: nat, command: Command): (Option<RedisLock.Held<nat>>, bool, Event) {
    match command
    case Acquire =>
      var (lock, ok) := RedisLock.Acquire(s.lock, i, SCHEDULER_LOCK_TTL, s.now);
      (lock, ok, Acquired(i, s.now))
    case Refresh =>
      var (lock, ok) := RedisLock.Refresh(s.lock, i, SCHEDULER_LOCK_TTL, s.now);
      (lock, ok, Refreshed(i, s.now))
    case Release =>
      var (lock, ok) := RedisLock.Release(s.lock, i, s.now);
      (lock, ok, Released(i, s.now))
  }

  /** The log entry of a task that starts on the answer to a call. */
  function StartOf(i: nat, p: Process, id: nat): Event
    requires id < |p.calls| && p.calls[id].waiter.RunAwaitsRenewal? && p.calls[id].outcome.Granted?
  {
    TaskStarted(i, p.calls[id].waiter.term, p.calls[id].waiter.series, id, p.calls[id].outcome.entry)
  }

  function After(s: System, a: Action): System
    requires IsEnabled(s, a)
  {
    match a
    case TimePasses(ms) => s.(now := s.now + ms)
    case Boots(i, schedule) => s.(processes := s.processes[i := Booted(schedule)])
    case TimerFires(i, id) => s.(processes := s.processes[i := OnTimer(s.processes[i], id)])
    case IntervalFires(i, term) => s.(processes := s.processes[i := OnInterval(s.processes[i], term, s.now)])
    case RedisActs(i, id) =>
      var p := s.processes[i];
      var (lock, ok, event) := Carried(s, i, p.calls[id].command);
      var outcome := if ok then Granted(|s.log|) else Refused;
      var q := p.(calls := p.calls[id := p.calls[id].(outcome := outcome)]);
      s.(lock := lock, log := if ok then s.log + [event] else s.log, processes := s.processes[i := q])
    case AnswerArrives(i, id, ok) =>
      var p := s.processes[i];
      var log :=
        if StartsRun(p, id, ok) then s.log + [StartOf(i, p, id)]
        else s.log;
      s.(log := log, processes := s.processes[i := OnAnswer(p, id, ok, s.now)])
    case TaskEnds(i, run) => s.(processes := s.processes[i := OnTaskEnd(s.processes[i], run, s.now)])
    case StopSignal(i) => s.(processes := s.processes[i := OnStop(s.processes[i])])
  }

  ghost predicate IsRun(states: seq<System>, actions: seq<Action>) {
    && |states| == |actions| + 1
    && states[0].lock == None && states[0].log == [] && states[0].processes == map[]
    && forall k | 0 <= k < |actions| :: IsEnabled(states[k], actions[k])
        && states[k + 1] == After(states[k], actions[k])
  }

  // The lock and the log

  predicate IsTouch(e: Event) {
    e.Acquired? || e.Refreshed?
  }

  /** When the instance last took or extended the lock, unless it has released it since. */
  function Mark(log: seq<Event>, i: nat): Option<int> {
    if log == [] then None
    else
      var last := log[|log| - 1];
      if last.instance == i && IsTouch(last) then Some(last.at)
      else if last.instance == i && last.Released? then None
      else Mark(log[..|log| - 1], i)
  }

  const TTL_MS: nat := SCHEDULER_LOCK_TTL * 1000

  ghost predicate LockFollowsLog(s: System) {
    forall i: nat | Mark(s.log, i).Some? ::
      s.lock == Some(RedisLock.Held(i, Mark(s.log, i).value + TTL_MS)) || Mark(s.log, i).value + TTL_MS <= s.now
  }

  ghost predicate ChangesHandsSafely(log: seq<Event>) {
    forall b: nat, i | b < |log| && IsTouch(log[b]) && log[b].instance != i && Mark(log[..b], i).Some? ::
      Mark(log[..b], i).value + TTL_MS <= log[b].at
  }

  /** A granted refresh points at its own entry, and a task start at a refresh of its own instance before it. */
  ghost predicate StartsFollowRefreshes(s: System) {
    && (forall i, id | i in s.processes && 0 <= id < |s.processes[i].calls|
        && s.processes[i].calls[id].outcome.Granted? ::
          && s.processes[i].calls[id].outcome.entry < |s.log|
          && (s.processes[i].calls[id].command == Refresh ==>
                var e := s.log[s.processes[i].calls[id].outcome.entry]; e.Refreshed? && e.instance == i))
    && (forall k | 0 <= k < |s.log| && s.log[k].TaskStarted? ::
          s.log[k].behind < k && s.log[s.log[k].behind].Refreshed?
              && s.log[s.log[k].behind].instance == s.log[k].instance)
  }

  ghost predicate ProcessesAreSafe(s: System) {
    forall i | i in s.processes :: Safe(s.processes[i])
  }

  /** What awaits a renewal has sent a refresh, and what awaits the lock has tried to take it. */
  predicate Fits(c: Call) {
    && (c.waiter.RunAwaitsRenewal? || c.waiter.ElectionAwaitsRenewal? ==> c.command == Refresh)
    && (c.waiter.ElectionAwaitsLock? ==> c.command == Acquire)
  }

  ghost predicate CallsFit(s: System) {
    forall i, id | i in s.processes && 0 <= id < |s.processes[i].calls| :: Fits(s.processes[i].calls[id])
  }

  ghost predicate LockIsSafe(s: System) {
    LockFollowsLog(s) && ChangesHandsSafely(s.log)
  }

  ghost predicate Invariant(s: System) {
    LockIsSafe(s) && StartsFollowRefreshes(s) && CallsFit(s) && ProcessesAreSafe(s)
  }

  // One step

  lemma MarkAppended(log: seq<Event>, e: Event, i: nat)
    ensures Mark(log + [e], i) ==
            if e.instance == i && IsTouch(e) then Some(e.at) else if e.instance == i && e.Released?
                then None else Mark(log, i)
  {
    assert (log + [e])[..|log|] == log;
  }

  lemma LogKeepsHands(log: seq<Event>, e: Event)
    requires ChangesHandsSafely(log)
    requires IsTouch(e) ==> forall j | j != e.instance && Mark(log, j).Some? :: Mark(log, j).value + TTL_MS <= e.at
    ensures ChangesHandsSafely(log + [e])
  {
    var more := log + [e];
    forall b: nat, j | b < |more| && IsTouch(more[b]) && more[b].instance != j && Mark(more[..b], j).Some?
      ensures Mark(more[..b], j).value + TTL_MS <= more[b].at
    {
      assert more[..b] == log[..b];
      assert log[..|log|] == log;
    }
  }

  lemma RedisKeepsLock(s: System, i: nat, id: nat)
    requires LockIsSafe(s) && IsEnabled(s, RedisActs(i, id))
    ensures LockIsSafe(After(s, RedisActs(i, id)))
  {
    var (lock, ok, event) := Carried(s, i, s.processes[i].calls[id].command);
    if ok {
      forall j { MarkAppended(s.log, event, j); }
      LogKeepsHands(s.log, event);
    }
  }

  lemma StepKeepsLock(s: System, a: Action)
    requires LockIsSafe(s) && IsEnabled(s, a)
    ensures LockIsSafe(After(s, a))
  {
    match a
    case RedisActs(i, id) => RedisKeepsLock(s, i, id);
    case AnswerArrives(i, id, ok) =>
      var p := s.processes[i];
      if StartsRun(p, id, ok) {
        var e := StartOf(i, p, id);
        forall j { MarkAppended(s.log, e, j); }
        LogKeepsHands(s.log, e);
      }
    case _ =>
  }

  /** Calls keep their command and their outcome through a callback; a new one has not reached Redis. */
  ghost predicate KeepsCalls(p: Process, q: Process) {
    && |p.calls| <= |q.calls|
    && (forall id | 0 <= id < |p.calls| ::
          && q.calls[id].command == p.calls[id].command
          && q.calls[id].outcome == p.calls[id].outcome
          && q.calls[id].waiter in {p.calls[id].waiter, Answered})
    && (forall id | |p.calls| <= id < |q.calls| ::
          q.calls[id].outcome == Unsent && Fits(q.calls[id]))
  }

  lemma {:induction false} ScheduledFromKeepsCalls(p: Process, term: nat, series: nat, now: int)
    ensures ScheduledFrom(p, term, series, now).calls == p.calls
    decreases |p.schedule| - series
  {
    if series < |p.schedule| {
      var Series(firstDelayMs, intervalMs) := p.schedule[series];
      ScheduledFromKeepsCalls(RunLater(p, term, firstDelayMs, series, intervalMs, now), term, series + 1, now);
    }
  }

  lemma OnAnswerKeepsCalls(p: Process, id: nat, ok: bool, now: int)
    requires id < |p.calls|
    ensures KeepsCalls(p, OnAnswer(p, id, ok, now))
  {
    ScheduledFromKeepsCalls(TermOpened(WithAnswer(p, id), now), |p.terms|, 0, now);
  }

  lemma OnOthersKeepCalls(p: Process, id: nat, now: int)
    ensures id < |p.timers| ==> KeepsCalls(p, OnTimer(p, id))
    ensures KeepsCalls(p, OnInterval(p, id, now))
    ensures id < |p.runs| ==> KeepsCalls(p, OnTaskEnd(p, id, now))
    ensures KeepsCalls(p, OnStop(p))
  {
  }

  lemma StepKeepsCalls(s: System, a: Action, i: nat)
    requires IsEnabled(s, a) && i in s.processes && !a.RedisActs?
    ensures i in After(s, a).processes && KeepsCalls(s.processes[i], After(s, a).processes[i])
  {
    match a
    case AnswerArrives(j, id, ok) => OnAnswerKeepsCalls(s.processes[j], id, ok, s.now);
    case TimerFires(j, id) => OnOthersKeepCalls(s.processes[j], id, s.now);
    case IntervalFires(j, term) => OnOthersKeepCalls(s.processes[j], term, s.now);
    case TaskEnds(j, run) => OnOthersKeepCalls(s.processes[j], run, s.now);
    case StopSignal(j) => OnOthersKeepCalls(s.processes[j], 0, s.now);
    case _ =>
  }

  lemma RedisKeepsStarts(s: System, i: nat, id: nat)
    requires StartsFollowRefreshes(s) && CallsFit(s) && IsEnabled(s, RedisActs(i, id))
    ensures StartsFollowRefreshes(After(s, RedisActs(i, id))) && CallsFit(After(s, RedisActs(i, id)))
  {
  }

  lemma CallsKeepStarts(s: System, t: System)
    requires StartsFollowRefreshes(s) && CallsFit(s)
    requires forall i | i in s.processes :: i in t.processes && KeepsCalls(s.processes[i], t.processes[i])
    requires forall i, id | i in t.processes && i !in s.processes && 0 <= id < |t.processes[i].calls| ::
               t.processes[i].calls[id].outcome == Unsent && Fits(t.processes[i].calls[id])
    requires s.log <= t.log
    requires forall k | |s.log| <= k < |t.log| ::
               t.log[k].TaskStarted? && t.log[k].behind < |s.log| && s.log[t.log[k].behind].Refreshed?
               && s.log[t.log[k].behind].instance == t.log[k].instance
    ensures StartsFollowRefreshes(t) && CallsFit(t)
  {
  }

  lemma StepKeepsStarts(s: System, a: Action)
    requires StartsFollowRefreshes(s) && CallsFit(s) && IsEnabled(s, a)
    ensures StartsFollowRefreshes(After(s, a)) && CallsFit(After(s, a))
  {
    if a.RedisActs? {
      RedisKeepsStarts(s, a.instance, a.id);
    } else {
      forall i | i in s.processes { StepKeepsCalls(s, a, i); }
      CallsKeepStarts(s, After(s, a));
    }
  }

  lemma OutcomeKeepsSafe(p: Process, id: nat, outcome: Outcome) returns (q: Process)
    requires Safe(p) && id < |p.calls|
    ensures q == p.(calls := p.calls[id := p.calls[id].(outcome := outcome)])
    ensures Safe(q)
  {
    q := p.(calls := p.calls[id := p.calls[id].(outcome := outcome)]);
    forall x | HasClaim(q, x) ensures HasClaim(p, x) {}
    forall x, t: nat, n: nat | IsActivation(q, x, t, n) ensures IsActivation(p, x, t, n) {}
  }

  /** The process that an action changes is safe afterwards, and its ended terms stay ended. */
  lemma StepKeepsProcess(s: System, a: Action, i: nat)
    requires ProcessesAreSafe(s) && IsEnabled(s, a) && i in After(s, a).processes
    ensures Safe(After(s, a).processes[i])
    ensures i in s.processes ==> KeepsEnded(s.processes[i], After(s, a).processes[i])
  {
    match a
    case TimePasses(_) =>
    case Boots(j, schedule) => BootedIsSafe(schedule);
    case TimerFires(j, id) => OnTimerKeeps(s.processes[j], id);
    case IntervalFires(j, term) => OnIntervalKeeps(s.processes[j], term, s.now);
    case RedisActs(j, id) => var q := OutcomeKeepsSafe(s.processes[j], id, After(s, a).processes[j].calls[id].outcome);
    case AnswerArrives(j, id, ok) => OnAnswerKeeps(s.processes[j], id, ok, s.now);
    case TaskEnds(j, run) => OnTaskEndKeeps(s.processes[j], run, s.now);
    case StopSignal(j) => OnStopKeeps(s.processes[j]);
  }

  lemma {:induction false} StepKeepsInvariant(s: System, a: Action)
    requires Invariant(s) && IsEnabled(s, a)
    ensures Invariant(After(s, a))
  {
    StepKeepsLock(s, a);
    StepKeepsStarts(s, a);
    forall i | i in After(s, a).processes { StepKeepsProcess(s, a, i); }
  }

  lemma {:induction false} RunKeepsInvariant(states: seq<System>, actions: seq<Action>, k: nat)
    requires IsRun(states, actions) && k < |states|
    ensures Invariant(states[k])
  {
    if k > 0 {
      RunKeepsInvariant(states, actions, k - 1);
      StepKeepsInvariant(states[k - 1], actions[k - 1]);
    }
  }

  // Whole runs

  /**
    The last event of the instance that marks it as a holder, and whether it released the lock between the two places.
  */
  ghost predicate GaveUp(log: seq<Event>, i: nat, a: nat, b: nat)
    requires b < |log| && IsTouch(log[b])
  {
    exists c: nat | a <= c < b && IsTouch(log[c]) && log[c].instance == i ::
      && (forall d | c < d < b && IsTouch(log[d]) :: log[d].instance != i)
      && ((exists d :: c < d < b && log[d].Released? && log[d].instance == i) || log[c].at + TTL_MS <= log[b].at)
  }

  lemma {:induction false} LastTouch(log: seq<Event>, i: nat, a: nat, b: nat) returns (c: nat)
    requires a < b <= |log| && IsTouch(log[a]) && log[a].instance == i
    ensures a <= c < b && IsTouch(log[c]) && log[c].instance == i
    ensures forall d | c < d < b && IsTouch(log[d]) :: log[d].instance != i
    ensures (exists d :: c < d < b && log[d].Released? && log[d].instance == i) || Mark(log[..b], i) == Some(log[c].at)
    decreases b
  {
    assert log[..b][..b - 1] == log[..b - 1];
    if IsTouch(log[b - 1]) && log[b - 1].instance == i {
      c := b - 1;
    } else {
      c := LastTouch(log, i, a, b - 1);
    }
  }

  /**
    Tasks of two instances never start behind one and the same hold of the lock: between the refreshes behind them the
    earlier instance released the lock, or let it lapse for the whole of its 30 s.
  */
  lemma {:induction false} TaskStartsAreSeparated(states: seq<System>, actions: seq<Action>, k: nat, x: nat, y: nat)
    requires IsRun(states, actions) && k < |states|
    requires x < |states[k].log| && states[k].log[x].TaskStarted?
    requires y < |states[k].log| && states[k].log[y].TaskStarted?
    requires states[k].log[x].instance != states[k].log[y].instance
    ensures states[k].log[x].behind < x && states[k].log[states[k].log[x].behind].Refreshed?
    ensures states[k].log[states[k].log[x].behind].instance == states[k].log[x].instance
    ensures states[k].log[y].behind < y && states[k].log[states[k].log[y].behind].Refreshed?
    ensures states[k].log[x].behind != states[k].log[y].behind
    ensures states[k].log[x].behind < states[k].log[y].behind ==>
              GaveUp(states[k].log, states[k].log[x].instance, states[k].log[x].behind, states[k].log[y].behind)
  {
    RunKeepsInvariant(states, actions, k);
    var log := states[k].log;
    var a, b, i := log[x].behind, log[y].behind, log[x].instance;
    if a < b {
      var c := LastTouch(log, i, a, b);
      assert GaveUp(log, i, a, b);
    }
  }

  /** At most one term of an instance is active, and a series of it is never in two places at once. */
  lemma {:induction false} OneTermIsActive(states: seq<System>, actions: seq<Action>, k: nat, i: nat)
    requires IsRun(states, actions) && k < |states| && i in states[k].processes
    ensures forall t, u | 0 <= t < |states[k].processes[i].terms| && 0 <= u < |states[k].processes[i].terms| ::
              states[k].processes[i].terms[t].isActive && states[k].processes[i].terms[u].isActive ==> t == u
    ensures NeverOverlaps(states[k].processes[i])
  {
    RunKeepsInvariant(states, actions, k);
    var p := states[k].processes[i];
    forall t, u | 0 <= t < |p.terms| && 0 <= u < |p.terms| && p.terms[t].isActive && p.terms[u].isActive
      ensures t == u
    {
      assert HasClaim(p, ActiveTerm(t)) && HasClaim(p, ActiveTerm(u));
    }
  }

  predicate IsStartOf(e: Event, i: nat, term: nat) {
    e.TaskStarted? && e.instance == i && e.term == term
  }

  ghost predicate HasEnded(s: System, i: nat, term: nat) {
    i in s.processes && term < |s.processes[i].terms| && !s.processes[i].terms[term].isActive
  }

  lemma StepStartsNothingEnded(s: System, a: Action, i: nat, term: nat, e: nat)
    requires IsEnabled(s, a) && HasEnded(s, i, term) && e < |After(s, a).log|
    ensures e < |s.log| ==> After(s, a).log[e] == s.log[e]
    ensures |s.log| <= e ==> !IsStartOf(After(s, a).log[e], i, term)
  {
  }

  lemma StepKeepsEnded(s: System, a: Action, i: nat, term: nat)
    requires Invariant(s) && IsEnabled(s, a) && HasEnded(s, i, term)
    ensures HasEnded(After(s, a), i, term)
  {
    assert i in After(s, a).processes;
    StepKeepsProcess(s, a, i);
  }

  lemma EndedTermIsQuiet(p: Process, term: nat)
    requires Safe(p) && term < |p.terms| && !p.terms[term].isActive
    ensures p.terms[term].timers == {}
    ensures forall series, id :: !IsActivation(p, Armed(id), term, series)
  {
  }

  lemma {:induction false} EndedTermStaysEnded(states: seq<System>, actions: seq<Action>, j: nat, k: nat, i: nat,
        term: nat)
    requires IsRun(states, actions) && j <= k < |states| && HasEnded(states[j], i, term)
    ensures HasEnded(states[k], i, term)
    decreases k - j
  {
    if j < k {
      EndedTermStaysEnded(states, actions, j, k - 1, i, term);
      RunKeepsInvariant(states, actions, k - 1);
      StepKeepsEnded(states[k - 1], actions[k - 1], i, term);
    }
  }

  /** Once a term has ended, at any later moment of the run its timer set is empty and no timer of it is armed. */
  lemma {:induction false} EndedTermStaysQuiet(states: seq<System>, actions: seq<Action>, j: nat, k: nat, i: nat,
        term: nat)
    requires IsRun(states, actions) && j <= k < |states| && HasEnded(states[j], i, term)
    ensures HasEnded(states[k], i, term) && states[k].processes[i].terms[term].timers == {}
    ensures forall series, id :: !IsActivation(states[k].processes[i], Armed(id), term, series)
  {
    EndedTermStaysEnded(states, actions, j, k, i, term);
    assert Safe(states[k].processes[i]) by { RunKeepsInvariant(states, actions, k); }
    EndedTermIsQuiet(states[k].processes[i], term);
  }

  lemma NextStateStartsNothing(states: seq<System>, actions: seq<Action>, k: nat, i: nat, term: nat, e: nat)
    requires IsRun(states, actions) && k < |actions| && HasEnded(states[k], i, term) && e < |states[k + 1].log|
    ensures e < |states[k].log| ==> states[k + 1].log[e] == states[k].log[e]
    ensures |states[k].log| <= e ==> !IsStartOf(states[k + 1].log[e], i, term)
  {
    StepStartsNothingEnded(states[k], actions[k], i, term, e);
  }

  /**
    Nothing logged after a term has ended starts a task of it: also not a run that awaited a renewal at that moment.
  */
  lemma {:induction false} EndedTermStartsNothing(
      states: seq<System>, actions: seq<Action>, j: nat, k: nat, i: nat, term: nat, e: nat)
    requires IsRun(states, actions) && j <= k < |states| && HasEnded(states[j], i, term)
    requires |states[j].log| <= e < |states[k].log|
    ensures !IsStartOf(states[k].log[e], i, term)
    decreases k - j
  {
    if j < k {
      EndedTermStaysEnded(states, actions, j, k - 1, i, term);
      NextStateStartsNothing(states, actions, k - 1, i, term, e);
      if e < |states[k - 1].log| {
        EndedTermStartsNothing(states, actions, j, k - 1, i, term, e);
      }
    }
  }
}

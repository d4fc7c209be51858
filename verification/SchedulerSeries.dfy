/** An active term keeps every series going and its lock renewed, over all runs; and when each step is due. */
module SchedulerSeries {
  import opened Options
  import opened Scheduler
  import opened SchedulerProcessSafety
  import opened SchedulerRuns

  ghost predicate IsGoing(p: Process, term: nat, series: nat) {
    exists x :: IsActivation(p, x, term, series)
  }

  /** Every active term has each series of the schedule somewhere, and its interval runs. */
  ghost predicate KeepsGoing(p: Process) {
    forall term: nat | p.IsActive(term) ::
      term in p.intervals && forall series: nat | series < |p.schedule| :: IsGoing(p, term, series)
  }

  /** Whatever stands for a series carries the interval of the schedule. */
  predicate IsOwnInterval(p: Process, series: nat, intervalMs: nat) {
    series < |p.schedule| && intervalMs == p.schedule[series].intervalMs
  }

  ghost predicate CarriesIntervals(p: Process) {
    && (forall id | 0 <= id < |p.timers| && p.timers[id].callback.RunDue? ::
          IsOwnInterval(p, p.timers[id].callback.series, p.timers[id].callback.intervalMs))
    && (forall id | 0 <= id < |p.calls| && p.calls[id].waiter.RunAwaitsRenewal? ::
          IsOwnInterval(p, p.calls[id].waiter.series, p.calls[id].waiter.intervalMs))
    && (forall run | 0 <= run < |p.runs| :: IsOwnInterval(p, p.runs[run].series, p.runs[run].intervalMs))
  }

  ghost predicate IsComplete(p: Process) {
    KeepsGoing(p) && CarriesIntervals(p)
  }

  /** What goes on does so after the change, but for the given activation and for ended terms. */
  ghost predicate GoesOnBut(p: Process, q: Process, gone: Activation) {
    && q.schedule == p.schedule
    && (forall term: nat | q.IsActive(term) :: p.IsActive(term) && (term in p.intervals ==> term in q.intervals))
    && forall x, term: nat, series: nat | IsActivation(p, x, term, series) && q.IsActive(term) && x != gone ::
         IsActivation(q, x, term, series)
  }

  /** It suffices that the series of what is gone is going again. */
  lemma GoesOn(p: Process, q: Process, gone: Activation)
    requires KeepsGoing(p) && GoesOnBut(p, q, gone)
    requires forall term: nat, series: nat | IsActivation(p, gone, term, series) && q.IsActive(term) ::
               IsGoing(q, term, series)
    ensures KeepsGoing(q)
  {
    forall term: nat, series: nat | q.IsActive(term) && series < |q.schedule| ensures IsGoing(q, term, series) {
      assert IsGoing(p, term, series);
      var x :| IsActivation(p, x, term, series);
      if x != gone {
        assert IsActivation(q, x, term, series);
      }
    }
  }

  lemma RunLaterGoesOn(p: Process, term: nat, delayMs: nat, series: nat, intervalMs: nat, now: int, gone: Activation)
    requires gone != Armed(|p.timers|)
    ensures GoesOnBut(p, RunLater(p, term, delayMs, series, intervalMs, now), gone)
    ensures p.IsActive(term) ==>
              var q := RunLater(p, term, delayMs, series, intervalMs, now);
              && IsActivation(q, Armed(|p.timers|), term, series)
              && q.timers[|p.timers|].dueAt == now + delayMs
    ensures CarriesIntervals(p) && IsOwnInterval(p, series, intervalMs) ==>
              CarriesIntervals(RunLater(p, term, delayMs, series, intervalMs, now))
  {
  }

  lemma EndTermGoesOn(p: Process, term: nat, gone: Activation)
    requires TracksTimers(p)
    ensures GoesOnBut(p, EndTerm(p, term), gone)
    ensures CarriesIntervals(p) ==> CarriesIntervals(EndTerm(p, term))
  {
  }

  lemma TaskEndKeeps(p: Process, run: nat, now: int)
    requires IsComplete(p) && run < |p.runs| && !p.runs[run].isDone
    ensures IsComplete(OnTaskEnd(p, run, now))
  {
    var Run(term, series, intervalMs, _) := p.runs[run];
    var q := WithDone(p, run);
    assert GoesOnBut(p, q, Working(run));
    var r := OnTaskEnd(p, run, now);
    assert IsOwnInterval(p, series, intervalMs);
    assert CarriesIntervals(q);
    RunLaterGoesOn(q, term, intervalMs, series, intervalMs, now, Working(run));
    assert GoesOnBut(p, r, Working(run));
    GoesOn(p, r, Working(run));
  }

  lemma SendGoesOn(p: Process, command: Command, waiter: Waiter, gone: Activation)
    requires waiter.RunAwaitsRenewal? ==> IsOwnInterval(p, waiter.series, waiter.intervalMs)
    ensures GoesOnBut(p, Send(p, command, waiter), gone)
    ensures waiter.RunAwaitsRenewal? ==>
              IsActivation(Send(p, command, waiter), Renewing(|p.calls|), waiter.term, waiter.series)
    ensures CarriesIntervals(p) ==> CarriesIntervals(Send(p, command, waiter))
  {
  }

  lemma TimerIsGone(p: Process, id: nat, term: nat)
    requires id < |p.timers| && p.timers[id].isArmed
    ensures GoesOnBut(p, TimerDeleted(Fired(p, id), term, id), Armed(id))
    ensures CarriesIntervals(p) ==> CarriesIntervals(TimerDeleted(Fired(p, id), term, id))
    ensures GoesOnBut(p, Fired(p, id), Armed(id))
    ensures CarriesIntervals(p) ==> CarriesIntervals(Fired(p, id))
  {
  }

  lemma Then(p: Process, q: Process, r: Process, gone: Activation)
    requires GoesOnBut(p, q, gone) && GoesOnBut(q, r, gone)
    ensures GoesOnBut(p, r, gone)
  {
  }

  lemma TimerKeeps(p: Process, id: nat)
    requires IsComplete(p) && id < |p.timers| && p.timers[id].isArmed
    ensures IsComplete(OnTimer(p, id))
  {
    var q := OnTimer(p, id);
    match p.timers[id].callback
    case ElectionDue =>
      TimerIsGone(p, id, 0);
      SendGoesOn(Fired(p, id), Acquire, ElectionAwaitsLock, Armed(id));
      assert GoesOnBut(p, q, Armed(id)) by {
        if !p.isStopping {
          Then(p, Fired(p, id), q, Armed(id));
        }
      }
      hide GoesOnBut, CarriesIntervals, Send, KeepsGoing;
      GoesOn(p, q, Armed(id));
    case RunDue(term, series, intervalMs) =>
      var fired := TimerDeleted(Fired(p, id), term, id);
      assert IsOwnInterval(p, series, intervalMs);
      TimerIsGone(p, id, term);
      SendGoesOn(fired, Refresh, RunAwaitsRenewal(term, series, intervalMs), Armed(id));
      Then(p, fired, q, Armed(id));
      hide GoesOnBut, CarriesIntervals, Send, TimerDeleted, KeepsGoing;
      GoesOn(p, q, Armed(id));
  }

  lemma IntervalKeeps(p: Process, term: nat, now: int)
    requires IsComplete(p)
    ensures IsComplete(OnInterval(p, term, now))
  {
    var renewing := p.(intervals := p.intervals[term := now + RENEW_INTERVAL_MS]);
    var q := OnInterval(p, term, now);
    SendGoesOn(renewing, Refresh, IntervalAwaitsRenewal(term), Renewing(|p.calls|));
    assert GoesOnBut(p, q, Renewing(|p.calls|));
    GoesOn(p, q, Renewing(|p.calls|));
  }

  lemma StopKeeps(p: Process)
    requires IsComplete(p) && TracksTimers(p)
    ensures IsComplete(OnStop(p))
  {
    if !p.isStopping {
      var stopping := p.(isStopping := true);
      var ended := if p.currentTerm.Some? then EndTerm(stopping, p.currentTerm.value) else stopping;
      var gone := Renewing(|p.calls|);
      if p.currentTerm.Some? {
        assert TracksTimers(stopping);
        EndTermGoesOn(stopping, p.currentTerm.value, gone);
      }
      SendGoesOn(ended, Release, ResignationAwaitsRelease, gone);
      assert GoesOnBut(p, OnStop(p), gone);
      GoesOn(p, OnStop(p), gone);
    }
  }

  lemma RunAnswerKeeps(p: Process, id: nat, ok: bool, now: int)
    requires IsComplete(p) && id < |p.calls| && p.calls[id].waiter.RunAwaitsRenewal?
    ensures IsComplete(OnAnswer(p, id, ok, now))
  {
    var RunAwaitsRenewal(term, series, intervalMs) := p.calls[id].waiter;
    var answered, q := WithAnswer(p, id), OnAnswer(p, id, ok, now);
    assert GoesOnBut(p, answered, Renewing(id)) && IsOwnInterval(p, series, intervalMs);
    if ok && p.IsActive(term) {
      assert IsActivation(q, Working(|p.runs|), term, series);
      assert GoesOnBut(p, q, Renewing(id));
    } else {
      RunLaterGoesOn(answered, term, RetryMs(intervalMs), series, intervalMs, now, Renewing(id));
      assert GoesOnBut(p, q, Renewing(id));
    }
    GoesOn(p, q, Renewing(id));
  }

  lemma IntervalAnswerKeeps(p: Process, id: nat, ok: bool, now: int)
    requires IsComplete(p) && TracksTimers(p) && id < |p.calls| && p.calls[id].waiter.IntervalAwaitsRenewal?
    ensures IsComplete(OnAnswer(p, id, ok, now))
  {
    var term := p.calls[id].waiter.term;
    var answered, q, gone := WithAnswer(p, id), OnAnswer(p, id, ok, now), Renewing(id);
    assert GoesOnBut(p, answered, gone) && CarriesIntervals(answered);
    if !ok && p.IsActive(term) {
      LosingGoesOn(answered, term, now, gone);
      Then(p, answered, q, gone);
    }
    hide GoesOnBut, CarriesIntervals, KeepsGoing, EndTerm, RetryElectionLater, TracksTimers;
    GoesOn(p, q, gone);
  }

  lemma LosingGoesOn(p: Process, term: nat, now: int, gone: Activation)
    requires TracksTimers(p) && CarriesIntervals(p) && p.IsActive(term)
    ensures GoesOnBut(p, OnIntervalAnswer(p, term, false, now), gone)
    ensures CarriesIntervals(OnIntervalAnswer(p, term, false, now))
  {
    EndTermGoesOn(p, term, gone);
    assert GoesOnBut(EndTerm(p, term), OnIntervalAnswer(p, term, false, now), gone);
  }

  lemma {:induction false} ScheduledFromGoesOn(p: Process, term: nat, series: nat, now: int)
    requires p.IsActive(term)
    ensures var q := ScheduledFrom(p, term, series, now);
            && q.schedule == p.schedule && q.intervals == p.intervals && q.currentTerm == p.currentTerm
            && q.IsActive(term) && |q.terms| == |p.terms|
            && (forall t: nat | q.IsActive(t) :: p.IsActive(t))
            && (forall x, t: nat, s: nat | IsActivation(p, x, t, s) :: IsActivation(q, x, t, s))
            && |p.timers| <= |q.timers| && q.timers[..|p.timers|] == p.timers
    ensures forall s: nat | series <= s < |p.schedule| ::
              IsArmedFor(ScheduledFrom(p, term, series, now), term, s, now + p.schedule[s].firstDelayMs)
    ensures CarriesIntervals(p) ==> CarriesIntervals(ScheduledFrom(p, term, series, now))
    decreases |p.schedule| - series
  {
    if series < |p.schedule| {
      var Series(firstDelayMs, intervalMs) := p.schedule[series];
      var next := RunLater(p, term, firstDelayMs, series, intervalMs, now);
      RunLaterGoesOn(p, term, firstDelayMs, series, intervalMs, now, Renewing(|p.calls|));
      ScheduledFromGoesOn(next, term, series + 1, now);
      var q := ScheduledFrom(p, term, series, now);
      assert q.timers[|p.timers|] == next.timers[|p.timers|];
      assert IsActivation(q, Armed(|p.timers|), term, series);
    }
  }

  /** A timer is armed for the series, and is due at that moment. */
  ghost predicate IsArmedFor(p: Process, term: nat, series: nat, dueAt: int) {
    exists id: nat :: IsActivation(p, Armed(id), term, series) && p.timers[id].dueAt == dueAt
  }

  /** A term that opens is current, has every series armed for its first delay, and renews after 15 s. */
  ghost predicate IsOpenedAt(p: Process, q: Process, now: int) {
    && |q.terms| == |p.terms| + 1 && q.IsActive(|p.terms|) && q.currentTerm == Some(|p.terms|)
    && |p.terms| in q.intervals && q.intervals[|p.terms|] == now + 15_000
    && forall series: nat | series < |p.schedule| ::
         IsArmedFor(q, |p.terms|, series, now + p.schedule[series].firstDelayMs)
  }

  lemma OpeningKeeps(p: Process, now: int)
    requires IsComplete(p)
    ensures IsComplete(RunAsScheduler(p, now)) && IsOpenedAt(p, RunAsScheduler(p, now), now)
  {
    var begun, q := TermOpened(p, now), RunAsScheduler(p, now);
    var term := |p.terms|;
    ScheduledFromGoesOn(begun, term, 0, now);
    hide ScheduledFrom;
    assert forall x, t: nat, s: nat | IsActivation(p, x, t, s) :: IsActivation(begun, x, t, s);
    forall t: nat, s: nat | q.IsActive(t) && s < |q.schedule| ensures IsGoing(q, t, s) {
      if t == term {
        assert IsArmedFor(q, t, s, now + p.schedule[s].firstDelayMs);
        var id: nat :| IsActivation(q, Armed(id), t, s);
      } else {
        assert p.IsActive(t) && IsGoing(p, t, s);
        var x :| IsActivation(p, x, t, s);
        assert IsActivation(q, x, t, s);
      }
    }
  }

  lemma ElectionAnswerKeeps(p: Process, id: nat, ok: bool, now: int)
    requires IsComplete(p) && id < |p.calls| && IsElection(p.calls[id].waiter)
    ensures IsComplete(OnAnswer(p, id, ok, now))
    ensures ok ==> IsOpenedAt(p, OnAnswer(p, id, ok, now), now)
  {
    var answered, q := WithAnswer(p, id), OnAnswer(p, id, ok, now);
    assert GoesOnBut(p, answered, Renewing(id));
    GoesOn(p, answered, Renewing(id));
    if ok {
      OpeningKeeps(answered, now);
    } else {
      assert GoesOnBut(answered, q, Renewing(id));
      GoesOn(answered, q, Renewing(id));
    }
  }

  lemma AnswerKeeps(p: Process, id: nat, ok: bool, now: int)
    requires IsComplete(p) && TracksTimers(p) && id < |p.calls|
    ensures IsComplete(OnAnswer(p, id, ok, now))
  {
    hide TracksTimers, KeepsGoing;
    match p.calls[id].waiter
    case RunAwaitsRenewal(_, _, _) => RunAnswerKeeps(p, id, ok, now);
    case IntervalAwaitsRenewal(_) => IntervalAnswerKeeps(p, id, ok, now);
    case ElectionAwaitsLock => ElectionAnswerKeeps(p, id, ok, now);
    case ElectionAwaitsRenewal => ElectionAnswerKeeps(p, id, ok, now);
    case _ => OtherAnswerKeeps(p, id, ok, now);
  }

  lemma OtherAnswerKeeps(p: Process, id: nat, ok: bool, now: int)
    requires IsComplete(p) && id < |p.calls|
    requires p.calls[id].waiter.ResignationAwaitsRelease? || p.calls[id].waiter.Answered?
    ensures IsComplete(OnAnswer(p, id, ok, now))
  {
    var q := OnAnswer(p, id, ok, now);
    assert GoesOnBut(p, q, Renewing(id));
    GoesOn(p, q, Renewing(id));
  }

  lemma OutcomeKeeps(p: Process, id: nat, outcome: Outcome)
    requires IsComplete(p) && id < |p.calls|
    ensures IsComplete(p.(calls := p.calls[id := p.calls[id].(outcome := outcome)]))
  {
    var q := p.(calls := p.calls[id := p.calls[id].(outcome := outcome)]);
    assert GoesOnBut(p, q, Armed(|p.timers|));
    GoesOn(p, q, Armed(|p.timers|));
  }

  lemma BootedIsComplete(schedule: seq<Series>)
    ensures IsComplete(Booted(schedule))
  {
  }

  lemma StepKeepsComplete(s: System, a: Action, i: nat)
    requires IsEnabled(s, a) && i in After(s, a).processes
    requires i in s.processes ==> IsComplete(s.processes[i]) && TracksTimers(s.processes[i])
    ensures IsComplete(After(s, a).processes[i])
  {
    hide IsComplete, TracksTimers, OnTimer, OnInterval, OnAnswer, OnTaskEnd, OnStop, Booted;
    match a
    case TimePasses(_) =>
    case Boots(j, schedule) => BootedIsComplete(schedule);
    case TimerFires(j, id) => if j == i { TimerKeeps(s.processes[j], id); }
    case IntervalFires(j, term) => if j == i { IntervalKeeps(s.processes[j], term, s.now); }
    case RedisActs(j, id) => if j == i { OutcomeKeeps(s.processes[j], id, After(s, a).processes[j].calls[id].outcome); }
    case AnswerArrives(j, id, ok) => if j == i { AnswerKeeps(s.processes[j], id, ok, s.now); }
    case TaskEnds(j, run) => if j == i { TaskEndKeeps(s.processes[j], run, s.now); }
    case StopSignal(j) => if j == i { StopKeeps(s.processes[j]); }
  }

  lemma {:induction false} RunKeepsComplete(states: seq<System>, actions: seq<Action>, k: nat, i: nat)
    requires IsRun(states, actions) && k < |states| && i in states[k].processes
    ensures IsComplete(states[k].processes[i]) && Safe(states[k].processes[i])
  {
    RunKeepsInvariant(states, actions, k);
    hide IsComplete, Invariant, Safe;
    if k > 0 {
      if i in states[k - 1].processes {
        RunKeepsComplete(states, actions, k - 1, i);
      }
      SafeTracks(states[k - 1], i);
      StepKeepsComplete(states[k - 1], actions[k - 1], i);
    }
  }

  lemma SafeTracks(s: System, i: nat)
    ensures i in s.processes && Safe(s.processes[i]) ==> TracksTimers(s.processes[i])
  {
  }

  // Whole runs

  /**
    In every state of every run each series of an active term stands in exactly one place: its timer is armed, its run
    awaits the renewal, or its task works. The interval that renews the lock runs.
  */
  lemma {:induction false} EverySeriesGoesOn(states: seq<System>, actions: seq<Action>, k: nat, i: nat, term: nat,
        series: nat)
    requires IsRun(states, actions) && k < |states| && i in states[k].processes
    requires states[k].processes[i].IsActive(term) && series < |states[k].processes[i].schedule|
    ensures exists x ::
              && IsActivation(states[k].processes[i], x, term, series)
              && forall y | IsActivation(states[k].processes[i], y, term, series) :: y == x
    ensures term in states[k].processes[i].intervals
  {
    RunKeepsComplete(states, actions, k, i);
    var p := states[k].processes[i];
    assert IsGoing(p, term, series);
    var x :| IsActivation(p, x, term, series);
  }

  /** The task of an active term that has ended runs again after the interval of its series. */
  lemma {:induction false} TasksAreRepeated(states: seq<System>, actions: seq<Action>, k: nat, i: nat, run: nat)
    requires IsRun(states, actions) && k < |actions| && actions[k] == TaskEnds(i, run)
    ensures i in states[k].processes && i in states[k + 1].processes
    ensures var p, q := states[k].processes[i], states[k + 1].processes[i];
            && run < |p.runs| && p.runs[run].series < |p.schedule|
            && (p.IsActive(p.runs[run].term) ==>
                  IsArmedFor(q, p.runs[run].term, p.runs[run].series,
                      states[k].now + p.schedule[p.runs[run].series].intervalMs))
  {
    RunKeepsComplete(states, actions, k, i);
    var p := states[k].processes[i];
    var Run(term, series, intervalMs, _) := p.runs[run];
    RunLaterGoesOn(WithDone(p, run), term, intervalMs, series, intervalMs, states[k].now, Renewing(|p.calls|));
    hide RunLater, Invariant;
  }

  function Least(a: nat, b: nat): nat {
    if a < b then a else b
  }

  /**
    A run whose renewal is granted starts its task, which the log tells, and one whose renewal is
    not is tried again after its interval, or after a minute if that is less. An ended term does neither.
  */
  lemma {:induction false} RenewedRunsStart(states: seq<System>, actions: seq<Action>, k: nat, i: nat, id: nat,
        ok: bool)
    requires IsRun(states, actions) && k < |actions| && actions[k] == AnswerArrives(i, id, ok)
    requires i in states[k].processes && id < |states[k].processes[i].calls|
    requires states[k].processes[i].calls[id].waiter.RunAwaitsRenewal?
    ensures i in states[k + 1].processes
    ensures var s, t, waiter := states[k], states[k + 1], states[k].processes[i].calls[id].waiter;
            var p, q, term, series := s.processes[i], t.processes[i], waiter.term, waiter.series;
            && series < |p.schedule|
            && if !p.IsActive(term) then t.log == s.log && q.runs == p.runs && q.timers == p.timers
               else if ok
               then && q.runs == p.runs + [Run(term, series, p.schedule[series].intervalMs, false)]
                    && |t.log| == |s.log| + 1 && IsStartOf(t.log[|s.log|], i, term) && t.log[|s.log|].series == series
               else && t.log == s.log && q.runs == p.runs
                    && IsArmedFor(q, term, series, s.now + Least(p.schedule[series].intervalMs, 60_000))
  {
    RunKeepsComplete(states, actions, k, i);
    var p := states[k].processes[i];
    var RunAwaitsRenewal(term, series, intervalMs) := p.calls[id].waiter;
    RunLaterGoesOn(WithAnswer(p, id), term, RetryMs(intervalMs), series, intervalMs, states[k].now,
        Renewing(|p.calls|));
    hide RunLater, Invariant;
  }

  ghost predicate HasSent(p: Process, q: Process, command: Command, waiter: Waiter) {
    q.calls == p.calls + [Call(command, Unsent, waiter)]
  }

  /** A due run first renews the lock; a due election asks for it, unless the process is stopping. */
  lemma {:induction false} TimersAsk(states: seq<System>, actions: seq<Action>, k: nat, i: nat, id: nat)
    requires IsRun(states, actions) && k < |actions| && actions[k] == TimerFires(i, id)
    ensures i in states[k].processes && i in states[k + 1].processes && id < |states[k].processes[i].timers|
    ensures var p, q := states[k].processes[i], states[k + 1].processes[i];
            match p.timers[id].callback
            case RunDue(term, series, intervalMs) =>
              series < |p.schedule| && intervalMs == p.schedule[series].intervalMs
              && HasSent(p, q, Refresh, RunAwaitsRenewal(term, series, intervalMs))
            case ElectionDue =>
              if p.isStopping then q.calls == p.calls else HasSent(p, q, Acquire, ElectionAwaitsLock)
  {
    RunKeepsComplete(states, actions, k, i);
    hide Invariant;
  }

  /** The interval renews the lock every 15 s; a renewal that fails ends an active term and stands again in 30 s. */
  lemma {:induction false} LockIsRenewed(states: seq<System>, actions: seq<Action>, k: nat, i: nat)
    requires IsRun(states, actions) && k < |actions|
    ensures match actions[k]
            case IntervalFires(j, term) => j == i ==>
              && i in states[k].processes && i in states[k + 1].processes
              && term in states[k + 1].processes[i].intervals
              && states[k + 1].processes[i].intervals[term] == states[k].now + 15_000
              && HasSent(states[k].processes[i], states[k + 1].processes[i], Refresh, IntervalAwaitsRenewal(term))
            case AnswerArrives(j, id, ok) => j == i ==>
              && i in states[k].processes && i in states[k + 1].processes && id < |states[k].processes[i].calls|
              && LosesTerm(states[k].processes[i], states[k + 1].processes[i], id, ok, states[k].now)
            case _ => true
  {
    hide Invariant, RunAsScheduler;
  }

  ghost predicate LosesTerm(p: Process, q: Process, id: nat, ok: bool, now: int)
    requires id < |p.calls|
  {
    p.calls[id].waiter.IntervalAwaitsRenewal? ==>
      var term := p.calls[id].waiter.term;
      if ok || !p.IsActive(term) then q.terms == p.terms && q.timers == p.timers && q.intervals == p.intervals
      else && !q.IsActive(term) && term !in q.intervals
           && |q.timers| == |p.timers| + 1 && q.timers[|p.timers|] == Timer(now + 30_000, ElectionDue, true)
  }

  /** A won election opens a term; a refused lock is followed by a renewal, and a refused renewal by a try in 30 s. */
  ghost predicate ElectionIsFollowed(p: Process, q: Process, id: nat, ok: bool, now: int)
    requires id < |p.calls|
  {
    IsElection(p.calls[id].waiter) ==>
      if ok then IsOpenedAt(p, q, now)
      else if p.calls[id].waiter.ElectionAwaitsLock? then
        && q.terms == p.terms && q.timers == p.timers && |q.calls| == |p.calls| + 1
        && q.calls[|p.calls|] == Call(Refresh, Unsent, ElectionAwaitsRenewal)
      else && q.terms == p.terms && |q.calls| == |p.calls|
           && q.timers == p.timers + [Timer(now + 30_000, ElectionDue, true)]
  }

  lemma {:induction false} ElectionsGoOn(states: seq<System>, actions: seq<Action>, k: nat, i: nat, id: nat, ok: bool)
    requires IsRun(states, actions) && k < |actions| && actions[k] == AnswerArrives(i, id, ok)
    ensures i in states[k].processes && i in states[k + 1].processes && id < |states[k].processes[i].calls|
             && ElectionIsFollowed(states[k].processes[i], states[k + 1].processes[i], id, ok, states[k].now)
  {
    RunKeepsComplete(states, actions, k, i);
    var p := states[k].processes[i];
    if IsElection(p.calls[id].waiter) {
      ElectionAnswerKeeps(p, id, ok, states[k].now);
    }
    hide Invariant, RunAsScheduler, IsComplete, Safe, IsOpenedAt;
  }

  ghost predicate HasNoTerm(p: Process) {
    forall term | 0 <= term < |p.terms| :: !p.terms[term].isActive
  }

  /** An instance that boots asks for the lock, and at the first signal to stop ends its term and releases it. */
  lemma {:induction false} InstancesComeAndGo(states: seq<System>, actions: seq<Action>, k: nat, i: nat)
    requires IsRun(states, actions) && k < |actions|
    ensures match actions[k]
            case Boots(j, schedule) => j == i ==>
              && i in states[k + 1].processes && states[k + 1].processes[i].schedule == schedule
              && states[k + 1].processes[i].calls == [Call(Acquire, Unsent, ElectionAwaitsLock)]
            case StopSignal(j) => j == i ==>
              && i in states[k].processes && i in states[k + 1].processes && states[k + 1].processes[i].isStopping
              && if states[k].processes[i].isStopping then states[k + 1].processes[i] == states[k].processes[i]
                 else && HasSent(states[k].processes[i], states[k + 1].processes[i], Release, ResignationAwaitsRelease)
                      && HasNoTerm(states[k + 1].processes[i])
            case _ => true
  {
    if actions[k] == StopSignal(i) {
      RunKeepsComplete(states, actions, k, i);
      OnStopKeeps(states[k].processes[i]);
      assert states[k].processes[i].isStopping || HasNoTerm(OnStop(states[k].processes[i])) by {
        var q := OnStop(states[k].processes[i]);
        assert forall term | 0 <= term < |q.terms| :: q.terms[term].isActive ==> q.IsActive(term);
      }
    }
    hide Invariant, Safe, IsComplete;
  }
}

/**
  What holds of one scheduler process after every callback, whatever Redis answers and however callbacks interleave.
*/
module SchedulerProcessSafety {
  import opened Options
  import opened Scheduler

  /** Whatever can lead a process to a term: the active term itself, or an election to come or in progress. */
  datatype Claim = ActiveTerm(term: nat) | ArmedElection(timer: nat) | PendingElection(call: nat)

  ghost predicate HasClaim(p: Process, claim: Claim) {
    match claim
    case ActiveTerm(t) => t < |p.terms| && p.terms[t].isActive
    case ArmedElection(i) => i < |p.timers| && p.timers[i].isArmed && p.timers[i].callback.ElectionDue?
    case PendingElection(i) =>
      i < |p.calls| && (p.calls[i].waiter.ElectionAwaitsLock? || p.calls[i].waiter.ElectionAwaitsRenewal?)
  }

  ghost predicate HasOneClaim(p: Process) {
    forall x, y | HasClaim(p, x) && HasClaim(p, y) :: x == y
  }

  /** Where a task series can be: its timer is armed, its run awaits the renewal, or its task is working. */
  datatype Activation = Armed(timer: nat) | Renewing(call: nat) | Working(run: nat)

  ghost predicate IsActivation(p: Process, x: Activation, term: nat, series: nat) {
    match x
    case Armed(i) =>
      && i < |p.timers| && p.timers[i].isArmed && p.timers[i].callback.RunDue?
      && p.timers[i].callback.term == term && p.timers[i].callback.series == series
    case Renewing(i) =>
      && i < |p.calls| && p.calls[i].waiter.RunAwaitsRenewal?
      && p.calls[i].waiter.term == term && p.calls[i].waiter.series == series
    case Working(i) => i < |p.runs| && !p.runs[i].isDone && p.runs[i].term == term && p.runs[i].series == series
  }

  ghost predicate NeverOverlaps(p: Process) {
    forall x, y, term: nat, series: nat | IsActivation(p, x, term, series) && IsActivation(p, y, term, series) :: x == y
  }

  ghost predicate IsIdle(p: Process, term: nat, series: nat) {
    forall x :: !IsActivation(p, x, term, series)
  }

  ghost predicate NamesTerms(p: Process) {
    forall x, term: nat, series: nat | IsActivation(p, x, term, series) :: term < |p.terms|
  }

  predicate IsRunTimer(timer: Timer, term: nat) {
    timer.isArmed && timer.callback.RunDue? && timer.callback.term == term
  }

  /** The timer set of a term lists exactly its armed timers, and is empty once the term has ended. */
  ghost predicate TracksTimers(p: Process) {
    && (forall t: nat, id: nat {:trigger id in p.terms[t].timers} | t < |p.terms| && id in p.terms[t].timers ::
          p.terms[t].isActive && id < |p.timers| && IsRunTimer(p.timers[id], t))
    && (forall id: nat {:trigger p.timers[id]} | id < |p.timers| && p.timers[id].isArmed
        && p.timers[id].callback.RunDue? ::
          p.timers[id].callback.term < |p.terms| && id in p.terms[p.timers[id].callback.term].timers)
  }

  ghost predicate ActiveIsCurrent(p: Process) {
    forall t | 0 <= t < |p.terms| && p.terms[t].isActive :: p.currentTerm == Some(t)
  }

  ghost predicate Safe(p: Process) {
    HasOneClaim(p) && NeverOverlaps(p) && NamesTerms(p) && TracksTimers(p) && ActiveIsCurrent(p)
  }

  /** Terms are only ever added or ended, and an ended term stays ended. */
  ghost predicate KeepsEnded(p: Process, q: Process) {
    && |p.terms| <= |q.terms|
    && (forall t | 0 <= t < |p.terms| && !p.terms[t].isActive :: !q.terms[t].isActive)
  }

  /** A change that adds no claim and no activation. */
  ghost predicate AddsNothing(p: Process, q: Process) {
    && (forall x | HasClaim(q, x) :: HasClaim(p, x))
    && (forall x, t: nat, s: nat | IsActivation(q, x, t, s) :: IsActivation(p, x, t, s))
  }

  lemma RunLaterKeeps(p: Process, term: nat, delayMs: nat, series: nat, intervalMs: nat, now: int)
    requires Safe(p) && IsIdle(p, term, series)
    ensures Safe(RunLater(p, term, delayMs, series, intervalMs, now))
    ensures KeepsEnded(p, RunLater(p, term, delayMs, series, intervalMs, now))
    ensures forall other: nat | other != series && IsIdle(p, term, other) ::
              IsIdle(RunLater(p, term, delayMs, series, intervalMs, now), term, other)
  {
    var q := RunLater(p, term, delayMs, series, intervalMs, now);
    if p.IsActive(term) {
      forall x | HasClaim(q, x) ensures HasClaim(p, x) {}
      forall x, t: nat, s: nat | IsActivation(q, x, t, s)
        ensures IsActivation(p, x, t, s) || (x == Armed(|p.timers|) && t == term && s == series)
      {
      }
    }
  }

  lemma EndTermKeeps(p: Process, term: nat)
    requires Safe(p)
    ensures Safe(EndTerm(p, term)) && KeepsEnded(p, EndTerm(p, term))
    ensures forall x | HasClaim(EndTerm(p, term), x) :: HasClaim(p, x) && x != ActiveTerm(term)
  {
    var q := EndTerm(p, term);
    assert AddsNothing(p, q);
  }

  ghost predicate HasNoClaim(p: Process) {
    forall x :: !HasClaim(p, x)
  }

  lemma RetryKeeps(p: Process, now: int)
    requires Safe(p) && HasNoClaim(p)
    ensures Safe(RetryElectionLater(p, now)) && KeepsEnded(p, RetryElectionLater(p, now))
  {
    var q := RetryElectionLater(p, now);
    forall x | HasClaim(q, x) ensures x == ArmedElection(|p.timers|) {
      if x != ArmedElection(|p.timers|) {
        assert HasClaim(p, x);
      }
    }
    forall x, t: nat, s: nat | IsActivation(q, x, t, s) ensures IsActivation(p, x, t, s) {}
  }

  predicate IsElection(waiter: Waiter) {
    waiter.ElectionAwaitsLock? || waiter.ElectionAwaitsRenewal?
  }

  /** A call may go out for a run of an idle series, or for an election when nothing else claims a term. */
  lemma SendKeeps(p: Process, command: Command, waiter: Waiter)
    requires Safe(p)
    requires waiter.RunAwaitsRenewal? ==> waiter.term < |p.terms| && IsIdle(p, waiter.term, waiter.series)
    requires IsElection(waiter) ==> HasNoClaim(p)
    ensures Safe(Send(p, command, waiter)) && KeepsEnded(p, Send(p, command, waiter))
  {
    var q := Send(p, command, waiter);
    forall x | HasClaim(q, x) && x != PendingElection(|p.calls|) ensures HasClaim(p, x) {}
    forall x, t: nat, s: nat | IsActivation(q, x, t, s) && x != Renewing(|p.calls|) ensures IsActivation(p, x, t, s) {}
  }

  lemma {:induction false} ScheduledFromKeeps(p: Process, term: nat, series: nat, now: int)
    requires Safe(p)
    requires forall s: nat | series <= s :: IsIdle(p, term, s)
    ensures Safe(ScheduledFrom(p, term, series, now)) && KeepsEnded(p, ScheduledFrom(p, term, series, now))
    decreases |p.schedule| - series
  {
    if series < |p.schedule| {
      var Series(firstDelayMs, intervalMs) := p.schedule[series];
      RunLaterKeeps(p, term, firstDelayMs, series, intervalMs, now);
      ScheduledFromKeeps(RunLater(p, term, firstDelayMs, series, intervalMs, now), term, series + 1, now);
    }
  }

  lemma RunAsSchedulerKeeps(p: Process, now: int)
    requires Safe(p) && HasNoClaim(p)
    ensures Safe(RunAsScheduler(p, now)) && KeepsEnded(p, RunAsScheduler(p, now))
  {
    var q := TermOpened(p, now);
    forall x | HasClaim(q, x) ensures x == ActiveTerm(|p.terms|) {
      if x != ActiveTerm(|p.terms|) {
        assert HasClaim(p, x);
      }
    }
    forall x, t: nat, s: nat | IsActivation(q, x, t, s) ensures IsActivation(p, x, t, s) {}
    forall t | 0 <= t < |p.terms| ensures !p.terms[t].isActive {
      assert !HasClaim(p, ActiveTerm(t));
    }
    ScheduledFromKeeps(q, |p.terms|, 0, now);
  }

  lemma FiredKeeps(p: Process, id: nat)
    requires Safe(p) && id < |p.timers| && p.timers[id].isArmed
    ensures p.timers[id].callback.ElectionDue? ==> Safe(Fired(p, id)) && HasNoClaim(Fired(p, id))
    ensures p.timers[id].callback.RunDue? ==>
              var q := TimerDeleted(Fired(p, id), p.timers[id].callback.term, id);
              && Safe(q) && IsIdle(q, p.timers[id].callback.term, p.timers[id].callback.series)
              && KeepsEnded(p, q) && p.timers[id].callback.term < |q.terms|
  {
    match p.timers[id].callback
    case ElectionDue =>
      assert HasClaim(p, ArmedElection(id)) && !HasClaim(Fired(p, id), ArmedElection(id));
      assert AddsNothing(p, Fired(p, id));
    case RunDue(term, series, _) =>
      var q := TimerDeleted(Fired(p, id), term, id);
      assert IsActivation(p, Armed(id), term, series) && !IsActivation(q, Armed(id), term, series);
      assert AddsNothing(p, q);
  }

  lemma {:induction false} OnTimerKeeps(p: Process, id: nat)
    requires Safe(p) && id < |p.timers| && p.timers[id].isArmed
    ensures Safe(OnTimer(p, id)) && KeepsEnded(p, OnTimer(p, id))
  {
    FiredKeeps(p, id);
    match p.timers[id].callback
    case ElectionDue =>
      if !p.isStopping {
        SendKeeps(Fired(p, id), Acquire, ElectionAwaitsLock);
      }
    case RunDue(term, series, intervalMs) =>
      SendKeeps(TimerDeleted(Fired(p, id), term, id), Refresh, RunAwaitsRenewal(term, series, intervalMs));
  }

  lemma OnIntervalKeeps(p: Process, term: nat, now: int)
    requires Safe(p)
    ensures Safe(OnInterval(p, term, now)) && KeepsEnded(p, OnInterval(p, term, now))
  {
    var q := p.(intervals := p.intervals[term := now + RENEW_INTERVAL_MS]);
    assert AddsNothing(p, q);
    SendKeeps(q, Refresh, IntervalAwaitsRenewal(term));
  }

  lemma WithAnswerKeeps(p: Process, id: nat)
    requires Safe(p) && id < |p.calls|
    ensures Safe(WithAnswer(p, id))
    ensures IsElection(p.calls[id].waiter) ==> HasNoClaim(WithAnswer(p, id))
    ensures p.calls[id].waiter.RunAwaitsRenewal? ==>
              && IsIdle(WithAnswer(p, id), p.calls[id].waiter.term, p.calls[id].waiter.series)
              && p.calls[id].waiter.term < |p.terms|
  {
    var q := WithAnswer(p, id);
    assert AddsNothing(p, q);
    if IsElection(p.calls[id].waiter) {
      assert HasClaim(p, PendingElection(id)) && !HasClaim(q, PendingElection(id));
    }
    if p.calls[id].waiter.RunAwaitsRenewal? {
      var term, series := p.calls[id].waiter.term, p.calls[id].waiter.series;
      assert IsActivation(p, Renewing(id), term, series) && !IsActivation(q, Renewing(id), term, series);
    }
  }

  lemma OnRunAnswerKeeps(p: Process, term: nat, series: nat, intervalMs: nat, ok: bool, now: int)
    requires Safe(p) && term < |p.terms| && IsIdle(p, term, series)
    ensures Safe(OnRunAnswer(p, term, series, intervalMs, ok, now))
             && KeepsEnded(p, OnRunAnswer(p, term, series, intervalMs, ok, now))
  {
    if ok && p.IsActive(term) {
      var q := OnRunAnswer(p, term, series, intervalMs, ok, now);
      forall x | HasClaim(q, x) ensures HasClaim(p, x) {}
      forall x, t: nat, s: nat | IsActivation(q, x, t, s) && x != Working(|p.runs|) ensures IsActivation(p, x, t, s) {}
    } else {
      RunLaterKeeps(p, term, RetryMs(intervalMs), series, intervalMs, now);
    }
  }

  lemma OnIntervalAnswerKeeps(p: Process, term: nat, ok: bool, now: int)
    requires Safe(p)
    ensures Safe(OnIntervalAnswer(p, term, ok, now)) && KeepsEnded(p, OnIntervalAnswer(p, term, ok, now))
  {
    if !ok && p.IsActive(term) {
      var q := p.(intervals := p.intervals - {term});
      assert AddsNothing(p, q);
      EndTermKeeps(q, term);
      assert HasClaim(q, ActiveTerm(term));
      RetryKeeps(EndTerm(q, term), now);
    }
  }

  lemma OnElectionAnswerKeeps(p: Process, isLastTry: bool, ok: bool, now: int)
    requires Safe(p) && HasNoClaim(p)
    ensures Safe(OnElectionAnswer(p, isLastTry, ok, now)) && KeepsEnded(p, OnElectionAnswer(p, isLastTry, ok, now))
  {
    if ok {
      RunAsSchedulerKeeps(p, now);
    } else if isLastTry {
      RetryKeeps(p, now);
    } else {
      SendKeeps(p, Refresh, ElectionAwaitsRenewal);
    }
  }

  lemma {:induction false} OnAnswerKeeps(p: Process, id: nat, ok: bool, now: int)
    requires Safe(p) && id < |p.calls|
    ensures Safe(OnAnswer(p, id, ok, now)) && KeepsEnded(p, OnAnswer(p, id, ok, now))
  {
    var q := WithAnswer(p, id);
    WithAnswerKeeps(p, id);
    match p.calls[id].waiter
    case RunAwaitsRenewal(term, series, intervalMs) => OnRunAnswerKeeps(q, term, series, intervalMs, ok, now);
    case IntervalAwaitsRenewal(term) => OnIntervalAnswerKeeps(q, term, ok, now);
    case ElectionAwaitsLock => OnElectionAnswerKeeps(q, false, ok, now);
    case ElectionAwaitsRenewal => OnElectionAnswerKeeps(q, true, ok, now);
    case _ =>
  }

  lemma OnTaskEndKeeps(p: Process, run: nat, now: int)
    requires Safe(p) && run < |p.runs| && !p.runs[run].isDone
    ensures Safe(OnTaskEnd(p, run, now)) && KeepsEnded(p, OnTaskEnd(p, run, now))
  {
    var Run(term, series, intervalMs, _) := p.runs[run];
    var q := WithDone(p, run);
    assert IsActivation(p, Working(run), term, series) && !IsActivation(q, Working(run), term, series);
    assert AddsNothing(p, q);
    RunLaterKeeps(q, term, intervalMs, series, intervalMs, now);
  }

  lemma {:induction false} OnStopKeeps(p: Process)
    requires Safe(p)
    ensures Safe(OnStop(p)) && KeepsEnded(p, OnStop(p))
    ensures !p.isStopping ==> forall t :: !OnStop(p).IsActive(t)
  {
    if !p.isStopping {
      var q := p.(isStopping := true);
      assert AddsNothing(p, q);
      var ended := if p.currentTerm.Some? then EndTerm(q, p.currentTerm.value) else q;
      if p.currentTerm.Some? {
        EndTermKeeps(q, p.currentTerm.value);
      }
      SendKeeps(ended, Release, ResignationAwaitsRelease);
    }
  }

  lemma BootedIsSafe(schedule: seq<Series>)
    ensures Safe(Booted(schedule))
  {
    var p := Booted(schedule);
    forall x | HasClaim(p, x) ensures x == PendingElection(0) {}
    forall x, t: nat, n: nat ensures !IsActivation(p, x, t, n) {}
  }
}

/** The callbacks of the scheduler as the program runs them, in place; each keeps the process safe. */
module SchedulerInPlace {
  import opened Options
  import opened Scheduler
  import opened SchedulerProcessSafety

  /** The same callbacks as the program runs them: module state changed in place. */
  class SchedulerProcess {
    const schedule: seq<Series>
    var isStopping: bool
    var currentTerm: Option<nat>
    var terms: seq<Term>
    var timers: seq<Timer>
    var intervals: map<nat, int>
    var calls: seq<Call>
    var runs: seq<Run>

    ghost predicate Valid()
      reads this
    {
      Safe(State())
    }

    ghost function State(): Process
      reads this
    {
      Process(schedule, isStopping, currentTerm, terms, timers, intervals, calls, runs)
    }

    constructor (schedule: seq<Series>)
      ensures Valid() && State() == Booted(schedule)
    {
      this.schedule := schedule;
      isStopping, currentTerm, terms, timers, intervals, calls, runs := false, None, [], [], map[], [], [];
      new;
      calls := [Call(Acquire, Unsent, ElectionAwaitsLock)];
      BootedIsSafe(schedule);
    }

    method SetTimeout(dueAt: int, callback: Callback) returns (id: nat)
      modifies this`timers
      ensures id == |old(timers)| && timers == old(timers) + [Timer(dueAt, callback, true)]
    {
      id := |timers|;
      timers := timers + [Timer(dueAt, callback, true)];
    }

    method SendCommand(command: Command, waiter: Waiter)
      modifies this`calls
      ensures State() == Send(old(State()), command, waiter)
    {
      calls := calls + [Call(command, Unsent, waiter)];
    }

    method ArmRun(term: nat, delayMs: nat, series: nat, intervalMs: nat, now: int)
      modifies this`timers, this`terms
      ensures State() == RunLater(old(State()), term, delayMs, series, intervalMs, now)
    {
      if |terms| <= term || !terms[term].isActive {
        return;
      }
      var timer := SetTimeout(now + delayMs, RunDue(term, series, intervalMs));
      terms := terms[term := Term(true, terms[term].timers + {timer})];
    }

    method EndSchedulerTerm(term: nat)
      requires term < |terms|
      modifies this`timers, this`terms
      ensures State() == EndTerm(old(State()), term)
    {
      terms := terms[term := Term(false, terms[term].timers)];
      ghost var all := terms[term].timers;
      var left := terms[term].timers;
      while left != {}
        invariant left <= all
        invariant terms == old(terms)[term := Term(false, all)]
        invariant timers == Disarmed(old(timers), all - left)
        decreases left
      {
        var timer :| timer in left;
        if timer < |timers| {
          timers := timers[timer := timers[timer].(isArmed := false)];
        }
        left := left - {timer};
      }
      assert all - {} == all;
      terms := terms[term := Term(false, {})];
    }

    method StartTerm(now: int)
      modifies this`timers, this`terms, this`currentTerm, this`intervals
      ensures State() == RunAsScheduler(old(State()), now)
    {
      var term := |terms|;
      terms := terms + [Term(true, {})];
      currentTerm := Some(term);
      intervals := intervals[term := now + RENEW_INTERVAL_MS];
      for series := 0 to |schedule|
        invariant ScheduledFrom(State(), term, series, now) == RunAsScheduler(old(State()), now)
      {
        ArmRun(term, schedule[series].firstDelayMs, series, schedule[series].intervalMs, now);
      }
    }

    method TimerFires(id: nat)
      requires id < |timers|
      modifies this`timers, this`terms, this`calls
      ensures State() == OnTimer(old(State()), id)
      ensures old(Valid() && timers[id].isArmed) ==> Valid()
    {
      if Valid() && timers[id].isArmed {
        OnTimerKeeps(State(), id);
      }
      var callback := timers[id].callback;
      timers := timers[id := timers[id].(isArmed := false)];
      match callback
      case ElectionDue =>
        if !isStopping {
          SendCommand(Acquire, ElectionAwaitsLock);
        }
      case RunDue(term, series, intervalMs) =>
        if term < |terms| {
          terms := terms[term := Term(terms[term].isActive, terms[term].timers - {id})];
        }
        SendCommand(Refresh, RunAwaitsRenewal(term, series, intervalMs));
    }

    method IntervalFires(term: nat, now: int)
      modifies this`intervals, this`calls
      ensures State() == OnInterval(old(State()), term, now)
      ensures old(Valid()) ==> Valid()
    {
      if Valid() {
        OnIntervalKeeps(State(), term, now);
      }
      intervals := intervals[term := now + RENEW_INTERVAL_MS];
      SendCommand(Refresh, IntervalAwaitsRenewal(term));
    }

    /** The rest of `run` after its renewal. */
    method RunGoesOn(term: nat, series: nat, intervalMs: nat, ok: bool, now: int)
      modifies this`timers, this`terms, this`runs
      ensures State() == OnRunAnswer(old(State()), term, series, intervalMs, ok, now)
    {
      var isLeader := ok && term < |terms| && terms[term].isActive;
      if isLeader {
        runs := runs + [Run(term, series, intervalMs, false)];
      } else {
        ArmRun(term, if intervalMs < SKIPPED_RUN_RETRY_MS
            then intervalMs else SKIPPED_RUN_RETRY_MS, series, intervalMs, now);
      }
    }

    /** The rest of the interval callback after its renewal. */
    method IntervalGoesOn(term: nat, isStillLeader: bool, now: int)
      modifies this`timers, this`terms, this`intervals
      ensures State() == OnIntervalAnswer(old(State()), term, isStillLeader, now)
    {
      if isStillLeader || |terms| <= term || !terms[term].isActive {
        return;
      }
      intervals := intervals - {term};
      EndSchedulerTerm(term);
      var _ := SetTimeout(now + ELECTION_RETRY_MS, ElectionDue);
    }

    /** The rest of `tryBecomeScheduler` after the lock, or after the renewal that follows a lock already taken. */
    method ElectionGoesOn(isLastTry: bool, ok: bool, now: int)
      modifies this`timers, this`terms, this`currentTerm, this`intervals, this`calls
      ensures State() == OnElectionAnswer(old(State()), isLastTry, ok, now)
    {
      if ok {
        StartTerm(now);
      } else if isLastTry {
        var _ := SetTimeout(now + ELECTION_RETRY_MS, ElectionDue);
      } else {
        SendCommand(Refresh, ElectionAwaitsRenewal);
      }
    }

    method AnswerArrives(id: nat, ok: bool, now: int)
      requires id < |calls|
      modifies this
      ensures State() == OnAnswer(old(State()), id, ok, now)
      ensures old(Valid()) ==> Valid()
    {
      if Valid() {
        OnAnswerKeeps(State(), id, ok, now);
      }
      var waiter := calls[id].waiter;
      calls := calls[id := calls[id].(waiter := Answered)];
      match waiter
      case RunAwaitsRenewal(term, series, intervalMs) => RunGoesOn(term, series, intervalMs, ok, now);
      case IntervalAwaitsRenewal(term) => IntervalGoesOn(term, ok, now);
      case ElectionAwaitsLock => ElectionGoesOn(false, ok, now);
      case ElectionAwaitsRenewal => ElectionGoesOn(true, ok, now);
      case _ =>
    }

    method TaskEnds(run: nat, now: int)
      requires run < |runs|
      modifies this`timers, this`terms, this`runs
      ensures State() == OnTaskEnd(old(State()), run, now)
      ensures old(Valid() && !runs[run].isDone) ==> Valid()
    {
      if Valid() && !runs[run].isDone {
        OnTaskEndKeeps(State(), run, now);
      }
      var Run(term, series, intervalMs, _) := runs[run];
      runs := runs[run := runs[run].(isDone := true)];
      ArmRun(term, intervalMs, series, intervalMs, now);
    }

    method Stop()
      modifies this
      ensures State() == OnStop(old(State()))
      ensures old(Valid()) ==> Valid()
    {
      if Valid() {
        OnStopKeeps(State());
      }
      if isStopping {
        return;
      }
      isStopping := true;
      if currentTerm.Some? && currentTerm.value < |terms| {
        EndSchedulerTerm(currentTerm.value);
      }
      SendCommand(Release, ResignationAwaitsRelease);
    }
  }
}

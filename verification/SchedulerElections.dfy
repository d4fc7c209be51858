/** Elections over whole runs: an instance never drops out of them, and which of them outlive a stop signal. */
module SchedulerElections {
  import opened Options
  import RedisLock
  import opened Scheduler
  import opened SchedulerProcessSafety
  import opened SchedulerRuns

  lemma {:induction false} ScheduledFromKeepsTerms(p: Process, term: nat, series: nat, now: int)
    requires p.IsActive(term)
    ensures var q := ScheduledFrom(p, term, series, now);
            |q.terms| == |p.terms| && q.IsActive(term) && q.isStopping == p.isStopping
    decreases |p.schedule| - series
  {
    if series < |p.schedule| {
      var Series(firstDelayMs, intervalMs) := p.schedule[series];
      ScheduledFromKeepsTerms(RunLater(p, term, firstDelayMs, series, intervalMs, now), term, series + 1, now);
    }
  }

  lemma OpeningAddsTerm(p: Process, now: int)
    ensures var q := RunAsScheduler(p, now);
            && |q.terms| == |p.terms| + 1 && q.IsActive(|p.terms|) && q.isStopping == p.isStopping && q.calls == p.calls
  {
    ScheduledFromKeepsTerms(TermOpened(p, now), |p.terms|, 0, now);
    ScheduledFromKeepsCalls(TermOpened(p, now), |p.terms|, 0, now);
  }

  // Which actions open a term

  /** The answer that wins an election in flight. */
  ghost predicate Wins(s: System, a: Action, i: nat) {
    a.AnswerArrives? && a.instance == i && a.ok && i in s.processes && HasClaim(s.processes[i], PendingElection(a.id))
  }

  /** An action opens a term exactly when it wins an election in flight, whether the instance is stopping or not. */
  lemma {:induction false} TermsOpenByElection(s: System, a: Action, i: nat)
    requires IsEnabled(s, a) && i in s.processes
    ensures i in After(s, a).processes
    ensures |After(s, a).processes[i].terms| == |s.processes[i].terms| + if Wins(s, a, i) then 1 else 0
    ensures Wins(s, a, i) ==> After(s, a).processes[i].IsActive(|s.processes[i].terms|)
    ensures s.processes[i].isStopping ==> After(s, a).processes[i].isStopping
  {
    if a.AnswerArrives? && a.instance == i {
      OpeningAddsTerm(WithAnswer(s.processes[i], a.id), s.now);
    }
  }

  /**
    With an election in flight a stopping instance opens one when the election is won: stopping does not call it off.
  */
  lemma {:induction false} ElectionOutlivesStop(s: System, i: nat, id: nat)
    requires IsEnabled(s, AnswerArrives(i, id, true)) && s.processes[i].isStopping
    requires HasClaim(s.processes[i], PendingElection(id))
    ensures var q := After(s, AnswerArrives(i, id, true)).processes[i];
            q.isStopping && |q.terms| == |s.processes[i].terms| + 1 && q.IsActive(|s.processes[i].terms|)
  {
    TermsOpenByElection(s, AnswerArrives(i, id, true), i);
  }

  ghost predicate IsElecting(p: Process) {
    exists id :: HasClaim(p, PendingElection(id))
  }

  ghost predicate HasStoppedForGood(s: System, i: nat) {
    i in s.processes && s.processes[i].isStopping && !IsElecting(s.processes[i])
  }

  lemma StepKeepsStopped(s: System, a: Action, i: nat)
    requires IsEnabled(s, a) && HasStoppedForGood(s, i)
    ensures HasStoppedForGood(After(s, a), i)
  {
    var p, q := s.processes[i], After(s, a).processes[i];
    TermsOpenByElection(s, a, i);
    StoppedWinsNothing(s, a, i);
    if a.AnswerArrives? {
      assert !HasClaim(p, PendingElection(a.id));
    }
    forall id ensures !HasClaim(q, PendingElection(id)) {
      assert !HasClaim(p, PendingElection(id));
    }
  }

  lemma WinningEndsElections(s: System, a: Action, i: nat)
    requires Invariant(s) && IsEnabled(s, a) && Wins(s, a, i) && s.processes[i].isStopping
    ensures HasStoppedForGood(After(s, a), i)
  {
    TermsOpenByElection(s, a, i);
    StepKeepsProcess(s, a, i);
    var q := After(s, a).processes[i];
    var won := ActiveTerm(|s.processes[i].terms|);
    assert HasClaim(q, won);
    forall id ensures !HasClaim(q, PendingElection(id)) {
      assert HasClaim(q, PendingElection(id)) ==> PendingElection(id) == won;
    }
  }

  /** An instance that is stopping and has no election in flight opens no term any more. */
  lemma {:induction false} StoppedOpensNoTerm(states: seq<System>, actions: seq<Action>, j: nat, k: nat, i: nat)
    requires IsRun(states, actions) && j <= k < |states| && HasStoppedForGood(states[j], i)
    ensures HasStoppedForGood(states[k], i) && |states[k].processes[i].terms| == |states[j].processes[i].terms|
    decreases k - j
  {
    if j < k {
      StoppedOpensNoTerm(states, actions, j, k - 1, i);
      StepKeepsStopped(states[k - 1], actions[k - 1], i);
      StoppedWinsNothing(states[k - 1], actions[k - 1], i);
      TermsOpenByElection(states[k - 1], actions[k - 1], i);
    }
  }

  ghost predicate HasWon(states: seq<System>, actions: seq<Action>, j: nat, k: nat, i: nat)
    requires IsRun(states, actions) && k < |states|
  {
    exists n: nat | j <= n < k :: Wins(states[n], actions[n], i)
  }

  /**
    Over a run a stopping instance opens a term exactly when
    it wins an election that was in flight, and then only one.
  */
  lemma {:induction false} StoppedOpensByElection(states: seq<System>, actions: seq<Action>, j: nat, k: nat, i: nat)
    requires IsRun(states, actions) && j <= k < |states|
    requires i in states[j].processes && states[j].processes[i].isStopping
    ensures i in states[k].processes && states[k].processes[i].isStopping
    ensures |states[k].processes[i].terms|
         == |states[j].processes[i].terms| + if HasWon(states, actions, j, k, i) then 1 else 0
    ensures HasWon(states, actions, j, k, i) ==> HasStoppedForGood(states[k], i)
    decreases k - j
  {
    hide HasWon, Wins, After, IsEnabled, Invariant, IsElecting;
    if j == k {
      NothingIsWonYet(states, actions, j, i);
    } else {
      StoppedOpensByElection(states, actions, j, k - 1, i);
      RunKeepsInvariant(states, actions, k - 1);
      WonSoFar(states, actions, j, k, i);
      StoppedStep(states[k - 1], actions[k - 1], i);
    }
  }

  /** What one more action makes of a stopping instance. */
  lemma StoppedStep(s: System, a: Action, i: nat)
    requires Invariant(s) && IsEnabled(s, a) && i in s.processes && s.processes[i].isStopping
    ensures i in After(s, a).processes && After(s, a).processes[i].isStopping
    ensures |After(s, a).processes[i].terms| == |s.processes[i].terms| + if Wins(s, a, i) then 1 else 0
    ensures Wins(s, a, i) ==> !HasStoppedForGood(s, i) && HasStoppedForGood(After(s, a), i)
    ensures HasStoppedForGood(s, i) ==> HasStoppedForGood(After(s, a), i)
  {
    hide Wins, After, IsEnabled, Invariant, HasStoppedForGood;
    TermsOpenByElection(s, a, i);
    if HasStoppedForGood(s, i) {
      StepKeepsStopped(s, a, i);
      StoppedWinsNothing(s, a, i);
    } else if Wins(s, a, i) {
      WinningEndsElections(s, a, i);
    }
  }

  lemma NothingIsWonYet(states: seq<System>, actions: seq<Action>, j: nat, i: nat)
    requires IsRun(states, actions) && j < |states|
    ensures !HasWon(states, actions, j, j, i)
  {
  }

  lemma StoppedWinsNothing(s: System, a: Action, i: nat)
    requires HasStoppedForGood(s, i)
    ensures !Wins(s, a, i)
  {
    if a.AnswerArrives? {
      assert !HasClaim(s.processes[i], PendingElection(a.id));
    }
  }

  lemma WonSoFar(states: seq<System>, actions: seq<Action>, j: nat, k: nat, i: nat)
    requires IsRun(states, actions) && j < k < |states|
    ensures HasWon(states, actions, j, k, i)
       <==> HasWon(states, actions, j, k - 1, i) || Wins(states[k - 1], actions[k - 1], i)
  {
    hide Wins;
  }

  // Which elections can still be won

  /** The instance holds the lock, or has asked for it and can still be given it. */
  ghost predicate CanHold(s: System, i: nat)
    requires i in s.processes
  {
    || RedisLock.IsHeldBy(s.lock, i, s.now)
    || exists x: nat :: IsAsking(s.processes[i], x)
  }

  predicate IsAsking(p: Process, x: nat) {
    x < |p.calls| && p.calls[x].command == Acquire && p.calls[x].outcome == Unsent
  }

  /**
    The election has its grant, can still be given the lock, or
    has a renewal to come of a lock that the instance can hold.
  */
  ghost predicate CanBeWon(s: System, i: nat, id: nat)
    requires i in s.processes
  {
    var p := s.processes[i];
    && HasClaim(p, PendingElection(id))
    && (|| p.calls[id].outcome.Granted?
        || IsAsking(p, id)
        || ((p.calls[id].outcome == Unsent || p.calls[id].waiter.ElectionAwaitsLock?) && CanHold(s, i)))
  }

  ghost predicate CanWin(s: System, i: nat)
    requires i in s.processes
  {
    exists id: nat :: CanBeWon(s, i, id)
  }

  lemma NothingNewIsAsked(s: System, a: Action, i: nat, x: nat)
    requires IsEnabled(s, a) && i in s.processes && s.processes[i].isStopping && i in After(s, a).processes
    requires IsAsking(After(s, a).processes[i], x)
    ensures IsAsking(s.processes[i], x)
  {
    if a.AnswerArrives? && a.instance == i {
      OpeningAddsTerm(WithAnswer(s.processes[i], a.id), s.now);
    }
  }

  lemma LockComesFromAsking(s: System, a: Action, i: nat)
    requires IsEnabled(s, a) && i in s.processes && i in After(s, a).processes
    requires RedisLock.IsHeldBy(After(s, a).lock, i, After(s, a).now) && !RedisLock.IsHeldBy(s.lock, i, s.now)
    ensures a.RedisActs? && a.instance == i && IsAsking(s.processes[i], a.id)
  {
  }

  lemma StepGivesNoHold(s: System, a: Action, i: nat)
    requires IsEnabled(s, a) && i in s.processes && s.processes[i].isStopping && i in After(s, a).processes
    requires !CanHold(s, i)
    ensures !CanHold(After(s, a), i)
  {
    hide After, IsEnabled, RedisLock.IsHeldBy;
    var t := After(s, a);
    if RedisLock.IsHeldBy(t.lock, i, t.now) {
      LockComesFromAsking(s, a, i);
    }
    forall x: nat ensures !IsAsking(t.processes[i], x) {
      if IsAsking(t.processes[i], x) {
        NothingNewIsAsked(s, a, i, x);
      }
    }
  }

  /** What an election in flight after an action was before it. */
  lemma ElectionCameFrom(s: System, a: Action, i: nat, id: nat)
    requires IsEnabled(s, a) && i in s.processes && s.processes[i].isStopping && i in After(s, a).processes
    requires HasClaim(After(s, a).processes[i], PendingElection(id))
    ensures var p, q := s.processes[i], After(s, a).processes[i];
            if id < |p.calls|
            then && HasClaim(p, PendingElection(id)) && q.calls[id].waiter == p.calls[id].waiter
                 && q.calls[id].command == p.calls[id].command
                 && (q.calls[id].outcome == p.calls[id].outcome || a == RedisActs(i, id))
            else && a.AnswerArrives? && a.instance == i && HasClaim(p, PendingElection(a.id))
                 && p.calls[a.id].waiter.ElectionAwaitsLock?
                 && q.calls[id].outcome == Unsent && q.calls[id].command == Refresh
  {
    var p := s.processes[i];
    if !a.RedisActs? {
      StepKeepsCalls(s, a, i);
    }
    if a.AnswerArrives? && a.instance == i {
      AnswerSendsElection(p, a.id, a.ok, s.now);
    }
  }

  lemma AnswerSendsElection(p: Process, call: nat, ok: bool, now: int)
    requires call < |p.calls|
    ensures var q := OnAnswer(p, call, ok, now);
            forall id | |p.calls| <= id < |q.calls| && IsElection(q.calls[id].waiter) ::
              p.calls[call].waiter.ElectionAwaitsLock? && q.calls[id].outcome == Unsent
                  && q.calls[id].command == Refresh
  {
    OpeningAddsTerm(WithAnswer(p, call), now);
  }

  lemma GrantNeedsHold(s: System, i: nat, id: nat)
    requires IsEnabled(s, RedisActs(i, id)) && s.processes[i].calls[id].command == Refresh
    ensures After(s, RedisActs(i, id)).processes[i].calls[id].outcome != Unsent
    ensures After(s, RedisActs(i, id)).processes[i].calls[id].outcome.Granted? ==> RedisLock.IsHeldBy(s.lock, i, s.now)
  {
  }

  /** An election that cannot be won never can be. */
  lemma StepKeepsHopeless(s: System, a: Action, i: nat)
    requires CallsFit(s) && IsEnabled(s, a) && i in s.processes && s.processes[i].isStopping && !CanWin(s, i)
    ensures !Wins(s, a, i) && i in After(s, a).processes && !CanWin(After(s, a), i)
  {
    TermsOpenByElection(s, a, i);
    if a.AnswerArrives? && a.instance == i {
      assert !CanBeWon(s, i, a.id);
    }
    var t := After(s, a);
    forall id: nat ensures !CanBeWon(t, i, id) {
      if HasClaim(t.processes[i], PendingElection(id)) {
        ElectionIsHopeless(s, a, i, id);
      }
    }
  }

  lemma ElectionIsHopeless(s: System, a: Action, i: nat, id: nat)
    requires CallsFit(s) && IsEnabled(s, a) && i in s.processes && s.processes[i].isStopping && !CanWin(s, i)
    requires i in After(s, a).processes && HasClaim(After(s, a).processes[i], PendingElection(id))
    ensures !CanBeWon(After(s, a), i, id)
  {
    hide After, CanHold, RedisLock.IsHeldBy;
    ElectionCameFrom(s, a, i, id);
    var p, t := s.processes[i], After(s, a);
    if id < |p.calls| {
      assert !CanBeWon(s, i, id) && Fits(p.calls[id]);
      if a == RedisActs(i, id) && p.calls[id].command == Refresh {
        GrantNeedsHold(s, i, id);
        if t.processes[i].calls[id].outcome.Granted? {
          HeldIsHold(s, i);
        }
      }
      if !CanHold(s, i) {
        StepGivesNoHold(s, a, i);
      }
    } else {
      assert !CanBeWon(s, i, a.id) && Fits(p.calls[a.id]);
      StepGivesNoHold(s, a, i);
    }
  }

  lemma HeldIsHold(s: System, i: nat)
    requires i in s.processes && RedisLock.IsHeldBy(s.lock, i, s.now)
    ensures CanHold(s, i)
  {
  }

  // How a run goes on

  /** The state after the actions, if all of them are enabled in turn. */
  ghost function Play(s: System, actions: seq<Action>): Option<System>
    decreases |actions|
  {
    if actions == [] then Some(s)
    else if IsEnabled(s, actions[0]) then Play(After(s, actions[0]), actions[1..])
    else None
  }

  lemma {:induction false} PlayJoins(s: System, a: seq<Action>, b: seq<Action>)
    requires Play(s, a).Some?
    ensures Play(s, a + b) == Play(Play(s, a).value, b)
    decreases |a|
  {
    hide After, IsEnabled;
    if a == [] {
      assert a + b == b;
    } else {
      PlayJoins(After(s, a[0]), a[1..], b);
      assert (a + b)[1..] == a[1..] + b;
    }
  }

  lemma PlayOne(s: System, a: Action)
    requires IsEnabled(s, a)
    ensures Play(s, [a]) == Some(After(s, a))
  {
    hide After, IsEnabled;
    assert [a][1..] == [];
  }

  lemma PlayMore(s: System, a: Action, more: seq<Action>)
    requires IsEnabled(s, a)
    ensures Play(s, [a] + more) == Play(After(s, a), more)
  {
    hide After, IsEnabled;
    PlayOne(s, a);
    PlayJoins(s, [a], more);
  }

  /** What can be played from the end of a run makes the run longer. */
  lemma {:induction false} PlayedIsRun(states: seq<System>, actions: seq<Action>, more: seq<Action>)
    returns (later: seq<System>)
    requires IsRun(states, actions) && Play(states[|actions|], more).Some?
    ensures IsRun(states + later, actions + more)
    ensures Some((states + later)[|actions + more|]) == Play(states[|actions|], more)
    decreases |more|
  {
    hide After, IsEnabled;
    if more == [] {
      later := [];
      assert states + later == states && actions + more == actions;
    } else {
      var next := After(states[|actions|], more[0]);
      var rest := PlayedIsRun(states + [next], actions + [more[0]], more[1..]);
      later := [next] + rest;
      assert states + later == states + [next] + rest;
      assert actions + more == actions + [more[0]] + more[1..];
    }
  }

  ghost predicate Opens(s: System, actions: seq<Action>, i: nat)
    requires i in s.processes
  {
    && Play(s, actions).Some? && i in Play(s, actions).value.processes
    && |Play(s, actions).value.processes[i].terms| > |s.processes[i].terms|
  }

  ghost predicate CanOpen(s: System, i: nat)
    requires i in s.processes
  {
    exists actions :: Opens(s, actions, i)
  }

  lemma {:induction false} HopelessOpensNothing(s: System, actions: seq<Action>, i: nat)
    requires Invariant(s) && i in s.processes && s.processes[i].isStopping && !CanWin(s, i)
    ensures !Opens(s, actions, i)
    decreases |actions|
  {
    if actions != [] && IsEnabled(s, actions[0]) {
      var t := After(s, actions[0]);
      StepKeepsInvariant(s, actions[0]);
      StepKeepsHopeless(s, actions[0], i);
      TermsOpenByElection(s, actions[0], i);
      hide After, IsEnabled, Invariant, CanWin, Wins;
      HopelessOpensNothing(t, actions[1..], i);
    }
  }

  // Winning an election that can be won

  lemma GrantedOpens(s: System, i: nat, id: nat) returns (actions: seq<Action>)
    requires i in s.processes && HasClaim(s.processes[i], PendingElection(id))
             && s.processes[i].calls[id].outcome.Granted?
    ensures Opens(s, actions, i)
  {
    var a := AnswerArrives(i, id, true);
    actions := [a];
    PlayOne(s, a);
    TermsOpenByElection(s, a, i);
  }

  /** How long until the lock key is free. */
  function UntilFree(s: System): nat {
    if s.lock.Some? && s.now < s.lock.value.expiresAt then s.lock.value.expiresAt - s.now else 0
  }

  /** Once the lock is free, a call that asks for it is granted it, and the instance holds it. */
  lemma AskingIsGranted(s: System, i: nat, x: nat) returns (t: System)
    requires i in s.processes && IsAsking(s.processes[i], x)
    ensures Play(s, [TimePasses(UntilFree(s)), RedisActs(i, x)]) == Some(t)
    ensures i in t.processes && RedisLock.IsHeldBy(t.lock, i, t.now) && t.processes[i].terms == s.processes[i].terms
    ensures |t.processes[i].calls| == |s.processes[i].calls| && t.processes[i].calls[x].outcome.Granted?
    ensures t.processes[i].calls[x].waiter == s.processes[i].calls[x].waiter
    ensures forall id | 0 <= id < |t.processes[i].calls| && id != x ::
             t.processes[i].calls[id] == s.processes[i].calls[id]
  {
    var free := After(s, TimePasses(UntilFree(s)));
    t := After(free, RedisActs(i, x));
    hide Play;
    PlayOne(free, RedisActs(i, x));
    PlayMore(s, TimePasses(UntilFree(s)), [RedisActs(i, x)]);
    assert [TimePasses(UntilFree(s)), RedisActs(i, x)] == [TimePasses(UntilFree(s))] + [RedisActs(i, x)];
  }

  lemma OpensAfter(s: System, first: seq<Action>, t: System, more: seq<Action>, i: nat)
    requires i in s.processes && Play(s, first) == Some(t) && i in t.processes && Opens(t, more, i)
    requires |t.processes[i].terms| == |s.processes[i].terms|
    ensures Opens(s, first + more, i)
  {
    hide Play;
    PlayJoins(s, first, more);
  }

  lemma AskingOpens(s: System, i: nat, id: nat) returns (actions: seq<Action>)
    requires i in s.processes && HasClaim(s.processes[i], PendingElection(id)) && IsAsking(s.processes[i], id)
    ensures Opens(s, actions, i)
  {
    hide Play, Opens;
    var t := AskingIsGranted(s, i, id);
    var more := GrantedOpens(t, i, id);
    OpensAfter(s, [TimePasses(UntilFree(s)), RedisActs(i, id)], t, more, i);
    actions := [TimePasses(UntilFree(s)), RedisActs(i, id)] + more;
  }

  lemma HeldRenewalOpens(s: System, i: nat, id: nat) returns (actions: seq<Action>)
    requires i in s.processes && HasClaim(s.processes[i], PendingElection(id))
    requires s.processes[i].calls[id].command == Refresh && s.processes[i].calls[id].outcome == Unsent
    requires RedisLock.IsHeldBy(s.lock, i, s.now)
    ensures Opens(s, actions, i)
  {
    hide Play, Opens;
    var t := After(s, RedisActs(i, id));
    PlayOne(s, RedisActs(i, id));
    var more := GrantedOpens(t, i, id);
    OpensAfter(s, [RedisActs(i, id)], t, more, i);
    actions := [RedisActs(i, id)] + more;
  }

  lemma RenewalOpens(s: System, i: nat, id: nat) returns (actions: seq<Action>)
    requires i in s.processes && HasClaim(s.processes[i], PendingElection(id)) && CanHold(s, i)
    requires s.processes[i].calls[id].command == Refresh && s.processes[i].calls[id].outcome == Unsent
    ensures Opens(s, actions, i)
  {
    hide Play, Opens;
    if RedisLock.IsHeldBy(s.lock, i, s.now) {
      actions := HeldRenewalOpens(s, i, id);
    } else {
      var x: nat :| IsAsking(s.processes[i], x);
      var t := AskingIsGranted(s, i, x);
      var more := HeldRenewalOpens(t, i, id);
      OpensAfter(s, [TimePasses(UntilFree(s)), RedisActs(i, x)], t, more, i);
      actions := [TimePasses(UntilFree(s)), RedisActs(i, x)] + more;
    }
  }

  lemma RefusedLockOpens(s: System, i: nat, id: nat) returns (actions: seq<Action>)
    requires i in s.processes && HasClaim(s.processes[i], PendingElection(id)) && CanHold(s, i)
    requires s.processes[i].calls[id].waiter.ElectionAwaitsLock?
    requires !IsAsking(s.processes[i], id)
    ensures Opens(s, actions, i)
  {
    hide Play, Opens;
    var a := AnswerArrives(i, id, false);
    var p, t := s.processes[i], After(s, a);
    PlayOne(s, a);
    if !RedisLock.IsHeldBy(s.lock, i, s.now) {
      var x: nat :| IsAsking(p, x);
      assert IsAsking(t.processes[i], x);
    }
    assert HasClaim(t.processes[i], PendingElection(|p.calls|));
    var more := RenewalOpens(t, i, |p.calls|);
    OpensAfter(s, [a], t, more, i);
    actions := [a] + more;
  }

  lemma WinnableOpens(s: System, i: nat, id: nat) returns (actions: seq<Action>)
    requires CallsFit(s) && i in s.processes && CanBeWon(s, i, id)
    ensures Opens(s, actions, i)
  {
    hide Play, Opens, CanHold;
    assert Fits(s.processes[i].calls[id]);
    if s.processes[i].calls[id].outcome.Granted? {
      actions := GrantedOpens(s, i, id);
    } else if IsAsking(s.processes[i], id) {
      actions := AskingOpens(s, i, id);
    } else if s.processes[i].calls[id].waiter.ElectionAwaitsLock? {
      actions := RefusedLockOpens(s, i, id);
    } else {
      actions := RenewalOpens(s, i, id);
    }
  }

  /**
    A stopping instance can still open a term, in some continuation of the run, exactly when it has an election in
    flight that can be won. So the stop is final for it if and only if it has none.
  */
  lemma {:induction false} StopIsFinalUnlessWinnable(states: seq<System>, actions: seq<Action>, k: nat, i: nat)
    requires IsRun(states, actions) && k < |states|
    requires i in states[k].processes && states[k].processes[i].isStopping
    ensures CanOpen(states[k], i) <==> CanWin(states[k], i)
  {
    var s := states[k];
    RunKeepsInvariant(states, actions, k);
    hide Opens, CanBeWon, Play, IsRun;
    if CanWin(s, i) {
      var id: nat :| CanBeWon(s, i, id);
      var more := WinnableOpens(s, i, id);
    } else {
      forall more ensures !Opens(s, more, i) {
        HopelessOpensNothing(s, more, i);
      }
    }
  }

  lemma RunUpToGrant() returns (s0: System, s1: System, s2: System, s3: System)
    ensures s0 == System(0, None, [], map[])
    ensures IsEnabled(s0, Boots(0, [])) && s1 == After(s0, Boots(0, []))
    ensures IsEnabled(s1, StopSignal(0)) && s2 == After(s1, StopSignal(0))
    ensures 0 in s2.processes && s2.processes[0].isStopping && s2.processes[0].terms == []
    ensures IsEnabled(s2, RedisActs(0, 0)) && s3 == After(s2, RedisActs(0, 0))
    ensures 0 in s3.processes && s3.processes[0].isStopping && s3.processes[0].terms == []
    ensures IsEnabled(s3, AnswerArrives(0, 0, true)) && HasClaim(s3.processes[0], PendingElection(0))
  {
    s0 := System(0, None, [], map[]);
    s1 := After(s0, Boots(0, []));
    s2 := After(s1, StopSignal(0));
    s3 := After(s2, RedisActs(0, 0));
  }

  /** A run in which it happens: the instance is told to stop while its first call for the lock is under way. */
  lemma {:induction false} TermOpensAfterStop() returns (states: seq<System>, actions: seq<Action>)
    ensures IsRun(states, actions) && actions
             == [Boots(0, []), StopSignal(0), RedisActs(0, 0), AnswerArrives(0, 0, true)]
    ensures 0 in states[2].processes && states[2].processes[0].isStopping && states[2].processes[0].terms == []
    ensures 0 in states[4].processes && states[4].processes[0].isStopping && states[4].processes[0].IsActive(0)
  {
    actions := [Boots(0, []), StopSignal(0), RedisActs(0, 0), AnswerArrives(0, 0, true)];
    var s0, s1, s2, s3 := RunUpToGrant();
    TermsOpenByElection(s3, actions[3], 0);
    hide IsEnabled, After;
    states := [s0, s1, s2, s3, After(s3, actions[3])];
  }

  // An instance never drops out

  /** The instance is stopping, or something leads it to a term. */
  ghost predicate StaysInElection(p: Process) {
    p.isStopping || exists x :: HasClaim(p, x)
  }

  lemma StepKeepsElection(s: System, a: Action, i: nat)
    requires ProcessesAreSafe(s) && IsEnabled(s, a) && i in After(s, a).processes
    requires i in s.processes ==> StaysInElection(s.processes[i])
    ensures StaysInElection(After(s, a).processes[i])
  {
    var q := After(s, a).processes[i];
    if i !in s.processes {
      assert HasClaim(q, PendingElection(0));
    } else if !q.isStopping {
      TermsOpenByElection(s, a, i);
      var x :| HasClaim(s.processes[i], x);
      if !HasClaim(q, x) {
        ClaimIsPassedOn(s, a, i, x);
      }
    }
  }

  /** The claim that an action takes away gives way to another one. */
  lemma ClaimIsPassedOn(s: System, a: Action, i: nat, x: Claim)
    requires IsEnabled(s, a) && i in s.processes && i in After(s, a).processes
    requires Safe(s.processes[i]) && !s.processes[i].isStopping && !After(s, a).processes[i].isStopping
    requires HasClaim(s.processes[i], x) && !HasClaim(After(s, a).processes[i], x)
    ensures exists y :: HasClaim(After(s, a).processes[i], y)
  {
    var p, q := s.processes[i], After(s, a).processes[i];
    hide Safe, HasClaim, OnAnswer, OnStop, OnTaskEnd, OnInterval;
    match x
    case ArmedElection(id) =>
      ArmedElectionIsFired(s, a, i, id);
      FiredElectionGoesOn(p, id);
    case ActiveTerm(t) =>
      EndedTermHasRetry(s, a, i, t);
      assert HasClaim(q, ArmedElection(|p.timers|));
    case PendingElection(id) =>
      PendingElectionIsAnswered(s, a, i, id);
      AnsweredElectionGoesOn(p, id, a.ok, s.now);
  }

  lemma FiredElectionGoesOn(p: Process, id: nat)
    requires HasClaim(p, ArmedElection(id)) && !p.isStopping
    ensures exists y :: HasClaim(OnTimer(p, id), y)
  {
    assert HasClaim(OnTimer(p, id), PendingElection(|p.calls|));
  }

  lemma PendingElectionIsAnswered(s: System, a: Action, i: nat, id: nat)
    requires IsEnabled(s, a) && i in s.processes && i in After(s, a).processes
    requires HasClaim(s.processes[i], PendingElection(id)) && !HasClaim(After(s, a).processes[i], PendingElection(id))
    ensures a.AnswerArrives? && a.instance == i && a.id == id
  {
    if a.AnswerArrives? && a.instance == i && a.id != id {
      AnswerKeepsOtherCalls(s.processes[i], a.id, a.ok, s.now);
    }
  }

  lemma AnswerKeepsOtherCalls(p: Process, call: nat, ok: bool, now: int)
    requires call < |p.calls|
    ensures WithAnswer(p, call).calls <= OnAnswer(p, call, ok, now).calls
  {
    OpeningAddsTerm(WithAnswer(p, call), now);
  }

  lemma AnsweredElectionGoesOn(p: Process, id: nat, ok: bool, now: int)
    requires HasClaim(p, PendingElection(id))
    ensures exists y :: HasClaim(OnAnswer(p, id, ok, now), y)
  {
    var r, q := WithAnswer(p, id), OnAnswer(p, id, ok, now);
    OpeningAddsTerm(r, now);
    if ok {
      assert HasClaim(q, ActiveTerm(|p.terms|));
    } else if p.calls[id].waiter.ElectionAwaitsRenewal? {
      assert HasClaim(q, ArmedElection(|p.timers|));
    } else {
      assert HasClaim(q, PendingElection(|p.calls|));
    }
  }

  /** Only its own callback takes an armed election away: no term has it among its timers. */
  lemma ArmedElectionIsFired(s: System, a: Action, i: nat, id: nat)
    requires IsEnabled(s, a) && i in s.processes && i in After(s, a).processes
    requires Safe(s.processes[i]) && !After(s, a).processes[i].isStopping
    requires HasClaim(s.processes[i], ArmedElection(id)) && !HasClaim(After(s, a).processes[i], ArmedElection(id))
    ensures a == TimerFires(i, id)
  {
    if a.AnswerArrives? && a.instance == i {
      AnswerKeepsArmedElection(s.processes[i], a.id, a.ok, s.now, id);
    }
  }

  lemma {:induction false} ScheduledFromKeepsTimers(p: Process, term: nat, series: nat, now: int)
    ensures p.timers <= ScheduledFrom(p, term, series, now).timers
    decreases |p.schedule| - series
  {
    if series < |p.schedule| {
      var Series(firstDelayMs, intervalMs) := p.schedule[series];
      ScheduledFromKeepsTimers(RunLater(p, term, firstDelayMs, series, intervalMs, now), term, series + 1, now);
    }
  }

  lemma AnswerKeepsArmedElection(p: Process, call: nat, ok: bool, now: int, id: nat)
    requires Safe(p) && call < |p.calls| && HasClaim(p, ArmedElection(id))
    ensures HasClaim(OnAnswer(p, call, ok, now), ArmedElection(id))
  {
    ScheduledFromKeepsTimers(TermOpened(WithAnswer(p, call), now), |p.terms|, 0, now);
    assert forall t: nat | t < |p.terms| :: id !in p.terms[t].timers;
  }

  /** A term ends without a stop only when its renewal fails, and then the next election is armed. */
  lemma EndedTermHasRetry(s: System, a: Action, i: nat, t: nat)
    requires IsEnabled(s, a) && i in s.processes && i in After(s, a).processes
    requires !s.processes[i].isStopping && !After(s, a).processes[i].isStopping
    requires HasClaim(s.processes[i], ActiveTerm(t)) && !HasClaim(After(s, a).processes[i], ActiveTerm(t))
    ensures HasClaim(After(s, a).processes[i], ArmedElection(|s.processes[i].timers|))
  {
    assert a.AnswerArrives? ==> a.instance == i;
    if a.AnswerArrives? {
      AnswerKeepsTermOrRetries(s.processes[i], a.id, a.ok, s.now, t);
    }
  }

  lemma {:induction false} ScheduledFromKeepsOthers(p: Process, term: nat, series: nat, now: int, t: nat)
    requires t < |p.terms|
    ensures var q := ScheduledFrom(p, term, series, now); t < |q.terms| && q.terms[t].isActive == p.terms[t].isActive
    decreases |p.schedule| - series
  {
    if series < |p.schedule| {
      var Series(firstDelayMs, intervalMs) := p.schedule[series];
      ScheduledFromKeepsOthers(RunLater(p, term, firstDelayMs, series, intervalMs, now), term, series + 1, now, t);
    }
  }

  lemma AnswerKeepsTermOrRetries(p: Process, call: nat, ok: bool, now: int, t: nat)
    requires call < |p.calls| && HasClaim(p, ActiveTerm(t))
    ensures var q := OnAnswer(p, call, ok, now); HasClaim(q, ActiveTerm(t)) || HasClaim(q, ArmedElection(|p.timers|))
  {
    ScheduledFromKeepsOthers(TermOpened(WithAnswer(p, call), now), |p.terms|, 0, now, t);
  }

  /** In every run an instance that is not stopping has an active term, an election to come or an election in flight. */
  lemma {:induction false} InstanceStaysInElection(states: seq<System>, actions: seq<Action>, k: nat, i: nat)
    requires IsRun(states, actions) && k < |states| && i in states[k].processes
    ensures StaysInElection(states[k].processes[i])
  {
    if k > 0 {
      RunKeepsInvariant(states, actions, k - 1);
      if i in states[k - 1].processes {
        InstanceStaysInElection(states, actions, k - 1, i);
      }
      StepKeepsElection(states[k - 1], actions[k - 1], i);
    }
  }
}

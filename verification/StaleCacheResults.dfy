/** What holds of concurrent callers of `withStaleCache`, over all runs. */
module StaleCacheResults {
  import opened Options
  import RedisLock
  import opened StaleCache
  import opened StaleCacheRuns

  /**
    Whatever is stored was loaded by a caller that accepted it, and is fresh until that caller's `freshTtlSeconds` after
    the load. What a caller returns as its own its loader yielded, and if acceptable it is stored.
  */
  lemma {:induction false} StoredValuesWereAccepted(states: seq<System>, actions: seq<Action>, k: nat)
    requires IsRun(states, actions) && k < |states|
    ensures states[k].data.Some? && states[k].data.value.text.Readable? ==>
              IsAccepted(states[k], states[k].data.value.text.envelope)
    ensures forall i: nat | i < |states[k].callers| && states[k].callers[i].phase.Done? ::
              EndingIsProduced(states[k], i, states[k].callers[i].phase.ending)
              && CallerHasStored(states[k], i, states[k].callers[i])
  {
    hide HasStored, IsAccepted, IsOwn;
    RunKeepsInvariant(states, actions, k);
    forall i: nat | i < |states[k].callers| && states[k].callers[i].phase.Done?
      ensures EndingIsProduced(states[k], i, states[k].callers[i].phase.ending)
    {
      assert CallerIsSupplied(states[k], i, states[k].callers[i]);
    }
  }

  /** The action decides how the caller ends; at most its lock is still to be given back. */
  ghost predicate Ends(s: System, a: Action, i: nat, ending: Ending) {
    && i < |s.callers| && IsEnabled(s, a) && i < |After(s, a).callers|
    && !s.callers[i].phase.Done? && !s.callers[i].phase.Releasing?
    && (After(s, a).callers[i].phase == Done(ending) || After(s, a).callers[i].phase == Releasing(ending))
  }

  /** The value was loaded, and is called stale if and only if its time of freshness has passed since then. */
  ghost predicate IsToldTruly(s: System, ending: Ending, j: nat, loadedAt: int)
    requires ending.Returned?
  {
    && j < |s.callers| && (j, ending.value, loadedAt) in s.produced && s.callers[j].options.shouldCache(ending.value)
    && (ending.stale <==> s.now - loadedAt >= 1000 * s.callers[j].options.freshTtlSeconds)
  }

  /** The action ends the call of its own caller, by the answer to a request, or as its loader ends. */
  lemma EndsByItself(s: System, a: Action, i: nat, ending: Ending)
    requires Ends(s, a, i, ending)
    ensures match a
            case Answers(id, ok) =>
              && id < |s.requests| && s.requests[id].caller == i && s.requests[id].isAwaited
              && (ok ==> s.requests[id].outcome != Unsent)
              && After(s, a).callers[i] == Resumed(s.callers[i], s.requests[id].outcome, ok, s.now)
            case LoaderReturns(j, value) => j == i && After(s, a).callers[i] == OnLoaded(s.callers[i], value, s.now)
            case LoaderFails(j) => j == i && After(s, a).callers[i] == OnLoaderFailed(s.callers[i])
            case _ => false
  {
    hide Resumed, OnLoaded, OnLoaderFailed;
  }

  lemma ResumedChecks(c: Caller, outcome: Outcome, ok: bool, now: int, d: Caller)
    requires BehavesWell(c, now) && !c.phase.Done? && !c.phase.Releasing?
    requires d == Resumed(c, outcome, ok, now) && (d.phase.Done? || d.phase.Releasing?)
    requires d.phase.ending.Returned? && d.phase.ending.fromCache
    ensures d.seen.Some? && d.seen.value.0.value == d.phase.ending.value
    ensures d.phase.ending.stale <==> d.seen.value.0.freshUntil <= now
    ensures d.seen == c.seen || (outcome.Read? && outcome.got == Some(d.seen.value.0))
  {
  }

  lemma LoadedChecks(c: Caller, now: int, d: Caller)
    requires BehavesWell(c, now) && c.phase.Loading? && (d.phase.Done? || d.phase.Releasing?)
    requires d == OnLoaderFailed(c) || exists value :: d == OnLoaded(c, value, now)
    requires d.phase.ending.Returned? && d.phase.ending.fromCache
    ensures d.seen.Some? && d.seen == c.seen && d.seen.value.0.value == d.phase.ending.value
    ensures d.phase.ending.stale <==> d.seen.value.0.freshUntil <= now
  {
  }

  lemma CheckedEnvelope(s: System, a: Action, i: nat, ending: Ending) returns (envelope: Envelope)
    requires Invariant(s) && Ends(s, a, i, ending) && ending.Returned? && ending.fromCache
    ensures IsAccepted(s, envelope) && envelope.value == ending.value
    ensures ending.stale <==> envelope.freshUntil <= s.now
  {
    hide IsAccepted, IsOwn, HasStored, Awaits, OnLoaded, OnLoaderFailed, Resumed, BehavesWell, RequestsMatch,
        HoldsAreTrue, OutcomesFit, ResultsAreStored, EachAwaitsItsRequest;
    EndsByItself(s, a, i, ending);
    var c, d := s.callers[i], After(s, a).callers[i];
    assert BehavesWell(c, s.now) && CallerIsSupplied(s, i, c);
    if a.Answers? {
      assert RequestIsSupplied(s, s.requests[a.id]);
      ResumedChecks(c, s.requests[a.id].outcome, a.ok, s.now, d);
    } else {
      LoadedChecks(c, s.now, d);
    }
    envelope := d.seen.value.0;
  }

  /** A result from the cache is called stale exactly when its loader's `freshTtlSeconds` have passed since the load. */
  lemma {:induction false} StaleIsToldTruly(states: seq<System>, actions: seq<Action>, k: nat, i: nat, ending: Ending)
    requires IsRun(states, actions) && k < |actions| && Ends(states[k], actions[k], i, ending)
    requires ending.Returned? && ending.fromCache
    ensures exists j, loadedAt :: IsToldTruly(states[k], ending, j, loadedAt)
  {
    RunKeepsInvariant(states, actions, k);
    var envelope := CheckedEnvelope(states[k], actions[k], i, ending);
    var j, loadedAt :| WasLoaded(states[k], envelope, j, loadedAt);
    assert IsToldTruly(states[k], ending, j, loadedAt);
  }

  /** The loader failed, or the store failed to answer the request for which the failure is named. */
  predicate IsCause(s: System, a: Action, i: nat, failure: Failure) {
    match failure
    case LoaderFailed => a == LoaderFails(i)
    case _ =>
      && a.Answers? && !a.ok && a.id < |s.requests| && s.requests[a.id].isAwaited && s.requests[a.id].caller == i
      && (failure.ReadFailed? ==> s.requests[a.id].request.ReadKey?)
      && (failure.LockFailed? ==> s.requests[a.id].request.TryLock?)
      && (failure.WriteFailed? ==> s.requests[a.id].request.WriteKey?)
  }

  /**
    A call fails only at the failure that it names. One whose first read found an envelope fails only
    where the request for the lock does.
  */
  lemma {:induction false} FailuresHaveCauses(states: seq<System>, actions: seq<Action>, k: nat, i: nat, ending: Ending)
    requires IsRun(states, actions) && k < |actions| && Ends(states[k], actions[k], i, ending) && ending.Failed?
    ensures IsCause(states[k], actions[k], i, ending.failure)
    ensures states[k].callers[i].cached.Some? ==> ending.failure == LockFailed
  {
    RunKeepsInvariant(states, actions, k);
    var s, a := states[k], actions[k];
    EndsByItself(s, a, i, ending);
    assert BehavesWell(s.callers[i], s.now);
    if a.Answers? {
      assert IsInKind(s.requests[a.id].request, s.requests[a.id].outcome);
      assert RequestOf(s.callers[i].phase) == Some(s.requests[a.id].request);
    }
    hide After, Invariant, IsRun;
  }

  /** A call that has not ended runs its loader, sleeps, or awaits the answer to a request that was sent. */
  lemma {:induction false} NobodyIsStuck(states: seq<System>, actions: seq<Action>, k: nat, i: nat)
    requires IsRun(states, actions) && k < |states| && i < |states[k].callers|
    ensures var s := states[k];
            match s.callers[i].phase
            case ReadingFirst => Awaits(s, i, ReadKey)
            case Polling(_) => Awaits(s, i, ReadKey)
            case Locking => Awaits(s, i, TryLock)
            case Writing(envelope) => Awaits(s, i, WriteKey(envelope))
            case Releasing(_) => Awaits(s, i, Unlock)
            case _ => true
  {
    hide HasStored, IsAccepted, IsOwn, Awaits;
    RunKeepsInvariant(states, actions, k);
  }

  // What follows what

  /** The caller polls again 150 ms later, or tries the lock again where the turn is over. */
  predicate WaitsOn(phase: Phase, deadline: int, now: int) {
    phase == if now < deadline then Sleeping(deadline, now + 150) else Locking
  }

  /** It gives its lock back before it ends, if it has one. */
  predicate LeavesWith(before: Caller, after: Caller, ending: Ending) {
    after.phase == if before.acquired then Releasing(ending) else Done(ending)
  }

  predicate FallsBack(before: Caller, after: Caller, otherwise: Ending) {
    match before.cached
    case Some(envelope) => LeavesWith(before, after, Returned(envelope.value, true, true))
    case None => LeavesWith(before, after, otherwise)
  }

  ghost predicate FollowsRead(before: Caller, after: Caller, got: Option<Envelope>, now: int) {
    if before.phase.Polling? then
      match got
      case Some(envelope) => after.phase == Done(Returned(envelope.value, true, envelope.freshUntil <= now))
      case None => WaitsOn(after.phase, before.phase.deadline, now)
    else if got.Some? && now < got.value.freshUntil then after.phase == Done(Returned(got.value.value, true, false))
    else after.phase == Locking && after.cached == got
         && after.lockWaitDeadline == now + before.options.lockWaitDeadlineMs
  }

  ghost predicate FollowsLock(before: Caller, after: Caller, taken: bool, now: int) {
    && after.acquired == taken
    && if taken then after.phase == Loading
       else match before.cached
            case Some(envelope) => after.phase == Done(Returned(envelope.value, true, true))
            case None =>
              if before.lockWaitDeadline <= now then after.phase == Loading
              else WaitsOn(after.phase, now + before.options.waitForLockMs, now)
  }

  /** What an answer leads to, for each outcome that Redis may give. */
  lemma {:induction false} AnswersAreFollowed(states: seq<System>, actions: seq<Action>, k: nat, id: nat)
    requires IsRun(states, actions) && k < |actions| && actions[k] == Answers(id, true)
    ensures id < |states[k].requests| && states[k].requests[id].caller < |states[k].callers|
             && |states[k + 1].callers| == |states[k].callers|
    ensures var request := states[k].requests[id];
            var before, after := states[k].callers[request.caller], states[k + 1].callers[request.caller];
            match request.outcome
            case Unsent => false
            case Read(got) => FollowsRead(before, after, got, states[k].now)
            case Locked(taken) => FollowsLock(before, after, taken, states[k].now)
            case Written => request.request.WriteKey?
                && LeavesWith(before, after, Returned(request.request.envelope.value, false, false))
            case Unlocked => before.phase.Releasing? && after.phase == Done(before.phase.ending)
  {
    hide Awaits, HasStored, IsAccepted, IsOwn;
    RunKeepsInvariant(states, actions, k);
    assert IsStep(states, actions, k);
    assert IsInKind(states[k].requests[id].request, states[k].requests[id].outcome);
    assert BehavesWell(states[k].callers[states[k].requests[id].caller], states[k].now);
  }

  /**
    What follows a failed answer, and what the end of the loader: a value that
    the caller accepts it sends to the store, fresh for `freshTtlSeconds` from now.
  */
  lemma {:induction false} TheRestIsFollowed(states: seq<System>, actions: seq<Action>, k: nat, i: nat)
    requires IsRun(states, actions) && k < |actions| && i < |states[k].callers|
    ensures |states[k].callers| <= |states[k + 1].callers|
    ensures var before, after, now := states[k].callers[i], states[k + 1].callers[i], states[k].now;
            match actions[k]
            case LoaderReturns(j, value) => j == i ==>
              if before.options.shouldCache(value)
              then after.phase == Writing(Envelope(now + 1000 * before.options.freshTtlSeconds, value))
              else FallsBack(before, after, Returned(value, false, false))
            case LoaderFails(j) => j == i ==> FallsBack(before, after, Failed(LoaderFailed))
            case Wakes(j) => j == i ==> before.phase.Sleeping? && after.phase == Polling(before.phase.deadline)
            case Answers(id, ok) => !ok && id < |states[k].requests| && states[k].requests[id].caller == i ==> (
              match states[k].requests[id].request
              case ReadKey => after.phase == Done(Failed(ReadFailed))
              case TryLock => after.phase == Done(Failed(LockFailed))
              case WriteKey(_) => FallsBack(before, after, Failed(WriteFailed))
              case Unlock => before.phase.Releasing? && after.phase == Done(before.phase.ending))
            case _ => after == before
  {
    hide Awaits, HasStored, IsAccepted, IsOwn;
    RunKeepsInvariant(states, actions, k);
    assert IsStep(states, actions, k);
  }

  /**
    A caller that waits does so for less than one turn past its deadline, and sleeps for less than one poll past the
    end of the turn. At the deadline it stops waiting for the lock and loads.
  */
  lemma {:induction false} WaitIsBounded(states: seq<System>, actions: seq<Action>, k: nat, i: nat)
    requires IsRun(states, actions) && k < |states| && i < |states[k].callers| && states[k].callers[i].IsWaiting()
    ensures var c := states[k].callers[i];
            && c.phase.deadline < c.lockWaitDeadline + c.options.waitForLockMs
            && (c.phase.Sleeping? ==> c.phase.wakeAt < c.lockWaitDeadline + c.options.waitForLockMs + POLL_MS)
  {
    RunKeepsInvariant(states, actions, k);
  }

  /** The caller loads without a lock because it waited until its deadline, or its lock has lapsed. */
  ghost predicate IsExcused(s: System, i: nat)
    requires i < |s.callers|
  {
    if s.callers[i].acquired then i in s.holds && s.holds[i] <= s.now else s.callers[i].lockWaitDeadline <= s.now
  }

  /**
    Of two callers that load at the same time, at least one waited
    in vain until its deadline or lost its lock to the clock.
  */
  lemma {:induction false} LoadersExcludeEachOther(states: seq<System>, actions: seq<Action>, k: nat, i: nat, j: nat)
    requires IsRun(states, actions) && k < |states| && i < |states[k].callers| && j < |states[k].callers| && i != j
    requires states[k].callers[i].IsLoading() && states[k].callers[j].IsLoading()
    ensures IsExcused(states[k], i) || IsExcused(states[k], j)
  {
    RunKeepsInvariant(states, actions, k);
    var s := states[k];
    assert BehavesWell(s.callers[i], s.now) && BehavesWell(s.callers[j], s.now);
  }

  /** An unexpired lock is lost only by its owner's own request to release it, or by the clock. */
  lemma {:induction false} OnlyTheOwnerFrees(states: seq<System>, actions: seq<Action>, k: nat, i: nat)
    requires IsRun(states, actions) && k < |actions|
    requires RedisLock.IsHeldBy(states[k].lock, i, states[k].now)
    requires !RedisLock.IsHeldBy(states[k + 1].lock, i, states[k].now)
    ensures actions[k].RedisActs? && actions[k].id < |states[k].requests|
    ensures states[k].requests[actions[k].id] == Sent(i, Unlock, Unsent, states[k].requests[actions[k].id].isAwaited)
    ensures states[k + 1].lock.None?
    ensures i < |states[k].callers| && (states[k].callers[i].phase.Releasing? || states[k].callers[i].phase.Done?)
  {
    assert IsStep(states, actions, k);
    RunKeepsInvariant(states, actions, k);
  }

  /** What Redis does at a request: the key then lives for `staleTtlSeconds`, and the lock for `lockTtlSeconds`. */
  lemma {:induction false} RequestsAreCarriedOut(states: seq<System>, actions: seq<Action>, k: nat, id: nat)
    requires IsRun(states, actions) && k < |actions| && actions[k] == RedisActs(id)
    ensures id < |states[k].requests| && states[k].requests[id].caller < |states[k].callers|
             && |states[k + 1].requests| == |states[k].requests|
    ensures var s, t := states[k], states[k + 1];
            var i, options := s.requests[id].caller, s.callers[s.requests[id].caller].options;
            match s.requests[id].request
            case ReadKey =>
              && t.data == s.data && t.lock == s.lock && t.requests[id].outcome.Read?
              && forall envelope :: t.requests[id].outcome.got == Some(envelope)
                   <==> exists expiresAt :: s.data == Some(Entry(Readable(envelope), expiresAt)) && s.now < expiresAt
            case WriteKey(envelope) =>
              t.data == Some(Entry(Readable(envelope), s.now + 1000 * options.staleTtlSeconds)) && t.lock == s.lock
            case TryLock =>
              && t.data == s.data && (t.requests[id].outcome == Locked(true) || t.requests[id].outcome == Locked(false))
              && (t.requests[id].outcome == Locked(false) <==> s.lock.Some? && s.now < s.lock.value.expiresAt)
              && t.lock == if t.requests[id].outcome == Locked(false) then s.lock
                           else Some(RedisLock.Held(i, s.now + 1000 * options.lockTtlSeconds))
            case Unlock =>
              && t.data == s.data
              && t.lock == if s.lock.Some? && s.lock.value.token == i && s.now < s.lock.value.expiresAt then None
                           else s.lock
  {
    assert IsStep(states, actions, k);
  }
}

/**
  `withStaleCache` of staleCache.ts, as the steps of one caller between its awaits.

  The store is Redis: a caller sends it a request, and goes on when that is answered.
*/
module StaleCache {
  import opened Options

  /** Whatever the loaders yield; writing a value as JSON and reading it back gives the value. */
  type Value(==, !new)

  datatype Envelope = Envelope(freshUntil: int, value: Value)

  datatype CacheOptions = CacheOptions(
    freshTtlSeconds: nat,
    staleTtlSeconds: nat,
    lockTtlSeconds: nat,
    waitForLockMs: int,
    lockWaitDeadlineMs: int,
    shouldCache: Value -> bool)

  const POLL_MS := 150

  datatype Failure = ReadFailed | LockFailed | LoaderFailed | WriteFailed
  datatype Ending = Returned(value: Value, fromCache: bool, stale: bool) | Failed(failure: Failure)

  datatype Phase =
    | ReadingFirst
    | Locking
    | Sleeping(deadline: int, wakeAt: int)
    | Polling(deadline: int)
    | Loading
    | Writing(envelope: Envelope)
    | Releasing(ending: Ending)
    | Done(ending: Ending)

  /** `seen` remembers the last envelope that the caller checked, and when. */
  datatype Caller = Caller(
    options: CacheOptions,
    phase: Phase,
    cached: Option<Envelope>,
    acquired: bool,
    lockWaitDeadline: int,
    seen: Option<(Envelope, int)>)
  {
    predicate IsWaiting() {
      phase.Sleeping? || phase.Polling?
    }

    /** The loader runs, or its value is on its way to the store. */
    predicate IsLoading() {
      phase.Loading? || phase.Writing?
    }
  }

  function Started(options: CacheOptions): Caller {
    Caller(options, ReadingFirst, None, false, 0, None)
  }

  function IsFresh(envelope: Envelope, now: int): bool {
    envelope.freshUntil > now
  }

  function Fail(c: Caller, failure: Failure): Caller {
    c.(phase := Done(Failed(failure)))
  }

  function OnFirstRead(c: Caller, got: Option<Envelope>, now: int): Caller {
    var seen := if got.Some? then Some((got.value, now)) else None;
    if got.Some? && IsFresh(got.value, now)
    then c.(cached := got, seen := seen, phase := Done(Returned(got.value.value, true, false)))
    else c.(cached := got, seen := seen, lockWaitDeadline := now + c.options.lockWaitDeadlineMs, phase := Locking)
  }

  /** One turn of `poll`: it gives up at the deadline, and then the lock is tried again. */
  function Poll(c: Caller, deadline: int, now: int): Caller {
    c.(phase := if now >= deadline then Locking else Sleeping(deadline, now + POLL_MS))
  }

  function OnLock(c: Caller, acquired: bool, now: int): Caller {
    if acquired then c.(acquired := true, phase := Loading)
    else if c.cached.Some? then c.(phase := Done(Returned(c.cached.value.value, true, true)))
    else if now >= c.lockWaitDeadline then c.(phase := Loading)
    else Poll(c, now + c.options.waitForLockMs, now)
  }

  function OnWake(c: Caller): Caller
    requires c.phase.Sleeping?
  {
    c.(phase := Polling(c.phase.deadline))
  }

  function OnPolled(c: Caller, got: Option<Envelope>, now: int): Caller
    requires c.phase.Polling?
  {
    match got
    case Some(envelope) =>
      c.(seen := Some((envelope, now)), phase := Done(Returned(envelope.value, true, envelope.freshUntil <= now)))
    case None => Poll(c, c.phase.deadline, now)
  }

  /** The `finally` block. */
  function Finish(c: Caller, ending: Ending): Caller {
    c.(phase := if c.acquired then Releasing(ending) else Done(ending))
  }

  /** The `catch` block, and the way out for a value that is not to be cached. */
  function FallBack(c: Caller, otherwise: Ending): Caller {
    Finish(c, if c.cached.Some? then Returned(c.cached.value.value, true, true) else otherwise)
  }

  function OnLoaded(c: Caller, value: Value, now: int): Caller {
    if !c.options.shouldCache(value) then FallBack(c, Returned(value, false, false))
    else c.(phase := Writing(Envelope(now + c.options.freshTtlSeconds * 1000, value)))
  }

  function OnLoaderFailed(c: Caller): Caller {
    FallBack(c, Failed(LoaderFailed))
  }

  function OnWritten(c: Caller, ok: bool): Caller
    requires c.phase.Writing?
  {
    if ok then Finish(c, Returned(c.phase.envelope.value, false, false)) else FallBack(c, Failed(WriteFailed))
  }

  function OnReleased(c: Caller): Caller
    requires c.phase.Releasing?
  {
    c.(phase := Done(c.phase.ending))
  }

  /** The envelope that a caller fell back on was checked and found stale; only fresh ones are returned as such. */
  ghost predicate EndsWell(c: Caller, ending: Ending) {
    match ending
    case Returned(value, fromCache, stale) =>
      fromCache ==> c.seen.Some? && c.seen.value.0.value == value && stale == !IsFresh(c.seen.value.0, c.seen.value.1)
    case Failed(failure) => c.cached.Some? ==> failure == LockFailed
  }

  ghost predicate BehavesWell(c: Caller, now: int) {
    && (c.cached.Some? && !c.phase.Done?
        ==> c.seen.Some? && c.seen.value.0 == c.cached.value && !IsFresh(c.cached.value, c.seen.value.1))
    && (c.seen.Some? ==> c.seen.value.1 <= now)
    && (c.phase.ReadingFirst? ==> c.cached.None?)
    && (c.IsWaiting() ==> c.cached.None? && c.phase.deadline < c.lockWaitDeadline + c.options.waitForLockMs)
    && (c.phase.Sleeping? ==> c.phase.wakeAt < c.phase.deadline + POLL_MS)
    && (c.phase.Done? || c.phase.Releasing? ==> EndsWell(c, c.phase.ending))
    && (c.phase.Releasing? && c.phase.ending.Returned? && c.phase.ending.fromCache ==> c.phase.ending.stale)
    && (c.acquired ==> c.IsLoading() || c.phase.Releasing? || c.phase.Done?)
    && (c.IsLoading() && !c.acquired ==> c.lockWaitDeadline <= now)
  }

  /**
    A call of `withStaleCache` as it runs: every method is the
    code between two awaits, and keeps the call well behaved.
  */
  class Call {
    const options: CacheOptions
    var phase: Phase
    var cached: Option<Envelope>
    var acquired: bool
    var lockWaitDeadline: int
    var seen: Option<(Envelope, int)>

    ghost predicate Valid(now: int)
      reads this
    {
      BehavesWell(State(), now)
    }

    ghost function State(): Caller
      reads this
    {
      Caller(options, phase, cached, acquired, lockWaitDeadline, seen)
    }

    constructor (options: CacheOptions)
      ensures State() == Started(options)
      ensures forall now :: Valid(now)
    {
      this.options := options;
      phase, cached, acquired, lockWaitDeadline, seen := ReadingFirst, None, false, 0, None;
    }

    method FirstReadDone(got: Option<Envelope>, now: int)
      modifies this
      ensures State() == OnFirstRead(old(State()), got, now)
      ensures old(Valid(now) && phase.ReadingFirst?) ==> Valid(now)
    {
      cached := got;
      seen := None;
      if got.Some? {
        seen := Some((got.value, now));
        if got.value.freshUntil > now {
          phase := Done(Returned(got.value.value, true, false));
          return;
        }
      }
      lockWaitDeadline := now + options.lockWaitDeadlineMs;
      phase := Locking;
    }

    method PollOnce(deadline: int, now: int)
      modifies this`phase
      ensures State() == Poll(old(State()), deadline, now)
    {
      if now >= deadline {
        phase := Locking;
      } else {
        phase := Sleeping(deadline, now + POLL_MS);
      }
    }

    method LockAnswered(taken: bool, now: int)
      modifies this`phase, this`acquired
      ensures State() == OnLock(old(State()), taken, now)
      ensures old(Valid(now) && phase.Locking?) ==> Valid(now)
    {
      if taken {
        acquired := true;
        phase := Loading;
      } else if cached.Some? {
        phase := Done(Returned(cached.value.value, true, true));
      } else if now >= lockWaitDeadline {
        phase := Loading;
      } else {
        PollOnce(now + options.waitForLockMs, now);
      }
    }

    method Wake()
      requires phase.Sleeping?
      modifies this`phase
      ensures State() == OnWake(old(State()))
      ensures forall now :: old(Valid(now)) ==> Valid(now)
    {
      phase := Polling(phase.deadline);
    }

    method Polled(got: Option<Envelope>, now: int)
      requires phase.Polling?
      modifies this`phase, this`seen
      ensures State() == OnPolled(old(State()), got, now)
      ensures old(Valid(now)) ==> Valid(now)
    {
      if got.Some? {
        seen := Some((got.value, now));
        phase := Done(Returned(got.value.value, true, got.value.freshUntil <= now));
      } else {
        PollOnce(phase.deadline, now);
      }
    }

    method Leave(ending: Ending)
      modifies this`phase
      ensures State() == Finish(old(State()), ending)
    {
      if acquired {
        phase := Releasing(ending);
      } else {
        phase := Done(ending);
      }
    }

    method LeaveWithCached(otherwise: Ending)
      modifies this`phase
      ensures State() == FallBack(old(State()), otherwise)
    {
      if cached.Some? {
        Leave(Returned(cached.value.value, true, true));
      } else {
        Leave(otherwise);
      }
    }

    method Loaded(value: Value, now: int)
      modifies this`phase
      ensures State() == OnLoaded(old(State()), value, now)
      ensures old(Valid(now) && phase.Loading?) ==> Valid(now)
    {
      if !options.shouldCache(value) {
        LeaveWithCached(Returned(value, false, false));
      } else {
        phase := Writing(Envelope(now + options.freshTtlSeconds * 1000, value));
      }
    }

    method WriteAnswered(ok: bool)
      requires phase.Writing?
      modifies this`phase
      ensures State() == OnWritten(old(State()), ok)
      ensures forall now :: old(Valid(now)) ==> Valid(now)
    {
      if ok {
        Leave(Returned(phase.envelope.value, false, false));
      } else {
        LeaveWithCached(Failed(WriteFailed));
      }
    }

    method ReleaseAnswered()
      requires phase.Releasing?
      modifies this`phase
      ensures State() == OnReleased(old(State()))
      ensures forall now :: old(Valid(now)) ==> Valid(now)
    {
      phase := Done(phase.ending);
    }
  }
}

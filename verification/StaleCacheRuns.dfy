/**
  Any number of callers of `withStaleCache` around one cache key and its lock, over all runs.

  Redis carries out a request at any moment after it was sent, also one that was reported as failed. Entries and locks
  expire by the clock, and the key may be forgotten at any moment.
*/
module StaleCacheRuns {
  import opened Options
  import RedisLock
  import opened StaleCache

  /** What lies under the key: text that `parseEnvelope` understands, or text that it does not. */
  datatype Text = Unreadable | Readable(envelope: Envelope)
  datatype Entry = Entry(text: Text, expiresAt: int)

  datatype Request = ReadKey | TryLock | WriteKey(envelope: Envelope) | Unlock
  datatype Outcome = Unsent | Read(got: Option<Envelope>) | Locked(taken: bool) | Written | Unlocked
  datatype Sent = Sent(caller: nat, request: Request, outcome: Outcome, isAwaited: bool)

  /**
    `holds` remembers the lock that Redis granted to a caller until it takes
    it back; `produced` what the loader of which caller yielded, and when.
  */
  datatype System = System(
    now: int,
    data: Option<Entry>,
    lock: Option<RedisLock.Held<nat>>,
    callers: seq<Caller>,
    requests: seq<Sent>,
    holds: map<nat, int>,
    produced: set<(nat, Value, int)>)

  datatype Action =
    | TimePasses(ms: nat)
    | Starts(options: CacheOptions)
    | RedisActs(id: nat)
    | Answers(id: nat, ok: bool)
    | Wakes(caller: nat)
    | LoaderReturns(caller: nat, value: Value)
    | LoaderFails(caller: nat)
    | KeyIsForgotten

  function RequestOf(phase: Phase): Option<Request> {
    match phase
    case ReadingFirst => Some(ReadKey)
    case Polling(_) => Some(ReadKey)
    case Locking => Some(TryLock)
    case Writing(envelope) => Some(WriteKey(envelope))
    case Releasing(_) => Some(Unlock)
    case _ => None
  }

  /** The caller goes on to its next await, and sends what it awaits. */
  function GoesOn(s: System, i: nat, c: Caller): System
    requires i < |s.callers|
  {
    var request := RequestOf(c.phase);
    s.(callers := s.callers[i := c],
       requests := if request.Some? then s.requests + [Sent(i, request.value, Unsent, true)] else s.requests)
  }

  function Found(data: Option<Entry>, now: int): Option<Envelope> {
    if data.Some? && now < data.value.expiresAt && data.value.text.Readable?
        then Some(data.value.text.envelope) else None
  }

  function WithOutcome(s: System, id: nat, outcome: Outcome): System
    requires id < |s.requests|
  {
    s.(requests := s.requests[id := s.requests[id].(outcome := outcome)])
  }

  function Settled(s: System, id: nat): System
    requires id < |s.requests|
  {
    s.(requests := s.requests[id := s.requests[id].(isAwaited := false)])
  }

  function Carried(s: System, id: nat): System
    requires id < |s.requests| && s.requests[id].caller < |s.callers|
  {
    var i := s.requests[id].caller;
    var options := s.callers[i].options;
    match s.requests[id].request
    case ReadKey => WithOutcome(s, id, Read(Found(s.data, s.now)))
    case WriteKey(envelope) =>
      WithOutcome(s, id, Written).(data := Some(Entry(Readable(envelope), s.now + options.staleTtlSeconds * 1000)))
    case TryLock =>
      var (lock, taken) := RedisLock.Acquire(s.lock, i, options.lockTtlSeconds, s.now);
      WithOutcome(s, id, Locked(taken))
      .(lock := lock, holds := if taken then s.holds[i := s.now + options.lockTtlSeconds * 1000] else s.holds)
    case Unlock =>
      var (lock, released) := RedisLock.Release(s.lock, i, s.now);
      WithOutcome(s, id, Unlocked).(lock := lock, holds := s.holds - {i})
  }

  function Resumed(c: Caller, outcome: Outcome, ok: bool, now: int): Caller {
    match c.phase
    case ReadingFirst => if ok && outcome.Read? then OnFirstRead(c, outcome.got, now) else Fail(c, ReadFailed)
    case Polling(_) => if ok && outcome.Read? then OnPolled(c, outcome.got, now) else Fail(c, ReadFailed)
    case Locking => if ok && outcome.Locked? then OnLock(c, outcome.taken, now) else Fail(c, LockFailed)
    case Writing(_) => OnWritten(c, ok)
    case Releasing(_) => OnReleased(c)
    case _ => c
  }

  predicate IsEnabled(s: System, a: Action) {
    match a
    case TimePasses(_) => true
    case Starts(_) => true
    case RedisActs(id) => id < |s.requests| && s.requests[id].outcome == Unsent && s.requests[id].caller < |s.callers|
    case Answers(id, ok) =>
      id < |s.requests| && s.requests[id].isAwaited && (ok ==> s.requests[id].outcome != Unsent)
          && s.requests[id].caller < |s.callers|
    case Wakes(i) => i < |s.callers| && s.callers[i].phase.Sleeping? && s.callers[i].phase.wakeAt <= s.now
    case LoaderReturns(i, _) => i < |s.callers| && s.callers[i].phase.Loading?
    case LoaderFails(i) => i < |s.callers| && s.callers[i].phase.Loading?
    case KeyIsForgotten => true
  }

  function After(s: System, a: Action): System
    requires IsEnabled(s, a)
  {
    match a
    case TimePasses(ms) => s.(now := s.now + ms)
    case Starts(options) => GoesOn(s.(callers := s.callers + [Started(options)]), |s.callers|, Started(options))
    case RedisActs(id) => Carried(s, id)
    case Answers(id, ok) =>
      var i := s.requests[id].caller;
      GoesOn(Settled(s, id), i, Resumed(s.callers[i], s.requests[id].outcome, ok, s.now))
    case Wakes(i) => GoesOn(s, i, OnWake(s.callers[i]))
    case LoaderReturns(i, value) => GoesOn(s.(produced := s.produced + {(i, value, s.now)}), i,
        OnLoaded(s.callers[i], value, s.now))
    case LoaderFails(i) => GoesOn(s, i, OnLoaderFailed(s.callers[i]))
    case KeyIsForgotten => s.(data := None)
  }

  /** A run starts before anyone has called: the key may hold text that is no envelope, and nobody holds the lock. */
  ghost predicate IsInitial(s: System) {
    && Found(s.data, s.now) == None && (s.data.Some? ==> s.data.value.text == Unreadable)
    && s.lock == None && s.callers == [] && s.requests == [] && s.holds == map[] && s.produced == {}
  }

  ghost predicate IsStep(states: seq<System>, actions: seq<Action>, k: nat)
    requires k < |actions| && |states| == |actions| + 1
  {
    IsEnabled(states[k], actions[k]) && states[k + 1] == After(states[k], actions[k])
  }

  ghost predicate IsRun(states: seq<System>, actions: seq<Action>) {
    && |states| == |actions| + 1
    && IsInitial(states[0])
    && forall k: nat | k < |actions| :: IsStep(states, actions, k)
  }

  // What one caller keeps to

  lemma ResumedBehavesWell(c: Caller, outcome: Outcome, ok: bool, now: int)
    requires BehavesWell(c, now) && (c.cached.Some? && c.phase.Polling? ==> false)
    ensures BehavesWell(Resumed(c, outcome, ok, now), now)
  {
  }

  ghost predicate CallersBehaveWell(s: System) {
    forall i | 0 <= i < |s.callers| :: BehavesWell(s.callers[i], s.now)
  }

  lemma StepKeepsCallers(s: System, a: Action)
    requires CallersBehaveWell(s) && IsEnabled(s, a)
    ensures CallersBehaveWell(After(s, a))
  {
    match a
    case Answers(id, ok) => ResumedBehavesWell(s.callers[s.requests[id].caller], s.requests[id].outcome, ok, s.now);
    case _ =>
  }

  // Requests and phases

  /** A caller awaits the request of its phase, and only a caller that is leaving asks to unlock. */
  ghost predicate RequestsFit(s: System) {
    forall id | 0 <= id < |s.requests| ::
      && s.requests[id].caller < |s.callers|
      && (s.requests[id].isAwaited
          ==> RequestOf(s.callers[s.requests[id].caller].phase) == Some(s.requests[id].request))
      && (s.requests[id].request.Unlock? ==>
            s.callers[s.requests[id].caller].phase.Releasing? || s.callers[s.requests[id].caller].phase.Done?)
  }

  ghost predicate AwaitOne(requests: seq<Sent>) {
    forall x, y | 0 <= x < y < |requests| ::
      !(requests[x].isAwaited && requests[y].isAwaited && requests[x].caller == requests[y].caller)
  }

  ghost predicate AwaitsNothing(requests: seq<Sent>, i: nat) {
    forall id | 0 <= id < |requests| :: !(requests[id].isAwaited && requests[id].caller == i)
  }

  ghost predicate RequestsMatch(s: System) {
    RequestsFit(s) && AwaitOne(s.requests)
  }

  lemma GoesOnKeepsMatch(s: System, i: nat, c: Caller)
    requires RequestsMatch(s) && i < |s.callers| && AwaitsNothing(s.requests, i)
    requires s.callers[i].phase.Releasing? || s.callers[i].phase.Done? ==> c.phase.Done?
    ensures RequestsMatch(GoesOn(s, i, c))
  {
    assert AwaitOne(GoesOn(s, i, c).requests);
    assert RequestsFit(GoesOn(s, i, c));
  }

  lemma IdleAwaitsNothing(s: System, i: nat)
    requires RequestsFit(s) && i < |s.callers| && RequestOf(s.callers[i].phase) == None
    ensures AwaitsNothing(s.requests, i)
  {
  }

  lemma SettledAwaitsNothing(s: System, id: nat)
    requires RequestsMatch(s) && id < |s.requests| && s.requests[id].isAwaited
    ensures RequestsMatch(Settled(s, id)) && AwaitsNothing(Settled(s, id).requests, s.requests[id].caller)
  {
    var i := s.requests[id].caller;
    forall other | 0 <= other < |s.requests| && other != id
      ensures !(s.requests[other].isAwaited && s.requests[other].caller == i)
    {
      assert other < id || id < other;
    }
  }

  lemma AnswerKeepsMatch(s: System, id: nat, ok: bool)
    requires RequestsMatch(s) && IsEnabled(s, Answers(id, ok))
    ensures RequestsMatch(After(s, Answers(id, ok)))
  {
    SettledAwaitsNothing(s, id);
    var i := s.requests[id].caller;
    GoesOnKeepsMatch(Settled(s, id), i, Resumed(s.callers[i], s.requests[id].outcome, ok, s.now));
  }

  lemma StartKeepsMatch(s: System, options: CacheOptions)
    requires RequestsMatch(s)
    ensures RequestsMatch(After(s, Starts(options)))
  {
    GoesOnKeepsMatch(s.(callers := s.callers + [Started(options)]), |s.callers|, Started(options));
  }

  /** Redis changes the outcome of one request and nothing else that requests and callers hold. */
  lemma RedisKeepsRequests(s: System, id: nat)
    requires IsEnabled(s, RedisActs(id))
    ensures var t := After(s, RedisActs(id));
            && t.callers == s.callers && |t.requests| == |s.requests|
            && (forall n | 0 <= n < |s.requests| && n != id :: t.requests[n] == s.requests[n])
            && t.requests[id] == s.requests[id].(outcome := t.requests[id].outcome)
  {
  }

  lemma RedisKeepsMatch(s: System, id: nat)
    requires RequestsMatch(s) && IsEnabled(s, RedisActs(id))
    ensures RequestsMatch(After(s, RedisActs(id)))
  {
    RedisKeepsRequests(s, id);
    hide After, IsEnabled;
  }

  lemma IdleKeepsMatch(s: System, i: nat, c: Caller)
    requires RequestsMatch(s) && i < |s.callers| && RequestOf(s.callers[i].phase) == None && !s.callers[i].phase.Done?
    ensures RequestsMatch(GoesOn(s, i, c))
  {
    IdleAwaitsNothing(s, i);
    GoesOnKeepsMatch(s, i, c);
  }

  lemma StepKeepsMatch(s: System, a: Action)
    requires RequestsMatch(s) && IsEnabled(s, a)
    ensures RequestsMatch(After(s, a))
  {
    match a
    case Starts(options) => StartKeepsMatch(s, options);
    case RedisActs(id) => RedisKeepsMatch(s, id);
    case Answers(id, ok) => AnswerKeepsMatch(s, id, ok);
    case Wakes(i) => IdleKeepsMatch(s, i, OnWake(s.callers[i]));
    case LoaderReturns(i, value) =>
      IdleKeepsMatch(s.(produced := s.produced + {(i, value, s.now)}), i, OnLoaded(s.callers[i], value, s.now));
    case LoaderFails(i) => IdleKeepsMatch(s, i, OnLoaderFailed(s.callers[i]));
    case _ =>
  }

  // The lock

  /** What Redis granted and has not taken back is still the lock, or has lapsed. */
  ghost predicate LockFollowsHolds(s: System) {
    forall i | i in s.holds :: s.lock == Some(RedisLock.Held(i, s.holds[i])) || s.holds[i] <= s.now
  }

  /** Whoever loads under the lock has been granted it. */
  ghost predicate LoadersHold(s: System) {
    forall i | 0 <= i < |s.callers| && s.callers[i].acquired && s.callers[i].IsLoading() :: i in s.holds
  }

  /** So has whoever is about to be told. */
  ghost predicate GrantsHold(s: System) {
    forall id | 0 <= id < |s.requests| && s.requests[id].isAwaited && s.requests[id].outcome == Locked(true) ::
      s.requests[id].caller in s.holds
  }

  ghost predicate HoldsAreTrue(s: System) {
    LockFollowsHolds(s) && LoadersHold(s) && GrantsHold(s)
  }

  /** Redis answers a request in kind. */
  predicate IsInKind(request: Request, outcome: Outcome) {
    match outcome
    case Unsent => true
    case Read(_) => request.ReadKey?
    case Locked(_) => request.TryLock?
    case Written => request.WriteKey?
    case Unlocked => request.Unlock?
  }

  ghost predicate OutcomesFit(s: System) {
    forall id | 0 <= id < |s.requests| :: IsInKind(s.requests[id].request, s.requests[id].outcome)
  }

  lemma RedisKeepsLock(s: System, id: nat)
    requires LockFollowsHolds(s) && IsEnabled(s, RedisActs(id))
    ensures LockFollowsHolds(After(s, RedisActs(id)))
  {
  }

  lemma RedisKeepsLoaders(s: System, id: nat)
    requires LoadersHold(s) && RequestsFit(s) && IsEnabled(s, RedisActs(id))
    ensures LoadersHold(After(s, RedisActs(id)))
  {
  }

  lemma RedisKeepsGrants(s: System, id: nat)
    requires GrantsHold(s) && RequestsFit(s) && OutcomesFit(s) && IsEnabled(s, RedisActs(id))
    ensures GrantsHold(After(s, RedisActs(id)))
  {
    var t := After(s, RedisActs(id));
    forall n | 0 <= n < |t.requests| && t.requests[n].isAwaited && t.requests[n].outcome == Locked(true)
      ensures t.requests[n].caller in t.holds
    {
      if n != id {
        OtherGrantHolds(s, id, n);
      }
    }
  }

  /** Another request's grant is not taken back: its caller is not leaving. */
  lemma OtherGrantHolds(s: System, id: nat, n: nat)
    requires GrantsHold(s) && RequestsFit(s) && OutcomesFit(s) && IsEnabled(s, RedisActs(id))
    requires n < |s.requests| && n != id && s.requests[n].isAwaited && s.requests[n].outcome == Locked(true)
    ensures s.requests[n].caller in s.holds
    ensures s.requests[id].request == Unlock ==> s.requests[id].caller != s.requests[n].caller
  {
  }

  lemma RedisKeepsHolds(s: System, id: nat)
    requires HoldsAreTrue(s) && RequestsMatch(s) && OutcomesFit(s) && IsEnabled(s, RedisActs(id))
    ensures HoldsAreTrue(After(s, RedisActs(id))) && OutcomesFit(After(s, RedisActs(id)))
  {
    hide LockFollowsHolds, LoadersHold, GrantsHold, RequestsFit, AwaitOne;
    RedisKeepsLock(s, id);
    RedisKeepsLoaders(s, id);
    RedisKeepsGrants(s, id);
  }

  lemma GoesOnKeepsHolds(s: System, i: nat, c: Caller)
    requires HoldsAreTrue(s) && OutcomesFit(s) && i < |s.callers|
    requires c.acquired && c.IsLoading() ==> i in s.holds
    ensures HoldsAreTrue(GoesOn(s, i, c)) && OutcomesFit(GoesOn(s, i, c))
  {
  }

  lemma AnswerKeepsHolds(s: System, id: nat, ok: bool)
    requires HoldsAreTrue(s) && RequestsMatch(s) && OutcomesFit(s) && CallersBehaveWell(s)
             && IsEnabled(s, Answers(id, ok))
    ensures HoldsAreTrue(After(s, Answers(id, ok))) && OutcomesFit(After(s, Answers(id, ok)))
  {
    var t := Settled(s, id);
    var i := s.requests[id].caller;
    GoesOnKeepsHolds(t, i, Resumed(s.callers[i], s.requests[id].outcome, ok, s.now));
  }

  lemma StepKeepsHolds(s: System, a: Action)
    requires HoldsAreTrue(s) && RequestsMatch(s) && OutcomesFit(s) && CallersBehaveWell(s) && IsEnabled(s, a)
    ensures HoldsAreTrue(After(s, a)) && OutcomesFit(After(s, a))
  {
    match a
    case RedisActs(id) => RedisKeepsHolds(s, id);
    case Answers(id, ok) => AnswerKeepsHolds(s, id, ok);
    case Starts(options) => GoesOnKeepsHolds(s.(callers := s.callers + [Started(options)]), |s.callers|,
        Started(options));
    case Wakes(i) => GoesOnKeepsHolds(s, i, OnWake(s.callers[i]));
    case LoaderReturns(i, value) =>
      GoesOnKeepsHolds(s.(produced := s.produced + {(i, value, s.now)}), i, OnLoaded(s.callers[i], value, s.now));
    case LoaderFails(i) => GoesOnKeepsHolds(s, i, OnLoaderFailed(s.callers[i]));
    case _ =>
  }

  // The values

  /** The caller's loader yielded the value at that moment, its `shouldCache` accepted it, and it is fresh as told. */
  ghost predicate WasLoaded(s: System, envelope: Envelope, i: nat, loadedAt: int) {
    && i < |s.callers| && (i, envelope.value, loadedAt) in s.produced && loadedAt <= s.now
    && s.callers[i].options.shouldCache(envelope.value)
    && envelope.freshUntil == loadedAt + 1000 * s.callers[i].options.freshTtlSeconds
  }

  ghost predicate IsAccepted(s: System, envelope: Envelope) {
    exists i, loadedAt :: WasLoaded(s, envelope, i, loadedAt)
  }

  ghost predicate IsOwn(s: System, i: nat, value: Value) {
    exists loadedAt :: (i, value, loadedAt) in s.produced
  }

  ghost predicate EndingIsProduced(s: System, i: nat, ending: Ending) {
    ending.Returned? && !ending.fromCache ==> IsOwn(s, i, ending.value)
  }

  ghost predicate CallerIsSupplied(s: System, i: nat, c: Caller) {
    && (c.cached.Some? ==> IsAccepted(s, c.cached.value))
    && (c.seen.Some? ==> IsAccepted(s, c.seen.value.0))
    && (c.phase.Writing? ==> IsOwn(s, i, c.phase.envelope.value) && IsAccepted(s, c.phase.envelope))
    && (c.phase.Done? || c.phase.Releasing? ==> EndingIsProduced(s, i, c.phase.ending))
  }

  ghost predicate RequestIsSupplied(s: System, r: Sent) {
    && (r.request.WriteKey? ==> IsAccepted(s, r.request.envelope))
    && (r.outcome.Read? && r.outcome.got.Some? ==> IsAccepted(s, r.outcome.got.value))
  }

  ghost predicate ValuesAreAccepted(s: System) {
    && (s.data.Some? && s.data.value.text.Readable? ==> IsAccepted(s, s.data.value.text.envelope))
    && (forall i | 0 <= i < |s.callers| :: CallerIsSupplied(s, i, s.callers[i]))
    && (forall id | 0 <= id < |s.requests| :: RequestIsSupplied(s, s.requests[id]))
  }

  lemma AcceptedStays(s: System, t: System, envelope: Envelope)
    requires IsAccepted(s, envelope) && s.produced <= t.produced && |s.callers| <= |t.callers| && s.now <= t.now
    requires forall i | 0 <= i < |s.callers| :: t.callers[i].options == s.callers[i].options
    ensures IsAccepted(t, envelope)
  {
    var i, loadedAt :| WasLoaded(s, envelope, i, loadedAt);
    assert WasLoaded(t, envelope, i, loadedAt);
  }

  lemma OwnStays(s: System, t: System, i: nat, value: Value)
    requires IsOwn(s, i, value) && s.produced <= t.produced
    ensures IsOwn(t, i, value)
  {
    var loadedAt :| (i, value, loadedAt) in s.produced;
    assert (i, value, loadedAt) in t.produced;
  }

  lemma SuppliedStays(s: System, t: System)
    requires s.produced <= t.produced && |s.callers| <= |t.callers| && s.now <= t.now
    requires forall i | 0 <= i < |s.callers| :: t.callers[i].options == s.callers[i].options
    ensures forall envelope | IsAccepted(s, envelope) :: IsAccepted(t, envelope)
    ensures forall i, value | IsOwn(s, i, value) :: IsOwn(t, i, value)
  {
    forall envelope | IsAccepted(s, envelope) ensures IsAccepted(t, envelope) { AcceptedStays(s, t, envelope); }
    forall i, value | IsOwn(s, i, value) ensures IsOwn(t, i, value) { OwnStays(s, t, i, value); }
  }

  lemma GoesOnKeepsValues(s: System, i: nat, c: Caller)
    requires ValuesAreAccepted(s) && i < |s.callers|
    requires c.options == s.callers[i].options && CallerIsSupplied(s, i, c)
    ensures ValuesAreAccepted(GoesOn(s, i, c))
  {
    var t := GoesOn(s, i, c);
    SuppliedStays(s, t);
    if c.phase.Writing? {
      assert IsAccepted(t, c.phase.envelope);
    }
  }

  lemma ResumedIsSupplied(s: System, i: nat, outcome: Outcome, ok: bool)
    requires i < |s.callers| && CallerIsSupplied(s, i, s.callers[i])
    requires outcome.Read? && outcome.got.Some? ==> IsAccepted(s, outcome.got.value)
    ensures CallerIsSupplied(s, i, Resumed(s.callers[i], outcome, ok, s.now))
    ensures Resumed(s.callers[i], outcome, ok, s.now).options == s.callers[i].options
  {
    hide IsAccepted, IsOwn;
  }

  lemma MoreIsProduced(s: System, i: nat, value: Value)
    requires ValuesAreAccepted(s) && i < |s.callers|
    ensures ValuesAreAccepted(s.(produced := s.produced + {(i, value, s.now)}))
  {
    var t := s.(produced := s.produced + {(i, value, s.now)});
    SuppliedStays(s, t);
  }

  lemma OneMoreCaller(s: System, options: CacheOptions)
    requires ValuesAreAccepted(s)
    ensures ValuesAreAccepted(s.(callers := s.callers + [Started(options)]))
  {
    var t := s.(callers := s.callers + [Started(options)]);
    SuppliedStays(s, t);
  }

  lemma RedisKeepsValues(s: System, id: nat)
    requires ValuesAreAccepted(s) && IsEnabled(s, RedisActs(id))
    ensures ValuesAreAccepted(After(s, RedisActs(id)))
  {
    var t := After(s, RedisActs(id));
    SuppliedStays(s, t);
    hide IsAccepted, IsOwn, RedisLock.Acquire, RedisLock.Release;
    assert RequestIsSupplied(s, s.requests[id]);
  }

  lemma AnswerKeepsValues(s: System, id: nat, ok: bool)
    requires ValuesAreAccepted(s) && IsEnabled(s, Answers(id, ok))
    ensures ValuesAreAccepted(After(s, Answers(id, ok)))
  {
    var t := Settled(s, id);
    var i := s.requests[id].caller;
    assert RequestIsSupplied(s, s.requests[id]);
    SuppliedStays(s, t);
    ResumedIsSupplied(t, i, s.requests[id].outcome, ok);
    GoesOnKeepsValues(t, i, Resumed(s.callers[i], s.requests[id].outcome, ok, s.now));
  }

  lemma LoaderKeepsValues(s: System, i: nat, value: Value)
    requires ValuesAreAccepted(s) && IsEnabled(s, LoaderReturns(i, value))
    ensures ValuesAreAccepted(After(s, LoaderReturns(i, value)))
  {
    MoreIsProduced(s, i, value);
    var t := s.(produced := s.produced + {(i, value, s.now)});
    assert (i, value, s.now) in t.produced;
    assert WasLoaded(t, Envelope(s.now + 1000 * s.callers[i].options.freshTtlSeconds, value), i, s.now)
        <== s.callers[i].options.shouldCache(value);
    GoesOnKeepsValues(s.(produced := s.produced + {(i, value, s.now)}), i, OnLoaded(s.callers[i], value, s.now));
  }

  lemma StepKeepsValues(s: System, a: Action)
    requires ValuesAreAccepted(s) && IsEnabled(s, a)
    ensures ValuesAreAccepted(After(s, a))
  {
    match a
    case RedisActs(id) => RedisKeepsValues(s, id);
    case Answers(id, ok) =>
      AnswerKeepsValues(s, id, ok);
    case Starts(options) =>
      OneMoreCaller(s, options);
      GoesOnKeepsValues(s.(callers := s.callers + [Started(options)]), |s.callers|, Started(options));
    case Wakes(i) => GoesOnKeepsValues(s, i, OnWake(s.callers[i]));
    case LoaderReturns(i, value) =>
      LoaderKeepsValues(s, i, value);
    case LoaderFails(i) => GoesOnKeepsValues(s, i, OnLoaderFailed(s.callers[i]));
    case TimePasses(ms) => SuppliedStays(s, s.(now := s.now + ms));
    case KeyIsForgotten => SuppliedStays(s, s.(data := None));
  }

  // What was stored

  predicate IsStoring(r: Sent, i: nat, value: Value) {
    r.caller == i && r.request.WriteKey? && r.request.envelope.value == value && r.outcome == Written
  }

  ghost predicate HasStored(s: System, i: nat, value: Value) {
    exists id :: 0 <= id < |s.requests| && IsStoring(s.requests[id], i, value)
  }

  /** A caller that returns its own value has stored it, unless its `shouldCache` refused it. */
  ghost predicate CallerHasStored(s: System, i: nat, c: Caller) {
    (c.phase.Done? || c.phase.Releasing?) && c.phase.ending.Returned? ==>
      !c.phase.ending.fromCache && c.options.shouldCache(c.phase.ending.value) ==>
        HasStored(s, i, c.phase.ending.value)
  }

  ghost predicate ResultsAreStored(s: System) {
    forall i | 0 <= i < |s.callers| :: CallerHasStored(s, i, s.callers[i])
  }

  lemma StoredStays(s: System, t: System)
    requires |s.requests| <= |t.requests| && forall id | 0 <= id < |s.requests| ::
               s.requests[id].outcome != Unsent ==>
                 t.requests[id].caller == s.requests[id].caller && t.requests[id].request == s.requests[id].request
                 && t.requests[id].outcome == s.requests[id].outcome
    ensures forall i, value | HasStored(s, i, value) :: HasStored(t, i, value)
  {
    forall i, value | HasStored(s, i, value) ensures HasStored(t, i, value) {
      var id :| 0 <= id < |s.requests| && IsStoring(s.requests[id], i, value);
      assert IsStoring(t.requests[id], i, value);
    }
  }

  lemma GoesOnKeepsStored(s: System, i: nat, c: Caller)
    requires ResultsAreStored(s) && i < |s.callers| && CallerHasStored(s, i, c)
    ensures ResultsAreStored(GoesOn(s, i, c))
  {
    StoredStays(s, GoesOn(s, i, c));
    hide HasStored;
  }

  lemma AnswerKeepsStored(s: System, id: nat, ok: bool)
    requires ResultsAreStored(s) && RequestsFit(s) && OutcomesFit(s) && CallersBehaveWell(s)
             && IsEnabled(s, Answers(id, ok))
    ensures ResultsAreStored(After(s, Answers(id, ok)))
  {
    var t := Settled(s, id);
    var i := s.requests[id].caller;
    var c := s.callers[i];
    StoredStays(s, t);
    assert CallerHasStored(t, i, c) && BehavesWell(c, s.now);
    if ok && c.phase.Writing? {
      assert IsStoring(t.requests[id], i, c.phase.envelope.value);
    }
    hide HasStored;
    GoesOnKeepsStored(t, i, Resumed(c, s.requests[id].outcome, ok, s.now));
  }

  lemma StepKeepsStored(s: System, a: Action)
    requires ResultsAreStored(s) && RequestsFit(s) && OutcomesFit(s) && CallersBehaveWell(s) && IsEnabled(s, a)
    ensures ResultsAreStored(After(s, a))
  {
    hide HasStored;
    match a
    case Answers(id, ok) => AnswerKeepsStored(s, id, ok);
    case RedisActs(id) =>
      RedisKeepsRequests(s, id);
      StoredStays(s, After(s, a));
    case Starts(options) =>
      var t := s.(callers := s.callers + [Started(options)]);
      StoredStays(s, t);
      GoesOnKeepsStored(t, |s.callers|, Started(options));
    case Wakes(i) => GoesOnKeepsStored(s, i, OnWake(s.callers[i]));
    case LoaderReturns(i, value) =>
      var t := s.(produced := s.produced + {(i, value, s.now)});
      StoredStays(s, t);
      GoesOnKeepsStored(t, i, OnLoaded(s.callers[i], value, s.now));
    case LoaderFails(i) => GoesOnKeepsStored(s, i, OnLoaderFailed(s.callers[i]));
    case _ => StoredStays(s, After(s, a));
  }

  // Nobody is stuck

  predicate IsAwaiting(r: Sent, i: nat, request: Request) {
    r.isAwaited && r.caller == i && r.request == request
  }

  ghost predicate Awaits(s: System, i: nat, request: Request) {
    exists id :: 0 <= id < |s.requests| && IsAwaiting(s.requests[id], i, request)
  }

  ghost predicate EachAwaitsItsRequest(s: System) {
    forall i | 0 <= i < |s.callers| && RequestOf(s.callers[i].phase).Some? ::
      Awaits(s, i, RequestOf(s.callers[i].phase).value)
  }

  /** The caller that goes on sends its request, and the others still await theirs. */
  lemma GoesOnAwaits(s: System, t: System, i: nat, c: Caller)
    requires EachAwaitsItsRequest(s) && i < |t.callers| && |s.callers| <= |t.callers| && |s.requests| == |t.requests|
    requires forall j | 0 <= j < |t.callers| && j != i :: j < |s.callers| && t.callers[j] == s.callers[j]
    requires forall id | 0 <= id < |s.requests| && s.requests[id].caller != i :: t.requests[id] == s.requests[id]
    ensures EachAwaitsItsRequest(GoesOn(t, i, c))
  {
    hide RequestOf;
    var u := GoesOn(t, i, c);
    forall j | 0 <= j < |u.callers| && RequestOf(u.callers[j].phase).Some?
      ensures Awaits(u, j, RequestOf(u.callers[j].phase).value)
    {
      var request := RequestOf(u.callers[j].phase).value;
      if j == i {
        assert IsAwaiting(u.requests[|t.requests|], j, request);
      } else {
        var id :| 0 <= id < |s.requests| && IsAwaiting(s.requests[id], j, request);
        assert IsAwaiting(u.requests[id], j, request);
      }
    }
  }

  lemma RedisKeepsAwaiting(s: System, id: nat)
    requires EachAwaitsItsRequest(s) && IsEnabled(s, RedisActs(id))
    ensures EachAwaitsItsRequest(After(s, RedisActs(id)))
  {
    RedisKeepsRequests(s, id);
    hide After, RequestOf;
    var t := After(s, RedisActs(id));
    forall j | 0 <= j < |t.callers| && RequestOf(t.callers[j].phase).Some?
      ensures Awaits(t, j, RequestOf(t.callers[j].phase).value)
    {
      var request := RequestOf(t.callers[j].phase).value;
      var n :| 0 <= n < |s.requests| && IsAwaiting(s.requests[n], j, request);
      assert IsAwaiting(t.requests[n], j, request);
    }
  }

  lemma StepKeepsAwaiting(s: System, a: Action)
    requires EachAwaitsItsRequest(s) && IsEnabled(s, a)
    ensures EachAwaitsItsRequest(After(s, a))
  {
    hide EachAwaitsItsRequest;
    match a
    case Answers(id, ok) =>
      var i := s.requests[id].caller;
      GoesOnAwaits(s, Settled(s, id), i, Resumed(s.callers[i], s.requests[id].outcome, ok, s.now));
    case RedisActs(id) => RedisKeepsAwaiting(s, id);
    case Starts(options) =>
      GoesOnAwaits(s, s.(callers := s.callers + [Started(options)]), |s.callers|, Started(options));
    case Wakes(i) => GoesOnAwaits(s, s, i, OnWake(s.callers[i]));
    case LoaderReturns(i, value) =>
      GoesOnAwaits(s, s.(produced := s.produced + {(i, value, s.now)}), i, OnLoaded(s.callers[i], value, s.now));
    case LoaderFails(i) => GoesOnAwaits(s, s, i, OnLoaderFailed(s.callers[i]));
    case TimePasses(ms) => SameAwait(s, s.(now := s.now + ms));
    case KeyIsForgotten => SameAwait(s, s.(data := None));
  }

  lemma SameAwait(s: System, t: System)
    requires EachAwaitsItsRequest(s) && t.callers == s.callers && t.requests == s.requests
    ensures EachAwaitsItsRequest(t)
  {
    forall i | 0 <= i < |t.callers| && RequestOf(t.callers[i].phase).Some?
      ensures Awaits(t, i, RequestOf(t.callers[i].phase).value)
    {
      var id :| 0 <= id < |s.requests| && IsAwaiting(s.requests[id], i, RequestOf(s.callers[i].phase).value);
      assert IsAwaiting(t.requests[id], i, RequestOf(s.callers[i].phase).value);
    }
  }

  // Whole runs

  ghost predicate Invariant(s: System) {
    CallersBehaveWell(s) && RequestsMatch(s) && HoldsAreTrue(s) && OutcomesFit(s) && ValuesAreAccepted(s)
        && ResultsAreStored(s) && EachAwaitsItsRequest(s)
  }

  lemma StepKeepsInvariant(s: System, a: Action)
    requires Invariant(s) && IsEnabled(s, a)
    ensures Invariant(After(s, a))
  {
    StepKeepsCallers(s, a);
    StepKeepsMatch(s, a);
    StepKeepsHolds(s, a);
    StepKeepsValues(s, a);
    StepKeepsStored(s, a);
    StepKeepsAwaiting(s, a);
  }

  lemma {:induction false} RunKeepsInvariant(states: seq<System>, actions: seq<Action>, k: nat)
    requires IsRun(states, actions) && k < |states|
    ensures Invariant(states[k])
  {
    if k > 0 {
      RunKeepsInvariant(states, actions, k - 1);
      assert IsStep(states, actions, k - 1);
      StepKeepsInvariant(states[k - 1], actions[k - 1]);
    }
  }
}

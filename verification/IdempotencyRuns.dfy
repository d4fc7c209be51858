/**
  Any number of requests with idempotency keys, over all runs.

  Redis carries out a command at any moment after it was sent, also when
  the request went on without its answer, and entries expire by the clock.
*/
module IdempotencyRuns {
  import opened Options
  import opened Idempotency

  datatype Text = Unreadable | Readable(keyRecord: KeyRecord)
  datatype Entry = Entry(text: Text, expiresAt: int)

  datatype Outcome = Unsent | SetDone(acquired: bool) | Got(earlier: Option<KeyRecord>) | WriteDone
  datatype Sent = Sent(request: nat, command: Command, outcome: Outcome)

  /** `holds` remembers until when Redis gave a key to a request, as long as the request's last write has not landed. */
  datatype System = System(
    now: int,
    store: map<RedisKey, Entry>,
    requests: seq<Request>,
    heldKeys: map<nat, HeldKey>,
    sent: seq<Sent>,
    holds: map<nat, int>)

  datatype Action =
    | TimePasses(ms: nat)
    | Arrives(incoming: Incoming)
    | RedisActs(id: nat)
    | Answers(id: nat, ok: bool)
    | Responds(request: nat, response: Response)

  predicate IsLive(s: System, key: RedisKey) {
    key in s.store && s.now < s.store[key].expiresAt
  }

  function Found(s: System, key: RedisKey): Option<KeyRecord> {
    if IsLive(s, key) && s.store[key].text.Readable? then Some(s.store[key].text.keyRecord) else None
  }

  predicate IsAwaited(s: System, id: nat)
    requires id < |s.sent|
  {
    var Sent(i, command, _) := s.sent[id];
    i < |s.requests|
        && (if command.SetNx? then s.requests[i].phase.AwaitsSet? else command.Get? && s.requests[i].phase.AwaitsGet?)
  }

  predicate IsEnabled(s: System, a: Action) {
    match a
    case TimePasses(_) => true
    case Arrives(_) => true
    case RedisActs(id) => id < |s.sent| && s.sent[id].outcome == Unsent
    case Answers(id, ok) => id < |s.sent| && IsAwaited(s, id) && (ok ==> s.sent[id].outcome != Unsent)
    case Responds(i, _) => i < |s.requests| && s.requests[i].phase.Handling?
  }

  function Issued(s: System, i: nat, command: Command): System {
    s.(sent := s.sent + [Sent(i, command, Unsent)])
  }

  function WithOutcome(s: System, id: nat, outcome: Outcome): System
    requires id < |s.sent|
  {
    s.(sent := s.sent[id := s.sent[id].(outcome := outcome)])
  }

  function Carried(s: System, id: nat): System
    requires id < |s.sent|
  {
    var Sent(i, command, _) := s.sent[id];
    match command
    case SetNx(key, keyRecord) =>
      if IsLive(s, key) then WithOutcome(s, id, SetDone(false))
      else
        var until := s.now + IDEMPOTENCY_LOCK_SECONDS * 1000;
        WithOutcome(s, id, SetDone(true)).(store := s.store[key := Entry(Readable(keyRecord), until)],
            holds := s.holds[i := until])
    case Get(key) => WithOutcome(s, id, Got(Found(s, key)))
    case SetEx(key, keyRecord) =>
      var until := s.now + IDEMPOTENCY_REPLAY_SECONDS * 1000;
      WithOutcome(s, id, WriteDone).(store := s.store[key := Entry(Readable(keyRecord), until)], holds := s.holds - {i})
    case Del(key) => WithOutcome(s, id, WriteDone).(store := s.store - {key}, holds := s.holds - {i})
  }

  function SetAnswered(s: System, i: nat, acquired: Option<bool>): System
    requires i < |s.requests|
  {
    var t := s.(requests := s.requests[i := OnSet(s.requests[i], acquired)]);
    var Request(incoming, key, _) := s.requests[i];
    if key.None? || acquired.None? then t
    else if acquired.value then t.(heldKeys := s.heldKeys[i := HeldKey(key.value, incoming.content)])
    else Issued(t, i, Get(key.value))
  }

  function After(s: System, a: Action): System
    requires IsEnabled(s, a)
  {
    match a
    case TimePasses(ms) => s.(now := s.now + ms)
    case Arrives(incoming) =>
      var t := s.(requests := s.requests + [Begun(incoming)]);
      if Begun(incoming).phase.AwaitsSet?
      then Issued(t, |s.requests|, SetNx(KeyOf(incoming).value, KeyRecord(incoming.content, None)))
      else t
    case RedisActs(id) => Carried(s, id)
    case Answers(id, ok) =>
      var Sent(i, command, outcome) := s.sent[id];
      if command.SetNx? then SetAnswered(s, i, if ok && outcome.SetDone? then Some(outcome.acquired) else None)
      else s.(requests := s.requests[i := OnGet(s.requests[i], if ok && outcome.Got? then outcome.earlier else None)])
    case Responds(i, response) =>
      var t := s.(requests := s.requests[i := s.requests[i].(phase := Responded(response))],
          heldKeys := s.heldKeys - {i});
      if i in s.heldKeys then Issued(t, i, Remembering(s.heldKeys[i], Kept(s.requests[i].incoming, response))) else t
  }

  ghost predicate IsInitial(s: System) {
    && (forall key | key in s.store :: s.store[key].text == Unreadable)
    && s.requests == [] && s.heldKeys == map[] && s.sent == [] && s.holds == map[]
  }

  ghost predicate IsRun(states: seq<System>, actions: seq<Action>) {
    && |states| == |actions| + 1
    && IsInitial(states[0])
    && forall k | 0 <= k < |actions| :: IsEnabled(states[k], actions[k])
        && states[k + 1] == After(states[k], actions[k])
  }

  // Every run: a replayed answer is one that was given

  /** A request with this key and content has been given the answer by its handler. */
  ghost predicate WasGiven(s: System, key: RedisKey, content: Content, answer: Answer) {
    exists j: nat ::
      && j < |s.requests|
      && s.requests[j].key == Some(key) && s.requests[j].incoming.content == content
      && s.requests[j].phase.Responded?
      && Kept(s.requests[j].incoming, s.requests[j].phase.response) == Some(answer)
  }

  ghost predicate IsBacked(s: System, key: RedisKey, keyRecord: KeyRecord) {
    keyRecord.answer.Some? ==> WasGiven(s, key, keyRecord.fingerprint, keyRecord.answer.value)
  }

  ghost predicate CommandIsBacked(s: System, sent: Sent) {
    match sent.command
    case SetNx(key, keyRecord) => IsBacked(s, key, keyRecord)
    case SetEx(key, keyRecord) => IsBacked(s, key, keyRecord)
    case Get(key) =>
      && sent.request < |s.requests| && s.requests[sent.request].key == Some(key)
      && (sent.outcome.Got? && sent.outcome.earlier.Some? ==> IsBacked(s, key, sent.outcome.earlier.value))
    case Del(_) => true
  }

  ghost predicate RequestIsBacked(s: System, i: nat)
    requires i < |s.requests|
  {
    s.requests[i].phase.Replayed? ==>
      && s.requests[i].key.Some?
      && WasGiven(s, s.requests[i].key.value, s.requests[i].incoming.content, s.requests[i].phase.answer)
  }

  ghost predicate AnswersAreBacked(s: System) {
    && (forall key | key in s.store && s.store[key].text.Readable? :: IsBacked(s, key, s.store[key].text.keyRecord))
    && (forall id | 0 <= id < |s.sent| :: CommandIsBacked(s, s.sent[id]))
    && (forall i: nat | i < |s.requests| :: RequestIsBacked(s, i))
    && HeldKeysMatch(s.requests, s.heldKeys)
  }

  /** Requests are only added, and one that has its response keeps it. */
  ghost predicate KeepsResponses(s: System, t: System) {
    && |s.requests| <= |t.requests|
    && (forall j | 0 <= j < |s.requests| ::
          && t.requests[j].incoming == s.requests[j].incoming && t.requests[j].key == s.requests[j].key
          && (s.requests[j].phase.Responded? ==> t.requests[j] == s.requests[j]))
  }

  lemma GivenStaysGiven(s: System, t: System)
    requires KeepsResponses(s, t)
    ensures forall key, content, answer | WasGiven(s, key, content, answer) :: WasGiven(t, key, content, answer)
  {
    forall key, content, answer | WasGiven(s, key, content, answer) ensures WasGiven(t, key, content, answer) {
      var j: nat :| && j < |s.requests|
                    && s.requests[j].key == Some(key) && s.requests[j].incoming.content == content
                    && s.requests[j].phase.Responded?
                    && Kept(s.requests[j].incoming, s.requests[j].phase.response) == Some(answer);
      assert t.requests[j] == s.requests[j];
    }
  }

  lemma RedisKeepsStoreBacked(s: System, id: nat)
    requires AnswersAreBacked(s) && IsEnabled(s, RedisActs(id))
    ensures forall key | key in Carried(s, id).store && Carried(s, id).store[key].text.Readable? ::
              IsBacked(s, key, Carried(s, id).store[key].text.keyRecord)
  {
    assert CommandIsBacked(s, s.sent[id]);
  }

  lemma RedisKeepsSentBacked(s: System, id: nat, n: nat)
    requires AnswersAreBacked(s) && IsEnabled(s, RedisActs(id)) && n < |s.sent|
    ensures |Carried(s, id).sent| == |s.sent| && CommandIsBacked(s, Carried(s, id).sent[n])
  {
    assert CommandIsBacked(s, s.sent[n]);
  }

  lemma SameRequestsSameBacking(s: System, t: System)
    requires t.requests == s.requests && t.heldKeys == s.heldKeys && |t.sent| == |s.sent| && AnswersAreBacked(s)
    requires forall key | key in t.store && t.store[key].text.Readable? :: IsBacked(s, key, t.store[key].text.keyRecord)
    requires forall n | 0 <= n < |t.sent| :: CommandIsBacked(s, t.sent[n])
    ensures AnswersAreBacked(t)
  {
    GivenStaysGiven(s, t);
    forall n | 0 <= n < |t.sent| ensures CommandIsBacked(t, t.sent[n]) { assert CommandIsBacked(s, t.sent[n]); }
    forall i: nat | i < |t.requests| ensures RequestIsBacked(t, i) { assert RequestIsBacked(s, i); }
  }

  lemma RedisKeepsBacked(s: System, id: nat)
    requires AnswersAreBacked(s) && IsEnabled(s, RedisActs(id))
    ensures AnswersAreBacked(After(s, RedisActs(id)))
  {
    RedisKeepsStoreBacked(s, id);
    forall n: nat | n < |s.sent| { RedisKeepsSentBacked(s, id, n); }
    assert |Carried(s, id).sent| == |s.sent|;
    SameRequestsSameBacking(s, Carried(s, id));
  }

  lemma OthersStayBacked(s: System, t: System)
    requires AnswersAreBacked(s) && KeepsResponses(s, t) && t.store == s.store
    requires s.sent <= t.sent && forall n | |s.sent| <= n < |t.sent| :: CommandIsBacked(t, t.sent[n])
    requires forall j: nat | j < |t.requests| && (j >= |s.requests| || t.requests[j] != s.requests[j]) ::
             RequestIsBacked(t, j)
    requires HeldKeysMatch(t.requests, t.heldKeys)
    ensures AnswersAreBacked(t)
  {
    GivenStaysGiven(s, t);
    forall n | 0 <= n < |t.sent| ensures CommandIsBacked(t, t.sent[n]) {
      if n < |s.sent| {
        assert CommandIsBacked(s, s.sent[n]);
      }
    }
    forall j: nat | j < |t.requests| ensures RequestIsBacked(t, j) {
      if j < |s.requests| {
        assert RequestIsBacked(s, j);
      }
    }
  }

  lemma SetAnswerKeepsHeld(s: System, i: nat, acquired: Option<bool>)
    requires HeldKeysMatch(s.requests, s.heldKeys) && i < |s.requests| && s.requests[i].phase.AwaitsSet?
    ensures HeldKeysMatch(SetAnswered(s, i, acquired).requests, SetAnswered(s, i, acquired).heldKeys)
  {
  }

  lemma SetAnswerKeepsBacked(s: System, i: nat, acquired: Option<bool>)
    requires AnswersAreBacked(s) && i < |s.requests| && s.requests[i].phase.AwaitsSet?
    ensures AnswersAreBacked(SetAnswered(s, i, acquired))
  {
    hide WasGiven, IsBacked, HeldKeysMatch;
    var t := SetAnswered(s, i, acquired);
    SetAnswerKeepsHeld(s, i, acquired);
    forall n | |s.sent| <= n < |t.sent| ensures CommandIsBacked(t, t.sent[n]) {}
    OthersStayBacked(s, t);
  }

  lemma GetAnswerKeepsBacked(s: System, i: nat, earlier: Option<KeyRecord>)
    requires AnswersAreBacked(s) && i < |s.requests| && s.requests[i].phase.AwaitsGet?
    requires earlier.Some? ==> s.requests[i].key.Some? && IsBacked(s, s.requests[i].key.value, earlier.value)
    ensures AnswersAreBacked(s.(requests := s.requests[i := OnGet(s.requests[i], earlier)]))
  {
    var t := s.(requests := s.requests[i := OnGet(s.requests[i], earlier)]);
    GivenStaysGiven(s, t);
    OthersStayBacked(s, t);
  }

  lemma AnswerKeepsBacked(s: System, id: nat, ok: bool)
    requires AnswersAreBacked(s) && IsEnabled(s, Answers(id, ok))
    ensures AnswersAreBacked(After(s, Answers(id, ok)))
  {
    var Sent(i, command, outcome) := s.sent[id];
    assert CommandIsBacked(s, s.sent[id]);
    if command.SetNx? {
      SetAnswerKeepsBacked(s, i, if ok && outcome.SetDone? then Some(outcome.acquired) else None);
    } else {
      GetAnswerKeepsBacked(s, i, if ok && outcome.Got? then outcome.earlier else None);
    }
  }

  /** The last write of a holder carries what its request was given. */
  lemma LastWriteIsBacked(s: System, i: nat, response: Response)
    requires AnswersAreBacked(s) && IsEnabled(s, Responds(i, response)) && i in s.heldKeys
    ensures var t := After(s, Responds(i, response));
            |t.sent| == |s.sent| + 1 && CommandIsBacked(t, t.sent[|s.sent|])
  {
    hide Kept;
    var t := After(s, Responds(i, response));
    var answer := Kept(s.requests[i].incoming, response);
    if answer.Some? {
      assert t.requests[i].phase.Responded?;
      assert WasGiven(t, s.heldKeys[i].redisKey, s.heldKeys[i].fingerprint, answer.value);
    }
  }

  lemma ResponseKeepsBacked(s: System, i: nat, response: Response)
    requires AnswersAreBacked(s) && IsEnabled(s, Responds(i, response))
    ensures AnswersAreBacked(After(s, Responds(i, response)))
  {
    var t := After(s, Responds(i, response));
    if i in s.heldKeys {
      LastWriteIsBacked(s, i, response);
    }
    ResponseKeepsHeld(s, i, response);
    hide Kept, Remembering, CommandIsBacked, HeldKeysMatch, WasGiven, IsBacked;
    OthersStayBacked(s, t);
  }

  lemma StepKeepsBacked(s: System, a: Action)
    requires AnswersAreBacked(s) && IsEnabled(s, a)
    ensures AnswersAreBacked(After(s, a))
  {
    match a
    case TimePasses(_) => OthersStayBacked(s, After(s, a));
    case Arrives(incoming) => OthersStayBacked(s, After(s, a));
    case RedisActs(id) => RedisKeepsBacked(s, id);
    case Answers(id, ok) => AnswerKeepsBacked(s, id, ok);
    case Responds(i, response) => ResponseKeepsBacked(s, i, response);
  }

  lemma {:induction false} RunKeepsBacked(states: seq<System>, actions: seq<Action>, k: nat)
    requires IsRun(states, actions) && k < |states|
    ensures AnswersAreBacked(states[k])
  {
    if k > 0 {
      RunKeepsBacked(states, actions, k - 1);
      StepKeepsBacked(states[k - 1], actions[k - 1]);
    }
  }

  /**
    In every run, also with holds that lapse and with Redis failing, a replayed answer is one that the handler gave to
    another request of the same caller with the same path, key and content.
  */
  lemma {:induction false} ReplayedAnswersWereGiven(states: seq<System>, actions: seq<Action>, k: nat, i: nat)
    requires IsRun(states, actions) && k < |states| && i < |states[k].requests| && states[k].requests[i].phase.Replayed?
    ensures states[k].requests[i].key.Some?
    ensures exists j: nat ::
              && j < |states[k].requests| && j != i
              && states[k].requests[j].key == states[k].requests[i].key
              && states[k].requests[j].incoming.content == states[k].requests[i].incoming.content
              && states[k].requests[j].phase.Responded?
              && Kept(states[k].requests[j].incoming, states[k].requests[j].phase.response)
                 == Some(states[k].requests[i].phase.answer)
  {
    RunKeepsBacked(states, actions, k);
    assert RequestIsBacked(states[k], i);
  }

  // Punctual runs: one holder at a time

  predicate Concerns(s: System, i: nat, key: RedisKey) {
    i < |s.requests| && s.requests[i].key == Some(key)
  }

  /**
    For requests with this key Redis is there and answers, and the clock does not reach the end of a hold of the key
    before the holder's last write has landed. Nothing is asked of the other keys.
  */
  ghost predicate IsPunctual(s: System, a: Action, key: RedisKey) {
    match a
    case TimePasses(ms) => forall i | i in s.holds && Concerns(s, i, key) :: s.now + ms < s.holds[i]
    case Arrives(incoming) => KeyOf(incoming) == Some(key) ==> incoming.redisIsReady
    case Answers(id, ok) => id < |s.sent| && Concerns(s, s.sent[id].request, key) ==> ok
    case _ => true
  }

  /** Up to the k-th state. */
  ghost predicate IsPunctualUpTo(states: seq<System>, actions: seq<Action>, k: nat, key: RedisKey) {
    IsRun(states, actions) && k < |states| && forall n | 0 <= n < k :: IsPunctual(states[n], actions[n], key)
  }

  /** The handler of a request that takes part is running. */
  ghost predicate IsRunning(s: System, i: nat) {
    i < |s.requests| && s.requests[i].phase.Handling? && s.requests[i].key.Some?
  }

  ghost predicate HoldsTheEntry(s: System, i: nat) {
    && i in s.holds && i < |s.requests| && s.requests[i].key.Some?
    && var key := s.requests[i].key.value;
       key in s.store && s.store[key] == Entry(Readable(KeyRecord(s.requests[i].incoming.content, None)), s.holds[i])
  }

  ghost predicate HoldsAreFirm(s: System, key: RedisKey) {
    && (forall i | i in s.holds :: i < |s.requests|)
    && (forall i | i in s.holds && Concerns(s, i, key) :: HoldsTheEntry(s, i) && s.now < s.holds[i])
    && (forall i, j | i in s.holds && j in s.holds && Concerns(s, i, key) && Concerns(s, j, key) :: i == j)
  }

  ghost predicate RunnersHold(s: System, key: RedisKey) {
    forall i: nat | IsRunning(s, i) && Concerns(s, i, key) :: i in s.holds && i in s.heldKeys
  }

  predicate IsWrite(command: Command) {
    command.SetEx? || command.Del?
  }

  /** What was sent is the request's own, and a last write means that it has its response. */
  ghost predicate SentIsOwn(s: System, sent: Sent) {
    && sent.request < |s.requests|
    && s.requests[sent.request].key == Some(sent.command.redisKey)
    && (sent.command.SetNx? ==>
          && sent.command.keyRecord == KeyRecord(s.requests[sent.request].incoming.content, None)
          && (sent.outcome != Unsent ==> sent.outcome.SetDone?))
    && (IsWrite(sent.command) ==> s.requests[sent.request].phase.Responded?)
  }

  ghost predicate SentFits(s: System, sent: Sent, key: RedisKey) {
    && SentIsOwn(s, sent)
    && (sent.command.redisKey == key && sent.command.SetNx? ==>
          && (sent.outcome == Unsent ==> s.requests[sent.request].phase.AwaitsSet?)
          && (sent.outcome == SetDone(true) && s.requests[sent.request].phase.AwaitsSet? ==> sent.request in s.holds))
    && (sent.command.redisKey == key && IsWrite(sent.command) && sent.outcome == Unsent ==> sent.request in s.holds)
  }

  /** A request sends one SET and one last write. */
  ghost predicate SentOnce(sent: seq<Sent>) {
    forall x, y | 0 <= x < y < |sent| && sent[x].request == sent[y].request ::
      !(sent[x].command.SetNx? && sent[y].command.SetNx?) && !(IsWrite(sent[x].command) && IsWrite(sent[y].command))
  }

  ghost predicate AllSentFit(s: System, key: RedisKey) {
    && (forall id | 0 <= id < |s.sent| :: SentFits(s, s.sent[id], key))
    && SentOnce(s.sent)
  }

  ghost predicate IsOrderly(s: System, key: RedisKey) {
    HoldersFit(s, key) && AllSentFit(s, key)
  }

  ghost predicate HoldersFit(s: System, key: RedisKey) {
    HoldsAreFirm(s, key) && RunnersHold(s, key) && HeldKeysMatch(s.requests, s.heldKeys)
  }

  /** Holds depend on the store and on what requests never change. */
  lemma FirmStays(s: System, t: System, key: RedisKey)
    requires HoldsAreFirm(s, key) && t.holds == s.holds && t.store == s.store && t.now == s.now
             && |s.requests| <= |t.requests|
    requires forall j | 0 <= j < |s.requests| ::
               t.requests[j].key == s.requests[j].key && t.requests[j].incoming == s.requests[j].incoming
    ensures HoldsAreFirm(t, key)
  {
    forall j | j in t.holds && Concerns(t, j, key) ensures HoldsTheEntry(t, j) {
      assert j < |s.requests| && HoldsTheEntry(s, j);
    }
  }

  /** Redis grants a key only where no hold of it stands. */
  lemma GrantIsAlone(s: System, id: nat, i: nat, key: RedisKey)
    requires HoldsAreFirm(s, key) && id < |s.sent| && s.sent[id].command.SetNx? && s.sent[id].command.redisKey == key
    requires i in s.holds && Concerns(s, i, key)
    ensures IsLive(s, key) && Carried(s, id).store == s.store && Carried(s, id).holds == s.holds
  {
    assert HoldsTheEntry(s, i);
  }

  lemma SetKeepsHeld(s: System, id: nat, key: RedisKey, i: nat)
    requires HoldsAreFirm(s, key) && IsEnabled(s, RedisActs(id))
    requires s.sent[id].command.SetNx? && SentFits(s, s.sent[id], key)
    requires i in Carried(s, id).holds && Concerns(s, i, key)
    ensures HoldsTheEntry(Carried(s, id), i) && Carried(s, id).now < Carried(s, id).holds[i]
  {
    if i in s.holds {
      if s.sent[id].command.redisKey == key {
        GrantIsAlone(s, id, i, key);
      }
      assert HoldsTheEntry(s, i);
    }
  }

  lemma SetKeepsApart(s: System, id: nat, key: RedisKey, i: nat, j: nat)
    requires HoldsAreFirm(s, key) && IsEnabled(s, RedisActs(id))
    requires s.sent[id].command.SetNx? && SentFits(s, s.sent[id], key)
    requires i in Carried(s, id).holds && j in Carried(s, id).holds && Concerns(s, i, key) && Concerns(s, j, key)
    ensures i == j
  {
    if s.sent[id].command.redisKey == key && (i in s.holds || j in s.holds) {
      GrantIsAlone(s, id, if i in s.holds then i else j, key);
    }
  }

  lemma SetKeepsFirm(s: System, id: nat, key: RedisKey)
    requires HoldsAreFirm(s, key) && IsEnabled(s, RedisActs(id))
    requires s.sent[id].command.SetNx? && SentFits(s, s.sent[id], key)
    ensures HoldsAreFirm(Carried(s, id), key)
  {
    RedisKeepsRequests(s, id);
    var t := Carried(s, id);
    forall i | i in t.holds ensures i < |t.requests| {
      assert i in s.holds || i == s.sent[id].request;
    }
    hide Carried, IsEnabled, HoldsTheEntry, SentFits, IsLive;
    forall i | i in t.holds && Concerns(t, i, key) ensures HoldsTheEntry(t, i) && t.now < t.holds[i] {
      SetKeepsHeld(s, id, key, i);
    }
    forall i, j | i in t.holds && j in t.holds && Concerns(t, i, key) && Concerns(t, j, key) ensures i == j {
      SetKeepsApart(s, id, key, i, j);
    }
  }

  lemma SetKeepsHolders(s: System, id: nat, key: RedisKey)
    requires IsOrderly(s, key) && IsEnabled(s, RedisActs(id)) && s.sent[id].command.SetNx?
    ensures HoldersFit(Carried(s, id), key)
  {
    assert SentFits(s, s.sent[id], key);
    SetKeepsFirm(s, id, key);
    hide HoldsAreFirm, AllSentFit, SentFits, HeldKeysMatch;
  }

  /** A write about to land is that of the only holder of its key. */
  lemma WriterIsAlone(s: System, id: nat, i: nat, key: RedisKey)
    requires HoldsAreFirm(s, key) && IsEnabled(s, RedisActs(id))
    requires IsWrite(s.sent[id].command) && SentFits(s, s.sent[id], key)
    requires i in s.holds && Concerns(s, i, key) && i != s.sent[id].request
    ensures s.sent[id].command.redisKey != key
  {
  }

  lemma WriteKeepsFirm(s: System, id: nat, key: RedisKey)
    requires HoldsAreFirm(s, key) && IsEnabled(s, RedisActs(id))
    requires IsWrite(s.sent[id].command) && SentFits(s, s.sent[id], key)
    ensures HoldsAreFirm(Carried(s, id), key)
  {
    var t := Carried(s, id);
    forall i | i in t.holds && Concerns(t, i, key) ensures HoldsTheEntry(t, i) && t.now < t.holds[i] {
      WriterIsAlone(s, id, i, key);
      assert HoldsTheEntry(s, i);
    }
  }

  lemma WriteKeepsHolders(s: System, id: nat, key: RedisKey)
    requires IsOrderly(s, key) && IsEnabled(s, RedisActs(id)) && IsWrite(s.sent[id].command)
    ensures HoldersFit(Carried(s, id), key)
  {
    assert SentFits(s, s.sent[id], key);
    WriteKeepsFirm(s, id, key);
    hide HoldsAreFirm, AllSentFit, SentFits, HeldKeysMatch;
    forall j: nat | IsRunning(Carried(s, id), j) ensures IsRunning(s, j) && j != s.sent[id].request {
      assert s.requests[s.sent[id].request].phase.Responded?;
    }
  }

  lemma RedisKeepsOwnFit(s: System, id: nat, key: RedisKey)
    requires IsEnabled(s, RedisActs(id)) && SentFits(s, s.sent[id], key)
    ensures id < |Carried(s, id).sent| && SentFits(Carried(s, id), Carried(s, id).sent[id], key)
  {
    hide IsLive, Found;
  }

  /** A request gains its hold by its own SET and loses it by its own last write. */
  lemma HoldsOfOthersStay(s: System, id: nat, i: nat)
    requires IsEnabled(s, RedisActs(id)) && i in s.holds
    requires !(IsWrite(s.sent[id].command) && s.sent[id].request == i)
    ensures i in Carried(s, id).holds
  {
    hide IsLive, Found;
  }

  lemma RedisKeepsRequests(s: System, id: nat)
    requires IsEnabled(s, RedisActs(id))
    ensures Carried(s, id).requests == s.requests && |Carried(s, id).sent| == |s.sent|
    ensures forall n | 0 <= n < |s.sent| && n != id :: Carried(s, id).sent[n] == s.sent[n]
  {
    hide IsLive, Found;
  }

  lemma RedisKeepsOtherFit(s: System, id: nat, n: nat, key: RedisKey)
    requires IsEnabled(s, RedisActs(id)) && n < |s.sent| && n != id
    requires SentFits(s, s.sent[id], key) && SentFits(s, s.sent[n], key)
    requires s.sent[id].request == s.sent[n].request ==>
               && !(s.sent[id].command.SetNx? && s.sent[n].command.SetNx?)
               && !(IsWrite(s.sent[id].command) && IsWrite(s.sent[n].command))
    ensures n < |Carried(s, id).sent| && SentFits(Carried(s, id), Carried(s, id).sent[n], key)
  {
    RedisKeepsRequests(s, id);
    hide Carried, IsLive, Found;
    var i := s.sent[n].request;
    if i in s.holds && !(IsWrite(s.sent[id].command) && s.sent[id].request == i) {
      HoldsOfOthersStay(s, id, i);
    }
  }

  lemma RedisKeepsFit(s: System, id: nat, n: nat, key: RedisKey)
    requires AllSentFit(s, key) && IsEnabled(s, RedisActs(id)) && n < |s.sent|
    ensures |Carried(s, id).sent| == |s.sent| && SentFits(Carried(s, id), Carried(s, id).sent[n], key)
  {
    hide SentFits, Found;
    if n == id {
      RedisKeepsOwnFit(s, id, key);
    } else {
      assert n < id || id < n;
      RedisKeepsOtherFit(s, id, n, key);
    }
  }

  lemma RedisKeepsSent(s: System, id: nat, key: RedisKey)
    requires AllSentFit(s, key) && IsEnabled(s, RedisActs(id))
    ensures AllSentFit(Carried(s, id), key)
  {
    hide SentFits, IsLive, Found;
    forall n: nat | n < |s.sent| { RedisKeepsFit(s, id, n, key); }
    assert |Carried(s, id).sent| == |s.sent|;
  }

  lemma RedisKeepsOrder(s: System, id: nat, key: RedisKey)
    requires IsOrderly(s, key) && IsEnabled(s, RedisActs(id))
    ensures IsOrderly(Carried(s, id), key)
  {
    RedisKeepsSent(s, id, key);
    if s.sent[id].command.SetNx? {
      SetKeepsHolders(s, id, key);
    } else if IsWrite(s.sent[id].command) {
      WriteKeepsHolders(s, id, key);
    }
  }

  lemma ArrivalKeepsHolders(s: System, incoming: Incoming, key: RedisKey)
    requires HoldersFit(s, key) && IsPunctual(s, Arrives(incoming), key)
    ensures HoldersFit(After(s, Arrives(incoming)), key)
  {
    FirmStays(s, After(s, Arrives(incoming)), key);
    hide HoldsAreFirm;
    var t := After(s, Arrives(incoming));
    forall i: nat | IsRunning(t, i) && Concerns(t, i, key) ensures IsRunning(s, i) && Concerns(s, i, key) {}
  }

  /** What was sent stays fit when a request is added or moves on without a response. */
  lemma SentStaysFit(s: System, t: System, n: nat, key: RedisKey)
    requires n < |s.sent| && SentFits(s, s.sent[n], key)
    requires t.holds == s.holds && |s.requests| <= |t.requests|
    requires forall i | 0 <= i < |s.requests| ::
               && t.requests[i].key == s.requests[i].key && t.requests[i].incoming == s.requests[i].incoming
               && (t.requests[i].phase == s.requests[i].phase
                   || (!s.requests[i].phase.Responded? && !t.requests[i].phase.AwaitsSet?
                       && (s.sent[n].request == i && s.sent[n].command.SetNx? && s.sent[n].command.redisKey == key ==>
                             s.sent[n].outcome != Unsent)))
    ensures SentFits(t, s.sent[n], key)
  {
  }

  lemma ArrivalKeepsSent(s: System, incoming: Incoming, key: RedisKey)
    requires AllSentFit(s, key)
    ensures AllSentFit(After(s, Arrives(incoming)), key)
  {
    forall n: nat | n < |s.sent| { SentStaysFit(s, After(s, Arrives(incoming)), n, key); }
  }

  lemma SetAnswerKeepsRunners(s: System, i: nat, acquired: Option<bool>, key: RedisKey)
    requires RunnersHold(s, key) && i < |s.requests| && s.requests[i].phase.AwaitsSet? && s.requests[i].key.Some?
    requires Concerns(s, i, key) ==> acquired.Some? && (acquired.value ==> i in s.holds)
    ensures RunnersHold(SetAnswered(s, i, acquired), key)
  {
    var t := SetAnswered(s, i, acquired);
    forall j: nat | IsRunning(t, j) && j != i ensures IsRunning(s, j) {}
  }

  /** What the request is told: nothing, if the answer was lost. */
  function ToldOf(sent: Sent, ok: bool): Option<bool> {
    if ok && sent.outcome.SetDone? then Some(sent.outcome.acquired) else None
  }

  lemma SetAnswerKeepsHolders(s: System, id: nat, ok: bool, key: RedisKey)
    requires IsOrderly(s, key) && IsEnabled(s, Answers(id, ok)) && s.sent[id].command.SetNx?
    requires IsPunctual(s, Answers(id, ok), key)
    ensures HoldersFit(After(s, Answers(id, ok)), key)
  {
    var i := s.sent[id].request;
    assert SentFits(s, s.sent[id], key);
    hide AllSentFit, HoldsAreFirm, RunnersHold, HeldKeysMatch;
    FirmStays(s, After(s, Answers(id, ok)), key);
    SetAnswerKeepsRunners(s, i, ToldOf(s.sent[id], ok), key);
    SetAnswerKeepsHeld(s, i, ToldOf(s.sent[id], ok));
  }

  lemma SetAnswerKeepsFit(s: System, id: nat, ok: bool, n: nat, key: RedisKey)
    requires AllSentFit(s, key) && IsEnabled(s, Answers(id, ok)) && s.sent[id].command.SetNx? && n < |s.sent|
    requires IsPunctual(s, Answers(id, ok), key)
    ensures SentFits(After(s, Answers(id, ok)), s.sent[n], key)
  {
    assert SentFits(s, s.sent[id], key) && SentFits(s, s.sent[n], key);
    assert n < id || id < n || n == id;
    SentStaysFit(s, After(s, Answers(id, ok)), n, key);
  }

  lemma SetAnswerKeepsSent(s: System, id: nat, ok: bool, key: RedisKey)
    requires AllSentFit(s, key) && IsEnabled(s, Answers(id, ok)) && s.sent[id].command.SetNx?
    requires IsPunctual(s, Answers(id, ok), key)
    ensures AllSentFit(After(s, Answers(id, ok)), key)
  {
    forall n: nat | n < |s.sent| { SetAnswerKeepsFit(s, id, ok, n, key); }
    var t := After(s, Answers(id, ok));
    assert SentFits(s, s.sent[id], key);
    assert |s.sent| < |t.sent| ==> SentFits(t, t.sent[|s.sent|], key);
  }

  lemma GetAnswerKeepsHolders(s: System, id: nat, ok: bool, key: RedisKey)
    requires HoldersFit(s, key) && IsEnabled(s, Answers(id, ok)) && s.sent[id].command.Get?
    ensures HoldersFit(After(s, Answers(id, ok)), key)
  {
    var t := After(s, Answers(id, ok));
    FirmStays(s, t, key);
    hide HoldsAreFirm;
    forall j: nat | IsRunning(t, j) ensures IsRunning(s, j) {}
  }

  lemma GetAnswerKeepsOrder(s: System, id: nat, ok: bool, key: RedisKey)
    requires IsOrderly(s, key) && IsEnabled(s, Answers(id, ok)) && s.sent[id].command.Get?
    ensures IsOrderly(After(s, Answers(id, ok)), key)
  {
    GetAnswerKeepsHolders(s, id, ok, key);
    hide HoldersFit;
    var t := After(s, Answers(id, ok));
    forall n | 0 <= n < |t.sent| ensures SentFits(t, t.sent[n], key) { assert SentFits(s, s.sent[n], key); }
  }

  lemma ResponseKeepsRunners(s: System, i: nat, response: Response, key: RedisKey)
    requires RunnersHold(s, key) && IsEnabled(s, Responds(i, response))
    ensures RunnersHold(After(s, Responds(i, response)), key)
  {
    forall j: nat | IsRunning(After(s, Responds(i, response)), j) ensures IsRunning(s, j) && j != i {}
  }

  lemma ResponseKeepsHeld(s: System, i: nat, response: Response)
    requires HeldKeysMatch(s.requests, s.heldKeys) && IsEnabled(s, Responds(i, response))
    ensures HeldKeysMatch(After(s, Responds(i, response)).requests, After(s, Responds(i, response)).heldKeys)
  {
  }

  lemma ResponseKeepsHolders(s: System, i: nat, response: Response, key: RedisKey)
    requires HoldersFit(s, key) && IsEnabled(s, Responds(i, response))
    ensures HoldersFit(After(s, Responds(i, response)), key)
  {
    hide HoldsAreFirm, RunnersHold, HeldKeysMatch, Kept;
    FirmStays(s, After(s, Responds(i, response)), key);
    ResponseKeepsRunners(s, i, response, key);
    ResponseKeepsHeld(s, i, response);
  }

  /** A request still being handled has sent no last write. */
  lemma HandlingHasNotWritten(s: System, i: nat, n: nat, key: RedisKey)
    requires i < |s.requests| && s.requests[i].phase.Handling? && n < |s.sent| && SentFits(s, s.sent[n], key)
    ensures !(s.sent[n].request == i && IsWrite(s.sent[n].command))
  {
  }

  lemma LastWriteFits(s: System, i: nat, response: Response, key: RedisKey)
    requires HoldersFit(s, key) && IsEnabled(s, Responds(i, response)) && i in s.heldKeys
    ensures var t := After(s, Responds(i, response));
            && |t.sent| == |s.sent| + 1 && t.sent[..|s.sent|] == s.sent
            && SentFits(t, t.sent[|s.sent|], key) && IsWrite(t.sent[|s.sent|].command) && t.sent[|s.sent|].request == i
  {
    hide HoldsAreFirm, Kept;
    assert IsRunning(s, i);
  }

  lemma ResponseKeepsSent(s: System, i: nat, response: Response, key: RedisKey)
    requires IsOrderly(s, key) && IsEnabled(s, Responds(i, response))
    ensures AllSentFit(After(s, Responds(i, response)), key)
  {
    var t := After(s, Responds(i, response));
    forall n: nat | n < |s.sent|
      ensures SentFits(t, s.sent[n], key) && !(s.sent[n].request == i && IsWrite(s.sent[n].command))
    {
      HandlingHasNotWritten(s, i, n, key);
      SentStaysFit(s, t, n, key);
    }
    if i in s.heldKeys {
      LastWriteFits(s, i, response, key);
    }
    hide SentFits, HoldersFit, Remembering, Kept, IsWrite;
  }

  lemma {:induction false} StepKeepsOrder(s: System, a: Action, key: RedisKey)
    requires IsOrderly(s, key) && IsEnabled(s, a) && IsPunctual(s, a, key)
    ensures IsOrderly(After(s, a), key)
  {
    match a
    case TimePasses(ms) => TimeKeepsOrder(s, ms, key);
    case Arrives(incoming) =>
      ArrivalKeepsHolders(s, incoming, key);
      ArrivalKeepsSent(s, incoming, key);
    case RedisActs(id) => RedisKeepsOrder(s, id, key);
    case Answers(id, ok) =>
      if s.sent[id].command.SetNx? {
        SetAnswerKeepsHolders(s, id, ok, key);
        SetAnswerKeepsSent(s, id, ok, key);
      } else {
        GetAnswerKeepsOrder(s, id, ok, key);
      }
    case Responds(i, response) =>
      ResponseKeepsHolders(s, i, response, key);
      ResponseKeepsSent(s, i, response, key);
  }

  lemma TimeKeepsOrder(s: System, ms: nat, key: RedisKey)
    requires IsOrderly(s, key) && IsPunctual(s, TimePasses(ms), key)
    ensures IsOrderly(s.(now := s.now + ms), key)
  {
    var t := s.(now := s.now + ms);
    forall n | 0 <= n < |s.sent| ensures SentFits(t, s.sent[n], key) { assert SentFits(s, s.sent[n], key); }
    forall j: nat | IsRunning(t, j) ensures IsRunning(s, j) {}
  }

  lemma {:induction false} PunctualRunKeepsOrder(states: seq<System>, actions: seq<Action>, k: nat, key: RedisKey)
    requires IsPunctualUpTo(states, actions, k, key)
    ensures IsOrderly(states[k], key)
  {
    if k > 0 {
      PunctualRunKeepsOrder(states, actions, k - 1, key);
      StepKeepsOrder(states[k - 1], actions[k - 1], key);
    }
  }

  predicate HasKeptAnswer(s: System, key: RedisKey) {
    Found(s, key).Some? && Found(s, key).value.answer.Some?
  }

  /**
    As long as a run is punctual for a key, at most one handler runs for the key,
    and none while an answer is kept for it, whatever becomes of the other keys.
  */
  lemma {:induction false} OneHandlerPerKey(states: seq<System>, actions: seq<Action>, k: nat, key: RedisKey, i: nat)
    requires IsPunctualUpTo(states, actions, k, key) && IsRunning(states[k], i) && Concerns(states[k], i, key)
    ensures forall j: nat | IsRunning(states[k], j) && Concerns(states[k], j, key) :: j == i
    ensures !HasKeptAnswer(states[k], key)
  {
    PunctualRunKeepsOrder(states, actions, k, key);
  }

  /** And nothing but the clock removes or changes a kept answer. */
  lemma {:induction false} KeptAnswerStays(states: seq<System>, actions: seq<Action>, k: nat, key: RedisKey)
    requires IsPunctualUpTo(states, actions, k, key) && k < |actions| && HasKeptAnswer(states[k], key)
    ensures key in states[k + 1].store && states[k + 1].store[key] == states[k].store[key]
  {
    PunctualRunKeepsOrder(states, actions, k, key);
    var s, a := states[k], actions[k];
    if a.RedisActs? {
      assert SentFits(s, s.sent[a.id], key);
    }
  }

  ghost predicate KeysAreTheirOwn(s: System) {
    forall i | 0 <= i < |s.requests| :: s.requests[i].key == KeyOf(s.requests[i].incoming)
  }

  lemma StepKeepsKeys(s: System, a: Action)
    requires KeysAreTheirOwn(s) && IsEnabled(s, a)
    ensures KeysAreTheirOwn(After(s, a))
  {
    hide KeyOf, IsLive, Found, Kept, Remembering;
    var t := After(s, a);
    match a
    case Arrives(incoming) => assert t.requests == s.requests + [Begun(incoming)];
    case RedisActs(id) => assert t.requests == s.requests;
    case Answers(id, ok) =>
      var i := s.sent[id].request;
      assert |t.requests| == |s.requests| && t.requests[i].key == s.requests[i].key
          && t.requests[i].incoming == s.requests[i].incoming;
      assert forall j | 0 <= j < |s.requests| && j != i :: t.requests[j] == s.requests[j];
    case _ =>
  }

  /** The key of a request is made of its own caller, path and header. */
  lemma {:induction false} KeysAreTrue(states: seq<System>, actions: seq<Action>, k: nat)
    requires IsRun(states, actions) && k < |states|
    ensures KeysAreTheirOwn(states[k])
  {
    if k > 0 {
      KeysAreTrue(states, actions, k - 1);
      StepKeepsKeys(states[k - 1], actions[k - 1]);
    }
  }
}

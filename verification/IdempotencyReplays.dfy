/** What a request with an idempotency key is told: which answers are kept, and who is given them again. */
module IdempotencyReplays {
  import opened Options
  import opened Idempotency
  import opened IdempotencyRuns

  // Keys

  /** Both requests come from nobody, or from the same OAuth client and user, API token or user session. */
  predicate IsSameCaller(a: Identity, b: Identity) {
    if a.oauthToken.Some? || b.oauthToken.Some? then a.oauthToken == b.oauthToken
    else if a.apiToken.Some? || b.apiToken.Some? then a.apiToken == b.apiToken
    else a.userSession == b.userSession
  }

  /** The longer client is the shorter one, a colon and what the other's user begins with. */
  ghost predicate AreAmbiguous(client: string, user: string, otherClient: string, otherUser: string) {
    exists middle :: client == otherClient + ":" + middle && otherUser == middle + ":" + user
  }

  ghost predicate IsMistakenFor(a: Identity, b: Identity) {
    && a.oauthToken.Some? && b.oauthToken.Some?
    && AreAmbiguous(a.oauthToken.value.0, a.oauthToken.value.1, b.oauthToken.value.0, b.oauthToken.value.1)
  }

  lemma SamePrefix(prefix: string, a: string, b: string)
    ensures prefix + a == prefix + b <==> a == b
  {
    assert (prefix + a)[|prefix|..] == a && (prefix + b)[|prefix|..] == b;
  }

  /** A longer client that joins to the same text is ambiguous. */
  lemma LongerIsAmbiguous(client: string, user: string, otherClient: string, otherUser: string)
    requires client + (":" + user) == otherClient + (":" + otherUser) && |client| > |otherClient|
    ensures AreAmbiguous(client, user, otherClient, otherUser)
  {
    var n := |otherClient|;
    var joined, otherJoined := client + (":" + user), otherClient + (":" + otherUser);
    var middle := client[n + 1..];
    assert client[..n] == joined[..n] == otherJoined[..n] == otherClient;
    assert client[n] == joined[n] == otherJoined[n] == ':';
    assert client == otherClient + ":" + middle;
    assert joined[n + 1..] == middle + ":" + user;
    assert otherJoined[n + 1..] == otherUser;
  }

  lemma AmbiguousJoinsTheSame(client: string, user: string, otherClient: string, otherUser: string)
    requires AreAmbiguous(client, user, otherClient, otherUser)
    ensures client + (":" + user) == otherClient + (":" + otherUser)
  {
    var middle :| client == otherClient + ":" + middle && otherUser == middle + ":" + user;
    var first, second := client + (":" + user), otherClient + (":" + otherUser);
    assert first == otherClient + (":" + (middle + (":" + user)));
    assert otherUser == middle + (":" + user);
  }

  lemma SameLengthJoinsTheSame(client: string, user: string, otherClient: string, otherUser: string)
    requires client + (":" + user) == otherClient + (":" + otherUser) && |client| == |otherClient|
    ensures client == otherClient && user == otherUser
  {
    var first, second := client + (":" + user), otherClient + (":" + otherUser);
    assert first[..|client|] == client && second[..|client|] == otherClient;
    assert first[|client| + 1..] == user && second[|client| + 1..] == otherUser;
  }

  /**
    Requests that take part have the same caller text exactly if they come from the same caller, but for OAuth clients
    that hold a colon: with such a one another user may be mistaken for the caller.
  */
  lemma {:induction false} CallersAreToldApart(a: Identity, b: Identity)
    ensures CallerOf(a) == CallerOf(b) <==> IsSameCaller(a, b) || IsMistakenFor(a, b) || IsMistakenFor(b, a)
    ensures CallerOf(a) == None <==> a == Identity(None, None, None)
  {
    if a.oauthToken.Some? && b.oauthToken.Some? {
      var (client, user) := a.oauthToken.value;
      var (otherClient, otherUser) := b.oauthToken.value;
      assert CallerOf(a).value == "oauth:" + (client + (":" + user));
      assert CallerOf(b).value == "oauth:" + (otherClient + (":" + otherUser));
      SamePrefix("oauth:", client + (":" + user), otherClient + (":" + otherUser));
      OAuthCallersAreToldApart(client, user, otherClient, otherUser);
    } else if CallerOf(a).Some? && CallerOf(b).Some? {
      OtherKindsAreToldApart(a, b);
    }
  }

  lemma OAuthCallersAreToldApart(client: string, user: string, otherClient: string, otherUser: string)
    ensures client + (":" + user) == otherClient + (":" + otherUser)
       <==> || (client == otherClient && user == otherUser) || AreAmbiguous(client, user, otherClient, otherUser)
            || AreAmbiguous(otherClient, otherUser, client, user)
  {
    if client + (":" + user) == otherClient + (":" + otherUser) {
      if |client| > |otherClient| {
        LongerIsAmbiguous(client, user, otherClient, otherUser);
      } else if |client| < |otherClient| {
        LongerIsAmbiguous(otherClient, otherUser, client, user);
      } else {
        SameLengthJoinsTheSame(client, user, otherClient, otherUser);
      }
    }
    if AreAmbiguous(client, user, otherClient, otherUser) {
      AmbiguousJoinsTheSame(client, user, otherClient, otherUser);
    }
    if AreAmbiguous(otherClient, otherUser, client, user) {
      AmbiguousJoinsTheSame(otherClient, otherUser, client, user);
    }
  }

  lemma OtherKindsAreToldApart(a: Identity, b: Identity)
    requires CallerOf(a).Some? && CallerOf(b).Some? && !(a.oauthToken.Some? && b.oauthToken.Some?)
    ensures CallerOf(a) == CallerOf(b) <==> IsSameCaller(a, b)
  {
    FirstLetter(a);
    FirstLetter(b);
    if a.oauthToken.None? && b.oauthToken.None? {
      if a.apiToken.Some? && b.apiToken.Some? {
        SamePrefix("api:", a.apiToken.value, b.apiToken.value);
      } else if a.apiToken.None? && b.apiToken.None? {
        SamePrefix("user:", a.userSession.value, b.userSession.value);
      }
    }
  }

  lemma FirstLetter(a: Identity)
    requires CallerOf(a).Some?
    ensures CallerOf(a).value != ""
    ensures CallerOf(a).value[0] == if a.oauthToken.Some? then 'o' else if a.apiToken.Some? then 'a' else 'u'
  {
  }

  /** Two users of two clients, one of them with a colon, that share a caller text and so each other's keys. */
  lemma {:induction false} UsersOfTwoClientsMayCollide()
    ensures CallerOf(Identity(Some(("app:1", "2")), None, None)) == CallerOf(Identity(Some(("app", "1:2")), None, None))
  {
    var a, b := Identity(Some(("app:1", "2")), None, None), Identity(Some(("app", "1:2")), None, None);
    assert "app:1" == "app" + ":" + "1" && "1:2" == "1" + ":" + "2";
    assert IsMistakenFor(a, b);
    CallersAreToldApart(a, b);
  }

  /** A POST takes part with a header that is not empty and a caller, and its key is made of these and its path. */
  lemma {:induction false} KeysOfRequests(incoming: Incoming, caller: string, path: string, key: string)
    ensures KeyOf(incoming) == Some(RedisKey(caller, path, key))
       <==> && incoming.method_ == "POST" && incoming.keyHeader == Some(key) && key != ""
            && CallerOf(incoming.identity) == Some(caller) && incoming.path == path
    ensures KeyOf(incoming) == None
       <==> || incoming.method_ != "POST" || incoming.keyHeader == None || incoming.keyHeader == Some("")
            || incoming.identity == Identity(None, None, None)
  {
    CallersAreToldApart(incoming.identity, incoming.identity);
    hide CallerOf;
  }

  // Answers that are kept

  /** How many bytes the character takes in UTF-8. */
  function BytesOf(c: char): nat {
    if c as int <= 0x7F then 1 else if c as int <= 0x7FF then 2 else if c as int <= 0xFFFF then 3 else 4
  }

  lemma {:induction false} LengthsAdd(text: string, c: char)
    ensures Utf8Length("") == 0 && Utf8Length(text + [c]) == Utf8Length(text) + BytesOf(c)
  {
    if text != "" {
      LengthsAdd(text[1..], c);
      assert (text + [c])[1..] == text[1..] + [c];
    }
  }

  predicate IsHeaderKept(response: Response, name: string) {
    (name == "content-type" || name == "location") && name in response.headers && response.headers[name].TextHeader?
  }

  /**
    Kept is a success, or a refusal other than 429, with a text of at most 64 KiB or
    nothing as its body; with it the content type and the location where they are text.
  */
  lemma {:induction false} WhatIsKept(incoming: Incoming, response: Response)
    ensures Kept(incoming, response).Some?
       <==> && incoming.mayReplay
            && (200 <= response.status <= 299 || 400 <= response.status <= 428 || 430 <= response.status <= 499)
            && match response.payload
               case NoPayload => true
               case TextPayload(text) => Utf8Length(text) <= 65_536
               case OtherPayload => false
    ensures match Kept(incoming, response)
            case None => true
            case Some(answer) =>
              && answer.status == response.status
              && answer.body == (if response.payload.TextPayload? then Some(response.payload.text) else None)
              && (forall name :: name in answer.headers <==> IsHeaderKept(response, name))
              && forall name | name in answer.headers :: TextHeader(answer.headers[name]) == response.headers[name]
  {
    hide Utf8Length;
  }

  // What each step leads to

  /** A POST that nobody has answered yet claims its key if it takes part and Redis is there; other requests go on. */
  lemma {:induction false} ArrivalsClaimTheirKeys(s: System, incoming: Incoming)
    ensures var t := After(s, Arrives(incoming));
            var i, claims := |s.requests|, KeyOf(incoming).Some? && !incoming.isSent && incoming.redisIsReady;
            && |t.requests| == i + 1 && t.requests[..i] == s.requests && t.heldKeys == s.heldKeys
            && t.requests[i].incoming == incoming && t.requests[i].key == KeyOf(incoming)
            && (t.requests[i].phase == if claims then AwaitsSet
                                       else if incoming.method_ == "POST" && incoming.isSent then AlreadySent
                                       else Handling)
            && t.sent == s.sent + if claims
                 then [Sent(i, SetNx(KeyOf(incoming).value, KeyRecord(incoming.content, None)), Unsent)] else []
  {
    hide CallerOf;
  }

  /** The request goes on in that phase, and is otherwise what it was. */
  predicate GoesOnWith(before: Request, after: Request, phase: Phase) {
    after == before.(phase := phase)
  }

  /** The request of an answered command, and what the command found. */
  ghost predicate FollowsAnswer(before: Request, after: Request, sent: Sent, ok: bool) {
    match sent.command
    case SetNx(_, _) =>
      GoesOnWith(before, after, if ok && sent.outcome == SetDone(false) then AwaitsGet else Handling)
    case _ =>
      match if ok && sent.outcome.Got? then sent.outcome.earlier else None
      case Some(KeyRecord(fingerprint, Some(answer))) =>
        GoesOnWith(before, after,
            if fingerprint == before.incoming.content then Replayed(answer) else Refused(KeyReused))
      case Some(KeyRecord(fingerprint, None)) =>
        GoesOnWith(before, after,
            Refused(if fingerprint == before.incoming.content then DuplicateRequest else KeyReused))
      case None => GoesOnWith(before, after, Refused(DuplicateRequest))
  }

  /**
    A granted claim holds the key while the handler runs, a refused one is followed by a look at the key, and without
    an answer the handler runs unheld. What was found is replayed to the same content; other content is told that the
    key was used before, and everyone else that the request is a duplicate.
  */
  lemma {:induction false} AnswersAreFollowed(states: seq<System>, actions: seq<Action>, k: nat, id: nat, ok: bool)
    requires IsRun(states, actions) && k < |actions| && actions[k] == Answers(id, ok)
    ensures id < |states[k].sent| && states[k].sent[id].request < |states[k].requests|
             && |states[k + 1].requests| == |states[k].requests|
    ensures var s, t := states[k], states[k + 1];
            var i, command := s.sent[id].request, s.sent[id].command;
            && FollowsAnswer(s.requests[i], t.requests[i], s.sent[id], ok)
            && (command.SetNx? && ok && s.sent[id].outcome == SetDone(true)
                ==> t.heldKeys == s.heldKeys[i := HeldKey(command.redisKey, s.requests[i].incoming.content)])
            && (command.SetNx? && ok && s.sent[id].outcome == SetDone(false)
                ==> t.heldKeys == s.heldKeys && t.sent == s.sent + [Sent(i, Get(command.redisKey), Unsent)])
            && (command.SetNx? && !ok ==> t.heldKeys == s.heldKeys && t.sent == s.sent)
  {
    RunSendsOwn(states, actions, k);
    assert SentIsOwn(states[k], states[k].sent[id]);
  }

  // What is sent

  ghost predicate AllSentIsOwn(s: System) {
    forall id | 0 <= id < |s.sent| :: SentIsOwn(s, s.sent[id])
  }

  lemma {:induction false} RunSendsOwn(states: seq<System>, actions: seq<Action>, k: nat)
    requires IsRun(states, actions) && k < |states|
    ensures AllSentIsOwn(states[k])
  {
    if k > 0 {
      RunSendsOwn(states, actions, k - 1);
      RunKeepsBacked(states, actions, k - 1);
      StepSendsOwn(states[k - 1], actions[k - 1]);
    }
  }

  lemma StepSendsOwn(s: System, a: Action)
    requires AllSentIsOwn(s) && HeldKeysMatch(s.requests, s.heldKeys) && IsEnabled(s, a)
    ensures AllSentIsOwn(After(s, a))
  {
    if a.RedisActs? {
      RedisKeepsOwn(s, a.id);
    } else {
      if a.Answers? {
        assert SentIsOwn(s, s.sent[a.id]);
      }
      hide *;
      StepChangesLittle(s, a);
      OwnStays(s, After(s, a));
    }
  }

  /** At most one command is sent, by its own request, and responses stay. */
  lemma StepChangesLittle(s: System, a: Action)
    requires HeldKeysMatch(s.requests, s.heldKeys) && IsEnabled(s, a) && !a.RedisActs?
    requires a.Answers? ==> SentIsOwn(s, s.sent[a.id])
    ensures SendsLittle(s, After(s, a))
  {
    hide Kept, CallerOf, SendsLittle;
    match a
    case Answers(id, ok) => AnswerChangesLittle(s, id, ok);
    case Responds(i, response) => ResponseChangesLittle(s, i, response);
    case Arrives(incoming) => ArrivalChangesLittle(s, incoming);
    case TimePasses(ms) => TimeChangesLittle(s, ms);
    case RedisActs(_) =>
  }

  ghost predicate SendsLittle(s: System, t: System) {
    && KeepRequests(s, t)
    && s.sent <= t.sent && |t.sent| <= |s.sent| + 1
    && (|s.sent| < |t.sent| ==> SentIsOwn(t, t.sent[|s.sent|]))
  }

  lemma AnswerChangesLittle(s: System, id: nat, ok: bool)
    requires IsEnabled(s, Answers(id, ok)) && SentIsOwn(s, s.sent[id])
    ensures SendsLittle(s, After(s, Answers(id, ok)))
  {
  }

  lemma ResponseChangesLittle(s: System, i: nat, response: Response)
    requires HeldKeysMatch(s.requests, s.heldKeys) && IsEnabled(s, Responds(i, response))
    ensures SendsLittle(s, After(s, Responds(i, response)))
  {
    hide Kept;
  }

  lemma ArrivalChangesLittle(s: System, incoming: Incoming)
    ensures SendsLittle(s, After(s, Arrives(incoming)))
  {
    hide CallerOf;
  }

  lemma TimeChangesLittle(s: System, ms: nat)
    ensures SendsLittle(s, After(s, TimePasses(ms)))
  {
  }

  ghost predicate KeepRequests(s: System, t: System) {
    && |s.requests| <= |t.requests|
    && forall i | 0 <= i < |s.requests| ::
         && t.requests[i].key == s.requests[i].key && t.requests[i].incoming == s.requests[i].incoming
         && (s.requests[i].phase.Responded? ==> t.requests[i].phase.Responded?)
  }

  /** What was sent stays a request's own as long as the request keeps its key and its response. */
  lemma OwnStays(s: System, t: System)
    requires AllSentIsOwn(s) && SendsLittle(s, t)
    ensures AllSentIsOwn(t)
  {
    forall n | 0 <= n < |s.sent| ensures SentIsOwn(t, t.sent[n]) {
      assert SentIsOwn(s, s.sent[n]);
    }
  }

  lemma RedisKeepsOwn(s: System, id: nat)
    requires AllSentIsOwn(s) && IsEnabled(s, RedisActs(id))
    ensures AllSentIsOwn(After(s, RedisActs(id)))
  {
    var t := After(s, RedisActs(id));
    RedisKeepsRequests(s, id);
    assert t.sent[id].request == s.sent[id].request && t.sent[id].command == s.sent[id].command
        && (s.sent[id].command.SetNx? ==> t.sent[id].outcome.SetDone?);
    hide After, Carried;
    forall n | 0 <= n < |t.sent| ensures SentIsOwn(t, t.sent[n]) {
      assert SentIsOwn(s, s.sent[n]);
    }
  }

  // Kept answers are given to everyone who repeats

  /** The request is still to be answered, or was told what is kept for its key. */
  predicate IsTold(request: Request, keyRecord: KeyRecord)
    requires keyRecord.answer.Some?
  {
    || request.phase.AwaitsSet? || request.phase.AwaitsGet? || request.phase.AlreadySent?
    || request.phase == if request.incoming.content == keyRecord.fingerprint then Replayed(keyRecord.answer.value)
                        else Refused(KeyReused)
  }

  predicate FindsKept(sent: Sent, keyRecord: KeyRecord) {
    match sent.command
    case SetNx(_, _) => sent.outcome == Unsent || sent.outcome == SetDone(false)
    case Get(_) => sent.outcome == Unsent || sent.outcome == Got(Some(keyRecord))
    case _ => false
  }

  /** The requests with the key that arrived after the first ones. */
  ghost predicate RepeatsAreTold(s: System, key: RedisKey, keyRecord: KeyRecord, first: nat)
    requires keyRecord.answer.Some?
  {
    && (forall i: nat | i >= first && Concerns(s, i, key) :: IsTold(s.requests[i], keyRecord))
    && forall id | 0 <= id < |s.sent| && s.sent[id].request >= first && s.sent[id].command.redisKey == key ::
         FindsKept(s.sent[id], keyRecord)
  }

  lemma RedisTellsRepeats(s: System, id: nat, key: RedisKey, keyRecord: KeyRecord, first: nat)
    requires keyRecord.answer.Some? && Found(s, key) == Some(keyRecord)
    requires RepeatsAreTold(s, key, keyRecord, first) && IsEnabled(s, RedisActs(id))
    ensures RepeatsAreTold(After(s, RedisActs(id)), key, keyRecord, first)
  {
    RedisKeepsRequests(s, id);
    var t := After(s, RedisActs(id));
    assert t.sent[id].request == s.sent[id].request && t.sent[id].command == s.sent[id].command;
    assert s.sent[id].request >= first && s.sent[id].command.redisKey == key ==> FindsKept(t.sent[id], keyRecord);
    hide After, Carried, Found;
  }

  lemma AnswerTellsRepeats(s: System, id: nat, key: RedisKey, keyRecord: KeyRecord, first: nat)
    requires keyRecord.answer.Some? && AllSentIsOwn(s)
    requires RepeatsAreTold(s, key, keyRecord, first) && IsEnabled(s, Answers(id, true))
    ensures RepeatsAreTold(After(s, Answers(id, true)), key, keyRecord, first)
  {
    assert SentIsOwn(s, s.sent[id]);
    hide AllSentIsOwn;
    var i := s.sent[id].request;
    assert i >= first && Concerns(s, i, key) ==> FindsKept(s.sent[id], keyRecord) && IsTold(s.requests[i], keyRecord);
    var t := After(s, Answers(id, true));
    assert i >= first && Concerns(s, i, key) ==> IsTold(t.requests[i], keyRecord);
    forall j: nat | j >= first && Concerns(t, j, key) ensures IsTold(t.requests[j], keyRecord) {
      assert j != i ==> t.requests[j] == s.requests[j] && Concerns(s, j, key);
    }
  }

  lemma ArrivalTellsRepeats(s: System, incoming: Incoming, key: RedisKey, keyRecord: KeyRecord, first: nat)
    requires keyRecord.answer.Some? && IsPunctual(s, Arrives(incoming), key)
    requires RepeatsAreTold(s, key, keyRecord, first)
    ensures RepeatsAreTold(After(s, Arrives(incoming)), key, keyRecord, first)
  {
    hide CallerOf;
    var t := After(s, Arrives(incoming));
    assert forall j: nat | j < |s.requests| && Concerns(t, j, key) :: Concerns(s, j, key);
  }

  /** The requests concerned have no handler that could respond. */
  lemma ResponseTellsRepeats(s: System, i: nat, response: Response, key: RedisKey, keyRecord: KeyRecord, first: nat)
    requires keyRecord.answer.Some? && HeldKeysMatch(s.requests, s.heldKeys)
    requires RepeatsAreTold(s, key, keyRecord, first) && IsEnabled(s, Responds(i, response))
    ensures RepeatsAreTold(After(s, Responds(i, response)), key, keyRecord, first)
  {
    hide Kept;
    assert i >= first && Concerns(s, i, key) ==> IsTold(s.requests[i], keyRecord);
    var t := After(s, Responds(i, response));
    forall j: nat | j >= first && Concerns(t, j, key) ensures IsTold(t.requests[j], keyRecord) {
      assert Concerns(s, j, key);
    }
  }

  lemma StepTellsRepeats(s: System, a: Action, key: RedisKey, keyRecord: KeyRecord, first: nat)
    requires keyRecord.answer.Some? && Found(s, key) == Some(keyRecord) && RepeatsAreTold(s, key, keyRecord, first)
    requires IsEnabled(s, a) && IsPunctual(s, a, key) && AllSentIsOwn(s) && HeldKeysMatch(s.requests, s.heldKeys)
    ensures RepeatsAreTold(After(s, a), key, keyRecord, first)
  {
    match a
    case TimePasses(ms) =>
      assert forall i: nat | Concerns(After(s, a), i, key) :: Concerns(s, i, key);
    case Arrives(incoming) => ArrivalTellsRepeats(s, incoming, key, keyRecord, first);
    case RedisActs(id) => RedisTellsRepeats(s, id, key, keyRecord, first);
    case Answers(id, ok) =>
      if ok {
        AnswerTellsRepeats(s, id, key, keyRecord, first);
      } else {
        OtherAnswerTellsRepeats(s, id, key, keyRecord, first);
      }
    case Responds(i, response) => ResponseTellsRepeats(s, i, response, key, keyRecord, first);
  }

  lemma OtherAnswerTellsRepeats(s: System, id: nat, key: RedisKey, keyRecord: KeyRecord, first: nat)
    requires keyRecord.answer.Some? && AllSentIsOwn(s) && RepeatsAreTold(s, key, keyRecord, first)
    requires IsEnabled(s, Answers(id, false)) && IsPunctual(s, Answers(id, false), key)
    ensures RepeatsAreTold(After(s, Answers(id, false)), key, keyRecord, first)
  {
    assert SentIsOwn(s, s.sent[id]);
    hide AllSentIsOwn;
    var t := After(s, Answers(id, false));
    forall j: nat | j >= first && Concerns(t, j, key) ensures IsTold(t.requests[j], keyRecord) {
      assert t.requests[j] == s.requests[j] && Concerns(s, j, key);
    }
  }

  /** The entry is kept, and everyone who came after the first requests is told. */
  ghost predicate IsKeptAndTold(s: System, key: RedisKey, entry: Entry, first: nat)
    requires entry.text.Readable? && entry.text.keyRecord.answer.Some?
  {
    key in s.store && s.store[key] == entry && RepeatsAreTold(s, key, entry.text.keyRecord, first)
  }

  lemma TellingGoesOn(states: seq<System>, actions: seq<Action>, k: nat, key: RedisKey, entry: Entry, first: nat)
    requires entry.text.Readable? && entry.text.keyRecord.answer.Some?
    requires IsPunctualUpTo(states, actions, k + 1, key)
    requires IsKeptAndTold(states[k], key, entry, first) && states[k].now < entry.expiresAt
    ensures IsKeptAndTold(states[k + 1], key, entry, first)
  {
    assert IsEnabled(states[k], actions[k]) && states[k + 1] == After(states[k], actions[k]);
    assert IsPunctualUpTo(states, actions, k, key) && IsPunctual(states[k], actions[k], key);
    assert Found(states[k], key) == Some(entry.text.keyRecord);
    KeptAnswerStays(states, actions, k, key);
    RunSendsOwn(states, actions, k);
    RunKeepsBacked(states, actions, k);
    assert HeldKeysMatch(states[k].requests, states[k].heldKeys);
    StepTellsRepeats(states[k], actions[k], key, entry.text.keyRecord, first);
    hide After, IsEnabled, IsPunctual, RepeatsAreTold, AllSentIsOwn, HeldKeysMatch, IsPunctualUpTo, IsRun;
  }

  lemma {:induction false} RunTellsRepeats(states: seq<System>, actions: seq<Action>, m: nat, n: nat, key: RedisKey,
        entry: Entry)
    requires m <= n && IsPunctualUpTo(states, actions, n, key) && HasKeptAnswer(states[m], key)
    requires states[m].store[key] == entry && states[n].now < entry.expiresAt
    ensures IsKeptAndTold(states[n], key, entry, |states[m].requests|)
    decreases n
  {
    hide After, IsEnabled, IsPunctual, RepeatsAreTold, IsInitial;
    if n == m {
      NothingYet(states, actions, m, key);
    } else {
      TimeGoesOn(states, actions, n - 1);
      assert IsPunctualUpTo(states, actions, n - 1, key);
      RunTellsRepeats(states, actions, m, n - 1, key, entry);
      hide *;
      TellingGoesOn(states, actions, n - 1, key, entry, |states[m].requests|);
    }
  }

  lemma TimeGoesOn(states: seq<System>, actions: seq<Action>, k: nat)
    requires IsRun(states, actions) && k < |actions|
    ensures states[k].now <= states[k + 1].now
  {
    assert IsEnabled(states[k], actions[k]) && states[k + 1] == After(states[k], actions[k]);
  }

  lemma NothingYet(states: seq<System>, actions: seq<Action>, m: nat, key: RedisKey)
    requires IsRun(states, actions) && m < |states| && HasKeptAnswer(states[m], key)
    ensures RepeatsAreTold(states[m], key, Found(states[m], key).value, |states[m].requests|)
  {
    RunSendsOwn(states, actions, m);
    var s := states[m];
    assert forall id | 0 <= id < |s.sent| :: SentIsOwn(s, s.sent[id]);
  }

  /**
    Once an answer is kept for a key, and until it expires, it stays, and every request with the key that arrives from
    then on is given that very answer if its content is the same and is told otherwise that the key was used before. No
    handler runs for it. This holds as long as the run is punctual for the key.
  */
  lemma {:induction false} RepeatsAreReplayed(states: seq<System>, actions: seq<Action>, m: nat, n: nat, key: RedisKey,
        i: nat)
    requires m <= n && IsPunctualUpTo(states, actions, n, key) && HasKeptAnswer(states[m], key)
    requires states[n].now < states[m].store[key].expiresAt
    requires |states[m].requests| <= i && Concerns(states[n], i, key)
    ensures key in states[n].store && states[n].store[key] == states[m].store[key]
    ensures var KeyRecord(fingerprint, answer) := Found(states[m], key).value;
            match states[n].requests[i].phase
            case Replayed(given) => states[n].requests[i].incoming.content == fingerprint && answer == Some(given)
            case Refused(refusal) => states[n].requests[i].incoming.content != fingerprint && refusal == KeyReused
            case AwaitsSet => true
            case AwaitsGet => true
            case AlreadySent => true
            case _ => false
  {
    RunTellsRepeats(states, actions, m, n, key, states[m].store[key]);
    hide IsPunctualUpTo;
  }

  /** The holder's last write: a kept answer for a day, or the key's removal. */
  lemma {:induction false} ResponsesAreKept(states: seq<System>, actions: seq<Action>, k: nat)
    requires IsRun(states, actions) && k < |actions|
    ensures var s, t := states[k], states[k + 1];
            match actions[k]
            case Responds(i, response) =>
              && i < |s.requests| && |t.requests| == |s.requests| && t.requests[i].phase == Responded(response)
              && i !in t.heldKeys
              && if i in s.heldKeys && s.requests[i].key.Some?
                 then var key, content := s.requests[i].key.value, s.requests[i].incoming.content;
                      match Kept(s.requests[i].incoming, response)
                      case Some(answer) =>
                        t.sent == s.sent + [Sent(i, SetEx(key, KeyRecord(content, Some(answer))), Unsent)]
                      case None => t.sent == s.sent + [Sent(i, Del(key), Unsent)]
                 else i !in s.heldKeys && t.sent == s.sent
            case _ => true
  {
    RunKeepsBacked(states, actions, k);
    hide Kept;
  }

  /** A claim holds the key for 30 s where it is free, an answer is kept for a day, and an expired entry is free. */
  lemma {:induction false} CommandsAreCarriedOut(states: seq<System>, actions: seq<Action>, k: nat, id: nat)
    requires IsRun(states, actions) && k < |actions| && actions[k] == RedisActs(id)
    ensures id < |states[k].sent| && |states[k + 1].sent| == |states[k].sent|
    ensures var s, t := states[k], states[k + 1];
            var key, outcome := s.sent[id].command.redisKey, t.sent[id].outcome;
            var isFree := !(key in s.store && s.now < s.store[key].expiresAt);
            match s.sent[id].command
            case SetNx(_, keyRecord) =>
              if isFree
              then outcome == SetDone(true) && t.store == s.store[key := Entry(Readable(keyRecord), s.now + 30_000)]
              else outcome == SetDone(false) && t.store == s.store
            case Get(_) =>
              && t.store == s.store && outcome.Got?
              && forall keyRecord :: outcome.earlier == Some(keyRecord)
                   <==> !isFree && s.store[key].text == Readable(keyRecord)
            case SetEx(_, keyRecord) =>
              outcome == WriteDone && t.store == s.store[key := Entry(Readable(keyRecord), s.now + 86_400_000)]
            case Del(_) => outcome == WriteDone && t.store == s.store - {key}
  {
  }

  // Nobody is stuck

  predicate IsWaiting(phase: Phase) {
    phase.AwaitsSet? || phase.AwaitsGet?
  }

  predicate IsSentFor(sent: Sent, i: nat, phase: Phase) {
    sent.request == i && if phase.AwaitsSet? then sent.command.SetNx? else sent.command.Get?
  }

  ghost predicate WasSentFor(s: System, i: nat, phase: Phase) {
    exists id :: 0 <= id < |s.sent| && IsSentFor(s.sent[id], i, phase)
  }

  ghost predicate WaitersAwait(s: System) {
    forall i: nat | i < |s.requests| && IsWaiting(s.requests[i].phase) :: WasSentFor(s, i, s.requests[i].phase)
  }

  /** Commands stay sent, and a request that begins to wait has just sent its command. */
  lemma WaitersStillAwait(s: System, t: System)
    requires WaitersAwait(s) && |s.sent| <= |t.sent|
    requires forall id | 0 <= id < |s.sent| ::
               t.sent[id].request == s.sent[id].request && t.sent[id].command == s.sent[id].command
    requires forall i: nat | i < |t.requests| && IsWaiting(t.requests[i].phase) ::
               || (i < |s.requests| && t.requests[i].phase == s.requests[i].phase)
               || (|s.sent| < |t.sent| && IsSentFor(t.sent[|s.sent|], i, t.requests[i].phase))
    ensures WaitersAwait(t)
  {
    forall i: nat | i < |t.requests| && IsWaiting(t.requests[i].phase) ensures WasSentFor(t, i, t.requests[i].phase) {
      if i < |s.requests| && t.requests[i].phase == s.requests[i].phase {
        var id :| 0 <= id < |s.sent| && IsSentFor(s.sent[id], i, s.requests[i].phase);
        assert IsSentFor(t.sent[id], i, t.requests[i].phase);
      }
    }
  }

  lemma StepKeepsWaiters(s: System, a: Action)
    requires WaitersAwait(s) && AllSentIsOwn(s) && IsEnabled(s, a)
    ensures WaitersAwait(After(s, a))
  {
    hide WaitersAwait;
    match a
    case RedisActs(id) => RedisKeepsWaiters(s, id);
    case Answers(id, ok) =>
      assert SentIsOwn(s, s.sent[id]);
      WaitersStillAwait(s, After(s, a));
    case Arrives(incoming) => ArrivalKeepsWaiters(s, incoming);
    case Responds(i, response) => ResponseKeepsWaiters(s, i, response);
    case TimePasses(ms) => WaitersStillAwait(s, s.(now := s.now + ms));
  }

  lemma RedisKeepsWaiters(s: System, id: nat)
    requires WaitersAwait(s) && IsEnabled(s, RedisActs(id))
    ensures WaitersAwait(After(s, RedisActs(id)))
  {
    RedisKeepsRequests(s, id);
    var t := After(s, RedisActs(id));
    assert t.sent[id].request == s.sent[id].request && t.sent[id].command == s.sent[id].command;
    hide After, Carried, WaitersAwait;
    WaitersStillAwait(s, t);
  }

  lemma ArrivalKeepsWaiters(s: System, incoming: Incoming)
    requires WaitersAwait(s)
    ensures WaitersAwait(After(s, Arrives(incoming)))
  {
    hide KeyOf, WaitersAwait;
    WaitersStillAwait(s, After(s, Arrives(incoming)));
  }

  lemma ResponseKeepsWaiters(s: System, i: nat, response: Response)
    requires WaitersAwait(s) && IsEnabled(s, Responds(i, response))
    ensures WaitersAwait(After(s, Responds(i, response)))
  {
    hide Kept, Remembering, WaitersAwait;
    WaitersStillAwait(s, After(s, Responds(i, response)));
  }

  /** A request that waits has sent the command that it waits for, so that the answer can come once Redis has acted. */
  lemma {:induction false} NobodyIsStuck(states: seq<System>, actions: seq<Action>, k: nat)
    requires IsRun(states, actions) && k < |states|
    ensures WaitersAwait(states[k])
  {
    if k > 0 {
      NobodyIsStuck(states, actions, k - 1);
      RunSendsOwn(states, actions, k - 1);
      StepKeepsWaiters(states[k - 1], actions[k - 1]);
    }
  }
}

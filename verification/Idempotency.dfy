/** Idempotent replay of POST requests (idempotency.middleware.ts), as the steps of one request between its awaits. */
module Idempotency {
  import opened Options

  /** Query and body of a request; their digest is taken to tell any two apart. */
  type Content(==, !new)

  const IDEMPOTENCY_LOCK_SECONDS: nat := 30
  const IDEMPOTENCY_REPLAY_SECONDS: nat := 60 * 60 * 24
  const IDEMPOTENCY_REPLAY_MAX_BYTES: nat := 64 * 1024
  const TOO_MANY_REQUESTS := 429
  const REPLAYED_HEADERS := ["content-type", "location"]

  /** The parts that make up a Redis key; the digest over path and key is taken to tell any two apart. */
  datatype RedisKey = RedisKey(caller: string, path: string, key: string)

  datatype Answer = Answer(status: int, headers: map<string, string>, body: Option<string>)
  datatype KeyRecord = KeyRecord(fingerprint: Content, answer: Option<Answer>)

  datatype Identity = Identity(oauthToken: Option<(string, string)>, apiToken: Option<string>,
        userSession: Option<string>)

  datatype Incoming = Incoming(
    method_: string,
    isSent: bool,
    keyHeader: Option<string>,
    identity: Identity,
    path: string,
    content: Content,
    mayReplay: bool,
    redisIsReady: bool)

  datatype HeaderValue = TextHeader(text: string) | OtherHeader
  datatype Payload = NoPayload | TextPayload(text: string) | OtherPayload
  datatype Response = Response(status: int, headers: map<string, HeaderValue>, payload: Payload)

  datatype Refusal = KeyReused | DuplicateRequest
  datatype Phase =
    | AwaitsSet
    | AwaitsGet
    | Handling
    | Refused(refusal: Refusal)
    | Replayed(answer: Answer)
    | Responded(response: Response)
    | AlreadySent

  /** `key` is the key that the hook has worked out for the request. */
  datatype Request = Request(incoming: Incoming, key: Option<RedisKey>, phase: Phase)

  function CallerOf(identity: Identity): Option<string> {
    if identity.oauthToken.Some? then Some("oauth:" + identity.oauthToken.value.0 + ":" + identity.oauthToken.value.1)
    else if identity.apiToken.Some? then Some("api:" + identity.apiToken.value)
    else if identity.userSession.Some? then Some("user:" + identity.userSession.value)
    else None
  }

  predicate IsKeptStatus(status: int) {
    200 <= status < 300 || (400 <= status < 500 && status != TOO_MANY_REQUESTS)
  }

  function Utf8Length(text: string): nat {
    if text == "" then 0
    else
      var code := text[0] as int;
      (if code < 0x80 then 1 else if code < 0x800 then 2 else if code < 0x10000 then 3 else 4) + Utf8Length(text[1..])
  }

  function AnswerOf(response: Response): Option<Answer> {
    if !IsKeptStatus(response.status) || response.payload.OtherPayload? then None
    else if response.payload.TextPayload? && Utf8Length(response.payload.text) > IDEMPOTENCY_REPLAY_MAX_BYTES then None
    else
      var headers := map name | name in REPLAYED_HEADERS && name in response.headers
          && response.headers[name].TextHeader?
        :: response.headers[name].text;
      Some(Answer(response.status, headers, if response.payload.TextPayload?
          then Some(response.payload.text) else None))
  }

  /** What `rememberIdempotentAnswer` keeps for a held key, if anything. */
  function Kept(incoming: Incoming, response: Response): Option<Answer> {
    if incoming.mayReplay then AnswerOf(response) else None
  }

  /** The key that a request claims, if it takes part at all. */
  function KeyOf(incoming: Incoming): Option<RedisKey> {
    var caller := CallerOf(incoming.identity);
    if incoming.method_ == "POST" && incoming.keyHeader.Some? && incoming.keyHeader.value != "" && caller.Some?
    then Some(RedisKey(caller.value, incoming.path, incoming.keyHeader.value))
    else None
  }

  function Begun(incoming: Incoming): Request {
    Request(incoming, KeyOf(incoming),
            if incoming.method_ != "POST" then Handling
            else if incoming.isSent then AlreadySent
            else if KeyOf(incoming).None? || !incoming.redisIsReady then Handling
            else AwaitsSet)
  }

  /** `acquired` is None when Redis failed or did not answer in time. */
  function OnSet(request: Request, acquired: Option<bool>): Request {
    request.(phase := if acquired == Some(false) then AwaitsGet else Handling)
  }

  function OnGet(request: Request, earlier: Option<KeyRecord>): Request {
    request.(phase :=
      if earlier.Some? && earlier.value.fingerprint != request.incoming.content then Refused(KeyReused)
      else if earlier.None? || earlier.value.answer.None? then Refused(DuplicateRequest)
      else Replayed(earlier.value.answer.value))
  }

  datatype HeldKey = HeldKey(redisKey: RedisKey, fingerprint: Content)

  datatype Command =
    | SetNx(redisKey: RedisKey, keyRecord: KeyRecord)
    | Get(redisKey: RedisKey)
    | SetEx(redisKey: RedisKey, keyRecord: KeyRecord)
    | Del(redisKey: RedisKey)

  /** The last write of a holder. */
  function Remembering(held: HeldKey, answer: Option<Answer>): Command {
    if answer.None? then Del(held.redisKey) else SetEx(held.redisKey, KeyRecord(held.fingerprint, answer))
  }

  /** A held key is that of a request still being handled, with its content. */
  ghost predicate HeldKeysMatch(requests: seq<Request>, heldKeys: map<nat, HeldKey>) {
    forall i | i in heldKeys ::
      && i < |requests| && requests[i].phase.Handling?
      && requests[i].key == Some(heldKeys[i].redisKey)
      && heldKeys[i].fingerprint == requests[i].incoming.content
  }

  /** The requests of one server as the hooks change them. */
  class Middleware {
    var requests: seq<Request>
    var heldKeys: map<nat, HeldKey>
    var sent: seq<(nat, Command)>

    ghost predicate Valid()
      reads this
    {
      HeldKeysMatch(requests, heldKeys)
    }

    constructor ()
      ensures Valid() && requests == [] && heldKeys == map[] && sent == []
    {
      requests, heldKeys, sent := [], map[], [];
    }

    method IdempotencyHook(incoming: Incoming) returns (id: nat)
      modifies this`requests, this`sent
      ensures old(Valid()) ==> Valid()
      ensures id == |old(requests)| && requests == old(requests) + [Begun(incoming)]
      ensures sent == old(sent) +
                      if Begun(incoming).phase.AwaitsSet?
                      then [(id, SetNx(KeyOf(incoming).value, KeyRecord(incoming.content, None)))] else []
    {
      id := |requests|;
      var phase := Handling;
      var key := None;
      if incoming.method_ == "POST" {
        if incoming.keyHeader.Some? && incoming.keyHeader.value != "" {
          var caller := CallerOf(incoming.identity);
          if caller.Some? {
            key := Some(RedisKey(caller.value, incoming.path, incoming.keyHeader.value));
          }
        }
        if incoming.isSent {
          phase := AlreadySent;
        } else if key.Some? && incoming.redisIsReady {
          sent := sent + [(id, SetNx(key.value, KeyRecord(incoming.content, None)))];
          phase := AwaitsSet;
        }
      }
      requests := requests + [Request(incoming, key, phase)];
    }

    method SetAnswered(id: nat, acquired: Option<bool>)
      requires id < |requests| && requests[id].key.Some?
      modifies this
      ensures old(Valid() && requests[id].phase.AwaitsSet?) ==> Valid()
      ensures requests == old(requests)[id := OnSet(old(requests)[id], acquired)]
      ensures heldKeys == if acquired == Some(true)
                          then old(heldKeys)[id := HeldKey(requests[id].key.value, requests[id].incoming.content)]
                          else old(heldKeys)
      ensures sent == old(sent) + if acquired == Some(false) then [(id, Get(requests[id].key.value))] else []
    {
      var redisKey := requests[id].key.value;
      match acquired
      case None =>
        requests := requests[id := requests[id].(phase := Handling)];
      case Some(taken) =>
        if taken {
          heldKeys := heldKeys[id := HeldKey(redisKey, requests[id].incoming.content)];
          requests := requests[id := requests[id].(phase := Handling)];
        } else {
          sent := sent + [(id, Get(redisKey))];
          requests := requests[id := requests[id].(phase := AwaitsGet)];
        }
    }

    method GetAnswered(id: nat, earlier: Option<KeyRecord>)
      requires id < |requests|
      modifies this`requests
      ensures old(Valid() && requests[id].phase.AwaitsGet?) ==> Valid()
      ensures requests == old(requests)[id := OnGet(old(requests)[id], earlier)]
    {
      var phase: Phase;
      if earlier.Some? && earlier.value.fingerprint != requests[id].incoming.content {
        phase := Refused(KeyReused);
      } else if earlier.None? || earlier.value.answer.None? {
        phase := Refused(DuplicateRequest);
      } else {
        phase := Replayed(earlier.value.answer.value);
      }
      requests := requests[id := requests[id].(phase := phase)];
    }

    method RememberIdempotentAnswer(id: nat, response: Response)
      requires id < |requests|
      modifies this
      ensures old(Valid()) ==> Valid()
      ensures requests == old(requests)[id := old(requests)[id].(phase := Responded(response))]
      ensures heldKeys == old(heldKeys) - {id}
      ensures sent == old(sent) +
                      if id in old(heldKeys)
                      then [(id, Remembering(old(heldKeys)[id], Kept(requests[id].incoming, response)))] else []
    {
      if id in heldKeys {
        var held := heldKeys[id];
        heldKeys := heldKeys - {id};
        var answer := None;
        if requests[id].incoming.mayReplay {
          answer := AnswerOf(response);
        }
        if answer.None? {
          sent := sent + [(id, Del(held.redisKey))];
        } else {
          sent := sent + [(id, SetEx(held.redisKey, KeyRecord(held.fingerprint, answer)))];
        }
      }
      requests := requests[id := requests[id].(phase := Responded(response))];
    }
  }
}

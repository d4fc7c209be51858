/** The owned, expiring lock key of redisLock.ts. Each command acts on the key in one atomic step. */
module RedisLock {
  import opened Options

  datatype Held<+Token> = Held(token: Token, expiresAt: int)

  const MS_PER_SECOND := 1000

  /** What a command finds under the key at the given time: an expired entry is absent. */
  function Live<T>(key: Option<Held<T>>, now: int): Option<Held<T>> {
    if key.Some? && now < key.value.expiresAt then key else None
  }

  predicate IsHeldBy<T(==)>(key: Option<Held<T>>, token: T, now: int) {
    Live(key, now).Some? && key.value.token == token
  }

  /** SET with NX and EX: the key afterwards, and whether the lock was taken. */
  function Acquire<T>(key: Option<Held<T>>, token: T, ttlSeconds: nat, now: int): (Option<Held<T>>, bool) {
    if Live(key, now).None? then (Some(Held(token, now + ttlSeconds * MS_PER_SECOND)), true) else (key, false)
  }

  /** The refresh script: only the owner's token moves the expiry. */
  function Refresh<T(==)>(key: Option<Held<T>>, token: T, ttlSeconds: nat, now: int): (Option<Held<T>>, bool) {
    if IsHeldBy(key, token, now) then (Some(Held(token, now + ttlSeconds * MS_PER_SECOND)), true) else (key, false)
  }

  /** The release script: only the owner's token deletes the key. */
  function Release<T(==)>(key: Option<Held<T>>, token: T, now: int): (Option<Held<T>>, bool) {
    if IsHeldBy(key, token, now) then (None, true) else (key, false)
  }

  /** The entry is the token's and has not expired. */
  predicate Holds<T(==)>(key: Option<Held<T>>, token: T, now: int) {
    key.Some? && key.value.token == token && now < key.value.expiresAt
  }

  /**
    The lock can be taken exactly while nobody holds it, and moved or given back exactly by its
    holder. Taken or moved it is held for `ttlSeconds` from then, and what fails changes nothing.
  */
  lemma {:induction false} LockHasOneHolder<T>(key: Option<Held<T>>, token: T, other: T, ttlSeconds: nat, now: int,
        later: int)
    requires now <= later
    ensures var (taken, ok) := Acquire(key, token, ttlSeconds, now);
            && (ok <==> !exists holder :: Holds(key, holder, now))
            && if ok then Holds(taken, other, later) <==> other == token && later < now + 1000 * ttlSeconds
               else taken == key
    ensures var (moved, ok) := Refresh(key, token, ttlSeconds, now);
            && (ok <==> Holds(key, token, now))
            && if ok then Holds(moved, other, later) <==> other == token && later < now + 1000 * ttlSeconds
               else moved == key
    ensures var (freed, ok) := Release(key, token, now);
            && (ok <==> Holds(key, token, now))
            && if ok then !Holds(freed, other, later) else freed == key
    ensures Holds(key, token, now) && Holds(key, other, now) ==> other == token
  {
    assert key.Some? && now < key.value.expiresAt ==> Holds(key, key.value.token, now);
  }

  class LockKey<Token(==)> {
    var held: Option<Held<Token>>

    constructor ()
      ensures held == None
    {
      held := None;
    }

    method TryAcquire(token: Token, ttlSeconds: nat, now: int) returns (taken: bool)
      modifies this
      ensures (held, taken) == Acquire(old(held), token, ttlSeconds, now)
      ensures taken && ttlSeconds > 0 ==> IsHeldBy(held, token, now)
    {
      taken := Live(held, now).None?;
      if taken {
        held := Some(Held(token, now + ttlSeconds * MS_PER_SECOND));
      }
    }

    method RefreshOwned(token: Token, ttlSeconds: nat, now: int) returns (refreshed: bool)
      modifies this
      ensures (held, refreshed) == Refresh(old(held), token, ttlSeconds, now)
    {
      match held
      case Some(entry) =>
        refreshed := now < entry.expiresAt && entry.token == token;
        if refreshed {
          held := Some(entry.(expiresAt := now + ttlSeconds * MS_PER_SECOND));
        }
      case None =>
        refreshed := false;
    }

    method ReleaseOwned(token: Token, now: int) returns (released: bool)
      modifies this
      ensures (held, released) == Release(old(held), token, now)
    {
      match held
      case Some(entry) =>
        released := now < entry.expiresAt && entry.token == token;
        if released {
          held := None;
        }
      case None =>
        released := false;
    }
  }
}

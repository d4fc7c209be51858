/** Any sequence of gets and sets on the cache, at any clock. */
module TTLCacheRuns {
  import opened Options
  import opened TTLCache

  datatype Op = GetOp(key: Key, now: real) | SetOp(key: Key, value: Value, ttlMs: real, now: real)

  function After(s: Settings, c: Contents, op: Op): Contents {
    match op
    case GetOp(key, now) => AfterGet(c, key, now)
    case SetOp(key, value, ttlMs, now) => AfterSet(s, c, key, value, ttlMs, now)
  }

  function Run(s: Settings, ops: seq<Op>): Contents {
    if ops == [] then Contents([], 0) else After(s, Run(s, ops[..|ops| - 1]), ops[|ops| - 1])
  }

  predicate IsSetOf(s: Settings, op: Op, key: Key) {
    op.SetOp? && op.key == key && IsAccepted(s, op.value, op.ttlMs)
  }

  /** Storing a value under the key, or hitting it. */
  predicate Uses(s: Settings, c: Contents, op: Op, key: Key) {
    IsSetOf(s, op, key) || (op.GetOp? && op.key == key && HitOf(c, key, op.now).Some?)
  }

  function LastSet(s: Settings, ops: seq<Op>, key: Key): (n: int)
    ensures -1 <= n < |ops|
  {
    if ops == [] then -1
    else if IsSetOf(s, ops[|ops| - 1], key) then |ops| - 1
    else LastSet(s, ops[..|ops| - 1], key)
  }

  function LastUse(s: Settings, ops: seq<Op>, key: Key): (n: int)
    ensures -1 <= n < |ops|
  {
    if ops == [] then -1
    else if Uses(s, Run(s, ops[..|ops| - 1]), ops[|ops| - 1], key) then |ops| - 1
    else LastUse(s, ops[..|ops| - 1], key)
  }

  function EntryOf(s: Settings, op: Op): Option<Entry> {
    if op.SetOp? && IsAccepted(s, op.value, op.ttlMs)
        then Some(Entry(op.value, op.now + op.ttlMs, s.getSize(op.value).value)) else None
  }

  lemma {:induction false} RunIsSound(s: Settings, ops: seq<Op>)
    requires AreAllowed(s)
    ensures IsSound(s, Run(s, ops))
  {
    if ops != [] {
      var c, op := Run(s, ops[..|ops| - 1]), ops[|ops| - 1];
      RunIsSound(s, ops[..|ops| - 1]);
      hide IsSound, AfterGet, AfterSet;
      match op
      case GetOp(key, now) => GetKeepsSound(s, c, key, now);
      case SetOp(key, value, ttlMs, now) => SetKeepsSound(s, c, key, value, ttlMs, now);
    }
  }

  // The map is in the order of the last uses, and every entry is what the last set stored

  /** The entry is the one of the latest accepted set of its key. */
  ghost predicate IsStored(s: Settings, ops: seq<Op>, slot: Slot) {
    var n := LastSet(s, ops, slot.key);
    0 <= n && EntryOf(s, ops[n]) == Some(slot.entry)
  }

  ghost predicate AreStored(s: Settings, ops: seq<Op>, entries: seq<Slot>) {
    forall n | 0 <= n < |entries| :: IsStored(s, ops, entries[n])
  }

  ghost predicate AreInOrder(s: Settings, ops: seq<Op>, entries: seq<Slot>) {
    && (forall n | 0 <= n < |entries| :: 0 <= LastUse(s, ops, entries[n].key))
    && forall m, n | 0 <= m < n < |entries| :: LastUse(s, ops, entries[m].key) < LastUse(s, ops, entries[n].key)
  }

  lemma UnusedStays(s: Settings, ops: seq<Op>, op: Op, entries: seq<Slot>)
    requires AreStored(s, ops, entries) && AreInOrder(s, ops, entries)
    requires forall n | 0 <= n < |entries| :: !Uses(s, Run(s, ops), op, entries[n].key)
    ensures AreStored(s, ops + [op], entries) && AreInOrder(s, ops + [op], entries)
  {
    assert (ops + [op])[..|ops|] == ops;
    forall n | 0 <= n < |entries|
      ensures LastSet(s, ops + [op], entries[n].key) == LastSet(s, ops, entries[n].key)
      ensures LastUse(s, ops + [op], entries[n].key) == LastUse(s, ops, entries[n].key)
    {
    }
  }

  lemma WithoutStays(s: Settings, ops: seq<Op>, entries: seq<Slot>, key: Key)
    requires AreStored(s, ops, entries) && AreInOrder(s, ops, entries)
    ensures AreStored(s, ops, Without(entries, key)) && AreInOrder(s, ops, Without(entries, key))
  {
    hide LastSet, LastUse, IsStored, IndexOf;
  }

  lemma NewestIsLast(s: Settings, ops: seq<Op>, op: Op, rest: seq<Slot>, slot: Slot)
    requires AreStored(s, ops + [op], rest) && AreInOrder(s, ops + [op], rest)
    requires forall n | 0 <= n < |rest| :: !Uses(s, Run(s, ops), op, rest[n].key)
    requires Uses(s, Run(s, ops), op, slot.key) && IsStored(s, ops + [op], slot)
    ensures AreStored(s, ops + [op], rest + [slot]) && AreInOrder(s, ops + [op], rest + [slot])
  {
    hide Uses, IsStored;
    assert (ops + [op])[..|ops|] == ops;
  }

  lemma GetKeepsOrder(s: Settings, ops: seq<Op>, op: Op)
    requires AreAllowed(s) && op.GetOp?
    requires AreStored(s, ops, Run(s, ops).entries) && AreInOrder(s, ops, Run(s, ops).entries)
    ensures AreStored(s, ops + [op], AfterGet(Run(s, ops), op.key, op.now).entries)
    ensures AreInOrder(s, ops + [op], AfterGet(Run(s, ops), op.key, op.now).entries)
  {
    var c := Run(s, ops);
    RunIsSound(s, ops);
    RemovedIsSound(s, c, op.key);
    WithoutStays(s, ops, c.entries, op.key);
    hide AreStored, AreInOrder, Run, IsSound, IsAccepted, Without;
    match Find(c.entries, op.key)
    case None =>
      AbsentIsNowhere(c.entries, op.key);
      UnusedStays(s, ops, op, c.entries);
    case Some(entry) =>
      UnusedStays(s, ops, op, Without(c.entries, op.key));
      if entry.expiresAt > op.now {
        StoredSlotStays(s, ops, op, entry);
        NewestIsLast(s, ops, op, Without(c.entries, op.key), Slot(op.key, entry));
      }
  }

  lemma StoredSlotStays(s: Settings, ops: seq<Op>, op: Op, entry: Entry)
    requires op.GetOp? && AreStored(s, ops, Run(s, ops).entries) && Find(Run(s, ops).entries, op.key) == Some(entry)
    ensures IsStored(s, ops + [op], Slot(op.key, entry))
  {
    FoundIsInside(Run(s, ops), op.key);
    assert (ops + [op])[..|ops|] == ops;
  }

  lemma NewSlotIsStored(s: Settings, ops: seq<Op>, op: Op, slot: Slot)
    requires IsSetOf(s, op, slot.key) && EntryOf(s, op) == Some(slot.entry)
    ensures IsStored(s, ops + [op], slot)
  {
  }

  lemma SetKeepsOrder(s: Settings, ops: seq<Op>, op: Op)
    requires AreAllowed(s) && op.SetOp?
    requires AreStored(s, ops, Run(s, ops).entries) && AreInOrder(s, ops, Run(s, ops).entries)
    ensures AreStored(s, ops + [op], AfterSet(s, Run(s, ops), op.key, op.value, op.ttlMs, op.now).entries)
    ensures AreInOrder(s, ops + [op], AfterSet(s, Run(s, ops), op.key, op.value, op.ttlMs, op.now).entries)
  {
    var c := Run(s, ops);
    RunIsSound(s, ops);
    hide AreStored, AreInOrder, Run, IsSound, AreAllowed, AfterSet, IsLongestFit;
    if !IsAccepted(s, op.value, op.ttlMs) {
      RejectedSetStays(s, c, op);
      UnusedStays(s, ops, op, c.entries);
    } else {
      AcceptedSetKeepsOrder(s, ops, op);
    }
  }

  lemma AcceptedSetKeepsOrder(s: Settings, ops: seq<Op>, op: Op)
    requires AreAllowed(s) && op.SetOp? && IsSetOf(s, op, op.key) && IsSound(s, Run(s, ops))
    requires AreStored(s, ops, Run(s, ops).entries) && AreInOrder(s, ops, Run(s, ops).entries)
    ensures AreStored(s, ops + [op], AfterSet(s, Run(s, ops), op.key, op.value, op.ttlMs, op.now).entries)
    ensures AreInOrder(s, ops + [op], AfterSet(s, Run(s, ops), op.key, op.value, op.ttlMs, op.now).entries)
  {
    hide AreStored, AreInOrder, IsStored, Run, IsSound, AreAllowed, AfterSet, KeptBySet, IsLongestFit, LacksKey,
        Removed;
    var c := Run(s, ops);
    var kept := KeptBySet(s, c, op.key, op.value);
    var slot := Slot(op.key, Entry(op.value, op.now + op.ttlMs, s.getSize(op.value).value));
    SetLeavesSuffix(s, c, op.key, op.value, op.ttlMs, op.now);
    NewSlotIsStored(s, ops, op, slot);
    RemovedStays(s, ops, op.key);
    FitStays(s, ops, Removed(c, op.key).entries, kept, slot.entry.size);
    AddedStays(s, ops, op, kept, slot);
  }

  lemma FitStays(s: Settings, ops: seq<Op>, entries: seq<Slot>, kept: seq<Slot>, size: int)
    requires AreStored(s, ops, entries) && AreInOrder(s, ops, entries) && IsLongestFit(s, entries, kept, size)
    ensures AreStored(s, ops, kept) && AreInOrder(s, ops, kept)
  {
    hide LastUse, IsStored, SizeOf;
  }

  lemma AddedStays(s: Settings, ops: seq<Op>, op: Op, kept: seq<Slot>, slot: Slot)
    requires IsSetOf(s, op, slot.key) && IsStored(s, ops + [op], slot)
    requires AreStored(s, ops, kept) && AreInOrder(s, ops, kept) && LacksKey(kept, slot.key)
    ensures AreStored(s, ops + [op], kept + [slot]) && AreInOrder(s, ops + [op], kept + [slot])
  {
    hide AreStored, AreInOrder, IsStored, Run, IsAccepted;
    UnusedStays(s, ops, op, kept);
    NewestIsLast(s, ops, op, kept, slot);
  }

  lemma RemovedStays(s: Settings, ops: seq<Op>, key: Key)
    requires AreStored(s, ops, Run(s, ops).entries) && AreInOrder(s, ops, Run(s, ops).entries)
    ensures AreStored(s, ops, Removed(Run(s, ops), key).entries)
             && AreInOrder(s, ops, Removed(Run(s, ops), key).entries)
  {
    hide AreStored, AreInOrder, Without, Find;
    WithoutStays(s, ops, Run(s, ops).entries, key);
  }

  lemma RejectedSetStays(s: Settings, c: Contents, op: Op)
    requires op.SetOp? && !IsAccepted(s, op.value, op.ttlMs)
    ensures AfterSet(s, c, op.key, op.value, op.ttlMs, op.now) == c
  {
  }

  /** Map order is recency order, and every entry is that of the latest accepted set of its key. */
  lemma {:induction false} MapIsInRecencyOrder(s: Settings, ops: seq<Op>)
    requires AreAllowed(s)
    ensures AreStored(s, ops, Run(s, ops).entries) && AreInOrder(s, ops, Run(s, ops).entries)
  {
    if ops != [] {
      var front, op := ops[..|ops| - 1], ops[|ops| - 1];
      MapIsInRecencyOrder(s, front);
      hide AreStored, AreInOrder, AfterGet, AfterSet;
      assert front + [op] == ops;
      if op.GetOp? {
        GetKeepsOrder(s, front, op);
      } else {
        SetKeepsOrder(s, front, op);
      }
    }
  }

  lemma {:induction false} LastSetIsLast(s: Settings, ops: seq<Op>, key: Key)
    ensures LastSet(s, ops, key) >= 0 ==> IsSetOf(s, ops[LastSet(s, ops, key)], key)
    ensures forall n | LastSet(s, ops, key) < n < |ops| :: !IsSetOf(s, ops[n], key)
  {
    if ops != [] {
      LastSetIsLast(s, ops[..|ops| - 1], key);
    }
  }

  // Which keys are there

  ghost predicate Expires(c: Contents, op: Op, key: Key) {
    op.GetOp? && op.key == key && Find(c.entries, key).Some? && Find(c.entries, key).value.expiresAt <= op.now
  }

  /** The key stands in the prefix that an accepted set of another key pushes out. */
  ghost predicate Evicts(s: Settings, c: Contents, op: Op, key: Key) {
    && op.SetOp? && op.key != key && IsAccepted(s, op.value, op.ttlMs)
    && IndexOf(Removed(c, op.key).entries, key) < |Removed(c, op.key).entries| - |KeptBySet(s, c, op.key, op.value)|
  }

  lemma MemberIsFound(entries: seq<Slot>, key: Key, entry: Entry)
    requires HasDistinctKeys(entries)
    ensures Find(entries, key) == Some(entry) <==> Slot(key, entry) in entries
  {
    hide IndexOf;
    if Slot(key, entry) in entries {
      var n: nat :| n < |entries| && entries[n] == Slot(key, entry);
      assert IndexOf(entries, key) == n;
    }
  }

  lemma FoundInWithout(entries: seq<Slot>, other: Key, key: Key)
    requires HasDistinctKeys(entries) && key != other
    ensures Find(Without(entries, other), key) == Find(entries, key)
  {
    WithoutIsDistinct(entries, other);
    hide HasDistinctKeys, IndexOf;
    forall entry ensures Find(Without(entries, other), key) == Some(entry) <==> Find(entries, key) == Some(entry) {
      MemberIsFound(entries, key, entry);
      MemberIsFound(Without(entries, other), key, entry);
    }
    OptionsAgree(Find(Without(entries, other), key), Find(entries, key));
  }

  lemma OptionsAgree(a: Option<Entry>, b: Option<Entry>)
    requires forall entry :: a == Some(entry) <==> b == Some(entry)
    ensures a == b
  {
    assert a.Some? ==> a == Some(a.value);
    assert b.Some? ==> b == Some(b.value);
  }

  lemma FoundInSuffix(entries: seq<Slot>, n: nat, key: Key)
    requires HasDistinctKeys(entries) && n <= |entries|
    ensures Find(entries[n..], key) == if IndexOf(entries, key) < n then None else Find(entries, key)
  {
    var m := IndexOf(entries, key);
    IndexInSuffix(entries, n, key);
    hide IndexOf, HasDistinctKeys;
    assert n <= m < |entries| ==> entries[n..][m - n] == entries[m];
  }

  lemma IndexInSuffix(entries: seq<Slot>, n: nat, key: Key)
    requires HasDistinctKeys(entries) && n <= |entries|
    ensures IndexOf(entries[n..], key) == if IndexOf(entries, key) < n then |entries| - n else IndexOf(entries, key) - n
  {
    var m, suffix := IndexOf(entries, key), entries[n..];
    hide IndexOf;
    if m < n {
      NotInSuffix(entries, n, m);
    } else {
      hide HasDistinctKeys;
      var k := IndexOf(suffix, key);
      assert k < |suffix| ==> entries[n + k].key == key;
      assert m < |entries| ==> suffix[m - n].key == key;
    }
  }

  lemma NotInSuffix(entries: seq<Slot>, n: nat, m: nat)
    requires HasDistinctKeys(entries) && m < n <= |entries|
    ensures forall k: nat | k < |entries[n..]| :: entries[n..][k].key != entries[m].key
  {
  }

  lemma FoundInAdded(entries: seq<Slot>, slot: Slot, key: Key)
    requires slot.key != key
    ensures Find(entries + [slot], key) == Find(entries, key)
  {
    hide IndexOf;
    var m, n := IndexOf(entries, key), IndexOf(entries + [slot], key);
    if m < |entries| {
      assert (entries + [slot])[m].key == key;
    }
    if n < |entries| + 1 {
      assert (entries + [slot])[n].key == key;
    }
  }

  lemma {:induction false} LastAddedIsFound(entries: seq<Slot>, slot: Slot)
    requires forall n | 0 <= n < |entries| :: entries[n].key != slot.key
    ensures Find(entries + [slot], slot.key) == Some(slot.entry)
  {
    hide IndexOf;
    assert (entries + [slot])[|entries|] == slot;
  }

  lemma GetLeavesWhat(s: Settings, c: Contents, op: Op, key: Key)
    requires IsSound(s, c) && op.GetOp?
    ensures Find(AfterGet(c, op.key, op.now).entries, key) == if Expires(c, op, key) then None else Find(c.entries, key)
  {
    hide IndexOf;
    RemovedIsSound(s, c, op.key);
    if Find(c.entries, op.key).Some? {
      var slot := Slot(op.key, Find(c.entries, op.key).value);
      if key == op.key {
        AbsentIsNowhere(Without(c.entries, key), key);
        LastAddedIsFound(Without(c.entries, key), slot);
      } else {
        FoundInWithout(c.entries, op.key, key);
        FoundInAdded(Without(c.entries, op.key), slot, key);
      }
    }
  }

  lemma SetLeavesWhat(s: Settings, c: Contents, op: Op, key: Key)
    requires AreAllowed(s) && IsSound(s, c) && op.SetOp? && !IsSetOf(s, op, key)
    ensures Find(AfterSet(s, c, op.key, op.value, op.ttlMs, op.now).entries, key)
             == if Evicts(s, c, op, key) then None else Find(c.entries, key)
  {
    hide AreAllowed, IsSound, AfterSet, SizeOf, IndexOf, Evicted, IsLongestFit;
    if !IsAccepted(s, op.value, op.ttlMs) {
      RejectedSetStays(s, c, op);
    } else {
      var kept := KeptBySet(s, c, op.key, op.value);
      SetLeavesSuffix(s, c, op.key, op.value, op.ttlMs, op.now);
      RemovedIsFound(s, c, op.key, key);
      hide IsAccepted, Removed, Find, KeptBySet, LacksKey;
      FoundInFit(s, Removed(c, op.key).entries, kept, s.getSize(op.value).value, key);
      FoundInAdded(kept, Slot(op.key, Entry(op.value, op.now + op.ttlMs, s.getSize(op.value).value)), key);
    }
  }

  lemma FoundInFit(s: Settings, entries: seq<Slot>, kept: seq<Slot>, size: int, key: Key)
    requires HasDistinctKeys(entries) && IsLongestFit(s, entries, kept, size)
    ensures Find(kept, key) == if IndexOf(entries, key) < |entries| - |kept| then None else Find(entries, key)
  {
    hide HasDistinctKeys, Find, SizeOf;
    FoundInSuffix(entries, |entries| - |kept|, key);
  }

  lemma RemovedIsFound(s: Settings, c: Contents, other: Key, key: Key)
    requires IsSound(s, c) && key != other
    ensures HasDistinctKeys(Removed(c, other).entries) && Find(Removed(c, other).entries, key) == Find(c.entries, key)
  {
    hide Find, SizeOf;
    RemovedIsSound(s, c, other);
    FoundInWithout(c.entries, other, key);
  }

  /** Some operation after the latest accepted set of the key has removed it. */
  ghost predicate IsLost(s: Settings, ops: seq<Op>, key: Key) {
    exists n: nat | LastSet(s, ops, key) < n < |ops| :: Loses(s, ops, n, key)
  }

  ghost predicate Loses(s: Settings, ops: seq<Op>, n: nat, key: Key)
    requires n < |ops|
  {
    Expires(Run(s, ops[..n]), ops[n], key) || Evicts(s, Run(s, ops[..n]), ops[n], key)
  }

  /** A key is in the cache exactly when it was set and no later operation evicted it or found it expired. */
  lemma {:induction false} KeyStaysUntilLost(s: Settings, ops: seq<Op>, key: Key)
    requires AreAllowed(s)
    ensures Find(Run(s, ops).entries, key).Some? <==> LastSet(s, ops, key) >= 0 && !IsLost(s, ops, key)
  {
    if ops != [] {
      var front, op := ops[..|ops| - 1], ops[|ops| - 1];
      RunIsSound(s, front);
      KeyStaysUntilLost(s, front, key);
      hide IsLost, IsSound, AreAllowed, AfterGet, AfterSet, Find, Expires, Evicts, IsAccepted;
      if IsSetOf(s, op, key) {
        SetIsFound(s, Run(s, front), op);
        NotLostYet(s, ops, key);
      } else if op.GetOp? {
        LostLater(s, ops, key);
        GetLeavesWhat(s, Run(s, front), op, key);
      } else {
        LostLater(s, ops, key);
        SetLeavesWhat(s, Run(s, front), op, key);
      }
    }
  }

  lemma SetIsFound(s: Settings, c: Contents, op: Op)
    requires AreAllowed(s) && IsSound(s, c) && op.SetOp? && IsAccepted(s, op.value, op.ttlMs)
    ensures Find(AfterSet(s, c, op.key, op.value, op.ttlMs, op.now).entries, op.key) == EntryOf(s, op)
  {
    SetLeavesSuffix(s, c, op.key, op.value, op.ttlMs, op.now);
    hide AreAllowed, IsSound, AfterSet, IsLongestFit, KeptBySet, Removed, Find;
    LastAddedIsFound(KeptBySet(s, c, op.key, op.value),
        Slot(op.key, Entry(op.value, op.now + op.ttlMs, s.getSize(op.value).value)));
  }

  lemma NotLostYet(s: Settings, ops: seq<Op>, key: Key)
    requires LastSet(s, ops, key) == |ops| - 1
    ensures !IsLost(s, ops, key)
  {
  }

  lemma LostLater(s: Settings, ops: seq<Op>, key: Key)
    requires ops != [] && !IsSetOf(s, ops[|ops| - 1], key)
    ensures var front := ops[..|ops| - 1];
            && LastSet(s, ops, key) == LastSet(s, front, key)
            && (LastSet(s, ops, key) >= 0 ==>
                 (IsLost(s, ops, key)
                  <==> || IsLost(s, front, key)
                       || Expires(Run(s, front), ops[|ops| - 1], key)
                       || Evicts(s, Run(s, front), ops[|ops| - 1], key)))
  {
    var front := ops[..|ops| - 1];
    hide Loses;
    forall n: nat | n < |front| ensures Loses(s, ops, n, key) <==> Loses(s, front, n, key) {
      LosesInFront(s, ops, n, key);
    }
    LosesAtEnd(s, ops, key);
  }

  lemma LosesInFront(s: Settings, ops: seq<Op>, n: nat, key: Key)
    requires n < |ops| - 1
    ensures Loses(s, ops, n, key) <==> Loses(s, ops[..|ops| - 1], n, key)
  {
    assert ops[..|ops| - 1][..n] == ops[..n];
  }

  lemma LosesAtEnd(s: Settings, ops: seq<Op>, key: Key)
    requires ops != []
    ensures var c, op := Run(s, ops[..|ops| - 1]), ops[|ops| - 1];
            Loses(s, ops, |ops| - 1, key) <==> Expires(c, op, key) || Evicts(s, c, op, key)
  {
  }

  /** What stands under a key is what the latest accepted set of it stored. */
  lemma StoredIsFound(s: Settings, ops: seq<Op>, key: Key)
    requires AreAllowed(s) && Find(Run(s, ops).entries, key).Some?
    ensures LastSet(s, ops, key) >= 0
    ensures EntryOf(s, ops[LastSet(s, ops, key)]) == Find(Run(s, ops).entries, key)
  {
    MapIsInRecencyOrder(s, ops);
    FoundIsInside(Run(s, ops), key);
    hide AreAllowed, AreInOrder, Find, Run, LastSet, IsAccepted;
  }

  /** A get hits exactly when the latest accepted set of the key is neither lost nor expired, with what it stored. */
  lemma {:induction false} HitIsLatestSet(s: Settings, ops: seq<Op>, key: Key, now: real)
    requires AreAllowed(s)
    ensures var n := LastSet(s, ops, key);
            HitOf(Run(s, ops), key, now)
            == if n >= 0 && ops[n].SetOp? && !IsLost(s, ops, key) && ops[n].now + ops[n].ttlMs > now
               then Some(Hit(ops[n].value, ops[n].now + ops[n].ttlMs - now)) else None
  {
    KeyStaysUntilLost(s, ops, key);
    LastSetIsLast(s, ops, key);
    if Find(Run(s, ops).entries, key).Some? {
      StoredIsFound(s, ops, key);
    }
    hide AreAllowed, Find, Run, IsLost, LastSet, IsAccepted;
  }

  lemma AcceptedExactly(s: Settings, value: Value, ttlMs: real)
    requires AreAllowed(s)
    ensures IsAccepted(s, value, ttlMs)
       <==> ttlMs > 0.0 && s.getSize(value).Some? && 0 <= s.getSize(value).value <= s.maxSize
  {
  }

  /**
    A set replaces the value of its key exactly if it is to live for some time and has a
    size within the limit; a set that is rejected for its time or its size leaves the old value.
  */
  lemma {:induction false} SetReplacesIfAccepted(s: Settings, c: Contents, op: Op)
    requires AreAllowed(s) && IsSound(s, c) && op.SetOp?
    ensures Find(After(s, c, op).entries, op.key)
         == match s.getSize(op.value)
            case Some(size) =>
              if op.ttlMs > 0.0 && 0 <= size <= s.maxSize then Some(Entry(op.value, op.now + op.ttlMs, size))
              else Find(c.entries, op.key)
            case None => Find(c.entries, op.key)
  {
    AcceptedExactly(s, op.value, op.ttlMs);
    hide AreAllowed, IsSound, Find, AfterSet, IsAccepted;
    if IsAccepted(s, op.value, op.ttlMs) {
      SetIsFound(s, c, op);
    } else {
      RejectedSetStays(s, c, op);
    }
  }

  /** So the value of a first set is still hit after a second one that is rejected. */
  lemma {:induction false} RejectedSetLeavesOld(s: Settings, key: Key, kept: Value, ttlMs: real, next: Value,
        nextTtlMs: real, now: real)
    requires AreAllowed(s) && IsAccepted(s, kept, ttlMs) && !IsAccepted(s, next, nextTtlMs)
    ensures var ops := [SetOp(key, kept, ttlMs, now), SetOp(key, next, nextTtlMs, now)];
            HitOf(Run(s, ops), key, now) == Some(Hit(kept, ttlMs))
  {
    var first, second := SetOp(key, kept, ttlMs, now), SetOp(key, next, nextTtlMs, now);
    var empty := Run(s, []);
    assert [first][..0] == [];
    assert [first, second][..1] == [first];
    assert Run(s, [first]) == After(s, empty, first);
    assert Run(s, [first, second]) == After(s, Run(s, [first]), second);
    RunIsSound(s, []);
    RunIsSound(s, [first]);
    hide After, Run, IsAccepted, IsSound, AreAllowed, Find;
    SetReplacesIfAccepted(s, empty, first);
    SetReplacesIfAccepted(s, Run(s, [first]), second);
  }
}

/** The cache of boundedTTLCache.ts: bounded in entries and in size, with expiry, least recently used out first. */
module TTLCache {
  import opened Options

  type Key(==, !new)
  type Value(==, !new)

  datatype Settings = Settings(maxEntries: int, maxSize: int, getSize: Value -> Option<int>)

  datatype Entry = Entry(value: Value, expiresAt: real, size: int)

  /** An entry of the map, which iterates in insertion order. */
  datatype Slot = Slot(key: Key, entry: Entry)

  datatype Hit = Hit(value: Value, remainingTtlMs: real)

  datatype Contents = Contents(entries: seq<Slot>, totalSize: int)

  const MAX_SAFE_INTEGER: int := 0x1F_FFFF_FFFF_FFFF

  predicate IsSafeInteger(n: int) {
    -MAX_SAFE_INTEGER <= n <= MAX_SAFE_INTEGER
  }

  predicate AreAllowed(s: Settings) {
    IsSafeInteger(s.maxEntries) && 1 <= s.maxEntries && IsSafeInteger(s.maxSize) && 1 <= s.maxSize
  }

  // The map

  function IndexOf(entries: seq<Slot>, key: Key): (n: nat)
    ensures n <= |entries| && (n < |entries| ==> entries[n].key == key)
    ensures forall m: nat | m < n :: entries[m].key != key
  {
    if entries == [] || entries[0].key == key then 0 else 1 + IndexOf(entries[1..], key)
  }

  function Find(entries: seq<Slot>, key: Key): Option<Entry> {
    var n := IndexOf(entries, key);
    if n < |entries| then Some(entries[n].entry) else None
  }

  function Without(entries: seq<Slot>, key: Key): seq<Slot> {
    var n := IndexOf(entries, key);
    if n < |entries| then entries[..n] + entries[n + 1..] else entries
  }

  // What the operations do

  function Removed(c: Contents, key: Key): Contents {
    match Find(c.entries, key)
    case None => c
    case Some(entry) => Contents(Without(c.entries, key), c.totalSize - entry.size)
  }

  function HitOf(c: Contents, key: Key, now: real): Option<Hit> {
    match Find(c.entries, key)
    case None => None
    case Some(entry) => if entry.expiresAt > now then Some(Hit(entry.value, entry.expiresAt - now)) else None
  }

  function AfterGet(c: Contents, key: Key, now: real): Contents {
    match Find(c.entries, key)
    case None => c
    case Some(entry) =>
      if entry.expiresAt > now then c.(entries := Without(c.entries, key) + [Slot(key, entry)]) else Removed(c, key)
  }

  predicate IsAccepted(s: Settings, value: Value, ttlMs: real) {
    && ttlMs > 0.0
    && match s.getSize(value)
       case None => false
       case Some(size) => 0 <= size <= s.maxSize && IsSafeInteger(size)
  }

  predicate HasRoom(s: Settings, c: Contents, size: int) {
    |c.entries| < s.maxEntries && c.totalSize + size <= s.maxSize
  }

  function Evicted(s: Settings, c: Contents, size: int): Contents
    decreases |c.entries|
  {
    if HasRoom(s, c, size) || c.entries == [] then c
    else Evicted(s, Contents(c.entries[1..], c.totalSize - c.entries[0].entry.size), size)
  }

  function AfterSet(s: Settings, c: Contents, key: Key, value: Value, ttlMs: real, now: real): Contents {
    if !IsAccepted(s, value, ttlMs) then c
    else
      var size := s.getSize(value).value;
      var kept := Evicted(s, Removed(c, key), size);
      Contents(kept.entries + [Slot(key, Entry(value, now + ttlMs, size))], kept.totalSize + size)
  }

  // What they keep

  function SizeOf(entries: seq<Slot>): int {
    if entries == [] then 0 else entries[0].entry.size + SizeOf(entries[1..])
  }

  ghost predicate HasDistinctKeys(entries: seq<Slot>) {
    forall m, n | 0 <= m < n < |entries| :: entries[m].key != entries[n].key
  }

  /** The recorded size is the true one, both limits hold, and no key comes twice. */
  ghost predicate IsSound(s: Settings, c: Contents) {
    && HasDistinctKeys(c.entries)
    && (forall n | 0 <= n < |c.entries| :: c.entries[n].entry.size >= 0)
    && c.totalSize == SizeOf(c.entries) <= s.maxSize
    && |c.entries| <= s.maxEntries
  }

  lemma {:induction false} SizeJoins(a: seq<Slot>, b: seq<Slot>)
    ensures SizeOf(a + b) == SizeOf(a) + SizeOf(b)
  {
    if a == [] {
      assert a + b == b;
    } else {
      SizeJoins(a[1..], b);
      assert (a + b)[1..] == a[1..] + b;
    }
  }

  lemma SizeOfOne(slot: Slot)
    ensures SizeOf([slot]) == slot.entry.size
  {
  }

  lemma RemovedSize(entries: seq<Slot>, key: Key)
    requires Find(entries, key).Some?
    ensures SizeOf(Without(entries, key)) == SizeOf(entries) - Find(entries, key).value.size
  {
    hide SizeOf;
    var n := IndexOf(entries, key);
    hide IndexOf;
    var front, slot, back := entries[..n], entries[n], entries[n + 1..];
    assert entries == front + [slot] + back;
    SizeJoins(front + [slot], back);
    SizeJoins(front, [slot]);
    SizeOfOne(slot);
    SizeJoins(front, back);
  }

  lemma WithoutIsDistinct(entries: seq<Slot>, key: Key)
    requires HasDistinctKeys(entries)
    ensures HasDistinctKeys(Without(entries, key)) && |Without(entries, key)| <= |entries|
    ensures forall n | 0 <= n < |Without(entries, key)| :: Without(entries, key)[n].key != key
             && Without(entries, key)[n] in entries
  {
    hide IndexOf;
  }

  lemma RemovedIsSound(s: Settings, c: Contents, key: Key)
    requires IsSound(s, c)
    ensures IsSound(s, Removed(c, key))
    ensures forall n | 0 <= n < |Removed(c, key).entries| :: Removed(c, key).entries[n].key != key
    ensures |Removed(c, key).entries| <= |c.entries|
  {
    if Find(c.entries, key).Some? {
      RemovedSize(c.entries, key);
      WithoutIsDistinct(c.entries, key);
      FoundIsInside(c, key);
      hide Find, SizeOf, Without, HasDistinctKeys;
    } else {
      AbsentIsNowhere(c.entries, key);
    }
  }

  lemma AbsentIsNowhere(entries: seq<Slot>, key: Key)
    ensures Find(entries, key) == None <==> forall n | 0 <= n < |entries| :: entries[n].key != key
  {
    hide IndexOf;
  }

  lemma EmptyHasRoom(s: Settings, c: Contents, size: int)
    requires AreAllowed(s) && IsSound(s, c) && size <= s.maxSize && c.entries == []
    ensures HasRoom(s, c, size)
  {
  }

  lemma AddedIsSound(s: Settings, c: Contents, slot: Slot)
    requires IsSound(s, c) && HasRoom(s, c, slot.entry.size) && slot.entry.size >= 0
    requires forall n | 0 <= n < |c.entries| :: c.entries[n].key != slot.key
    ensures IsSound(s, Contents(c.entries + [slot], c.totalSize + slot.entry.size))
  {
    hide SizeOf;
    SizeJoins(c.entries, [slot]);
    SizeOfOne(slot);
  }

  /** A get moves the entry it hits to the end of the map. */
  lemma {:induction false} GetKeepsSound(s: Settings, c: Contents, key: Key, now: real)
    requires IsSound(s, c)
    ensures IsSound(s, AfterGet(c, key, now))
  {
    hide SizeOf, Without, IndexOf;
    RemovedIsSound(s, c, key);
    if HitOf(c, key, now).Some? {
      var entry := Find(c.entries, key).value;
      assert |Without(c.entries, key)| == |c.entries| - 1 by { FoundIsRemoved(c.entries, key); }
      FoundIsInside(c, key);
      AddedIsSound(s, Removed(c, key), Slot(key, entry));
    }
  }

  lemma FoundIsRemoved(entries: seq<Slot>, key: Key)
    requires Find(entries, key).Some?
    ensures |Without(entries, key)| == |entries| - 1
  {
  }

  lemma FoundIsInside(c: Contents, key: Key)
    requires Find(c.entries, key).Some?
    ensures exists n | 0 <= n < |c.entries| :: c.entries[n] == Slot(key, Find(c.entries, key).value)
  {
    var n := IndexOf(c.entries, key);
    assert c.entries[n] == Slot(key, Find(c.entries, key).value);
  }

  lemma EvictedStops(s: Settings, c: Contents, size: int)
    requires HasRoom(s, c, size)
    ensures Evicted(s, c, size) == c
  {
  }

  /** What is kept is a suffix, and leaving out fewer of the oldest entries would not make room. */
  ghost predicate IsLongestFit(s: Settings, entries: seq<Slot>, kept: seq<Slot>, size: int) {
    var n := |entries| - |kept|;
    && 0 <= n && kept == entries[n..]
    && forall m: nat | m < n :: |entries[m..]| >= s.maxEntries || SizeOf(entries[m..]) + size > s.maxSize
  }

  lemma OneMoreIsNeeded(s: Settings, entries: seq<Slot>, kept: seq<Slot>, size: int)
    requires entries != [] && IsLongestFit(s, entries[1..], kept, size)
    requires |entries| >= s.maxEntries || SizeOf(entries) + size > s.maxSize
    ensures IsLongestFit(s, entries, kept, size)
  {
    hide SizeOf;
    assert entries[0..] == entries;
    assert forall m: nat | 0 < m <= |entries| :: entries[m..] == entries[1..][m - 1..];
  }

  lemma OldestIsFound(c: Contents)
    requires c.entries != []
    ensures Find(c.entries, c.entries[0].key) == Some(c.entries[0].entry)
    ensures Removed(c, c.entries[0].key) == Contents(c.entries[1..], c.totalSize - c.entries[0].entry.size)
  {
    assert c.entries[..0] + c.entries[1..] == c.entries[1..];
  }

  lemma OldestIsFirst(s: Settings, c: Contents, size: int)
    requires IsSound(s, c) && c.entries != []
    ensures Find(c.entries, c.entries[0].key) == Some(c.entries[0].entry)
    ensures IsSound(s, Removed(c, c.entries[0].key)) && Removed(c, c.entries[0].key).entries == c.entries[1..]
    ensures !HasRoom(s, c, size) ==> Evicted(s, c, size) == Evicted(s, Removed(c, c.entries[0].key), size)
  {
    hide IsSound, Removed, Find;
    OldestIsFound(c);
    RemovedIsSound(s, c, c.entries[0].key);
  }

  /** The shortest prefix of the least recently used entries that makes room is gone, and there always is one. */
  lemma {:induction false} EvictedIsShortestPrefix(s: Settings, c: Contents, size: int)
    requires AreAllowed(s) && IsSound(s, c) && 0 <= size <= s.maxSize
    ensures IsSound(s, Evicted(s, c, size)) && HasRoom(s, Evicted(s, c, size), size)
    ensures IsLongestFit(s, c.entries, Evicted(s, c, size).entries, size)
    decreases |c.entries|
  {
    if c.entries == [] {
      EmptyHasRoom(s, c, size);
    }
    assert c.totalSize == SizeOf(c.entries);
    hide AreAllowed, IsSound, Removed, Find, SizeOf, Evicted, IsLongestFit;
    if HasRoom(s, c, size) {
      NothingIsEvicted(s, c, size);
    } else {
      OldestIsFirst(s, c, size);
      var rest := Removed(c, c.entries[0].key);
      EvictedIsShortestPrefix(s, rest, size);
      OneMoreIsNeeded(s, c.entries, Evicted(s, rest, size).entries, size);
    }
  }

  lemma NothingIsEvicted(s: Settings, c: Contents, size: int)
    requires HasRoom(s, c, size)
    ensures Evicted(s, c, size) == c && IsLongestFit(s, c.entries, c.entries, size)
  {
  }

  ghost predicate LacksKey(entries: seq<Slot>, key: Key) {
    forall n | 0 <= n < |entries| :: entries[n].key != key
  }

  lemma FitLacksKey(s: Settings, entries: seq<Slot>, kept: seq<Slot>, size: int, key: Key)
    requires IsLongestFit(s, entries, kept, size) && LacksKey(entries, key)
    ensures LacksKey(kept, key)
  {
    hide SizeOf;
  }

  /** What an accepted set keeps of the other entries. */
  function KeptBySet(s: Settings, c: Contents, key: Key, value: Value): seq<Slot>
    requires s.getSize(value).Some?
  {
    Evicted(s, Removed(c, key), s.getSize(value).value).entries
  }

  /** An accepted set leaves the others without that prefix, in their order, and puts its own entry last. */
  lemma {:induction false} SetLeavesSuffix(s: Settings, c: Contents, key: Key, value: Value, ttlMs: real, now: real)
    requires AreAllowed(s) && IsSound(s, c) && IsAccepted(s, value, ttlMs)
    ensures var size := s.getSize(value).value;
            var kept := KeptBySet(s, c, key, value);
            && IsLongestFit(s, Removed(c, key).entries, kept, size) && LacksKey(kept, key)
            && AfterSet(s, c, key, value, ttlMs, now).entries == kept + [Slot(key, Entry(value, now + ttlMs, size))]
  {
    var size := s.getSize(value).value;
    assert 0 <= size <= s.maxSize;
    RemovedIsSound(s, c, key);
    assert LacksKey(Removed(c, key).entries, key);
    hide AreAllowed, IsAccepted, IsSound, Removed, Evicted, IsLongestFit, LacksKey;
    EvictedIsShortestPrefix(s, Removed(c, key), size);
    FitLacksKey(s, Removed(c, key).entries, KeptBySet(s, c, key, value), size, key);
  }

  lemma {:induction false} SetKeepsSound(s: Settings, c: Contents, key: Key, value: Value, ttlMs: real, now: real)
    requires AreAllowed(s) && IsSound(s, c)
    ensures IsSound(s, AfterSet(s, c, key, value, ttlMs, now))
  {
    if IsAccepted(s, value, ttlMs) {
      var size := s.getSize(value).value;
      hide IsAccepted, Evicted, Removed, SizeOf, AreAllowed;
      RemovedIsSound(s, c, key);
      EvictedIsShortestPrefix(s, Removed(c, key), size);
      AddedIsSound(s, Evicted(s, Removed(c, key), size), Slot(key, Entry(value, now + ttlMs, size)));
    }
  }

  class BoundedTTLCache {
    const settings: Settings
    var entries: seq<Slot>
    var totalSize: int

    constructor (settings: Settings)
      requires AreAllowed(settings)
      ensures this.settings == settings && Valid() && Now() == Contents([], 0)
    {
      this.settings := settings;
      entries, totalSize := [], 0;
    }

    /** Other limits are refused with a range error. */
    static method Create(settings: Settings) returns (cache: Option<BoundedTTLCache>)
      ensures cache.Some?
         <==> 1 <= settings.maxEntries <= 9_007_199_254_740_991 && 1 <= settings.maxSize <= 9_007_199_254_740_991
      ensures cache.Some? ==>
                && fresh(cache.value) && cache.value.settings == settings && cache.value.Valid()
                && cache.value.Now() == Contents([], 0)
    {
      if !IsSafeInteger(settings.maxEntries) || settings.maxEntries < 1 {
        return None;
      }
      if !IsSafeInteger(settings.maxSize) || settings.maxSize < 1 {
        return None;
      }
      var created := new BoundedTTLCache(settings);
      return Some(created);
    }

    function Now(): Contents
      reads this
    {
      Contents(entries, totalSize)
    }

    ghost predicate Valid()
      reads this
    {
      AreAllowed(settings) && IsSound(settings, Now())
    }

    method Get(key: Key, now: real) returns (hit: Option<Hit>)
      requires Valid()
      modifies this
      ensures Valid()
      ensures Now() == AfterGet(old(Now()), key, now)
      ensures hit == HitOf(old(Now()), key, now)
    {
      GetKeepsSound(settings, Now(), key, now);
      var entry := Find(entries, key);
      if entry == None {
        return None;
      }
      var remainingTtlMs := entry.value.expiresAt - now;
      if remainingTtlMs <= 0.0 {
        Remove(key, entry.value);
        return None;
      }
      entries := Without(entries, key);
      entries := entries + [Slot(key, entry.value)];
      return Some(Hit(entry.value.value, remainingTtlMs));
    }

    method Set(key: Key, value: Value, ttlMs: real, now: real)
      requires Valid()
      modifies this
      ensures Valid()
      ensures Now() == AfterSet(settings, old(Now()), key, value, ttlMs, now)
    {
      SetKeepsSound(settings, Now(), key, value, ttlMs, now);
      hide AreAllowed, IsSound, SizeOf, Removed, Find, Without, Evicted;
      if ttlMs <= 0.0 {
        return;
      }
      var measured := settings.getSize(value);
      if measured == None || !IsSafeInteger(measured.value) || measured.value < 0 || measured.value > settings.maxSize {
        return;
      }
      var size := measured.value;
      RemovedIsSound(settings, Now(), key);
      var existing := Find(entries, key);
      if existing.Some? {
        Remove(key, existing.value);
      }
      while |entries| >= settings.maxEntries || totalSize + size > settings.maxSize
        invariant IsSound(settings, Now())
        invariant Evicted(settings, Now(), size) == Evicted(settings, Removed(old(Now()), key), size)
        decreases |entries|
      {
        assert entries != [] by {
          if entries == [] {
            EmptyHasRoom(settings, Now(), size);
          }
        }
        if entries == [] {
          assert false;
          break;
        }
        var oldest := entries[0];
        OldestIsFirst(settings, Now(), size);
        Remove(oldest.key, oldest.entry);
      }
      EvictedStops(settings, Now(), size);
      entries := entries + [Slot(key, Entry(value, now + ttlMs, size))];
      totalSize := totalSize + size;
    }

    method Remove(key: Key, entry: Entry)
      modifies this
      ensures Now() == if Find(old(entries), key) == None then old(Now())
                       else Contents(Without(old(entries), key), old(totalSize) - entry.size)
      ensures Find(old(entries), key) == Some(entry) ==> Now() == Removed(old(Now()), key)
    {
      if Find(entries, key) == None {
        return;
      }
      entries := Without(entries, key);
      totalSize := totalSize - entry.size;
    }
  }
}

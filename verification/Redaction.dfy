/** The redacting graph copy of logger.ts. */
module Redaction {
  import opened ObjectGraphs

  /** The map of the objects met so far to their copies, and the copies, half-built ones included. */
  datatype State = State(seen: Names, copies: map<nat, Copy>, next: nat)

  /** Each object met has a copy of its own, and nothing else has one. */
  ghost predicate IsOneToOne(s: State) {
    && (forall r | r in s.seen :: s.seen[r] in s.copies && s.seen[r] < s.next)
    && (forall r, q | r in s.seen && q in s.seen && s.seen[r] == s.seen[q] :: r == q)
    && (forall c | c in s.copies :: c in s.seen.Values)
  }

  ghost predicate IsDone(g: Graph, redactText: string -> string, s: State, r: nat) {
    && r in g && r in s.seen && s.seen[r] in s.copies
    && Links(g[r]) <= s.seen.Keys
    && s.copies[s.seen[r]] == ImageOf(g[r], redactText, s.seen)
  }

  /** All objects met are reachable, and all of them but those under construction have their image. */
  ghost predicate IsTidy(g: Graph, redactText: string -> string, s: State, open: set<nat>, reach: set<nat>) {
    && IsOneToOne(s) && open <= s.seen.Keys <= reach
    && forall r | r in s.seen && r !in open :: IsDone(g, redactText, s, r)
  }

  /** Objects keep their copies, and the copies under construction stay as they are. */
  ghost predicate Extends(s: State, later: State, open: set<nat>) {
    && Grows(s.seen, later.seen)
    && forall r | r in open && r in s.seen && s.seen[r] in s.copies :: s.seen[r] in later.copies
        && later.copies[s.seen[r]] == s.copies[s.seen[r]]
  }

  lemma DoneStays(g: Graph, redactText: string -> string, s: State, later: State, r: nat)
    requires IsDone(g, redactText, s, r) && Grows(s.seen, later.seen)
    requires s.seen[r] in later.copies && later.copies[s.seen[r]] == s.copies[s.seen[r]]
    ensures IsDone(g, redactText, later, r)
  {
    hide Links, ImageOf;
    ImageOfStays(g[r], redactText, s.seen, later.seen);
  }

  /** The state with a new copy for an object not met before. */
  function Begun(s: State, r: nat, copy: Copy): State {
    State(s.seen[r := s.next], s.copies[s.next := copy], s.next + 1)
  }

  /** The copy of r is under construction since the start, and stands as given. */
  ghost predicate IsBuilding(g: Graph, redactText: string -> string, start: State, s: State, open: set<nat>,
        reach: set<nat>, r: nat, copy: Copy)
  {
    && r !in open && IsTidy(g, redactText, s, open + {r}, reach) && Extends(start, s, open)
    && r in s.seen && s.seen[r] in s.copies && s.copies[s.seen[r]] == copy
  }

  lemma BeginBuilds(g: Graph, redactText: string -> string, s: State, open: set<nat>, reach: set<nat>, r: nat,
        copy: Copy)
    requires IsTidy(g, redactText, s, open, reach) && r in reach && r !in s.seen
    ensures IsBuilding(g, redactText, s, Begun(s, r, copy), open, reach, r, copy)
  {
    hide IsDone, Extends, Begun, IsOneToOne;
    var later := Begun(s, r, copy);
    BegunIsOneToOne(s, r, copy);
    BegunExtends(s, open, r, copy);
    forall q | q in s.seen && q !in open ensures IsDone(g, redactText, later, q) {
      DoneStaysBegun(g, redactText, s, r, copy, q);
    }
  }

  lemma BegunExtends(s: State, open: set<nat>, r: nat, copy: Copy)
    requires IsOneToOne(s) && r !in s.seen
    ensures Extends(s, Begun(s, r, copy), open)
    ensures Begun(s, r, copy).seen.Keys == s.seen.Keys + {r}
    ensures Begun(s, r, copy).seen[r] in Begun(s, r, copy).copies
             && Begun(s, r, copy).copies[Begun(s, r, copy).seen[r]] == copy
  {
  }

  lemma DoneStaysBegun(g: Graph, redactText: string -> string, s: State, r: nat, copy: Copy, q: nat)
    requires IsOneToOne(s) && r !in s.seen && IsDone(g, redactText, s, q)
    ensures IsDone(g, redactText, Begun(s, r, copy), q)
  {
    hide Links, ImageOf;
    DoneStays(g, redactText, s, Begun(s, r, copy), q);
  }

  lemma BegunIsOneToOne(s: State, r: nat, copy: Copy)
    requires IsOneToOne(s) && r !in s.seen
    ensures IsOneToOne(Begun(s, r, copy))
  {
    var later := Begun(s, r, copy);
    forall c | c in later.copies ensures c in later.seen.Values {
      if c == s.next {
        assert later.seen[r] == c;
      } else {
        assert c in s.seen.Values;
        var q :| q in s.seen && s.seen[q] == c;
        assert later.seen[q] == c;
      }
    }
  }

  function Filled(s: State, r: nat, copy: Copy): State {
    if r in s.seen then s.(copies := s.copies[s.seen[r] := copy]) else s
  }

  lemma FillBuilds(g: Graph, redactText: string -> string, start: State, s: State, open: set<nat>, reach: set<nat>,
        r: nat, was: Copy, copy: Copy)
    requires IsBuilding(g, redactText, start, s, open, reach, r, was)
    ensures IsBuilding(g, redactText, start, Filled(s, r, copy), open, reach, r, copy)
  {
    hide IsDone;
    var later := Filled(s, r, copy);
    forall q | q in later.seen && q !in open + {r} ensures IsDone(g, redactText, later, q) {
      DoneStays(g, redactText, s, later, q);
    }
  }

  lemma NestedBuilds(g: Graph, redactText: string -> string, start: State, s: State, later: State, open: set<nat>,
        reach: set<nat>, r: nat, copy: Copy)
    requires IsBuilding(g, redactText, start, s, open, reach, r, copy)
    requires IsTidy(g, redactText, later, open + {r}, reach) && Extends(s, later, open + {r})
    ensures IsBuilding(g, redactText, start, later, open, reach, r, copy) && Grows(s.seen, later.seen)
  {
    hide IsTidy, IsDone;
  }

  lemma FinishedIsTidy(g: Graph, redactText: string -> string, start: State, s: State, open: set<nat>,
        reach: set<nat>, r: nat)
    requires r in g && IsBuilding(g, redactText, start, s, open, reach, r, ImageOf(g[r], redactText, s.seen))
             && Links(g[r]) <= s.seen.Keys
    ensures IsTidy(g, redactText, s, open, reach) && Extends(start, s, open) && r in s.seen
  {
    hide ImageOf, Links, Extends, IsOneToOne;
    assert IsDone(g, redactText, s, r);
    hide IsDone;
  }

  class Redactor {
    const graph: Graph
    const redactText: string -> string
    var seen: Names
    var copies: map<nat, Copy>
    var next: nat

    constructor (graph: Graph, redactText: string -> string)
      ensures this.graph == graph && this.redactText == redactText && Now() == State(map[], map[], 0)
    {
      this.graph := graph;
      this.redactText := redactText;
      seen, copies, next := map[], map[], 0;
    }

    function Now(): State
      reads this
    {
      State(seen, copies, next)
    }

    method Begin(r: nat, copy: Copy)
      modifies this
      ensures Now() == Begun(old(Now()), r, copy)
    {
      seen := seen[r := next];
      copies := copies[next := copy];
      next := next + 1;
    }

    method Write(r: nat, key: string, value: Value)
      requires r in seen && seen[r] in copies && copies[seen[r]].Fields?
      modifies this`copies
      ensures Now() == Filled(old(Now()), r, Fields(old(copies[seen[r]].fields)[key := value]))
    {
      copies := copies[seen[r] := Fields(copies[seen[r]].fields[key := value])];
    }

    method Redact(value: Value, ghost open: set<nat>, ghost reach: set<nat>) returns (result: Value)
      requires IsClosed(graph, reach) && LinkTo(value) <= reach
      requires IsTidy(graph, redactText, Now(), open, reach)
      modifies this
      ensures IsTidy(graph, redactText, Now(), open, reach) && Extends(old(Now()), Now(), open)
      ensures LinkTo(value) <= seen.Keys && result == Image(value, redactText, seen)
      decreases graph.Keys - seen.Keys, 3
    {
      hide IsTidy, IsClosed, Extends, Links, IsBuilding;
      ExtendsItself(Now(), open);
      match value
      case Text(text) =>
        return Text(redactText(text));
      case Undefined =>
        return value;
      case Other(_) =>
        return value;
      case Ref(r) =>
        if r in seen {
          return Ref(seen[r]);
        }
        assert r in graph by { ClosedIsInside(graph, reach, r); }
        match graph[r] {
          case Error(_, _, _, _, _) => RedactError(r, open, reach);
          case List(_) => RedactList(r, open, reach);
          case Record(_) => RedactRecord(r, open, reach);
        }
        return Ref(seen[r]);
    }

    /** Redacts a value of the object whose copy is under construction. */
    method RedactNested(value: Value, r: nat, ghost copy: Copy, ghost start: State, ghost open: set<nat>,
          ghost reach: set<nat>)
      returns (result: Value)
      requires IsClosed(graph, reach) && LinkTo(value) <= reach
      requires IsBuilding(graph, redactText, start, Now(), open, reach, r, copy)
      modifies this
      ensures IsBuilding(graph, redactText, start, Now(), open, reach, r, copy)
      ensures Grows(old(seen), seen) && old(seen).Keys <= seen.Keys
      ensures LinkTo(value) <= seen.Keys && result == Image(value, redactText, seen)
      decreases graph.Keys - seen.Keys, 4
    {
      hide IsTidy, Extends, IsClosed;
      ghost var before := Now();
      result := Redact(value, open + {r}, reach);
      NestedBuilds(graph, redactText, start, before, Now(), open, reach, r, copy);
    }

    method RedactError(r: nat, ghost open: set<nat>, ghost reach: set<nat>)
      requires IsClosed(graph, reach) && r in reach && r in graph && graph[r].Error? && r !in seen
      requires IsTidy(graph, redactText, Now(), open, reach)
      modifies this
      ensures IsTidy(graph, redactText, Now(), open, reach) && Extends(old(Now()), Now(), open) && r in seen
      decreases graph.Keys - seen.Keys, 2
    {
      hide IsTidy, Extends, IsBuilding, IsClosed, Links, LinksOf, ItemLinks, Written, Image, ImageOf, ItemImages,
          Grows, ErrorBase, WithCause, IsHidden;
      ghost var start := Now();
      var node := graph[r];
      var base := ErrorBase(node, redactText);
      BeginBuilds(graph, redactText, start, open, reach, r, Fields(base));
      Begin(r, Fields(base));
      BegunIsMore(graph, start, r, Fields(base));
      ErrorLinks(graph, reach, r);
      ghost var written := base;
      if node.cause != Undefined {
        var cause := RedactNested(node.cause, r, Fields(base), start, open, reach);
        written := base["cause" := cause];
        FillBuilds(graph, redactText, start, Now(), open, reach, r, Fields(base), Fields(written));
        BuildingHasCopy(graph, redactText, start, Now(), open, reach, r, Fields(base));
        Write(r, "cause", cause);
      }
      CauseIsWritten(base, node.cause, redactText, seen);
      ghost var names := seen;
      RedactEntries(r, true, node.entries, written, start, open, reach);
      CauseStays(base, node.cause, redactText, names, seen);
      ErrorIsImage(graph, redactText, r, seen);
      FinishedIsTidy(graph, redactText, start, Now(), open, reach, r);
    }

    method RedactRecord(r: nat, ghost open: set<nat>, ghost reach: set<nat>)
      requires IsClosed(graph, reach) && r in reach && r in graph && graph[r].Record? && r !in seen
      requires IsTidy(graph, redactText, Now(), open, reach)
      modifies this
      ensures IsTidy(graph, redactText, Now(), open, reach) && Extends(old(Now()), Now(), open) && r in seen
      decreases graph.Keys - seen.Keys, 2
    {
      hide IsTidy, Extends, IsBuilding, IsClosed, Links, LinksOf, ItemLinks, Written, Image, ImageOf, ItemImages,
          Grows, ErrorBase, WithCause, IsHidden;
      ghost var start := Now();
      BeginBuilds(graph, redactText, start, open, reach, r, Fields(map[]));
      Begin(r, Fields(map[]));
      BegunIsMore(graph, start, r, Fields(map[]));
      RecordLinks(graph, reach, r);
      RedactEntries(r, false, graph[r].entries, map[], start, open, reach);
      RecordIsImage(graph, redactText, r, seen);
      FinishedIsTidy(graph, redactText, start, Now(), open, reach, r);
    }

    method RedactList(r: nat, ghost open: set<nat>, ghost reach: set<nat>)
      requires IsClosed(graph, reach) && r in reach && r in graph && graph[r].List? && r !in seen
      requires IsTidy(graph, redactText, Now(), open, reach)
      modifies this
      ensures IsTidy(graph, redactText, Now(), open, reach) && Extends(old(Now()), Now(), open) && r in seen
      decreases graph.Keys - seen.Keys, 2
    {
      hide IsTidy, Extends, IsBuilding, IsClosed, Links, LinksOf, ItemLinks, Written, Image, ImageOf, ItemImages,
          Grows, ErrorBase, WithCause, IsHidden;
      ghost var start := Now();
      var items := graph[r].items;
      BeginBuilds(graph, redactText, start, open, reach, r, Items([]));
      Begin(r, Items([]));
      BegunIsMore(graph, start, r, Items([]));
      ghost var names := seen;
      var redacted: seq<Value> := [];
      NoItemYet(items, redactText, seen);
      for n := 0 to |items|
        invariant IsBuilding(graph, redactText, start, Now(), open, reach, r, Items([]))
        invariant names.Keys <= seen.Keys && ItemLinks(items, n) <= seen.Keys
        invariant redacted == ItemImages(items[..n], redactText, seen)
      {
        ghost var before := seen;
        ListLinks(graph, reach, r, n);
        var item := RedactNested(items[n], r, Items([]), start, open, reach);
        OneMoreItem(items, n, redactText, before, seen);
        redacted := redacted + [item];
      }
      FillBuilds(graph, redactText, start, Now(), open, reach, r, Items([]), Items(redacted));
      BuildingHasCopy(graph, redactText, start, Now(), open, reach, r, Items([]));
      copies := copies[seen[r] := Items(redacted)];
      ListIsImage(graph, redactText, r, seen);
      FinishedIsTidy(graph, redactText, start, Now(), open, reach, r);
    }

    /** Writes the entries into the copy, which holds the base. */
    method RedactEntries(r: nat, isError: bool, entries: seq<Entry>, ghost base: map<string, Value>,
          ghost start: State, ghost open: set<nat>, ghost reach: set<nat>)
      requires IsClosed(graph, reach) && LinksOf(isError, entries, |entries|) <= reach
      requires IsBuilding(graph, redactText, start, Now(), open, reach, r, Fields(base))
      modifies this
      ensures IsBuilding(graph, redactText, start, Now(), open, reach, r,
               Fields(Written(base, isError, entries, |entries|, redactText, seen)))
      ensures Grows(old(seen), seen) && old(seen).Keys <= seen.Keys
      ensures LinksOf(isError, entries, |entries|) <= seen.Keys
      decreases graph.Keys - seen.Keys, 5
    {
      hide IsTidy, Extends, IsBuilding, IsClosed, Links, LinksOf, ItemLinks, Written, Image, ImageOf, ItemImages,
          Grows, ErrorBase, WithCause, IsHidden;
      NothingWritten(base, isError, entries, redactText, seen);
      for n := 0 to |entries|
        invariant IsBuilding(graph, redactText, start, Now(), open, reach, r,
                 Fields(Written(base, isError, entries, n, redactText, seen)))
        invariant Grows(old(seen), seen) && old(seen).Keys <= seen.Keys
        invariant LinksOf(isError, entries, n) <= seen.Keys
      {
        ghost var before := seen;
        ghost var fields := Written(base, isError, entries, n, redactText, before);
        var entry := entries[n];
        var value := PLACEHOLDER;
        LinksOfOneMore(isError, entries, n + 1);
        LinksOfPart(isError, entries, n + 1);
        if !IsHidden(isError, entry.key) {
          value := RedactNested(entry.value, r, Fields(fields), start, open, reach);
          WrittenStays(base, isError, entries, n, redactText, before, seen);
          GrowsOn(old(seen), before, seen);
        }
        OneMoreWritten(base, isError, entries, n, redactText, seen);
        FillBuilds(graph, redactText, start, Now(), open, reach, r, Fields(fields), Fields(fields[entry.key := value]));
        BuildingHasCopy(graph, redactText, start, Now(), open, reach, r, Fields(fields));
        Write(r, entry.key, value);
      }
    }
  }

  lemma BuildingHasCopy(g: Graph, redactText: string -> string, start: State, s: State, open: set<nat>,
        reach: set<nat>, r: nat, copy: Copy)
    requires IsBuilding(g, redactText, start, s, open, reach, r, copy)
    ensures r in s.seen && s.seen[r] in s.copies && s.copies[s.seen[r]] == copy
    ensures forall other :: Filled(s, r, other) == s.(copies := s.copies[s.seen[r] := other])
  {
  }

  lemma BegunIsMore(g: Graph, s: State, r: nat, copy: Copy)
    requires r in g && r !in s.seen
    ensures g.Keys - Begun(s, r, copy).seen.Keys < g.Keys - s.seen.Keys
  {
    assert r in g.Keys - s.seen.Keys;
  }

  lemma GrowsOn(seen: Names, middle: Names, later: Names)
    ensures Grows(seen, seen)
    ensures Grows(seen, middle) && Grows(middle, later) ==> Grows(seen, later)
  {
  }

  lemma ErrorLinks(g: Graph, reach: set<nat>, r: nat)
    requires IsClosed(g, reach) && r in reach && g[r].Error?
    ensures LinkTo(g[r].cause) <= reach && LinksOf(true, g[r].entries, |g[r].entries|) <= reach
  {
    hide LinksOf;
  }

  lemma RecordLinks(g: Graph, reach: set<nat>, r: nat)
    requires IsClosed(g, reach) && r in reach && g[r].Record?
    ensures LinksOf(false, g[r].entries, |g[r].entries|) <= reach
  {
    hide LinksOf;
  }

  lemma ListLinks(g: Graph, reach: set<nat>, r: nat, n: nat)
    requires IsClosed(g, reach) && r in reach && g[r].List? && n < |g[r].items|
    ensures LinkTo(g[r].items[n]) <= reach
  {
    if g[r].items[n].Ref? {
      assert g[r].items[n].target in ItemLinks(g[r].items, |g[r].items|);
    }
  }

  lemma CauseIsWritten(base: map<string, Value>, cause: Value, redactText: string -> string, seen: Names)
    ensures WithCause(base, cause, redactText, seen)
             == if cause == Undefined then base else base["cause" := Image(cause, redactText, seen)]
    ensures cause == Undefined ==> LinkTo(cause) == {}
  {
  }

  lemma CauseStays(base: map<string, Value>, cause: Value, redactText: string -> string, seen: Names, later: Names)
    requires Grows(seen, later) && LinkTo(cause) <= seen.Keys
    ensures WithCause(base, cause, redactText, later) == WithCause(base, cause, redactText, seen)
  {
    ImageStays(cause, redactText, seen, later);
  }

  lemma ErrorIsImage(g: Graph, redactText: string -> string, r: nat, seen: Names)
    requires r in g && g[r].Error?
    ensures ImageOf(g[r], redactText, seen)
         == Fields(Written(WithCause(ErrorBase(g[r], redactText), g[r].cause, redactText, seen), true, g[r].entries,
             |g[r].entries|, redactText, seen))
    ensures Links(g[r]) == LinkTo(g[r].cause) + LinksOf(true, g[r].entries, |g[r].entries|)
  {
  }

  lemma RecordIsImage(g: Graph, redactText: string -> string, r: nat, seen: Names)
    requires r in g && g[r].Record?
    ensures ImageOf(g[r], redactText, seen)
             == Fields(Written(map[], false, g[r].entries, |g[r].entries|, redactText, seen))
    ensures Links(g[r]) == LinksOf(false, g[r].entries, |g[r].entries|)
  {
  }

  lemma ListIsImage(g: Graph, redactText: string -> string, r: nat, seen: Names)
    requires r in g && g[r].List?
    ensures ImageOf(g[r], redactText, seen) == Items(ItemImages(g[r].items, redactText, seen))
    ensures Links(g[r]) == ItemLinks(g[r].items, |g[r].items|) && g[r].items[..|g[r].items|] == g[r].items
  {
  }

  lemma NoItemYet(items: seq<Value>, redactText: string -> string, seen: Names)
    ensures ItemImages(items[..0], redactText, seen) == [] && ItemLinks(items, 0) == {}
  {
  }

  lemma OneMoreItem(items: seq<Value>, n: nat, redactText: string -> string, seen: Names, later: Names)
    requires n < |items| && Grows(seen, later) && ItemLinks(items, n) <= seen.Keys && LinkTo(items[n]) <= later.Keys
    ensures ItemImages(items[..n + 1], redactText, later) == ItemImages(items[..n], redactText, seen)
             + [Image(items[n], redactText, later)]
    ensures ItemLinks(items, n + 1) <= later.Keys
  {
    hide Image;
    forall k | 0 <= k < n ensures Image(items[k], redactText, later) == Image(items[k], redactText, seen) {
      assert LinkTo(items[k]) <= ItemLinks(items, n);
      ImageStays(items[k], redactText, seen, later);
    }
    assert ItemLinks(items, n + 1) == ItemLinks(items, n) + LinkTo(items[n]);
  }

  lemma NothingWritten(base: map<string, Value>, isError: bool, entries: seq<Entry>, redactText: string -> string,
        seen: Names)
    ensures Grows(seen, seen)
    ensures Written(base, isError, entries, 0, redactText, seen) == base && LinksOf(isError, entries, 0) == {}
  {
  }

  lemma OneMoreWritten(base: map<string, Value>, isError: bool, entries: seq<Entry>, n: nat,
        redactText: string -> string, seen: Names)
    requires n < |entries|
    ensures Written(base, isError, entries, n + 1, redactText, seen)
         == Written(base, isError, entries, n, redactText,
             seen)[entries[n].key := EntryImage(isError, entries[n], redactText, seen)]
  {
  }

  lemma LinksOfPart(isError: bool, entries: seq<Entry>, n: nat)
    requires n <= |entries|
    ensures LinksOf(isError, entries, n) <= LinksOf(isError, entries, |entries|)
  {
    hide IsHidden;
  }

  lemma ExtendsItself(s: State, open: set<nat>)
    ensures Extends(s, s, open)
  {
  }

  lemma ClosedIsInside(g: Graph, reach: set<nat>, r: nat)
    requires IsClosed(g, reach) && r in reach
    ensures r in g
  {
  }
}

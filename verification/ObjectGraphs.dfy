/** Object graphs as logger.ts walks them, and the redacted image of a node. */
module ObjectGraphs {
  import opened SensitiveKeys

  /** A JavaScript value; `Other` stands for numbers, booleans, null, functions and symbols. */
  datatype Value = Undefined | Text(text: string) | Other(id: int) | Ref(target: nat)

  datatype Entry = Entry(key: string, value: Value)

  /** An object of the input, by what the walk reads of it. */
  datatype Node =
    | Error(name: string, message: string, stack: Value, cause: Value, entries: seq<Entry>)
    | List(items: seq<Value>)
    | Record(entries: seq<Entry>)

  type Graph = map<nat, Node>

  /** An object that the walk builds. */
  datatype Copy = Fields(fields: map<string, Value>) | Items(items: seq<Value>)

  const PLACEHOLDER := Text("[REDACTED]")

  /** Under which keys the value is not even looked at. */
  predicate IsHidden(isError: bool, key: string) {
    IsSensitive(key) || (isError && key == "params")
  }

  // The graph

  function LinksOf(isError: bool, entries: seq<Entry>, n: nat): set<nat>
    requires n <= |entries|
  {
    set k | 0 <= k < n && !IsHidden(isError, entries[k].key) && entries[k].value.Ref? :: entries[k].value.target
  }

  function ItemLinks(items: seq<Value>, n: nat): set<nat>
    requires n <= |items|
  {
    set k | 0 <= k < n && items[k].Ref? :: items[k].target
  }

  function LinkTo(value: Value): set<nat> {
    if value.Ref? then {value.target} else {}
  }

  /** The objects one step away, through keys that are not hidden. */
  function Links(node: Node): set<nat> {
    match node
    case Error(_, _, _, cause, entries) => LinkTo(cause) + LinksOf(true, entries, |entries|)
    case List(items) => ItemLinks(items, |items|)
    case Record(entries) => LinksOf(false, entries, |entries|)
  }

  ghost predicate IsClosed(g: Graph, objects: set<nat>) {
    objects <= g.Keys && forall r | r in objects :: Links(g[r]) <= objects
  }

  ghost predicate IsPath(g: Graph, from: Value, path: seq<nat>) {
    && path != [] && from == Ref(path[0])
    && (forall k | 0 <= k < |path| :: path[k] in g)
    && forall k | 0 < k < |path| :: path[k] in Links(g[path[k - 1]])
  }

  ghost predicate IsReachable(g: Graph, from: Value, r: nat) {
    exists path :: IsPath(g, from, path) && path[|path| - 1] == r
  }

  ghost function Reachable(g: Graph, from: Value): set<nat> {
    set r | r in g && IsReachable(g, from, r)
  }

  /** Every reference of a node leads to a node. */
  ghost predicate IsWhole(g: Graph, from: Value) {
    LinkTo(from) <= g.Keys && forall r | r in g :: Links(g[r]) <= g.Keys
  }

  lemma PathGoesOn(g: Graph, from: Value, r: nat, next: nat)
    requires IsWhole(g, from) && r in g
    ensures IsReachable(g, from, r) && next in Links(g[r]) ==> IsReachable(g, from, next)
  {
    hide Links;
    if IsReachable(g, from, r) && next in Links(g[r]) {
      var path :| IsPath(g, from, path) && path[|path| - 1] == r;
      assert IsPath(g, from, path + [next]);
      assert (path + [next])[|path + [next]| - 1] == next;
    }
  }

  lemma ReachableIsClosed(g: Graph, from: Value)
    requires IsWhole(g, from)
    ensures IsClosed(g, Reachable(g, from)) && LinkTo(from) <= Reachable(g, from)
  {
    hide Links;
    forall r, next | r in Reachable(g, from) && next in Links(g[r]) ensures next in Reachable(g, from) {
      PathGoesOn(g, from, r, next);
    }
    if from.Ref? {
      assert IsPath(g, from, [from.target]);
      assert [from.target][|[from.target]| - 1] == from.target;
    }
  }

  lemma {:induction false} PathStaysInside(g: Graph, from: Value, path: seq<nat>, objects: set<nat>)
    requires IsClosed(g, objects) && LinkTo(from) <= objects && IsPath(g, from, path)
    ensures path[|path| - 1] in objects
    decreases |path|
  {
    hide Links;
    if |path| > 1 {
      assert IsPath(g, from, path[..|path| - 1]);
      PathStaysInside(g, from, path[..|path| - 1], objects);
    }
  }

  /** What can be reached lies in every closed set that holds the start. */
  lemma {:induction false} ReachableIsLeast(g: Graph, from: Value, objects: set<nat>)
    requires IsClosed(g, objects) && LinkTo(from) <= objects
    ensures Reachable(g, from) <= objects
  {
    forall r | r in Reachable(g, from) ensures r in objects {
      var path :| IsPath(g, from, path) && path[|path| - 1] == r;
      PathStaysInside(g, from, path, objects);
    }
  }

  // The image

  type Names = map<nat, nat>

  /** What stands for a value: texts are redacted, and an object's copy stands for the object. */
  function Image(value: Value, redactText: string -> string, seen: Names): Value {
    match value
    case Text(text) => Text(redactText(text))
    case Ref(target) => if target in seen then Ref(seen[target]) else Undefined
    case _ => value
  }

  /** A missing or empty stack stays as it is. */
  function StackImage(stack: Value, redactText: string -> string): Value {
    if stack.Text? && stack.text != "" then Text(redactText(stack.text)) else stack
  }

  function ErrorBase(node: Node, redactText: string -> string): map<string, Value>
    requires node.Error?
  {
    map["name" := Text(node.name), "message" := Text(redactText(node.message)),
        "stack" := StackImage(node.stack, redactText)]
  }

  function WithCause(base: map<string, Value>, cause: Value, redactText: string -> string,
        seen: Names): map<string, Value>
  {
    if cause == Undefined then base else base["cause" := Image(cause, redactText, seen)]
  }

  function EntryImage(isError: bool, entry: Entry, redactText: string -> string, seen: Names): Value {
    if IsHidden(isError, entry.key) then PLACEHOLDER else Image(entry.value, redactText, seen)
  }

  /** The fields once the first n entries are written over the base, each over what stood there before. */
  function Written(base: map<string, Value>, isError: bool, entries: seq<Entry>, n: nat, redactText: string -> string,
        seen: Names): map<string, Value>
    requires n <= |entries|
  {
    if n == 0 then base
    else
      var before := Written(base, isError, entries, n - 1, redactText, seen);
      before[entries[n - 1].key := EntryImage(isError, entries[n - 1], redactText, seen)]
  }

  function ItemImages(items: seq<Value>, redactText: string -> string, seen: Names): (images: seq<Value>)
    ensures |images| == |items| && forall k | 0 <= k < |items| :: images[k] == Image(items[k], redactText, seen)
  {
    seq(|items|, k requires 0 <= k < |items| => Image(items[k], redactText, seen))
  }

  function ImageOf(node: Node, redactText: string -> string, seen: Names): Copy {
    match node
    case Error(_, _, _, cause, entries) =>
      Fields(Written(WithCause(ErrorBase(node, redactText), cause, redactText, seen), true, entries, |entries|,
          redactText, seen))
    case List(items) => Items(ItemImages(items, redactText, seen))
    case Record(entries) => Fields(Written(map[], false, entries, |entries|, redactText, seen))
  }

  ghost predicate Grows(seen: Names, later: Names) {
    forall r | r in seen :: r in later && later[r] == seen[r]
  }

  lemma ImageStays(value: Value, redactText: string -> string, seen: Names, later: Names)
    requires Grows(seen, later) && LinkTo(value) <= seen.Keys
    ensures Image(value, redactText, later) == Image(value, redactText, seen)
  {
  }

  lemma {:induction false} WrittenStays(base: map<string, Value>, isError: bool, entries: seq<Entry>, n: nat,
        redactText: string -> string, seen: Names, later: Names)
    requires n <= |entries| && Grows(seen, later) && LinksOf(isError, entries, n) <= seen.Keys
    ensures Written(base, isError, entries, n, redactText, later)
             == Written(base, isError, entries, n, redactText, seen)
  {
    hide LinksOf, IsHidden, Image, Grows;
    if n > 0 {
      LinksOfOneMore(isError, entries, n);
      WrittenStays(base, isError, entries, n - 1, redactText, seen, later);
      if !IsHidden(isError, entries[n - 1].key) {
        ImageStays(entries[n - 1].value, redactText, seen, later);
      }
    }
  }

  lemma LinksOfOneMore(isError: bool, entries: seq<Entry>, n: nat)
    requires 0 < n <= |entries|
    ensures LinksOf(isError, entries, n)
         == LinksOf(isError, entries, n - 1) + if IsHidden(isError, entries[n - 1].key)
             then {} else LinkTo(entries[n - 1].value)
  {
    hide IsHidden;
  }

  /** An image does not change once all that the node links to is seen. */
  lemma {:induction false} ImageOfStays(node: Node, redactText: string -> string, seen: Names, later: Names)
    requires Grows(seen, later) && Links(node) <= seen.Keys
    ensures ImageOf(node, redactText, later) == ImageOf(node, redactText, seen)
  {
    hide LinksOf, Grows, Image, ItemLinks, IsHidden, Written;
    match node
    case Error(_, _, _, cause, entries) =>
      ImageStays(cause, redactText, seen, later);
      WrittenStays(WithCause(ErrorBase(node, redactText), cause, redactText, seen), true, entries, |entries|,
          redactText, seen, later);
    case List(items) =>
      ItemsStay(items, redactText, seen, later);
    case Record(entries) =>
      WrittenStays(map[], false, entries, |entries|, redactText, seen, later);
  }

  lemma ItemsStay(items: seq<Value>, redactText: string -> string, seen: Names, later: Names)
    requires Grows(seen, later) && ItemLinks(items, |items|) <= seen.Keys
    ensures ItemImages(items, redactText, later) == ItemImages(items, redactText, seen)
  {
    forall k | 0 <= k < |items| ensures Image(items[k], redactText, later) == Image(items[k], redactText, seen) {
      assert LinkTo(items[k]) <= ItemLinks(items, |items|);
      ImageStays(items[k], redactText, seen, later);
    }
  }
}

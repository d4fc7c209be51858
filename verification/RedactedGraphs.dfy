/** What a redacted copy is to the graph it was made from. */
module RedactedGraphs {
  import opened SensitiveKeys
  import opened ObjectGraphs
  import opened Redaction

  /** Exactly the reachable objects have copies, one each, and every copy is the image of its object. */
  ghost predicate IsRedactedCopy(g: Graph, redactText: string -> string, value: Value, result: Value, s: State) {
    && s.seen.Keys == Reachable(g, value)
    && IsOneToOne(s)
    && (forall r | r in s.seen :: IsDone(g, redactText, s, r))
    && result == Image(value, redactText, s.seen)
  }

  /** The whole walk, from an empty map of objects met. */
  method RedactSensitiveData(graph: Graph, redactText: string -> string, value: Value)
    returns (result: Value, redactor: Redactor)
    requires IsWhole(graph, value)
    ensures fresh(redactor) && IsRedactedCopy(graph, redactText, value, result, redactor.Now())
  {
    redactor := new Redactor(graph, redactText);
    ghost var reach := Reachable(graph, value);
    ReachableIsClosed(graph, value);
    NothingIsTidy(graph, redactText, reach);
    result := redactor.Redact(value, {}, reach);
    TidyIsRedacted(graph, redactText, value, redactor.Now());
  }

  lemma NothingIsTidy(g: Graph, redactText: string -> string, reach: set<nat>)
    ensures IsTidy(g, redactText, State(map[], map[], 0), {}, reach)
  {
  }

  lemma TidyIsRedacted(g: Graph, redactText: string -> string, value: Value, s: State)
    requires IsWhole(g, value) && IsTidy(g, redactText, s, {}, Reachable(g, value)) && LinkTo(value) <= s.seen.Keys
    ensures IsRedactedCopy(g, redactText, value, Image(value, redactText, s.seen), s)
  {
    hide IsOneToOne, Reachable, IsWhole, ImageOf, Links;
    assert IsClosed(g, s.seen.Keys) by {
      forall r | r in s.seen.Keys ensures r in g && Links(g[r]) <= s.seen.Keys {
        assert IsDone(g, redactText, s, r);
      }
    }
    ReachableIsLeast(g, value, s.seen.Keys);
  }

  // Keys

  lemma {:induction false} WrittenAt(base: map<string, Value>, isError: bool, entries: seq<Entry>, n: nat,
        redactText: string -> string, seen: Names, key: string)
    requires n <= |entries|
    ensures var fields, last := Written(base, isError, entries, n, redactText, seen), LastOf(entries, n, key);
            if last >= 0 then key in fields && fields[key] == EntryImage(isError, entries[last], redactText, seen)
            else (key in fields <==> key in base) && (key in base ==> fields[key] == base[key])
  {
    hide EntryImage;
    if n > 0 {
      WrittenAt(base, isError, entries, n - 1, redactText, seen, key);
    }
  }

  /** The last of the first n entries with that key. */
  function LastOf(entries: seq<Entry>, n: nat, key: string): (last: int)
    requires n <= |entries|
    ensures -1 <= last < n && (last >= 0 ==> entries[last].key == key)
    ensures forall k | last < k < n :: entries[k].key != key
  {
    if n == 0 then -1 else if entries[n - 1].key == key then n - 1 else LastOf(entries, n - 1, key)
  }

  /** The entries that the walk reads of an error or a record. */
  function EntriesOf(node: Node): seq<Entry> {
    if node.List? then [] else node.entries
  }

  function BaseOf(node: Node, redactText: string -> string, seen: Names): map<string, Value> {
    if node.Error? then WithCause(ErrorBase(node, redactText), node.cause, redactText, seen) else map[]
  }

  lemma ImageIsWritten(node: Node, redactText: string -> string, seen: Names)
    requires !node.List?
    ensures ImageOf(node, redactText, seen)
         == Fields(Written(BaseOf(node, redactText, seen), node.Error?, EntriesOf(node), |EntriesOf(node)|,
             redactText, seen))
  {
  }

  /** Under every sensitive key of a finished copy stands the placeholder, and under `params` of an error. */
  lemma {:induction false} HiddenKeysAreRedacted(g: Graph, redactText: string -> string, s: State, r: nat, k: nat)
    requires IsDone(g, redactText, s, r)
    requires k < |EntriesOf(g[r])| && IsHidden(g[r].Error?, EntriesOf(g[r])[k].key)
    ensures s.seen[r] in s.copies && s.copies[s.seen[r]].Fields?
    ensures EntriesOf(g[r])[k].key in s.copies[s.seen[r]].fields
    ensures s.copies[s.seen[r]].fields[EntriesOf(g[r])[k].key] == PLACEHOLDER
  {
    var entries := EntriesOf(g[r]);
    ImageIsWritten(g[r], redactText, s.seen);
    hide ImageOf, Links, IsHidden;
    WrittenAt(BaseOf(g[r], redactText, s.seen), g[r].Error?, entries, |entries|, redactText, s.seen, entries[k].key);
  }

  // Sharing and cycles

  datatype Step = Key(key: string) | At(index: nat)

  /** Where a step leads in the input, as far as nothing hides it. */
  function Next(g: Graph, from: Value, step: Step): Value {
    if !from.Ref? || from.target !in g then Undefined
    else
      var node := g[from.target];
      match step
      case At(index) => if node.List? && index < |node.items| then node.items[index] else Undefined
      case Key(key) =>
        var last := LastOf(EntriesOf(node), |EntriesOf(node)|, key);
        if last >= 0 then (if IsHidden(node.Error?, key) then Undefined else EntriesOf(node)[last].value)
        else if node.Error? && key == "cause" then node.cause
        else Undefined
  }

  function NextCopy(s: State, from: Value, step: Step): Value {
    if !from.Ref? || from.target !in s.copies then Undefined
    else
      match (step, s.copies[from.target])
      case (At(index), Items(items)) => if index < |items| then items[index] else Undefined
      case (Key(key), Fields(fields)) => if key in fields then fields[key] else Undefined
      case _ => Undefined
  }

  function Follow(g: Graph, from: Value, steps: seq<Step>): Value {
    if steps == [] then from else Next(g, Follow(g, from, steps[..|steps| - 1]), steps[|steps| - 1])
  }

  function FollowCopy(s: State, from: Value, steps: seq<Step>): Value {
    if steps == [] then from else NextCopy(s, FollowCopy(s, from, steps[..|steps| - 1]), steps[|steps| - 1])
  }

  lemma KeyIsKept(g: Graph, redactText: string -> string, s: State, r: nat, key: string)
    requires IsDone(g, redactText, s, r) && Next(g, Ref(r), Key(key)) != Undefined
    ensures NextCopy(s, Ref(s.seen[r]), Key(key)) == Image(Next(g, Ref(r), Key(key)), redactText, s.seen)
    ensures LinkTo(Next(g, Ref(r), Key(key))) <= s.seen.Keys
  {
    var node, entries := g[r], EntriesOf(g[r]);
    ImageIsWritten(node, redactText, s.seen);
    WrittenAt(BaseOf(node, redactText, s.seen), node.Error?, entries, |entries|, redactText, s.seen, key);
    var last := LastOf(entries, |entries|, key);
    if last >= 0 {
      KeyIsLink(node, last);
    }
    hide ImageOf, Image, IsHidden, LinksOf, LastOf, Written;
  }

  lemma KeyIsLink(node: Node, n: nat)
    requires n < |EntriesOf(node)| && !IsHidden(node.Error?, EntriesOf(node)[n].key)
    ensures LinkTo(EntriesOf(node)[n].value) <= Links(node)
  {
    hide IsHidden;
  }

  lemma ItemIsKept(g: Graph, redactText: string -> string, s: State, r: nat, index: nat)
    requires IsDone(g, redactText, s, r) && Next(g, Ref(r), At(index)) != Undefined
    ensures NextCopy(s, Ref(s.seen[r]), At(index)) == Image(Next(g, Ref(r), At(index)), redactText, s.seen)
    ensures LinkTo(Next(g, Ref(r), At(index))) <= s.seen.Keys
  {
    var items := g[r].items;
    assert items[index].Ref? ==> items[index].target in ItemLinks(items, |items|);
    hide Image;
  }

  /** Whatever a walk along shown keys finds in the input, the same walk finds the image of it in the copy. */
  lemma {:induction false} WalkIsPreserved(g: Graph, redactText: string -> string, value: Value, result: Value,
        s: State, steps: seq<Step>)
    requires IsWhole(g, value) && IsRedactedCopy(g, redactText, value, result, s)
    requires Follow(g, value, steps) != Undefined
    ensures FollowCopy(s, result, steps) == Image(Follow(g, value, steps), redactText, s.seen)
    ensures LinkTo(Follow(g, value, steps)) <= s.seen.Keys
    decreases |steps|
  {
    if steps == [] {
      ReachableIsClosed(g, value);
    } else {
      hide IsWhole, IsOneToOne, Reachable;
      var from, step := Follow(g, value, steps[..|steps| - 1]), steps[|steps| - 1];
      WalkIsPreserved(g, redactText, value, result, s, steps[..|steps| - 1]);
      hide Next, NextCopy;
      StepIsPreserved(g, redactText, s, from, step);
    }
  }

  lemma StepIsPreserved(g: Graph, redactText: string -> string, s: State, from: Value, step: Step)
    requires LinkTo(from) <= s.seen.Keys
    requires forall r | r in s.seen :: IsDone(g, redactText, s, r)
    ensures Next(g, from, step) != Undefined ==>
              && NextCopy(s, Image(from, redactText, s.seen), step) == Image(Next(g, from, step), redactText, s.seen)
              && LinkTo(Next(g, from, step)) <= s.seen.Keys
  {
    if Next(g, from, step) != Undefined {
      assert from.Ref? by { OnlyObjectsHaveMore(g, from, step); }
      hide Next, NextCopy, IsDone;
      match step
      case Key(key) => KeyIsKept(g, redactText, s, from.target, key);
      case At(index) => ItemIsKept(g, redactText, s, from.target, index);
    }
  }

  lemma OnlyObjectsHaveMore(g: Graph, from: Value, step: Step)
    requires Next(g, from, step) != Undefined
    ensures from.Ref? && from.target in g
  {
  }

  /** Two walks meet in one copy exactly when they meet in one object: sharing and cycles are preserved. */
  lemma {:induction false} SharingIsPreserved(g: Graph, redactText: string -> string, value: Value, result: Value,
        s: State,
        steps: seq<Step>, others: seq<Step>)
    requires IsWhole(g, value) && IsRedactedCopy(g, redactText, value, result, s)
    ensures Follow(g, value, steps).Ref? && Follow(g, value, others).Ref? ==>
              && FollowCopy(s, result, steps).Ref? && FollowCopy(s, result, others).Ref?
              && (FollowCopy(s, result, steps) == FollowCopy(s, result, others)
                  <==> Follow(g, value, steps) == Follow(g, value, others))
  {
    hide IsOneToOne, Follow, FollowCopy, Reachable, IsWhole, IsDone;
    if Follow(g, value, steps).Ref? && Follow(g, value, others).Ref? {
      WalkIsPreserved(g, redactText, value, result, s, steps);
      WalkIsPreserved(g, redactText, value, result, s, others);
      ImagesAreDistinct(s, redactText, Follow(g, value, steps), Follow(g, value, others));
    }
  }

  lemma ImagesAreDistinct(s: State, redactText: string -> string, a: Value, b: Value)
    requires IsOneToOne(s) && a.Ref? && b.Ref? && LinkTo(a) <= s.seen.Keys && LinkTo(b) <= s.seen.Keys
    ensures Image(a, redactText, s.seen).Ref? && Image(b, redactText, s.seen).Ref?
    ensures Image(a, redactText, s.seen) == Image(b, redactText, s.seen) <==> a == b
  {
  }

  // Texts

  /**
    What the input holds under a step, hidden or not; an error's
    name, message, stack and cause give way to its own entries.
  */
  function Source(node: Node, step: Step): Value {
    match step
    case At(index) => if node.List? && index < |node.items| then node.items[index] else Undefined
    case Key(key) =>
      var last := LastOf(EntriesOf(node), |EntriesOf(node)|, key);
      if last >= 0 then EntriesOf(node)[last].value
      else if !node.Error? then Undefined
      else if key == "name" then Text(node.name)
      else if key == "message" then Text(node.message)
      else if key == "stack" then node.stack
      else if key == "cause" then node.cause
      else Undefined
  }

  /**
    The text is the redacted text of the source, the placeholder, or one of the two that the walk leaves as they are.
  */
  predicate IsSafe(node: Node, redactText: string -> string, step: Step, value: Value) {
    value.Text? ==>
      || value == PLACEHOLDER
      || (Source(node, step).Text? && value == Text(redactText(Source(node, step).text)))
      || (node.Error? && step == Key("name") && value == Text(node.name))
      || (node.Error? && step == Key("stack") && value == Text("") && node.stack == Text(""))
  }

  /** An own entry is written over whatever stood under its key. */
  lemma EntryIsSafe(node: Node, redactText: string -> string, seen: Names, key: string)
    requires LastOf(EntriesOf(node), |EntriesOf(node)|, key) >= 0
    ensures var last := LastOf(EntriesOf(node), |EntriesOf(node)|, key);
            IsSafe(node, redactText, Key(key), EntryImage(node.Error?, EntriesOf(node)[last], redactText, seen))
  {
    hide LastOf, IsHidden;
  }

  lemma BaseIsSafe(node: Node, redactText: string -> string, seen: Names, key: string)
    requires LastOf(EntriesOf(node), |EntriesOf(node)|, key) < 0 && key in BaseOf(node, redactText, seen)
    ensures IsSafe(node, redactText, Key(key), BaseOf(node, redactText, seen)[key])
  {
    hide LastOf;
  }

  lemma CopiedEntriesAreSafe(g: Graph, redactText: string -> string, s: State, r: nat, key: string)
    requires IsDone(g, redactText, s, r) && !g[r].List?
    ensures IsSafe(g[r], redactText, Key(key), NextCopy(s, Ref(s.seen[r]), Key(key)))
  {
    var node, entries := g[r], EntriesOf(g[r]);
    ImageIsWritten(node, redactText, s.seen);
    WrittenAt(BaseOf(node, redactText, s.seen), node.Error?, entries, |entries|, redactText, s.seen, key);
    hide ImageOf, Links, Written, BaseOf, LastOf, EntryImage, Source, IsSafe;
    if LastOf(entries, |entries|, key) >= 0 {
      EntryIsSafe(node, redactText, s.seen, key);
    } else if key in BaseOf(node, redactText, s.seen) {
      BaseIsSafe(node, redactText, s.seen, key);
    } else {
      UndefinedIsSafe(node, redactText, Key(key));
    }
  }

  lemma UndefinedIsSafe(node: Node, redactText: string -> string, step: Step)
    ensures IsSafe(node, redactText, step, Undefined)
  {
  }

  lemma CopiedItemsAreSafe(g: Graph, redactText: string -> string, s: State, r: nat, index: nat)
    requires IsDone(g, redactText, s, r) && g[r].List?
    ensures IsSafe(g[r], redactText, At(index), NextCopy(s, Ref(s.seen[r]), At(index)))
  {
    hide Links;
  }

  /**
    No text stands in a finished copy without having been redacted,
    but an error's name under `name` and an empty stack under `stack`.
  */
  lemma {:induction false} CopiesAreSafe(g: Graph, redactText: string -> string, s: State, r: nat, step: Step)
    requires IsDone(g, redactText, s, r)
    ensures IsSafe(g[r], redactText, step, NextCopy(s, Ref(s.seen[r]), step))
  {
    hide Links, IsSafe;
    match step
    case Key(key) =>
      if g[r].List? {
        WrongStepFindsNothing(g, redactText, s, r, step);
        UndefinedIsSafe(g[r], redactText, step);
      } else {
        CopiedEntriesAreSafe(g, redactText, s, r, key);
      }
    case At(index) =>
      if g[r].List? {
        CopiedItemsAreSafe(g, redactText, s, r, index);
      } else {
        WrongStepFindsNothing(g, redactText, s, r, step);
        UndefinedIsSafe(g[r], redactText, step);
      }
  }

  lemma WrongStepFindsNothing(g: Graph, redactText: string -> string, s: State, r: nat, step: Step)
    requires IsDone(g, redactText, s, r) && g[r].List? == step.Key?
    ensures NextCopy(s, Ref(s.seen[r]), step) == Undefined
  {
    if !g[r].List? {
      ImageIsWritten(g[r], redactText, s.seen);
    }
    hide Links, Written;
  }

  // Exactly what is shown

  /** The copy shows the value: a text redacted, an object by its own copy, and anything else as it is. */
  ghost predicate Shows(s: State, redactText: string -> string, value: Value, shown: Value) {
    match value
    case Text(text) => shown == Text(redactText(text))
    case Ref(target) => target in s.seen && shown == Ref(s.seen[target])
    case _ => shown == value
  }

  /** What an error shows beside its own entries: its name as it is, and an empty or missing stack. */
  ghost predicate ShowsOfError(s: State, redactText: string -> string, node: Node, key: string, shown: Value)
    requires node.Error?
  {
    if key == "name" then shown == Text(node.name)
    else if key == "message" then shown == Text(redactText(node.message))
    else if key == "stack" then
      if node.stack.Text? && node.stack.text != "" then shown == Text(redactText(node.stack.text))
      else shown == node.stack
    else if key == "cause" then Shows(s, redactText, node.cause, shown)
    else shown == Undefined
  }

  lemma ImageShows(s: State, redactText: string -> string, value: Value)
    requires LinkTo(value) <= s.seen.Keys
    ensures Shows(s, redactText, value, Image(value, redactText, s.seen))
  {
  }

  lemma BaseShows(s: State, redactText: string -> string, node: Node, key: string)
    requires node.Error? && LinkTo(node.cause) <= s.seen.Keys
    ensures var base := BaseOf(node, redactText, s.seen);
            ShowsOfError(s, redactText, node, key, if key in base then base[key] else Undefined)
  {
  }

  /**
    A finished copy shows, of the last entry under a key, the value or "[REDACTED]", the latter under sensitive keys
    and under `params` of an error; what an error has beside its entries; each item of a list; and nothing else.
  */
  lemma {:induction false} CopiesShowExactly(g: Graph, redactText: string -> string, s: State, r: nat, step: Step)
    requires IsDone(g, redactText, s, r)
    ensures var node, shown := g[r], NextCopy(s, Ref(s.seen[r]), step);
            match step
            case At(index) =>
              if node.List? && index < |node.items| then Shows(s, redactText, node.items[index], shown)
              else shown == Undefined
            case Key(key) =>
              var last := LastOf(EntriesOf(node), |EntriesOf(node)|, key);
              if last >= 0 then
                if IsSensitive(key) || (node.Error? && key == "params") then shown == Text("[REDACTED]")
                else Shows(s, redactText, EntriesOf(node)[last].value, shown)
              else if node.Error? then ShowsOfError(s, redactText, node, key, shown)
              else shown == Undefined
  {
    var node, entries := g[r], EntriesOf(g[r]);
    match step
    case At(index) =>
      if node.List? {
        ItemsAreShown(g, redactText, s, r, index);
      } else {
        WrongStepFindsNothing(g, redactText, s, r, step);
      }
    case Key(key) =>
      if node.List? {
        WrongStepFindsNothing(g, redactText, s, r, step);
      } else {
        EntriesAreShown(g, redactText, s, r, key);
      }
  }

  lemma ItemsAreShown(g: Graph, redactText: string -> string, s: State, r: nat, index: nat)
    requires IsDone(g, redactText, s, r) && g[r].List?
    ensures var shown := NextCopy(s, Ref(s.seen[r]), At(index));
            if index < |g[r].items| then Shows(s, redactText, g[r].items[index], shown) else shown == Undefined
  {
    var items := g[r].items;
    if index < |items| {
      assert items[index].Ref? ==> items[index].target in ItemLinks(items, |items|);
      ImageShows(s, redactText, items[index]);
    }
    hide Image, Shows;
  }

  lemma EntriesAreShown(g: Graph, redactText: string -> string, s: State, r: nat, key: string)
    requires IsDone(g, redactText, s, r) && !g[r].List?
    ensures var node, shown := g[r], NextCopy(s, Ref(s.seen[r]), Key(key));
            var last := LastOf(EntriesOf(node), |EntriesOf(node)|, key);
            if last >= 0 then
              if IsSensitive(key) || (node.Error? && key == "params") then shown == Text("[REDACTED]")
              else Shows(s, redactText, EntriesOf(node)[last].value, shown)
            else if node.Error? then ShowsOfError(s, redactText, node, key, shown)
            else shown == Undefined
  {
    hide Shows, ShowsOfError, LinksOf, LastOf, Written, Image, IsSensitive, StackImage, ErrorBase, WithCause;
    var node, entries := g[r], EntriesOf(g[r]);
    ImageIsWritten(node, redactText, s.seen);
    WrittenAt(BaseOf(node, redactText, s.seen), node.Error?, entries, |entries|, redactText, s.seen, key);
    var last := LastOf(entries, |entries|, key);
    if last >= 0 {
      if !IsHidden(node.Error?, key) {
        KeyIsLink(node, last);
        ImageShows(s, redactText, entries[last].value);
      }
    } else if node.Error? {
      assert LinkTo(node.cause) <= Links(node);
      BaseShows(s, redactText, node, key);
    }
    hide ImageOf, BaseOf, Links;
  }

  /** The walk goes on to the objects under shown keys, in lists, and to an error's cause, and to no others. */
  lemma {:induction false} WalkFollowsWhatIsShown(node: Node, target: nat)
    ensures target in Links(node)
       <==> match node
            case Error(_, _, _, cause, entries) =>
              || cause == Ref(target)
              || exists k :: 0 <= k < |entries| && entries[k].value == Ref(target)
                   && !IsSensitive(entries[k].key) && entries[k].key != "params"
            case List(items) => Ref(target) in items
            case Record(entries) =>
              exists k :: 0 <= k < |entries| && entries[k].value == Ref(target) && !IsSensitive(entries[k].key)
  {
    hide IsSensitive;
  }
}

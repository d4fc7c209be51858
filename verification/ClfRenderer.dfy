/** The renderer of the description templates in clfExportTemplates.ts, and the compiler. */
module ClfRenderer {
  import opened ClfTokenizer
  import opened ClfTokens

  datatype Evaluated = Text(text: string) | Filled(text: string, dropped: bool)

  predicate IsDropped(e: seq<Evaluated>, k: int) {
    0 <= k < |e| && e[k].Filled? && e[k].dropped
  }

  predicate IsText(e: seq<Evaluated>, k: int) {
    0 <= k < |e| && e[k].Text?
  }

  /** What `\s` matches. */
  predicate IsSpace(c: char) {
    || '\t' <= c <= '\r' || c == ' ' || c == '\U{00A0}' || c == '\U{1680}' || '\U{2000}' <= c <= '\U{200A}'
    || c == '\U{2028}' || c == '\U{2029}' || c == '\U{202F}' || c == '\U{205F}' || c == '\U{3000}' || c == '\U{FEFF}'
  }

  predicate IsBlankText(text: string) {
    text != "" && forall k | 0 <= k < |text| :: IsSpace(text[k])
  }

  /** A run of dropped values from i to j, in which a literal may stand between two of them. */
  predicate IsRun(e: seq<Evaluated>, i: int, j: int) {
    && IsDropped(e, i) && i <= j && IsDropped(e, j)
    && forall m | i <= m < j :: IsDropped(e, m) || (IsText(e, m) && IsDropped(e, m + 1))
  }

  predicate FollowsLeadingRun(e: seq<Evaluated>, k: int) {
    IsText(e, k) && IsBlankText(e[k].text) && IsRun(e, 0, k - 1)
  }

  /**
    A literal is left out when a dropped value comes next, or
    when it is blank and follows a dropped run from the start.
  */
  predicate IsLeftOut(e: seq<Evaluated>, k: int) {
    IsText(e, k) && (IsDropped(e, k + 1) || FollowsLeadingRun(e, k))
  }

  function Part(e: seq<Evaluated>, k: int): string {
    if !(0 <= k < |e|) || IsDropped(e, k) || IsLeftOut(e, k) then "" else e[k].text
  }

  function Joined(parts: seq<string>): string {
    if parts == [] then "" else Joined(parts[..|parts| - 1]) + parts[|parts| - 1]
  }

  function Parts(e: seq<Evaluated>): (parts: seq<string>)
    ensures |parts| == |e| && forall k | 0 <= k < |e| :: parts[k] == Part(e, k)
  {
    seq(|e|, k requires 0 <= k < |e| => Part(e, k))
  }

  function Evaluate(tokens: seq<Token>): (e: seq<Evaluated>)
    ensures |e| == |tokens|
    decreases tokens, 0
  {
    if tokens == [] then []
    else
      var last := tokens[|tokens| - 1];
      Evaluate(tokens[..|tokens| - 1]) + [
        match last
        case Literal(text) => Text(text)
        case Value(text) => Filled(text, text == "")
        case Group(inner) =>
          var rendered := Render(inner);
          Filled(if rendered == "" then "" else "[" + rendered + "]", rendered == "")
      ]
  }

  function Render(tokens: seq<Token>): string
    decreases tokens, 1
  {
    Joined(Parts(Evaluate(tokens)))
  }

  /** What the scan has left out when it stands at i. */
  ghost predicate IsLeftOutBefore(e: seq<Evaluated>, k: int, i: int) {
    IsText(e, k) && ((k + 1 < i && IsDropped(e, k + 1)) || (k - 1 < i && FollowsLeadingRun(e, k)))
  }

  ghost predicate HasScanned(e: seq<Evaluated>, parts: seq<string>, i: int) {
    && |parts| == |e|
    && forall k | 0 <= k < |e| :: parts[k] == if IsDropped(e, k) || IsLeftOutBefore(e, k, i) then "" else e[k].text
  }

  ghost predicate RunEnds(e: seq<Evaluated>, j: int) {
    !IsDropped(e, j + 1) && !(IsText(e, j + 1) && IsDropped(e, j + 2))
  }

  method RunEnd(e: seq<Evaluated>, i: nat) returns (j: nat)
    requires IsDropped(e, i)
    ensures IsRun(e, i, j) && RunEnds(e, j)
  {
    j := i;
    while true
      invariant IsRun(e, i, j)
      decreases |e| - j
    {
      if IsDropped(e, j + 1) {
        j := j + 1;
        continue;
      }
      if IsText(e, j + 1) && IsDropped(e, j + 2) {
        j := j + 2;
        continue;
      }
      break;
    }
  }

  /** No dropped run from the start reaches token i or a later one. */
  ghost predicate IsPastLeadingRun(e: seq<Evaluated>, i: int) {
    forall m | i <= m :: !IsRun(e, 0, m)
  }

  /** Blanks the literals of i to j and the one the run takes with it. */
  method BlankRun(e: seq<Evaluated>, before: seq<string>, i: nat, j: nat) returns (parts: seq<string>)
    requires IsRun(e, i, j) && |before| == |e|
    ensures |parts| == |e|
    ensures forall n | 0 <= n < |e| ::
              parts[n] == if IsText(e, n) && (i - 1 <= n <= j || (i == 0 && n == j + 1 && IsBlankText(e[n].text)))
                  then "" else before[n]
  {
    hide IsBlankText;
    parts := before;
    for k := i to j + 1
      invariant |parts| == |e|
      invariant forall n | 0 <= n < |e| :: parts[n] == if i <= n < k && IsText(e, n) then "" else before[n]
    {
      if IsText(e, k) {
        parts := parts[k := ""];
      }
    }
    if i > 0 {
      if IsText(e, i - 1) {
        parts := parts[i - 1 := ""];
      }
    } else if IsText(e, j + 1) && IsBlankText(e[j + 1].text) {
      parts := parts[j + 1 := ""];
    }
  }

  /** The blanking scan over the evaluated tokens. */
  method Scan(e: seq<Evaluated>, unscanned: seq<string>) returns (parts: seq<string>)
    requires HasScanned(e, unscanned, 0)
    ensures parts == Parts(e)
  {
    hide HasScanned, IsPastLeadingRun, IsRun, RunEnds;
    parts := unscanned;
    var i := 0;
    while i < |e|
      invariant 0 <= i <= |e| && HasScanned(e, parts, i)
      invariant i > 0 ==> IsPastLeadingRun(e, i)
    {
      if !IsDropped(e, i) {
        KeptIsScanned(e, parts, i);
        i := i + 1;
        continue;
      }
      var j := RunEnd(e, i);
      RunIsInside(e, parts, i, j);
      ghost var before := parts;
      parts := BlankRun(e, parts, i, j);
      RunIsScanned(e, before, parts, i, j);
      i := j + 1;
    }
    AllIsScanned(e, parts);
  }

  lemma RunIsInside(e: seq<Evaluated>, parts: seq<string>, i: int, j: int)
    requires HasScanned(e, parts, i) && IsRun(e, i, j)
    ensures |parts| == |e| && 0 <= i <= j < |e|
  {
  }

  lemma KeptIsScanned(e: seq<Evaluated>, parts: seq<string>, i: nat)
    requires HasScanned(e, parts, i) && i < |e| && !IsDropped(e, i)
    requires i > 0 ==> IsPastLeadingRun(e, i)
    ensures HasScanned(e, parts, i + 1) && IsPastLeadingRun(e, i + 1)
  {
    hide IsBlankText;
    assert !IsRun(e, 0, i);
  }

  lemma AllIsScanned(e: seq<Evaluated>, parts: seq<string>)
    requires HasScanned(e, parts, |e|)
    ensures parts == Parts(e)
  {
    hide IsBlankText, IsRun;
    assert forall k | 0 <= k < |e| :: parts[k] == Part(e, k);
  }

  lemma LeadingRunIsOver(e: seq<Evaluated>, j: int, m: int)
    requires IsRun(e, 0, j) && RunEnds(e, j) && j < m
    ensures !IsRun(e, 0, m)
  {
    if j + 1 < m {
      assert !(IsDropped(e, j + 1) || (IsText(e, j + 1) && IsDropped(e, j + 2)));
    }
  }

  lemma {:induction false} RunIsScanned(e: seq<Evaluated>, before: seq<string>, after: seq<string>, i: int, j: int)
    requires HasScanned(e, before, i) && IsRun(e, i, j) && RunEnds(e, j) && 0 <= i
    requires i > 0 ==> IsPastLeadingRun(e, i)
    requires |after| == |e|
    requires forall n | 0 <= n < |e| ::
               after[n] == if IsText(e, n) && (i - 1 <= n <= j || (i == 0 && n == j + 1 && IsBlankText(e[n].text)))
                   then "" else before[n]
    ensures HasScanned(e, after, j + 1) && IsPastLeadingRun(e, j + 1)
  {
    hide IsBlankText;
    forall m | j + 1 <= m ensures !IsRun(e, 0, m) {
      if i == 0 {
        LeadingRunIsOver(e, j, m);
      }
    }
    assert i == 0 ==> IsRun(e, 0, j);
    forall k | 0 <= k < |e|
      ensures after[k] == if IsDropped(e, k) || IsLeftOutBefore(e, k, j + 1) then "" else e[k].text
    {
      assert i <= k < j ==> IsDropped(e, k) || (IsText(e, k) && IsDropped(e, k + 1));
      assert i > 0 ==> !IsRun(e, 0, k - 1) || k - 1 < i;
    }
  }

  method RenderTokens(tokens: seq<Token>) returns (rendered: string)
    ensures rendered == Render(tokens)
    decreases tokens, 1
  {
    var e := EvaluateTokens(tokens);
    var parts := seq(|e|, k requires 0 <= k < |e| => if e[k].Filled? && e[k].dropped then "" else e[k].text);
    parts := Scan(e, parts);
    rendered := "";
    for k := 0 to |parts|
      invariant rendered == Joined(parts[..k])
    {
      assert parts[..k + 1][..k] == parts[..k];
      rendered := rendered + parts[k];
    }
    assert parts[..|parts|] == parts;
  }

  method EvaluateTokens(tokens: seq<Token>) returns (e: seq<Evaluated>)
    ensures e == Evaluate(tokens)
    decreases tokens, 0
  {
    e := [];
    for n := 0 to |tokens|
      invariant e == Evaluate(tokens[..n])
    {
      assert tokens[..n + 1][..n] == tokens[..n];
      match tokens[n]
      case Literal(text) => e := e + [Text(text)];
      case Value(text) => e := e + [Filled(text, text == "")];
      case Group(inner) =>
        var rendered := RenderTokens(inner);
        e := e + [Filled(if rendered == "" then "" else "[" + rendered + "]", rendered == "")];
    }
    assert tokens[..|tokens|] == tokens;
  }

  method RenderTemplate(template: string, getValue: string -> string) returns (rendered: string)
    ensures rendered == Render(TemplateTokens(template, getValue, 0))
  {
    var tokens := TokenizeTemplate(template, getValue);
    rendered := RenderTokens(tokens);
  }

  // What is shown

  lemma {:induction false} JoinedJoins(a: seq<string>, b: seq<string>)
    ensures Joined(a + b) == Joined(a) + Joined(b)
  {
    if b == [] {
      assert a + b == a;
    } else {
      JoinedJoins(a, b[..|b| - 1]);
      assert (a + b)[..|a + b| - 1] == a + b[..|b| - 1];
    }
  }

  lemma JoinedLast(parts: seq<string>, part: string)
    ensures Joined(parts + [part]) == Joined(parts) + part
  {
  }

  lemma PartIsShown(before: seq<string>, part: string, after: seq<string>)
    ensures Joined(before + [part] + after) == Joined(before) + part + Joined(after)
  {
    hide Joined;
    JoinedJoins(before + [part], after);
    JoinedLast(before, part);
  }

  lemma AroundPart(parts: seq<string>, k: nat)
    requires k < |parts|
    ensures parts == parts[..k] + [parts[k]] + parts[k + 1..]
  {
  }

  /** Every value that is not dropped is shown, at its place among the others. */
  lemma {:induction false} KeptValueIsShown(tokens: seq<Token>, k: nat)
    requires k < |tokens|
    ensures var e := Evaluate(tokens);
            e[k].Filled? && !e[k].dropped ==>
              Render(tokens) == Joined(Parts(e)[..k]) + e[k].text + Joined(Parts(e)[k + 1..])
  {
    hide Joined, Evaluate, FollowsLeadingRun;
    var parts := Parts(Evaluate(tokens));
    AroundPart(parts, k);
    PartIsShown(parts[..k], parts[k], parts[k + 1..]);
  }

  // The compiler

  function Resolve(tokens: seq<Token>, getValue: string -> string): (resolved: seq<Token>)
    ensures |resolved| == |tokens| && forall k | 0 <= k < |tokens| :: resolved[k] == ResolveToken(tokens[k], getValue)
  {
    seq(|tokens|, k requires 0 <= k < |tokens| => ResolveToken(tokens[k], getValue))
  }

  function ResolveToken(token: Token, getValue: string -> string): Token {
    match token
    case Literal(text) => token
    case Value(key) => Value(getValue(key))
    case Group(tokens) => Group(Resolve(tokens, getValue))
  }

  function Compile(template: string): (string -> string) -> string {
    var tokens := TemplateTokens(template, Key, 0);
    (getValue: string -> string) => Render(Resolve(tokens, getValue))
  }

  lemma ResolveOfThree(a: seq<Token>, token: Token, b: seq<Token>, getValue: string -> string)
    ensures Resolve(a + [token] + b, getValue) == Resolve(a, getValue) + [ResolveToken(token, getValue)]
             + Resolve(b, getValue)
  {
    hide Resolve, ResolveToken;
  }

  lemma {:induction false} SegmentIsResolved(content: string, getValue: string -> string, from: nat)
    requires from <= |content|
    ensures Resolve(SegmentTokens(content, Key, from), getValue) == SegmentTokens(content, getValue, from)
    decreases |content| - from
  {
    hide MatchAt, NextMatch, InnerEnd, MatchesNowhere;
    match NextMatch(Variable, content, from)
    case None =>
      assert Resolve(LiteralOf(content[from..]), getValue) == LiteralOf(content[from..]);
    case Some(start) =>
      var end := MatchAt(Variable, content, start).value;
      var literal := content[from..start];
      assert Resolve(LiteralOf(literal), getValue) == LiteralOf(literal);
      SegmentTokensUnfolds(content, Key, from, start, end);
      SegmentTokensUnfolds(content, getValue, from, start, end);
      hide SegmentTokens, LiteralOf, Resolve;
      ResolveOfThree(LiteralOf(literal), Value(content[start + 1..end - 1]), SegmentTokens(content, Key, end),
          getValue);
      SegmentIsResolved(content, getValue, end);
  }

  lemma {:induction false} TemplateIsResolved(template: string, getValue: string -> string, from: nat)
    requires from <= |template|
    ensures Resolve(TemplateTokens(template, Key, from), getValue) == TemplateTokens(template, getValue, from)
    decreases |template| - from
  {
    hide MatchAt, NextMatch, InnerEnd, MatchesNowhere, SegmentTokens;
    match NextMatch(BracketGroup, template, from)
    case None =>
      SegmentIsResolved(template[from..], getValue, 0);
    case Some(start) =>
      var end := MatchAt(BracketGroup, template, start).value;
      var before, inner := template[from..start], template[start + 1..end - 1];
      TemplateTokensUnfolds(template, Key, from, start, end);
      TemplateTokensUnfolds(template, getValue, from, start, end);
      hide TemplateTokens, Resolve;
      SegmentIsResolved(before, getValue, 0);
      SegmentIsResolved(inner, getValue, 0);
      ResolveOfThree(SegmentTokens(before, Key, 0), Group(SegmentTokens(inner, Key, 0)),
          TemplateTokens(template, Key, end), getValue);
      TemplateIsResolved(template, getValue, end);
  }

  /** A compiled template gives what rendering it directly gives. */
  lemma {:induction false} CompiledRendersTheSame(template: string, getValue: string -> string)
    ensures Compile(template)(getValue) == Render(TemplateTokens(template, getValue, 0))
  {
    hide TemplateTokens, Resolve, Render;
    TemplateIsResolved(template, getValue, 0);
  }
}

/** The tokenizer of the description templates in clfExportTemplates.ts. */
module ClfTokenizer {
  import opened Options

  datatype Token = Literal(text: string) | Value(text: string) | Group(tokens: seq<Token>)

  // The two regular expressions: an opening character, a run of inner characters and a closing one

  datatype Pattern = Variable | BracketGroup
  {
    function Opening(): char {
      if Variable? then '{' else '['
    }

    function Closing(): char {
      if Variable? then '}' else ']'
    }

    predicate IsInner(c: char) {
      if Variable? then 'a' <= c <= 'z' || 'A' <= c <= 'Z' || '0' <= c <= '9' || c == '_' else c != '[' && c != ']'
    }

    function LeastInner(): nat {
      if Variable? then 1 else 0
    }
  }

  /** Where the run of inner characters from the given place ends. */
  function InnerEnd(p: Pattern, s: string, from: nat): (end: nat)
    requires from <= |s|
    ensures from <= end <= |s|
    ensures forall k | from <= k < end :: p.IsInner(s[k])
    ensures end < |s| ==> !p.IsInner(s[end])
    decreases |s| - from
  {
    if from < |s| && p.IsInner(s[from]) then InnerEnd(p, s, from + 1) else from
  }

  /** The end of the match at the given place, if there is one. */
  function MatchAt(p: Pattern, s: string, at: nat): (end: Option<nat>)
    ensures end.Some? ==> at + 2 <= end.value <= |s|
  {
    if at < |s| && s[at] == p.Opening() then
      var end := InnerEnd(p, s, at + 1);
      if end - (at + 1) >= p.LeastInner() && end < |s| && s[end] == p.Closing() then Some(end + 1) else None
    else None
  }

  ghost predicate MatchesNowhere(p: Pattern, s: string, from: nat, to: nat) {
    forall k: nat | from <= k < to :: MatchAt(p, s, k) == None
  }

  /** The start of the leftmost match from the given place on, as `matchAll` finds it. */
  function NextMatch(p: Pattern, s: string, from: nat): (start: Option<nat>)
    ensures start.Some? ==>
              && from <= start.value < |s| && MatchAt(p, s, start.value).Some?
              && MatchesNowhere(p, s, from, start.value)
    ensures start.None? ==> MatchesNowhere(p, s, from, |s|)
    decreases |s| - from
  {
    if from >= |s| then None
    else if MatchAt(p, s, from).Some? then Some(from)
    else NextMatch(p, s, from + 1)
  }

  // The tokenizer

  function LiteralOf(text: string): seq<Token> {
    if text == "" then [] else [Literal(text)]
  }

  function SegmentTokens(content: string, getValue: string -> string, from: nat): seq<Token>
    requires from <= |content|
    decreases |content| - from
  {
    match NextMatch(Variable, content, from)
    case None => LiteralOf(content[from..])
    case Some(start) =>
      var end := MatchAt(Variable, content, start).value;
      LiteralOf(content[from..start]) + [Value(getValue(content[start + 1..end - 1]))]
          + SegmentTokens(content, getValue, end)
  }

  function TemplateTokens(template: string, getValue: string -> string, from: nat): seq<Token>
    requires from <= |template|
    decreases |template| - from
  {
    match NextMatch(BracketGroup, template, from)
    case None => SegmentTokens(template[from..], getValue, 0)
    case Some(start) =>
      var end := MatchAt(BracketGroup, template, start).value;
      SegmentTokens(template[from..start], getValue, 0)
      + [Group(SegmentTokens(template[start + 1..end - 1], getValue, 0))]
      + TemplateTokens(template, getValue, end)
  }

  lemma SegmentTokensUnfolds(content: string, getValue: string -> string, from: nat, start: nat, end: nat)
    requires from <= |content| && NextMatch(Variable, content, from) == Some(start)
             && MatchAt(Variable, content, start) == Some(end)
    ensures SegmentTokens(content, getValue, from)
         == LiteralOf(content[from..start]) + [Value(getValue(content[start + 1..end - 1]))]
             + SegmentTokens(content, getValue, end)
  {
    hide MatchAt, NextMatch, InnerEnd, LiteralOf;
  }

  lemma TemplateTokensUnfolds(template: string, getValue: string -> string, from: nat, start: nat, end: nat)
    requires from <= |template| && NextMatch(BracketGroup, template, from) == Some(start)
             && MatchAt(BracketGroup, template, start) == Some(end)
    ensures TemplateTokens(template, getValue, from)
         == SegmentTokens(template[from..start], getValue, 0)
            + [Group(SegmentTokens(template[start + 1..end - 1], getValue, 0))]
            + TemplateTokens(template, getValue, end)
  {
    hide MatchAt, NextMatch, InnerEnd, SegmentTokens;
  }

  lemma LastTokens(text: string, getValue: string -> string)
    ensures NextMatch(Variable, text, |text|) == None && SegmentTokens(text, getValue, |text|) == []
    ensures NextMatch(BracketGroup, text, |text|) == None && TemplateTokens(text, getValue, |text|) == []
  {
  }

  lemma LastSegmentTokens(content: string, getValue: string -> string, from: nat)
    requires from <= |content| && NextMatch(Variable, content, from) == None
    ensures SegmentTokens(content, getValue, from) == LiteralOf(content[from..])
  {
  }

  lemma LiteralIsAdded(tokens: seq<Token>, text: string)
    ensures tokens + LiteralOf(text) == if text == "" then tokens else tokens + [Literal(text)]
  {
  }

  method TokenizeSegment(content: string, getValue: string -> string) returns (tokens: seq<Token>)
    ensures tokens == SegmentTokens(content, getValue, 0)
  {
    hide MatchAt, NextMatch, InnerEnd, MatchesNowhere, LiteralOf, SegmentTokens;
    tokens := [];
    var lastIndex := 0;
    var start := NextMatch(Variable, content, 0);
    while start.Some?
      invariant lastIndex <= |content| && start == NextMatch(Variable, content, lastIndex)
      invariant tokens + SegmentTokens(content, getValue, lastIndex) == SegmentTokens(content, getValue, 0)
      decreases |content| - lastIndex
    {
      var end := MatchAt(Variable, content, start.value).value;
      SegmentTokensUnfolds(content, getValue, lastIndex, start.value, end);
      ghost var earlier := tokens;
      if start.value > lastIndex {
        tokens := tokens + [Literal(content[lastIndex..start.value])];
      }
      LiteralIsAdded(earlier, content[lastIndex..start.value]);
      tokens := tokens + [Value(getValue(content[start.value + 1..end - 1]))];
      lastIndex := end;
      start := NextMatch(Variable, content, lastIndex);
    }
    LastSegmentTokens(content, getValue, lastIndex);
    LiteralIsAdded(tokens, content[lastIndex..]);
    if lastIndex < |content| {
      tokens := tokens + [Literal(content[lastIndex..])];
    }
  }

  method TokenizeTemplate(template: string, getValue: string -> string) returns (tokens: seq<Token>)
    ensures tokens == TemplateTokens(template, getValue, 0)
  {
    hide MatchAt, NextMatch, InnerEnd, MatchesNowhere, SegmentTokens;
    LastTokens("", getValue);
    tokens := [];
    var lastIndex := 0;
    var start := NextMatch(BracketGroup, template, 0);
    while start.Some?
      invariant lastIndex <= |template| && start == NextMatch(BracketGroup, template, lastIndex)
      invariant tokens + TemplateTokens(template, getValue, lastIndex) == TemplateTokens(template, getValue, 0)
      decreases |template| - lastIndex
    {
      hide TemplateTokens;
      var end := MatchAt(BracketGroup, template, start.value).value;
      TemplateTokensUnfolds(template, getValue, lastIndex, start.value, end);
      ghost var earlier := tokens;
      if start.value > lastIndex {
        var segment := TokenizeSegment(template[lastIndex..start.value], getValue);
        tokens := tokens + segment;
      }
      assert tokens == earlier + SegmentTokens(template[lastIndex..start.value], getValue, 0) by {
        assert start.value == lastIndex ==> template[lastIndex..start.value] == "";
      }
      var group := TokenizeSegment(template[start.value + 1..end - 1], getValue);
      tokens := tokens + [Group(group)];
      lastIndex := end;
      start := NextMatch(BracketGroup, template, lastIndex);
    }
    if lastIndex < |template| {
      var segment := TokenizeSegment(template[lastIndex..], getValue);
      tokens := tokens + segment;
    } else {
      assert template[lastIndex..] == "";
    }
  }
}

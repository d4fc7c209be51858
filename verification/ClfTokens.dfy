/** What the tokens of a description template are: lossless, well formed and complete. */
module ClfTokens {
  import opened Options
  import opened ClfTokenizer
  import Sequences

  // The matches are those of the regular expressions

  /** s[at..end] is an opening character, enough inner characters and a closing character. */
  ghost predicate IsMatch(p: Pattern, s: string, at: nat, end: nat) {
    && at + 2 + p.LeastInner() <= end <= |s|
    && s[at] == p.Opening() && s[end - 1] == p.Closing()
    && forall k | at < k < end - 1 :: p.IsInner(s[k])
  }

  lemma {:induction false} MatchAtFindsTheMatch(p: Pattern, s: string, at: nat, end: nat)
    ensures MatchAt(p, s, at) == Some(end) <==> IsMatch(p, s, at, end)
  {
    if IsMatch(p, s, at, end) {
      assert !p.IsInner(s[end - 1]);
    }
  }

  ghost predicate HasNoMatch(p: Pattern, s: string) {
    forall at: nat, end: nat :: !IsMatch(p, s, at, end)
  }

  lemma PartHasNoMatch(p: Pattern, s: string, a: nat, b: nat)
    requires a <= b <= |s| && (MatchesNowhere(p, s, a, b) || HasNoMatch(p, s))
    ensures HasNoMatch(p, s[a..b])
  {
    forall at: nat, end: nat ensures !IsMatch(p, s[a..b], at, end) {
      if IsMatch(p, s[a..b], at, end) {
        assert forall k | a + at < k < a + end - 1 :: p.IsInner(s[k]) by {
          forall k | a + at < k < a + end - 1 ensures p.IsInner(s[k]) { assert s[a..b][k - a] == s[k]; }
        }
        assert IsMatch(p, s, a + at, a + end);
        MatchAtFindsTheMatch(p, s, a + at, a + end);
      }
    }
  }

  // Printing

  function Key(key: string): string {
    key
  }

  function Print(tokens: seq<Token>): string {
    if tokens == [] then "" else PrintToken(tokens[0]) + Print(tokens[1..])
  }

  function PrintToken(token: Token): string {
    match token
    case Literal(text) => text
    case Value(key) => "{" + key + "}"
    case Group(tokens) => "[" + Print(tokens) + "]"
  }

  lemma PrintFirst(token: Token, tokens: seq<Token>)
    ensures Print([token] + tokens) == PrintToken(token) + Print(tokens)
  {
  }

  lemma {:induction false} PrintJoins(a: seq<Token>, b: seq<Token>)
    ensures Print(a + b) == Print(a) + Print(b)
  {
    if a == [] {
      assert a + b == b;
    } else {
      hide Print, PrintToken;
      PrintJoins(a[1..], b);
      PrintFirst(a[0], a[1..]);
      PrintFirst(a[0], a[1..] + b);
      Sequences.Associates(PrintToken(a[0]), Print(a[1..]), Print(b));
      assert a == [a[0]] + a[1..];
      assert a + b == [a[0]] + (a[1..] + b);
    }
  }

  lemma PrintOfOne(token: Token)
    ensures Print([token]) == PrintToken(token)
  {
  }

  lemma PrintOfThree(a: seq<Token>, token: Token, b: seq<Token>)
    ensures Print(a + [token] + b) == Print(a) + PrintToken(token) + Print(b)
  {
    hide Print;
    PrintJoins(a + [token], b);
    PrintJoins(a, [token]);
    PrintOfOne(token);
  }

  lemma {:induction false} SegmentIsLossless(content: string, from: nat)
    requires from <= |content|
    ensures Print(SegmentTokens(content, Key, from)) == content[from..]
    decreases |content| - from
  {
    hide MatchAt, NextMatch, InnerEnd, MatchesNowhere;
    match NextMatch(Variable, content, from)
    case None =>
      PrintOfLiteral(content[from..]);
    case Some(start) =>
      var end := MatchAt(Variable, content, start).value;
      MatchAtFindsTheMatch(Variable, content, start, end);
      SegmentTokensUnfolds(content, Key, from, start, end);
      hide SegmentTokens;
      hide Print;
      var key := content[start + 1..end - 1];
      PrintOfLiteral(content[from..start]);
      PrintOfThree(LiteralOf(content[from..start]), Value(key), SegmentTokens(content, Key, end));
      SegmentIsLossless(content, end);
      Delimited(content, from, start, end);
  }

  lemma PrintOfLiteral(text: string)
    ensures Print(LiteralOf(text)) == text
  {
  }

  lemma Delimited(s: string, from: nat, start: nat, end: nat)
    requires from <= start && start + 2 <= end <= |s|
    ensures s[from..] == s[from..start] + ([s[start]] + s[start + 1..end - 1] + [s[end - 1]]) + s[end..]
  {
  }

  lemma {:induction false} TemplateFromIsLossless(template: string, from: nat)
    requires from <= |template|
    ensures Print(TemplateTokens(template, Key, from)) == template[from..]
    decreases |template| - from
  {
    hide MatchAt, NextMatch, InnerEnd, MatchesNowhere, SegmentTokens;
    match NextMatch(BracketGroup, template, from)
    case None =>
      SegmentIsLossless(template[from..], 0);
    case Some(start) =>
      var end := MatchAt(BracketGroup, template, start).value;
      MatchAtFindsTheMatch(BracketGroup, template, start, end);
      TemplateTokensUnfolds(template, Key, from, start, end);
      hide TemplateTokens;
      hide Print;
      var before, inner := template[from..start], template[start + 1..end - 1];
      SegmentIsLossless(before, 0);
      SegmentIsLossless(inner, 0);
      PrintOfThree(SegmentTokens(before, Key, 0), Group(SegmentTokens(inner, Key, 0)),
          TemplateTokens(template, Key, end));
      TemplateFromIsLossless(template, end);
      Delimited(template, from, start, end);
  }

  /** Printing the key tokens gives the template back. */
  lemma {:induction false} TemplateIsLossless(template: string)
    ensures Print(TemplateTokens(template, Key, 0)) == template
  {
    TemplateFromIsLossless(template, 0);
  }

  // Well-formedness

  ghost predicate HasSeparateLiterals(tokens: seq<Token>) {
    && (forall k | 0 <= k < |tokens| :: tokens[k] != Literal(""))
    && forall k | 0 < k < |tokens| :: !(tokens[k - 1].Literal? && tokens[k].Literal?)
  }

  ghost predicate HasNoGroup(tokens: seq<Token>) {
    forall k | 0 <= k < |tokens| :: !tokens[k].Group?
  }

  /** Literals are neither empty nor adjacent, here and inside the groups, and no group holds a group. */
  ghost predicate IsWellFormed(tokens: seq<Token>) {
    && HasSeparateLiterals(tokens)
    && forall k | 0 <= k < |tokens| && tokens[k].Group? :: HasNoGroup(tokens[k].tokens)
        && HasSeparateLiterals(tokens[k].tokens)
  }

  lemma {:induction false} SegmentIsWellFormed(content: string, getValue: string -> string, from: nat)
    requires from <= |content|
    ensures HasNoGroup(SegmentTokens(content, getValue, from))
             && HasSeparateLiterals(SegmentTokens(content, getValue, from))
    decreases |content| - from
  {
    hide MatchAt, NextMatch, InnerEnd, MatchesNowhere;
    match NextMatch(Variable, content, from)
    case None =>
    case Some(start) =>
      var end := MatchAt(Variable, content, start).value;
      SegmentTokensUnfolds(content, getValue, from, start, end);
      hide SegmentTokens;
      SegmentIsWellFormed(content, getValue, end);
  }

  lemma {:induction false} TemplateIsWellFormed(template: string, getValue: string -> string, from: nat)
    requires from <= |template|
    ensures IsWellFormed(TemplateTokens(template, getValue, from))
    decreases |template| - from
  {
    hide MatchAt, NextMatch, InnerEnd, MatchesNowhere, SegmentTokens;
    match NextMatch(BracketGroup, template, from)
    case None =>
      SegmentIsWellFormed(template[from..], getValue, 0);
    case Some(start) =>
      var end := MatchAt(BracketGroup, template, start).value;
      TemplateTokensUnfolds(template, getValue, from, start, end);
      hide TemplateTokens;
      SegmentIsWellFormed(template[from..start], getValue, 0);
      SegmentIsWellFormed(template[start + 1..end - 1], getValue, 0);
      TemplateIsWellFormed(template, getValue, end);
  }

  // Completeness

  predicate IsKey(text: string) {
    text != "" && forall k | 0 <= k < |text| :: Variable.IsInner(text[k])
  }

  /** Every literal is free of variables, and every value is a key. */
  ghost predicate HasEveryVariable(tokens: seq<Token>) {
    forall k | 0 <= k < |tokens| ::
      && (tokens[k].Literal? ==> HasNoMatch(Variable, tokens[k].text))
      && (tokens[k].Value? ==> IsKey(tokens[k].text))
  }

  lemma {:induction false} SegmentIsComplete(content: string, from: nat)
    requires from <= |content|
    ensures HasEveryVariable(SegmentTokens(content, Key, from))
    decreases |content| - from
  {
    hide MatchAt, NextMatch, InnerEnd, MatchesNowhere, HasNoMatch;
    match NextMatch(Variable, content, from)
    case None =>
      PartHasNoMatch(Variable, content, from, |content|);
      assert content[from..|content|] == content[from..];
    case Some(start) =>
      var end := MatchAt(Variable, content, start).value;
      SegmentTokensUnfolds(content, Key, from, start, end);
      hide SegmentTokens;
      PartHasNoMatch(Variable, content, from, start);
      MatchAtFindsTheMatch(Variable, content, start, end);
      SegmentIsComplete(content, end);
  }

  /**
    No group is overlooked in tokens i to j, and what the groups hold is bracket-free text with every variable found.
  */
  ghost predicate HasEveryGroup(tokens: seq<Token>) {
    && (forall i: nat, j: nat | i <= j <= |tokens| && HasNoGroup(tokens[i..j]) ::
        HasNoMatch(BracketGroup, Print(tokens[i..j])))
    && forall k | 0 <= k < |tokens| && tokens[k].Group? :: HasNoBracket(Print(tokens[k].tokens))
        && HasEveryVariable(tokens[k].tokens)
  }

  ghost predicate HasNoBracket(text: string) {
    forall k | 0 <= k < |text| :: text[k] != '[' && text[k] != ']'
  }

  lemma PrintOfPart(tokens: seq<Token>, i: nat, j: nat)
    requires i <= j <= |tokens|
    ensures exists a: nat, b: nat :: a <= b <= |Print(tokens)| && Print(tokens[i..j]) == Print(tokens)[a..b]
  {
    hide Print;
    PrintJoins(tokens[..i], tokens[i..j]);
    PrintJoins(tokens[..j], tokens[j..]);
    assert tokens[..i] + tokens[i..j] == tokens[..j];
    assert tokens[..j] + tokens[j..] == tokens;
    var a := |Print(tokens[..i])|;
    var b := |Print(tokens[..j])|;
    assert Print(tokens[i..j]) == Print(tokens)[a..b];
  }

  lemma SegmentHasNoGroupInPart(content: string, i: nat, j: nat)
    requires HasNoMatch(BracketGroup, content)
    requires i <= j <= |SegmentTokens(content, Key, 0)|
    ensures HasNoMatch(BracketGroup, Print(SegmentTokens(content, Key, 0)[i..j]))
  {
    hide SegmentTokens, Print, HasNoMatch;
    var tokens := SegmentTokens(content, Key, 0);
    SegmentIsLossless(content, 0);
    PrintOfPart(tokens, i, j);
    var a: nat, b: nat :| a <= b <= |Print(tokens)| && Print(tokens[i..j]) == Print(tokens)[a..b];
    PartHasNoMatch(BracketGroup, content, a, b);
  }

  lemma GroupIsSeen(tokens: seq<Token>, i: nat, j: nat, k: nat)
    requires i <= k < j <= |tokens| && tokens[k].Group?
    ensures !HasNoGroup(tokens[i..j])
  {
    assert tokens[i..j][k - i] == tokens[k];
  }

  lemma PartsOfThree(a: seq<Token>, group: Token, b: seq<Token>, i: nat, j: nat)
    requires group.Group? && i <= j <= |a| + 1 + |b| && HasNoGroup((a + [group] + b)[i..j])
    requires forall m: nat, n: nat | m <= n <= |a| && HasNoGroup(a[m..n]) :: HasNoMatch(BracketGroup, Print(a[m..n]))
    requires forall m: nat, n: nat | m <= n <= |b| && HasNoGroup(b[m..n]) :: HasNoMatch(BracketGroup, Print(b[m..n]))
    ensures HasNoMatch(BracketGroup, Print((a + [group] + b)[i..j]))
  {
    hide Print, HasNoMatch;
    var all := a + [group] + b;
    if j <= |a| {
      assert all[i..j] == a[i..j];
    } else if i > |a| {
      assert all[i..j] == b[i - |a| - 1..j - |a| - 1];
    } else {
      GroupIsSeen(all, i, j, |a|);
    }
  }

  lemma {:induction false} TemplateFromIsComplete(template: string, from: nat)
    requires from <= |template|
    ensures HasEveryGroup(TemplateTokens(template, Key, from)) && HasEveryVariable(TemplateTokens(template, Key, from))
    decreases |template| - from
  {
    hide MatchAt, NextMatch, InnerEnd, MatchesNowhere, SegmentTokens, Print, HasNoMatch;
    match NextMatch(BracketGroup, template, from)
    case None =>
      var content := template[from..];
      assert template[from..|template|] == content;
      PartHasNoMatch(BracketGroup, template, from, |template|);
      SegmentIsComplete(content, 0);
      SegmentIsWellFormed(content, Key, 0);
      forall i: nat, j: nat | i <= j <= |SegmentTokens(content, Key, 0)|
        ensures HasNoMatch(BracketGroup, Print(SegmentTokens(content, Key, 0)[i..j]))
      {
        SegmentHasNoGroupInPart(content, i, j);
      }
    case Some(start) =>
      var end := MatchAt(BracketGroup, template, start).value;
      MatchAtFindsTheMatch(BracketGroup, template, start, end);
      TemplateTokensUnfolds(template, Key, from, start, end);
      hide TemplateTokens;
      var before, inner := template[from..start], template[start + 1..end - 1];
      PartHasNoMatch(BracketGroup, template, from, start);
      SegmentIsComplete(before, 0);
      SegmentIsComplete(inner, 0);
      SegmentIsLossless(inner, 0);
      SegmentIsWellFormed(before, Key, 0);
      TemplateFromIsComplete(template, end);
      var a, group, b := SegmentTokens(before, Key, 0), Group(SegmentTokens(inner, Key, 0)),
          TemplateTokens(template, Key, end);
      forall i: nat, j: nat | i <= j <= |a| ensures HasNoMatch(BracketGroup, Print(a[i..j])) {
        SegmentHasNoGroupInPart(before, i, j);
      }
      forall i: nat, j: nat | i <= j <= |a| + 1 + |b| && HasNoGroup((a + [group] + b)[i..j])
        ensures HasNoMatch(BracketGroup, Print((a + [group] + b)[i..j]))
      {
        PartsOfThree(a, group, b, i, j);
      }
  }

  /** Every variable and every group of the template is a token: what is left between them holds none. */
  lemma {:induction false} TemplateIsComplete(template: string)
    ensures HasEveryGroup(TemplateTokens(template, Key, 0)) && HasEveryVariable(TemplateTokens(template, Key, 0))
  {
    TemplateFromIsComplete(template, 0);
  }
}

/** What a template shows, token by token, and what the tokenizer takes for a variable or a group. */
module ClfShown {
  import opened Options
  import opened ClfTokenizer
  import opened ClfTokens
  import opened ClfRenderer

  // Tokens

  /** A value without text is gone, and so is a group of which nothing is shown. */
  predicate IsGone(tokens: seq<Token>, k: int) {
    0 <= k < |tokens| && match tokens[k]
                         case Literal(_) => false
                         case Value(text) => text == ""
                         case Group(inner) => Render(inner) == ""
  }

  /** Spaces, tabs, line ends and the other blanks of Unicode, and at least one of them. */
  predicate IsBlank(text: string) {
    text != "" && forall k | 0 <= k < |text| ::
      var code := text[k] as int;
      || 9 <= code <= 13 || code == 32 || code == 160 || code == 5760 || 8192 <= code <= 8202 || code == 8232
      || code == 8233 || code == 8239 || code == 8287 || code == 12288 || code == 65279
  }

  /** Up to that token all are gone, but for literals before one that is. */
  ghost predicate IsGoneUpTo(tokens: seq<Token>, k: int) {
    && IsGone(tokens, 0) && IsGone(tokens, k)
    && forall m | 0 <= m < k :: IsGone(tokens, m) || (tokens[m].Literal? && IsGone(tokens, m + 1))
  }

  /** The text of a value, a group between brackets, and a literal but where what it separates is gone. */
  ghost function Shown(tokens: seq<Token>, k: nat): string
    requires k < |tokens|
  {
    match tokens[k]
    case Value(text) => text
    case Group(inner) => if Render(inner) == "" then "" else "[" + Render(inner) + "]"
    case Literal(text) =>
      if IsGone(tokens, k + 1) || (IsBlank(text) && IsGoneUpTo(tokens, k - 1)) then "" else text
  }

  ghost function ShownUpTo(tokens: seq<Token>, n: nat): string
    requires n <= |tokens|
  {
    if n == 0 then "" else ShownUpTo(tokens, n - 1) + Shown(tokens, n - 1)
  }

  lemma {:induction false} EvaluatedAt(tokens: seq<Token>, k: nat)
    requires k < |tokens|
    ensures var e := Evaluate(tokens)[k];
            && (e.Filled? && e.dropped <==> IsGone(tokens, k)) && (e.Text? <==> tokens[k].Literal?)
            && e.text == match tokens[k]
                         case Literal(text) => text
                         case Value(text) => text
                         case Group(inner) => if Render(inner) == "" then "" else "[" + Render(inner) + "]"
    decreases |tokens|
  {
    hide Render;
    if k < |tokens| - 1 {
      EvaluatedAt(tokens[..|tokens| - 1], k);
    }
  }

  lemma BlankIsBlank(text: string)
    ensures IsBlankText(text) <==> IsBlank(text)
  {
    assert forall k | 0 <= k < |text| :: IsSpace(text[k]) || true;
  }

  lemma GoneIsDropped(tokens: seq<Token>, k: int)
    ensures IsDropped(Evaluate(tokens), k) <==> IsGone(tokens, k)
    ensures IsText(Evaluate(tokens), k) <==> 0 <= k < |tokens| && tokens[k].Literal?
  {
    if 0 <= k < |tokens| {
      EvaluatedAt(tokens, k);
    }
    hide Evaluate, Render;
  }

  lemma GoneIsInside(tokens: seq<Token>, k: int)
    ensures IsGone(tokens, k) ==> 0 <= k < |tokens|
  {
  }

  lemma GoneIsRun(tokens: seq<Token>, k: int)
    ensures IsRun(Evaluate(tokens), 0, k) <==> IsGoneUpTo(tokens, k)
  {
    GoneIsInside(tokens, k);
    hide Evaluate, IsGone, IsDropped, IsText;
    forall m: int ensures IsDropped(Evaluate(tokens), m) <==> IsGone(tokens, m) { GoneIsDropped(tokens, m); }
    forall m: int ensures IsText(Evaluate(tokens), m) <==> 0 <= m < |tokens| && tokens[m].Literal? {
      GoneIsDropped(tokens, m);
    }
  }

  lemma ShownIsPart(tokens: seq<Token>, k: nat)
    requires k < |tokens|
    ensures Part(Evaluate(tokens), k) == Shown(tokens, k)
  {
    hide Evaluate, IsRun, IsGoneUpTo, IsBlank, IsBlankText, Render;
    EvaluatedAt(tokens, k);
    GoneIsDropped(tokens, k);
    GoneIsDropped(tokens, k + 1);
    GoneIsRun(tokens, k - 1);
    BlankIsBlank(Evaluate(tokens)[k].text);
  }

  lemma {:induction false} PartsAreShown(tokens: seq<Token>, n: nat)
    requires n <= |tokens|
    ensures Joined(Parts(Evaluate(tokens))[..n]) == ShownUpTo(tokens, n)
  {
    hide Evaluate, Part, Shown;
    if n > 0 {
      PartsAreShown(tokens, n - 1);
      ShownIsPart(tokens, n - 1);
      var parts := Parts(Evaluate(tokens));
      assert parts[..n][..n - 1] == parts[..n - 1];
    }
  }

  /** Rendering joins what is shown of each token, and shows nothing else. */
  lemma {:induction false} TokensAreShown(tokens: seq<Token>)
    ensures Render(tokens) == ShownUpTo(tokens, |tokens|)
  {
    hide Evaluate, ShownUpTo;
    var parts := Parts(Evaluate(tokens));
    PartsAreShown(tokens, |tokens|);
    assert parts[..|tokens|] == parts;
  }

  // Variables and groups

  predicate IsWordCharacter(c: char) {
    'a' <= c <= 'z' || 'A' <= c <= 'Z' || '0' <= c <= '9' || c == '_'
  }

  /** A variable is a name in braces, and a group whatever stands in brackets without any inside. */
  lemma {:induction false} MatchesAreSpelled(s: string, at: nat, end: nat)
    ensures MatchAt(Variable, s, at) == Some(end)
       <==> && at + 3 <= end <= |s| && s[at] == '{' && s[end - 1] == '}'
            && forall k | at < k < end - 1 :: IsWordCharacter(s[k])
    ensures MatchAt(BracketGroup, s, at) == Some(end)
       <==> && at + 2 <= end <= |s| && s[at] == '[' && s[end - 1] == ']'
            && forall k | at < k < end - 1 :: s[k] != '[' && s[k] != ']'
  {
    MatchAtFindsTheMatch(Variable, s, at, end);
    MatchAtFindsTheMatch(BracketGroup, s, at, end);
  }
}

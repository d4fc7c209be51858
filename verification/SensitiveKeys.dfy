/** Which property names logger.ts takes for sensitive. */
module SensitiveKeys {
  const FRAGMENTS: seq<string> :=
    ["password", "passphrase", "passcode", "passwd", "pwd", "email", "authorization", "cookie", "apikey", "token",
        "secret",
     "credential", "otp", "totp", "twofactor", "2fa", "mfa", "verification", "recovery", "backup", "authenticator",
         "privatekey",
     "p256dh", "csrf", "session", "pin"]

  const NAMES: set<string> := {"auth", "code"}

  predicate IsLetterOrDigit(c: char) {
    'a' <= c <= 'z' || 'A' <= c <= 'Z' || '0' <= c <= '9'
  }

  function ToLower(c: char): char {
    if 'A' <= c <= 'Z' then c - 'A' + 'a' else c
  }

  /** The key without anything but letters and digits, in small letters. */
  function Normalised(key: string): string {
    if key == "" then ""
    else
      var last := key[|key| - 1];
      Normalised(key[..|key| - 1]) + if IsLetterOrDigit(last) then [ToLower(last)] else ""
  }

  predicate StandsAt(text: string, fragment: string, k: nat) {
    k + |fragment| <= |text| && text[k..k + |fragment|] == fragment
  }

  predicate Includes(text: string, fragment: string) {
    exists k | 0 <= k <= |text| - |fragment| :: StandsAt(text, fragment, k)
  }

  predicate IsSensitive(key: string) {
    Normalised(key) in NAMES || exists n | 0 <= n < |FRAGMENTS| :: Includes(Normalised(key), FRAGMENTS[n])
  }

  lemma {:induction false} NormalisedJoins(a: string, b: string)
    ensures Normalised(a + b) == Normalised(a) + Normalised(b)
  {
    if b == "" {
      assert a + b == a;
    } else {
      NormalisedJoins(a, b[..|b| - 1]);
      assert (a + b)[..|a + b| - 1] == a + b[..|b| - 1];
    }
  }

  /**
    A key is sensitive wherever a fragment stands in it, in capitals or small letters and with any separators inside.
  */
  lemma {:induction false} FragmentAnywhereIsSensitive(before: string, spelled: string, after: string, n: nat)
    requires n < |FRAGMENTS| && Normalised(spelled) == FRAGMENTS[n]
    ensures IsSensitive(before + spelled + after)
  {
    hide Normalised;
    NormalisedJoins(before + spelled, after);
    NormalisedJoins(before, spelled);
    var text, k := Normalised(before + spelled + after), |Normalised(before)|;
    assert StandsAt(text, FRAGMENTS[n], k);
    assert Includes(text, FRAGMENTS[n]);
  }

  /** Separators and capitals make no difference. */
  lemma {:induction false} SpellingIsIgnored(key: string)
    ensures Normalised(Normalised(key)) == Normalised(key)
    ensures IsSensitive(Normalised(key)) == IsSensitive(key)
  {
    if key != "" {
      var front, last := key[..|key| - 1], key[|key| - 1];
      SpellingIsIgnored(front);
      var tail := if IsLetterOrDigit(last) then [ToLower(last)] else "";
      NormalisedJoins(Normalised(front), tail);
      assert Normalised(tail) == tail;
    }
  }

  // Exactly which keys

  /** At these places, in order, stand the letters and digits of the key; the text has them in small letters. */
  ghost predicate IsSpelledAt(key: string, text: string, places: seq<nat>) {
    && (forall j, k | 0 <= j < k < |places| :: places[j] < places[k])
    && (forall k: nat :: k in places <==>
          k < |key| && ('a' <= key[k] <= 'z' || 'A' <= key[k] <= 'Z' || '0' <= key[k] <= '9'))
    && |text| == |places|
    && forall k | 0 <= k < |places| :: places[k] < |key|
         && text[k] as int == if 'A' <= key[places[k]] <= 'Z' then key[places[k]] as int + 32 else key[places[k]] as int
  }

  lemma SpelledLast(key: string, text: string, places: seq<nat>, c: char)
    requires IsSpelledAt(key, text, places)
    ensures if IsLetterOrDigit(c) then IsSpelledAt(key + [c], text + [ToLower(c)], places + [|key|])
            else IsSpelledAt(key + [c], text, places)
  {
    assert forall k | 0 <= k < |places| :: places[k] in places;
  }

  lemma NormalisedLast(front: string, c: char)
    ensures Normalised(front + [c])
         == if IsLetterOrDigit(c) then Normalised(front) + [ToLower(c)] else Normalised(front)
  {
    assert (front + [c])[..|front|] == front;
  }

  lemma EmptyIsSpelled()
    ensures IsSpelledAt("", Normalised(""), [])
  {
  }

  lemma {:induction false} NormalisedIsSpelled(key: string) returns (places: seq<nat>)
    ensures IsSpelledAt(key, Normalised(key), places)
  {
    hide *;
    places := [];
    EmptyIsSpelled();
    if key != "" {
      var n := |key| - 1;
      var front, last := key[..n], key[n];
      places := NormalisedIsSpelled(front);
      SpelledLast(front, Normalised(front), places, last);
      NormalisedLast(front, last);
      assert front + [last] == key;
      places := if IsLetterOrDigit(last) then places + [n] else places;
    }
  }

  /** One of the fragments stands somewhere in the text. */
  ghost predicate HoldsFragment(text: string) {
    exists n, before, after :: 0 <= n < |FRAGMENTS| && text == before + FRAGMENTS[n] + after
  }

  lemma IncludedStands(text: string, fragment: string)
    ensures Includes(text, fragment) <==> exists before, after :: text == before + fragment + after
  {
    if Includes(text, fragment) {
      var k :| 0 <= k <= |text| - |fragment| && StandsAt(text, fragment, k);
      assert text == text[..k] + fragment + text[k + |fragment|..];
    }
    if before, after :| text == before + fragment + after {
      assert StandsAt(text, fragment, |before|);
    }
  }

  /**
    A key is sensitive exactly if its letters and digits, in small letters, are "auth" or "code" or hold a fragment.
  */
  lemma {:induction false} KeysAreSensitiveExactly(key: string)
    ensures exists text, places ::
              && IsSpelledAt(key, text, places)
              && (IsSensitive(key) <==> text == "auth" || text == "code" || HoldsFragment(text))
  {
    var places := NormalisedIsSpelled(key);
    var text := Normalised(key);
    hide IsSpelledAt, Normalised, Includes;
    if n :| 0 <= n < |FRAGMENTS| && Includes(text, FRAGMENTS[n]) {
      IncludedStands(text, FRAGMENTS[n]);
    }
    if HoldsFragment(text) {
      var n, before, after :| 0 <= n < |FRAGMENTS| && text == before + FRAGMENTS[n] + after;
      IncludedStands(text, FRAGMENTS[n]);
    }
  }

  /** A key with at most two letters and digits is always shown. */
  lemma {:induction false} ShortKeysAreShown(key: string)
    requires |Normalised(key)| <= 2
    ensures !IsSensitive(key)
  {
    assert forall n | 0 <= n < |FRAGMENTS| :: |FRAGMENTS[n]| >= 3;
  }
}

/** The IPv6 compression of format.ts, on texts: sections 4.1 to 4.3 of RFC 5952. */
module Ipv6Text {
  import opened Options

  // Splitting and joining

  function Split(text: string): (parts: seq<string>)
    ensures parts != []
  {
    if text == "" then [""]
    else
      var front := Split(text[..|text| - 1]);
      var last := text[|text| - 1];
      if last == ':' then front + [""] else front[|front| - 1 := front[|front| - 1] + [last]]
  }

  function Join(parts: seq<string>): string {
    if parts == [] then "" else if |parts| == 1 then parts[0] else Join(parts[..|parts| - 1]) + ":" + parts[|parts| - 1]
  }

  // Hexadecimal numbers

  predicate IsHex(c: char) {
    '0' <= c <= '9' || 'a' <= c <= 'f' || 'A' <= c <= 'F'
  }

  function ValueOf(c: char): (n: nat)
    ensures n < 16
  {
    if '0' <= c <= '9' then c as int - '0' as int
    else if 'a' <= c <= 'f' then c as int - 'a' as int + 10
    else if 'A' <= c <= 'F' then c as int - 'A' as int + 10
    else 0
  }

  function DigitOf(n: nat): (c: char)
    requires n < 16
    ensures '0' <= c <= '9' || 'a' <= c <= 'f'
    ensures ValueOf(c) == n
  {
    "0123456789abcdef"[n]
  }

  function ParseHex(text: string): nat {
    if text == "" then 0 else 16 * ParseHex(text[..|text| - 1]) + ValueOf(text[|text| - 1])
  }

  function ToHex(n: nat): string {
    (if n < 16 then "" else ToHex(n / 16)) + [DigitOf(n % 16)]
  }

  // What the client does with an address

  predicate IsGroup(text: string) {
    1 <= |text| <= 4 && forall k | 0 <= k < |text| :: IsHex(text[k])
  }

  predicate IsExpandedIpv6(ip: string) {
    |Split(ip)| == 8 && forall k | 0 <= k < 8 :: IsGroup(Split(ip)[k])
  }

  function Normalised(ip: string): (groups: seq<string>)
    ensures |groups| == |Split(ip)| && forall k | 0 <= k < |groups| :: groups[k] == ToHex(ParseHex(Split(ip)[k]))
  {
    seq(|Split(ip)|, k requires 0 <= k < |Split(ip)| => ToHex(ParseHex(Split(ip)[k])))
  }

  /** Where the run of zero groups from the given place ends. */
  function ZerosEnd(groups: seq<string>, from: nat): (end: nat)
    requires from <= |groups|
    ensures from <= end <= |groups|
    ensures forall k | from <= k < end :: groups[k] == "0"
    ensures end < |groups| ==> groups[end] != "0"
    decreases |groups| - from
  {
    if from < |groups| && groups[from] == "0" then ZerosEnd(groups, from + 1) else from
  }

  datatype Elision = Elision(start: int, length: int)

  function ElisionBefore(groups: seq<string>, n: nat): Elision
    requires n <= |groups|
  {
    if n == 0 then Elision(-1, 1)
    else
      var best := ElisionBefore(groups, n - 1);
      var length := ZerosEnd(groups, n - 1) - (n - 1);
      if length > best.length then Elision(n - 1, length) else best
  }

  function Elided(groups: seq<string>): Elision {
    ElisionBefore(groups, |groups|)
  }

  function Shortened(groups: seq<string>): string {
    ElidedIsInside(groups);
    var run := Elided(groups);
    if run.start == -1 then Join(groups) else Join(groups[..run.start]) + "::" + Join(groups[run.start + run.length..])
  }

  method FindElision(groups: seq<string>) returns (runStart: int, runLength: int)
    ensures Elision(runStart, runLength) == Elided(groups)
  {
    runStart, runLength := -1, 1;
    for start := 0 to |groups|
      invariant Elision(runStart, runLength) == ElisionBefore(groups, start)
    {
      var end := start;
      while end < |groups| && groups[end] == "0"
        invariant start <= end <= |groups| && ZerosEnd(groups, end) == ZerosEnd(groups, start)
      {
        end := end + 1;
      }
      if end - start > runLength {
        runStart := start;
        runLength := end - start;
      }
    }
  }

  method CompressIpv6(ip: string) returns (compressed: string)
    ensures compressed == Shortened(Normalised(ip))
  {
    hide Normalised, Join, Elided;
    var groups := Normalised(ip);
    var runStart, runLength := FindElision(groups);
    ElidedIsInside(groups);
    if runStart == -1 {
      return Join(groups);
    }
    return Join(groups[..runStart]) + "::" + Join(groups[runStart + runLength..]);
  }

  function FormatIpAddress(ip: Option<string>): Option<string> {
    if ip == None || ip == Some("") then None
    else
      var formatted := if IsExpandedIpv6(ip.value) then Shortened(Normalised(ip.value)) else ip.value;
      if formatted == "::" || formatted == "0.0.0.0" then None else Some(formatted)
  }

  // The elided run

  ghost predicate AreZeros(groups: seq<string>, start: int, length: int) {
    0 <= start && 0 <= length && start + length <= |groups| && forall k | start <= k < start + length ::
        groups[k] == "0"
  }

  /** The first of the longest runs of at least two zero groups, or none where no two zero groups are neighbours. */
  ghost predicate IsFirstLongest(groups: seq<string>, run: Elision) {
    if run.start == -1 then
      run.length == 1 && forall start, length: nat | length >= 2 :: !AreZeros(groups, start, length)
    else
      && run.length >= 2 && AreZeros(groups, run.start, run.length)
      && forall start, length: nat | AreZeros(groups, start, length) :: length < run.length
          || (length == run.length && run.start <= start)
  }

  lemma ZerosEndLast(groups: seq<string>, start: int, length: nat)
    requires AreZeros(groups, start, length)
    ensures start + length <= ZerosEnd(groups, start)
  {
  }

  lemma {:induction false} ElisionBeforeIsFirstLongest(groups: seq<string>, n: nat, start: int, length: nat)
    requires n <= |groups|
    ensures var run := ElisionBefore(groups, n);
            && ((run.start == -1 && run.length == 1)
                || (0 <= run.start < n && run.length >= 2 && AreZeros(groups, run.start, run.length)))
            && (0 <= start < n && AreZeros(groups, start, length) ==>
                length < run.length || (length == run.length && run.start <= start))
  {
    if n > 0 {
      ElisionBeforeIsFirstLongest(groups, n - 1, start, length);
      if start == n - 1 && AreZeros(groups, start, length) {
        ZerosEndLast(groups, start, length);
      }
    }
  }

  lemma ElidedIsInside(groups: seq<string>)
    ensures var run := Elided(groups);
            || run.start == -1
            || (0 <= run.start && 2 <= run.length && run.start + run.length <= |groups|)
  {
    ElisionBeforeIsFirstLongest(groups, |groups|, 0, 0);
  }

  lemma {:induction false} ElidedIsFirstLongest(groups: seq<string>)
    ensures IsFirstLongest(groups, Elided(groups))
  {
    ElisionBeforeIsFirstLongest(groups, |groups|, 0, 0);
    forall start, length: nat | AreZeros(groups, start, length) && start < |groups|
      ensures length < Elided(groups).length || (length == Elided(groups).length && Elided(groups).start <= start)
    {
      ElisionBeforeIsFirstLongest(groups, |groups|, start, length);
    }
  }

  // Hexadecimal numbers, back and forth

  lemma {:induction false} HexIsParsed(n: nat)
    ensures ParseHex(ToHex(n)) == n
  {
    if n >= 16 {
      HexIsParsed(n / 16);
      assert ToHex(n)[..|ToHex(n)| - 1] == ToHex(n / 16);
    }
  }

  lemma DigitIsZero(n: nat)
    requires n < 16 && DigitOf(n) == '0'
    ensures n == 0
  {
    assert ValueOf('0') == 0;
  }

  lemma HexOfOne(n: nat)
    requires n < 16
    ensures ToHex(n) == [DigitOf(n)]
  {
  }

  /** Leading zeros are left out and letters are small. */
  lemma {:induction false} HexIsCanonical(n: nat)
    ensures ToHex(n) != "" && (ToHex(n)[0] == '0' ==> ToHex(n) == "0" && n == 0)
    ensures forall k | 0 <= k < |ToHex(n)| :: '0' <= ToHex(n)[k] <= '9' || 'a' <= ToHex(n)[k] <= 'f'
  {
    if n < 16 {
      HexOfOne(n);
      hide ToHex;
      if DigitOf(n) == '0' {
        DigitIsZero(n);
      }
    } else {
      HexIsCanonical(n / 16);
      assert ToHex(n) == ToHex(n / 16) + [DigitOf(n % 16)];
    }
  }

  // Expanding an address, as section 2.2 of RFC 4291 reads it

  /** The place of the first two colons in a row. */
  function FirstDouble(text: string, from: nat): (at: Option<nat>)
    ensures at.Some? ==>
              from <= at.value && at.value + 2 <= |text| && text[at.value] == ':' && text[at.value + 1] == ':'
    ensures forall k: nat | from <= k && k + 1 < |text| && (at.Some? ==> k < at.value) ::
             !(text[k] == ':' && text[k + 1] == ':')
    decreases |text| - from
  {
    if from + 1 >= |text| then None
    else if text[from] == ':' && text[from + 1] == ':' then Some(from)
    else FirstDouble(text, from + 1)
  }

  function GroupsOf(text: string): seq<string> {
    if text == "" then [] else Split(text)
  }

  function Zeros(n: int): (zeros: seq<string>)
    ensures |zeros| == (if n > 0 then n else 0) && forall k | 0 <= k < |zeros| :: zeros[k] == "0"
  {
    seq(if n > 0 then n else 0, _ => "0")
  }

  /** The groups with as many zeros between them as eight groups lack. */
  function Filled(before: seq<string>, after: seq<string>): seq<string> {
    before + Zeros(8 - |before| - |after|) + after
  }

  /** The eight groups of an address: two colons stand for as many zero groups as are missing. */
  function Expanded(text: string): seq<string> {
    match FirstDouble(text, 0)
    case None => GroupsOf(text)
    case Some(at) =>
      Filled(GroupsOf(text[..at]), GroupsOf(text[at + 2..]))
  }

  predicate HasNoColon(text: string) {
    forall k | 0 <= k < |text| :: text[k] != ':'
  }

  predicate ArePlainGroups(groups: seq<string>) {
    forall k | 0 <= k < |groups| :: groups[k] != "" && HasNoColon(groups[k])
  }

  /** The parts with more text at the end of the last one. */
  function WithTail(parts: seq<string>, tail: string): (r: seq<string>)
    requires parts != []
    ensures |r| == |parts|
  {
    parts[|parts| - 1 := parts[|parts| - 1] + tail]
  }

  lemma TailsJoin(parts: seq<string>, a: string, b: string)
    requires parts != []
    ensures WithTail(WithTail(parts, a), b) == WithTail(parts, a + b)
  {
    assert parts[|parts| - 1] + a + b == parts[|parts| - 1] + (a + b);
  }

  lemma NoTail(parts: seq<string>)
    requires parts != []
    ensures WithTail(parts, "") == parts
  {
    assert parts[|parts| - 1] + "" == parts[|parts| - 1];
  }

  lemma SplitAddsOne(text: string, c: char)
    requires c != ':'
    ensures Split(text + [c]) == WithTail(Split(text), [c])
  {
    assert (text + [c])[..|text|] == text;
  }

  lemma FrontHasNoColon(part: string)
    requires part != "" && HasNoColon(part)
    ensures HasNoColon(part[..|part| - 1]) && part[|part| - 1] != ':'
  {
  }

  lemma {:induction false} SplitAdds(text: string, part: string)
    requires HasNoColon(part)
    ensures Split(text + part) == WithTail(Split(text), part)
    decreases |part|
  {
    hide Split, HasNoColon, WithTail;
    if part == "" {
      NoTail(Split(text));
      assert text + part == text;
    } else {
      var shorter, last := part[..|part| - 1], part[|part| - 1];
      FrontHasNoColon(part);
      SplitAdds(text, shorter);
      SplitAddsOne(text + shorter, last);
      TailsJoin(Split(text), shorter, [last]);
      assert part == shorter + [last];
      assert text + part == text + shorter + [last];
    }
  }

  lemma SplitAtColon(text: string)
    ensures Split(text + ":") == Split(text) + [""]
  {
    assert (text + ":")[..|text|] == text;
  }

  lemma TailOfNothing(parts: seq<string>, tail: string)
    ensures WithTail(parts + [""], tail) == parts + [tail]
  {
    assert "" + tail == tail;
  }

  lemma {:induction false} JoinIsSplit(parts: seq<string>)
    requires parts != [] && forall k | 0 <= k < |parts| :: HasNoColon(parts[k])
    ensures Split(Join(parts)) == parts
  {
    var front, last := parts[..|parts| - 1], parts[|parts| - 1];
    TailOfNothing(front, last);
    if |parts| == 1 {
      assert Split("") == [""];
      SplitAdds("", last);
      assert "" + last == last;
    } else {
      hide Split, HasNoColon, WithTail;
      JoinIsSplit(front);
      SplitAtColon(Join(front));
      SplitAdds(Join(front) + ":", last);
      assert front + [last] == parts;
    }
  }

  /** Groups joined by single colons neither begin nor end with a colon, nor hold two in a row. */
  lemma {:induction false} JoinHasNoDouble(groups: seq<string>)
    requires ArePlainGroups(groups)
    ensures var text := Join(groups);
            && (groups == [] <==> text == "")
            && (text != "" ==> text[0] != ':' && text[|text| - 1] != ':')
            && forall k: nat | k + 1 < |text| :: !(text[k] == ':' && text[k + 1] == ':')
  {
    if |groups| > 1 {
      JoinHasNoDouble(groups[..|groups| - 1]);
    }
  }

  lemma GroupsAreRead(groups: seq<string>)
    requires ArePlainGroups(groups)
    ensures GroupsOf(Join(groups)) == groups
  {
    JoinHasNoDouble(groups);
    if groups != [] {
      JoinIsSplit(groups);
    }
  }

  /** The text holds no two colons in a row, and none is left open at its end. */
  ghost predicate HasNoDouble(text: string) {
    && (text != "" ==> text[|text| - 1] != ':')
    && forall k: nat | k + 1 < |text| :: !(text[k] == ':' && text[k + 1] == ':')
  }

  lemma DoubleIsFound(text: string, left: string, right: string)
    requires HasNoDouble(left) && text == left + "::" + right
    ensures FirstDouble(text, 0) == Some(|left|) && text[..|left|] == left && text[|left| + 2..] == right
  {
    hide FirstDouble;
    assert text[|left|] == ':' && text[|left| + 1] == ':';
    assert forall k: nat | k < |left| :: text[k] == left[k];
  }

  lemma ExpandedAt(text: string, left: string, right: string)
    requires FirstDouble(text, 0) == Some(|left|) && |left| + 2 <= |text|
    requires text[..|left|] == left && text[|left| + 2..] == right
    ensures Expanded(text) == Filled(GroupsOf(left), GroupsOf(right))
  {
    hide FirstDouble, GroupsOf, Filled;
  }

  lemma TextIsExpanded(text: string, left: string, right: string)
    requires HasNoDouble(left) && text == left + "::" + right
    ensures Expanded(text) == Filled(GroupsOf(left), GroupsOf(right))
  {
    hide HasNoDouble, FirstDouble, GroupsOf, Filled, Expanded;
    assert |left| + 2 <= |text|;
    DoubleIsFound(text, left, right);
    ExpandedAt(text, left, right);
  }

  lemma ElidedIsExpanded(before: seq<string>, after: seq<string>)
    requires ArePlainGroups(before) && ArePlainGroups(after)
    ensures Expanded(Join(before) + "::" + Join(after)) == Filled(before, after)
  {
    JoinHasNoDouble(before);
    assert HasNoDouble(Join(before));
    hide *;
    TextIsExpanded(Join(before) + "::" + Join(after), Join(before), Join(after));
    GroupsAreRead(before);
    GroupsAreRead(after);
  }

  lemma JoinedIsExpanded(groups: seq<string>)
    requires ArePlainGroups(groups)
    ensures Expanded(Join(groups)) == groups
  {
    JoinHasNoDouble(groups);
    GroupsAreRead(groups);
  }

  lemma NormalisedArePlain(ip: string)
    ensures ArePlainGroups(Normalised(ip))
  {
    forall k | 0 <= k < |Normalised(ip)| ensures Normalised(ip)[k] != "" && HasNoColon(Normalised(ip)[k]) {
      HexIsCanonical(ParseHex(Split(ip)[k]));
    }
  }

  /** Expanding the short form of eight groups gives the groups back. */
  lemma ShortenedIsExpanded(groups: seq<string>)
    requires |groups| == 8 && ArePlainGroups(groups)
    ensures Expanded(Shortened(groups)) == groups
  {
    hide Expanded, Join, ArePlainGroups, IsFirstLongest, Elided;
    var run := Elided(groups);
    if run.start == -1 {
      JoinedIsExpanded(groups);
    } else {
      ElidedAreZeros(groups);
      var before, after := groups[..run.start], groups[run.start + run.length..];
      PartsArePlain(groups, run.start, run.start + run.length);
      ElidedIsExpanded(before, after);
      ZerosBetween(groups, run.start, run.length);
    }
  }

  lemma ElidedAreZeros(groups: seq<string>)
    ensures var run := Elided(groups); run.start != -1 ==> AreZeros(groups, run.start, run.length)
  {
    ElisionBeforeIsFirstLongest(groups, |groups|, 0, 0);
  }

  lemma PartsArePlain(groups: seq<string>, m: nat, n: nat)
    requires ArePlainGroups(groups) && m <= n <= |groups|
    ensures ArePlainGroups(groups[..m]) && ArePlainGroups(groups[n..])
  {
    hide HasNoColon;
  }

  lemma ZerosBetween(groups: seq<string>, start: nat, length: nat)
    requires AreZeros(groups, start, length)
    ensures groups == groups[..start] + Zeros(length) + groups[start + length..]
  {
  }

  /** Expanding what CompressIpv6 gives yields the normalised groups, and with them the value of every group. */
  lemma {:induction false} CompressedIsExpanded(ip: string, k: nat)
    requires |Split(ip)| == 8 && k < 8
    ensures Expanded(Shortened(Normalised(ip))) == Normalised(ip)
    ensures ParseHex(Normalised(ip)[k]) == ParseHex(Split(ip)[k])
  {
    NormalisedArePlain(ip);
    ShortenedIsExpanded(Normalised(ip));
    HexIsParsed(ParseHex(Split(ip)[k]));
  }

  ghost predicate AreSameAddress(ip: string, other: string) {
    |Split(ip)| == |Split(other)| && forall k | 0 <= k < |Split(ip)| ::
        ParseHex(Split(ip)[k]) == ParseHex(Split(other)[k])
  }

  /** Two spellings have one short form exactly when they are one address. */
  lemma {:induction false} CompressedIsCanonical(ip: string, other: string)
    requires |Split(ip)| == 8 && |Split(other)| == 8
    ensures Shortened(Normalised(ip)) == Shortened(Normalised(other)) <==> AreSameAddress(ip, other)
  {
    CompressedIsExpanded(ip, 0);
    CompressedIsExpanded(other, 0);
    if AreSameAddress(ip, other) {
      assert Normalised(ip) == Normalised(other);
    } else {
      var k: nat :| k < 8 && ParseHex(Split(ip)[k]) != ParseHex(Split(other)[k]);
      CompressedIsExpanded(ip, k);
      CompressedIsExpanded(other, k);
    }
  }

  /** Nothing is shown for a missing address and for the unspecified one, however it is spelled. */
  lemma {:induction false} NothingIsShown(ip: Option<string>)
    ensures FormatIpAddress(ip) == None
       <==> || ip == None || ip == Some("") || ip == Some("::") || ip == Some("0.0.0.0")
            || (IsExpandedIpv6(ip.value) && forall k | 0 <= k < 8 :: ParseHex(Split(ip.value)[k]) == 0)
  {
    if ip.Some? && IsExpandedIpv6(ip.value) {
      ExpandedIsNoShortForm(ip.value);
      ZerosAreElided(ip.value);
    }
  }

  lemma ExpandedIsNoShortForm(ip: string)
    requires |Split(ip)| == 8
    ensures ip != "" && ip != "::" && ip != "0.0.0.0"
  {
    assert Split("") == [""];
    DottedIsOneGroup();
    SplitAtColon("");
    SplitAtColon(":");
    assert "" + ":" == ":" && ":" + ":" == "::";
  }

  lemma DottedIsOneGroup()
    ensures Split("0.0.0.0") == ["0.0.0.0"] && Expanded("0.0.0.0") == ["0.0.0.0"]
  {
    JoinIsSplit(["0.0.0.0"]);
    JoinedIsExpanded(["0.0.0.0"]);
  }

  lemma ZerosAreElided(ip: string)
    requires |Split(ip)| == 8
    ensures Shortened(Normalised(ip)) == "::" <==> forall k | 0 <= k < 8 :: ParseHex(Split(ip)[k]) == 0
    ensures Shortened(Normalised(ip)) != "0.0.0.0"
  {
    hide Expanded, Shortened, Split, Join, ParseHex, ToHex;
    var groups := Normalised(ip);
    CompressedIsExpanded(ip, 0);
    DottedIsOneGroup();
    DoubleColonIsExpanded();
    forall k: nat | k < 8 ensures groups[k] == "0" <==> ParseHex(Split(ip)[k]) == 0 {
      HexIsCanonical(ParseHex(Split(ip)[k]));
      HexIsParsed(ParseHex(Split(ip)[k]));
      HexIsCanonical(0);
      ZeroIsZero();
    }
    if forall k | 0 <= k < 8 :: ParseHex(Split(ip)[k]) == 0 {
      assert groups == Zeros(8);
      ZerosAreShort();
    }
  }

  lemma ZeroIsZero()
    ensures ToHex(0) == "0" && ParseHex("0") == 0
  {
    HexIsParsed(0);
  }

  lemma DoubleColonIsExpanded()
    ensures Expanded("::") == Zeros(8)
  {
    ElidedIsExpanded([], []);
    assert Join([]) + "::" + Join([]) == "::";
  }

  lemma ZerosAreShort()
    ensures Shortened(Zeros(8)) == "::"
  {
    hide Join, Elided;
    ElidedIsFirstLongest(Zeros(8));
    assert AreZeros(Zeros(8), 0, 8);
    var run := Elided(Zeros(8));
    assert run.start == 0 && run.length == 8;
    EmptyIsJoined();
    assert Zeros(8)[..0] == [] && Zeros(8)[8..] == [];
  }

  lemma EmptyIsJoined()
    ensures Join([]) == ""
  {
  }

  // What is shown

  /** Joining puts one colon between the parts. */
  lemma {:induction false} JoinJoins(a: seq<string>, b: seq<string>)
    requires a != [] && b != []
    ensures Join(a + b) == Join(a) + ":" + Join(b)
    ensures |a| == 1 ==> Join(a) == a[0]
  {
    var front := b[..|b| - 1];
    assert (a + b)[..|a + b| - 1] == a + front;
    if front == [] {
      assert a + front == a;
    } else {
      JoinJoins(a, front);
    }
  }

  lemma SplitOnce(text: string)
    requires text != ""
    ensures var front, last := Split(text[..|text| - 1]), text[|text| - 1];
            Split(text) == if last == ':' then front + [""] else WithTail(front, [last])
  {
  }

  lemma JoinWithTail(parts: seq<string>, tail: string)
    requires parts != []
    ensures Join(WithTail(parts, tail)) == Join(parts) + tail
  {
    assert WithTail(parts, tail)[..|parts| - 1] == parts[..|parts| - 1];
  }

  lemma JoinWithEmpty(parts: seq<string>)
    requires parts != []
    ensures Join(parts + [""]) == Join(parts) + ":"
  {
    assert (parts + [""])[..|parts|] == parts;
  }

  /** Splitting takes the text apart at its colons, and at all of them. */
  lemma {:induction false} SplitIsJoined(text: string)
    ensures Join(Split(text)) == text && forall k | 0 <= k < |Split(text)| :: ':' !in Split(text)[k]
  {
    if text == "" {
    } else {
      var front, last := text[..|text| - 1], text[|text| - 1];
      SplitIsJoined(front);
      SplitOnce(text);
      hide Split, Join;
      if last == ':' {
        JoinWithEmpty(Split(front));
      } else {
        JoinWithTail(Split(front), [last]);
      }
      assert text == front + [last];
    }
  }

  /** Each of the sixteen digits has its value, and every further digit multiplies by sixteen. */
  lemma {:induction false} DigitsHaveTheirValues(text: string, n: nat)
    requires n < 16
    ensures ParseHex("") == 0
    ensures ParseHex(text + ["0123456789abcdef"[n]]) == 16 * ParseHex(text) + n
    ensures ParseHex(text + ["0123456789ABCDEF"[n]]) == 16 * ParseHex(text) + n
  {
    var small, capital := "0123456789abcdef"[n], "0123456789ABCDEF"[n];
    assert (text + [small])[..|text|] == text && (text + [capital])[..|text|] == text;
    hide ParseHex;
    assert ValueOf(small) == n && ValueOf(capital) == n;
  }

  lemma OneFirstLongest(groups: seq<string>, run: Elision)
    requires IsFirstLongest(groups, run)
    ensures run == Elided(groups)
  {
    var own := Elided(groups);
    ElidedIsFirstLongest(groups);
    assert own.start != -1 ==> AreZeros(groups, own.start, own.length);
    assert run.start != -1 ==> AreZeros(groups, run.start, run.length);
    hide Elided, AreZeros;
  }

  /** Eight groups of up to four hexadecimal digits. */
  ghost predicate IsSpelledOut(ip: string) {
    |Split(ip)| == 8 && forall part | part in Split(ip) ::
      1 <= |part| <= 4 && forall c | c in part :: c in "0123456789abcdefABCDEF"
  }

  lemma HexDigits(c: char)
    ensures IsHex(c) <==> c in "0123456789abcdefABCDEF"
  {
  }

  lemma GroupIsSpelled(part: string)
    ensures IsGroup(part) <==> 1 <= |part| <= 4 && forall c | c in part :: c in "0123456789abcdefABCDEF"
  {
    forall k | 0 <= k < |part| ensures IsHex(part[k]) <==> part[k] in "0123456789abcdefABCDEF" {
      HexDigits(part[k]);
    }
    hide IsHex;
    assert forall k | 0 <= k < |part| :: part[k] in part;
  }

  lemma ExpandedIsSpelledOut(ip: string)
    ensures IsExpandedIpv6(ip) <==> IsSpelledOut(ip)
  {
    hide Split;
    forall part ensures IsGroup(part)
                   <==> 1 <= |part| <= 4 && forall c | c in part :: c in "0123456789abcdefABCDEF"
    {
      GroupIsSpelled(part);
    }
    hide IsGroup;
    assert forall k | 0 <= k < |Split(ip)| :: Split(ip)[k] in Split(ip);
  }

  lemma ShortFormIsExact(groups: seq<string>, run: Elision)
    requires IsFirstLongest(groups, run)
    ensures run.start == -1 || (0 <= run.start && 0 <= run.length && run.start + run.length <= |groups|)
    ensures Shortened(groups)
         == if run.start == -1 then Join(groups)
            else Join(groups[..run.start]) + "::" + Join(groups[run.start + run.length..])
  {
    hide Join, Elided, IsFirstLongest;
    OneFirstLongest(groups, run);
    ElidedIsInside(groups);
  }

  /**
    Of an address in eight groups the groups are shown in their shortest form, and two colons for the first longest run
    of zeros, if two stand together. Any other text is shown as it is, but for the spellings of no address.
  */
  lemma {:induction false} AddressIsShown(ip: string, run: Elision)
    requires ip != "" && IsFirstLongest(Normalised(ip), run)
    ensures run.start == -1 || (0 <= run.start && 0 <= run.length && run.start + run.length <= |Normalised(ip)|)
    ensures var groups := Normalised(ip);
            var shown := if !IsSpelledOut(ip) then ip
                         else if run.start == -1 then Join(groups)
                         else Join(groups[..run.start]) + "::" + Join(groups[run.start + run.length..]);
            FormatIpAddress(Some(ip)) == if shown == "::" || shown == "0.0.0.0" then None else Some(shown)
  {
    hide IsExpandedIpv6, IsSpelledOut, Normalised, Join, Elided, IsFirstLongest, Shortened;
    ExpandedIsSpelledOut(ip);
    ShortFormIsExact(Normalised(ip), run);
  }
}

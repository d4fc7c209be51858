/** Printing rows as CSV, and what the reader makes of the text. */
module CsvRoundTrip {
  import opened CsvReader

  datatype Field = Field(text: string, quoted: bool)

  /** A row with the end of its line: a line feed, with or without a carriage return before it. */
  datatype Line = Line(fields: seq<Field>, withReturn: bool)

  predicate IsSeparator(separator: string) {
    |separator| == 1 && separator[0] != QUOTE && separator[0] != '\r' && separator[0] != '\n'
  }

  /** A field may go without quotes when it starts with none and holds neither a separator nor a line feed. */
  predicate MayBePlain(text: string, separator: string) {
    && (text != "" ==> text[0] != QUOTE)
    && forall k | 0 <= k < |text| :: [text[k]] != separator && text[k] != '\n'
  }

  predicate IsPrintable(field: Field, separator: string) {
    field.quoted || MayBePlain(field.text, separator)
  }

  predicate ArePrintable(fields: seq<Field>, separator: string) {
    forall k | 0 <= k < |fields| :: IsPrintable(fields[k], separator)
  }

  function Escaped(text: string): string {
    if text == "" then "" else
      var last := text[|text| - 1];
      Escaped(text[..|text| - 1]) + if last == QUOTE then [QUOTE, QUOTE] else [last]
  }

  function PrintField(field: Field): string {
    if field.quoted then [QUOTE] + Escaped(field.text) + [QUOTE] else field.text
  }

  function PrintFields(fields: seq<Field>, separator: string): string {
    if fields == [] then ""
    else if |fields| == 1 then PrintField(fields[0])
    else PrintFields(fields[..|fields| - 1], separator) + separator + PrintField(fields[|fields| - 1])
  }

  function PrintLine(line: Line, separator: string): string {
    PrintFields(line.fields, separator) + if line.withReturn then "\r\n" else "\n"
  }

  function PrintLines(lines: seq<Line>, separator: string): string {
    if lines == [] then "" else PrintLines(lines[..|lines| - 1], separator) + PrintLine(lines[|lines| - 1], separator)
  }

  function Texts(fields: seq<Field>): (texts: seq<string>)
    ensures |texts| == |fields| && forall k | 0 <= k < |fields| :: texts[k] == fields[k].text
  {
    seq(|fields|, k requires 0 <= k < |fields| => fields[k].text)
  }

  /**
    The row the reader yields: a line of no field holds an empty one,
    and a bare line feed costs the last field a carriage return.
  */
  function RowOf(line: Line): seq<string> {
    if line.fields == [] then [""]
    else
      var texts := Texts(line.fields);
      var last := texts[|texts| - 1];
      texts[|texts| - 1 := if line.withReturn then last else AtLineEnd(last)]
  }

  function RowsOf(lines: seq<Line>): (rows: seq<seq<string>>)
    ensures |rows| == |lines| && forall k | 0 <= k < |lines| :: rows[k] == RowOf(lines[k])
  {
    seq(|lines|, k requires 0 <= k < |lines| => RowOf(lines[k]))
  }

  /** The reader has taken a whole field in: what comes next ends it. */
  ghost predicate HasRead(r: Reading, row: seq<string>, field: string, rows: seq<seq<string>>) {
    r.row == row && r.field == field && r.rows == rows && r.inQuotes == r.quoteSeen
  }

  lemma {:induction false} EscapedIsRead(r: Reading, text: string, separator: string)
    requires r.inQuotes && !r.quoteSeen
    ensures Read(r, Escaped(text), separator) == r.(field := r.field + text)
    decreases |text|
  {
    if text == "" {
      assert r.field + text == r.field;
    } else {
      var front, last := text[..|text| - 1], text[|text| - 1];
      EscapedIsRead(r, front, separator);
      var tail := if last == QUOTE then [QUOTE, QUOTE] else [last];
      ReadJoins(r, Escaped(front), tail, separator);
      TailIsRead(r.(field := r.field + front), last, separator);
      assert r.field + front + [last] == r.field + text;
    }
  }

  lemma TailIsRead(r: Reading, last: char, separator: string)
    requires r.inQuotes && !r.quoteSeen
    ensures Read(r, if last == QUOTE then [QUOTE, QUOTE] else [last], separator) == r.(field := r.field + [last])
  {
    ReadOne(r, last, separator);
    if last == QUOTE {
      ReadTwo(r, QUOTE, QUOTE, separator);
    }
  }

  lemma ReadOne(r: Reading, c: char, separator: string)
    ensures Read(r, [c], separator) == Step(r, c, separator)
  {
    assert Read(r, [c][..0], separator) == r;
  }

  lemma ReadTwo(r: Reading, c: char, d: char, separator: string)
    ensures Read(r, [c, d], separator) == Step(Step(r, c, separator), d, separator)
  {
    ReadOne(r, c, separator);
    assert [c, d][..1] == [c];
  }

  lemma QuotedIsRead(r: Reading, text: string, separator: string)
    requires r.field == "" && !r.inQuotes && !r.quoteSeen
    ensures HasRead(Read(r, [QUOTE] + Escaped(text) + [QUOTE], separator), r.row, text, r.rows)
  {
    hide Read;
    ReadJoins(r, [QUOTE] + Escaped(text), [QUOTE], separator);
    ReadJoins(r, [QUOTE], Escaped(text), separator);
    ReadOne(r, QUOTE, separator);
    var inside := r.(inQuotes := true);
    EscapedIsRead(inside, text, separator);
    assert inside.field + text == text;
    ReadOne(inside.(field := text), QUOTE, separator);
  }

  lemma {:induction false} PlainIsRead(r: Reading, text: string, separator: string)
    requires r.field == "" && !r.inQuotes && !r.quoteSeen && MayBePlain(text, separator)
    ensures Read(r, text, separator) == r.(field := text)
    decreases |text|
  {
    if text != "" {
      var front, last := text[..|text| - 1], text[|text| - 1];
      assert MayBePlain(front, separator);
      PlainIsRead(r, front, separator);
      assert front + [last] == text;
    }
  }

  lemma FieldIsRead(r: Reading, field: Field, separator: string)
    requires r.field == "" && !r.inQuotes && !r.quoteSeen && IsPrintable(field, separator)
    ensures HasRead(Read(r, PrintField(field), separator), r.row, field.text, r.rows)
  {
    hide Read, Escaped;
    if field.quoted {
      QuotedIsRead(r, field.text, separator);
    } else {
      PlainIsRead(r, field.text, separator);
    }
  }

  lemma SeparatorIsRead(r: Reading, row: seq<string>, field: string, rows: seq<seq<string>>, separator: string)
    requires HasRead(r, row, field, rows) && IsSeparator(separator)
    ensures Read(r, separator, separator) == Reading(row + [field], "", false, false, rows)
  {
    assert separator == [separator[0]];
    ReadOne(r, separator[0], separator);
  }

  lemma LineEndIsRead(r: Reading, row: seq<string>, field: string, rows: seq<seq<string>>, withReturn: bool,
        separator: string)
    requires HasRead(r, row, field, rows) && IsSeparator(separator)
    ensures Read(r, if withReturn then "\r\n" else "\n", separator)
         == Reading([], "", false, false, rows + [row + [if withReturn then field else AtLineEnd(field)]])
  {
    if withReturn {
      ReadTwo(r, '\r', '\n', separator);
      assert AtLineEnd(field + ['\r']) == field;
    } else {
      ReadOne(r, '\n', separator);
    }
  }

  lemma {:induction false} FieldsAreRead(r: Reading, fields: seq<Field>, separator: string)
    requires fields != [] && ArePrintable(fields, separator) && IsSeparator(separator)
    requires r.field == "" && !r.inQuotes && !r.quoteSeen && r.row == []
    ensures HasRead(Read(r, PrintFields(fields, separator), separator), Texts(fields[..|fields| - 1]),
             fields[|fields| - 1].text, r.rows)
    decreases |fields|
  {
    hide Read, PrintField, HasRead;
    var front, last := fields[..|fields| - 1], fields[|fields| - 1];
    if |fields| == 1 {
      FieldIsRead(r, last, separator);
      assert Texts(front) == r.row;
    } else {
      var printed := PrintFields(front, separator);
      FieldsAreRead(r, front, separator);
      var afterFront := Read(r, printed, separator);
      var row := Texts(front[..|front| - 1]);
      SeparatorIsRead(afterFront, row, front[|front| - 1].text, r.rows, separator);
      assert row + [front[|front| - 1].text] == Texts(front);
      ReadJoins(r, printed, separator, separator);
      FieldIsRead(Reading(Texts(front), "", false, false, r.rows), last, separator);
      ReadJoins(r, printed + separator, PrintField(last), separator);
    }
  }

  lemma LineIsRead(rows: seq<seq<string>>, line: Line, separator: string)
    requires ArePrintable(line.fields, separator) && IsSeparator(separator)
    ensures Read(Reading([], "", false, false, rows), PrintLine(line, separator), separator)
         == Reading([], "", false, false, rows + [RowOf(line)])
  {
    hide Read;
    var start, fields := Reading([], "", false, false, rows), line.fields;
    var end := if line.withReturn then "\r\n" else "\n";
    ReadJoins(start, PrintFields(fields, separator), end, separator);
    if fields == [] {
      ReadNothing(start, separator);
      LineEndIsRead(start, [], "", rows, line.withReturn, separator);
      assert [] + [""] == [""];
    } else {
      FieldsAreRead(start, fields, separator);
      var row, last := Texts(fields[..|fields| - 1]), fields[|fields| - 1].text;
      LineEndIsRead(Read(start, PrintFields(fields, separator), separator), row, last, rows, line.withReturn,
          separator);
      assert row + [if line.withReturn then last else AtLineEnd(last)] == RowOf(line);
    }
  }

  lemma ReadNothing(r: Reading, separator: string)
    ensures Read(r, "", separator) == r
  {
  }

  lemma {:induction false} LinesAreRead(lines: seq<Line>, separator: string)
    requires IsSeparator(separator) && forall k | 0 <= k < |lines| :: ArePrintable(lines[k].fields, separator)
    ensures Read(START, PrintLines(lines, separator), separator) == Reading([], "", false, false, RowsOf(lines))
    decreases |lines|
  {
    hide Read, RowOf, ArePrintable, PrintLine;
    if lines == [] {
      ReadNothing(START, separator);
    } else {
      var front, last := lines[..|lines| - 1], lines[|lines| - 1];
      LinesAreRead(front, separator);
      LineIsRead(RowsOf(front), last, separator);
      ReadJoins(START, PrintLines(front, separator), PrintLine(last, separator), separator);
      assert RowsOf(front) + [RowOf(last)] == RowsOf(lines);
    }
  }

  /** The rows of any printed text, with or without a last row that no line feed ends. */
  lemma {:induction false} PrintedIsParsed(lines: seq<Line>, last: seq<Field>, separator: string)
    requires IsSeparator(separator) && ArePrintable(last, separator)
    requires forall k | 0 <= k < |lines| :: ArePrintable(lines[k].fields, separator)
    ensures Parse(PrintLines(lines, separator) + PrintFields(last, separator), separator)
         == RowsOf(lines) + if last == [] || Texts(last) == [""] then [] else [Texts(last)]
  {
    hide Read, RowOf, ArePrintable, PrintLines;
    LinesAreRead(lines, separator);
    var start := Reading([], "", false, false, RowsOf(lines));
    ReadJoins(START, PrintLines(lines, separator), PrintFields(last, separator), separator);
    if last == [] {
      ReadNothing(start, separator);
    } else {
      FieldsAreRead(start, last, separator);
      assert Texts(last) == Texts(last[..|last| - 1]) + [last[|last| - 1].text];
      assert |last| == 1 ==> Texts(last) == [last[0].text];
    }
  }

  // When the rows come back as they were

  predicate EndsInReturn(text: string) {
    text != "" && text[|text| - 1] == '\r'
  }

  /** The row is not empty, and a bare line feed follows no carriage return of its last field. */
  predicate Survives(line: Line) {
    line.fields != [] && (line.withReturn || !EndsInReturn(line.fields[|line.fields| - 1].text))
  }

  lemma SurvivingLineIsKept(line: Line)
    ensures RowOf(line) == Texts(line.fields) <==> Survives(line)
  {
    if line.fields != [] {
      var k := |line.fields| - 1;
      assert RowOf(line)[k] == if line.withReturn then line.fields[k].text else AtLineEnd(line.fields[k].text);
      assert Survives(line) ==> RowOf(line) == Texts(line.fields);
    }
  }

  function TextsOf(lines: seq<Line>): (rows: seq<seq<string>>)
    ensures |rows| == |lines| && forall k | 0 <= k < |lines| :: rows[k] == Texts(lines[k].fields)
  {
    seq(|lines|, k requires 0 <= k < |lines| => Texts(lines[k].fields))
  }

  lemma {:induction false} RoundTripsExactly(lines: seq<Line>, last: seq<Field>, separator: string)
    requires IsSeparator(separator) && ArePrintable(last, separator) && last != []
    requires forall k | 0 <= k < |lines| :: ArePrintable(lines[k].fields, separator)
    ensures Parse(PrintLines(lines, separator), separator) == TextsOf(lines)
       <==> forall k | 0 <= k < |lines| :: Survives(lines[k])
    ensures Parse(PrintLines(lines, separator) + PrintFields(last, separator), separator) == TextsOf(lines)
             + [Texts(last)]
       <==> Texts(last) != [""] && forall k | 0 <= k < |lines| :: Survives(lines[k])
  {
    assert ArePrintable([], separator);
    hide RowOf, ArePrintable, PrintLines, Parse, Survives, Texts;
    PrintedIsParsed(lines, [], separator);
    PrintedIsParsed(lines, last, separator);
    assert PrintLines(lines, separator) + PrintFields([], separator) == PrintLines(lines, separator);
    forall k | 0 <= k < |lines| ensures RowsOf(lines)[k] == TextsOf(lines)[k] <==> Survives(lines[k]) {
      SurvivingLineIsKept(lines[k]);
    }
    SameRows(RowsOf(lines), TextsOf(lines), if Texts(last) == [""] then [] else [Texts(last)], [Texts(last)]);
  }

  /** A row that does not come back: one quoted field that ends in a carriage return, before a bare line feed. */
  lemma {:induction false} ReturnIsLost(separator: string)
    requires IsSeparator(separator)
    ensures PrintLines([Line([Field("a\r", true)], false)], separator) == "\"a\r\"\n"
    ensures Parse("\"a\r\"\n", separator) == [["a"]]
  {
    var line := Line([Field("a\r", true)], false);
    PrintedReturn(separator);
    RowOfReturn(line);
    PrintedIsParsed([line], [], separator);
    NothingIsPrinted(separator);
    hide Parse, PrintLines, PrintFields, RowOf;
    assert PrintLines([line], separator) + "" == PrintLines([line], separator);
    assert RowsOf([line]) == [["a"]];
    assert RowsOf([line]) + [] == RowsOf([line]);
  }

  lemma NothingIsPrinted(separator: string)
    ensures PrintFields([], separator) == "" && PrintLines([], separator) == ""
  {
  }

  lemma PrintedReturn(separator: string)
    ensures PrintLines([Line([Field("a\r", true)], false)], separator) == "\"a\r\"\n"
  {
    var line := Line([Field("a\r", true)], false);
    EscapedPlain();
    NothingIsPrinted(separator);
    assert [line][..0] == [];
  }

  lemma RowOfReturn(line: Line)
    requires line == Line([Field("a\r", true)], false)
    ensures RowOf(line) == ["a"]
  {
    assert AtLineEnd("a\r") == "a";
  }

  lemma EscapedPlain()
    ensures Escaped("a\r") == "a\r"
  {
    assert "a\r"[..1] == "a" && "a"[..0] == "";
    assert Escaped("a") == "a";
  }

  /** Nor does an unterminated row of one empty field. */
  lemma {:induction false} EmptyRowIsLost(separator: string)
    requires IsSeparator(separator)
    ensures PrintFields([Field("", true)], separator) == "\"\"" && Parse("\"\"", separator) == []
  {
    PrintedIsParsed([], [Field("", true)], separator);
    assert PrintLines([], separator) + "\"\"" == "\"\"";
    assert Texts([Field("", true)]) == [""];
    assert RowsOf([]) == [];
  }

  lemma SameRows(a: seq<seq<string>>, b: seq<seq<string>>, m: seq<seq<string>>, n: seq<seq<string>>)
    requires |a| == |b|
    ensures a + m == b + n <==> a == b && m == n
  {
    if a + m == b + n {
      assert a == (a + m)[..|a|] && b == (b + n)[..|a|];
      assert m == (a + m)[|a|..] && n == (b + n)[|a|..];
    }
  }

  // Quoting everything

  function AllQuoted(row: seq<string>): (line: Line)
    ensures |line.fields| == |row| && Texts(line.fields) == row && line.withReturn
    ensures forall k | 0 <= k < |row| :: line.fields[k].quoted
  {
    Line(seq(|row|, k requires 0 <= k < |row| => Field(row[k], true)), true)
  }

  function QuotedLines(rows: seq<seq<string>>): (lines: seq<Line>)
    ensures |lines| == |rows| && forall k | 0 <= k < |rows| :: lines[k] == AllQuoted(rows[k])
  {
    seq(|rows|, k requires 0 <= k < |rows| => AllQuoted(rows[k]))
  }

  /**
    Quoting every field and ending every row with CR LF loses
    nothing, whatever the fields hold and however the text is cut.
  */
  lemma {:induction false} QuotedRowsComeBack(rows: seq<seq<string>>, chunks: seq<string>, separator: string)
    requires IsSeparator(separator) && Whole(chunks) == PrintLines(QuotedLines(rows), separator)
    ensures Parse(Whole(chunks), separator) == rows <==> forall k | 0 <= k < |rows| :: rows[k] != []
  {
    hide Parse, Whole, PrintLines;
    var lines := QuotedLines(rows);
    assert TextsOf(lines) == rows;
    RoundTripsExactly(lines, [Field("", true)], separator);
    assert forall k | 0 <= k < |rows| :: Survives(lines[k]) <==> rows[k] != [];
  }

  // Loose quotes

  lemma {:induction false} TailIsKept(r: Reading, tail: string, separator: string)
    requires r.inQuotes && r.quoteSeen && tail != "" && MayBePlain(tail, separator)
    ensures Read(r, tail, separator) == r.(field := r.field + tail, inQuotes := false, quoteSeen := false)
    decreases |tail|
  {
    var front, last := tail[..|tail| - 1], tail[|tail| - 1];
    if front == "" {
      assert tail == [last];
      ReadOne(r, last, separator);
    } else {
      assert MayBePlain(front, separator);
      TailIsKept(r, front, separator);
      assert r.field + front + [last] == r.field + tail;
    }
  }

  lemma OpenQuoteIsRead(r: Reading, text: string, separator: string)
    requires r.field == "" && !r.inQuotes && !r.quoteSeen
    ensures Read(r, [QUOTE] + Escaped(text), separator) == r.(field := text, inQuotes := true)
  {
    hide Read;
    ReadJoins(r, [QUOTE], Escaped(text), separator);
    ReadOne(r, QUOTE, separator);
    EscapedIsRead(r.(inQuotes := true), text, separator);
    assert "" + text == text;
  }

  lemma LooseTailIsRead(r: Reading, text: string, tail: string, separator: string)
    requires r.field == "" && !r.inQuotes && !r.quoteSeen && tail != "" && MayBePlain(tail, separator)
    ensures Read(r, [QUOTE] + Escaped(text) + [QUOTE] + tail, separator) == r.(field := text + tail)
  {
    hide Read;
    OpenQuoteIsRead(r, text, separator);
    ReadJoins(r, [QUOTE] + Escaped(text), [QUOTE], separator);
    ReadOne(r.(field := text, inQuotes := true), QUOTE, separator);
    ReadJoins(r, [QUOTE] + Escaped(text) + [QUOTE], tail, separator);
    TailIsKept(r.(field := text, inQuotes := true, quoteSeen := true), tail, separator);
  }

  lemma LastFieldIsRow(lines: seq<Line>, text: string, field: string, separator: string)
    requires IsSeparator(separator) && forall k | 0 <= k < |lines| :: ArePrintable(lines[k].fields, separator)
    requires var r := Read(Reading([], "", false, false, RowsOf(lines)), text, separator);
             r.row == [] && r.field == field && r.rows == RowsOf(lines)
    ensures Parse(PrintLines(lines, separator) + text, separator)
         == RowsOf(lines) + if field == "" then [] else [[field]]
  {
    LinesAreRead(lines, separator);
    ReadJoins(START, PrintLines(lines, separator), text, separator);
    hide Read, ArePrintable, PrintLines, RowsOf;
    assert [] + [field] == [field];
  }

  /** Text that follows a closing quote belongs to the field. */
  lemma {:induction false} TailAfterQuotesIsKept(lines: seq<Line>, text: string, tail: string, separator: string)
    requires IsSeparator(separator) && forall k | 0 <= k < |lines| :: ArePrintable(lines[k].fields, separator)
    requires tail != "" && MayBePlain(tail, separator)
    ensures Parse(PrintLines(lines, separator) + ([QUOTE] + Escaped(text) + [QUOTE] + tail), separator)
         == RowsOf(lines) + [[text + tail]]
  {
    hide Read, RowsOf, ArePrintable, PrintLines, Escaped, Parse;
    LooseTailIsRead(Reading([], "", false, false, RowsOf(lines)), text, tail, separator);
    assert |text + tail| > 0;
    LastFieldIsRow(lines, [QUOTE] + Escaped(text) + [QUOTE] + tail, text + tail, separator);
  }

  /** A quote left open takes the rest of the text. */
  lemma {:induction false} OpenQuoteTakesTheRest(lines: seq<Line>, text: string, separator: string)
    requires IsSeparator(separator) && forall k | 0 <= k < |lines| :: ArePrintable(lines[k].fields, separator)
    ensures Parse(PrintLines(lines, separator) + ([QUOTE] + Escaped(text)), separator)
         == RowsOf(lines) + if text == "" then [] else [[text]]
  {
    hide Read, RowsOf, ArePrintable, PrintLines, Escaped, Parse;
    OpenQuoteIsRead(Reading([], "", false, false, RowsOf(lines)), text, separator);
    LastFieldIsRow(lines, [QUOTE] + Escaped(text), text, separator);
  }
}

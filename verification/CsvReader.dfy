/** The chunked CSV reader of csv.ts, from code points on. */
module CsvReader {
  /** What the reader holds between two characters, and the rows it has yielded. */
  datatype Reading = Reading(row: seq<string>, field: string, inQuotes: bool, quoteSeen: bool, rows: seq<seq<string>>)

  const START := Reading([], "", false, false, [])

  const QUOTE := '"'

  function Fresh(r: Reading): Reading {
    r.(inQuotes := false, quoteSeen := false)
  }

  /** A field as it stands at the end of a line: one carriage return before the line feed belongs to the line. */
  function AtLineEnd(field: string): string {
    if field != "" && field[|field| - 1] == '\r' then field[..|field| - 1] else field
  }

  function OutsideQuotes(r: Reading, c: char, separator: string): Reading {
    if c == QUOTE && r.field == "" then r.(inQuotes := true)
    else if [c] == separator then r.(row := r.row + [r.field], field := "")
    else if c == '\n' then r.(row := [], field := "", rows := r.rows + [r.row + [AtLineEnd(r.field)]])
    else r.(field := r.field + [c])
  }

  function Step(r: Reading, c: char, separator: string): Reading {
    if r.quoteSeen && c == QUOTE then r.(field := r.field + [QUOTE], quoteSeen := false)
    else if r.quoteSeen then OutsideQuotes(Fresh(r), c, separator)
    else if r.inQuotes && c == QUOTE then r.(quoteSeen := true)
    else if r.inQuotes then r.(field := r.field + [c])
    else OutsideQuotes(r, c, separator)
  }

  function Read(r: Reading, text: string, separator: string): Reading {
    if text == "" then r else Step(Read(r, text[..|text| - 1], separator), text[|text| - 1], separator)
  }

  /** The rows in all, with the unterminated last one. */
  function Rows(r: Reading): seq<seq<string>> {
    if r.field != "" || r.row != [] then r.rows + [r.row + [r.field]] else r.rows
  }

  function Parse(text: string, separator: string): seq<seq<string>> {
    Rows(Read(START, text, separator))
  }

  function Whole(chunks: seq<string>): string {
    if chunks == [] then "" else Whole(chunks[..|chunks| - 1]) + chunks[|chunks| - 1]
  }

  class Reader {
    const separator: string
    var row: seq<string>
    var field: string
    var inQuotes: bool
    var quoteSeen: bool

    constructor (separator: string)
      ensures this.separator == separator && Now([]) == START
    {
      this.separator := separator;
      row, field, inQuotes, quoteSeen := [], "", false, false;
    }

    function Now(rows: seq<seq<string>>): Reading
      reads this
    {
      Reading(row, field, inQuotes, quoteSeen, rows)
    }

    method Consume(text: string) returns (yielded: seq<seq<string>>)
      modifies this
      ensures forall rows :: Now(rows + yielded) == Read(old(Now(rows)), text, separator)
    {
      yielded := [];
      for n := 0 to |text|
        invariant Now(yielded) == Read(old(Now([])), text[..n], separator)
      {
        assert text[..n + 1][..n] == text[..n];
        var c := text[n];
        if quoteSeen {
          quoteSeen := false;
          if c == QUOTE {
            field := field + [QUOTE];
            continue;
          }
          inQuotes := false;
        }
        if inQuotes {
          if c == QUOTE {
            quoteSeen := true;
          } else {
            field := field + [c];
          }
        } else if c == QUOTE && field == "" {
          inQuotes := true;
        } else if [c] == separator {
          row := row + [field];
          field := "";
        } else if c == '\n' {
          row := row + [AtLineEnd(field)];
          yielded := yielded + [row];
          row := [];
          field := "";
        } else {
          field := field + [c];
        }
      }
      assert text[..|text|] == text;
      forall rows ensures Now(rows + yielded) == Read(old(Now(rows)), text, separator) {
        EarlierRowsStay(old(Now([])), text, separator, rows);
        assert rows + [] == rows;
      }
    }

    method ReadRows(chunks: seq<string>) returns (rows: seq<seq<string>>)
      requires Now([]) == START
      modifies this
      ensures rows == Parse(Whole(chunks), separator)
    {
      rows := [];
      for n := 0 to |chunks|
        invariant Now(rows) == Read(START, Whole(chunks[..n]), separator)
      {
        assert chunks[..n + 1][..n] == chunks[..n];
        ReadJoins(START, Whole(chunks[..n]), chunks[n], separator);
        var yielded := Consume(chunks[n]);
        rows := rows + yielded;
      }
      assert chunks[..|chunks|] == chunks;
      if field != "" || |row| > 0 {
        row := row + [field];
        rows := rows + [row];
      }
    }
  }

  lemma {:induction false} EarlierRowsStay(r: Reading, text: string, separator: string, earlier: seq<seq<string>>)
    ensures Read(r.(rows := earlier + r.rows), text, separator)
         == Read(r, text, separator).(rows := earlier + Read(r, text, separator).rows)
  {
    if text != "" {
      EarlierRowsStay(r, text[..|text| - 1], separator, earlier);
      var before := Read(r, text[..|text| - 1], separator);
      EarlierRowsStayInStep(before, text[|text| - 1], separator, earlier);
    }
  }

  lemma EarlierRowsStayInStep(r: Reading, c: char, separator: string, earlier: seq<seq<string>>)
    ensures Step(r.(rows := earlier + r.rows), c, separator)
             == Step(r, c, separator).(rows := earlier + Step(r, c, separator).rows)
  {
    hide AtLineEnd;
    assert forall row :: earlier + (r.rows + [row]) == (earlier + r.rows) + [row];
  }

  lemma {:induction false} ReadJoins(r: Reading, a: string, b: string, separator: string)
    ensures Read(r, a + b, separator) == Read(Read(r, a, separator), b, separator)
  {
    if b == "" {
      assert a + b == a;
    } else {
      ReadJoins(r, a, b[..|b| - 1], separator);
      assert (a + b)[..|a + b| - 1] == a + b[..|b| - 1];
    }
  }
}

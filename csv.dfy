/**
 * The order export's CSV text: data cells are quoted in the style of
 * section 2 of RFC 4180 (a null cell becomes an empty field, every other
 * cell is wrapped in double quotes with each embedded quote doubled), the
 * header row is joined without quoting, and rows are separated by "\n".
 * A row reader, the writer's inverse on non-empty rows, and a reader for the
 * whole text, its inverse when no header cell holds a comma or a line break
 * and no row is empty, complete the model.
 */
module Csv {
  import opened Domain

  /** Every double quote doubled, every other character kept (src/App.js:84). */
  function Escape(s: string): (r: string)
    ensures |r| >= |s|
  {
    if s == [] then [] else (if s[0] == '"' then "\"\"" else [s[0]]) + Escape(s[1..])
  }

  /** A missing value becomes the empty field, any other value its escaped text in double quotes (src/App.js:82-85); `None` stands for null or undefined. */
  function QuoteCell(cell: Option<string>): string
  {
    match cell
    case None => ""
    case Some(s) => "\"" + Escape(s) + "\""
  }

  /** The row writer: the quoted cells joined with commas (src/App.js:80-87). */
  function ProcessRow(row: seq<Option<string>>): string
  {
    if row == [] then ""
    else if |row| == 1 then QuoteCell(row[0])
    else QuoteCell(row[0]) + ("," + ProcessRow(row[1..]))
  }

  /** The header cells joined with commas and written as they are, neither quoted nor escaped (src/App.js:89). */
  function JoinHeader(header: seq<string>): string
  {
    if header == [] then ""
    else if |header| == 1 then header[0]
    else header[0] + ("," + JoinHeader(header[1..]))
  }

  function JoinLines(lines: seq<string>): string
  {
    if lines == [] then ""
    else if |lines| == 1 then lines[0]
    else lines[0] + ("\n" + JoinLines(lines[1..]))
  }

  function ProcessRows(rows: seq<seq<Option<string>>>): (lines: seq<string>)
    ensures |lines| == |rows| && forall i :: 0 <= i < |rows| ==> lines[i] == ProcessRow(rows[i])
  {
    if rows == [] then [] else [ProcessRow(rows[0])] + ProcessRows(rows[1..])
  }

  /** The whole export: the header line, then one line per data row. */
  function CsvText(header: seq<string>, rows: seq<seq<Option<string>>>): (text: string)
    ensures rows == [] ==> text == JoinHeader(header)
    ensures rows != [] ==> text == JoinHeader(header) + "\n" + JoinLines(ProcessRows(rows))
  {
    JoinLines([JoinHeader(header)] + ProcessRows(rows))
  }

  // ---------------------------------------------------------------- reading a row back

  /**
   * Reads the inside of a quoted field: `""` stands for one quote and a lone
   * quote ends the field. Gives the field's text and what follows the
   * closing quote.
   */
  function ParseQuoted(s: string): (r: Option<(string, string)>)
    ensures r.Some? ==> |r.value.1| < |s|
  {
    if s == [] then None
    else if s[0] == '"' then
      if |s| >= 2 && s[1] == '"' then
        match ParseQuoted(s[2..])
        case None => None
        case Some((text, rest)) => Some(("\"" + text, rest))
      else Some(("", s[1..]))
    else
      match ParseQuoted(s[1..])
      case None => None
      case Some((text, rest)) => Some(([s[0]] + text, rest))
  }

  /** One field: quoted, or empty (a null cell). */
  function ParseCell(s: string): (r: Option<(Option<string>, string)>)
    ensures r.Some? ==> |r.value.1| <= |s|
  {
    if s != [] && s[0] == '"' then
      match ParseQuoted(s[1..])
      case None => None
      case Some((text, rest)) => Some((Some(text), rest))
    else Some((None, s))
  }

  /**
   * One row: fields separated by ",", up to the end of the text or the first
   * line break outside quotes. Gives the cells and what follows them, from
   * that line break on.
   */
  function ParseRow(s: string): (r: Option<(seq<Option<string>>, string)>)
    ensures r.Some? ==> |r.value.1| <= |s| && (r.value.1 == [] || r.value.1[0] == '\n')
    decreases |s|
  {
    match ParseCell(s)
    case None => None
    case Some((cell, rest)) =>
      if rest == [] || rest[0] == '\n' then Some(([cell], rest))
      else if rest[0] != ',' then None
      else
        match ParseRow(rest[1..])
        case None => None
        case Some((cells, tail)) => Some(([cell] + cells, tail))
  }

  /** An escaped text followed by a closing quote (not itself doubled) reads back as the text. */
  lemma {:induction false} ParseEscaped(s: string, rest: string)
    requires rest != [] && rest[0] == '"' && (|rest| == 1 || rest[1] != '"')
    ensures ParseQuoted(Escape(s) + rest) == Some((s, rest[1..]))
  {
    if s == [] {
      assert Escape(s) + rest == rest;
    } else {
      ParseEscaped(s[1..], rest);
      ParseEscapedStep(s, rest);
    }
  }

  /** One character more in front of the text: a quote is read back from its doubled form, any other character as itself. */
  lemma ParseEscapedStep(s: string, rest: string)
    requires s != [] && rest != []
    requires ParseQuoted(Escape(s[1..]) + rest) == Some((s[1..], rest[1..]))
    ensures ParseQuoted(Escape(s) + rest) == Some((s, rest[1..]))
  {
    EscapeAppend(s, rest);
    if s[0] == '"' {
      ParseEscapedQuote(s, rest);
    } else {
      ParseEscapedPlain(s, rest);
    }
  }

  /** The step for a leading quote, which the writer doubled. */
  lemma ParseEscapedQuote(s: string, rest: string)
    requires s != [] && rest != [] && s[0] == '"'
    requires ParseQuoted(Escape(s[1..]) + rest) == Some((s[1..], rest[1..]))
    ensures ParseQuoted("\"\"" + (Escape(s[1..]) + rest)) == Some((s, rest[1..]))
  {
    ParseDoubledQuote(Escape(s[1..]) + rest, s[1..], rest[1..]);
    assert "\"" + s[1..] == s;
  }

  /** The step for any other leading character, which the writer kept. */
  lemma ParseEscapedPlain(s: string, rest: string)
    requires s != [] && rest != [] && s[0] != '"'
    requires ParseQuoted(Escape(s[1..]) + rest) == Some((s[1..], rest[1..]))
    ensures ParseQuoted([s[0]] + (Escape(s[1..]) + rest)) == Some((s, rest[1..]))
  {
    ParsePlainChar(s[0], Escape(s[1..]) + rest, s[1..], rest[1..]);
    assert [s[0]] + s[1..] == s;
  }

  /** Escaping the first character, then the rest, then appending. */
  lemma EscapeAppend(s: string, rest: string)
    requires s != []
    ensures Escape(s) + rest == (if s[0] == '"' then "\"\"" else [s[0]]) + (Escape(s[1..]) + rest)
  {
  }

  /** A doubled quote inside a quoted field reads as one quote. */
  lemma ParseDoubledQuote(e: string, text: string, tail: string)
    requires ParseQuoted(e) == Some((text, tail))
    ensures ParseQuoted("\"\"" + e) == Some(("\"" + text, tail))
  {
    var w := "\"\"" + e;
    assert w[0] == '"' && w[1] == '"' && w[2..] == e;
  }

  /** Any other character inside a quoted field reads as itself. */
  lemma ParsePlainChar(c: char, e: string, text: string, tail: string)
    requires c != '"'
    requires ParseQuoted(e) == Some((text, tail))
    ensures ParseQuoted([c] + e) == Some(([c] + text, tail))
  {
    var w := [c] + e;
    assert w[0] == c && w[1..] == e;
  }

  /** A cell written by the row writer reads back as the same cell, whatever follows it. */
  lemma ParseQuotedCell(cell: Option<string>, tail: string)
    requires tail == [] || tail[0] != '"'
    ensures ParseCell(QuoteCell(cell) + tail) == Some((cell, tail))
  {
    if cell.Some? {
      var rest := "\"" + tail;
      var inner := Escape(cell.value) + rest;
      QuotedText(cell.value, tail);
      ParseEscaped(cell.value, rest);
      assert rest[1..] == tail;
      ParseCellQuoted("\"" + inner, inner);
    } else {
      assert QuoteCell(cell) + tail == tail;
    }
  }

  /** A quoted cell followed by more text: the opening quote, then the escaped text, the closing quote and the text. */
  lemma QuotedText(v: string, tail: string)
    ensures QuoteCell(Some(v)) + tail == "\"" + (Escape(v) + ("\"" + tail))
  {
  }

  /** A field that opens with a quote is read by the quoted-field reader. */
  lemma ParseCellQuoted(s: string, inner: string)
    requires s != [] && s[0] == '"' && s[1..] == inner
    ensures ParseCell(s) == match ParseQuoted(inner)
                            case None => None
                            case Some((text, rest)) => Some((Some(text), rest))
  {
  }

  /**
   * The row writer loses nothing: a non-empty row reads back cell for cell,
   * null cells included, however many quotes, commas and line breaks the
   * cells hold, and the reader stops where the line ends.
   */
  lemma {:induction false} RowRoundTrip(row: seq<Option<string>>, tail: string)
    requires row != []
    requires tail == [] || tail[0] == '\n'
    ensures ParseRow(ProcessRow(row) + tail) == Some((row, tail))
  {
    var line := ProcessRow(row) + tail;
    if |row| == 1 {
      RowText(row, tail);
      ParseQuotedCell(row[0], tail);
      ParseRowLast(line, row[0], tail);
      assert row == [row[0]];
    } else {
      var rest := "," + (ProcessRow(row[1..]) + tail);
      RowText(row, tail);
      ParseQuotedCell(row[0], rest);
      RowRoundTrip(row[1..], tail);
      ParseRowNext(line, row[0], rest, row[1..], tail);
      assert [row[0]] + row[1..] == row;
    }
  }

  /** A written row followed by more text: the first cell, then a comma and the other cells, or the text. */
  lemma RowText(row: seq<Option<string>>, tail: string)
    requires row != []
    ensures ProcessRow(row) + tail ==
            if |row| == 1 then QuoteCell(row[0]) + tail
            else QuoteCell(row[0]) + ("," + (ProcessRow(row[1..]) + tail))
  {
  }

  /** A cell followed by the end of the line is a row of one cell. */
  lemma ParseRowLast(line: string, cell: Option<string>, tail: string)
    requires ParseCell(line) == Some((cell, tail))
    requires tail == [] || tail[0] == '\n'
    ensures ParseRow(line) == Some(([cell], tail))
  {
  }

  /** A cell, a comma and a row make a row one cell longer. */
  lemma ParseRowNext(line: string, cell: Option<string>, rest: string, cells: seq<Option<string>>, tail: string)
    requires ParseCell(line) == Some((cell, rest))
    requires rest != [] && rest[0] == ',' && ParseRow(rest[1..]) == Some((cells, tail))
    ensures ParseRow(line) == Some(([cell] + cells, tail))
  {
  }

  /** The empty row and the row of one null cell both become the empty line; this is why the round trip needs a cell. */
  lemma EmptyRowAmbiguous()
    ensures ProcessRow([]) == ProcessRow([None])
  {
  }

  // ---------------------------------------------------------------- reading the whole text back

  /** A header cell the header line can carry unchanged: it holds no comma and no line break. */
  predicate PlainCell(c: string)
  {
    ',' !in c && '\n' !in c
  }

  /** Reads the characters of a header cell, up to the next comma or line break or the end of the text. */
  function ReadPlain(s: string): (r: (string, string))
    ensures |r.1| <= |s| && PlainCell(r.0)
    ensures r.1 == [] || r.1[0] == ',' || r.1[0] == '\n'
  {
    if s == [] || s[0] == ',' || s[0] == '\n' then ("", s)
    else
      var p := ReadPlain(s[1..]);
      ([s[0]] + p.0, p.1)
  }

  /** The header line: unquoted cells separated by commas, up to the first line break or the end of the text. */
  function ParseHeader(s: string): (r: (seq<string>, string))
    ensures |r.1| <= |s| && r.0 != []
    ensures r.1 == [] || r.1[0] == '\n'
    decreases |s|
  {
    var p := ReadPlain(s);
    if p.1 != [] && p.1[0] == ',' then
      var q := ParseHeader(p.1[1..]);
      ([p.0] + q.0, q.1)
    else ([p.0], p.1)
  }

  /** Data rows, one per line; the text ends after the last of them. */
  function ParseRows(s: string): Option<seq<seq<Option<string>>>>
    decreases |s|
  {
    match ParseRow(s)
    case None => None
    case Some((cells, rest)) =>
      if rest == [] then Some([cells])
      else
        match ParseRows(rest[1..])
        case None => None
        case Some(more) => Some([cells] + more)
  }

  /** The whole export read back: the header line, then the data rows after its line break. */
  function ParseCsv(text: string): Option<(seq<string>, seq<seq<Option<string>>>)>
  {
    var h := ParseHeader(text);
    if h.1 == [] then Some((h.0, []))
    else
      match ParseRows(h.1[1..])
      case None => None
      case Some(rows) => Some((h.0, rows))
  }

  /** A plain cell is read back up to the comma or line break that follows it. */
  lemma {:induction false} ReadPlainCell(c: string, tail: string)
    requires PlainCell(c)
    requires tail == [] || tail[0] == ',' || tail[0] == '\n'
    ensures ReadPlain(c + tail) == (c, tail)
  {
    if c == [] {
      assert c + tail == tail;
    } else {
      ReadPlainCell(c[1..], tail);
      assert (c + tail)[1..] == c[1..] + tail;
      assert [c[0]] + c[1..] == c;
    }
  }

  /** The header line reads back cell for cell when no cell holds a comma or a line break. */
  lemma {:induction false} HeaderRoundTrip(header: seq<string>, tail: string)
    requires header != [] && forall i :: 0 <= i < |header| ==> PlainCell(header[i])
    requires tail == [] || tail[0] == '\n'
    ensures ParseHeader(JoinHeader(header) + tail) == (header, tail)
  {
    var line := JoinHeader(header) + tail;
    HeaderText(header, tail);
    if |header| == 1 {
      ReadPlainCell(header[0], tail);
      assert header == [header[0]];
    } else {
      var rest := "," + (JoinHeader(header[1..]) + tail);
      ReadPlainCell(header[0], rest);
      HeaderRoundTrip(header[1..], tail);
      HeaderNext(line, header[0], rest, header[1..], tail);
      assert [header[0]] + header[1..] == header;
    }
  }

  /** A header line followed by more text: the first cell, then a comma and the other cells, or the text. */
  lemma HeaderText(header: seq<string>, tail: string)
    requires header != []
    ensures JoinHeader(header) + tail ==
            if |header| == 1 then header[0] + tail
            else header[0] + ("," + (JoinHeader(header[1..]) + tail))
  {
  }

  /** A plain cell, a comma and a header line make a header one cell longer. */
  lemma HeaderNext(line: string, cell: string, rest: string, cells: seq<string>, tail: string)
    requires ReadPlain(line) == (cell, rest)
    requires rest != [] && rest[0] == ',' && ParseHeader(rest[1..]) == (cells, tail)
    ensures ParseHeader(line) == ([cell] + cells, tail)
  {
  }

  /** Data rows written one per line read back row for row, provided no row is empty. */
  lemma {:induction false} RowsRoundTrip(rows: seq<seq<Option<string>>>)
    requires rows != [] && forall i :: 0 <= i < |rows| ==> rows[i] != []
    ensures ParseRows(JoinLines(ProcessRows(rows))) == Some(rows)
  {
    if |rows| == 1 {
      RowsOne(rows);
    } else {
      RowsRoundTrip(rows[1..]);
      RowsStep(rows);
    }
  }

  /** A single non-empty data row reads back as the only row. */
  lemma RowsOne(rows: seq<seq<Option<string>>>)
    requires |rows| == 1 && rows[0] != []
    ensures ParseRows(JoinLines(ProcessRows(rows))) == Some(rows)
  {
    assert ProcessRows(rows) == [ProcessRow(rows[0])];
    assert JoinLines(ProcessRows(rows)) == ProcessRow(rows[0]) + "";
    RowRoundTrip(rows[0], "");
    RowsLast(JoinLines(ProcessRows(rows)), rows[0]);
    assert rows == [rows[0]];
  }

  /** A non-empty row in front of rows that read back gives rows that read back. */
  lemma RowsStep(rows: seq<seq<Option<string>>>)
    requires |rows| >= 2 && rows[0] != []
    requires ParseRows(JoinLines(ProcessRows(rows[1..]))) == Some(rows[1..])
    ensures ParseRows(JoinLines(ProcessRows(rows))) == Some(rows)
  {
    var text := JoinLines(ProcessRows(rows));
    var more := JoinLines(ProcessRows(rows[1..]));
    var rest := "\n" + more;
    RowsText(rows);
    RowRoundTrip(rows[0], rest);
    assert rest[1..] == more;
    RowsNext(text, rows[0], rest, rows[1..]);
    assert [rows[0]] + rows[1..] == rows;
  }

  /** Written data rows: the first row's line, then a line break and the other rows' lines. */
  lemma RowsText(rows: seq<seq<Option<string>>>)
    requires |rows| >= 2
    ensures JoinLines(ProcessRows(rows)) == ProcessRow(rows[0]) + ("\n" + JoinLines(ProcessRows(rows[1..])))
  {
    var lines := ProcessRows(rows);
    assert lines == [ProcessRow(rows[0])] + ProcessRows(rows[1..]);
    assert |lines| >= 2 && lines[1..] == ProcessRows(rows[1..]);
  }

  /** A row that takes the whole text is the only data row. */
  lemma RowsLast(text: string, row: seq<Option<string>>)
    requires ParseRow(text) == Some((row, []))
    ensures ParseRows(text) == Some([row])
  {
  }

  /** A row, a line break and more rows make the rows one longer. */
  lemma RowsNext(text: string, row: seq<Option<string>>, rest: string, more: seq<seq<Option<string>>>)
    requires ParseRow(text) == Some((row, rest))
    requires rest != [] && ParseRows(rest[1..]) == Some(more)
    ensures ParseRows(text) == Some([row] + more)
  {
  }

  /**
   * The export loses nothing: its text reads back as the header and the data
   * rows it was written from, whatever the data cells hold, as long as the
   * header has a cell, no header cell holds a comma or a line break and no
   * data row is empty.
   */
  lemma CsvRoundTrip(header: seq<string>, rows: seq<seq<Option<string>>>)
    requires header != [] && forall i :: 0 <= i < |header| ==> PlainCell(header[i])
    requires forall i :: 0 <= i < |rows| ==> rows[i] != []
    ensures ParseCsv(CsvText(header, rows)) == Some((header, rows))
  {
    var text := CsvText(header, rows);
    if rows == [] {
      assert text == JoinHeader(header) + "";
      HeaderRoundTrip(header, "");
    } else {
      var body := JoinLines(ProcessRows(rows));
      assert text == JoinHeader(header) + ("\n" + body);
      HeaderRoundTrip(header, "\n" + body);
      RowsRoundTrip(rows);
      assert ("\n" + body)[1..] == body;
    }
  }
}

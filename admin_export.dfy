/** The CSV export of the admin dashboard (`exportToCSV`, admin/admin.js):
    a header line of the first record's keys, then one line per record with
    every cell quoted and its quotes doubled, the lines joined by a line
    feed. A reader of such quoted cells is defined alongside, to state that
    nothing written is lost. */
module AdminExport {
  import opened Js
  import opened Strings

  /** A record: its keys in `Object.keys` order, each with its value. */
  type Row = seq<(string, Value)>

  /** `Object.keys(row)`. */
  function Keys(row: Row): (ks: seq<string>)
    ensures |ks| == |row|
    ensures forall i | 0 <= i < |row| :: ks[i] == row[i].0
  {
    if row == [] then [] else [row[0].0] + Keys(row[1..])
  }

  /** `row[key]`: the value of the first entry with that key, `undefined`
      when there is none. */
  function Lookup(row: Row, key: string): (v: Value)
    ensures (forall i | 0 <= i < |row| :: row[i].0 != key) ==> v == Undefined
    ensures forall i | 0 <= i < |row| && row[i].0 == key && (forall j | 0 <= j < i :: row[j].0 != key) :: v == row[i].1
  {
    if row == [] then Undefined
    else if row[0].0 == key then row[0].1
    else Lookup(row[1..], key)
  }

  // ---------------------------------------------------------------------
  // Writing

  /** `text.replace(/"/g, '""')`. */
  function DoubleQuotes(text: string): (r: string)
    ensures |r| == |text| + Occurrences(text, '"')
  {
    if text == [] then []
    else (if text[0] == '"' then "\"\"" else [text[0]]) + DoubleQuotes(text[1..])
  }

  /** A written cell: the text with its quotes doubled, between quotes. */
  function QuoteCell(text: string): (cell: string)
    ensures |cell| >= 2 && cell[0] == '"' && cell[|cell| - 1] == '"'
  {
    "\"" + DoubleQuotes(text) + "\""
  }

  /** The quoted cells of a record, one per header. */
  function QuotedCells(row: Row, headers: seq<string>): (cells: seq<string>)
    ensures |cells| == |headers|
  {
    seq(|headers|, i requires 0 <= i < |headers| => QuoteCell(ToText(Lookup(row, headers[i]))))
  }

  /** The texts `'' + row[header]` the cells hold. */
  function CellTexts(row: Row, headers: seq<string>): (texts: seq<string>)
    ensures |texts| == |headers|
  {
    seq(|headers|, i requires 0 <= i < |headers| => ToText(Lookup(row, headers[i])))
  }

  /** The lines of the file: the keys of the first record unquoted, then
      one line of quoted cells per record. */
  function CsvLines(data: seq<Row>): (lines: seq<string>)
    requires |data| > 0
    ensures |lines| == |data| + 1
    ensures lines[0] == Join(Keys(data[0]), ',')
    ensures forall i | 0 <= i < |data| :: lines[i + 1] == Join(QuotedCells(data[i], Keys(data[0])), ',')
  {
    var headers := Keys(data[0]);
    [Join(headers, ',')] + seq(|data|, i requires 0 <= i < |data| => Join(QuotedCells(data[i], headers), ','))
  }

  /** What the export does: warn that there is nothing to export, or
      download `<filename>.csv` holding the text. */
  datatype ExportOutcome = NothingToExport | Download(fileName: string, csv: string)

  /** `exportToCSV(data, filename)`: a missing or empty list is refused;
      otherwise the lines are joined with a line feed (not CRLF). */
  function ExportToCsv(data: Option<seq<Row>>, filename: string): (r: ExportOutcome)
    ensures r.NothingToExport? <==> data.None? || data.value == []
    ensures r.Download? ==> r.fileName == filename + ".csv" && r.csv == Join(CsvLines(data.value), '\n')
  {
    if data.None? || |data.value| == 0 then NothingToExport
    else Download(filename + ".csv", Join(CsvLines(data.value), '\n'))
  }

  // ---------------------------------------------------------------------
  // Reading back

  /** Reads one quoted cell whose opening quote is already consumed: a
      doubled quote stands for one quote, a single quote closes the cell.
      Gives the cell's text and what follows the closing quote. */
  function ReadQuoted(s: string): (r: Option<(string, string)>)
    ensures r.Some? ==> |r.value.1| < |s|
  {
    if s == [] then None
    else if s[0] == '"' then
      if |s| >= 2 && s[1] == '"' then
        match ReadQuoted(s[2..])
        case None => None
        case Some((t, rest)) => Some(("\"" + t, rest))
      else Some(("", s[1..]))
    else
      match ReadQuoted(s[1..])
      case None => None
      case Some((t, rest)) => Some(([s[0]] + t, rest))
  }

  /** Reads a line of quoted cells separated by commas. */
  function ReadCells(line: string): Option<seq<string>>
    decreases |line|
  {
    if line == [] || line[0] != '"' then None
    else
      match ReadQuoted(line[1..])
      case None => None
      case Some((t, rest)) =>
        if rest == [] then Some([t])
        else if rest[0] != ',' then None
        else
          match ReadCells(rest[1..])
          case None => None
          case Some(more) => Some([t] + more)
  }

  /** Reading a written cell's body gives back its text, and stops right
      after the closing quote. */
  lemma {:induction false} ReadQuotedDoubled(text: string, rest: string)
    requires rest == [] || rest[0] != '"'
    ensures ReadQuoted(DoubleQuotes(text) + "\"" + rest) == Some((text, rest))
  {
    if text == [] {
      assert DoubleQuotes(text) + "\"" + rest == "\"" + rest;
      assert ("\"" + rest)[1..] == rest;
    } else {
      ReadQuotedDoubled(text[1..], rest);
      ReadQuotedStep(text, rest);
    }
  }

  /** One step of the round trip: the first character of the text is read
      back before the rest. */
  lemma ReadQuotedStep(text: string, rest: string)
    requires text != []
    requires ReadQuoted(DoubleQuotes(text[1..]) + "\"" + rest) == Some((text[1..], rest))
    ensures ReadQuoted(DoubleQuotes(text) + "\"" + rest) == Some((text, rest))
  {
    var tail := DoubleQuotes(text[1..]) + "\"" + rest;
    var head := if text[0] == '"' then "\"\"" else [text[0]];
    assert DoubleQuotes(text) + "\"" + rest == head + tail by {
      assert DoubleQuotes(text) == head + DoubleQuotes(text[1..]);
    }
    if text[0] == '"' {
      ReadDoubledQuote(tail, text[1..], rest);
    } else {
      ReadPlainChar(text[0], tail, text[1..], rest);
    }
    assert [text[0]] + text[1..] == text;
  }

  /** A doubled quote reads as one quote of the text. */
  lemma ReadDoubledQuote(tail: string, t: string, rest: string)
    requires ReadQuoted(tail) == Some((t, rest))
    ensures ReadQuoted("\"\"" + tail) == Some(("\"" + t, rest))
  {
    assert ("\"\"" + tail)[2..] == tail;
  }

  /** Any other character reads as itself. */
  lemma ReadPlainChar(c: char, tail: string, t: string, rest: string)
    requires c != '"'
    requires ReadQuoted(tail) == Some((t, rest))
    ensures ReadQuoted([c] + tail) == Some(([c] + t, rest))
  {
    assert ([c] + tail)[1..] == tail;
  }

  /** Writing a cell and reading it back gives the same text. */
  lemma QuoteCellRoundTrip(text: string, rest: string)
    requires rest == [] || rest[0] == ','
    ensures QuoteCell(text)[0] == '"'
    ensures ReadQuoted((QuoteCell(text) + rest)[1..]) == Some((text, rest))
  {
    assert (QuoteCell(text) + rest)[1..] == DoubleQuotes(text) + "\"" + rest;
    ReadQuotedDoubled(text, rest);
  }

  /** The written cells of a sequence of texts. */
  function QuoteAll(texts: seq<string>): (cells: seq<string>)
    ensures |cells| == |texts|
    ensures forall i | 0 <= i < |texts| :: cells[i] == QuoteCell(texts[i])
  {
    if texts == [] then [] else [QuoteCell(texts[0])] + QuoteAll(texts[1..])
  }

  /** Reading a written line gives back every cell's text, in order: the
      quoting makes commas and quotes inside a cell harmless. */
  lemma {:induction false} ReadCellsRoundTrip(texts: seq<string>)
    requires |texts| >= 1
    ensures ReadCells(Join(QuoteAll(texts), ',')) == Some(texts)
    decreases |texts|
  {
    var cells := QuoteAll(texts);
    var line := Join(cells, ',');
    if |texts| == 1 {
      assert line == QuoteCell(texts[0]);
      QuoteCellRoundTrip(texts[0], []);
      assert QuoteCell(texts[0]) + [] == QuoteCell(texts[0]);
      assert ReadQuoted(line[1..]) == Some((texts[0], []));
      assert texts == [texts[0]];
    } else {
      var restLine := Join(cells[1..], ',');
      assert line == QuoteCell(texts[0]) + ([','] + restLine);
      QuoteCellRoundTrip(texts[0], [','] + restLine);
      assert cells[1..] == QuoteAll(texts[1..]);
      ReadCellsRoundTrip(texts[1..]);
      assert ([','] + restLine)[1..] == restLine;
      assert [texts[0]] + texts[1..] == texts;
    }
  }

  /** Every record line of the export reads back as the texts of the
      record's cells under the first record's keys. */
  lemma RowLineRoundTrip(data: seq<Row>, i: int)
    requires 0 <= i < |data| && |data[0]| >= 1
    ensures ReadCells(CsvLines(data)[i + 1]) == Some(CellTexts(data[i], Keys(data[0])))
  {
    var headers := Keys(data[0]);
    var texts := CellTexts(data[i], headers);
    assert QuotedCells(data[i], headers) == QuoteAll(texts);
    ReadCellsRoundTrip(texts);
  }

  /** A record missing one of the first record's keys writes `undefined`
      in that column. */
  lemma MissingKeyWritesUndefined(data: seq<Row>, i: int, k: int)
    requires 0 <= i < |data| && 0 <= k < |data[0]|
    requires forall j | 0 <= j < |data[i]| :: data[i][j].0 != data[0][k].0
    ensures CellTexts(data[i], Keys(data[0]))[k] == "undefined"
  {
  }

  /** A written cell holds no lone quote: its body is the text with every
      quote doubled, so it never ends the cell early. */
  lemma {:induction false} DoubledQuotesPaired(text: string)
    ensures Occurrences(DoubleQuotes(text), '"') == 2 * Occurrences(text, '"')
  {
    if text != [] {
      DoubledQuotesPaired(text[1..]);
      var head := if text[0] == '"' then "\"\"" else [text[0]];
      OccurrencesConcat(head, DoubleQuotes(text[1..]), '"');
    }
  }

  /** When no key and no cell text holds a line feed, splitting the file on
      line feeds gives back its lines: one header line and one line per
      record. */
  lemma CsvSplitsIntoLines(data: seq<Row>)
    requires |data| > 0
    requires forall i | 0 <= i < |CsvLines(data)| :: '\n' !in CsvLines(data)[i]
    ensures Split(Join(CsvLines(data), '\n'), '\n') == CsvLines(data)
    ensures |Split(Join(CsvLines(data), '\n'), '\n')| == |data| + 1
  {
    SplitJoin(CsvLines(data), '\n');
  }

  /** The header line splits on commas into the first record's keys when no
      key holds a comma. */
  lemma HeaderSplitsIntoKeys(data: seq<Row>)
    requires |data| > 0 && |data[0]| >= 1
    requires forall i | 0 <= i < |data[0]| :: ',' !in data[0][i].0
    ensures Split(CsvLines(data)[0], ',') == Keys(data[0])
  {
    SplitJoin(Keys(data[0]), ',');
  }
}

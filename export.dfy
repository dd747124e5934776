/**
 * Export of collected reviews as CSV and TSV text. Each review becomes a row
 * of twelve cells; the header row comes first; rows are joined with "\n".
 * CSV quotes every cell and doubles the quotes inside it (the quoting rule of
 * section 2 of RFC 4180, with "\n" between records instead of CRLF); TSV turns
 * every tab and newline inside a cell into a space.
 */
module Export {
  import opened Wrappers
  import opened Strings
  import opened ReviewTypes

  /** The cells of one review in export order; `show` is Number.prototype.toString. */
  function ReviewRow(r: ReviewData, show: real -> string): seq<string> {
    [r.reviewId, r.visitDate, r.girlName, show(r.totalScore),
     show(r.scores.girl), show(r.scores.play), show(r.scores.price),
     show(r.scores.staff), show(r.scores.photo),
     r.title, r.body, r.postDate]
  }

  /** mapReviewsToRows. */
  function ReviewRows(reviews: seq<ReviewData>, show: real -> string): (rows: seq<seq<string>>)
    ensures |rows| == |reviews|
  {
    seq(|reviews|, i requires 0 <= i < |reviews| => ReviewRow(reviews[i], show))
  }

  /** The header row followed by the review rows, as both exporters build it. */
  function Table(headers: seq<string>, reviews: seq<ReviewData>, show: real -> string): seq<seq<string>> {
    [headers] + ReviewRows(reviews, show)
  }

  // ---------------------------------------------------------------------------
  // CSV
  // ---------------------------------------------------------------------------

  /** `cell.replace(/"/g, '""')`. */
  function DoubleQuotes(s: string): string
    decreases |s|
  {
    if s == [] then ""
    else (if s[0] == '"' then "\"\"" else [s[0]]) + DoubleQuotes(s[1..])
  }

  /** One CSV cell: wrapped in quotes, inner quotes doubled. */
  function CsvCell(s: string): string {
    "\"" + DoubleQuotes(s) + "\""
  }

  function CsvCells(row: seq<string>): (cells: seq<string>)
    ensures |cells| == |row|
  {
    seq(|row|, i requires 0 <= i < |row| => CsvCell(row[i]))
  }

  function CsvLine(row: seq<string>): string {
    Join(CsvCells(row), ",")
  }

  function CsvLines(rows: seq<seq<string>>): (lines: seq<string>)
    ensures |lines| == |rows|
  {
    seq(|rows|, i requires 0 <= i < |rows| => CsvLine(rows[i]))
  }

  /** exportToCsv; `headers` is the header constant of the collector. */
  function ExportToCsv(headers: seq<string>, reviews: seq<ReviewData>, show: real -> string): string {
    Join(CsvLines(Table(headers, reviews, show)), "\n")
  }

  /**
   * Reads the body of a quoted cell (the text after its opening quote): a
   * doubled quote stands for one quote and a single quote closes the cell.
   * Yields the cell's text and what follows the closing quote.
   */
  function ParseQuoted(s: string): (r: Option<(string, string)>)
    ensures r.Some? ==> |r.value.1| < |s|
    decreases |s|
  {
    if s == [] then None
    else if s[0] == '"' then
      if |s| >= 2 && s[1] == '"' then
        match ParseQuoted(s[2..])
        case Some((c, rest)) => Some(("\"" + c, rest))
        case None => None
      else Some(("", s[1..]))
    else
      match ParseQuoted(s[1..])
      case Some((c, rest)) => Some(([s[0]] + c, rest))
      case None => None
  }

  /** Reads quoted cells separated by ',' up to the end of a line; yields them and the rest. */
  function ParseCells(s: string): Option<(seq<string>, string)>
    decreases |s|
  {
    if s == [] || s[0] != '"' then None
    else
      match ParseQuoted(s[1..])
      case None => None
      case Some((c, rest)) =>
        if rest != [] && rest[0] == ',' then
          match ParseCells(rest[1..])
          case Some((cs, r)) => Some(([c] + cs, r))
          case None => None
        else Some(([c], rest))
  }

  /** Reads CSV text of quoted cells: lines separated by "\n", cells by ','. */
  function ParseCsv(s: string): Option<seq<seq<string>>>
    decreases |s|
  {
    match ParseCells(s)
    case None => None
    case Some((cells, rest)) =>
      if rest == [] then Some([cells])
      else if rest[0] == '\n' && |rest| < |s| then
        match ParseCsv(rest[1..])
        case Some(rows) => Some([cells] + rows)
        case None => None
      else None
  }

  /** Un-escaping an escaped cell gives back the cell, and stops right after its closing quote. */
  lemma {:induction false} ParseQuotedRoundTrip(x: string, rest: string)
    requires rest == [] || rest[0] != '"'
    ensures ParseQuoted(DoubleQuotes(x) + "\"" + rest) == Some((x, rest))
    decreases |x|
  {
    var s := DoubleQuotes(x) + "\"" + rest;
    if x == [] {
      assert s == "\"" + rest;
      assert s[1..] == rest;
    } else {
      ParseQuotedRoundTrip(x[1..], rest);
      var tail := DoubleQuotes(x[1..]) + "\"" + rest;
      if x[0] == '"' {
        assert s == "\"\"" + tail;
        assert s[2..] == tail;
        assert "\"" + x[1..] == x;
      } else {
        assert s == [x[0]] + tail;
        assert s[1..] == tail;
        assert [x[0]] + x[1..] == x;
      }
    }
  }

  /** The text of one CSV cell reads back as the original text. */
  lemma CsvCellRoundTrip(x: string)
    ensures ParseCells(CsvCell(x)) == Some(([x], ""))
  {
    ParseQuotedRoundTrip(x, "");
    assert CsvCell(x)[1..] == DoubleQuotes(x) + "\"" + "";
  }

  /** A line of two or more cells is its first cell, a comma, and the line of the others. */
  lemma CsvLineCons(row: seq<string>)
    requires |row| >= 2
    ensures CsvLine(row) == CsvCell(row[0]) + "," + CsvLine(row[1..])
  {
    assert CsvCells(row)[1..] == CsvCells(row[1..]);
  }

  /** One escaped cell followed by text that is neither ',' nor a quote: that cell alone. */
  lemma ParseCellsLast(x: string, rest: string)
    requires rest == [] || (rest[0] != ',' && rest[0] != '"')
    ensures ParseCells(CsvCell(x) + rest) == Some(([x], rest))
  {
    var s := CsvCell(x) + rest;
    assert s[1..] == DoubleQuotes(x) + "\"" + rest;
    ParseQuotedRoundTrip(x, rest);
  }

  /** One escaped cell and a comma: that cell, then the cells after the comma. */
  lemma ParseCellsNext(x: string, tail: string)
    ensures ParseCells(CsvCell(x) + ("," + tail)) ==
      match ParseCells(tail)
      case Some((cs, r)) => Some(([x] + cs, r))
      case None => None
  {
    var s := CsvCell(x) + ("," + tail);
    assert s[1..] == DoubleQuotes(x) + "\"" + ("," + tail);
    ParseQuotedRoundTrip(x, "," + tail);
    assert ("," + tail)[1..] == tail;
  }

  /** A line of escaped cells reads back as the cells. */
  lemma {:induction false} ParseCellsRoundTrip(row: seq<string>, rest: string)
    requires |row| >= 1
    requires rest == [] || (rest[0] != ',' && rest[0] != '"')
    ensures ParseCells(CsvLine(row) + rest) == Some((row, rest))
    decreases |row|
  {
    if |row| == 1 {
      assert CsvLine(row) == CsvCell(row[0]);
      ParseCellsLast(row[0], rest);
      assert [row[0]] == row;
    } else {
      var tail := CsvLine(row[1..]) + rest;
      CsvLineCons(row);
      assert CsvLine(row) + rest == CsvCell(row[0]) + ("," + tail);
      ParseCellsNext(row[0], tail);
      ParseCellsRoundTrip(row[1..], rest);
      assert [row[0]] + row[1..] == row;
    }
  }

  /** CSV text of non-empty rows reads back as those rows. */
  lemma {:induction false} ParseCsvRoundTrip(rows: seq<seq<string>>)
    requires |rows| >= 1
    requires forall i :: 0 <= i < |rows| ==> |rows[i]| >= 1
    ensures ParseCsv(Join(CsvLines(rows), "\n")) == Some(rows)
    decreases |rows|
  {
    var lines := CsvLines(rows);
    if |rows| == 1 {
      ParseCellsRoundTrip(rows[0], "");
      assert CsvLine(rows[0]) + "" == CsvLine(rows[0]);
      assert [rows[0]] == rows;
    } else {
      var tail := Join(CsvLines(rows[1..]), "\n");
      assert lines[1..] == CsvLines(rows[1..]);
      var s := Join(lines, "\n");
      assert s == CsvLine(rows[0]) + ("\n" + tail);
      ParseCellsRoundTrip(rows[0], "\n" + tail);
      ParseCsvRoundTrip(rows[1..]);
      assert ("\n" + tail)[1..] == tail;
      assert [rows[0]] + rows[1..] == rows;
    }
  }

  /**
   * Reading the CSV export back gives the header row and then, in input
   * order, the twelve cells of each review, every cell with its original text.
   */
  lemma ExportToCsvRoundTrip(headers: seq<string>, reviews: seq<ReviewData>, show: real -> string)
    requires |headers| >= 1
    ensures ParseCsv(ExportToCsv(headers, reviews, show))
      == Some([headers] + seq(|reviews|, i requires 0 <= i < |reviews| => ReviewRow(reviews[i], show)))
  {
    var rows := Table(headers, reviews, show);
    assert forall i :: 0 <= i < |rows| ==> |rows[i]| >= 1 by {
      forall i | 0 <= i < |rows| ensures |rows[i]| >= 1 {
        if i > 0 {
          assert rows[i] == ReviewRow(reviews[i - 1], show);
        }
      }
    }
    ParseCsvRoundTrip(rows);
  }

  // ---------------------------------------------------------------------------
  // TSV
  // ---------------------------------------------------------------------------

  /** `s.replace(/c/g, d)` for a single character. */
  function ReplaceAllChar(s: string, c: char, d: char): (r: string)
    ensures |r| == |s|
    ensures forall i :: 0 <= i < |s| ==> r[i] == if s[i] == c then d else s[i]
  {
    seq(|s|, i requires 0 <= i < |s| => if s[i] == c then d else s[i])
  }

  /** One TSV cell: tabs, then newlines, become spaces. */
  function TsvCell(s: string): string {
    ReplaceAllChar(ReplaceAllChar(s, '\t', ' '), '\n', ' ')
  }

  function TsvCells(row: seq<string>): (cells: seq<string>)
    ensures |cells| == |row|
  {
    seq(|row|, i requires 0 <= i < |row| => TsvCell(row[i]))
  }

  function TsvLine(row: seq<string>): string {
    Join(TsvCells(row), "\t")
  }

  function TsvLines(rows: seq<seq<string>>): (lines: seq<string>)
    ensures |lines| == |rows|
  {
    seq(|rows|, i requires 0 <= i < |rows| => TsvLine(rows[i]))
  }

  /** exportToTsv; `headers` is the header constant of the collector. */
  function ExportToTsv(headers: seq<string>, reviews: seq<ReviewData>, show: real -> string): string {
    Join(TsvLines(Table(headers, reviews, show)), "\n")
  }

  /** A TSV cell keeps the length of its text, holds no tab or newline, and keeps every other character. */
  lemma TsvCellSpec(s: string)
    ensures |TsvCell(s)| == |s|
    ensures '\t' !in TsvCell(s) && '\n' !in TsvCell(s)
    ensures forall i :: 0 <= i < |s| ==>
      TsvCell(s)[i] == if s[i] == '\t' || s[i] == '\n' then ' ' else s[i]
  {
    var t := TsvCell(s);
    forall i | 0 <= i < |t| ensures t[i] != '\t' && t[i] != '\n' { }
  }

  /** A join of pieces, none of which holds `c`, with a separator without `c`, holds no `c`. */
  lemma {:induction false} JoinAvoids(xs: seq<string>, sep: string, c: char)
    requires c !in sep
    requires forall k :: 0 <= k < |xs| ==> c !in xs[k]
    ensures c !in Join(xs, sep)
    decreases |xs|
  {
    if |xs| > 1 {
      JoinAvoids(xs[1..], sep, c);
    }
  }

  /** A TSV line holds no newline and splits on tabs into exactly its cells. */
  lemma TsvLineSpec(row: seq<string>)
    requires |row| >= 1
    ensures '\n' !in TsvLine(row)
    ensures Split(TsvLine(row), '\t') == TsvCells(row)
  {
    var cells := TsvCells(row);
    forall k | 0 <= k < |cells| ensures '\t' !in cells[k] && '\n' !in cells[k] {
      TsvCellSpec(row[k]);
    }
    JoinAvoids(cells, "\t", '\n');
    SplitJoin(cells, '\t');
  }

  /**
   * The TSV export splits on "\n" into exactly one line per review plus the
   * header line, and each review line splits on tabs into exactly its twelve
   * cleaned cells.
   */
  lemma ExportToTsvShape(headers: seq<string>, reviews: seq<ReviewData>, show: real -> string)
    requires |headers| >= 1
    ensures |Split(ExportToTsv(headers, reviews, show), '\n')| == |reviews| + 1
    ensures Split(ExportToTsv(headers, reviews, show), '\n')[0] == TsvLine(headers)
    ensures forall i :: 0 <= i < |reviews| ==>
      Split(Split(ExportToTsv(headers, reviews, show), '\n')[i + 1], '\t')
        == TsvCells(ReviewRow(reviews[i], show))
    ensures forall j :: 1 <= j <= |reviews| ==>
      |Split(Split(ExportToTsv(headers, reviews, show), '\n')[j], '\t')| == 12
  {
    var rows := Table(headers, reviews, show);
    var lines := TsvLines(rows);
    forall k | 0 <= k < |lines| ensures '\n' !in lines[k] {
      if k > 0 {
        assert rows[k] == ReviewRow(reviews[k - 1], show);
      }
      TsvLineSpec(rows[k]);
    }
    SplitJoin(lines, '\n');
    forall i | 0 <= i < |reviews|
      ensures Split(lines[i + 1], '\t') == TsvCells(ReviewRow(reviews[i], show))
    {
      assert rows[i + 1] == ReviewRow(reviews[i], show);
      TsvLineSpec(rows[i + 1]);
    }
  }
}

/**
 * The hand-written CSV tokenizer `parseCSV` (src/data/loaders.ts): a character
 * loop over the text that keeps the rows so far, the current row, the current
 * cell and whether it is inside quotes. Commas end a cell and newlines a row,
 * except inside quotes, where `""` stands for one quote; a carriage return
 * outside quotes is dropped; at the end the last cell and row are flushed
 * unless the last row is a single empty cell.
 */
module Csv {
  import opened Strings
  import opened Numbers

  /** The loop's state: `rows`, `row`, `cur` and `inQuotes`. */
  datatype Scan = Scan(rows: seq<seq<string>>, row: seq<string>, cur: string, inQuotes: bool)

  const Start: Scan := Scan([], [], "", false)

  /** The loop from the current position on, given the text still to read. */
  function Run(text: string, st: Scan): Scan
    decreases |text|
  {
    if text == [] then st
    else
      var c := text[0];
      if st.inQuotes then
        if c == '"' then
          if |text| > 1 && text[1] == '"' then Run(text[2..], st.(cur := st.cur + ['"']))
          else Run(text[1..], st.(inQuotes := false))
        else Run(text[1..], st.(cur := st.cur + [c]))
      else if c == '"' then Run(text[1..], st.(inQuotes := true))
      else if c == ',' then Run(text[1..], st.(row := st.row + [st.cur], cur := ""))
      else if c == '\n' then Run(text[1..], Scan(st.rows + [st.row + [st.cur]], [], "", false))
      else if c == '\r' then Run(text[1..], st)
      else Run(text[1..], st.(cur := st.cur + [c]))
  }

  /** The flush after the loop: the last row is kept unless it is one empty cell. */
  function Finish(st: Scan): seq<seq<string>> {
    var last := st.row + [st.cur];
    if |last| == 1 && last[0] == "" then st.rows else st.rows + [last]
  }

  /** The table `parseCSV(text)` returns. */
  function CsvTable(text: string): seq<seq<string>> {
    Finish(Run(text, Start))
  }

  /** `parseCSV(text)`. */
  method ParseCSV(text: string) returns (rows: seq<seq<string>>)
    ensures rows == CsvTable(text)
  {
    rows := [];
    var cur := "";
    var row: seq<string> := [];
    var inQuotes := false;
    var i := 0;
    while i < |text|
      invariant 0 <= i <= |text|
      invariant Run(text[i..], Scan(rows, row, cur, inQuotes)) == Run(text, Start)
    {
      var c := text[i];
      if inQuotes {
        if c == '"' {
          if i + 1 < |text| && text[i + 1] == '"' {
            cur := cur + ['"'];
            i := i + 1;
          } else {
            inQuotes := false;
          }
        } else {
          cur := cur + [c];
        }
      } else {
        if c == '"' {
          inQuotes := true;
        } else if c == ',' {
          row := row + [cur];
          cur := "";
        } else if c == '\n' {
          row := row + [cur];
          rows := rows + [row];
          row := [];
          cur := "";
        } else if c == '\r' {
        } else {
          cur := cur + [c];
        }
      }
      i := i + 1;
    }
    row := row + [cur];
    if |row| > 0 && !(|row| == 1 && row[0] == "") {
      rows := rows + [row];
    }
  }

  // ------------------------------------------------------------ quoted fields

  /** Every quote doubled, as a quoted CSV field writes it. */
  function EscapeQuotes(f: string): (e: string)
    ensures |e| >= |f|
  {
    if f == [] then []
    else (if f[0] == '"' then "\"\"" else [f[0]]) + EscapeQuotes(f[1..])
  }

  /** A field in quotes. */
  function QuoteField(f: string): string {
    "\"" + EscapeQuotes(f) + "\""
  }

  /** A row of quoted fields joined by commas. */
  function JoinRow(fields: seq<string>): string
    requires |fields| >= 1
  {
    if |fields| == 1 then QuoteField(fields[0])
    else QuoteField(fields[0]) + "," + JoinRow(fields[1..])
  }

  /** Rows joined by newlines. */
  function JoinRows(table: seq<seq<string>>): string
    requires forall i :: 0 <= i < |table| ==> |table[i]| >= 1
  {
    if table == [] then ""
    else if |table| == 1 then JoinRow(table[0])
    else JoinRow(table[0]) + "\n" + JoinRows(table[1..])
  }

  /** Inside quotes, an escaped field and its closing quote add the field to the cell. */
  lemma {:induction false} EscapedRun(f: string, rest: string, st: Scan)
    requires st.inQuotes && (rest == [] || rest[0] != '"')
    ensures Run(EscapeQuotes(f) + "\"" + rest, st) == Run(rest, st.(cur := st.cur + f, inQuotes := false))
  {
    var text := EscapeQuotes(f) + "\"" + rest;
    if f == [] {
      assert text == "\"" + rest;
      assert text[1..] == rest;
      assert st.cur + f == st.cur;
    } else if f[0] == '"' {
      assert text == "\"\"" + (EscapeQuotes(f[1..]) + "\"" + rest);
      assert text[2..] == EscapeQuotes(f[1..]) + "\"" + rest;
      EscapedRun(f[1..], rest, st.(cur := st.cur + ['"']));
      assert st.cur + ['"'] + f[1..] == st.cur + f;
    } else {
      assert text == [f[0]] + (EscapeQuotes(f[1..]) + "\"" + rest);
      assert text[1..] == EscapeQuotes(f[1..]) + "\"" + rest;
      EscapedRun(f[1..], rest, st.(cur := st.cur + [f[0]]));
      assert st.cur + [f[0]] + f[1..] == st.cur + f;
    }
  }

  /** A quoted field read from outside quotes adds the field, commas, quotes and newlines included, to the cell. */
  lemma QuotedFieldRun(f: string, rest: string, st: Scan)
    requires !st.inQuotes && (rest == [] || rest[0] != '"')
    ensures Run(QuoteField(f) + rest, st) == Run(rest, st.(cur := st.cur + f))
  {
    var inner := EscapeQuotes(f) + "\"" + rest;
    assert QuoteField(f) + rest == "\"" + inner;
    QuoteOpens(inner, st);
    EscapedRun(f, rest, st.(inQuotes := true));
  }

  /** A quote outside quotes opens them. */
  lemma QuoteOpens(tail: string, st: Scan)
    requires !st.inQuotes
    ensures Run("\"" + tail, st) == Run(tail, st.(inQuotes := true))
  {
    assert ("\"" + tail)[0] == '"' && ("\"" + tail)[1..] == tail;
  }

  /** A row of quoted fields leaves all but its last field in the row and the last in the cell. */
  lemma {:induction false} RowRun(fields: seq<string>, rest: string, rows: seq<seq<string>>, row: seq<string>)
    requires |fields| >= 1 && (rest == [] || rest[0] == '\n')
    ensures Run(JoinRow(fields) + rest, Scan(rows, row, "", false)) ==
      Run(rest, Scan(rows, row + fields[..|fields| - 1], fields[|fields| - 1], false))
  {
    if |fields| == 1 {
      QuotedFieldRun(fields[0], rest, Scan(rows, row, "", false));
      assert row + fields[..0] == row && "" + fields[0] == fields[0];
    } else {
      var tail := JoinRow(fields[1..]) + rest;
      var st := Scan(rows, row, "", false);
      var row' := row + [fields[0]];
      assert Run(JoinRow(fields) + rest, st) == Run("," + tail, st.(cur := fields[0])) by {
        JoinRowCons(fields, rest);
        QuotedFieldRun(fields[0], "," + tail, st);
        assert "" + fields[0] == fields[0];
      }
      assert Run("," + tail, st.(cur := fields[0])) == Run(tail, Scan(rows, row', "", false)) by {
        CommaStep(tail, st.(cur := fields[0]));
      }
      assert Run(tail, Scan(rows, row', "", false)) ==
        Run(rest, Scan(rows, row' + fields[1..][..|fields| - 2], fields[1..][|fields| - 2], false)) by {
        RowRun(fields[1..], rest, rows, row');
      }
      assert row' + fields[1..][..|fields| - 2] == row + fields[..|fields| - 1] && fields[1..][|fields| - 2] == fields[|fields| - 1] by {
        PrefixStep(row, fields);
      }
    }
  }

  lemma JoinRowCons(fields: seq<string>, rest: string)
    requires |fields| >= 2
    ensures JoinRow(fields) + rest == QuoteField(fields[0]) + ("," + (JoinRow(fields[1..]) + rest))
  {
  }

  /** A comma outside quotes ends the cell. */
  lemma CommaStep(tail: string, st: Scan)
    requires !st.inQuotes
    ensures Run("," + tail, st) == Run(tail, st.(row := st.row + [st.cur], cur := ""))
  {
    assert ("," + tail)[0] == ',' && ("," + tail)[1..] == tail;
  }

  lemma PrefixStep<T>(row: seq<T>, items: seq<T>)
    requires |items| >= 2
    ensures row + [items[0]] + items[1..][..|items| - 2] == row + items[..|items| - 1]
  {
    assert [items[0]] + items[1..][..|items| - 2] == items[..|items| - 1];
  }

  /** What reading a joined table leaves: all rows complete but the last, whose last field is still the cell. */
  ghost predicate TableRead(table: seq<seq<string>>, rows: seq<seq<string>>)
    requires table != [] && forall i :: 0 <= i < |table| ==> |table[i]| >= 1
  {
    var last := table[|table| - 1];
    Run(JoinRows(table), Scan(rows, [], "", false)) ==
      Scan(rows + table[..|table| - 1], last[..|last| - 1], last[|last| - 1], false)
  }

  /** The rows of a joined table. */
  lemma {:induction false} TableRun(table: seq<seq<string>>, rows: seq<seq<string>>)
    requires table != [] && forall i :: 0 <= i < |table| ==> |table[i]| >= 1
    ensures TableRead(table, rows)
  {
    if |table| == 1 {
      RowRun(table[0], [], rows, []);
      assert JoinRow(table[0]) + [] == JoinRows(table);
    } else {
      TableRun(table[1..], rows + [table[0]]);
      TableStep(table, rows);
    }
  }

  /** The first row and its newline in front of the rest of the table. */
  lemma TableStep(table: seq<seq<string>>, rows: seq<seq<string>>)
    requires |table| >= 2 && forall i :: 0 <= i < |table| ==> |table[i]| >= 1
    requires TableRead(table[1..], rows + [table[0]])
    ensures TableRead(table, rows)
  {
    var r, t1 := table[0], table[1..];
    var tail := JoinRows(t1);
    assert JoinRows(table) == JoinRow(r) + ("\n" + tail);
    RowThenNewline(r, tail, rows);
    PrefixStep(rows, table);
    assert t1[|t1| - 1] == table[|table| - 1];
  }

  /** A row followed by a newline completes that row. */
  lemma RowThenNewline(r: seq<string>, tail: string, rows: seq<seq<string>>)
    requires |r| >= 1
    ensures Run(JoinRow(r) + ("\n" + tail), Scan(rows, [], "", false)) == Run(tail, Scan(rows + [r], [], "", false))
  {
    var st := Scan(rows, r[..|r| - 1], r[|r| - 1], false);
    assert Run(JoinRow(r) + ("\n" + tail), Scan(rows, [], "", false)) == Run("\n" + tail, st) by {
      RowRun(r, "\n" + tail, rows, []);
      assert [] + r[..|r| - 1] == r[..|r| - 1];
    }
    NewlineStep(tail, st);
    assert r[..|r| - 1] + [r[|r| - 1]] == r;
  }

  /** A newline outside quotes completes the row. */
  lemma NewlineStep(tail: string, st: Scan)
    requires !st.inQuotes
    ensures Run("\n" + tail, st) == Run(tail, Scan(st.rows + [st.row + [st.cur]], [], "", false))
  {
    assert ("\n" + tail)[0] == '\n' && ("\n" + tail)[1..] == tail;
  }

  /**
   * Writing a table with every field quoted and parsing it gives the table
   * back: commas, newlines and quotes inside a field survive. The one table
   * that does not come back is one whose last row is a single empty cell,
   * which the flush drops.
   */
  lemma QuotedRoundTrip(table: seq<seq<string>>)
    requires forall i :: 0 <= i < |table| ==> |table[i]| >= 1
    requires table == [] || table[|table| - 1] != [""]
    ensures CsvTable(JoinRows(table)) == table
  {
    if table != [] {
      TableRun(table, []);
      var last := table[|table| - 1];
      assert last[..|last| - 1] + [last[|last| - 1]] == last;
      assert [] + table[..|table| - 1] + [last] == table;
    }
  }

  // ------------------------------------------------------------ unquoted text

  /** One character other than a quote, read outside quotes. */
  function Plain(c: char, st: Scan): Scan {
    if c == ',' then st.(row := st.row + [st.cur], cur := "")
    else if c == '\n' then Scan(st.rows + [st.row + [st.cur]], [], "", false)
    else if c == '\r' then st
    else st.(cur := st.cur + [c])
  }

  lemma PlainStep(text: string, st: Scan)
    requires text != [] && text[0] != '"' && !st.inQuotes
    ensures Run(text, st) == Run(text[1..], Plain(text[0], st))
  {
  }

  /** Each line split at its commas. */
  function Cells(lines: seq<string>): (rows: seq<seq<string>>)
    ensures |rows| == |lines|
    ensures forall i :: 0 <= i < |lines| ==> rows[i] == Split(lines[i], ',')
  {
    if lines == [] then [] else [Split(lines[0], ',')] + Cells(lines[1..])
  }

  /** What reading a line leaves: no new complete row, and the row and cell holding the line's comma-separated parts. */
  ghost predicate LineRead(l: string, rows: seq<seq<string>>, row: seq<string>, cur: string) {
    var p := Split(l, ','); var st := Run(l, Scan(rows, row, cur, false));
    st.rows == rows && !st.inQuotes && st.row + [st.cur] == row + [cur + p[0]] + p[1..]
  }

  /** A line without quotes, newlines or carriage returns: its comma-separated parts end up in the row and cell. */
  lemma {:induction false} LineRun(l: string, rows: seq<seq<string>>, row: seq<string>, cur: string)
    requires '"' !in l && '\n' !in l && '\r' !in l
    ensures LineRead(l, rows, row, cur)
  {
    if l == [] {
      assert Split(l, ',') == [""] && cur + "" == cur;
    } else if l[0] == ',' {
      LineRun(l[1..], rows, row + [cur], "");
      LineComma(l, rows, row, cur);
    } else {
      LineRun(l[1..], rows, row, cur + [l[0]]);
      LineChar(l, rows, row, cur);
    }
  }

  /** A comma: the cell moves into the row and the rest of the line starts a fresh cell. */
  lemma LineComma(l: string, rows: seq<seq<string>>, row: seq<string>, cur: string)
    requires l != [] && l[0] == ','
    requires LineRead(l[1..], rows, row + [cur], "")
    ensures LineRead(l, rows, row, cur)
  {
    var q := Split(l[1..], ',');
    var p := Split(l, ',');
    PlainStep(l, Scan(rows, row, cur, false));
    assert q == [q[0]] + q[1..];
    assert "" + q[0] == q[0] && cur + "" == cur;
    assert p == [""] + q;
    assert row + [cur] + [q[0]] + q[1..] == row + [cur + p[0]] + p[1..];
  }

  /** Any other character joins the cell. */
  lemma LineChar(l: string, rows: seq<seq<string>>, row: seq<string>, cur: string)
    requires l != [] && l[0] != ',' && l[0] != '"' && l[0] != '\n' && l[0] != '\r'
    requires LineRead(l[1..], rows, row, cur + [l[0]])
    ensures LineRead(l, rows, row, cur)
  {
    var q := Split(l[1..], ',');
    var p := Split(l, ',');
    PlainStep(l, Scan(rows, row, cur, false));
    assert cur + [l[0]] + q[0] == cur + ([l[0]] + q[0]);
    assert p == [[l[0]] + q[0]] + q[1..];
  }

  /** Only the empty line splits into one empty part. */
  lemma SplitEmptyOnly(l: string, sep: char)
    requires Split(l, sep) == [""]
    ensures l == ""
  {
  }

  /** One unquoted line and its newline: the line, split at commas, becomes a complete row. */
  lemma LineNewline(a: string, b: string, rows: seq<seq<string>>)
    requires '"' !in a && '\n' !in a && '\r' !in a
    ensures Run(a + ['\n'] + b, Scan(rows, [], "", false)) == Run(b, Scan(rows + [Split(a, ',')], [], "", false))
  {
    LineRun(a, rows, [], "");
    var st := Run(a, Scan(rows, [], "", false));
    assert "" + Split(a, ',')[0] == Split(a, ',')[0];
    assert Split(a, ',') == [Split(a, ',')[0]] + Split(a, ',')[1..];
    assert st.row + [st.cur] == Split(a, ',');
    assert a + ['\n'] + b == a + (['\n'] + b);
    RunAppend(a, ['\n'] + b, Scan(rows, [], "", false));
    assert (['\n'] + b)[0] == '\n' && (['\n'] + b)[1..] == b;
  }

  /** What the loop has built after reading unquoted text from a fresh row: the lines split at commas, the last one still open. */
  ghost predicate LinesRead(text: string, rows: seq<seq<string>>) {
    var cells := Cells(Split(text, '\n')); var st := Run(text, Scan(rows, [], "", false));
    !st.inQuotes && st.rows == rows + cells[..|cells| - 1] && st.row + [st.cur] == cells[|cells| - 1]
  }

  /** The last line: its parts are the row and cell, with no complete row added. */
  lemma LastLine(l: string, rows: seq<seq<string>>)
    requires '"' !in l && '\n' !in l && '\r' !in l
    ensures LinesRead(l, rows)
  {
    SplitNone(l, '\n');
    LineRun(l, rows, [], "");
    assert "" + Split(l, ',')[0] == Split(l, ',')[0];
    assert Split(l, ',') == [Split(l, ',')[0]] + Split(l, ',')[1..];
  }

  /** A line and its newline in front of text already read. */
  lemma NextLine(a: string, b: string, rows: seq<seq<string>>)
    requires '"' !in a && '\n' !in a && '\r' !in a
    requires LinesRead(b, rows + [Split(a, ',')])
    ensures LinesRead(a + ['\n'] + b, rows)
  {
    var text := a + ['\n'] + b;
    var rows' := rows + [Split(a, ',')];
    var st := Run(text, Scan(rows, [], "", false));
    var st' := Run(b, Scan(rows', [], "", false));
    assert st == st' by { LineNewline(a, b, rows); }
    var cells := Cells(Split(text, '\n'));
    var tail := Cells(Split(b, '\n'));
    assert cells[..|cells| - 1] == [Split(a, ',')] + tail[..|tail| - 1] && cells[|cells| - 1] == tail[|tail| - 1]
      by { LinesCons(a, b); }
    assert !st'.inQuotes && st'.rows == rows' + tail[..|tail| - 1] && st'.row + [st'.cur] == tail[|tail| - 1];
    ConsAssoc(rows, Split(a, ','), tail[..|tail| - 1]);
  }

  lemma ConsAssoc<T>(r: seq<T>, x: T, xs: seq<T>)
    ensures r + [x] + xs == r + ([x] + xs)
  {
  }

  /** The cells of a line followed by more lines. */
  lemma LinesCons(a: string, b: string)
    requires '\n' !in a
    ensures var cells := Cells(Split(a + ['\n'] + b, '\n')); var tail := Cells(Split(b, '\n'));
      cells[..|cells| - 1] == [Split(a, ',')] + tail[..|tail| - 1] && cells[|cells| - 1] == tail[|tail| - 1]
  {
    SplitCons(a, '\n', b);
    var cells := Cells(Split(a + ['\n'] + b, '\n'));
    var tail := Cells(Split(b, '\n'));
    assert cells == [Split(a, ',')] + tail;
  }

  /** Unquoted, carriage-return-free text read from a fresh row. */
  lemma {:induction false} LinesRun(text: string, rows: seq<seq<string>>)
    requires '"' !in text && '\r' !in text
    ensures LinesRead(text, rows)
    decreases |text|
  {
    var k := IndexOf(text, '\n');
    if k == |text| {
      assert text[..k] == text;
      LastLine(text, rows);
    } else {
      var a, b := text[..k], text[k + 1..];
      assert text == a + ['\n'] + b;
      LinesRun(b, rows + [Split(a, ',')]);
      NextLine(a, b, rows);
    }
  }

  /** Reading a text in two pieces: the loop on the second piece starts where the first one ended. */
  lemma {:induction false} RunAppend(a: string, b: string, st: Scan)
    requires '"' !in a
    requires !st.inQuotes
    ensures Run(a + b, st) == Run(b, Run(a, st))
    decreases |a|
  {
    if a == [] {
      assert a + b == b;
    } else {
      assert (a + b)[0] == a[0] && (a + b)[1..] == a[1..] + b;
      var c := a[0];
      var next := Plain(c, st);
      PlainStep(a, st);
      PlainStep(a + b, st);
      RunAppend(a[1..], b, next);
    }
  }

  /**
   * Text without quotes and carriage returns parses into its lines split at
   * commas, with a last line that is empty (the text ends with a newline, or
   * is empty) left out.
   */
  lemma UnquotedTable(text: string)
    requires '"' !in text && '\r' !in text
    ensures var cells := Cells(Split(text, '\n'));
      CsvTable(text) == if Split(text, '\n')[|cells| - 1] == "" then cells[..|cells| - 1] else cells
  {
    var lines := Split(text, '\n');
    var cells := Cells(lines);
    var st := Run(text, Scan([], [], "", false));
    assert !st.inQuotes && st.rows == cells[..|cells| - 1] && st.row + [st.cur] == cells[|cells| - 1] by {
      LinesRun(text, []);
      assert [] + cells[..|cells| - 1] == cells[..|cells| - 1];
    }
    assert CsvTable(text) == Finish(st);
    if cells[|cells| - 1] == [""] {
      SplitEmptyOnly(lines[|cells| - 1], ',');
    } else {
      assert cells[..|cells| - 1] + [cells[|cells| - 1]] == cells;
    }
  }

  /** The text without its carriage returns. */
  function DropCR(s: string): (r: string)
    ensures '\r' !in r
    ensures forall c :: c in r ==> c in s
  {
    if s == [] then [] else (if s[0] == '\r' then [] else [s[0]]) + DropCR(s[1..])
  }

  /** Outside quotes a carriage return changes nothing, so CRLF text parses as LF text. */
  lemma {:induction false} CarriageReturnsIgnored(text: string, st: Scan)
    requires '"' !in text && !st.inQuotes
    ensures Run(text, st) == Run(DropCR(text), st)
    decreases |text|
  {
    if text != [] {
      var c := text[0];
      var next := Plain(c, st);
      PlainStep(text, st);
      assert Run(text, st) == Run(text[1..], next);
      CarriageReturnsIgnored(text[1..], next);
      if c == '\r' {
        assert DropCR(text) == DropCR(text[1..]);
      } else {
        var d := DropCR(text);
        assert d == [c] + DropCR(text[1..]);
        assert d[0] == c && d[1..] == DropCR(text[1..]);
        assert Run(d, st) == Run(d[1..], next);
      }
    }
  }

  /** Quote-free text parses the same with and without carriage returns. */
  lemma CsvIgnoresCR(text: string)
    requires '"' !in text
    ensures CsvTable(text) == CsvTable(DropCR(text))
  {
    CarriageReturnsIgnored(text, Start);
  }
}

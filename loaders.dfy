/**
 * The CSV loaders of src/data/loaders.ts once the text is fetched: the
 * player-values table keyed by Sleeper id, and the pick-value curve keyed by
 * pick name and by (season, round, pick), together with the pick-key and
 * overall-number helpers exported next to them.
 */
module Loaders {
  import opened Wrappers
  import opened Strings
  import opened Numbers
  import opened Picks
  import opened Csv

  // ------------------------------------------------------------ table cells

  /** `line[i]`: undefined past the end of a short row (or for a missing column). */
  function Cell(line: seq<string>, i: int): Option<string> {
    if 0 <= i < |line| then Some(line[i]) else None
  }

  /** `line.every(c => c.trim() === '')`: a row of blank cells, skipped by both loaders. */
  predicate BlankLine(line: seq<string>) {
    forall i :: 0 <= i < |line| ==> Trim(line[i]) == ""
  }

  /** `headers.indexOf(name)`: the first position of the name, or -1. */
  function Idx(headers: seq<string>, name: string): (k: int)
    ensures -1 <= k < |headers|
    ensures k >= 0 <==> name in headers
    ensures k >= 0 ==> headers[k] == name && name !in headers[..k]
  {
    if headers == [] then -1
    else if headers[0] == name then 0
    else
      var k := Idx(headers[1..], name);
      if k < 0 then -1 else k + 1
  }

  /** `table[0].map(h => h.trim())`. */
  function TrimAll(cells: seq<string>): seq<string> {
    seq(|cells|, i requires 0 <= i < |cells| => Trim(cells[i]))
  }

  // ------------------------------------------------------------ header patterns

  /** What `.` matches in a JavaScript regular expression without the `s` flag: anything but a line terminator. */
  predicate NotLineTerminator(c: char) {
    c != '\n' && c != '\r' && c != '\U{2028}' && c != '\U{2029}'
  }

  /**
   * The lower-case ASCII literal `lit` occurs at position `i` of `h`, ignoring
   * ASCII case (the `i` flag never folds a non-ASCII character onto an ASCII one).
   */
  predicate LiteralAt(h: string, i: int, lit: string) {
    0 <= i && i + |lit| <= |h| && ToLower(h[i..i + |lit|]) == lit
  }

  /** `/sleeper.?id/i` matches starting at `i`. */
  predicate SleeperIdAt(h: string, i: int) {
    LiteralAt(h, i, "sleeper") &&
    (LiteralAt(h, i + 7, "id") || (i + 7 < |h| && NotLineTerminator(h[i + 7]) && LiteralAt(h, i + 8, "id")))
  }

  /** `/sleeper.?id/i.test(h)`. */
  predicate SleeperIdPattern(h: string) {
    exists i :: 0 <= i < |h| && SleeperIdAt(h, i)
  }

  predicate Separator(c: char) { c == '_' || c == ' ' }

  /** `[_ ]?1000` from position `k`. */
  predicate ThousandFrom(h: string, k: int) {
    LiteralAt(h, k, "1000") || (0 <= k < |h| && Separator(h[k]) && LiteralAt(h, k + 1, "1000"))
  }

  /** `[_ ]?final[_ ]?1000` from position `j`. */
  predicate FinalFrom(h: string, j: int) {
    (LiteralAt(h, j, "final") && ThousandFrom(h, j + 5)) ||
    (0 <= j < |h| && Separator(h[j]) && LiteralAt(h, j + 1, "final") && ThousandFrom(h, j + 6))
  }

  /** `/value[_ ]?final[_ ]?1000/i.test(h)`. */
  predicate ValueFinalPattern(h: string) {
    exists i :: 0 <= i < |h| && LiteralAt(h, i, "value") && FinalFrom(h, i + 5)
  }

  /** `headers.find(pred)`: the first header satisfying the predicate. */
  function Find(headers: seq<string>, p: string -> bool): (r: Option<string>)
    ensures r.Some? ==> r.value in headers && p(r.value)
    ensures r.None? <==> forall i :: 0 <= i < |headers| ==> !p(headers[i])
  {
    if headers == [] then None
    else if p(headers[0]) then Some(headers[0])
    else Find(headers[1..], p)
  }

  /** `Find` returns the first match: no header before it matches. */
  lemma {:induction false} FindFirst(headers: seq<string>, p: string -> bool)
    requires Find(headers, p).Some?
    ensures exists k :: (0 <= k < |headers| && headers[k] == Find(headers, p).value &&
      forall i :: 0 <= i < k ==> !p(headers[i]))
  {
    if !p(headers[0]) {
      FindFirst(headers[1..], p);
      var k :| 0 <= k < |headers[1..]| && headers[1..][k] == Find(headers[1..], p).value &&
        forall i :: 0 <= i < k ==> !p(headers[1..][i]);
      assert headers[k + 1] == Find(headers, p).value;
    } else {
      assert headers[0] == Find(headers, p).value;
    }
  }

  /** The id column: `sleeper_id` itself, else the first header matching `/sleeper.?id/i`. */
  function IdColumn(headers: seq<string>): (c: Option<string>)
    ensures "sleeper_id" in headers ==> c == Some("sleeper_id")
    ensures c.Some? ==> c.value in headers && SleeperIdPattern(c.value)
  {
    SleeperIdMatches();
    if Idx(headers, "sleeper_id") >= 0 then Some("sleeper_id") else Find(headers, SleeperIdPattern)
  }

  /** The value column: `value_final_1000` itself, else the first header matching `/value[_ ]?final[_ ]?1000/i`. */
  function ValueColumn(headers: seq<string>): (c: Option<string>)
    ensures "value_final_1000" in headers ==> c == Some("value_final_1000")
    ensures c.Some? ==> c.value in headers && ValueFinalPattern(c.value)
  {
    ValueFinalMatches();
    if Idx(headers, "value_final_1000") >= 0 then Some("value_final_1000") else Find(headers, ValueFinalPattern)
  }

  lemma SleeperIdMatches()
    ensures SleeperIdPattern("sleeper_id")
  {
    assert SleeperIdAt("sleeper_id", 0) by {
      assert "sleeper_id"[0..7] == "sleeper";
      assert "sleeper_id"[8..10] == "id";
    }
  }

  lemma ValueFinalMatches()
    ensures ValueFinalPattern("value_final_1000")
  {
    var h := "value_final_1000";
    assert h[0..5] == "value" && h[6..11] == "final" && h[12..16] == "1000";
    assert LiteralAt(h, 0, "value") && FinalFrom(h, 5);
  }

  /** The id column is missing exactly when no header matches `/sleeper.?id/i`. */
  lemma IdColumnMissing(headers: seq<string>)
    ensures IdColumn(headers).None? <==> forall i :: 0 <= i < |headers| ==> !SleeperIdPattern(headers[i])
  {
    SleeperIdMatches();
    if "sleeper_id" in headers {
      var k := Idx(headers, "sleeper_id");
      assert SleeperIdPattern(headers[k]);
    }
  }

  /**
   * Without the exact `sleeper_id` header, the id column is the first header
   * that matches the pattern: every header before it fails the pattern.
   */
  lemma IdColumnFirst(headers: seq<string>)
    ensures IdColumn(headers).Some? && "sleeper_id" !in headers ==>
      exists k :: 0 <= k < |headers| && headers[k] == IdColumn(headers).value &&
        forall i :: 0 <= i < k ==> !SleeperIdPattern(headers[i])
  {
    if IdColumn(headers).Some? && "sleeper_id" !in headers {
      assert Idx(headers, "sleeper_id") < 0;
      FindFirst(headers, SleeperIdPattern);
    }
  }

  /**
   * Every spelling of "sleeper", then at most one character that is not a line
   * terminator, then any spelling of "id", anywhere in a header, matches
   * `/sleeper.?id/i`: "Sleeper ID", "sleeperId" and "SLEEPER-ID" alike.
   */
  lemma SleeperIdSpellings(pre: string, word: string, sep: string, id: string, post: string)
    requires ToLower(word) == "sleeper" && ToLower(id) == "id"
    requires |sep| == 0 || (|sep| == 1 && NotLineTerminator(sep[0]))
    ensures SleeperIdPattern(pre + word + sep + id + post)
  {
    var h := pre + word + sep + id + post;
    var i := |pre|;
    assert h[i..i + 7] == word;
    assert h[i + 7 + |sep|..i + 9 + |sep|] == id;
    if |sep| == 1 {
      assert h[i + 7] == sep[0];
    }
    assert SleeperIdAt(h, i);
  }

  // ------------------------------------------------------------ players

  /** A player row: the trimmed cells by header, with `sleeper_id` set to the key, and the parsed value. */
  datatype PlayerRow = PlayerRow(sleeperId: string, columns: map<string, string>, value: Option<real>)

  datatype LoadedPlayers = LoadedPlayers(rows: seq<PlayerRow>, bySleeperId: map<string, PlayerRow>,
                                         valueBySleeperId: map<string, real>)

  /** `line[i]?.trim?.() ?? ''`. */
  function CellText(line: seq<string>, i: int): string {
    match Cell(line, i)
    case Some(c) => Trim(c)
    case None => ""
  }

  /** `headers.forEach((h, i) => obj[h] = ...)` over the first |hs| headers: a later duplicate header overwrites. */
  function RowObject(hs: seq<string>, line: seq<string>): (obj: map<string, string>)
    ensures obj.Keys == set h | h in hs
  {
    if hs == [] then map[]
    else RowObject(hs[..|hs| - 1], line)[hs[|hs| - 1] := CellText(line, |hs| - 1)]
  }

  /** The cell under a header is the one in the last column with that header. */
  lemma {:induction false} RowObjectCell(hs: seq<string>, line: seq<string>, i: nat)
    requires i < |hs| && hs[i] !in hs[i + 1..]
    ensures RowObject(hs, line)[hs[i]] == CellText(line, i)
  {
    var n := |hs| - 1;
    if i < n {
      HeadersInit(hs, i);
      RowObjectCell(hs[..n], line, i);
      RowObjectCellStep(hs, line, i);
    }
  }

  /** Dropping the last header keeps header i, and keeps it unrepeated after i. */
  lemma HeadersInit(hs: seq<string>, i: nat)
    requires i < |hs| - 1 && hs[i] !in hs[i + 1..]
    ensures hs[..|hs| - 1][i] == hs[i] && hs[i] !in hs[..|hs| - 1][i + 1..] && hs[i] != hs[|hs| - 1]
  {
    var n := |hs| - 1;
    assert hs[n] in hs[i + 1..];
    assert hs[..n][i + 1..] == hs[i + 1..n];
  }

  /** The last header's assignment leaves the cell of an earlier, different header as it was. */
  lemma RowObjectCellStep(hs: seq<string>, line: seq<string>, i: nat)
    requires i < |hs| - 1 && hs[i] != hs[|hs| - 1] && hs[..|hs| - 1][i] == hs[i]
    requires RowObject(hs[..|hs| - 1], line)[hs[i]] == CellText(line, i)
    ensures RowObject(hs, line)[hs[i]] == CellText(line, i)
  {
  }

  /** One row of values.csv; None when the loop skips it (blank row, or empty key). */
  function PlayerRowOf(headers: seq<string>, idCol: string, valueCol: Option<string>, line: seq<string>): (r: Option<PlayerRow>)
    requires idCol in headers && (valueCol.Some? ==> valueCol.value in headers)
    ensures r.Some? ==> !BlankLine(line) && r.value.sleeperId != ""
    ensures r.Some? ==> "sleeper_id" in r.value.columns && r.value.columns["sleeper_id"] == r.value.sleeperId
    ensures r.Some? ==> "value_final_1000" !in r.value.columns
    ensures r.Some? ==> (r.value.value.Some? <==> valueCol.Some?)
  {
    if BlankLine(line) then None
    else
      var obj := RowObject(headers, line);
      var key := Trim(obj[idCol]);
      if key == "" then None
      else
        var value := match valueCol
          case Some(vc) => Some(ToNum(Some(obj[vc]), 0.0))
          case None => None;
        Some(PlayerRow(key, obj["sleeper_id" := key] - {"value_final_1000"}, value))
  }

  /** The loop's bookkeeping over the rows it kept: rows in order, later rows overwriting earlier ones by key. */
  function Collect(kept: seq<Option<PlayerRow>>): (res: LoadedPlayers)
    ensures |res.rows| <= |kept|
  {
    if kept == [] then LoadedPlayers([], map[], map[]) else Push(Collect(kept[..|kept| - 1]), kept[|kept| - 1])
  }

  /** The pushes for one data row: append the row, and record it (and its value, if any) under its key. */
  function Push(acc: LoadedPlayers, r: Option<PlayerRow>): (res: LoadedPlayers)
    ensures |res.rows| <= |acc.rows| + 1
  {
    match r
    case None => acc
    case Some(row) =>
      LoadedPlayers(acc.rows + [row], acc.bySleeperId[row.sleeperId := row],
        if row.value.Some? then acc.valueBySleeperId[row.sleeperId := row.value.value] else acc.valueBySleeperId)
  }

  /** Each data row read on its own. */
  function PlayerRowsOf(headers: seq<string>, idCol: string, valueCol: Option<string>, lines: seq<seq<string>>): (kept: seq<Option<PlayerRow>>)
    requires idCol in headers && (valueCol.Some? ==> valueCol.value in headers)
    ensures |kept| == |lines|
  {
    if lines == [] then []
    else PlayerRowsOf(headers, idCol, valueCol, lines[..|lines| - 1]) + [PlayerRowOf(headers, idCol, valueCol, lines[|lines| - 1])]
  }

  lemma {:induction false} PlayerRowsOfAt(headers: seq<string>, idCol: string, valueCol: Option<string>, lines: seq<seq<string>>, i: nat)
    requires idCol in headers && (valueCol.Some? ==> valueCol.value in headers)
    requires i < |lines|
    ensures PlayerRowsOf(headers, idCol, valueCol, lines)[i] == PlayerRowOf(headers, idCol, valueCol, lines[i])
  {
    if i < |lines| - 1 {
      PlayerRowsOfAt(headers, idCol, valueCol, lines[..|lines| - 1], i);
    }
  }

  /** One more row through the loop body. */
  lemma CollectTake(kept: seq<Option<PlayerRow>>, r: nat)
    requires r < |kept|
    ensures Collect(kept[..r + 1]) == Push(Collect(kept[..r]), kept[r])
  {
    assert kept[..r + 1][..r] == kept[..r];
  }

  const MissingIdColumn := "values.csv missing sleeper_id column"

  /** `loadValuesCSV` on the fetched text. */
  function LoadValues(text: string): Result<LoadedPlayers> {
    var table := CsvTable(Trim(text));
    if |table| == 0 then Ok(LoadedPlayers([], map[], map[]))
    else
      var headers := TrimAll(table[0]);
      var idCol := IdColumn(headers);
      if idCol.None? then Err(MissingIdColumn)
      else
        var valueCol := ValueColumn(headers);
        Ok(Collect(PlayerRowsOf(headers, idCol.value, valueCol, table[1..])))
  }

  /** The `forEach` that fills `obj` from a row. */
  method BuildRowObject(headers: seq<string>, line: seq<string>) returns (obj: map<string, string>)
    ensures obj == RowObject(headers, line)
  {
    obj := map[];
    var i := 0;
    while i < |headers|
      invariant 0 <= i <= |headers|
      invariant obj == RowObject(headers[..i], line)
    {
      var cell := if i < |line| then Trim(line[i]) else "";
      obj := obj[headers[i] := cell];
      assert headers[..i + 1][..i] == headers[..i];
      i := i + 1;
    }
    assert headers[..i] == headers;
  }

  /** The body of the row loop up to the pushes: skip blank rows and empty keys, otherwise build the row. */
  method ReadPlayerRow(headers: seq<string>, idCol: string, valueCol: Option<string>, line: seq<string>)
    returns (r: Option<PlayerRow>)
    requires idCol in headers && (valueCol.Some? ==> valueCol.value in headers)
    ensures r == PlayerRowOf(headers, idCol, valueCol, line)
  {
    if BlankLine(line) {
      return None;
    }
    var obj := BuildRowObject(headers, line);
    var key := Trim(obj[idCol]);
    if key == "" {
      return None;
    }
    var value := if valueCol.Some? then Some(ToNum(Some(obj[valueCol.value]), 0.0)) else None;
    r := Some(PlayerRow(key, obj["sleeper_id" := key] - {"value_final_1000"}, value));
  }

  /** `rows.push(obj)`, `bySleeperId[key] = obj` and, when the value parsed, `valueBySleeperId[key] = value`. */
  method PushPlayer(rows: seq<PlayerRow>, bySleeperId: map<string, PlayerRow>, valueBySleeperId: map<string, real>,
                    row: Option<PlayerRow>)
    returns (rows': seq<PlayerRow>, bySleeperId': map<string, PlayerRow>, valueBySleeperId': map<string, real>)
    ensures LoadedPlayers(rows', bySleeperId', valueBySleeperId') == Push(LoadedPlayers(rows, bySleeperId, valueBySleeperId), row)
  {
    rows', bySleeperId', valueBySleeperId' := rows, bySleeperId, valueBySleeperId;
    if row.Some? {
      var key := row.value.sleeperId;
      rows' := rows' + [row.value];
      bySleeperId' := bySleeperId'[key := row.value];
      if row.value.value.Some? {
        valueBySleeperId' := valueBySleeperId'[key := row.value.value.value];
      }
    }
  }

  /** The loop `for (let r = 1; r < table.length; r++)` over the data rows `lines` (the table without its header row). */
  method ReadPlayers(headers: seq<string>, idCol: string, valueCol: Option<string>, lines: seq<seq<string>>)
    returns (res: LoadedPlayers)
    requires idCol in headers && (valueCol.Some? ==> valueCol.value in headers)
    ensures res == Collect(PlayerRowsOf(headers, idCol, valueCol, lines))
    ensures valueCol.Some? ==> res.valueBySleeperId.Keys == res.bySleeperId.Keys
    ensures valueCol.None? ==> res.valueBySleeperId == map[]
  {
    var rows: seq<PlayerRow> := [];
    var bySleeperId: map<string, PlayerRow> := map[];
    var valueBySleeperId: map<string, real> := map[];
    ghost var kept := PlayerRowsOf(headers, idCol, valueCol, lines);
    var r := 0;
    while r < |lines|
      invariant 0 <= r <= |lines|
      invariant LoadedPlayers(rows, bySleeperId, valueBySleeperId) == Collect(kept[..r])
    {
      var row := ReadPlayerRow(headers, idCol, valueCol, lines[r]);
      PlayerRowsOfAt(headers, idCol, valueCol, lines, r);
      CollectTake(kept, r);
      rows, bySleeperId, valueBySleeperId := PushPlayer(rows, bySleeperId, valueBySleeperId, row);
      r := r + 1;
    }
    assert kept[..r] == kept;
    res := LoadedPlayers(rows, bySleeperId, valueBySleeperId);
    PlayerValues(headers, idCol, valueCol, lines);
  }

  /** `loadValuesCSV` after the fetch: parse, find the columns, then one pass over the data rows. */
  method LoadValuesCSV(text: string) returns (res: Result<LoadedPlayers>)
    ensures res == LoadValues(text)
  {
    var table := ParseCSV(Trim(text));
    if |table| == 0 {
      return Ok(LoadedPlayers([], map[], map[]));
    }
    var headers := TrimAll(table[0]);
    var idCol := IdColumn(headers);
    if idCol.None? {
      return Err(MissingIdColumn);
    }
    var valueCol := ValueColumn(headers);
    var players := ReadPlayers(headers, idCol.value, valueCol, table[1..]);
    res := Ok(players);
  }

  // ------------------------------------------------------------ player properties

  /** The kept rows are exactly the rows not skipped. */
  lemma {:induction false} CollectRows(kept: seq<Option<PlayerRow>>)
    ensures forall r :: r in Collect(kept).rows <==> exists i :: 0 <= i < |kept| && kept[i] == Some(r)
  {
    if kept != [] {
      var init := kept[..|kept| - 1];
      CollectRows(init);
      assert forall i :: 0 <= i < |init| ==> kept[i] == init[i];
    }
  }

  /** The rows appear in the order of the data rows they come from. */
  lemma {:induction false} CollectOrder(kept: seq<Option<PlayerRow>>, i: nat, j: nat)
    requires i < j < |kept| && kept[i].Some? && kept[j].Some?
    ensures exists a, b :: (0 <= a < b < |Collect(kept).rows| &&
      Collect(kept).rows[a] == kept[i].value && Collect(kept).rows[b] == kept[j].value)
  {
    var init := kept[..|kept| - 1];
    if j < |kept| - 1 {
      CollectOrder(init, i, j);
      var a, b :| 0 <= a < b < |Collect(init).rows| &&
        Collect(init).rows[a] == init[i].value && Collect(init).rows[b] == init[j].value;
      assert Collect(kept).rows[..|Collect(init).rows|] == Collect(init).rows;
    } else {
      CollectIndex(init, i);
      var a :| 0 <= a < |Collect(init).rows| && Collect(init).rows[a] == init[i].value;
      assert init[i] == kept[i];
      assert Collect(kept).rows == Collect(init).rows + [kept[j].value];
      assert Collect(kept).rows[a] == kept[i].value;
      assert Collect(kept).rows[|Collect(init).rows|] == kept[j].value;
    }
  }

  lemma CollectIndex(kept: seq<Option<PlayerRow>>, i: nat)
    requires i < |kept| && kept[i].Some?
    ensures exists a :: 0 <= a < |Collect(kept).rows| && Collect(kept).rows[a] == kept[i].value
  {
    CollectRows(kept);
    assert kept[i].value in Collect(kept).rows;
  }

  /** A key is in `bySleeperId` exactly when some kept row has it, and it maps to the last such row. */
  lemma {:induction false} CollectById(kept: seq<Option<PlayerRow>>, k: string)
    ensures var res := Collect(kept);
      (k in res.bySleeperId <==> exists i :: 0 <= i < |res.rows| && res.rows[i].sleeperId == k) &&
      (k in res.bySleeperId ==> exists i :: (0 <= i < |res.rows| && res.rows[i] == res.bySleeperId[k] &&
        forall j :: i < j < |res.rows| ==> res.rows[j].sleeperId != k))
  {
    if kept != [] {
      var init := kept[..|kept| - 1];
      var acc := Collect(init);
      CollectById(init, k);
      var res := Collect(kept);
      if kept[|kept| - 1].Some? {
        var row := kept[|kept| - 1].value;
        assert res.rows == acc.rows + [row];
        assert forall i :: 0 <= i < |acc.rows| ==> res.rows[i] == acc.rows[i];
        if row.sleeperId == k {
          assert res.rows[|acc.rows|] == res.bySleeperId[k];
        } else if k in res.bySleeperId {
          var i :| 0 <= i < |acc.rows| && acc.rows[i] == acc.bySleeperId[k] &&
            forall j :: i < j < |acc.rows| ==> acc.rows[j].sleeperId != k;
          assert res.rows[i] == res.bySleeperId[k];
        }
      }
    }
  }

  /**
   * A key has a value exactly when some kept row with that key has one, and
   * it is the value of the last such row. Only rows read without a value
   * column have none (see `PlayerValues`).
   */
  lemma {:induction false} CollectValues(kept: seq<Option<PlayerRow>>, k: string)
    ensures var res := Collect(kept);
      (k in res.valueBySleeperId <==> exists i :: 0 <= i < |res.rows| && res.rows[i].sleeperId == k && res.rows[i].value.Some?) &&
      (k in res.valueBySleeperId ==> exists i :: (0 <= i < |res.rows| && res.rows[i].sleeperId == k &&
        res.rows[i].value == Some(res.valueBySleeperId[k]) &&
        forall j :: i < j < |res.rows| && res.rows[j].sleeperId == k ==> res.rows[j].value.None?))
  {
    if kept != [] {
      var init := kept[..|kept| - 1];
      var acc := Collect(init);
      CollectValues(init, k);
      var res := Collect(kept);
      if kept[|kept| - 1].Some? {
        var row := kept[|kept| - 1].value;
        assert res.rows == acc.rows + [row];
        assert forall i :: 0 <= i < |acc.rows| ==> res.rows[i] == acc.rows[i];
        if row.sleeperId == k && row.value.Some? {
          assert res.rows[|acc.rows|].value == Some(res.valueBySleeperId[k]);
        } else if k in res.valueBySleeperId {
          var i :| 0 <= i < |acc.rows| && acc.rows[i].sleeperId == k &&
            acc.rows[i].value == Some(acc.valueBySleeperId[k]) &&
            forall j :: i < j < |acc.rows| && acc.rows[j].sleeperId == k ==> acc.rows[j].value.None?;
          assert res.rows[i].value == Some(res.valueBySleeperId[k]);
        }
      }
    }
  }

  /**
   * With a value column every kept row has a value, so `valueBySleeperId`
   * has exactly the keys of `bySleeperId`, each with its row's value; without
   * one it stays empty.
   */
  lemma PlayerValues(headers: seq<string>, idCol: string, valueCol: Option<string>, lines: seq<seq<string>>)
    requires idCol in headers && (valueCol.Some? ==> valueCol.value in headers)
    ensures var res := Collect(PlayerRowsOf(headers, idCol, valueCol, lines));
      (valueCol.Some? ==> (res.valueBySleeperId.Keys == res.bySleeperId.Keys &&
        forall k :: k in res.bySleeperId ==> res.bySleeperId[k].value == Some(res.valueBySleeperId[k]))) &&
      (valueCol.None? ==> res.valueBySleeperId == map[])
  {
    var kept := PlayerRowsOf(headers, idCol, valueCol, lines);
    forall i | 0 <= i < |kept| && kept[i].Some?
      ensures kept[i].value.value.Some? <==> valueCol.Some?
    {
      PlayerRowsOfAt(headers, idCol, valueCol, lines, i);
    }
    if valueCol.Some? {
      CollectMirror(kept);
    } else {
      CollectNoValues(kept);
    }
  }

  /** When every kept row has a value, the value map mirrors `bySleeperId`. */
  lemma {:induction false} CollectMirror(kept: seq<Option<PlayerRow>>)
    requires forall i :: 0 <= i < |kept| && kept[i].Some? ==> kept[i].value.value.Some?
    ensures var res := Collect(kept);
      res.valueBySleeperId.Keys == res.bySleeperId.Keys &&
      forall k :: k in res.bySleeperId ==> res.bySleeperId[k].value == Some(res.valueBySleeperId[k])
  {
    if kept != [] {
      var init := kept[..|kept| - 1];
      assert forall i :: 0 <= i < |init| ==> init[i] == kept[i];
      CollectMirror(init);
    }
  }

  /** When no kept row has a value, the value map stays empty. */
  lemma {:induction false} CollectNoValues(kept: seq<Option<PlayerRow>>)
    requires forall i :: 0 <= i < |kept| && kept[i].Some? ==> kept[i].value.value.None?
    ensures Collect(kept).valueBySleeperId == map[]
  {
    if kept != [] {
      var init := kept[..|kept| - 1];
      assert forall i :: 0 <= i < |init| ==> init[i] == kept[i];
      CollectNoValues(init);
    }
  }

  /**
   * A kept row's value with a value column: the cell's number when it is
   * finite, and `toNum`'s default 0 for any other text.
   */
  lemma PlayerValue(headers: seq<string>, idCol: string, vc: string, line: seq<string>)
    requires idCol in headers && vc in headers
    requires PlayerRowOf(headers, idCol, Some(vc), line).Some?
    ensures var v := PlayerRowOf(headers, idCol, Some(vc), line).value.value;
      var cell := RowObject(headers, line)[vc];
      (ParseDecimal(cell).Some? ==> v == ParseDecimal(cell)) &&
      (ParseDecimal(cell).None? ==> v == Some(0.0))
  {
  }

  /** A value cell holding a number's rendering gives back that number. */
  lemma PlayerValueRendered(headers: seq<string>, idCol: string, vc: string, line: seq<string>, u: int, k: nat)
    requires idCol in headers && vc in headers
    requires PlayerRowOf(headers, idCol, Some(vc), line).Some?
    requires RowObject(headers, line)[vc] == DecimalToString(u, k)
    ensures PlayerRowOf(headers, idCol, Some(vc), line).value.value == Some(DecimalValue(u, k))
  {
    DecimalRoundTrip(u, k);
  }

  /** An empty (or blank) file loads as nothing; a file without an id column is an error. */
  lemma LoadValuesOutcomes(text: string)
    ensures CsvTable(Trim(text)) == [] ==> LoadValues(text) == Ok(LoadedPlayers([], map[], map[]))
    ensures var table := CsvTable(Trim(text));
      table != [] ==> (LoadValues(text) == Err(MissingIdColumn) <==>
        forall i :: 0 <= i < |table[0]| ==> !SleeperIdPattern(Trim(table[0][i])))
  {
    var table := CsvTable(Trim(text));
    if table != [] {
      var headers := TrimAll(table[0]);
      assert |headers| == |table[0]| && forall i :: 0 <= i < |headers| ==> headers[i] == Trim(table[0][i]);
      IdColumnMissing(headers);
      assert LoadValues(text) == Err(MissingIdColumn) <==> IdColumn(headers).None?;
    }
  }

  // ------------------------------------------------------------ pick keys and overall numbers

  /** `pickKeyFromParts`: `"<season> <round>.<pick padded to two>"`. */
  function PickKeyFromParts(season: Num, round: Num, pick: Num): string {
    NumToString(season) + " " + NumToString(round) + "." + Pad2Num(pick)
  }

  /** The loader's key is the canonical name of picks.ts for the season written out. */
  lemma PickKeyFromPartsIsLabel(season: Num, round: Num, pick: Num)
    ensures PickKeyFromParts(season, round, pick) == BuildPickName(NumToString(season), round, pick)
  {
  }

  /** `overallInSeason`. */
  function OverallInSeason(round: int, pick: int): int {
    (round - 1) * 32 + pick
  }

  /** Rounds 1..7 of a 32-team league number their picks 1..224, agreeing with `overallFrom`. */
  lemma OverallInSeasonRange(round: int, pick: int)
    requires 1 <= round <= 7 && 1 <= pick <= 32
    ensures 1 <= OverallInSeason(round, pick) <= 224
    ensures Finite(OverallInSeason(round, pick)) == OverallFrom(Finite(round), Finite(pick))
  {
    OverallFromRange(round, pick, 32);
  }

  /** `overallCumulative`: 224 picks per season counted from the base season. */
  function OverallCumulative(season: int, round: int, pick: int, baseSeason: int := 2026, zeroIndexed: bool := true): int {
    var within := OverallInSeason(round, pick);
    var baseOffset := (season - baseSeason) * 224;
    if zeroIndexed then baseOffset + within - 1 else baseOffset + within
  }

  /** The zero-indexed count is the one-indexed count minus one; the first pick of the base season is 0. */
  lemma OverallCumulativeIndexing(season: int, round: int, pick: int, baseSeason: int)
    ensures OverallCumulative(season, round, pick, baseSeason, true) == OverallCumulative(season, round, pick, baseSeason, false) - 1
    ensures OverallCumulative(baseSeason, 1, 1, baseSeason, true) == 0
  {
  }

  /** The count runs on across seasons: the first pick of a season follows the last (7.32) of the one before. */
  lemma OverallCumulativeContinues(season: int, baseSeason: int, zeroIndexed: bool)
    ensures OverallCumulative(season + 1, 1, 1, baseSeason, zeroIndexed) ==
      OverallCumulative(season, 7, 32, baseSeason, zeroIndexed) + 1
  {
    assert (season + 1 - baseSeason) * 224 == (season - baseSeason) * 224 + 224;
  }

  /** Within the seven-round, 32-slot grid the zero-indexed count of a season s fills [224(s - base), 224(s - base) + 223]. */
  lemma OverallCumulativeRange(season: int, round: int, pick: int, baseSeason: int)
    requires 1 <= round <= 7 && 1 <= pick <= 32
    ensures var o := OverallCumulative(season, round, pick, baseSeason, true);
      (season - baseSeason) * 224 <= o <= (season - baseSeason) * 224 + 223
  {
    OverallInSeasonRange(round, pick);
  }

  /** On the grid, different picks have different cumulative numbers. */
  lemma OverallCumulativeInjective(s1: int, r1: int, p1: int, s2: int, r2: int, p2: int, baseSeason: int, zeroIndexed: bool)
    requires 1 <= r1 <= 7 && 1 <= p1 <= 32 && 1 <= r2 <= 7 && 1 <= p2 <= 32
    requires OverallCumulative(s1, r1, p1, baseSeason, zeroIndexed) == OverallCumulative(s2, r2, p2, baseSeason, zeroIndexed)
    ensures s1 == s2 && r1 == r2 && p1 == p2
  {
    OverallInSeasonRange(r1, p1);
    OverallInSeasonRange(r2, p2);
    var w1, w2 := OverallInSeason(r1, p1), OverallInSeason(r2, p2);
    var d := s1 - s2;
    assert (s1 - baseSeason) * 224 - (s2 - baseSeason) * 224 == d * 224;
    assert d * 224 == w2 - w1;
    if d >= 1 {
      AtLeastOneRow(d, 224);
    } else if d <= -1 {
      AtLeastOneRow(-d, 224);
    }
    OverallFromInjective(r1, p1, r2, p2, 32);
  }

  // ------------------------------------------------------------ pick curve

  /** The header positions the pick loader looks up. */
  datatype Columns = Columns(pickName: int, kind: int, value: int, season: int, round: int, pick: int, overallPick: int)

  function ColumnsOf(headers: seq<string>): Columns {
    Columns(Idx(headers, "pick_name"), Idx(headers, "type"), Idx(headers, "value"), Idx(headers, "season"),
            Idx(headers, "round"), Idx(headers, "pick"), Idx(headers, "overall_pick"))
  }

  /** A curve row: `kind` is the `type` column; season, round and pick may be NaN. */
  datatype PickCurveRow = PickCurveRow(pickName: string, kind: Option<string>, value: real,
                                       season: Num, round: Num, pick: Num, overallPick: Option<real>)

  datatype LoadedPickValues = LoadedPickValues(rows: seq<PickCurveRow>, byPickName: map<string, real>,
                                               byTriple: map<string, real>)

  /** `s?.split(sep)[i]`. */
  function SplitPart(s: Option<string>, sep: char, i: nat): (r: Option<string>)
    ensures r.Some? ==> s.Some? && i < |Split(s.value, sep)| && r.value == Split(s.value, sep)[i]
  {
    match s
    case None => None
    case Some(t) => var parts := Split(t, sep); if i < |parts| then Some(parts[i]) else None
  }

  /** `${season}|${round}|${pick}`. */
  function TripleKey(season: int, round: int, pick: int): string {
    IntToString(season) + "|" + IntToString(round) + "|" + IntToString(pick)
  }

  /** One non-blank row of the curve, with the fallbacks the loader applies. */
  function CurveRowOf(col: Columns, line: seq<string>): (row: PickCurveRow)
  {
    var raw := if col.pickName >= 0 then Cell(line, col.pickName) else Some("");
    var kind := if col.kind >= 0 then (match Cell(line, col.kind) case Some(c) => Some(Trim(c)) case None => None) else None;
    var value := ToNum(Cell(line, col.value), 0.0);
    var season := ColumnOr(line, col.season, SplitPart(raw, ' ', 0));
    var round := ColumnOr(line, col.round, SplitPart(SplitPart(raw, ' ', 1), '.', 0));
    var pick := ColumnOr(line, col.pick, SplitPart(raw, '.', 1));
    var overall := if col.overallPick >= 0 then CellReal(Cell(line, col.overallPick)) else None;
    PickCurveRow(CanonicalName(raw, season, round, pick), kind, value, season, round, pick, overall)
  }

  /**
   * A curve row's value and overall pick are read with the fraction kept: the
   * value falls back to 0, and an overall pick that is absent or not a finite
   * number is left undefined.
   */
  lemma CurveNumbers(col: Columns, line: seq<string>)
    ensures var row := CurveRowOf(col, line);
      var o := Cell(line, col.overallPick);
      (col.overallPick >= 0 && o.Some? ==> row.overallPick == ParseDecimal(o.value)) &&
      (col.overallPick < 0 || o.None? ==> row.overallPick.None?)
    ensures var row := CurveRowOf(col, line);
      var v := Cell(line, col.value);
      (v.Some? && ParseDecimal(v.value).Some? ==> Some(row.value) == ParseDecimal(v.value)) &&
      (v.None? || ParseDecimal(v.value).None? ==> row.value == 0.0)
  {
  }

  /** An overall-pick cell holding a number's rendering, fraction and all, reads back as that number. */
  lemma CurveOverallRendered(col: Columns, line: seq<string>, u: int, k: nat)
    requires col.overallPick >= 0 && Cell(line, col.overallPick) == Some(DecimalToString(u, k))
    ensures CurveRowOf(col, line).overallPick == Some(DecimalValue(u, k))
  {
    DecimalRoundTrip(u, k);
  }

  /** A number from its own column when the header is present, otherwise from the part of the pick name. */
  function ColumnOr(line: seq<string>, k: int, fallback: Option<string>): Num {
    if k >= 0 then CellNumber(Cell(line, k)) else CellNumber(fallback)
  }

  /** `pick_nameRaw?.trim() || pickKeyFromParts(season, round, pick)`: never empty. */
  function CanonicalName(raw: Option<string>, season: Num, round: Num, pick: Num): (name: string)
    ensures name != ""
    ensures raw.Some? && Trim(raw.value) != "" ==> name == Trim(raw.value)
    ensures raw.None? || Trim(raw.value) == "" ==> name == PickKeyFromParts(season, round, pick)
  {
    var trimmed := match raw case Some(c) => Trim(c) case None => "";
    if trimmed != "" then trimmed else PickKeyFromParts(season, round, pick)
  }

  /** Whether the row has a finite season, round and pick, and so a `byTriple` entry. */
  predicate HasTriple(row: PickCurveRow) {
    row.season.Finite? && row.round.Finite? && row.pick.Finite?
  }

  /** The row the loop pushes for a data row, or None for a blank row it skips. */
  function CurveRowOpt(col: Columns, line: seq<string>): (r: Option<PickCurveRow>)
    ensures r.None? <==> BlankLine(line)
  {
    if BlankLine(line) then None else Some(CurveRowOf(col, line))
  }

  /** Each data row read on its own. */
  function CurveRowsOf(col: Columns, lines: seq<seq<string>>): (kept: seq<Option<PickCurveRow>>)
    ensures |kept| == |lines|
  {
    if lines == [] then [] else CurveRowsOf(col, lines[..|lines| - 1]) + [CurveRowOpt(col, lines[|lines| - 1])]
  }

  lemma {:induction false} CurveRowsOfAt(col: Columns, lines: seq<seq<string>>, i: nat)
    requires i < |lines|
    ensures CurveRowsOf(col, lines)[i] == CurveRowOpt(col, lines[i])
  {
    if i < |lines| - 1 {
      CurveRowsOfAt(col, lines[..|lines| - 1], i);
    }
  }

  /** The loop's bookkeeping over the rows it kept: rows in order, later rows overwriting earlier ones by key. */
  function CollectCurve(kept: seq<Option<PickCurveRow>>): (res: LoadedPickValues)
    ensures |res.rows| <= |kept|
  {
    if kept == [] then LoadedPickValues([], map[], map[]) else PushCurve(CollectCurve(kept[..|kept| - 1]), kept[|kept| - 1])
  }

  /** The pushes for one data row: append the row, record its value by name and, with a full triple, by triple. */
  function PushCurve(acc: LoadedPickValues, r: Option<PickCurveRow>): (res: LoadedPickValues)
    ensures |res.rows| <= |acc.rows| + 1
  {
    match r
    case None => acc
    case Some(row) =>
      LoadedPickValues(acc.rows + [row], acc.byPickName[row.pickName := row.value],
        if HasTriple(row) then acc.byTriple[TripleKey(row.season.value, row.round.value, row.pick.value) := row.value]
        else acc.byTriple)
  }

  /** One more row through the loop body. */
  lemma CollectCurveTake(kept: seq<Option<PickCurveRow>>, r: nat)
    requires r < |kept|
    ensures CollectCurve(kept[..r + 1]) == PushCurve(CollectCurve(kept[..r]), kept[r])
  {
    assert kept[..r + 1][..r] == kept[..r];
  }

  const MissingValueColumn := "pick values CSV missing \"value\" column"

  /** `loadPickValuesCSV` on the fetched text. */
  function LoadPickValues(text: string): Result<LoadedPickValues> {
    var table := CsvTable(Trim(text));
    if |table| == 0 then Ok(LoadedPickValues([], map[], map[]))
    else
      var col := ColumnsOf(TrimAll(table[0]));
      if col.value < 0 then Err(MissingValueColumn)
      else Ok(CollectCurve(CurveRowsOf(col, table[1..])))
  }

  /** `bySeasonRoundPick(s, r, p)`. */
  function BySeasonRoundPick(loaded: LoadedPickValues, s: int, r: int, p: int): Option<real> {
    var k := TripleKey(s, r, p);
    if k in loaded.byTriple then Some(loaded.byTriple[k]) else None
  }

  /** `rows.push(row)`, `byPickName[pick_name] = value` and, with a finite triple, `byTriple[...] = value`. */
  method PushCurveRow(rows: seq<PickCurveRow>, byPickName: map<string, real>, byTriple: map<string, real>, row: PickCurveRow)
    returns (rows': seq<PickCurveRow>, byPickName': map<string, real>, byTriple': map<string, real>)
    ensures LoadedPickValues(rows', byPickName', byTriple') == PushCurve(LoadedPickValues(rows, byPickName, byTriple), Some(row))
  {
    rows' := rows + [row];
    byPickName' := byPickName[row.pickName := row.value];
    byTriple' := byTriple;
    if HasTriple(row) {
      byTriple' := byTriple[TripleKey(row.season.value, row.round.value, row.pick.value) := row.value];
    }
  }

  /** The row loop of `loadPickValuesCSV` over the data rows `lines`. */
  method ReadCurve(col: Columns, lines: seq<seq<string>>) returns (res: LoadedPickValues)
    ensures res == CollectCurve(CurveRowsOf(col, lines))
  {
    var rows: seq<PickCurveRow> := [];
    var byPickName: map<string, real> := map[];
    var byTriple: map<string, real> := map[];
    ghost var kept := CurveRowsOf(col, lines);
    var r := 0;
    while r < |lines|
      invariant 0 <= r <= |lines|
      invariant LoadedPickValues(rows, byPickName, byTriple) == CollectCurve(kept[..r])
    {
      var line := lines[r];
      CurveRowsOfAt(col, lines, r);
      CollectCurveTake(kept, r);
      if !BlankLine(line) {
        var row := CurveRowOf(col, line);
        rows, byPickName, byTriple := PushCurveRow(rows, byPickName, byTriple, row);
      }
      r := r + 1;
    }
    assert kept[..r] == kept;
    res := LoadedPickValues(rows, byPickName, byTriple);
  }

  /** `loadPickValuesCSV` after the fetch: parse, locate the columns, then one pass over the data rows. */
  method LoadPickValuesCSV(text: string) returns (res: Result<LoadedPickValues>)
    ensures res == LoadPickValues(text)
  {
    var table := ParseCSV(Trim(text));
    if |table| == 0 {
      return Ok(LoadedPickValues([], map[], map[]));
    }
    var col := ColumnsOf(TrimAll(table[0]));
    if col.value < 0 {
      return Err(MissingValueColumn);
    }
    var loaded := ReadCurve(col, table[1..]);
    res := Ok(loaded);
  }

  // ------------------------------------------------------------ curve properties

  /** The curve keeps exactly the non-blank data rows. */
  lemma {:induction false} CurveRows(kept: seq<Option<PickCurveRow>>)
    ensures forall r :: r in CollectCurve(kept).rows <==> exists i :: 0 <= i < |kept| && kept[i] == Some(r)
  {
    if kept != [] {
      var init := kept[..|kept| - 1];
      CurveRows(init);
      assert forall i :: 0 <= i < |init| ==> kept[i] == init[i];
    }
  }

  /** A blank data row is skipped, any other becomes a row with a non-empty name. */
  lemma CurveRowsKept(col: Columns, lines: seq<seq<string>>)
    ensures forall r :: r in CollectCurve(CurveRowsOf(col, lines)).rows <==>
      exists i :: 0 <= i < |lines| && !BlankLine(lines[i]) && r == CurveRowOf(col, lines[i])
    ensures forall r :: r in CollectCurve(CurveRowsOf(col, lines)).rows ==> r.pickName != ""
  {
    var kept := CurveRowsOf(col, lines);
    var rows := CollectCurve(kept).rows;
    CurveRows(kept);
    forall r | r in rows
      ensures exists i :: 0 <= i < |lines| && !BlankLine(lines[i]) && r == CurveRowOf(col, lines[i])
    {
      var i :| 0 <= i < |kept| && kept[i] == Some(r);
      CurveRowsOfAt(col, lines, i);
    }
    forall i | 0 <= i < |lines| && !BlankLine(lines[i])
      ensures CurveRowOf(col, lines[i]) in rows
    {
      CurveRowsOfAt(col, lines, i);
      assert kept[i] == Some(CurveRowOf(col, lines[i]));
    }
  }

  /** A name is in `byPickName` exactly when some row has it, with the value of the last such row. */
  lemma {:induction false} CurveByName(kept: seq<Option<PickCurveRow>>, k: string)
    ensures var res := CollectCurve(kept);
      (k in res.byPickName <==> exists i :: 0 <= i < |res.rows| && res.rows[i].pickName == k) &&
      (k in res.byPickName ==> exists i :: (0 <= i < |res.rows| && res.rows[i].pickName == k &&
        res.rows[i].value == res.byPickName[k] && forall j :: i < j < |res.rows| ==> res.rows[j].pickName != k))
  {
    if kept != [] {
      var init := kept[..|kept| - 1];
      var acc := CollectCurve(init);
      CurveByName(init, k);
      var res := CollectCurve(kept);
      if kept[|kept| - 1].Some? {
        var row := kept[|kept| - 1].value;
        assert res.rows == acc.rows + [row];
        assert forall i :: 0 <= i < |acc.rows| ==> res.rows[i] == acc.rows[i];
        if row.pickName == k {
          assert res.rows[|acc.rows|].value == res.byPickName[k];
        } else if k in res.byPickName {
          var i :| 0 <= i < |acc.rows| && acc.rows[i].pickName == k &&
            acc.rows[i].value == acc.byPickName[k] && forall j :: i < j < |acc.rows| ==> acc.rows[j].pickName != k;
          assert res.rows[i].value == res.byPickName[k];
        }
      }
    }
  }

  /** The triple key splits back into its three numbers, so different triples have different keys. */
  lemma TripleKeyInjective(s1: int, r1: int, p1: int, s2: int, r2: int, p2: int)
    requires TripleKey(s1, r1, p1) == TripleKey(s2, r2, p2)
    ensures s1 == s2 && r1 == r2 && p1 == p2
  {
    TripleKeySplits(s1, r1, p1);
    TripleKeySplits(s2, r2, p2);
    IntToStringInjective(s1, s2);
    IntToStringInjective(r1, r2);
    IntToStringInjective(p1, p2);
  }

  lemma NoBar(i: int)
    ensures '|' !in IntToString(i)
  {
    var n := NatToString(if i < 0 then -i else i);
    assert forall j :: 0 <= j < |n| ==> IsDigit(n[j]);
    if i < 0 {
      assert IntToString(i) == "-" + n;
    }
  }

  lemma TripleKeySplits(s: int, r: int, p: int)
    ensures Split(TripleKey(s, r, p), '|') == [IntToString(s), IntToString(r), IntToString(p)]
  {
    var a, b, c := IntToString(s), IntToString(r), IntToString(p);
    NoBar(s);
    NoBar(r);
    NoBar(p);
    assert TripleKey(s, r, p) == a + ['|'] + (b + ['|'] + c);
    SplitCons(a, '|', b + ['|'] + c);
    SplitCons(b, '|', c);
    SplitNone(c, '|');
  }

  /** The row has exactly this finite season, round and pick. */
  predicate IsTriple(row: PickCurveRow, s: int, r: int, p: int) {
    row.season == Finite(s) && row.round == Finite(r) && row.pick == Finite(p)
  }

  /**
   * `bySeasonRoundPick(s, r, p)` has a value exactly when some row has that
   * finite season, round and pick, and it is the last such row's value.
   */
  lemma {:induction false} CurveByTriple(kept: seq<Option<PickCurveRow>>, s: int, r: int, p: int)
    ensures var res := CollectCurve(kept);
      (BySeasonRoundPick(res, s, r, p).Some? <==> exists i :: 0 <= i < |res.rows| && IsTriple(res.rows[i], s, r, p)) &&
      (BySeasonRoundPick(res, s, r, p).Some? ==> exists i :: (0 <= i < |res.rows| && IsTriple(res.rows[i], s, r, p) &&
        Some(res.rows[i].value) == BySeasonRoundPick(res, s, r, p) &&
        forall j :: i < j < |res.rows| ==> !IsTriple(res.rows[j], s, r, p)))
  {
    if kept != [] {
      var acc := CollectCurve(kept[..|kept| - 1]);
      CurveByTriple(kept[..|kept| - 1], s, r, p);
      assert TripleRead(acc, s, r, p);
      if kept[|kept| - 1].Some? {
        CurveByTripleStep(acc, kept[|kept| - 1].value, s, r, p);
      }
      assert TripleRead(CollectCurve(kept), s, r, p);
    }
  }

  /** What `CurveByTriple` states about one collected table. */
  ghost predicate TripleRead(res: LoadedPickValues, s: int, r: int, p: int) {
    (BySeasonRoundPick(res, s, r, p).Some? <==> exists i :: 0 <= i < |res.rows| && IsTriple(res.rows[i], s, r, p)) &&
    (BySeasonRoundPick(res, s, r, p).Some? ==> exists i :: (0 <= i < |res.rows| && IsTriple(res.rows[i], s, r, p) &&
      Some(res.rows[i].value) == BySeasonRoundPick(res, s, r, p) &&
      forall j :: i < j < |res.rows| ==> !IsTriple(res.rows[j], s, r, p)))
  }

  /** Pushing one more row preserves what `CurveByTriple` states. */
  lemma CurveByTripleStep(acc: LoadedPickValues, row: PickCurveRow, s: int, r: int, p: int)
    requires TripleRead(acc, s, r, p)
    ensures TripleRead(PushCurve(acc, Some(row)), s, r, p)
  {
    if IsTriple(row, s, r, p) {
      TripleHit(acc, row, s, r, p);
    } else {
      TripleMiss(acc, row, s, r, p);
    }
  }

  /** A pushed row with the triple becomes the last one holding it. */
  lemma TripleHit(acc: LoadedPickValues, row: PickCurveRow, s: int, r: int, p: int)
    requires IsTriple(row, s, r, p)
    ensures TripleRead(PushCurve(acc, Some(row)), s, r, p)
  {
    var res := PushCurve(acc, Some(row));
    var n := |acc.rows|;
    assert res.rows == acc.rows + [row];
    assert res.byTriple == acc.byTriple[TripleKey(s, r, p) := row.value];
    assert BySeasonRoundPick(res, s, r, p) == Some(row.value);
    assert IsTriple(res.rows[n], s, r, p) && res.rows[n].value == row.value;
  }

  /** A pushed row without the triple leaves the lookup of that triple as it was. */
  lemma TripleKept(acc: LoadedPickValues, row: PickCurveRow, s: int, r: int, p: int)
    requires !IsTriple(row, s, r, p)
    ensures BySeasonRoundPick(PushCurve(acc, Some(row)), s, r, p) == BySeasonRoundPick(acc, s, r, p)
  {
    if HasTriple(row) {
      if TripleKey(row.season.value, row.round.value, row.pick.value) == TripleKey(s, r, p) {
        TripleKeyInjective(row.season.value, row.round.value, row.pick.value, s, r, p);
        assert false;
      }
    }
  }

  /** A pushed row without the triple changes neither the lookup nor the rows holding it. */
  lemma TripleMiss(acc: LoadedPickValues, row: PickCurveRow, s: int, r: int, p: int)
    requires TripleRead(acc, s, r, p) && !IsTriple(row, s, r, p)
    ensures TripleRead(PushCurve(acc, Some(row)), s, r, p)
  {
    var res := PushCurve(acc, Some(row));
    var n := |acc.rows|;
    assert res.rows == acc.rows + [row];
    assert forall i :: 0 <= i < n ==> res.rows[i] == acc.rows[i];
    TripleKept(acc, row, s, r, p);
    assert (exists i :: 0 <= i < |res.rows| && IsTriple(res.rows[i], s, r, p)) ==>
      (exists i :: 0 <= i < n && IsTriple(acc.rows[i], s, r, p)) by {
      if exists i :: 0 <= i < |res.rows| && IsTriple(res.rows[i], s, r, p) {
        var i :| 0 <= i < |res.rows| && IsTriple(res.rows[i], s, r, p);
        assert i < n && IsTriple(acc.rows[i], s, r, p);
      }
    }
    if BySeasonRoundPick(res, s, r, p).Some? {
      var i :| 0 <= i < n && IsTriple(acc.rows[i], s, r, p) &&
        Some(acc.rows[i].value) == BySeasonRoundPick(acc, s, r, p) &&
        forall j :: i < j < n ==> !IsTriple(acc.rows[j], s, r, p);
      assert IsTriple(res.rows[i], s, r, p);
      assert forall j :: i < j < |res.rows| ==> !IsTriple(res.rows[j], s, r, p);
    }
  }

  /** The three parts the loader reads out of "season round.pick". */
  lemma LabelSplits(s: string, r: string, p: string)
    requires ' ' !in s && '.' !in s && ' ' !in r && '.' !in r && ' ' !in p && '.' !in p
    ensures var name := s + " " + r + "." + p;
      SplitPart(Some(name), ' ', 0) == Some(s) &&
      SplitPart(SplitPart(Some(name), ' ', 1), '.', 0) == Some(r) &&
      SplitPart(Some(name), '.', 1) == Some(p)
  {
    var name := s + " " + r + "." + p;
    assert name == s + [' '] + (r + "." + p);
    SplitCons(s, ' ', r + "." + p);
    assert ' ' !in r + "." + p;
    SplitNone(r + "." + p, ' ');
    assert r + "." + p == r + ['.'] + p;
    SplitCons(r, '.', p);
    SplitNone(p, '.');
    assert name == (s + " " + r) + ['.'] + p;
    assert '.' !in s + " " + r;
    SplitCons(s + " " + r, '.', p);
  }

  /**
   * Without season, round and pick columns, a canonical name such as
   * "2026 1.01" is parsed back into its season, round and pick, and the name
   * itself is kept as the row's name.
   */
  lemma LabelParsedBack(col: Columns, line: seq<string>, season: nat, round: nat, pick: nat)
    requires col.season < 0 && col.round < 0 && col.pick < 0
    requires 0 <= col.pickName < |line|
    requires line[col.pickName] == BuildPickName(NatToString(season), Finite(round), Finite(pick)) && pick < 100
    ensures var row := CurveRowOf(col, line);
      row.season == Finite(season) && row.round == Finite(round) && row.pick == Finite(pick) &&
      row.pickName == line[col.pickName]
  {
    var s, r, p := NatToString(season), NatToString(round), Pad2(pick);
    var name := line[col.pickName];
    assert name == s + " " + r + "." + p;
    NoSpaceOrDot(season);
    NoSpaceOrDot(round);
    Pad2Digits(pick);
    assert ' ' !in p && '.' !in p by {
      assert forall j :: 0 <= j < |p| ==> IsDigit(p[j]);
    }
    LabelSplits(s, r, p);
    NatToStringValue(season);
    NatToStringValue(round);
    IntToStringToNumber(season);
    IntToStringToNumber(round);
    PadToNumber(pick);
    TrimLabel(name, s, r, p);
    var raw := Some(name);
    assert Cell(line, col.pickName) == raw;
    assert ColumnOr(line, col.season, SplitPart(raw, ' ', 0)) == CellNumber(SplitPart(raw, ' ', 0));
    assert ColumnOr(line, col.round, SplitPart(SplitPart(raw, ' ', 1), '.', 0)) ==
      CellNumber(SplitPart(SplitPart(raw, ' ', 1), '.', 0));
    assert ColumnOr(line, col.pick, SplitPart(raw, '.', 1)) == CellNumber(SplitPart(raw, '.', 1));
  }

  lemma NoSpaceOrDot(n: nat)
    ensures ' ' !in NatToString(n) && '.' !in NatToString(n) && !IsWhitespace(NatToString(n)[0])
  {
    var s := NatToString(n);
    assert forall j :: 0 <= j < |s| ==> IsDigit(s[j]);
  }

  /** `Number("07")` is 7. */
  lemma PadToNumber(n: nat)
    requires n < 100
    ensures ToNumber(Pad2(n)) == Finite(n)
  {
    var p := Pad2(n);
    Pad2Digits(n);
    assert IsDigit(p[0]) && IsDigit(p[1]);
    assert Trim(p) == p by {
      TrimNoop(p);
    }
    assert p[0] != '-' && p[0] != '+';
  }

  /** A name that starts and ends with a digit is its own trim. */
  lemma TrimLabel(name: string, s: string, r: string, p: string)
    requires name == s + " " + r + "." + p && |s| >= 1 && |p| >= 1
    requires !IsWhitespace(s[0]) && AllDigits(p)
    ensures Trim(name) == name && name != ""
  {
    assert name[0] == s[0];
    assert name[|name| - 1] == p[|p| - 1];
    TrimNoop(name);
  }
}

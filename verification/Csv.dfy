/** QueryResult.toCsv and _csvField (app/lib/core/models.dart:373-390), and a reader
    for RFC 4180 text that tells NULL from the empty string. */
module Csv {
  import opened Wrappers
  import opened Text
  import opened Quoting

  // A cell of a result: None is SQL NULL, which is not the empty string.
  type Cell = Option<string>

  predicate NeedsQuotes(v: string) {
    exists i :: 0 <= i < |v| && v[i] in "\",\r\n"
  }

  function CsvField(v: string): string {
    var escaped := Doubled('"', v);
    if NeedsQuotes(v) || v == "" then "\"" + escaped + "\"" else escaped
  }

  function CellText(c: Cell): string { if c.None? then "" else CsvField(c.value) }

  function CellTexts(row: seq<Cell>): (ts: seq<string>)
    ensures |ts| == |row| && forall k :: 0 <= k < |row| ==> ts[k] == CellText(row[k])
  {
    seq(|row|, k requires 0 <= k < |row| => CellText(row[k]))
  }

  function RowText(row: seq<Cell>): string { Join(CellTexts(row), ",") + "\n" }

  function RowsText(rows: seq<seq<Cell>>): string {
    if rows == [] then "" else RowText(rows[0]) + RowsText(rows[1..])
  }

  // Column names are never NULL.
  function Header(columns: seq<string>): (row: seq<Cell>)
    ensures |row| == |columns| && forall k :: 0 <= k < |row| ==> row[k] == Some(columns[k])
  {
    seq(|columns|, k requires 0 <= k < |columns| => Some(columns[k]))
  }

  method ToCsv(columns: seq<string>, rows: seq<seq<Cell>>) returns (buffer: string)
    ensures buffer == RowsText([Header(columns)] + rows)
  {
    hide RowText, Header;
    buffer := RowText(Header(columns));
    for i := 0 to |rows|
      invariant RowsText([Header(columns)] + rows) == buffer + RowsText(rows[i..])
    {
      assert rows[i..][1..] == rows[i + 1..];
      var line := RowText(rows[i]);
      assert buffer + (line + RowsText(rows[i + 1..])) == buffer + line + RowsText(rows[i + 1..]);
      buffer := buffer + line;
    }
  }

  /* ---- reading section 2 of RFC 4180, with LF line ends ---- */

  // The end of an unquoted field.
  function FieldEnd(s: string, i: nat): (k: nat)
    requires i <= |s|
    ensures i <= k <= |s|
    decreases |s| - i
  {
    if i < |s| && s[i] != ',' && s[i] != '\n' then FieldEnd(s, i + 1) else i
  }

  // One field and what follows it. An unquoted empty field is NULL.
  function ReadCell(s: string): Option<(Cell, string)> {
    if s != "" && s[0] == '"' then
      var body := ReadBody('"', s[1..]);
      if body.None? then None else Some((Some(body.value.0), body.value.1))
    else
      var k := FieldEnd(s, 0);
      Some((if k == 0 then None else Some(s[..k]), s[k..]))
  }

  // The fields of one record, up to and with its newline.
  function ReadRow(s: string): (r: Option<(seq<Cell>, string)>)
    ensures r.Some? ==> |r.value.1| < |s|
    decreases |s|
  {
    var cell := ReadCell(s);
    if cell.None? || cell.value.1 == "" || |cell.value.1| > |s| then None
    else if cell.value.1[0] == '\n' then Some(([cell.value.0], cell.value.1[1..]))
    else if cell.value.1[0] != ',' then None
    else
      var rest := ReadRow(cell.value.1[1..]);
      if rest.None? then None else Some(([cell.value.0] + rest.value.0, rest.value.1))
  }

  function ReadRows(s: string): Option<seq<seq<Cell>>>
    decreases |s|
  {
    if s == "" then Some([])
    else
      var row := ReadRow(s);
      if row.None? then None
      else
        var rest := ReadRows(row.value.1);
        if rest.None? then None else Some([row.value.0] + rest.value)
  }

  /* ---- the round trip ---- */

  lemma {:induction false} FieldEndIs(s: string, i: nat, k: nat)
    requires i <= k < |s| && (s[k] == ',' || s[k] == '\n')
    requires forall j :: i <= j < k ==> s[j] != ',' && s[j] != '\n'
    ensures FieldEnd(s, i) == k
    decreases k - i
  {
    if i < k {
      FieldEndIs(s, i + 1, k);
    }
  }

  lemma {:induction false} PlainIsNotDoubled(v: string)
    requires !NeedsQuotes(v)
    ensures Doubled('"', v) == v
  {
    if v != "" {
      assert v[0] != '"';
      assert forall i :: 0 <= i < |v| - 1 ==> v[1..][i] == v[i + 1];
      PlainIsNotDoubled(v[1..]);
    }
  }

  // A value is quoted exactly when it is empty or holds a quote, a comma or a line end;
  // any other is written as it is, and NULL is written as nothing.
  lemma QuotedIff(c: Cell)
    ensures var t := CellText(c);
      && (c.None? ==> t == "")
      && (c.Some? ==>
            var v := c.value;
            var special := exists i :: 0 <= i < |v| && (v[i] == '"' || v[i] == ',' || v[i] == '\r' || v[i] == '\n');
            && (t == v <==> v != "" && !special)
            && (v == "" || special ==> |t| >= 2 && t[0] == '"' && t[|t| - 1] == '"'))
  {
    if c.Some? {
      var v := c.value;
      assert NeedsQuotes(v) <==> exists i :: 0 <= i < |v| && (v[i] == '"' || v[i] == ',' || v[i] == '\r' || v[i] == '\n');
      if NeedsQuotes(v) || v == "" {
        DoubledIsLonger('"', v);
      } else {
        PlainIsNotDoubled(v);
      }
    }
  }

  lemma {:induction false} DoubledIsLonger(q: char, v: string)
    ensures |Doubled(q, v)| >= |v|
  {
    if v != "" {
      DoubledIsLonger(q, v[1..]);
    }
  }

  // A printed cell reads back, NULL and all.
  lemma CellRoundTrip(c: Cell, rest: string)
    requires rest != "" && (rest[0] == ',' || rest[0] == '\n')
    ensures ReadCell(CellText(c) + rest) == Some((c, rest))
  {
    var s := CellText(c) + rest;
    if c.None? {
      assert s == rest;
    } else if NeedsQuotes(c.value) || c.value == "" {
      QuotedRoundTrip(c.value, rest);
    } else {
      PlainRoundTrip(c.value, rest);
    }
  }

  lemma QuotedRoundTrip(v: string, rest: string)
    requires (NeedsQuotes(v) || v == "") && rest != "" && (rest[0] == ',' || rest[0] == '\n')
    ensures ReadCell(CellText(Some(v)) + rest) == Some((Some(v), rest))
  {
    hide Doubled, ReadBody;
    ReadBodyOfDoubled('"', v, rest);
    assert CellText(Some(v)) + rest == "\"" + (Doubled('"', v) + ['"'] + rest);
  }

  lemma PlainRoundTrip(v: string, rest: string)
    requires !NeedsQuotes(v) && v != "" && rest != "" && (rest[0] == ',' || rest[0] == '\n')
    ensures ReadCell(CellText(Some(v)) + rest) == Some((Some(v), rest))
  {
    hide Doubled, ReadBody;
    PlainIsNotDoubled(v);
    var s := v + rest;
    assert CellText(Some(v)) + rest == s && v[0] != '"';
    FieldEndIs(s, 0, |v|);
    assert s[..|v|] == v && s[|v|..] == rest;
  }

  // What a record of no fields is read as: the newline alone is one NULL field.
  function AsRead(row: seq<Cell>): seq<Cell> { if row == [] then [None] else row }

  lemma {:induction false} RowRoundTrip(row: seq<Cell>, rest: string)
    ensures ReadRow(RowText(row) + rest) == Some((AsRead(row), rest))
    decreases |row|
  {
    hide CellText, ReadCell;
    var s := RowText(row) + rest;
    if row == [] {
      assert s == CellText(None) + ("\n" + rest) by { assert CellText(None) == "" by { NullPrintsNothing(); } }
      CellRoundTrip(None, "\n" + rest);
      assert ("\n" + rest)[1..] == rest;
    } else if |row| == 1 {
      assert s == CellText(row[0]) + ("\n" + rest);
      CellRoundTrip(row[0], "\n" + rest);
      assert ("\n" + rest)[1..] == rest;
      assert [row[0]] == row;
    } else {
      var more := RowText(row[1..]) + rest;
      assert CellTexts(row)[1..] == CellTexts(row[1..]);
      assert s == CellText(row[0]) + ("," + more);
      CellRoundTrip(row[0], "," + more);
      assert ("," + more)[1..] == more;
      RowRoundTrip(row[1..], rest);
      assert [row[0]] + row[1..] == row;
    }
  }

  lemma NullPrintsNothing()
    ensures CellText(None) == ""
  {
  }

  function AllAsRead(rows: seq<seq<Cell>>): (out: seq<seq<Cell>>)
    ensures |out| == |rows| && forall k :: 0 <= k < |rows| ==> out[k] == AsRead(rows[k])
  {
    seq(|rows|, k requires 0 <= k < |rows| => AsRead(rows[k]))
  }

  lemma {:induction false} RowsReadBack(rows: seq<seq<Cell>>)
    ensures ReadRows(RowsText(rows)) == Some(AllAsRead(rows))
  {
    hide ReadRow, AsRead;
    if rows != [] {
      RowsReadBack(rows[1..]);
      RowRoundTrip(rows[0], RowsText(rows[1..]));
      assert RowText(rows[0]) != "";
      assert AllAsRead(rows) == [AsRead(rows[0])] + AllAsRead(rows[1..]);
    }
  }

  // Reading the printed text gives the header and every cell back exactly when
  // the header and every row have at least one field. Rows may differ in width.
  lemma CsvRoundTripIff(columns: seq<string>, rows: seq<seq<Cell>>)
    ensures var grid := [Header(columns)] + rows;
      ReadRows(RowsText(grid)) == Some(grid) <==>
        columns != [] && forall k :: 0 <= k < |rows| ==> rows[k] != []
  {
    hide ReadRows, RowsText;
    var grid := [Header(columns)] + rows;
    RowsReadBack(grid);
    if columns != [] && forall k :: 0 <= k < |rows| ==> rows[k] != [] {
      assert forall k :: 0 < k < |grid| ==> grid[k] == rows[k - 1];
      assert AllAsRead(grid) == grid;
    } else {
      var k := 0;
      if columns != [] {
        var m :| 0 <= m < |rows| && rows[m] == [];
        k := m + 1;
      }
      assert grid[k] == [];
      assert AllAsRead(grid)[k] == [None];
    }
  }

  // So two results with at least one column print differently unless they agree
  // in every name and every cell, NULLs included.
  lemma CsvInjective(c1: seq<string>, r1: seq<seq<Cell>>, c2: seq<string>, r2: seq<seq<Cell>>)
    requires c1 != [] && c2 != []
    requires forall k :: 0 <= k < |r1| ==> r1[k] != []
    requires forall k :: 0 <= k < |r2| ==> r2[k] != []
    requires RowsText([Header(c1)] + r1) == RowsText([Header(c2)] + r2)
    ensures c1 == c2 && r1 == r2
  {
    hide ReadRows, RowsText;
    CsvRoundTripIff(c1, r1);
    CsvRoundTripIff(c2, r2);
    var g1, g2 := [Header(c1)] + r1, [Header(c2)] + r2;
    assert g1 == g2;
    assert g1[0] == g2[0] && g1[1..] == r1 && g2[1..] == r2;
    assert |c1| == |g1[0]| == |c2|;
    forall k | 0 <= k < |c1| ensures c1[k] == c2[k] {
      assert Some(c1[k]) == g1[0][k] == g2[0][k] == Some(c2[k]);
    }
  }
}

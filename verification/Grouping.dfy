/** groupIndexRows (core/dbcore/introspect.go:337-372): catalog rows, one per index
    column, folded into one entry per index. */
module Grouping {
  import opened Ddl

  datatype IndexRow = IndexRow(name: string, column: string, unique: bool, primary: bool)

  /* ---- what the fold is for ---- */

  predicate Appears(rows: seq<IndexRow>, name: string) {
    exists i :: 0 <= i < |rows| && rows[i].name == name
  }

  // The names in the order they first appear.
  function Order(rows: seq<IndexRow>): seq<string> {
    if rows == [] then []
    else
      var before, last := rows[..|rows| - 1], rows[|rows| - 1];
      if Appears(before, last.name) then Order(before) else Order(before) + [last.name]
  }

  // The columns of one index, in catalog order; a row without a column adds none.
  function ColumnsOf(rows: seq<IndexRow>, name: string): seq<string> {
    if rows == [] then []
    else
      var before, last := ColumnsOf(rows[..|rows| - 1], name), rows[|rows| - 1];
      if last.name == name && last.column != "" then before + [last.column] else before
  }

  // Flags come from the first row of the index.
  function FirstRow(rows: seq<IndexRow>, name: string): (row: IndexRow)
    requires Appears(rows, name)
    ensures row in rows && row.name == name
  {
    if rows[0].name == name then rows[0] else
      assert Appears(rows[1..], name) by {
        var i :| 0 <= i < |rows| && rows[i].name == name;
        assert rows[1..][i - 1] == rows[i];
      }
      FirstRow(rows[1..], name)
  }

  function GroupOf(rows: seq<IndexRow>, name: string): IndexInfo
    requires Appears(rows, name)
  {
    var first := FirstRow(rows, name);
    IndexInfo(name, ColumnsOf(rows, name), first.unique, first.primary)
  }

  /* ---- the fold ---- */

  method GroupIndexRows(rows: seq<IndexRow>) returns (out: seq<IndexInfo>)
    ensures |out| == |Order(rows)|
    ensures forall k :: 0 <= k < |out| ==> Appears(rows, Order(rows)[k]) && out[k] == GroupOf(rows, Order(rows)[k])
  {
    hide Appears, GroupOf, Order;
    var order: seq<string> := [];
    var byName: map<string, IndexInfo> := map[];
    NoRows();
    for i := 0 to |rows|
      invariant order == Order(rows[..i])
      invariant forall n :: n in byName <==> Appears(rows[..i], n)
      invariant forall n :: n in byName ==> byName[n] == GroupOf(rows[..i], n)
    {
      var r := rows[i];
      assert rows[..i + 1] == rows[..i] + [r];
      GroupStep(rows[..i], r);
      if r.name !in byName {
        byName := byName[r.name := IndexInfo(r.name, [], r.unique, r.primary)];
        order := order + [r.name];
      }
      if r.column != "" {
        var ix := byName[r.name];
        byName := byName[r.name := ix.(columns := ix.columns + [r.column])];
      }
    }
    assert rows[..|rows|] == rows;
    OrderIs(rows);
    out := [];
    for k := 0 to |order|
      invariant |out| == k
      invariant forall j :: 0 <= j < k ==> Appears(rows, order[j]) && out[j] == GroupOf(rows, order[j])
    {
      assert order[k] in order;
      out := out + [byName[order[k]]];
    }
  }

  lemma NoRows()
    ensures Order([]) == [] && forall n :: !Appears([], n)
  {
  }

  lemma AppearsSnoc(rows: seq<IndexRow>, r: IndexRow, name: string)
    ensures Appears(rows + [r], name) <==> Appears(rows, name) || r.name == name
  {
    if Appears(rows, name) {
      var i :| 0 <= i < |rows| && rows[i].name == name;
      assert (rows + [r])[i].name == name;
    }
    assert (rows + [r])[|rows|] == r;
  }

  lemma {:induction false} FirstRowSnoc(rows: seq<IndexRow>, r: IndexRow, name: string)
    requires Appears(rows + [r], name)
    ensures FirstRow(rows + [r], name) == if Appears(rows, name) then FirstRow(rows, name) else r
  {
    AppearsSnoc(rows, r, name);
    if rows == [] {
      assert (rows + [r])[0] == r;
    } else if rows[0].name != name {
      assert (rows + [r])[1..] == rows[1..] + [r];
      assert Appears(rows, name) <==> Appears(rows[1..], name) by {
        assert rows == [rows[0]] + rows[1..];
        assert forall i :: 1 <= i < |rows| ==> rows[1..][i - 1] == rows[i];
      }
      AppearsSnoc(rows[1..], r, name);
      FirstRowSnoc(rows[1..], r, name);
    }
  }

  // One more row: a new group, or one more column for an old one; other groups stay.
  lemma GroupStep(rows: seq<IndexRow>, r: IndexRow)
    ensures Order(rows + [r]) == if Appears(rows, r.name) then Order(rows) else Order(rows) + [r.name]
    ensures forall n :: Appears(rows + [r], n) <==> Appears(rows, n) || n == r.name
    ensures forall n :: Appears(rows, n) && n != r.name ==> GroupOf(rows + [r], n) == GroupOf(rows, n)
    ensures var earlier := if Appears(rows, r.name) then GroupOf(rows, r.name)
                        else IndexInfo(r.name, [], r.unique, r.primary);
      Appears(rows + [r], r.name) && GroupOf(rows + [r], r.name) ==
        if r.column == "" then earlier else earlier.(columns := earlier.columns + [r.column])
  {
    hide Appears, FirstRow;
    assert (rows + [r])[..|rows|] == rows;
    forall n ensures Appears(rows + [r], n) <==> Appears(rows, n) || n == r.name {
      AppearsSnoc(rows, r, n);
    }
    forall n | Appears(rows, n) && n != r.name ensures GroupOf(rows + [r], n) == GroupOf(rows, n) {
      FirstRowSnoc(rows, r, n);
    }
    FirstRowSnoc(rows, r, r.name);
    if !Appears(rows, r.name) {
      NoColumns(rows, r.name);
    }
  }

  lemma {:induction false} NoColumns(rows: seq<IndexRow>, name: string)
    requires !Appears(rows, name)
    ensures ColumnsOf(rows, name) == []
  {
    if rows != [] {
      var n := |rows| - 1;
      assert rows == rows[..n] + [rows[n]];
      AppearsSnoc(rows[..n], rows[n], name);
      NoColumns(rows[..n], name);
    }
  }

  /* ---- laws ---- */

  // Each name that appears is listed, once.
  lemma {:induction false} OrderIs(rows: seq<IndexRow>)
    ensures forall n :: n in Order(rows) <==> Appears(rows, n)
    ensures forall i, j :: 0 <= i < j < |Order(rows)| ==> Order(rows)[i] != Order(rows)[j]
  {
    hide Appears;
    if rows == [] {
      NoRows();
    } else {
      var n := |rows| - 1;
      assert rows == rows[..n] + [rows[n]];
      OrderIs(rows[..n]);
      forall m ensures Appears(rows, m) <==> Appears(rows[..n], m) || rows[n].name == m {
        AppearsSnoc(rows[..n], rows[n], m);
      }
    }
  }

  function ColumnCount(rows: seq<IndexRow>): nat {
    if rows == [] then 0
    else ColumnCount(rows[..|rows| - 1]) + if rows[|rows| - 1].column != "" then 1 else 0
  }

  function GroupedCount(rows: seq<IndexRow>, names: seq<string>): nat {
    if names == [] then 0
    else GroupedCount(rows, names[..|names| - 1]) + |ColumnsOf(rows, names[|names| - 1])|
  }

  lemma {:induction false} CountWithRow(rows: seq<IndexRow>, r: IndexRow, names: seq<string>)
    requires forall i, j :: 0 <= i < j < |names| ==> names[i] != names[j]
    ensures GroupedCount(rows + [r], names) ==
      GroupedCount(rows, names) + if r.column != "" && r.name in names then 1 else 0
  {
    if names != [] {
      var n := |names| - 1;
      assert names == names[..n] + [names[n]];
      CountWithRow(rows, r, names[..n]);
      assert (rows + [r])[..|rows|] == rows;
      assert names[n] !in names[..n];
    }
  }

  lemma CountOneMore(rows: seq<IndexRow>, names: seq<string>, name: string)
    ensures GroupedCount(rows, names + [name]) == GroupedCount(rows, names) + |ColumnsOf(rows, name)|
  {
    assert (names + [name])[..|names|] == names;
  }

  lemma ColumnCountOneMore(rows: seq<IndexRow>, r: IndexRow)
    ensures ColumnCount(rows + [r]) == ColumnCount(rows) + if r.column != "" then 1 else 0
  {
    assert (rows + [r])[..|rows|] == rows;
  }

  // No column is lost or counted twice: the groups hold as many as the rows do.
  lemma {:induction false} ColumnsAreConserved(rows: seq<IndexRow>)
    ensures GroupedCount(rows, Order(rows)) == ColumnCount(rows)
  {
    if rows != [] {
      hide Appears, ColumnsOf, Order, GroupedCount, ColumnCount, GroupOf;
      var n := |rows| - 1;
      var before, r := rows[..n], rows[n];
      assert rows == before + [r];
      ColumnsAreConserved(before);
      OrderIs(rows);
      GroupStep(before, r);
      ColumnCountOneMore(before, r);
      CountWithRow(before, r, Order(rows));
      if !Appears(before, r.name) {
        CountOneMore(before, Order(before), r.name);
        NoColumns(before, r.name);
      }
    }
  }

  /* ---- the groups, described from the first row on ---- */

  // The columns of one index in the order of the rows.
  function Picked(rows: seq<IndexRow>, name: string): seq<string> {
    if rows == [] then []
    else
      (if rows[0].name == name && rows[0].column != "" then [rows[0].column] else []) + Picked(rows[1..], name)
  }

  lemma {:induction false} PickedSnoc(rows: seq<IndexRow>, r: IndexRow, name: string)
    ensures Picked(rows + [r], name) ==
      Picked(rows, name) + if r.name == name && r.column != "" then [r.column] else []
  {
    if rows == [] {
      assert [] + [r] == [r] && [r][1..] == [];
    } else {
      PickedSnoc(rows[1..], r, name);
      assert (rows + [r])[1..] == rows[1..] + [r];
    }
  }

  lemma {:induction false} ColumnsArePicked(rows: seq<IndexRow>, name: string)
    ensures ColumnsOf(rows, name) == Picked(rows, name)
  {
    if rows != [] {
      var n := |rows| - 1;
      ColumnsArePicked(rows[..n], name);
      assert rows == rows[..n] + [rows[n]];
      PickedSnoc(rows[..n], rows[n], name);
    }
  }

  lemma {:induction false} FirstRowIs(rows: seq<IndexRow>, name: string) returns (i: nat)
    requires Appears(rows, name)
    ensures i < |rows| && rows[i].name == name && FirstRow(rows, name) == rows[i]
    ensures forall j :: 0 <= j < i ==> rows[j].name != name
  {
    if rows[0].name == name {
      i := 0;
    } else {
      assert Appears(rows[1..], name) by {
        var k :| 0 <= k < |rows| && rows[k].name == name;
        assert rows[1..][k - 1] == rows[k];
      }
      var k := FirstRowIs(rows[1..], name);
      i := k + 1;
      forall j | 0 <= j < i ensures rows[j].name != name {
        assert j > 0 ==> rows[1..][j - 1] == rows[j];
      }
    }
  }

  // A group is named as its rows are, holds their columns in order, and has the flags
  // of the first of them.
  lemma GroupIs(rows: seq<IndexRow>, name: string) returns (i: nat)
    requires Appears(rows, name)
    ensures i < |rows| && rows[i].name == name && forall j :: 0 <= j < i ==> rows[j].name != name
    ensures var g := GroupOf(rows, name);
      g.name == name && g.columns == Picked(rows, name) && g.unique == rows[i].unique && g.primary == rows[i].primary
  {
    hide Appears, ColumnsOf, FirstRow, Picked;
    i := FirstRowIs(rows, name);
    ColumnsArePicked(rows, name);
  }

  // The first n rows bring the names that stand first.
  lemma {:induction false} OrderOfPrefix(rows: seq<IndexRow>, n: nat)
    requires n <= |rows|
    ensures Order(rows[..n]) <= Order(rows)
  {
    hide Appears;
    if n < |rows| {
      var m := |rows| - 1;
      OrderOfPrefix(rows[..m], n);
      assert rows[..m][..n] == rows[..n];
    } else {
      assert rows[..n] == rows;
    }
  }

  // Groups stand in the order of their first rows.
  lemma OrderIsByFirstRow(rows: seq<IndexRow>, i: nat, j: nat)
    requires i < j < |Order(rows)|
    ensures exists n: nat :: n <= |rows| && Appears(rows[..n], Order(rows)[i]) && !Appears(rows[..n], Order(rows)[j])
  {
    hide Appears;
    OrderIs(rows);
    assert Order(rows)[j] in Order(rows);
    var n := FirstRowIs(rows, Order(rows)[j]);
    NotBeforeFirst(rows, Order(rows)[j], n);
    OrderOfPrefix(rows, n + 1);
    OneMoreName(rows, n);
    var m := |Order(rows[..n])|;
    assert Order(rows)[m] == rows[n].name == Order(rows)[j];
    assert m == j;
    OrderIs(rows[..n]);
    assert Order(rows)[i] == Order(rows[..n])[i];
  }

  lemma NotBeforeFirst(rows: seq<IndexRow>, name: string, n: nat)
    requires n <= |rows| && forall j :: 0 <= j < n ==> rows[j].name != name
    ensures !Appears(rows[..n], name)
  {
  }

  lemma OneMoreName(rows: seq<IndexRow>, n: nat)
    requires n < |rows| && !Appears(rows[..n], rows[n].name)
    ensures Order(rows[..n + 1]) == Order(rows[..n]) + [rows[n].name]
  {
    hide Appears;
    assert rows[..n + 1][..n] == rows[..n];
  }
}

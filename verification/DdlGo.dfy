/** Which tables print a script without GO lines (core/dbcore/introspect.go:236-296
    read by core/dbcore/sqltext.go:183-220), for any names, types and defaults. */
module DdlGo {
  import opened Text
  import opened Lexer
  import opened Splitter
  import opened GoLaws
  import opened Quoting
  import opened Fragments
  import opened Ddl

  ghost predicate SomeHides(names: seq<string>) {
    exists k :: 0 <= k < |names| && HidesGo(names[k])
  }

  ghost predicate KeyHidesGo(fk: ForeignKeyInfo) {
    || HidesGo(fk.name) || SomeHides(fk.columns) || SomeHides(fk.refColumns)
    || HidesGo(fk.refSchema) || HidesGo(fk.refTable)
  }

  ghost predicate IndexHidesGo(ix: IndexInfo) { HidesGo(ix.name) || SomeHides(ix.columns) }

  // What stands behind the column's name, with the comma unless nothing follows.
  function EndedTail(d: TableDetail, k: nat): string
    requires k < |d.columns|
  {
    var last := k == |d.columns| - 1 && KeyNames(d.columns) == [] && d.foreignKeys == [];
    ColumnTail(d.columns[k]) + if last then "" else ","
  }

  // A GO line behind the first line of a text, which stands behind a name.
  ghost predicate GoBehind(t: string) { AnyGo(Lines(t)[1..]) }

  ghost predicate ColumnHasGo(d: TableDetail, k: nat)
    requires k < |d.columns|
  {
    HidesGo(d.columns[k].name) || GoBehind(EndedTail(d, k))
  }

  ghost predicate PartsHaveGo(d: TableDetail) {
    || (exists k: nat :: k < |d.columns| && ColumnHasGo(d, k))
    || (exists k: nat :: k < |d.foreignKeys| && KeyHidesGo(d.foreignKeys[k]))
  }

  ghost predicate TableHasGo(d: TableDetail) {
    HidesGo(d.schema) || HidesGo(d.name) || PartsHaveGo(d)
  }

  ghost predicate IndexHasGo(d: TableDetail, ix: IndexInfo) {
    HidesGo(d.schema) || HidesGo(d.name) || IndexHidesGo(ix)
  }

  /* ---- lists of names ---- */

  ghost predicate SomeHasGo(parts: seq<string>) {
    exists k :: 0 <= k < |parts| && HasGoLine(parts[k])
  }

  lemma SomeHasGoFirst(parts: seq<string>)
    requires parts != []
    ensures SomeHasGo(parts) <==> HasGoLine(parts[0]) || SomeHasGo(parts[1..])
  {
    hide HasGoLine;
    if SomeHasGo(parts[1..]) {
      var k :| 0 <= k < |parts[1..]| && HasGoLine(parts[1..][k]);
      assert parts[k + 1] == parts[1..][k];
    }
    if SomeHasGo(parts) {
      var k :| 0 <= k < |parts| && HasGoLine(parts[k]);
      assert 0 < k ==> parts[1..][k - 1] == parts[k];
    }
  }

  lemma {:induction false} GoInList(parts: seq<string>)
    requires parts != [] && forall k :: 0 <= k < |parts| ==> Walled(parts[k])
    ensures Walled(Join(parts, ", "))
    ensures HasGoLine(Join(parts, ", ")) <==> SomeHasGo(parts)
  {
    hide HasGoLine, Walled, SomeHasGo;
    SomeHasGoFirst(parts);
    if |parts| > 1 {
      GoInList(parts[1..]);
      WalledConcat(parts[0], ", ", Join(parts[1..], ", "));
    } else {
      assert parts[1..] == [];
      NoParts();
    }
  }

  lemma NoParts()
    ensures !SomeHasGo([])
  {
  }

  lemma GoInNames(names: seq<string>)
    ensures Walled(NameList(SQLServer, names))
    ensures HasGoLine(NameList(SQLServer, names)) <==> SomeHides(names)
  {
    hide HasGoLine, HidesGo, Walled, QuoteIdentifier, Join;
    var quoted := QuotedNames(SQLServer, names);
    var list := Join(quoted, ", ");
    ParensAreWalls(list);
    if names == [] {
      NoNames();
      assert quoted == [];
    } else {
      forall k | 0 <= k < |quoted| ensures Walled(quoted[k]) && (HasGoLine(quoted[k]) <==> HidesGo(names[k])) {
        QuotedGo(names[k]);
      }
      GoInList(quoted);
      PaddedGo("(", list, ")");
      SomeQuotedGo(names);
    }
  }

  lemma SomeQuotedGo(names: seq<string>)
    ensures SomeHasGo(QuotedNames(SQLServer, names)) <==> SomeHides(names)
  {
    hide HasGoLine, HidesGo, QuoteIdentifier, Walled;
    var quoted := QuotedNames(SQLServer, names);
    forall k | 0 <= k < |names| ensures HasGoLine(quoted[k]) <==> HidesGo(names[k]) {
      QuotedGo(names[k]);
    }
  }

  lemma NoNames()
    ensures !HasGoLine("(" + Join([], ", ") + ")")
  {
    hide IsGoSeparator;
    assert "(" + Join([], ", ") + ")" == "()";
    LinesOfOneLine("()");
    WalledLine("()", 0);
  }

  lemma ParensAreWalls(s: string)
    ensures Walled("(" + s + ")")
  {
  }

  /* ---- the parts of the table ---- */

  lemma GoInForeignKey(fk: ForeignKeyInfo)
    ensures Walled(ForeignKeyText(SQLServer, fk))
    ensures HasGoLine(ForeignKeyText(SQLServer, fk)) <==> KeyHidesGo(fk)
  {
    hide HidesGo, SomeHides, QuoteIdentifier, Qualify, NameList, HasGoLine, Walled;
    var name, cols := QuoteIdentifier(SQLServer, fk.name), NameList(SQLServer, fk.columns);
    var ref, refCols := Qualify(SQLServer, fk.refSchema, fk.refTable), NameList(SQLServer, fk.refColumns);
    QuotedGo(fk.name);
    GoInNames(fk.columns);
    GoInNames(fk.refColumns);
    QualifiedGo(fk.refSchema, fk.refTable);
    WalledConcat(name, " FOREIGN KEY ", cols);
    WalledConcat(name + " FOREIGN KEY " + cols, " REFERENCES ", ref);
    WalledConcat(name + " FOREIGN KEY " + cols + " REFERENCES " + ref, " ", refCols);
  }

  // Behind a wall the first line of a text is no separator, and the rest are its own.
  lemma GoBehindWall(a: string, x: string)
    requires a != "" && !GoRune(a[|a| - 1])
    ensures HasGoLine(a + x) <==> HasGoLine(a) || GoBehind(x)
  {
    hide IsGoSeparator, Splice, GoRune;
    var la, lx := Lines(a), Lines(x);
    var n := |la| - 1;
    LinesConcat(a, x);
    NewlineIsNoWall();
    LastLineOfWall(a);
    assert Splice(la, lx) == la[..n] + [la[n] + lx[0]] + lx[1..] by { SpliceIs(la, lx); }
    WalledLine(la[n], |la[n]| - 1);
    WalledLine(la[n] + lx[0], |la[n]| - 1);
    OneLineGo(la[n]);
    OneLineGo(la[n] + lx[0]);
    assert la == la[..n] + [la[n]];
    AnyGoConcat(la[..n], [la[n]]);
    AnyGoConcat(la[..n], [la[n] + lx[0]]);
    AnyGoConcat(la[..n] + [la[n] + lx[0]], lx[1..]);
  }

  lemma SpliceIs(la: seq<string>, lb: seq<string>)
    requires la != [] && lb != []
    ensures Splice(la, lb) == la[..|la| - 1] + [la[|la| - 1] + lb[0]] + lb[1..]
  {
  }

  lemma NewlineIsNoWall()
    ensures GoRune('\n')
  {
  }

  lemma LastLineOfWall(a: string)
    requires a != "" && a[|a| - 1] != '\n'
    ensures var la := Lines(a);
      var last := la[|la| - 1]; last != "" && last[|last| - 1] == a[|a| - 1]
  {
    hide Splice;
    var n := |a| - 1;
    assert a == a[..n] + [a[n]];
    LinesConcat(a[..n], [a[n]]);
    LinesOfOneLine([a[n]]);
    SpliceLines(Lines(a[..n]), Lines([a[n]]));
  }

  lemma GoInColumn(c: ColumnInfo, sep: string)
    ensures HasGoLine(ColumnLine(SQLServer, c) + sep) <==> HidesGo(c.name) || GoBehind(ColumnTail(c) + sep)
  {
    hide HidesGo, HasGoLine, GoBehind, QuoteIdentifier, ColumnTail;
    var name := QuoteIdentifier(SQLServer, c.name);
    QuotedGo(c.name);
    PaddedGo("    ", name, "");
    var a := "    " + name;
    assert a + "" == a;
    GoBehindWall(a, ColumnTail(c) + sep);
    assert ColumnLine(SQLServer, c) + sep == a + (ColumnTail(c) + sep);
  }

  // A part as it stands in the list: with the comma, unless it is the last.
  function Ended(parts: seq<string>, k: nat): string
    requires k < |parts|
  {
    parts[k] + if k == |parts| - 1 then "" else ","
  }

  ghost predicate PartHasGo(parts: seq<string>, k: nat) { k < |parts| && HasGoLine(Ended(parts, k)) }

  lemma GoAround(a: string, b: string)
    ensures HasGoLine(a + "\n" + b) <==> HasGoLine(a) || HasGoLine(b)
  {
    hide AnyGo;
    LinesAround(a, b);
    AnyGoConcat(Lines(a), Lines(b));
  }

  lemma {:induction false} GoInParts(parts: seq<string>)
    ensures HasGoLine(Join(parts, ",\n")) <==> exists k: nat :: PartHasGo(parts, k)
  {
    hide HasGoLine;
    if parts == [] {
      EmptyTextGoFree();
    } else {
      assert parts[0] + "" == parts[0];
      if |parts| == 1 {
        assert HasGoLine(parts[0]) <==> PartHasGo(parts, 0);
      } else {
        GoInParts(parts[1..]);
        GoAround(parts[0] + ",", Join(parts[1..], ",\n"));
        assert parts[0] + ",\n" == parts[0] + "," + "\n";
        LaterParts(parts);
      }
    }
  }

  lemma LaterParts(parts: seq<string>)
    requires |parts| > 1
    ensures (exists k: nat :: PartHasGo(parts, k)) <==>
      HasGoLine(parts[0] + ",") || exists k: nat :: PartHasGo(parts[1..], k)
  {
    hide HasGoLine;
    assert HasGoLine(parts[0] + ",") <==> PartHasGo(parts, 0);
    if k: nat :| PartHasGo(parts[1..], k) {
      assert PartHasGo(parts, k + 1);
    }
    if k: nat :| PartHasGo(parts, k) {
      assert k == 0 || PartHasGo(parts[1..], k - 1);
    }
  }

  // The key repeats names of columns, so it has no GO line of its own.
  lemma {:induction false} KeyNamesAreNames(cs: seq<ColumnInfo>, name: string)
    requires name in KeyNames(cs)
    ensures exists k: nat :: k < |cs| && cs[k].name == name
  {
    var n := |cs| - 1;
    if name in KeyNames(cs[..n]) {
      KeyNamesAreNames(cs[..n], name);
      var k: nat :| k < n && cs[..n][k].name == name;
      assert cs[k].name == name;
    } else {
      assert cs[n].name == name;
    }
  }

  lemma GoInColumnPart(d: TableDetail, k: nat)
    requires k < |d.columns|
    ensures k < |Parts(SQLServer, d)|
    ensures PartHasGo(Parts(SQLServer, d), k) <==> ColumnHasGo(d, k)
  {
    hide HasGoLine, HidesGo, GoBehind, ColumnLine, ColumnTail, KeyLine, ForeignKeyLine, KeyNames;
    GoInColumn(d.columns[k], "");
    GoInColumn(d.columns[k], ",");
  }

  lemma GoInKeyPart(d: TableDetail)
    requires KeyNames(d.columns) != []
    ensures PartHasGo(Parts(SQLServer, d), |d.columns|) ==> SomeHides(KeyNames(d.columns))
  {
    hide HasGoLine, HidesGo, Walled, ColumnLine, NameList, ForeignKeyLine, KeyNames;
    var key, n := KeyNames(d.columns), |d.columns|;
    var lead, list := "    PRIMARY KEY ", NameList(SQLServer, key);
    GoInNames(key);
    PaddedGo(lead, list, "");
    PaddedGo(lead, list, ",");
    assert Parts(SQLServer, d)[n] == lead + list;
  }

  lemma GoInForeignKeyPart(d: TableDetail, k: nat)
    requires k < |d.foreignKeys|
    ensures var m := |d.columns| + (if KeyNames(d.columns) == [] then 0 else 1);
      PartHasGo(Parts(SQLServer, d), m + k) <==> KeyHidesGo(d.foreignKeys[k])
  {
    hide HasGoLine, HidesGo, SomeHides, Walled, ColumnLine, KeyLine, ForeignKeyText, KeyNames;
    var m := |d.columns| + (if KeyNames(d.columns) == [] then 0 else 1);
    var fk := d.foreignKeys[k];
    var text, lead := ForeignKeyText(SQLServer, fk), "    CONSTRAINT ";
    GoInForeignKey(fk);
    PaddedGo(lead, text, "");
    PaddedGo(lead, text, ",");
    assert Parts(SQLServer, d)[m + k] == ForeignKeyLines(SQLServer, d.foreignKeys)[k] == lead + text;
    assert lead + text + "" == lead + text;
  }

  lemma GoInTableParts(d: TableDetail)
    ensures (exists k: nat :: PartHasGo(Parts(SQLServer, d), k)) <==> PartsHaveGo(d)
  {
    hide ColumnHasGo, KeyHidesGo, KeyNames, PartHasGo, Parts;
    if k: nat :| PartHasGo(Parts(SQLServer, d), k) {
      PartGoIsTableGo(d, k);
    }
    if k: nat :| k < |d.columns| && ColumnHasGo(d, k) {
      GoInColumnPart(d, k);
    }
    if k: nat :| k < |d.foreignKeys| && KeyHidesGo(d.foreignKeys[k]) {
      GoInForeignKeyPart(d, k);
    }
  }

  lemma PartGoIsTableGo(d: TableDetail, k: nat)
    requires PartHasGo(Parts(SQLServer, d), k)
    ensures PartsHaveGo(d)
  {
    hide ColumnHasGo, KeyHidesGo, KeyNames, Parts, HasGoLine, SomeHides, Ended;
    var n := |d.columns|;
    var m := n + (if KeyNames(d.columns) == [] then 0 else 1);
    CountParts(d);
    if k < n {
      GoInColumnPart(d, k);
    } else if k < m {
      GoInKeyPart(d);
      HidingKeyIsColumn(d);
    } else {
      GoInForeignKeyPart(d, k - m);
    }
  }

  lemma CountParts(d: TableDetail)
    ensures |Parts(SQLServer, d)| == |d.columns| + (if KeyNames(d.columns) == [] then 0 else 1) + |d.foreignKeys|
  {
    hide KeyNames;
  }

  lemma HidingKeyIsColumn(d: TableDetail)
    requires SomeHides(KeyNames(d.columns))
    ensures exists k: nat :: k < |d.columns| && ColumnHasGo(d, k)
  {
    hide HidesGo, KeyNames, GoBehind;
    var key := KeyNames(d.columns);
    var j :| 0 <= j < |key| && HidesGo(key[j]);
    assert key[j] in key;
    KeyNamesAreNames(d.columns, key[j]);
    var k: nat :| k < |d.columns| && d.columns[k].name == key[j];
    assert ColumnHasGo(d, k);
  }

  /* ---- the statements ---- */

  lemma GoInTable(d: TableDetail)
    ensures HasGoLine(TableBody(SQLServer, d) + ";") <==> TableHasGo(d)
  {
    hide HidesGo, HasGoLine, Parts, Join, Qualify, Walled, ColumnHasGo, KeyHidesGo;
    var name, list := Qualify(SQLServer, d.schema, d.name), Join(Parts(SQLServer, d), ",\n");
    QualifiedGo(d.schema, d.name);
    PaddedGo("CREATE TABLE ", name, " (");
    GoInParts(Parts(SQLServer, d));
    GoInTableParts(d);
    LastLineGoFree();
    GoAround("CREATE TABLE " + name + " (", list);
    GoAround("CREATE TABLE " + name + " (" + "\n" + list, ");");
    TableShape(name, list);
  }

  lemma TableShape(name: string, list: string)
    ensures "CREATE TABLE " + name + " (" + "\n" + list + "\n" + ");" ==
      "CREATE TABLE " + name + " (\n" + list + "\n)" + ";"
  {
    assert " (" + "\n" == " (\n";
    assert "\n" + ");" == "\n)" + ";";
    var a := "CREATE TABLE " + name;
    assert a + " (" + "\n" == a + " (\n";
  }

  lemma LastLineGoFree()
    ensures !HasGoLine(");")
  {
    hide IsGoSeparator;
    LinesOfOneLine(");");
    WalledLine(");", 0);
  }

  lemma GoInIndex(d: TableDetail, ix: IndexInfo)
    ensures HasGoLine(IndexBody(SQLServer, d, ix) + ";") <==> IndexHasGo(d, ix)
  {
    hide HidesGo, SomeHides, HasGoLine, NameList, Qualify, QuoteIdentifier, Walled;
    var lead := if ix.unique then "CREATE UNIQUE INDEX " else "CREATE INDEX ";
    var name, on := QuoteIdentifier(SQLServer, ix.name), Qualify(SQLServer, d.schema, d.name);
    var cols := NameList(SQLServer, ix.columns);
    QuotedGo(ix.name);
    QualifiedGo(d.schema, d.name);
    GoInNames(ix.columns);
    WalledConcat(name, " ON ", on);
    WalledConcat(name + " ON " + on, " ", cols);
    var core := name + " ON " + on + " " + cols;
    IndexShape(lead, name, on, cols);
    PaddedGo(lead, core, ";");
  }

  lemma IndexShape(lead: string, name: string, on: string, cols: string)
    ensures lead + name + " ON " + on + " " + cols + ";" == lead + (name + " ON " + on + " " + cols) + ";"
  {
  }

  // Types and defaults of one line have no GO line behind the column's name.
  lemma OneLineTail(d: TableDetail, k: nat)
    requires k < |d.columns| && OneLine(d.columns[k].dataType)
    requires d.columns[k].default.Some? ==> OneLine(d.columns[k].default.value)
    ensures !GoBehind(EndedTail(d, k))
  {
    hide IsGoSeparator, KeyNames, Lines;
    LinesOfOneLine(EndedTail(d, k));
  }
}

/** renderDDL and quoteAll (core/dbcore/introspect.go:230-305): the reconstructed
    script is read back by the core's own splitter as the statements it was
    printed from. */
module Ddl {
  import opened Wrappers
  import opened Text
  import opened Lexer
  import opened Quoting
  import opened Fragments

  datatype ColumnInfo = ColumnInfo(
    name: string, dataType: string, nullable: bool, default: Option<string>, isPrimaryKey: bool)
  datatype IndexInfo = IndexInfo(name: string, columns: seq<string>, unique: bool, primary: bool)
  datatype ForeignKeyInfo = ForeignKeyInfo(
    name: string, columns: seq<string>, refSchema: string, refTable: string, refColumns: seq<string>)
  datatype TableDetail = TableDetail(
    schema: string, name: string, columns: seq<ColumnInfo>, indexes: seq<IndexInfo>,
    foreignKeys: seq<ForeignKeyInfo>)

  /* ---- the parts of the script ---- */

  function QuotedNames(e: Engine, names: seq<string>): (q: seq<string>)
    ensures |q| == |names|
    ensures forall k :: 0 <= k < |q| ==> q[k] == QuoteIdentifier(e, names[k])
  {
    seq(|names|, k requires 0 <= k < |names| => QuoteIdentifier(e, names[k]))
  }

  function InParens(parts: seq<string>): string { "(" + Join(parts, ", ") + ")" }

  // "([a], [b])"
  function NameList(e: Engine, names: seq<string>): string { InParens(QuotedNames(e, names)) }

  // What follows the column's name: its type, nullability and default.
  function ColumnTail(c: ColumnInfo): string {
    " " + c.dataType
    + (if c.nullable then "" else " NOT NULL")
    + (if c.default.Some? && c.default.value != "" then " DEFAULT " + c.default.value else "")
  }

  function ColumnLine(e: Engine, c: ColumnInfo): string {
    "    " + QuoteIdentifier(e, c.name) + ColumnTail(c)
  }

  function ColumnLines(e: Engine, cs: seq<ColumnInfo>): (ls: seq<string>)
    ensures |ls| == |cs| && forall k :: 0 <= k < |cs| ==> ls[k] == ColumnLine(e, cs[k])
  {
    seq(|cs|, k requires 0 <= k < |cs| => ColumnLine(e, cs[k]))
  }

  function KeyNames(cs: seq<ColumnInfo>): seq<string> {
    if cs == [] then []
    else
      var before, last := KeyNames(cs[..|cs| - 1]), cs[|cs| - 1];
      if last.isPrimaryKey then before + [last.name] else before
  }

  function KeyLine(e: Engine, names: seq<string>): string { "    PRIMARY KEY " + NameList(e, names) }

  function ForeignKeyLine(e: Engine, fk: ForeignKeyInfo): string {
    "    CONSTRAINT " + ForeignKeyText(e, fk)
  }

  function ForeignKeyText(e: Engine, fk: ForeignKeyInfo): string {
    QuoteIdentifier(e, fk.name) + " FOREIGN KEY " + NameList(e, fk.columns)
    + " REFERENCES " + Qualify(e, fk.refSchema, fk.refTable) + " " + NameList(e, fk.refColumns)
  }

  function ForeignKeyLines(e: Engine, fks: seq<ForeignKeyInfo>): (ls: seq<string>)
    ensures |ls| == |fks| && forall k :: 0 <= k < |fks| ==> ls[k] == ForeignKeyLine(e, fks[k])
  {
    seq(|fks|, k requires 0 <= k < |fks| => ForeignKeyLine(e, fks[k]))
  }

  function Parts(e: Engine, d: TableDetail): seq<string> {
    var key := KeyNames(d.columns);
    ColumnLines(e, d.columns) + (if key == [] then [] else [KeyLine(e, key)])
    + ForeignKeyLines(e, d.foreignKeys)
  }

  // CREATE TABLE without its closing semicolon.
  function TableBody(e: Engine, d: TableDetail): string {
    "CREATE TABLE " + Qualify(e, d.schema, d.name) + " (\n" + Join(Parts(e, d), ",\n") + "\n)"
  }

  function IndexBody(e: Engine, d: TableDetail, ix: IndexInfo): string {
    (if ix.unique then "CREATE UNIQUE INDEX " else "CREATE INDEX ") + QuoteIdentifier(e, ix.name)
    + " ON " + Qualify(e, d.schema, d.name) + " " + NameList(e, ix.columns)
  }

  function IndexLine(e: Engine, d: TableDetail, ix: IndexInfo): string {
    "\n" + IndexBody(e, d, ix) + ";\n"
  }

  function IndexText(e: Engine, d: TableDetail, ixs: seq<IndexInfo>): string {
    if ixs == [] then ""
    else
      var before, last := IndexText(e, d, ixs[..|ixs| - 1]), ixs[|ixs| - 1];
      if last.primary then before else before + IndexLine(e, d, last)
  }

  function DdlText(e: Engine, d: TableDetail): string {
    TableBody(e, d) + ";\n" + IndexText(e, d, d.indexes)
  }

  /* ---- the printing loops ---- */

  method QuoteAll(e: Engine, names: seq<string>) returns (joined: string)
    ensures joined == Join(QuotedNames(e, names), ", ")
  {
    hide QuoteIdentifier, Join;
    var out: seq<string> := [];
    for i := 0 to |names|
      invariant out == QuotedNames(e, names[..i])
    {
      out := out + [QuoteIdentifier(e, names[i])];
    }
    assert names[..|names|] == names;
    return Join(out, ", ");
  }

  method RenderDdl(e: Engine, d: TableDetail) returns (b: string)
    ensures b == DdlText(e, d)
  {
    hide *;
    b := "CREATE TABLE " + Qualify(e, d.schema, d.name) + " (\n";
    ghost var head := b;
    var parts: seq<string> := [];
    ColumnStep(e, [], None);
    for i := 0 to |d.columns|
      invariant parts == ColumnLines(e, d.columns[..i])
    {
      ColumnStep(e, d.columns[..i], Some(d.columns[i]));
      assert d.columns[..i + 1] == d.columns[..i] + [d.columns[i]];
      parts := parts + [ColumnLine(e, d.columns[i])];
    }
    assert d.columns[..|d.columns|] == d.columns;
    var pk: seq<string> := [];
    KeyStep(e, []);
    for i := 0 to |d.columns|
      invariant pk == QuotedNames(e, KeyNames(d.columns[..i]))
    {
      assert d.columns[..i + 1][..i] == d.columns[..i];
      KeyStep(e, d.columns[..i + 1]);
      if d.columns[i].isPrimaryKey {
        pk := pk + [QuoteIdentifier(e, d.columns[i].name)];
      }
    }
    KeyPart(e, KeyNames(d.columns), pk);
    if |pk| > 0 {
      parts := parts + ["    PRIMARY KEY " + InParens(pk)];
    }
    ghost var before := parts;
    ForeignKeyStep(e, [], None);
    for i := 0 to |d.foreignKeys|
      invariant parts == before + ForeignKeyLines(e, d.foreignKeys[..i])
    {
      ForeignKeyStep(e, d.foreignKeys[..i], Some(d.foreignKeys[i]));
      assert d.foreignKeys[..i + 1] == d.foreignKeys[..i] + [d.foreignKeys[i]];
      parts := parts + [ForeignKeyLine(e, d.foreignKeys[i])];
    }
    assert d.foreignKeys[..|d.foreignKeys|] == d.foreignKeys;
    PartsOf(e, d, before, parts);
    b := b + Join(parts, ",\n");
    b := b + "\n);\n";
    TableBodyOf(e, d, head, b);
    ghost var table := b;
    IndexStep(e, d, []);
    for i := 0 to |d.indexes|
      invariant b == table + IndexText(e, d, d.indexes[..i])
    {
      assert d.indexes[..i + 1][..i] == d.indexes[..i];
      IndexStep(e, d, d.indexes[..i + 1]);
      if d.indexes[i].primary {
        continue;
      }
      b := b + IndexLine(e, d, d.indexes[i]);
    }
    assert d.indexes[..|d.indexes|] == d.indexes;
    DdlTextOf(e, d);
  }

  lemma ColumnStep(e: Engine, cs: seq<ColumnInfo>, c: Option<ColumnInfo>)
    ensures c.None? ==> ColumnLines(e, []) == []
    ensures c.Some? ==> ColumnLines(e, cs + [c.value]) == ColumnLines(e, cs) + [ColumnLine(e, c.value)]
  {
    hide ColumnLine;
  }

  lemma KeyStep(e: Engine, cs: seq<ColumnInfo>)
    ensures cs == [] ==> QuotedNames(e, KeyNames(cs)) == []
    ensures cs != [] ==>
      var before, last := QuotedNames(e, KeyNames(cs[..|cs| - 1])), cs[|cs| - 1];
      QuotedNames(e, KeyNames(cs)) ==
        if last.isPrimaryKey then before + [QuoteIdentifier(e, last.name)] else before
  {
    hide QuoteIdentifier;
  }

  lemma KeyPart(e: Engine, key: seq<string>, pk: seq<string>)
    requires pk == QuotedNames(e, key)
    ensures "    PRIMARY KEY " + InParens(pk) == KeyLine(e, key)
  {
  }

  lemma ForeignKeyStep(e: Engine, fks: seq<ForeignKeyInfo>, fk: Option<ForeignKeyInfo>)
    ensures fk.None? ==> ForeignKeyLines(e, []) == []
    ensures fk.Some? ==>
      ForeignKeyLines(e, fks + [fk.value]) == ForeignKeyLines(e, fks) + [ForeignKeyLine(e, fk.value)]
  {
    hide ForeignKeyLine;
  }

  lemma PartsOf(e: Engine, d: TableDetail, before: seq<string>, parts: seq<string>)
    requires before == ColumnLines(e, d.columns)
      + (if KeyNames(d.columns) == [] then [] else [KeyLine(e, KeyNames(d.columns))])
    requires parts == before + ForeignKeyLines(e, d.foreignKeys)
    ensures parts == Parts(e, d)
  {
    hide KeyLine, ColumnLines, ForeignKeyLines;
  }

  lemma TableBodyOf(e: Engine, d: TableDetail, head: string, b: string)
    requires head == "CREATE TABLE " + Qualify(e, d.schema, d.name) + " (\n"
    requires b == head + Join(Parts(e, d), ",\n") + "\n);\n"
    ensures b == TableBody(e, d) + ";\n"
  {
    hide Qualify, Join, Parts;
    assert "\n);\n" == "\n)" + ";\n";
  }

  lemma IndexStep(e: Engine, d: TableDetail, ixs: seq<IndexInfo>)
    ensures ixs == [] ==> IndexText(e, d, ixs) == ""
    ensures ixs != [] ==>
      var before, last := IndexText(e, d, ixs[..|ixs| - 1]), ixs[|ixs| - 1];
      IndexText(e, d, ixs) == if last.primary then before else before + IndexLine(e, d, last)
  {
    hide IndexLine;
  }

  lemma DdlTextOf(e: Engine, d: TableDetail)
    ensures TableBody(e, d) + ";\n" + IndexText(e, d, d.indexes) == DdlText(e, d)
  {
  }

  /* ---- what a readable script needs ---- */

  predicate SafeNames(e: Engine, names: seq<string>) {
    forall k :: 0 <= k < |names| ==> SafeName(e, names[k])
  }

  // Names are safe; types and defaults are fragments by themselves.
  ghost predicate SafeColumn(e: Engine, c: ColumnInfo) {
    && SafeName(e, c.name) && Fragment(DialectOf(e), c.dataType)
    && (c.default.Some? ==> Fragment(DialectOf(e), c.default.value))
  }

  predicate SafeForeignKey(e: Engine, fk: ForeignKeyInfo) {
    && SafeName(e, fk.name) && SafeNames(e, fk.columns) && SafeNames(e, fk.refColumns)
    && SafeName(e, fk.refSchema) && SafeName(e, fk.refTable)
  }

  predicate SafeIndex(e: Engine, ix: IndexInfo) { SafeName(e, ix.name) && SafeNames(e, ix.columns) }

  ghost predicate SafeDetail(e: Engine, d: TableDetail) {
    && SafeName(e, d.schema) && SafeName(e, d.name)
    && (forall k :: 0 <= k < |d.columns| ==> SafeColumn(e, d.columns[k]))
    && (forall k :: 0 <= k < |d.foreignKeys| ==> SafeForeignKey(e, d.foreignKeys[k]))
    && (forall k :: 0 <= k < |d.indexes| ==> d.indexes[k].primary || SafeIndex(e, d.indexes[k]))
  }

  /* ---- every statement of the script is a fragment ---- */

  lemma NameListFragment(e: Engine, names: seq<string>)
    requires SafeNames(e, names)
    ensures Fragment(DialectOf(e), NameList(e, names))
  {
    hide Fragment, QuoteIdentifier, SafeName, Join;
    var d, quoted := DialectOf(e), QuotedNames(e, names);
    forall k | 0 <= k < |quoted| ensures Fragment(d, quoted[k]) {
      QuotedFragment(e, names[k]);
    }
    JoinFragment(d, quoted, ", ");
    PlainFragment(d, "(");
    PlainFragment(d, ")");
    FragmentAround(d, "(", Join(quoted, ", "), ")");
  }

  lemma NameListEnds(e: Engine, names: seq<string>)
    ensures var t := NameList(e, names); t != "" && t[0] == '(' && t[|t| - 1] == ')'
  {
    hide Join;
  }

  lemma ColumnTailFragment(e: Engine, c: ColumnInfo)
    requires SafeColumn(e, c)
    ensures Fragment(DialectOf(e), ColumnTail(c)) && ColumnTail(c) != "" && Punct(ColumnTail(c)[0])
  {
    hide Fragment;
    var d := DialectOf(e);
    PlainFragment(d, " ");
    EmptyFragment(d);
    PlainFragment(d, " NOT NULL");
    PlainFragment(d, " DEFAULT ");
    FragmentConcat(d, " ", c.dataType);
    var notNull := if c.nullable then "" else " NOT NULL";
    FragmentConcat(d, " " + c.dataType, notNull);
    if c.default.Some? && c.default.value != "" {
      FragmentConcat(d, " DEFAULT ", c.default.value);
      FragmentConcat(d, " " + c.dataType + notNull, " DEFAULT " + c.default.value);
    } else {
      FragmentConcat(d, " " + c.dataType + notNull, "");
    }
  }

  lemma ColumnLineFragment(e: Engine, c: ColumnInfo)
    requires SafeColumn(e, c)
    ensures Fragment(DialectOf(e), ColumnLine(e, c))
  {
    hide Fragment, QuoteIdentifier, ColumnTail, SafeName;
    var d := DialectOf(e);
    QuotedFragment(e, c.name);
    ColumnTailFragment(e, c);
    PlainFragment(d, "    ");
    FragmentAround(d, "    ", QuoteIdentifier(e, c.name), ColumnTail(c));
  }

  lemma ForeignKeyFragment(e: Engine, fk: ForeignKeyInfo)
    requires SafeForeignKey(e, fk)
    ensures Fragment(DialectOf(e), ForeignKeyLine(e, fk))
  {
    hide Fragment, QuoteIdentifier, NameList, Qualify, SafeName, SafeNames;
    var d := DialectOf(e);
    var name, cols := QuoteIdentifier(e, fk.name), NameList(e, fk.columns);
    var ref, refCols := Qualify(e, fk.refSchema, fk.refTable), NameList(e, fk.refColumns);
    QuotedFragment(e, fk.name);
    NameListFragment(e, fk.columns);
    NameListFragment(e, fk.refColumns);
    NameListEnds(e, fk.columns);
    NameListEnds(e, fk.refColumns);
    QualifiedFragment(e, fk.refSchema, fk.refTable);
    PlainFragment(d, " FOREIGN KEY ");
    PlainFragment(d, " REFERENCES ");
    PlainFragment(d, " ");
    PlainFragment(d, "    CONSTRAINT ");
    FragmentConcat(d, name, " FOREIGN KEY ");
    FragmentConcat(d, name + " FOREIGN KEY ", cols);
    FragmentConcat(d, name + " FOREIGN KEY " + cols, " REFERENCES ");
    FragmentConcat(d, name + " FOREIGN KEY " + cols + " REFERENCES ", ref);
    FragmentConcat(d, name + " FOREIGN KEY " + cols + " REFERENCES " + ref, " ");
    FragmentConcat(d, name + " FOREIGN KEY " + cols + " REFERENCES " + ref + " ", refCols);
    FragmentConcat(d, "    CONSTRAINT ", ForeignKeyText(e, fk));
  }

  lemma {:induction false} SafeKeyNames(e: Engine, cs: seq<ColumnInfo>)
    requires forall k :: 0 <= k < |cs| ==> SafeColumn(e, cs[k])
    ensures SafeNames(e, KeyNames(cs))
  {
    hide SafeName, Fragment;
    if cs != [] {
      SafeKeyNames(e, cs[..|cs| - 1]);
    }
  }

  lemma PartsFragment(e: Engine, d: TableDetail, k: nat)
    requires SafeDetail(e, d) && k < |Parts(e, d)|
    ensures Fragment(DialectOf(e), Parts(e, d)[k])
  {
    hide Fragment, ColumnLine, NameList, ForeignKeyLine, SafeName, SafeNames, SafeColumn, SafeForeignKey;
    var key := KeyNames(d.columns);
    var n := |d.columns|;
    var m := if key == [] then n else n + 1;
    if k < n {
      ColumnLineFragment(e, d.columns[k]);
    } else if k < m {
      SafeKeyNames(e, d.columns);
      NameListFragment(e, key);
      PlainFragment(DialectOf(e), "    PRIMARY KEY ");
      FragmentConcat(DialectOf(e), "    PRIMARY KEY ", NameList(e, key));
    } else {
      assert Parts(e, d)[k] == ForeignKeyLines(e, d.foreignKeys)[k - m];
      ForeignKeyFragment(e, d.foreignKeys[k - m]);
    }
  }

  lemma TableBodyFragment(e: Engine, d: TableDetail)
    requires SafeDetail(e, d)
    ensures Fragment(DialectOf(e), TableBody(e, d))
  {
    hide Fragment, Qualify, Parts, SafeName, SafeColumn, SafeForeignKey, SafeIndex;
    var dl, name, list := DialectOf(e), Qualify(e, d.schema, d.name), Join(Parts(e, d), ",\n");
    QualifiedFragment(e, d.schema, d.name);
    forall k | 0 <= k < |Parts(e, d)| ensures Fragment(dl, Parts(e, d)[k]) {
      PartsFragment(e, d, k);
    }
    JoinFragment(dl, Parts(e, d), ",\n");
    PlainFragment(dl, "CREATE TABLE ");
    PlainFragment(dl, " (\n");
    PlainFragment(dl, "\n)");
    hide Join;
    FragmentAround(dl, "CREATE TABLE ", name, " (\n");
    FragmentAround(dl, "CREATE TABLE " + name + " (\n", list, "\n)");
  }

  lemma IndexBodyFragment(e: Engine, d: TableDetail, ix: IndexInfo)
    requires SafeName(e, d.schema) && SafeName(e, d.name) && SafeIndex(e, ix)
    ensures Fragment(DialectOf(e), IndexBody(e, d, ix))
  {
    hide Fragment, QuoteIdentifier, NameList, Qualify, SafeName, SafeNames;
    var dl := DialectOf(e);
    var lead := if ix.unique then "CREATE UNIQUE INDEX " else "CREATE INDEX ";
    var name, on, cols := QuoteIdentifier(e, ix.name), Qualify(e, d.schema, d.name), NameList(e, ix.columns);
    QuotedFragment(e, ix.name);
    QualifiedFragment(e, d.schema, d.name);
    NameListFragment(e, ix.columns);
    PlainFragment(dl, lead);
    PlainFragment(dl, " ON ");
    PlainFragment(dl, " ");
    FragmentAround(dl, lead, name, " ON ");
    FragmentConcat(dl, lead + name + " ON ", on);
    FragmentConcat(dl, lead + name + " ON " + on, " ");
    FragmentConcat(dl, lead + name + " ON " + on + " ", cols);
  }
}

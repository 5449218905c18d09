/** A left-to-right reader of the reconstructed script (core/dbcore/introspect.go:230-305)
    and when it gets back the table the script was printed from. */
module DdlReader {
  import opened Wrappers
  import opened Text
  import opened Lexer
  import opened Skippers
  import opened Quoting
  import opened Ddl

  datatype Part =
    | Column(name: string, dataType: string, nullable: bool, default: Option<string>)
    | Key(names: seq<string>)
    | Foreign(name: string, columns: seq<string>, schema: string, table: string, refColumns: seq<string>)

  datatype Index = Index(name: string, unique: bool, schema: string, table: string, columns: seq<string>)

  datatype Script = Script(schema: string, table: string, parts: seq<Part>, indexes: seq<Index>)

  /* ---- the reader ---- */

  // "([a], [b])"
  function ReadNames(e: Engine, s: string): (r: Option<(seq<string>, string)>)
    ensures r.Some? ==> |r.value.1| < |s|
  {
    var a :- Skip("(", s);
    var none := Skip(")", a);
    if none.Some? then Some(([], none.value)) else MoreNames(e, a)
  }

  function MoreNames(e: Engine, s: string): (r: Option<(seq<string>, string)>)
    ensures r.Some? ==> |r.value.1| < |s|
    decreases |s|
  {
    var first :- ReadIdentifier(e, s);
    var comma := Skip(", ", first.1);
    if comma.Some? then
      var more :- MoreNames(e, comma.value);
      Some(([first.0] + more.0, more.1))
    else
      var end :- Skip(")", first.1);
      Some(([first.0], end))
  }

  // The first place where the text of a column may end: at ",\n" or "\n)".
  predicate StopsAt(s: string, i: nat) {
    i + 1 < |s| && ((s[i] == ',' && s[i + 1] == '\n') || (s[i] == '\n' && s[i + 1] == ')'))
  }

  function TextEnd(s: string, i: nat): (k: nat)
    requires i <= |s|
    ensures i <= k <= |s|
    ensures forall j :: i <= j < k ==> !StopsAt(s, j)
    ensures k < |s| ==> StopsAt(s, k)
    decreases |s| - i
  {
    if i == |s| || StopsAt(s, i) then i else TextEnd(s, i + 1)
  }

  predicate EndsIn(s: string, t: string) { |t| <= |s| && s[|s| - |t|..] == t }

  // What stands behind a column's name: its type, then "NOT NULL" and the default.
  function ReadTail(name: string, u: string): Option<Part> {
    var v :- Skip(" ", u);
    var k := Skippers.Index(v, " DEFAULT ");
    var head := if k < 0 then v else v[..k];
    var default := if k < 0 then None else Some(v[k + 9..]);
    Some(ColumnOf(name, head, default))
  }

  function ColumnOf(name: string, head: string, default: Option<string>): Part {
    if EndsIn(head, " NOT NULL") then Column(name, head[..|head| - 9], false, default)
    else Column(name, head, true, default)
  }

  function ReadColumn(e: Engine, s: string): (r: Option<(Part, string)>)
    ensures r.Some? ==> |r.value.1| <= |s|
  {
    var name :- ReadIdentifier(e, s);
    var k := TextEnd(name.1, 0);
    var part :- ReadTail(name.0, name.1[..k]);
    Some((part, name.1[k..]))
  }

  function ReadForeign(e: Engine, s: string): (r: Option<(Part, string)>)
    ensures r.Some? ==> |r.value.1| <= |s|
  {
    var name :- ReadIdentifier(e, s);
    var a :- Skip(" FOREIGN KEY ", name.1);
    var columns :- ReadNames(e, a);
    var b :- Skip(" REFERENCES ", columns.1);
    var target :- ReadName(e, b);
    var c :- Skip(" ", target.1);
    var refColumns :- ReadNames(e, c);
    Some((Foreign(name.0, columns.0, target.0.0, target.0.1, refColumns.0), refColumns.1))
  }

  function ReadPart(e: Engine, s: string): (r: Option<(Part, string)>)
    ensures r.Some? ==> |r.value.1| < |s|
  {
    var a :- Skip("    ", s);
    var key, foreign := Skip("PRIMARY KEY ", a), Skip("CONSTRAINT ", a);
    if key.Some? then
      var names :- ReadNames(e, key.value);
      Some((Key(names.0), names.1))
    else if foreign.Some? then ReadForeign(e, foreign.value)
    else ReadColumn(e, a)
  }

  function ReadParts(e: Engine, s: string): Option<(seq<Part>, string)>
    decreases |s|
  {
    var part :- ReadPart(e, s);
    var comma := Skip(",\n", part.1);
    if comma.Some? then
      var more :- ReadParts(e, comma.value);
      Some(([part.0] + more.0, more.1))
    else Some(([part.0], part.1))
  }

  function ReadIndex(e: Engine, s: string): (r: Option<(Index, string)>)
    ensures r.Some? ==> |r.value.1| < |s|
  {
    var a :- Skip("\nCREATE ", s);
    var unique := Skip("UNIQUE ", a);
    var b :- Skip("INDEX ", if unique.Some? then unique.value else a);
    var name :- ReadIdentifier(e, b);
    var c :- Skip(" ON ", name.1);
    var table :- ReadName(e, c);
    var d :- Skip(" ", table.1);
    var columns :- ReadNames(e, d);
    var end :- Skip(";\n", columns.1);
    Some((Index(name.0, unique.Some?, table.0.0, table.0.1, columns.0), end))
  }

  function ReadIndexes(e: Engine, s: string): Option<seq<Index>>
    decreases |s|
  {
    if s == "" then Some([])
    else
      var index :- ReadIndex(e, s);
      var more :- ReadIndexes(e, index.1);
      Some([index.0] + more)
  }

  function ReadScript(e: Engine, s: string): Option<Script> {
    var a :- Skip("CREATE TABLE ", s);
    var name :- ReadName(e, a);
    var b :- Skip(" (\n", name.1);
    var parts :- if Skip("    ", b).Some? then ReadParts(e, b) else Some(([], b));
    var c :- Skip("\n);\n", parts.1);
    var indexes :- ReadIndexes(e, c);
    Some(Script(name.0.0, name.0.1, parts.0, indexes))
  }

  /* ---- what the script is meant to say ---- */

  // An empty default is no default.
  function MeantDefault(c: ColumnInfo): Option<string> {
    if c.default == Some("") then None else c.default
  }

  function MeantColumn(c: ColumnInfo): Part { Column(c.name, c.dataType, c.nullable, MeantDefault(c)) }

  function MeantColumns(cs: seq<ColumnInfo>): seq<Part> {
    if cs == [] then [] else [MeantColumn(cs[0])] + MeantColumns(cs[1..])
  }

  // The names of the columns that make the primary key, in order.
  function MeantKey(cs: seq<ColumnInfo>): seq<string> {
    if cs == [] then []
    else (if cs[0].isPrimaryKey then [cs[0].name] else []) + MeantKey(cs[1..])
  }

  function MeantForeign(fk: ForeignKeyInfo): Part {
    Foreign(fk.name, fk.columns, fk.refSchema, fk.refTable, fk.refColumns)
  }

  function MeantForeigns(fks: seq<ForeignKeyInfo>): seq<Part> {
    if fks == [] then [] else [MeantForeign(fks[0])] + MeantForeigns(fks[1..])
  }

  function MeantParts(d: TableDetail): seq<Part> {
    var key := MeantKey(d.columns);
    MeantColumns(d.columns) + (if key == [] then [] else [Key(key)]) + MeantForeigns(d.foreignKeys)
  }

  // Every index that is not primary, in order.
  function MeantIndexes(d: TableDetail, ixs: seq<IndexInfo>): seq<Index> {
    if ixs == [] then []
    else
      (if ixs[0].primary then []
       else [Index(ixs[0].name, ixs[0].unique, d.schema, d.name, ixs[0].columns)])
      + MeantIndexes(d, ixs[1..])
  }

  function Meant(d: TableDetail): Script {
    Script(d.schema, d.name, MeantParts(d), MeantIndexes(d, d.indexes))
  }

  /* ---- names, lists of names and whole parts ---- */

  lemma {:induction false} ReadMoreNames(e: Engine, names: seq<string>, rest: string)
    requires names != []
    ensures MoreNames(e, Join(QuotedNames(e, names), ", ") + ")" + rest) == Some((names, rest))
    decreases |names|
  {
    hide QuoteIdentifier, ReadIdentifier, Skip;
    var quoted := QuotedNames(e, names);
    if |names| == 1 {
      assert Join(quoted, ", ") + ")" + rest == quoted[0] + (")" + rest);
      ReadIdentifierOfQuoted(e, names[0], ")" + rest) by { CloseIsNoMark(e); }
      NoSkip(", ", ")" + rest);
      SkipWord(")", rest);
      assert names == [names[0]];
    } else {
      assert quoted[1..] == QuotedNames(e, names[1..]);
      var more := Join(quoted[1..], ", ") + ")" + rest;
      assert Join(quoted, ", ") + ")" + rest == quoted[0] + (", " + more);
      ReadMoreNames(e, names[1..], rest);
      ReadIdentifierOfQuoted(e, names[0], ", " + more) by { CloseIsNoMark(e); }
      SkipWord(", ", more);
      assert names == [names[0]] + names[1..];
    }
  }

  lemma CloseIsNoMark(e: Engine)
    ensures CloseMark(e) !in " ,).\n;" && OpenMark(e) !in " ,).\n;PC"
  {
  }

  lemma NoSkip(word: string, s: string)
    requires word != "" && s != "" && word[0] != s[0]
    ensures Skip(word, s) == None
  {
  }

  lemma ReadNameList(e: Engine, names: seq<string>, rest: string)
    ensures ReadNames(e, NameList(e, names) + rest) == Some((names, rest))
  {
    hide QuoteIdentifier, Skip, MoreNames;
    var quoted := QuotedNames(e, names);
    if names == [] {
      assert quoted == [] && Join(quoted, ", ") == "";
      assert NameList(e, names) + rest == "(" + (")" + rest);
      SkipWord("(", ")" + rest);
      SkipWord(")", rest);
    } else {
      var list := Join(quoted, ", ") + ")" + rest;
      assert NameList(e, names) + rest == "(" + list;
      SkipWord("(", list);
      ReadMoreNames(e, names, rest);
      ListOpens(e, names);
      NoSkip(")", list) by { CloseIsNoMark(e); }
    }
  }

  lemma ListOpens(e: Engine, names: seq<string>)
    requires names != []
    ensures var list := Join(QuotedNames(e, names), ", "); list != "" && list[0] == OpenMark(e)
  {
  }

  lemma ReadForeignText(e: Engine, fk: ForeignKeyInfo, rest: string)
    ensures ReadForeign(e, ForeignKeyText(e, fk) + rest) == Some((MeantForeign(fk), rest))
  {
    hide QuoteIdentifier, NameList, Qualify, ReadIdentifier, ReadNames, ReadName, Skip;
    var name, cols := QuoteIdentifier(e, fk.name), NameList(e, fk.columns);
    var ref, refCols := Qualify(e, fk.refSchema, fk.refTable), NameList(e, fk.refColumns);
    var t4 := refCols + rest;
    var t3 := ref + (" " + t4);
    var t2 := cols + (" REFERENCES " + t3);
    var t1 := " FOREIGN KEY " + t2;
    ForeignShape(name, cols, ref, refCols, rest);
    CloseIsNoMark(e);
    ReadIdentifierOfQuoted(e, fk.name, t1);
    SkipWord(" FOREIGN KEY ", t2);
    ReadNameList(e, fk.columns, " REFERENCES " + t3);
    SkipWord(" REFERENCES ", t3);
    ReadNameOfQualified(e, fk.refSchema, fk.refTable, " " + t4);
    SkipWord(" ", t4);
    ReadNameList(e, fk.refColumns, rest);
  }

  lemma ForeignShape(name: string, cols: string, ref: string, refCols: string, rest: string)
    ensures name + " FOREIGN KEY " + cols + " REFERENCES " + ref + " " + refCols + rest ==
      name + (" FOREIGN KEY " + (cols + (" REFERENCES " + (ref + (" " + (refCols + rest))))))
  {
  }

  lemma ReadIndexLine(e: Engine, d: TableDetail, ix: IndexInfo, rest: string)
    ensures ReadIndex(e, IndexLine(e, d, ix) + rest) ==
      Some((Index(ix.name, ix.unique, d.schema, d.name, ix.columns), rest))
  {
    hide QuoteIdentifier, NameList, Qualify, ReadIdentifier, ReadNames, ReadName, Skip;
    var name, on, cols := QuoteIdentifier(e, ix.name), Qualify(e, d.schema, d.name), NameList(e, ix.columns);
    var t4 := cols + (";\n" + rest);
    var t3 := on + (" " + t4);
    var t2 := name + (" ON " + t3);
    var t1 := if ix.unique then "UNIQUE " + ("INDEX " + t2) else "INDEX " + t2;
    IndexShape(ix.unique, name, on, cols, rest);
    SkipWord("\nCREATE ", t1);
    if ix.unique {
      SkipWord("UNIQUE ", "INDEX " + t2);
    } else {
      NoSkip("UNIQUE ", "INDEX " + t2);
    }
    SkipWord("INDEX ", t2);
    CloseIsNoMark(e);
    ReadIdentifierOfQuoted(e, ix.name, " ON " + t3);
    SkipWord(" ON ", t3);
    ReadNameOfQualified(e, d.schema, d.name, " " + t4);
    SkipWord(" ", t4);
    ReadNameList(e, ix.columns, ";\n" + rest);
    SkipWord(";\n", rest);
  }

  lemma IndexShape(unique: bool, name: string, on: string, cols: string, rest: string)
    ensures var lead := if unique then "CREATE UNIQUE INDEX " else "CREATE INDEX ";
      var more := "INDEX " + (name + (" ON " + (on + (" " + (cols + (";\n" + rest))))));
      "\n" + (lead + name + " ON " + on + " " + cols) + ";\n" + rest ==
        "\nCREATE " + if unique then "UNIQUE " + more else more
  {
    var tail := name + (" ON " + (on + (" " + (cols + (";\n" + rest)))));
    var lead := if unique then "CREATE UNIQUE INDEX " else "CREATE INDEX ";
    assert "\n" + (lead + name + " ON " + on + " " + cols) + ";\n" + rest == "\n" + lead + tail;
    assert "\n" + "CREATE UNIQUE INDEX " == "\nCREATE " + "UNIQUE " + "INDEX ";
    assert "\n" + "CREATE INDEX " == "\nCREATE " + "INDEX ";
  }

  lemma {:induction false} ReadIndexText(e: Engine, d: TableDetail, ixs: seq<IndexInfo>, k: nat, rest: string)
    requires k <= |ixs| && ReadIndexes(e, rest) == Some(MeantIndexes(d, ixs[k..]))
    ensures ReadIndexes(e, IndexText(e, d, ixs[..k]) + rest) == Some(MeantIndexes(d, ixs))
  {
    hide IndexLine, ReadIndex;
    if k == 0 {
      assert ixs[..0] == [] && IndexText(e, d, ixs[..0]) + rest == rest && ixs[0..] == ixs;
    } else {
      var ix := ixs[k - 1];
      assert ixs[..k][..k - 1] == ixs[..k - 1];
      assert ixs[k - 1..][1..] == ixs[k..];
      var later := MeantIndexes(d, ixs[k..]);
      assert [] + later == later;
      if ix.primary {
        ReadIndexText(e, d, ixs, k - 1, rest);
      } else {
        var line := IndexLine(e, d, ix);
        ReadIndexLine(e, d, ix, rest);
        assert line + rest != "" by { LineIsText(e, d, ix); }
        ReadIndexText(e, d, ixs, k - 1, line + rest);
        Associate(IndexText(e, d, ixs[..k - 1]), line, rest);
      }
    }
  }

  lemma LineIsText(e: Engine, d: TableDetail, ix: IndexInfo)
    ensures IndexLine(e, d, ix) != ""
  {
  }

  /* ---- what stands behind a column's name ---- */

  ghost predicate Free(x: string) { forall j: nat :: !OccursAt(x, " DEFAULT ", j) }

  predicate NoStop(x: string) { forall i: nat :: i < |x| ==> !StopsAt(x, i) }

  // The column says what it means: its type and default do not run into the words or
  // separators printed behind them. Nothing is asked of its name.
  ghost predicate ReadableColumn(c: ColumnInfo, last: bool) {
    var default := MeantDefault(c);
    var end := if default.Some? then default.value else if c.nullable then c.dataType else "";
    && NoStop(c.dataType) && (default.Some? ==> NoStop(default.value)) && (last ==> !EndsIn(end, ","))
    && Free(c.dataType + if c.nullable && default.None? then "" else " ")
    && (c.nullable ==> !EndsIn(c.dataType, " NOT NULL"))
  }

  // A stop made of the last rune of a and the first of b.
  predicate Joins(a: string, b: string) {
    && a != "" && b != ""
    && ((a[|a| - 1] == ',' && b[0] == '\n') || (a[|a| - 1] == '\n' && b[0] == ')'))
  }

  lemma StopsInConcat(a: string, b: string)
    ensures (forall i: nat :: i < |a| ==> !StopsAt(a + b, i)) <==> NoStop(a) && !Joins(a, b)
    ensures NoStop(a + b) <==> NoStop(a) && NoStop(b) && !Joins(a, b)
  {
    var t := a + b;
    forall i: nat | i + 1 < |a| ensures StopsAt(t, i) <==> StopsAt(a, i) {
    }
    forall i: nat | i < |b| ensures StopsAt(t, |a| + i) <==> StopsAt(b, i) {
    }
    if a != "" {
      assert StopsAt(t, |a| - 1) <==> Joins(a, b);
      assert !StopsAt(a, |a| - 1);
    }
    if NoStop(t) {
      forall i: nat | i < |b| ensures !StopsAt(b, i) {
        assert !StopsAt(t, |a| + i);
      }
    }
    if NoStop(a) && NoStop(b) && !Joins(a, b) {
      forall i: nat | i < |t| ensures !StopsAt(t, i) {
        assert i >= |a| ==> !StopsAt(b, i - |a|);
      }
    }
  }

  lemma WordsDoNotStop()
    ensures NoStop(" ") && NoStop(" NOT NULL") && NoStop(" DEFAULT ") && NoStop("")
  {
  }

  // Where the text of a column may end early.
  lemma TailStops(c: ColumnInfo)
    ensures var default := MeantDefault(c);
      NoStop(ColumnTail(c)) <==> NoStop(c.dataType) && (default.Some? ==> NoStop(default.value))
  {
    hide NoStop;
    var notNull := if c.nullable then "" else " NOT NULL";
    var default := if MeantDefault(c).Some? then " DEFAULT " + c.default.value else "";
    WordsDoNotStop();
    if MeantDefault(c).Some? {
      StopsInConcat(" DEFAULT ", c.default.value);
    }
    StopsInConcat(" ", c.dataType);
    StopsInConcat(" " + c.dataType, notNull);
    StopsInConcat(" " + c.dataType + notNull, default);
    assert ColumnTail(c) == " " + c.dataType + notNull + default;
  }

  lemma TailLast(c: ColumnInfo)
    ensures var default, tail := MeantDefault(c), ColumnTail(c);
      var end := if default.Some? then default.value else if c.nullable then c.dataType else "";
      tail != "" && (tail[|tail| - 1] == ',' <==> EndsIn(end, ","))
  {
    var default, tail := MeantDefault(c), ColumnTail(c);
    var end := if default.Some? then default.value else if c.nullable then c.dataType else "";
    if end != "" {
      assert tail[|tail| - 1] == end[|end| - 1];
      assert end[|end| - 1..] == [end[|end| - 1]];
    }
  }

  // What follows a part: a comma and a newline, or the end of the list.
  predicate Follows(after: string, last: bool) {
    |after| >= 2 && (if last then after[0] == '\n' && after[1] == ')' else after[0] == ',' && after[1] == '\n')
  }

  lemma TextEndIff(c: ColumnInfo, last: bool, after: string)
    requires Follows(after, last)
    ensures var default, tail := MeantDefault(c), ColumnTail(c);
      var end := if default.Some? then default.value else if c.nullable then c.dataType else "";
      && TextEnd(tail + after, 0) <= |tail|
      && (TextEnd(tail + after, 0) == |tail| <==>
            NoStop(c.dataType) && (default.Some? ==> NoStop(default.value)) && (last ==> !EndsIn(end, ",")))
  {
    hide NoStop, ColumnTail, MeantDefault, EndsIn;
    var tail := ColumnTail(c);
    TailStops(c);
    TailLast(c);
    StopsInConcat(tail, after);
    assert StopsAt(tail + after, |tail|);
    assert Joins(tail, after) <==> last && tail[|tail| - 1] == ',';
  }

  // Before the words printed behind it, " DEFAULT " stands where it stands in the type
  // and one more space.
  lemma DefaultsInType(dataType: string, notNull: string, default: string, j: nat)
    requires notNull in {"", " NOT NULL"} && (default == "" || " DEFAULT " <= default) && notNull + default != ""
    requires j < |dataType| + |notNull|
    ensures OccursAt(dataType + notNull + default, " DEFAULT ", j) <==> OccursAt(dataType + " ", " DEFAULT ", j)
  {
    var v, w, n := dataType + notNull + default, dataType + " ", |dataType|;
    assert v[n] == ' ';
    if j + 9 <= n + 1 {
      assert v[j..j + 9] == w[j..j + 9];
    } else {
      OccursRunes(v, j);
      assert j >= n ==> v[j] == notNull[j - n] && (j + 1 < n + |notNull| ==> v[j + 1] == notNull[j + 1 - n]);
    }
  }

  lemma OccursRunes(v: string, j: nat)
    ensures OccursAt(v, " DEFAULT ", j) ==>
      j + 9 <= |v| && v[j] == ' ' && v[j + 1] == 'D' && forall p :: j < p < j + 8 ==> v[p] != ' '
  {
    if j + 9 <= |v| && v[j..j + 9] == " DEFAULT " {
      forall p | j <= p < j + 9 ensures v[p] == " DEFAULT "[p - j] {
        assert v[j..j + 9][p - j] == v[p];
      }
    }
  }

  // The tail as it is read and as it was printed.
  lemma ReadTailIff(c: ColumnInfo)
    ensures ReadTail(c.name, ColumnTail(c)) == Some(MeantColumn(c)) <==>
      && Free(c.dataType + if c.nullable && MeantDefault(c).None? then "" else " ")
      && (c.nullable ==> !EndsIn(c.dataType, " NOT NULL"))
  {
    hide OccursAt, Skippers.Index, EndsIn, ReadTail;
    var notNull := if c.nullable then "" else " NOT NULL";
    var default := if MeantDefault(c).Some? then " DEFAULT " + c.default.value else "";
    var v := c.dataType + notNull + default;
    assert ColumnTail(c) == " " + v;
    var w := c.dataType + if c.nullable && MeantDefault(c).None? then "" else " ";
    DefaultIsFirst(c.dataType, notNull, default);
    ReadTailOf(c, v);
  }

  // Where the reader finds the first " DEFAULT ".
  lemma DefaultIsFirst(dataType: string, notNull: string, default: string)
    requires notNull in {"", " NOT NULL"} && (default == "" || " DEFAULT " <= default)
    ensures var v, k := dataType + notNull + default, Skippers.Index(dataType + notNull + default, " DEFAULT ");
      if Free(dataType + if notNull + default == "" then "" else " ") then
        k == if default == "" then -1 else |dataType| + |notNull|
      else 0 <= k < |dataType|
  {
    hide OccursAt, Skippers.Index;
    var v, n := dataType + notNull + default, |dataType| + |notNull|;
    var k := Skippers.Index(v, " DEFAULT ");
    assert FirstOccurrence(v, " DEFAULT ", k);
    var w := dataType + if notNull + default == "" then "" else " ";
    forall j: nat | j < n ensures OccursAt(v, " DEFAULT ", j) <==> OccursAt(w, " DEFAULT ", j) {
      if notNull + default != "" {
        DefaultsInType(dataType, notNull, default, j);
      } else {
        assert v == w;
      }
    }
    forall j: nat | n <= j ensures !OccursAt(w, " DEFAULT ", j) {
      OccursFits(w, j);
    }
    if default == "" {
      forall j: nat | n <= j ensures !OccursAt(v, " DEFAULT ", j) {
        OccursFits(v, j);
      }
    } else {
      DefaultStands(dataType + notNull, default);
    }
    if !Free(w) {
      var j: nat :| OccursAt(w, " DEFAULT ", j);
      OccursFits(w, j);
    }
  }

  lemma OccursFits(s: string, j: nat)
    ensures OccursAt(s, " DEFAULT ", j) ==> j + 9 <= |s|
  {
  }

  lemma DefaultStands(a: string, default: string)
    requires " DEFAULT " <= default
    ensures OccursAt(a + default, " DEFAULT ", |a|)
  {
    var v := a + default;
    assert v[|a|..|a| + 9] == default[..9];
  }

  lemma ReadTailOf(c: ColumnInfo, v: string)
    requires ColumnTail(c) == " " + v
    requires var default := MeantDefault(c);
      var notNull, text := if c.nullable then "" else " NOT NULL",
        if default.Some? then " DEFAULT " + default.value else "";
      var k, free := Skippers.Index(v, " DEFAULT "), Free(c.dataType + if c.nullable && default.None? then "" else " ");
      && v == c.dataType + notNull + text
      && if free then k == if text == "" then -1 else |c.dataType| + |notNull| else 0 <= k < |c.dataType|
    ensures ReadTail(c.name, ColumnTail(c)) == Some(MeantColumn(c)) <==>
      && Free(c.dataType + if c.nullable && MeantDefault(c).None? then "" else " ")
      && (c.nullable ==> !EndsIn(c.dataType, " NOT NULL"))
  {
    hide Skippers.Index, Free;
    var default, k := MeantDefault(c), Skippers.Index(v, " DEFAULT ");
    var notNull := if c.nullable then "" else " NOT NULL";
    SkipWord(" ", v);
    var head := c.dataType + notNull;
    if Free(c.dataType + if c.nullable && default.None? then "" else " ") {
      hide ColumnOf;
      assert k < 0 ==> v == head;
      assert k >= 0 ==> v[..k] == head && v[k + 9..] == default.value;
      HeadOf(c, default);
    } else {
      assert |v[..k]| == k;
    }
  }

  lemma HeadOf(c: ColumnInfo, default: Option<string>)
    ensures var notNull := if c.nullable then "" else " NOT NULL";
      ColumnOf(c.name, c.dataType + notNull, default) == Column(c.name, c.dataType, c.nullable, default) <==>
        (c.nullable ==> !EndsIn(c.dataType, " NOT NULL"))
  {
    var head := c.dataType + if c.nullable then "" else " NOT NULL";
    if c.nullable {
      assert head == c.dataType;
    } else {
      assert head[|head| - 9..] == " NOT NULL" && head[..|head| - 9] == c.dataType;
    }
  }

  /* ---- columns ---- */

  // The words a column part is made of, for the converse.
  function Rebuilt(p: Part): string
    requires p.Column?
  {
    " " + p.dataType + (if p.nullable then "" else " NOT NULL")
    + (if p.default.Some? then " DEFAULT " + p.default.value else "")
  }

  lemma ReadIsRebuilt(name: string, u: string)
    ensures ReadTail(name, u).Some? ==> ReadTail(name, u).value.Column? && Rebuilt(ReadTail(name, u).value) == u
  {
    hide Skippers.Index, ColumnOf, Rebuilt;
    if ReadTail(name, u).Some? {
      var v := u[1..];
      assert u == " " + v && Skip(" ", u) == Some(v);
      var k := Skippers.Index(v, " DEFAULT ");
      CutAtDefault(v, k);
      if k < 0 {
        ColumnIsRebuilt(name, v, None);
        assert " " + v + "" == u;
      } else {
        ColumnIsRebuilt(name, v[..k], Some(v[k + 9..]));
        Associate(" ", v[..k], " DEFAULT " + v[k + 9..]);
      }
    }
  }

  lemma ColumnIsRebuilt(name: string, head: string, default: Option<string>)
    ensures var p := ColumnOf(name, head, default);
      p.Column? && Rebuilt(p) == " " + head + if default.Some? then " DEFAULT " + default.value else ""
  {
    if EndsIn(head, " NOT NULL") {
      EndStripped(head);
      Associate(" ", head[..|head| - 9], " NOT NULL");
    } else {
      assert " " + head + "" == " " + head;
    }
  }

  lemma CutAtDefault(v: string, k: int)
    requires FirstOccurrence(v, " DEFAULT ", k)
    ensures k >= 0 ==> k + 9 <= |v| && v == v[..k] + (" DEFAULT " + v[k + 9..])
  {
  }

  lemma EndStripped(head: string)
    requires EndsIn(head, " NOT NULL")
    ensures |head| >= 9 && head == head[..|head| - 9] + " NOT NULL"
  {
  }

  // The reader gets a column back exactly when the column can be read.
  lemma ReadColumnIff(e: Engine, c: ColumnInfo, last: bool, after: string)
    requires Follows(after, last)
    ensures var r := ReadColumn(e, QuoteIdentifier(e, c.name) + (ColumnTail(c) + after));
      && (ReadableColumn(c, last) ==> r == Some((MeantColumn(c), after)))
      && (r.Some? && r.value.0 == MeantColumn(c) ==> ReadableColumn(c, last))
  {
    hide QuoteIdentifier, ReadIdentifier, NoStop, Free, EndsIn, ReadTail, StopsAt;
    var tail := ColumnTail(c);
    var k := TextEnd(tail + after, 0);
    TailIsSpaced(e, c, after);
    ReadIdentifierOfQuoted(e, c.name, tail + after);
    TextEndIff(c, last, after);
    ReadTailIff(c);
    var u := (tail + after)[..k];
    assert u == tail[..k];
    if k == |tail| {
      assert u == tail && (tail + after)[k..] == after;
    } else {
      ReadIsRebuilt(c.name, u);
      assert Rebuilt(MeantColumn(c)) == tail;
    }
  }

  lemma TailIsSpaced(e: Engine, c: ColumnInfo, after: string)
    ensures var t := ColumnTail(c) + after; t != "" && t[0] == ' ' && ' ' != CloseMark(e)
  {
  }

  /* ---- the list of parts ---- */

  lemma {:induction false} KeyIsMeant(cs: seq<ColumnInfo>)
    ensures KeyNames(cs) == MeantKey(cs)
  {
    if cs != [] {
      var n := |cs| - 1;
      KeyIsMeant(cs[..n]);
      assert cs == cs[..n] + [cs[n]];
      MeantKeySnoc(cs[..n], cs[n]);
    }
  }

  lemma {:induction false} MeantKeySnoc(cs: seq<ColumnInfo>, c: ColumnInfo)
    ensures MeantKey(cs + [c]) == MeantKey(cs) + if c.isPrimaryKey then [c.name] else []
  {
    if cs == [] {
      assert [] + [c] == [c] && [c][1..] == [];
    } else {
      MeantKeySnoc(cs[1..], c);
      assert (cs + [c])[1..] == cs[1..] + [c];
    }
  }

  lemma {:induction false} MeantColumnsAre(cs: seq<ColumnInfo>)
    ensures |MeantColumns(cs)| == |cs| && forall k :: 0 <= k < |cs| ==> MeantColumns(cs)[k] == MeantColumn(cs[k])
  {
    hide MeantColumn;
    if cs != [] {
      MeantColumnsAre(cs[1..]);
    }
  }

  lemma {:induction false} MeantForeignsAre(fks: seq<ForeignKeyInfo>)
    ensures |MeantForeigns(fks)| == |fks| && forall k :: 0 <= k < |fks| ==> MeantForeigns(fks)[k] == MeantForeign(fks[k])
  {
    if fks != [] {
      MeantForeignsAre(fks[1..]);
    }
  }

  // The part printed k-th is the part meant k-th.
  lemma PartsMatch(e: Engine, d: TableDetail, k: nat)
    requires k < |Parts(e, d)|
    ensures |MeantParts(d)| == |Parts(e, d)|
    ensures var n, m := |d.columns|, |d.columns| + if KeyNames(d.columns) == [] then 0 else 1;
      if k < n then Parts(e, d)[k] == ColumnLine(e, d.columns[k]) && MeantParts(d)[k] == MeantColumn(d.columns[k])
      else if k < m then
        Parts(e, d)[k] == KeyLine(e, KeyNames(d.columns)) && MeantParts(d)[k] == Key(KeyNames(d.columns))
      else
        && m + |d.foreignKeys| == |Parts(e, d)|
        && Parts(e, d)[k] == ForeignKeyLine(e, d.foreignKeys[k - m])
        && MeantParts(d)[k] == MeantForeign(d.foreignKeys[k - m])
  {
    hide ColumnLine, KeyLine, ForeignKeyLine, KeyNames, MeantKey, MeantColumn;
    KeyIsMeant(d.columns);
    MeantColumnsAre(d.columns);
    MeantForeignsAre(d.foreignKeys);
  }

  ghost predicate ReadableAt(d: TableDetail, k: nat, count: nat) {
    k < |d.columns| ==> ReadableColumn(d.columns[k], k == count - 1)
  }

  lemma ReadPartIff(e: Engine, d: TableDetail, k: nat, after: string)
    requires k < |Parts(e, d)| && Follows(after, k == |Parts(e, d)| - 1)
    ensures |MeantParts(d)| == |Parts(e, d)|
    ensures var r := ReadPart(e, Parts(e, d)[k] + after);
      && (ReadableAt(d, k, |Parts(e, d)|) ==> r == Some((MeantParts(d)[k], after)))
      && (r.Some? && r.value.0 == MeantParts(d)[k] ==> ReadableAt(d, k, |Parts(e, d)|))
  {
    hide Parts, MeantParts, KeyNames, ReadableColumn, QuoteIdentifier, NameList, ColumnTail, ForeignKeyText, ReadNames,
      ReadForeign, ReadColumn, Skip, MeantColumn, MeantForeign;
    PartsMatch(e, d, k);
    var n, m := |d.columns|, |d.columns| + if KeyNames(d.columns) == [] then 0 else 1;
    if k < n {
      var c := d.columns[k];
      var text := QuoteIdentifier(e, c.name) + (ColumnTail(c) + after);
      assert ColumnLine(e, c) + after == "    " + text;
      SkipWord("    ", text);
      NoWordOpens(e, c.name, ColumnTail(c) + after);
      ReadColumnIff(e, c, k == |Parts(e, d)| - 1, after);
    } else if k < m {
      var list := NameList(e, KeyNames(d.columns)) + after;
      assert KeyLine(e, KeyNames(d.columns)) + after == "    " + ("PRIMARY KEY " + list) by { KeyShape(NameList(e, KeyNames(d.columns)), after); }
      SkipWord("    ", "PRIMARY KEY " + list);
      SkipWord("PRIMARY KEY ", list);
      ReadNameList(e, KeyNames(d.columns), after);
    } else {
      var text := ForeignKeyText(e, d.foreignKeys[k - m]) + after;
      assert ForeignKeyLine(e, d.foreignKeys[k - m]) + after == "    " + ("CONSTRAINT " + text) by { ForeignLead(ForeignKeyText(e, d.foreignKeys[k - m]), after); }
      SkipWord("    ", "CONSTRAINT " + text);
      NoSkip("PRIMARY KEY ", "CONSTRAINT " + text);
      SkipWord("CONSTRAINT ", text);
      ReadForeignText(e, d.foreignKeys[k - m], after);
    }
  }

  lemma KeyShape(list: string, after: string)
    ensures "    PRIMARY KEY " + list + after == "    " + ("PRIMARY KEY " + (list + after))
  {
    assert "    PRIMARY KEY " == "    " + "PRIMARY KEY ";
  }

  lemma ForeignLead(text: string, after: string)
    ensures "    CONSTRAINT " + text + after == "    " + ("CONSTRAINT " + (text + after))
  {
    assert "    CONSTRAINT " == "    " + "CONSTRAINT ";
  }

  lemma NoWordOpens(e: Engine, name: string, rest: string)
    ensures var t := QuoteIdentifier(e, name) + rest;
      Skip("PRIMARY KEY ", t) == None && Skip("CONSTRAINT ", t) == None
  {
    var t := QuoteIdentifier(e, name) + rest;
    assert t[0] == OpenMark(e);
    CloseIsNoMark(e);
    NoSkip("PRIMARY KEY ", t);
    NoSkip("CONSTRAINT ", t);
  }

  ghost predicate ReadableFrom(e: Engine, d: TableDetail, k: nat) {
    forall j: nat :: k <= j < |Parts(e, d)| ==> ReadableAt(d, j, |Parts(e, d)|)
  }

  lemma {:induction false} ReadPartsIff(e: Engine, d: TableDetail, k: nat, end: string)
    requires k < |Parts(e, d)| && Follows(end, true)
    ensures |MeantParts(d)| == |Parts(e, d)|
    ensures var r := ReadParts(e, Join(Parts(e, d)[k..], ",\n") + end);
      && (ReadableFrom(e, d, k) ==> r == Some((MeantParts(d)[k..], end)))
      && (r.Some? && r.value.0 == MeantParts(d)[k..] ==> ReadableFrom(e, d, k))
    decreases |Parts(e, d)| - k
  {
    hide Parts, MeantParts, ReadPart, ReadableAt, Skip;
    var parts := Parts(e, d);
    if k == |parts| - 1 {
      ReadPartIff(e, d, k, end);
      assert Join(parts[k..], ",\n") + end == parts[k] + end;
      NoSkip(",\n", end);
      assert MeantParts(d)[k..] == [MeantParts(d)[k]];
    } else {
      var more := Join(parts[k + 1..], ",\n") + end;
      PartsFrom(parts, k, end);
      ReadPartIff(e, d, k, ",\n" + more);
      ReadPartsIff(e, d, k + 1, end);
      SkipWord(",\n", more);
      assert MeantParts(d)[k..] == [MeantParts(d)[k]] + MeantParts(d)[k + 1..];
      ReadableMore(e, d, k);
    }
  }

  lemma PartsFrom(parts: seq<string>, k: nat, end: string)
    requires k + 1 < |parts|
    ensures Join(parts[k..], ",\n") + end == parts[k] + (",\n" + (Join(parts[k + 1..], ",\n") + end))
  {
    assert parts[k..][1..] == parts[k + 1..];
  }

  lemma ReadableMore(e: Engine, d: TableDetail, k: nat)
    requires k < |Parts(e, d)|
    ensures ReadableFrom(e, d, k) <==> ReadableAt(d, k, |Parts(e, d)|) && ReadableFrom(e, d, k + 1)
  {
    hide Parts, ReadableAt;
  }

  /* ---- the script ---- */

  // Every column can be read; the last of them is the last part when no key follows.
  ghost predicate ReadableTable(d: TableDetail) {
    forall k: nat :: k < |d.columns| ==>
      ReadableColumn(d.columns[k], k == |d.columns| - 1 && MeantKey(d.columns) == [] && d.foreignKeys == [])
  }

  lemma ReadableTableIs(e: Engine, d: TableDetail)
    ensures ReadableTable(d) <==> ReadableFrom(e, d, 0)
  {
    hide ReadableColumn, KeyNames, ColumnLine, KeyLine, ForeignKeyLine;
    KeyIsMeant(d.columns);
    assert |Parts(e, d)| == |d.columns| + (if KeyNames(d.columns) == [] then 0 else 1) + |d.foreignKeys|;
    forall k: nat | k < |d.columns|
      ensures ReadableAt(d, k, |Parts(e, d)|) <==>
        ReadableColumn(d.columns[k], k == |d.columns| - 1 && MeantKey(d.columns) == [] && d.foreignKeys == [])
    {
    }
    if ReadableFrom(e, d, 0) {
      forall k: nat | k < |d.columns|
        ensures ReadableColumn(d.columns[k], k == |d.columns| - 1 && MeantKey(d.columns) == [] && d.foreignKeys == [])
      {
        assert ReadableAt(d, k, |Parts(e, d)|);
      }
    }
  }

  lemma ReadList(e: Engine, d: TableDetail, end: string)
    requires Follows(end, true)
    ensures var b := Join(Parts(e, d), ",\n") + end;
      var r := if Skip("    ", b).Some? then ReadParts(e, b) else Some(([], b));
      && (ReadableTable(d) ==> r == Some((MeantParts(d), end)))
      && (r.Some? && r.value.0 == MeantParts(d) ==> ReadableTable(d))
  {
    hide Parts, MeantParts, ReadParts, ReadableTable, ReadableFrom, Skip;
    var parts, b := Parts(e, d), Join(Parts(e, d), ",\n") + end;
    ReadableTableIs(e, d);
    if parts == [] {
      NothingMeant(e, d);
      assert b == end;
      NoSkip("    ", end);
    } else {
      assert parts[0..] == parts;
      ReadPartsIff(e, d, 0, end);
      assert MeantParts(d)[0..] == MeantParts(d);
      PartOpens(e, d, 0);
      ListBegins(parts, "    ", end);
    }
  }

  lemma NothingMeant(e: Engine, d: TableDetail)
    requires Parts(e, d) == []
    ensures MeantParts(d) == [] && ReadableFrom(e, d, 0)
  {
    assert |Parts(e, d)| == |d.columns| + (if KeyNames(d.columns) == [] then 0 else 1) + |d.foreignKeys|;
  }

  lemma PartOpens(e: Engine, d: TableDetail, k: nat)
    requires k < |Parts(e, d)|
    ensures "    " <= Parts(e, d)[k]
  {
    hide Parts, QuoteIdentifier, NameList, ColumnTail, ForeignKeyText, KeyNames, MeantParts, MeantColumn, MeantForeign;
    PartsMatch(e, d, k);
  }

  lemma ListBegins(parts: seq<string>, lead: string, end: string)
    requires parts != [] && lead <= parts[0]
    ensures Skip(lead, Join(parts, ",\n") + end).Some?
  {
  }

  // The reader gets back from the printed script its table, each column's name, type,
  // nullability and default, the key, each foreign key and each index that is not
  // primary, exactly when no type or default runs into what is printed behind it.
  lemma ScriptReadsBackIff(e: Engine, d: TableDetail)
    ensures ReadScript(e, DdlText(e, d)) == Some(Meant(d)) <==> ReadableTable(d)
  {
    hide Qualify, Join, Parts, MeantParts, IndexText, ReadName, ReadParts, ReadIndexes, Skip, ReadableTable, MeantIndexes;
    var name, list, ixs := Qualify(e, d.schema, d.name), Join(Parts(e, d), ",\n"), IndexText(e, d, d.indexes);
    var end := "\n);\n" + ixs;
    ScriptShape(name, list, ixs);
    SkipWord("CREATE TABLE ", name + (" (\n" + (list + end)));
    CloseIsNoMark(e);
    ReadNameOfQualified(e, d.schema, d.name, " (\n" + (list + end));
    SkipWord(" (\n", list + end);
    ReadList(e, d, end);
    SkipWord("\n);\n", ixs);
    ReadIndexesOf(e, d);
  }

  lemma ScriptShape(name: string, list: string, ixs: string)
    ensures "CREATE TABLE " + name + " (\n" + list + "\n)" + ";\n" + ixs ==
      "CREATE TABLE " + (name + (" (\n" + (list + ("\n);\n" + ixs))))
  {
    assert "\n)" + ";\n" == "\n);\n";
    var a := "CREATE TABLE " + name + " (\n" + list;
    assert a + "\n)" + ";\n" + ixs == a + ("\n);\n" + ixs);
  }

  lemma ReadIndexesOf(e: Engine, d: TableDetail)
    ensures ReadIndexes(e, IndexText(e, d, d.indexes)) == Some(MeantIndexes(d, d.indexes))
  {
    hide IndexText, ReadIndex;
    var n := |d.indexes|;
    assert d.indexes[..n] == d.indexes && d.indexes[n..] == [];
    ReadIndexText(e, d, d.indexes, n, "");
    assert IndexText(e, d, d.indexes) + "" == IndexText(e, d, d.indexes);
  }

  // A type that says NOT NULL itself prints like a column that is: the script does not
  // tell them apart.
  lemma TypeSaysNotNull(e: Engine, d: TableDetail, name: string)
    ensures var a := ColumnInfo(name, "int NOT NULL", true, None, false);
      var b := ColumnInfo(name, "int", false, None, false);
      && DdlText(e, d.(columns := [a])) == DdlText(e, d.(columns := [b]))
      && !ReadableColumn(a, true) && ReadableColumn(b, true)
  {
    hide Qualify, QuoteIdentifier, IndexText;
    var a := ColumnInfo(name, "int NOT NULL", true, None, false);
    var b := ColumnInfo(name, "int", false, None, false);
    assert ColumnTail(a) == " int NOT NULL" == ColumnTail(b);
    assert EndsIn("int NOT NULL", " NOT NULL");
    assert [a][..0] == [] && [b][..0] == [] && KeyNames([]) == [];
    assert KeyNames([a]) == [] && KeyNames([b]) == [];
    assert ColumnLines(e, [a]) == ColumnLines(e, [b]);
    SameIndexes(e, d, [a], [b], d.indexes);
  }

  lemma {:induction false} SameIndexes(e: Engine, d: TableDetail, a: seq<ColumnInfo>, b: seq<ColumnInfo>, ixs: seq<IndexInfo>)
    ensures IndexText(e, d.(columns := a), ixs) == IndexText(e, d.(columns := b), ixs)
  {
    if ixs != [] {
      SameIndexes(e, d, a, b, ixs[..|ixs| - 1]);
    }
  }
}

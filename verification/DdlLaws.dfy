/** The reconstructed script splits into the table and its indexes, one statement
    each, every one of them DDL. */
module DdlLaws {
  import opened Text
  import opened Lexer
  import opened Leading
  import opened Splitter
  import opened SplitLaws
  import opened GoLaws
  import opened Classifier
  import opened Quoting
  import opened Fragments
  import opened OneStatement
  import opened Ddl
  import opened DdlGo

  /* ---- the script as closed statements ---- */

  // Everything up to the last semicolon, after the given indexes.
  function ClosedText(e: Engine, d: TableDetail, ixs: seq<IndexInfo>): string {
    if ixs == [] then TableBody(e, d) + ";"
    else
      var before, last := ClosedText(e, d, ixs[..|ixs| - 1]), ixs[|ixs| - 1];
      if last.primary then before else before + ("\n\n" + IndexBody(e, d, last) + ";")
  }

  lemma {:induction false} ScriptIsClosed(e: Engine, d: TableDetail, ixs: seq<IndexInfo>)
    ensures TableBody(e, d) + ";\n" + IndexText(e, d, ixs) == ClosedText(e, d, ixs) + "\n"
  {
    hide TableBody, IndexBody;
    if ixs == [] {
      assert TableBody(e, d) + ";\n" + "" == TableBody(e, d) + ";" + "\n";
    } else {
      var n := |ixs| - 1;
      ScriptIsClosed(e, d, ixs[..n]);
      if !ixs[n].primary {
        NewlineMoves(TableBody(e, d) + ";\n" + IndexText(e, d, ixs[..n]), ClosedText(e, d, ixs[..n]),
                     IndexBody(e, d, ixs[n]));
        var t := TableBody(e, d) + ";\n";
        Associate(t, IndexText(e, d, ixs[..n]), "\n" + IndexBody(e, d, ixs[n]) + ";\n");
      }
    }
  }

  lemma NewlineMoves(script: string, closed: string, body: string)
    requires script == closed + "\n"
    ensures script + ("\n" + body + ";\n") == closed + ("\n\n" + body + ";") + "\n"
  {
    var x, y := script + ("\n" + body + ";\n"), closed + ("\n\n" + body + ";") + "\n";
    assert |x| == |y|;
    assert "\n\n" + body + ";" == "\n" + ("\n" + body + ";");
    assert "\n" + body + ";\n" == "\n" + body + ";" + "\n";
  }

  // The statements the script is meant to be.
  function Expected(e: Engine, d: TableDetail, ixs: seq<IndexInfo>): seq<Statement> {
    if ixs == [] then [Statement(TableBody(e, d) + ";", 0, |TableBody(e, d)| + 1)]
    else
      var before, last := Expected(e, d, ixs[..|ixs| - 1]), ixs[|ixs| - 1];
      if last.primary then before
      else
        var from := |ClosedText(e, d, ixs[..|ixs| - 1])|;
        before + [Statement(IndexBody(e, d, last) + ";", from, from + |IndexBody(e, d, last)| + 3)]
  }

  /* ---- what the lexer makes of them ---- */

  lemma Ends(e: Engine, d: TableDetail, ix: IndexInfo)
    ensures OpensWith("CREATE", TableBody(e, d))
    ensures OpensWith("CREATE", IndexBody(e, d, ix))
  {
    hide Join, Qualify, QuoteIdentifier, Parts;
    CreateLeads();
    hide OpensWith;
    var name := Qualify(e, d.schema, d.name);
    StillOpens("CREATE", "CREATE TABLE ", name);
    StillOpens("CREATE", "CREATE TABLE " + name, " (\n");
    StillOpens("CREATE", "CREATE TABLE " + name + " (\n", Join(Parts(e, d), ",\n"));
    StillOpens("CREATE", "CREATE TABLE " + name + " (\n" + Join(Parts(e, d), ",\n"), "\n)");
    var lead := if ix.unique then "CREATE UNIQUE INDEX " else "CREATE INDEX ";
    var ixName := QuoteIdentifier(e, ix.name);
    StillOpens("CREATE", lead, ixName);
    StillOpens("CREATE", lead + ixName, " ON ");
    StillOpens("CREATE", lead + ixName + " ON ", name);
    StillOpens("CREATE", lead + ixName + " ON " + name, " ");
    StillOpens("CREATE", lead + ixName + " ON " + name + " ", NameList(e, ix.columns));
  }

  lemma CreateLeads()
    ensures OpensWith("CREATE", "CREATE TABLE ")
    ensures OpensWith("CREATE", "CREATE UNIQUE INDEX ") && OpensWith("CREATE", "CREATE INDEX ")
  {
  }

  lemma CreateIsDdl(t: string)
    requires OpensWith("CREATE", t)
    ensures Classify(t) == Ddl
  {
    hide FirstKeyword;
    KeywordOf("CREATE", t);
    assert ToUpper("CREATE") == "CREATE";
  }

  // A closed statement behind two newlines keeps its text and counts them in its span.
  lemma ClosedStatement(dl: Dialect, body: string)
    requires Fragment(dl, body) && OpensWith("CREATE", body)
    ensures EndsWithCut(dl, body + ";") && EndsWithCut(dl, "\n\n" + body + ";")
    ensures LexSplit(dl, body + ";") == [Statement(body + ";", 0, |body| + 1)]
    ensures LexSplit(dl, "\n\n" + body + ";") == [Statement(body + ";", 0, |body| + 3)]
  {
    hide Fragment, EndsWithCut, LexSplit, Trim;
    var t := body + ";";
    FragmentCloses(dl, body);
    assert Trimmed(t) by {
      OpensAt("CREATE", body, ";");
      assert t[|t| - 1] == ';';
    }
    TrimmedFixed(t);
    PlainFragment(dl, "\n\n");
    FragmentConcat(dl, "\n\n", body);
    FragmentCloses(dl, "\n\n" + body);
    TrimIgnoresLeadingSpace(t, '\n');
    TrimIgnoresLeadingSpace("\n" + t, '\n');
    assert "\n" + ("\n" + t) == "\n\n" + body + ";";
  }

  lemma CutsConcatAtEnd(d: Dialect, a: string, b: string)
    requires EndsWithCut(d, a) && EndsWithCut(d, b)
    ensures EndsWithCut(d, a + b)
  {
    hide Run, Inside;
    CutRestarts(d, a, |a| - 1);
    RunConcat(d, START, a, b, |b| - 1);
    assert (a + b)[|a| + |b| - 1] == b[|b| - 1];
  }

  // One more statement behind closed text.
  lemma ClosedStep(dl: Dialect, before: string, body: string)
    requires EndsWithCut(dl, before) && Fragment(dl, body) && OpensWith("CREATE", body)
    ensures var text := before + ("\n\n" + body + ";");
      && EndsWithCut(dl, text)
      && LexSplit(dl, text) ==
           LexSplit(dl, before) + [Statement(body + ";", |before|, |before| + |body| + 3)]
  {
    hide Fragment, LexSplit, EndsWithCut, Shift, OpensWith;
    ClosedStatement(dl, body);
    CutsConcatAtEnd(dl, before, "\n\n" + body + ";");
    LexSplitConcat(dl, before, "\n\n" + body + ";");
    ShiftOne(Statement(body + ";", 0, |body| + 3), |before|);
  }

  // Every statement to be printed is a fragment, read by itself.
  ghost predicate Readable(e: Engine, d: TableDetail, ixs: seq<IndexInfo>) {
    && Fragment(DialectOf(e), TableBody(e, d))
    && (forall k :: 0 <= k < |ixs| ==> ixs[k].primary || Fragment(DialectOf(e), IndexBody(e, d, ixs[k])))
  }

  lemma {:induction false} ClosedSplits(e: Engine, d: TableDetail, ixs: seq<IndexInfo>)
    requires Readable(e, d, ixs)
    ensures EndsWithCut(DialectOf(e), ClosedText(e, d, ixs))
    ensures LexSplit(DialectOf(e), ClosedText(e, d, ixs)) == Expected(e, d, ixs)
  {
    hide Fragment, TableBody, IndexBody, LexSplit, EndsWithCut, OpensWith, DialectOf;
    var dl := DialectOf(e);
    if ixs == [] {
      Ends(e, d, IndexInfo("", [], false, false));
      ClosedStatement(dl, TableBody(e, d));
    } else {
      var n := |ixs| - 1;
      ClosedSplits(e, d, ixs[..n]);
      if !ixs[n].primary {
        Ends(e, d, ixs[n]);
        ClosedStep(dl, ClosedText(e, d, ixs[..n]), IndexBody(e, d, ixs[n]));
      }
    }
  }

  lemma NewlineIsNothing(d: Dialect)
    ensures LexSplit(d, "\n") == []
  {
    assert Trim("\n") == "" by {
      assert TrimLeft(IsSpace, "\n") == TrimLeft(IsSpace, "") == "";
    }
    assert !CutAt(d, START, "\n", 0);
    assert Cuts(d, "\n", 0) == [];
    assert Cuts(d, "\n", 1) == [];
    assert "\n"[0..1] == "\n";
  }

  lemma ScriptSplits(e: Engine, d: TableDetail)
    requires Readable(e, d, d.indexes)
    ensures LexSplit(DialectOf(e), DdlText(e, d)) == Expected(e, d, d.indexes)
  {
    hide LexSplit, ClosedText, Expected, TableBody, IndexText, Readable, EndsWithCut, Shift;
    var dl, closed := DialectOf(e), ClosedText(e, d, d.indexes);
    ScriptIsClosed(e, d, d.indexes);
    ClosedSplits(e, d, d.indexes);
    NewlineIsNothing(dl);
    LexSplitConcat(dl, closed, "\n");
    ShiftNothing(|closed|);
  }

  // Safe names, and types and defaults that are fragments, make it readable.
  lemma SafeIsReadable(e: Engine, d: TableDetail)
    requires SafeDetail(e, d)
    ensures Readable(e, d, d.indexes)
  {
    hide Fragment, TableBody, IndexBody, SafeName, SafeColumn, SafeForeignKey, SafeIndex;
    TableBodyFragment(e, d);
    forall k | 0 <= k < |d.indexes| && !d.indexes[k].primary
      ensures Fragment(DialectOf(e), IndexBody(e, d, d.indexes[k]))
    {
      IndexBodyFragment(e, d, d.indexes[k]);
    }
  }

  /* ---- and what the cuts say about the statements ---- */

  // The cuts of the closed text are exactly the ends of the statements.
  ghost predicate CutsAreEnds(e: Engine, d: TableDetail, ixs: seq<IndexInfo>) {
    var closed := ClosedText(e, d, ixs);
    forall j: nat :: j < |closed| ==> (CutAt(DialectOf(e), START, closed, j) <==> IsEnd(Expected(e, d, ixs), j + 1))
  }

  lemma IsEndSnoc(sts: seq<Statement>, st: Statement, c: nat)
    ensures IsEnd(sts + [st], c) <==> IsEnd(sts, c) || st.end == c
  {
    if IsEnd(sts, c) {
      var k :| 0 <= k < |sts| && sts[k].end == c;
      assert (sts + [st])[k] == sts[k];
    }
    assert (sts + [st])[|sts|] == st;
  }

  lemma {:induction false} EndsInText(e: Engine, d: TableDetail, ixs: seq<IndexInfo>, c: nat)
    requires IsEnd(Expected(e, d, ixs), c)
    ensures c <= |ClosedText(e, d, ixs)|
  {
    hide TableBody, IndexBody, IsEnd;
    if ixs == [] {
      OneEnd(Statement(TableBody(e, d) + ";", 0, |TableBody(e, d)| + 1), c);
    } else {
      var n := |ixs| - 1;
      if !ixs[n].primary {
        var from := |ClosedText(e, d, ixs[..n])|;
        var body := IndexBody(e, d, ixs[n]);
        IsEndSnoc(Expected(e, d, ixs[..n]), Statement(body + ";", from, from + |body| + 3), c);
      }
      if IsEnd(Expected(e, d, ixs[..n]), c) {
        EndsInText(e, d, ixs[..n], c);
      }
    }
  }

  lemma OneEnd(st: Statement, c: nat)
    ensures IsEnd([st], c) <==> st.end == c
  {
    assert [st][0] == st;
  }

  // Read from the start with its only cut behind it, a body is a fragment.
  lemma OnlyCutBehind(dl: Dialect, body: string)
    requires forall j: nat :: j < |body| + 1 ==> (CutAt(dl, START, body + ";", j) <==> j == |body|)
    ensures Fragment(dl, body)
  {
    hide Run;
    var r := body + ";";
    forall j | 0 <= j < |body| ensures !CutAt(dl, START, body, j) {
      assert !CutAt(dl, START, r, j);
      RunPrefix(dl, START, body, ";", j);
    }
    assert CutAt(dl, START, r, |body|);
    RunPrefix(dl, START, body, ";", |body|);
    assert !Inside(Run(dl, START, body, |body|), ';');
  }

  lemma {:induction false} EndsReadable(e: Engine, d: TableDetail, ixs: seq<IndexInfo>)
    requires CutsAreEnds(e, d, ixs)
    ensures Readable(e, d, ixs) && EndsWithCut(DialectOf(e), ClosedText(e, d, ixs))
  {
    hide Fragment, TableBody, IndexBody, CutAt, IsEnd;
    var dl := DialectOf(e);
    if ixs == [] {
      var body := TableBody(e, d);
      forall j: nat | j < |body| + 1 ensures CutAt(dl, START, body + ";", j) <==> j == |body| {
        OneEnd(Statement(body + ";", 0, |body| + 1), j + 1);
        assert CutAt(dl, START, ClosedText(e, d, ixs), j) <==> IsEnd(Expected(e, d, ixs), j + 1);
      }
      OnlyCutBehind(dl, body);
    } else {
      var n := |ixs| - 1;
      if ixs[n].primary {
        EndsReadable(e, d, ixs[..n]);
      } else {
        EndsOfPrefix(e, d, ixs);
        EndsReadable(e, d, ixs[..n]);
        LastReadable(e, d, ixs);
      }
    }
  }

  lemma EndsOfPrefix(e: Engine, d: TableDetail, ixs: seq<IndexInfo>)
    requires ixs != [] && !ixs[|ixs| - 1].primary && CutsAreEnds(e, d, ixs)
    ensures CutsAreEnds(e, d, ixs[..|ixs| - 1])
  {
    hide ClosedText, Expected, CutAt, IsEnd;
    var dl, n := DialectOf(e), |ixs| - 1;
    var before, body := ClosedText(e, d, ixs[..n]), IndexBody(e, d, ixs[n]);
    OneMoreIndex(e, d, ixs);
    forall j: nat | j < |before|
      ensures CutAt(dl, START, before, j) <==> IsEnd(Expected(e, d, ixs[..n]), j + 1)
    {
      CutInPrefix(dl, before, "\n\n" + body + ";", j);
      assert CutAt(dl, START, ClosedText(e, d, ixs), j) <==> IsEnd(Expected(e, d, ixs), j + 1);
      IsEndSnoc(Expected(e, d, ixs[..n]), Statement(body + ";", |before|, |before| + |body| + 3), j + 1);
    }
  }

  lemma OneMoreIndex(e: Engine, d: TableDetail, ixs: seq<IndexInfo>)
    requires ixs != [] && !ixs[|ixs| - 1].primary
    ensures var n := |ixs| - 1;
      var before, body := ClosedText(e, d, ixs[..n]), IndexBody(e, d, ixs[n]);
      && ClosedText(e, d, ixs) == before + ("\n\n" + body + ";")
      && |ClosedText(e, d, ixs)| == |before| + |body| + 3
      && Expected(e, d, ixs) ==
           Expected(e, d, ixs[..n]) + [Statement(body + ";", |before|, |before| + |body| + 3)]
  {
    hide IndexBody, TableBody;
  }

  lemma LastReadable(e: Engine, d: TableDetail, ixs: seq<IndexInfo>)
    requires ixs != [] && !ixs[|ixs| - 1].primary && CutsAreEnds(e, d, ixs)
    requires EndsWithCut(DialectOf(e), ClosedText(e, d, ixs[..|ixs| - 1]))
    ensures Fragment(DialectOf(e), IndexBody(e, d, ixs[|ixs| - 1]))
    ensures EndsWithCut(DialectOf(e), ClosedText(e, d, ixs))
  {
    hide ClosedText, Expected, IndexBody, Run, CutAt, IsEnd, Fragment;
    var dl, n := DialectOf(e), |ixs| - 1;
    var before, body := ClosedText(e, d, ixs[..n]), IndexBody(e, d, ixs[n]);
    var last := Statement(body + ";", |before|, |before| + |body| + 3);
    OneMoreIndex(e, d, ixs);
    forall j: nat | j < |body| + 1 ensures CutAt(dl, START, body + ";", j) <==> j == |body| {
      var i := |before| + 2 + j;
      CutBehindClosed(dl, before, body + ";", j);
      assert "\n\n" + (body + ";") == "\n\n" + body + ";";
      assert CutAt(dl, START, ClosedText(e, d, ixs), i) <==> IsEnd(Expected(e, d, ixs), i + 1);
      IsEndSnoc(Expected(e, d, ixs[..n]), last, i + 1);
      if IsEnd(Expected(e, d, ixs[..n]), i + 1) {
        EndsInText(e, d, ixs[..n], i + 1);
      }
    }
    OnlyCutBehind(dl, body);
    IsEndSnoc(Expected(e, d, ixs[..n]), last, |ClosedText(e, d, ixs)|);
  }

  // Two newlines behind closed text, the lexer is at the start.
  lemma CutBehindClosed(dl: Dialect, before: string, t: string, j: nat)
    requires EndsWithCut(dl, before) && j < |t|
    ensures CutAt(dl, START, before + ("\n\n" + t), |before| + 2 + j) <==> CutAt(dl, START, t, j)
  {
    hide Run, Inside;
    CutRestarts(dl, before, |before| - 1);
    RunConcat(dl, START, before, "\n\n" + t, 2 + j);
    PlainFragment(dl, "\n\n");
    SettledByLast(dl, "\n\n");
    RunConcat(dl, START, "\n\n", t, j);
    assert (before + ("\n\n" + t))[|before| + 2 + j] == t[j];
  }

  // What is returned for the script tells where it was cut.
  lemma SplitCutsAtEnds(e: Engine, d: TableDetail)
    requires Split(e, DdlText(e, d)) == Expected(e, d, d.indexes)
    ensures CutsAreEnds(e, d, d.indexes)
  {
    hide Split, Cuts, CutAt, IsEnd, Expected, ClosedText, TableBody, IndexText;
    var dl, sql, closed := DialectOf(e), DdlText(e, d), ClosedText(e, d, d.indexes);
    ScriptIsClosed(e, d, d.indexes);
    forall j: nat | j < |closed|
      ensures CutAt(dl, START, closed, j) <==> IsEnd(Expected(e, d, d.indexes), j + 1)
    {
      CutInPrefix(dl, closed, "\n", j);
      EndsAreCuts(e, sql, j);
    }
  }

  lemma CutInPrefix(dl: Dialect, a: string, b: string, j: nat)
    requires j < |a|
    ensures CutAt(dl, START, a + b, j) <==> CutAt(dl, START, a, j)
  {
    hide Run, Inside;
    RunPrefix(dl, START, a, b, j);
  }

  /* ---- no GO lines on SQL Server ---- */

  // No statement to be printed holds a GO line.
  ghost predicate GoFree(d: TableDetail, ixs: seq<IndexInfo>) {
    !TableHasGo(d) && forall k :: 0 <= k < |ixs| ==> ixs[k].primary || !IndexHasGo(d, ixs[k])
  }

  lemma StatementSurvivesGo(body: string, from: nat, to: nat)
    requires OpensWith("CREATE", body) && !HasGoLine(body + ";")
    ensures GoSplit([Statement(body + ";", from, to)]) == [Statement(body + ";", from, to)]
  {
    hide GoPieces, HasGoLine, GoSplit;
    var st := Statement(body + ";", from, to);
    GoSplitOne(st);
    assert Trimmed(st.text) by {
      OpensAt("CREATE", body, ";");
      assert st.text[|st.text| - 1] == ';';
    }
    GoPiecesOfGoFree(st);
  }

  lemma {:induction false} ExpectedSurviveGo(d: TableDetail, ixs: seq<IndexInfo>)
    requires GoFree(d, ixs)
    ensures GoSplit(Expected(SQLServer, d, ixs)) == Expected(SQLServer, d, ixs)
  {
    hide TableBody, IndexBody, GoSplit, ClosedText, HasGoLine, TableHasGo, IndexHasGo, OpensWith;
    if ixs == [] {
      GoInTable(d);
      Ends(SQLServer, d, IndexInfo("", [], false, false));
      StatementSurvivesGo(TableBody(SQLServer, d), 0, |TableBody(SQLServer, d)| + 1);
    } else {
      var n := |ixs| - 1;
      ExpectedSurviveGo(d, ixs[..n]);
      if !ixs[n].primary {
        GoInIndex(d, ixs[n]);
        Ends(SQLServer, d, ixs[n]);
        var from, body := |ClosedText(SQLServer, d, ixs[..n])|, IndexBody(SQLServer, d, ixs[n]);
        StatementSurvivesGo(body, from, from + |body| + 3);
        GoSplitConcat(Expected(SQLServer, d, ixs[..n]), [Statement(body + ";", from, from + |body| + 3)]);
      }
    }
  }

  ghost predicate AllGoFree(sts: seq<Statement>) {
    forall k :: 0 <= k < |sts| ==> !HasGoLine(sts[k].text)
  }

  lemma {:induction false} AllGoFreeIs(d: TableDetail, ixs: seq<IndexInfo>)
    requires AllGoFree(Expected(SQLServer, d, ixs))
    ensures GoFree(d, ixs)
  {
    hide TableBody, IndexBody, ClosedText, HasGoLine, TableHasGo, IndexHasGo;
    var all := Expected(SQLServer, d, ixs);
    if ixs == [] {
      GoInTable(d);
      assert all[0].text == TableBody(SQLServer, d) + ";";
    } else {
      var n := |ixs| - 1;
      var before := Expected(SQLServer, d, ixs[..n]);
      assert before <= all;
      AllGoFreeIs(d, ixs[..n]);
      if !ixs[n].primary {
        GoInIndex(d, ixs[n]);
        assert all[|before|].text == IndexBody(SQLServer, d, ixs[n]) + ";";
      }
    }
  }

  lemma SplitIsGoFree(sql: string)
    ensures AllGoFree(Split(SQLServer, sql))
  {
    hide LexSplit, GoSplit, HasGoLine, Trimmed;
    var sts := LexSplit(DialectOf(SQLServer), sql);
    forall k: nat | k < |Split(SQLServer, sql)| ensures !HasGoLine(Split(SQLServer, sql)[k].text) {
      GoSplitPieces(sts, k);
    }
  }

  /* ---- the theorem ---- */

  function SecondaryCount(ixs: seq<IndexInfo>): nat {
    if ixs == [] then 0
    else SecondaryCount(ixs[..|ixs| - 1]) + if ixs[|ixs| - 1].primary then 0 else 1
  }

  lemma {:induction false} ExpectedAreDdl(e: Engine, d: TableDetail, ixs: seq<IndexInfo>)
    ensures |Expected(e, d, ixs)| == 1 + SecondaryCount(ixs)
    ensures forall k :: 0 <= k < |Expected(e, d, ixs)| ==> Classify(Expected(e, d, ixs)[k].text) == Ddl
  {
    hide TableBody, IndexBody, Classify, OpensWith, ClosedText;
    if ixs == [] {
      Ends(e, d, IndexInfo("", [], false, false));
      StillOpens("CREATE", TableBody(e, d), ";");
      CreateIsDdl(TableBody(e, d) + ";");
    } else {
      var n := |ixs| - 1;
      ExpectedAreDdl(e, d, ixs[..n]);
      Ends(e, d, ixs[n]);
      StillOpens("CREATE", IndexBody(e, d, ixs[n]), ";");
      CreateIsDdl(IndexBody(e, d, ixs[n]) + ";");
    }
  }

  // For every table the printed script is read back as the CREATE TABLE and one CREATE
  // INDEX for each index that is not primary, in order, each printed text exactly,
  // precisely when each of them read by itself makes no cut and ends outside every
  // region and, on SQL Server, none of them holds a GO line.
  lemma DdlSplitsIff(e: Engine, d: TableDetail)
    ensures Split(e, DdlText(e, d)) == Expected(e, d, d.indexes) <==>
      Readable(e, d, d.indexes) && (e.SQLServer? ==> GoFree(d, d.indexes))
  {
    hide LexSplit, Expected, DdlText, Readable, GoFree, GoSplit, EndsWithCut, AllGoFree, CutsAreEnds;
    if Split(e, DdlText(e, d)) == Expected(e, d, d.indexes) {
      SplitCutsAtEnds(e, d);
      EndsReadable(e, d, d.indexes);
      if e.SQLServer? {
        SplitIsGoFree(DdlText(e, d));
        AllGoFreeIs(d, d.indexes);
      }
    }
    if Readable(e, d, d.indexes) && (e.SQLServer? ==> GoFree(d, d.indexes)) {
      ScriptSplits(e, d);
      if e.SQLServer? {
        ExpectedSurviveGo(d, d.indexes);
      }
    }
  }

  // With safe names, types and defaults only GO lines can get in the way. The reader
  // classifies every statement as DDL.
  lemma DdlSplits(e: Engine, d: TableDetail)
    requires SafeDetail(e, d)
    ensures Split(e, DdlText(e, d)) == Expected(e, d, d.indexes) <==> (e.SQLServer? ==> GoFree(d, d.indexes))
    ensures |Expected(e, d, d.indexes)| == 1 + SecondaryCount(d.indexes)
    ensures forall k :: 0 <= k < |Expected(e, d, d.indexes)| ==> Classify(Expected(e, d, d.indexes)[k].text) == Ddl
  {
    hide Split, Expected, DdlText, SafeDetail, GoFree, Classify, Readable;
    SafeIsReadable(e, d);
    DdlSplitsIff(e, d);
    ExpectedAreDdl(e, d, d.indexes);
  }
}

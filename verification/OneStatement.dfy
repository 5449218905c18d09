/** When a text is one statement all by itself, for every engine. For SQL Server
    this also says when a returned statement survives being split again. */
module OneStatement {
  import opened Text
  import opened Lexer
  import opened Leading
  import opened Splitter
  import opened SplitLaws
  import opened GoLaws
  import opened Fragments

  /* ---- one statement, all of it ---- */

  ghost predicate IsOneStatement(e: Engine, t: string) {
    Split(e, t) == [Statement(t, 0, |t|)]
  }

  // A trimmed text is one statement, all of it, exactly when it is more than
  // comments, the lexer makes no cut before its last rune and, on SQL Server, no
  // line of it is a GO separator.
  lemma OneStatementIff(e: Engine, t: string)
    requires t != "" && Trimmed(t)
    ensures IsOneStatement(e, t) <==>
      NoInnerCut(DialectOf(e), t) && !OnlyComments(t) && (e.SQLServer? ==> !HasGoLine(t))
  {
    hide NoInnerCut, LexSplit, HasGoLine, GoSplit, OnlyComments, Trimmed;
    OnePiece(DialectOf(e), t);
    if e.SQLServer? {
      GoSplitOne(Statement(t, 0, |t|));
      GoPiecesOfGoFree(Statement(t, 0, |t|));
      if IsOneStatement(e, t) {
        GoSplitPieces(LexSplit(DialectOf(e), t), 0);
        OneStatementHasNoCut(DialectOf(e), t);
        if OnlyComments(t) {
          CommentsAreNoStatement(DialectOf(e), t);
        }
      }
    }
  }

  lemma CommentsAreNoStatement(d: Dialect, t: string)
    requires Trimmed(t) && OnlyComments(t)
    ensures LexSplit(d, t) == []
  {
    hide Run, CutAt, Cuts, WordsUpTo, LexSplit, Trim;
    StartsAtStart(d, t);
    IdleTo(d, t, 0);
    NoCutsUpTo(d, t, |t|);
    TrimmedFixed(t);
    SplitTiles(d, t);
    assert t[0..] == t;
  }

  lemma GoSplitOne(st: Statement)
    ensures GoSplit([st]) == GoPieces(st)
  {
    hide GoPieces;
    assert [st][..0] == [];
  }

  // On SQL Server too, a single statement over the whole text means no cut.
  lemma OneStatementHasNoCut(d: Dialect, t: string)
    requires GoSplit(LexSplit(d, t)) == [Statement(t, 0, |t|)]
    ensures NoInnerCut(d, t)
  {
    hide CutAt, LexSplit, IsGoPiece, Cuts, Trim, OnlyComments;
    forall j | 0 <= j < |t| - 1 ensures !CutAt(d, START, t, j) {
      if CutAt(d, START, t, j) {
        FirstSegmentIsShort(d, t, j);
        FirstSegmentPrints(d, t, j);
      }
    }
  }

  // A cut leaves a first segment that ends before the text does.
  lemma FirstSegmentIsShort(d: Dialect, t: string, j: nat)
    requires j < |t| - 1 && CutAt(d, START, t, j)
    ensures LexSplit(d, t) != [] && LexSplit(d, t)[0].end < |t| && LexSplit(d, t)[0].start == 0
    ensures exists c :: 0 < c < |t| && LexSplit(d, t)[0].text == Trim(t[..c]) && t[c - 1] == ';'
  {
    hide CutAt, LexSplit, Trim, OnlyComments, Run;
    CutsAreCuts(d, t, |t|, j + 1);
    SplitTiles(d, t);
    var cs := Cuts(d, t, |t|);
    assert cs[0] <= j + 1 by {
      var m :| 0 <= m < |cs| && cs[m] == j + 1;
      AscendingGap(cs, |t|, 0, m);
    }
    assert LexSplit(d, t)[0] == Tile(t, cs, 0);
    CutsAreCuts(d, t, |t|, cs[0]);
    assert CutAt(d, START, t, cs[0] - 1);
    CutIsSemicolon(d, t, cs[0] - 1);
    assert t[0..cs[0]] == t[..cs[0]];
  }

  lemma CutIsSemicolon(d: Dialect, t: string, j: nat)
    requires j < |t| && CutAt(d, START, t, j)
    ensures t[j] == ';'
  {
  }

  // Its text is more than separators, so some piece of it is returned, with a
  // span that ends too early.
  lemma FirstSegmentPrints(d: Dialect, t: string, j: nat)
    requires j < |t| - 1 && CutAt(d, START, t, j)
    ensures exists k :: 0 <= k < |GoSplit(LexSplit(d, t))| && GoSplit(LexSplit(d, t))[k].end < |t|
  {
    hide CutAt, LexSplit, Trim, OnlyComments, Cuts, GoPieces, Ink, IsGoPiece;
    FirstSegmentIsShort(d, t, j);
    var sts := LexSplit(d, t);
    var c :| 0 < c < |t| && sts[0].text == Trim(t[..c]) && t[c - 1] == ';';
    SemicolonSurvivesGo(sts[0], t[..c]);
    assert sts == [sts[0]] + sts[1..];
    GoSplitConcat([sts[0]], sts[1..]);
    GoSplitOne(sts[0]);
    var pieces := GoPieces(sts[0]);
    assert GoSplit(sts)[0] == pieces[0];
    GoPiecesKeepSpan(sts[0], 0);
  }

  lemma GoPiecesKeepSpan(st: Statement, k: nat)
    requires k < |GoPieces(st)|
    ensures GoPieces(st)[k].start == st.start && GoPieces(st)[k].end == st.end
  {
    hide Batches, Lines, BatchStatements, HasGoLine;
    var bs := Batches(Lines(st.text));
    assert bs[..|bs|] == bs;
    BatchStatementsArePieces(st, |bs|, k);
  }

  lemma SemicolonSurvivesGo(st: Statement, s: string)
    requires s != "" && s[|s| - 1] == ';' && st.text == Trim(s)
    ensures GoPieces(st) != []
  {
    hide GoPieces, Ink, Trim, InkOfTexts, InkOfLines, Lines, NonGo;
    GoPiecesKeepInk(st);
    SemicolonLine(s);
    var t := st.text;
    assert t != "" && t[|t| - 1] == ';';
    SemicolonInk(t);
    assert GoPieces(st) == [] ==> InkOfTexts(GoPieces(st)) == "" by { NoTextNoInk(); }
  }

  lemma NoTextNoInk()
    ensures InkOfTexts([]) == ""
  {
  }

  lemma SemicolonLine(s: string)
    requires s != "" && s[|s| - 1] == ';'
    ensures var t := Trim(s); t != "" && t[|t| - 1] == ';'
  {
    hide Trim;
    assert s[0..|s|] == s;
    if Trim(s) == "" {
      BlankSegment(s, 0, |s|);
    }
    var a, b := TrimIsSlice(s);
    assert s[b..|s|] == s[b..];
    SpaceTail(s, b, |s|);
  }

  // The line a semicolon ends is no separator, so it is kept.
  lemma SemicolonInk(t: string)
    requires t != "" && t[|t| - 1] == ';'
    ensures InkOfLines(NonGo(Lines(t))) != ""
  {
    hide Ink, IsGoSeparator, Lines, Splice, InkOfLines;
    var n := |t| - 1;
    assert t == t[..n] + [t[n]];
    LinesConcat(t[..n], [t[n]]);
    LinesOfOneLine([t[n]]);
    var before := Lines(t[..n]);
    SpliceLines(before, Lines([t[n]]));
    var ls := Lines(t);
    var last := ls[|ls| - 1];
    assert last[|last| - 1] == ';';
    WalledLine(last, |last| - 1);
    InkOfSemicolon(last);
    var kept := NonGo(ls[..|ls| - 1]);
    assert NonGo(ls) == kept + [last];
    InkOfLinesConcat(kept, [last]);
    InkOfOne(last);
  }

  lemma InkOfSemicolon(line: string)
    requires line != "" && line[|line| - 1] == ';'
    ensures Ink(line) != ""
  {
  }

  // Some returned span ends at c.
  ghost predicate IsEnd(sts: seq<Statement>, c: nat) {
    exists k :: 0 <= k < |sts| && sts[k].end == c
  }

  // The cuts of a text show in the spans of what is returned for it: a segment a cut
  // closes is never lost, and spans end at cuts or at the end.
  lemma EndsAreCuts(e: Engine, sql: string, j: nat)
    requires j + 1 < |sql|
    ensures CutAt(DialectOf(e), START, sql, j) <==> IsEnd(Split(e, sql), j + 1)
  {
    hide CutAt, LexSplit, GoSplit, Cuts;
    var d := DialectOf(e);
    var sts := LexSplit(d, sql);
    CutsAreCuts(d, sql, |sql|, j + 1);
    LexEnds(d, sql, j + 1);
    assert Split(e, sql) == if e.SQLServer? then GoSplit(sts) else sts;
    if e.SQLServer? {
      if k: nat :| k < |GoSplit(sts)| && GoSplit(sts)[k].end == j + 1 {
        GoSplitPieces(sts, k);
        var m :| 0 <= m < |sts| && IsGoPiece(GoSplit(sts)[k], sts[m]);
        assert sts[m].end == j + 1;
      }
      if m: nat :| m < |sts| && sts[m].end == j + 1 {
        ClosedPrints(d, sql, m);
        GoSplitKeeps(sts, m);
      }
    }
  }

  lemma LexEnds(d: Dialect, sql: string, c: nat)
    requires 0 < c < |sql|
    ensures c in Cuts(d, sql, |sql|) <==> exists m :: 0 <= m < |LexSplit(d, sql)| && LexSplit(d, sql)[m].end == c
  {
    hide LexSplit, Cuts, Trim, OnlyComments;
    SplitTiles(d, sql);
    var cs, sts := Cuts(d, sql, |sql|), LexSplit(d, sql);
    forall m: nat | m < |cs| ensures sts[m].end == cs[m] {
      assert sts[m] == Tile(sql, cs, m);
    }
  }

  lemma ClosedPrints(d: Dialect, sql: string, m: nat)
    requires m < |LexSplit(d, sql)| && 0 < LexSplit(d, sql)[m].end < |sql|
    ensures GoPieces(LexSplit(d, sql)[m]) != []
  {
    hide LexSplit, Cuts, Trim, OnlyComments, GoPieces, CutAt;
    SplitTiles(d, sql);
    var cs, sts := Cuts(d, sql, |sql|), LexSplit(d, sql);
    assert m < |cs| && sts[m] == Tile(sql, cs, m);
    var a, c := SegmentStart(cs, m), cs[m];
    assert a < c by { SegmentIsNotEmpty(cs, |sql|, m); }
    CutsAreCuts(d, sql, |sql|, c);
    assert c in cs;
    CutIsSemicolon(d, sql, c - 1);
    SemicolonSurvivesGo(sts[m], sql[a..c]);
  }

  lemma SegmentIsNotEmpty(cs: seq<nat>, n: nat, m: nat)
    requires Ascending(cs, n) && m < |cs|
    ensures SegmentStart(cs, m) < cs[m]
  {
  }

  lemma GoSplitKeeps(sts: seq<Statement>, m: nat)
    requires m < |sts| && GoPieces(sts[m]) != []
    ensures exists k :: 0 <= k < |GoSplit(sts)| && GoSplit(sts)[k].end == sts[m].end
  {
    hide GoPieces, GoSplit;
    var a, b, pieces := GoSplit(sts[..m]), GoSplit(sts[m + 1..]), GoPieces(sts[m]);
    assert sts == sts[..m] + [sts[m]] + sts[m + 1..];
    GoSplitConcat(sts[..m] + [sts[m]], sts[m + 1..]);
    GoSplitConcat(sts[..m], [sts[m]]);
    GoSplitOne(sts[m]);
    GoPiecesKeepSpan(sts[m], 0);
    assert GoSplit(sts)[|a|] == pieces[0];
  }

  /* ---- splitting a returned statement again ---- */

  // For the three engines without GO, every returned text is stable.
  lemma ResplitStable(e: Engine, sql: string, k: nat)
    requires !e.SQLServer? && k < |Split(e, sql)|
    ensures IsOneStatement(e, Split(e, sql)[k].text)
  {
    hide LexSplit;
    Resplit(DialectOf(e), sql, k);
  }

  // For SQL Server a returned text is stable exactly when the lexer, started
  // afresh, makes no cut inside it and it is more than comments: a GO line inside
  // a literal or before a comment leaves pieces that are not.
  lemma ResplitSqlServerIff(sql: string, k: nat)
    requires k < |Split(SQLServer, sql)|
    ensures var t := Split(SQLServer, sql)[k].text;
      IsOneStatement(SQLServer, t) <==> NoInnerCut(DialectOf(SQLServer), t) && !OnlyComments(t)
  {
    hide LexSplit, IsOneStatement, NoInnerCut, OnlyComments;
    GoSplitPieces(LexSplit(DialectOf(SQLServer), sql), k);
    OneStatementIff(SQLServer, Split(SQLServer, sql)[k].text);
  }

  // A literal that holds a GO line is cut in two, and its second half is cut
  // again at a semicolon that was inside the literal.
  lemma GoInLiteralIsUnstable()
    ensures var sql := "'\nGO\n;'";
      && |Split(SQLServer, sql)| == 2
      && Split(SQLServer, sql)[1].text == ";'"
      && !IsOneStatement(SQLServer, ";'")
  {
    hide LexSplit, Lines, GoPieces, OnlyComments, IsOneStatement, CutAt, IsGoSeparator;
    var sql := "'\nGO\n;'";
    var st := Statement(sql, 0, |sql|);
    LiteralIsOnePiece(DialectOf(SQLServer));
    GoSplitOne(st);
    LiteralLines();
    WalledLine("'", 0);
    WalledLine(";'", 0);
    TwoPieces(st, "'", ";'");
    SemicolonCuts(DialectOf(SQLServer), ";'");
    OneStatementIff(SQLServer, ";'");
  }

  lemma SemicolonCuts(d: Dialect, t: string)
    requires t != "" && t[0] == ';'
    ensures CutAt(d, START, t, 0)
  {
  }

  lemma LiteralIsOnePiece(d: Dialect)
    ensures var sql := "'\nGO\n;'"; LexSplit(d, sql) == [Statement(sql, 0, |sql|)]
  {
    hide LexSplit;
    var sql := "'\nGO\n;'";
    var q := Quoted('\'');
    assert Run(d, START, sql, 1) == q;
    assert Run(d, START, sql, 2) == q;
    assert Run(d, START, sql, 3) == q;
    assert Run(d, START, sql, 4) == q;
    assert Run(d, START, sql, 5) == q;
    assert LeadingEnd(sql, 0) == 0;
    OnePiece(d, sql);
  }

  lemma LiteralLines()
    ensures Lines("'\nGO\n;'") == ["'", "GO", ";'"]
  {
    hide Lines;
    LinesOfOneLine("'");
    LinesOfOneLine("GO");
    LinesOfOneLine(";'");
    LinesAround("GO", ";'");
    LinesAround("'", "GO\n;'");
    assert "GO" + "\n" + ";'" == "GO\n;'";
    assert "'" + "\n" + "GO\n;'" == "'\nGO\n;'";
  }

  // Two lines about a GO line become two pieces.
  lemma TwoPieces(st: Statement, a: string, b: string)
    requires Lines(st.text) == [a, "GO", b] && !IsGoSeparator(a) && !IsGoSeparator(b)
    requires a != "" && Trimmed(a) && b != "" && Trimmed(b)
    ensures GoPieces(st) == [st.(text := a), st.(text := b)]
  {
    hide IsGoSeparator, Batches, BatchStatements, Lines, Trim, Trimmed;
    GoIsSeparator();
    TwoBatches(a, "GO", b);
    OneLineBatch(a, st);
    OneLineBatch(b, st);
    TwoBatchStatements([a], [b], st);
  }

  lemma TwoBatches(a: string, go: string, b: string)
    requires !IsGoSeparator(a) && IsGoSeparator(go) && !IsGoSeparator(b)
    ensures Batches([a, go, b]) == [[a], [b]]
  {
    hide IsGoSeparator, Batches;
    BatchesSnoc([], a);
    assert [] + [a] == [a];
    assert Batches([a]) == [[a]];
    BatchesSnoc([a], go);
    assert [a] + [go] == [a, go];
    assert Batches([a, go]) == [[a], []];
    BatchesSnoc([a, go], b);
    assert [a, go] + [b] == [a, go, b];
    var before: seq<seq<string>> := [[a], []];
    assert before[..1] == [[a]] && before[1] + [b] == [b];
  }

  lemma BatchesSnoc(lines: seq<string>, line: string)
    ensures lines == [] ==> Batches(lines) == [[]]
    ensures var before := Batches(lines);
      Batches(lines + [line]) ==
        if IsGoSeparator(line) then before + [[]]
        else before[..|before| - 1] + [before[|before| - 1] + [line]]
  {
    hide IsGoSeparator;
    assert (lines + [line])[..|lines|] == lines;
  }

  lemma OneLineBatch(line: string, st: Statement)
    requires line != "" && Trimmed(line)
    ensures BatchStatement([line], st) == [st.(text := line)]
  {
    hide Trim;
    TrimmedFixed(line);
  }

  lemma TwoBatchStatements(a: seq<string>, b: seq<string>, st: Statement)
    ensures BatchStatements([a, b], st) == BatchStatement(a, st) + BatchStatement(b, st)
  {
    hide BatchStatement;
    assert [a, b][..1] == [a] && [a][..0] == [];
    assert BatchStatements([a], st) == BatchStatement(a, st);
  }

  lemma GoIsSeparator()
    ensures IsGoSeparator("GO")
  {
    hide Trim;
    TrimmedFixed("GO");
    assert FieldEnd("GO", 2) == 2 == FieldEnd("GO", 1);
    assert "GO"[..2] == "GO" && "GO"[2..] == "";
    assert Fields("") == [];
    assert Fields("GO") == ["GO"] + Fields("");
  }
}

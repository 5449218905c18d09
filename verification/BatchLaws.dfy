/** GO batches in front of the lexer (core/dbcore/sqltext.go:94-100 and 183-220): when
    a batch cut out of a statement is read on its own as it was read inside it, and
    when a returned text is nothing but comments. */
module BatchLaws {
  import opened Text
  import opened Lexer
  import opened Tokens
  import opened Leading
  import opened Splitter
  import opened SplitLaws
  import opened GoLaws
  import opened Fragments
  import opened OneStatement

  /* ---- where lines and batches stand in a text ---- */

  // The position of the k-th line.
  function LineStart(lines: seq<string>, k: nat): nat
    requires k <= |lines|
  {
    if k == 0 then 0 else LineStart(lines, k - 1) + |lines[k - 1]| + 1
  }

  lemma {:induction false} JoinConcat(a: seq<string>, b: seq<string>, sep: string)
    requires a != [] && b != []
    ensures Join(a + b, sep) == Join(a, sep) + sep + Join(b, sep)
  {
    if |a| == 1 {
      assert (a + b)[1..] == b;
    } else {
      JoinConcat(a[1..], b, sep);
      assert (a + b)[1..] == a[1..] + b;
      var x := a[0] + sep;
      Associate(x, Join(a[1..], sep) + sep, Join(b, sep));
      Associate(x, Join(a[1..], sep), sep);
    }
  }

  lemma {:induction false} JoinLength(lines: seq<string>, k: nat)
    requires 0 < k <= |lines|
    ensures |Join(lines[..k], "\n")| + 1 == LineStart(lines, k)
  {
    hide Join;
    if k == 1 {
      JoinOne(lines[0]);
      assert lines[..1] == [lines[0]];
      assert LineStart(lines, 0) == 0;
    } else {
      JoinLength(lines, k - 1);
      JoinConcat(lines[..k - 1], [lines[k - 1]], "\n");
      JoinOne(lines[k - 1]);
      assert lines[..k] == lines[..k - 1] + [lines[k - 1]];
    }
  }

  lemma JoinOne(line: string)
    ensures Join([line], "\n") == line
  {
  }

  // A range of lines is a slice of the text, and a newline stands before each line
  // but the first.
  lemma LinesAreSlice(t: string, i: nat, j: nat)
    requires i < j <= |Lines(t)|
    ensures var ls := Lines(t);
      && LineStart(ls, i) < LineStart(ls, j) <= |t| + 1
      && t[LineStart(ls, i)..LineStart(ls, j) - 1] == Join(ls[i..j], "\n")
      && (0 < i ==> t[LineStart(ls, i) - 1] == '\n')
  {
    hide Join, Lines, LineStart;
    var ls := Lines(t);
    JoinLines(t);
    assert ls[..|ls|] == ls;
    LineStartZero(ls);
    JoinLength(ls, j);
    var head, rest := Join(ls[..j], "\n"), ls[j..];
    if j < |ls| {
      assert ls == ls[..j] + rest;
      JoinConcat(ls[..j], rest, "\n");
    }
    assert head == t[..LineStart(ls, j) - 1];
    if 0 < i {
      JoinLength(ls, i);
      assert ls[..j] == ls[..i] + ls[i..j];
      JoinConcat(ls[..i], ls[i..j], "\n");
      assert head[LineStart(ls, i)..] == Join(ls[i..j], "\n");
      assert head[LineStart(ls, i) - 1] == '\n';
    } else {
      assert ls[0..j] == ls[..j];
    }
  }

  lemma LineStartZero(ls: seq<string>)
    ensures LineStart(ls, 0) == 0
  {
  }

  // The lines from i up to j make a batch, which begins behind a separator.
  ghost predicate BatchIsRange(lines: seq<string>, batch: seq<string>, i: nat, j: nat) {
    i <= j <= |lines| && batch == lines[i..j] && (0 < i ==> IsGoSeparator(lines[i - 1]))
  }

  lemma {:induction false} BatchesAreRanges(lines: seq<string>, k: nat) returns (i: nat, j: nat)
    requires k < |Batches(lines)|
    ensures BatchIsRange(lines, Batches(lines)[k], i, j)
    ensures k == |Batches(lines)| - 1 ==> j == |lines|
  {
    hide IsGoSeparator, Batches;
    BatchesSnoc([], "");
    if lines == [] {
      i, j := 0, 0;
    } else {
      var n := |lines| - 1;
      assert lines == lines[..n] + [lines[n]];
      BatchesSnoc(lines[..n], lines[n]);
      var before := Batches(lines[..n]);
      if k < |before| {
        i, j := BatchesAreRanges(lines[..n], k);
        assert lines[..n][i..j] == lines[i..j];
        if k == |before| - 1 && !IsGoSeparator(lines[n]) {
          assert lines[i..n] + [lines[n]] == lines[i..n + 1];
          j := n + 1;
        }
      } else {
        i, j := n + 1, n + 1;
        assert lines[i..j] == [];
      }
    }
  }

  /* ---- how the lexer reads a separator line ---- */

  function Flat(fs: seq<string>): string {
    if fs == [] then "" else fs[0] + Flat(fs[1..])
  }

  lemma {:induction false} NoSpaceAllInk(s: string)
    requires forall i :: 0 <= i < |s| ==> !IsSpace(s[i])
    ensures Ink(s) == s
  {
    hide IsSpace;
    if s != "" {
      NoSpaceAllInk(s[..|s| - 1]);
      assert s == s[..|s| - 1] + [s[|s| - 1]];
    }
  }

  // The ink of a text is its fields, end to end.
  lemma {:induction false} InkOfFields(s: string)
    ensures Ink(s) == Flat(Fields(s))
    decreases |s|
  {
    hide Ink, IsSpace;
    if s == "" {
      SpaceHasNoInk(s);
    } else if IsSpace(s[0]) {
      InkOfFields(s[1..]);
      assert s == [s[0]] + s[1..];
      InkConcat([s[0]], s[1..]);
      SpaceHasNoInk([s[0]]);
    } else {
      var n := FieldEnd(s, 0);
      InkOfFields(s[n..]);
      assert s == s[..n] + s[n..];
      InkConcat(s[..n], s[n..]);
      NoSpaceAllInk(s[..n]);
      var fs := Fields(s);
      assert fs == [s[..n]] + Fields(s[n..]) && fs[1..] == Fields(s[n..]);
    }
  }

  lemma InkOfSeparator(line: string)
    requires IsGoSeparator(line)
    ensures var f := Fields(Trim(line));
      Ink(line) == f[0] + if |f| == 1 then "" else f[1]
  {
    hide Ink, Fields, Trim, FoldsToGo, IsInt;
    TrimKeepsInk(line);
    InkOfFields(Trim(line));
    var f := Fields(Trim(line));
    assert Flat([]) == "" && f[0] + "" == f[0];
    if |f| == 1 {
      assert f[1..] == [];
    } else {
      assert f[1..] == [f[1]] && [f[1]][1..] == [] && f[1] + "" == f[1];
      assert Flat([f[1]]) == f[1];
    }
  }

  // Only the number may have a sign, and only in front.
  lemma SeparatorInk(line: string, m: nat)
    requires IsGoSeparator(line) && m < |Ink(line)| && m != 2
    ensures Ink(line)[m] != '-'
  {
    hide Ink, Fields, Trim;
    InkOfSeparator(line);
    var f := Fields(Trim(line));
    if 2 < m {
      assert f[1][1..][m - 3] == f[1][m - 2];
    }
  }

  // So a separator line opens no comment.
  lemma NoDoubleDash(line: string, i: nat)
    requires IsGoSeparator(line) && i + 1 < |line| && line[i] == '-'
    ensures line[i + 1] != '-'
  {
    hide Ink, IsGoSeparator;
    if line[i + 1] == '-' {
      var a, b := line[..i], line[i + 2..];
      assert line == a + ("--" + b);
      InkConcat(a, "--" + b);
      InkConcat("--", b);
      NoSpaceAllInk("--");
      var m := |Ink(a)|;
      assert Ink(line)[m] == '-' && Ink(line)[m + 1] == '-';
      SeparatorInk(line, if m == 2 then 3 else m);
    }
  }

  // Separator runes, read from the start without a double dash, open nothing.
  lemma {:induction false} GoRunesRun(d: Dialect, t: string, p: nat, q: nat)
    requires p <= q <= |t| && Run(d, START, t, p) == START
    requires forall i :: p <= i < q ==> GoRune(t[i])
    requires forall i :: p < i < q ==> !(t[i - 1] == '-' && t[i] == '-')
    ensures var s := Run(d, START, t, q); s.Code? || (s.Dash? && p < q && t[q - 1] == '-')
  {
    hide Run, GoRune;
    if p < q {
      GoRunesRun(d, t, p, q - 1);
      GoRuneStep(d, Run(d, START, t, q - 1), t[q - 1]);
      RunStep(d, t, q - 1);
    }
  }

  lemma GoRuneStep(d: Dialect, s: State, c: char)
    requires GoRune(c) && (s.Code? || (s.Dash? && c != '-'))
    ensures var t := Step(d, s, c); t.Code? || (t.Dash? && c == '-')
  {
  }

  lemma RunStep(d: Dialect, t: string, i: nat)
    requires i < |t|
    ensures Run(d, START, t, i + 1) == Step(d, Run(d, START, t, i), t[i])
  {
  }

  // Every separator line begins where the lexer is outside every region.
  ghost predicate GoOutside(d: Dialect, t: string) {
    forall k :: 0 <= k < |Lines(t)| && IsGoSeparator(Lines(t)[k]) ==> OutsideAt(d, t, LineStart(Lines(t), k))
  }

  ghost predicate OutsideAt(d: Dialect, t: string, p: nat) { p <= |t| && Level(Run(d, START, t, p)) }

  // Outside every region a newline settles the lexer.
  lemma NewlineSettles(d: Dialect, t: string, p: nat)
    requires p <= |t| && (0 < p ==> t[p - 1] == '\n') && Level(Run(d, START, t, p))
    ensures Run(d, START, t, p) == START
  {
    hide Run, Step, Punct, Level;
    if p == 0 {
      StartsAtStart(d, t);
    } else {
      RunStep(d, t, p - 1);
      QuoteMarks(d, t, p - 1);
      PunctSettles(d, Run(d, START, t, p - 1), '\n') by { assert Punct('\n') by { PunctNewline(); } }
    }
  }

  lemma PunctNewline()
    ensures Punct('\n')
  {
  }

  // A separator line outside every region leaves the lexer at the start.
  lemma BehindSeparator(d: Dialect, t: string, k: nat)
    requires GoOutside(d, t) && k + 1 < |Lines(t)| && IsGoSeparator(Lines(t)[k])
    ensures var p := LineStart(Lines(t), k + 1); p <= |t| && Run(d, START, t, p) == START
  {
    hide Run, Level, IsGoSeparator, Lines, GoRune;
    var ls := Lines(t);
    var p, line := LineStart(ls, k), ls[k];
    LinesAreSlice(t, k, k + 1);
    LinesAreSlice(t, k + 1, k + 2);
    var q := LineStart(ls, k + 1) - 1;
    assert ls[k..k + 1] == [line];
    JoinOne(line);
    assert t[p..q] == line;
    assert OutsideAt(d, t, p);
    NewlineSettles(d, t, p);
    forall i | p <= i < q ensures GoRune(t[i]) {
      assert t[i] == line[i - p];
      SeparatorRunes(line, i - p);
    }
    forall i | p < i < q ensures !(t[i - 1] == '-' && t[i] == '-') {
      assert t[i] == line[i - p] && t[i - 1] == line[i - 1 - p];
      if line[i - 1 - p] == '-' {
        NoDoubleDash(line, i - 1 - p);
      }
    }
    GoRunesRun(d, t, p, q);
    RunStep(d, t, q);
    NewlineStep(d, Run(d, START, t, q));
  }

  lemma NewlineStep(d: Dialect, s: State)
    requires s.Code? || s.Dash?
    ensures Step(d, s, '\n') == START
  {
  }

  // A batch is read on its own as inside its statement, so it has no inner cut.
  lemma BatchHasNoInnerCut(d: Dialect, t: string, k: nat)
    requires NoInnerCut(d, t) && GoOutside(d, t) && k < |Batches(Lines(t))|
    ensures NoInnerCut(d, Trim(Join(Batches(Lines(t))[k], "\n")))
  {
    hide Run, CutAt, IsGoSeparator, Lines, Batches, Join, Trim, LineStart, GoOutside;
    var ls := Lines(t);
    var i, j := BatchesAreRanges(ls, k);
    if i == j {
      assert ls[i..j] == [];
      assert Join([], "\n") == "" by { JoinNothing(); }
      TrimmedFixed("");
    } else {
      LinesAreSlice(t, i, j);
      var a, b := LineStart(ls, i), LineStart(ls, j) - 1;
      if i == 0 {
        LineStartZero(ls);
        StartsAtStart(d, t);
      } else {
        BehindSeparator(d, t, i - 1);
      }
      var p, q := TrimmedSegment(d, t, a, b);
      InnerCutInSegment(d, t, p, q);
    }
  }

  lemma JoinNothing()
    ensures Join([], "\n") == ""
  {
  }

  /* ---- pieces and batches ---- */

  // The text of the k-th batch of a statement, before trimming.
  function BatchText(t: string, k: nat): string
    requires k < |Batches(Lines(t))|
  {
    Join(Batches(Lines(t))[k], "\n")
  }

  ghost predicate HasText(sts: seq<Statement>, text: string) {
    exists k :: 0 <= k < |sts| && sts[k].text == text
  }

  ghost predicate HasBatch(bs: seq<seq<string>>, text: string) {
    exists m :: 0 <= m < |bs| && Trim(Join(bs[m], "\n")) == text
  }

  lemma HasTextConcat(a: seq<Statement>, b: seq<Statement>, text: string)
    ensures HasText(a + b, text) <==> HasText(a, text) || HasText(b, text)
  {
    if k: nat :| k < |a| && a[k].text == text {
      assert (a + b)[k] == a[k];
    }
    if k: nat :| k < |b| && b[k].text == text {
      assert (a + b)[|a| + k] == b[k];
    }
  }

  lemma HasBatchConcat(a: seq<seq<string>>, b: seq<string>, text: string)
    ensures HasBatch(a + [b], text) <==> HasBatch(a, text) || Trim(Join(b, "\n")) == text
  {
    hide Trim, Join;
    if m: nat :| m < |a| && Trim(Join(a[m], "\n")) == text {
      assert (a + [b])[m] == a[m];
    }
    assert (a + [b])[|a|] == b;
  }

  // The pieces of a statement are its batches that are not blank.
  lemma {:induction false} PiecesAreBatches(bs: seq<seq<string>>, st: Statement, text: string)
    ensures HasText(BatchStatements(bs, st), text) <==> text != "" && HasBatch(bs, text)
  {
    hide Trim, Join, HasText, HasBatch;
    if bs == [] {
      NoneHas(text);
    } else {
      var n := |bs| - 1;
      PiecesAreBatches(bs[..n], st, text);
      assert bs == bs[..n] + [bs[n]];
      HasBatchConcat(bs[..n], bs[n], text);
      HasTextConcat(BatchStatements(bs[..n], st), BatchStatement(bs[n], st), text);
      OneBatchText(bs[n], st, text);
    }
  }

  lemma NoneHas(text: string)
    ensures !HasText([], text) && !HasBatch([], text)
  {
  }

  lemma OneBatchText(batch: seq<string>, st: Statement, text: string)
    ensures HasText(BatchStatement(batch, st), text) <==> text != "" && Trim(Join(batch, "\n")) == text
  {
    hide Trim, Join;
    var b := BatchStatement(batch, st);
    assert b != [] ==> b[0].text == Trim(Join(batch, "\n"));
  }

  // What GO splitting returns are the batches of the statements it is given.
  lemma {:induction false} GoSplitTexts(sts: seq<Statement>, text: string)
    ensures HasText(GoSplit(sts), text) <==>
      text != "" && exists m :: 0 <= m < |sts| && HasBatch(Batches(Lines(sts[m].text)), text)
  {
    hide HasText, HasBatch, Batches, Lines, BatchStatements;
    if sts == [] {
      NoneHas(text);
    } else {
      var n := |sts| - 1;
      GoSplitTexts(sts[..n], text);
      HasTextConcat(GoSplit(sts[..n]), GoPieces(sts[n]), text);
      PiecesAreBatches(Batches(Lines(sts[n].text)), sts[n], text);
      if m: nat :| m < n && HasBatch(Batches(Lines(sts[m].text)), text) {
        assert sts[..n][m] == sts[m];
      }
    }
  }

  /* ---- splitting a returned text again on SQL Server ---- */

  // The separator lines of every statement the lexer cuts stand outside its regions.
  ghost predicate AllGoOutside(sql: string) {
    var d := DialectOf(SQLServer);
    forall m :: 0 <= m < |LexSplit(d, sql)| ==> GoOutside(d, LexSplit(d, sql)[m].text)
  }

  // Then what is returned has no inner cut, and splits into itself exactly when it
  // is more than comments.
  lemma ResplitSqlServer(sql: string, k: nat)
    requires AllGoOutside(sql) && k < |Split(SQLServer, sql)|
    ensures var t := Split(SQLServer, sql)[k].text;
      NoInnerCut(DialectOf(SQLServer), t) && (IsOneStatement(SQLServer, t) <==> !OnlyComments(t))
  {
    hide LexSplit, GoSplit, NoInnerCut, OnlyComments, Trim, Join, Lines, Batches, GoOutside, IsOneStatement;
    var d, t := DialectOf(SQLServer), Split(SQLServer, sql)[k].text;
    var sts := LexSplit(d, sql);
    assert HasText(GoSplit(sts), t);
    GoSplitTexts(sts, t);
    var m :| 0 <= m < |sts| && HasBatch(Batches(Lines(sts[m].text)), t);
    var bs := Batches(Lines(sts[m].text));
    var n :| 0 <= n < |bs| && Trim(Join(bs[n], "\n")) == t;
    Resplit(d, sql, m);
    ResplitHasNoInnerCut(d, sts[m].text);
    BatchHasNoInnerCut(d, sts[m].text, n);
    ResplitSqlServerIff(sql, k);
  }

  lemma ResplitHasNoInnerCut(d: Dialect, t: string)
    requires LexSplit(d, t) == [Statement(t, 0, |t|)]
    ensures NoInnerCut(d, t)
  {
    hide LexSplit, CutAt;
    forall j | 0 <= j < |t| - 1 ensures !CutAt(d, START, t, j) {
      if CutAt(d, START, t, j) {
        CutIsAnEnd(d, t, j);
      }
    }
  }

  /* ---- returned texts that are only comments ---- */

  lemma CommentsAreInsignificant(d: Dialect, t: string)
    ensures OnlyComments(t) <==> forall j: nat :: j < |t| ==> !Significant(d, t, j)
  {
    hide Significant, LeadingEnd;
    StrippedIsFirstSignificant(d, t);
  }

  lemma {:induction false} NoTags(d: Dialect, r: string, i: nat)
    requires !d.dollar && i <= |r|
    ensures !Run(d, START, r, i).Tag?
  {
    if i > 0 {
      NoTags(d, r, i - 1);
    }
  }

  lemma SignificantInSlice(d: Dialect, t: string, p: nat, q: nat, j: nat)
    requires p + j < q <= |t| && !d.dollar && Run(d, START, t, p) == START && AllSpace(t[q..])
    ensures Significant(d, t[p..q], j) <==> Significant(d, t, p + j)
  {
    hide Run;
    SegmentRun(d, t, p, q, j);
    NoTags(d, t, p + j);
    assert p + j + 1 == q < |t| ==> IsSpace(t[q..][0]);
  }

  lemma MarginIsInsignificant(d: Dialect, t: string, p: nat, q: nat, j: nat)
    requires p <= q <= |t| && AllSpace(t[..p]) && AllSpace(t[q..])
    requires j < |t| && !(p <= j < q)
    ensures !Significant(d, t, j)
  {
    hide Run;
    assert j < p ==> IsSpace(t[..p][j]);
    assert q <= j ==> IsSpace(t[q..][j - q]);
  }

  // Whitespace about a text does not matter to what is left of it.
  lemma OnlyCommentsTrims(t: string)
    ensures OnlyComments(Trim(t)) <==> OnlyComments(t)
  {
    hide Run, Trim, OnlyComments, Significant, AllSpace;
    var d := DialectOf(SQLServer);
    var p, q := TrimIsSlice(t);
    SpacesIdle(d, t, p);
    var u := t[p..q];
    CommentsAreInsignificant(d, t);
    CommentsAreInsignificant(d, u);
    forall j: nat | j < |u| ensures Significant(d, u, j) <==> Significant(d, t, p + j) {
      SignificantInSlice(d, t, p, q, j);
    }
    forall j: nat | j < |t| && !(p <= j < q) ensures !Significant(d, t, j) {
      MarginIsInsignificant(d, t, p, q, j);
    }
    if !OnlyComments(t) {
      var j: nat :| j < |t| && Significant(d, t, j);
      assert Significant(d, u, j - p);
    }
  }

  // A batch of comments, with or without whitespace about them.
  ghost predicate CommentBatch(t: string, n: nat) {
    n < |Batches(Lines(t))| && Trim(BatchText(t, n)) != "" && OnlyComments(BatchText(t, n))
  }

  ghost predicate HasCommentBatch(t: string) { exists n: nat :: CommentBatch(t, n) }

  ghost predicate SomeIsOnlyComments(sts: seq<Statement>) {
    exists k :: 0 <= k < |sts| && OnlyComments(sts[k].text)
  }

  // A returned text is nothing but comments exactly when it is a GO batch that is:
  // batches are not looked at again as the lexer's segments are.
  lemma OnlyCommentsIff(e: Engine, sql: string)
    ensures SomeIsOnlyComments(Split(e, sql)) <==>
      e.SQLServer? && exists m :: 0 <= m < |LexSplit(DialectOf(e), sql)|
                                  && HasCommentBatch(LexSplit(DialectOf(e), sql)[m].text)
  {
    hide LexSplit, GoSplit, OnlyComments, HasCommentBatch, HasBatch, Batches, Lines;
    var sts := LexSplit(DialectOf(e), sql);
    if e.SQLServer? {
      if k: nat :| k < |GoSplit(sts)| && OnlyComments(GoSplit(sts)[k].text) {
        var t := GoSplit(sts)[k].text;
        assert HasText(GoSplit(sts), t);
        GoSplitTexts(sts, t);
        var m :| 0 <= m < |sts| && HasBatch(Batches(Lines(sts[m].text)), t);
        BatchOfComments(sts[m].text, t);
      }
      if m: nat :| m < |sts| && HasCommentBatch(sts[m].text) {
        var t := CommentsOfBatch(sts[m].text);
        GoSplitTexts(sts, t);
        assert HasText(GoSplit(sts), t);
      }
    } else {
      forall k | 0 <= k < |sts| ensures !OnlyComments(sts[k].text) {
        KeptIsMoreThanComments(DialectOf(e), sql, k);
      }
    }
  }

  lemma BatchOfComments(t: string, text: string)
    requires text != "" && HasBatch(Batches(Lines(t)), text) && OnlyComments(text)
    ensures HasCommentBatch(t)
  {
    hide Trim, OnlyComments, Batches, Lines, Join;
    var n: nat :| n < |Batches(Lines(t))| && Trim(Join(Batches(Lines(t))[n], "\n")) == text;
    OnlyCommentsTrims(BatchText(t, n));
    assert CommentBatch(t, n);
  }

  lemma CommentsOfBatch(t: string) returns (text: string)
    requires HasCommentBatch(t)
    ensures text != "" && HasBatch(Batches(Lines(t)), text) && OnlyComments(text)
  {
    hide Trim, OnlyComments, Batches, Lines, Join;
    var n: nat :| CommentBatch(t, n);
    text := Trim(BatchText(t, n));
    OnlyCommentsTrims(BatchText(t, n));
  }

  // So on SQL Server every returned text is stable when the separator lines stand
  // outside all regions and no batch holds nothing but comments.
  lemma AllStableOnSqlServer(sql: string)
    requires AllGoOutside(sql)
    ensures (forall k :: 0 <= k < |Split(SQLServer, sql)| ==> IsOneStatement(SQLServer, Split(SQLServer, sql)[k].text))
      <==> forall m :: 0 <= m < |LexSplit(DialectOf(SQLServer), sql)| ==>
             !HasCommentBatch(LexSplit(DialectOf(SQLServer), sql)[m].text)
  {
    hide LexSplit, Split, OnlyComments, IsOneStatement, HasCommentBatch, NoInnerCut, AllGoOutside;
    OnlyCommentsIff(SQLServer, sql);
    forall k: nat | k < |Split(SQLServer, sql)|
      ensures IsOneStatement(SQLServer, Split(SQLServer, sql)[k].text) <==>
        !OnlyComments(Split(SQLServer, sql)[k].text)
    {
      ResplitSqlServer(sql, k);
    }
  }

  /* ---- the two ways a batch can fail ---- */

  // Comments behind a GO line are returned, though no statement is.
  lemma CommentBehindGo()
    ensures var sql := "SELECT 1\nGO\n-- x";
      && Split(SQLServer, sql) == [Statement("SELECT 1", 0, |sql|), Statement("-- x", 0, |sql|)]
      && OnlyComments("-- x") && !IsOneStatement(SQLServer, "-- x")
  {
    hide LexSplit, Lines, GoPieces, OnlyComments, IsOneStatement, NoInnerCut, Trimmed;
    var sql := "SELECT 1\nGO\n-- x";
    var st := Statement(sql, 0, |sql|);
    SelectIsOnePiece();
    GoSplitOne(st);
    SelectLines();
    assert Trimmed("SELECT 1") && Trimmed("-- x") by { PlainEnds(); }
    TwoPieces(st, "SELECT 1", "-- x");
    LineIsComment();
    OneStatementIff(SQLServer, "-- x");
  }

  lemma PlainEnds()
    ensures Trimmed("SELECT 1") && Trimmed("-- x") && Trimmed("SELECT 1\nGO\n-- x")
  {
  }

  lemma SelectIsOnePiece()
    ensures var sql := "SELECT 1\nGO\n-- x"; LexSplit(DialectOf(SQLServer), sql) == [Statement(sql, 0, |sql|)]
  {
    hide LexSplit, OnlyComments, NoInnerCut;
    var sql := "SELECT 1\nGO\n-- x";
    NoSemicolonNoCut(DialectOf(SQLServer), sql);
    WordIsNoComment(sql);
    PlainEnds();
    OnePiece(DialectOf(SQLServer), sql);
  }

  lemma SelectLines()
    ensures Lines("SELECT 1\nGO\n-- x") == ["SELECT 1", "GO", "-- x"]
    ensures !IsGoSeparator("SELECT 1") && !IsGoSeparator("-- x")
  {
    hide Lines, IsGoSeparator;
    ThreeLines("SELECT 1", "GO", "-- x");
    assert "SELECT 1" + "\n" + ("GO" + "\n" + "-- x") == "SELECT 1\nGO\n-- x";
    WalledLine("SELECT 1", 0);
    WalledLine("-- x", 3);
  }

  lemma NoSemicolonNoCut(d: Dialect, t: string)
    requires ';' !in t
    ensures NoInnerCut(d, t)
  {
    hide Run;
  }

  lemma ThreeLines(a: string, b: string, c: string)
    requires OneLine(a) && OneLine(b) && OneLine(c)
    ensures Lines(a + "\n" + (b + "\n" + c)) == [a, b, c]
  {
    hide Lines;
    LinesOfOneLine(a);
    LinesOfOneLine(b);
    LinesOfOneLine(c);
    LinesAround(b, c);
    LinesAround(a, b + "\n" + c);
  }

  lemma LineIsComment()
    ensures OnlyComments("-- x")
  {
    var t := "-- x";
    assert CommentOpens(t, 0);
    assert CommentEnd(t, 0) == 4;
    assert LeadingEnd(t, 4) == 4;
    assert LeadingEnd(t, 0) == 4;
  }
}

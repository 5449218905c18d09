/** The SQL the core prints (core/dbcore/introspect.go:230-316), read back by its
    own splitter and classifier. */
module Printers {
  import opened Wrappers
  import opened Text
  import opened Lexer
  import opened Leading
  import opened Splitter
  import opened SplitLaws
  import opened GoLaws
  import opened Classifier
  import opened Quoting
  import opened Fragments
  import opened OneStatement

  const DEFAULT_MAX_ROWS: nat := 500

  function PreviewSql(e: Engine, schema: string, table: string, limit: int): string {
    var n: nat := if limit <= 0 then DEFAULT_MAX_ROWS else limit;
    var ref := Qualify(e, schema, table);
    if e.SQLServer? then "SELECT TOP " + Decimal(n) + " * FROM " + ref
    else "SELECT * FROM " + ref + " LIMIT " + Decimal(n)
  }

  function CountSql(e: Engine, schema: string, table: string): string {
    "SELECT COUNT(*) AS row_count FROM " + Qualify(e, schema, table)
  }

  /* ---- preview and count ---- */

  lemma SelectIsRead(t: string)
    requires OpensWith("SELECT", t)
    ensures IsReadOnly(t)
  {
    hide FirstKeyword;
    KeywordOf("SELECT", t);
    assert ToUpper("SELECT") == "SELECT";
  }

  lemma Leads()
    ensures OpensWith("SELECT", "SELECT TOP ") && OpensWith("SELECT", "SELECT * FROM ")
    ensures OpensWith("SELECT", "SELECT COUNT(*) AS row_count FROM ")
  {
  }

  // What both printers begin with makes them reads, whatever the names.
  lemma PreviewIsRead(e: Engine, schema: string, table: string, limit: int)
    ensures IsReadOnly(PreviewSql(e, schema, table, limit))
  {
    hide Qualify, Decimal, IsReadOnly, OpensWith;
    var n: nat := if limit <= 0 then DEFAULT_MAX_ROWS else limit;
    var ref := Qualify(e, schema, table);
    Leads();
    if e.SQLServer? {
      StillOpens("SELECT", "SELECT TOP ", Decimal(n));
      StillOpens("SELECT", "SELECT TOP " + Decimal(n), " * FROM ");
      StillOpens("SELECT", "SELECT TOP " + Decimal(n) + " * FROM ", ref);
    } else {
      StillOpens("SELECT", "SELECT * FROM ", ref);
      StillOpens("SELECT", "SELECT * FROM " + ref, " LIMIT ");
      StillOpens("SELECT", "SELECT * FROM " + ref + " LIMIT ", Decimal(n));
    }
    SelectIsRead(PreviewSql(e, schema, table, limit));
  }

  lemma CountIsRead(e: Engine, schema: string, table: string)
    ensures IsReadOnly(CountSql(e, schema, table))
  {
    hide Qualify, IsReadOnly, OpensWith;
    Leads();
    StillOpens("SELECT", "SELECT COUNT(*) AS row_count FROM ", Qualify(e, schema, table));
    SelectIsRead(CountSql(e, schema, table));
  }

  // Both texts put one line of plain text before the qualified name, and one without
  // a semicolon behind it.
  ghost predicate Framed(d: Dialect, t: string, lead: string, ref: string, trail: string) {
    && t == lead + ref + trail && OneLine(lead) && OneLine(trail) && ';' !in trail
    && Fragment(d, lead) && lead != "" && Punct(lead[|lead| - 1])
  }

  lemma PreviewIsFramed(e: Engine, schema: string, table: string, limit: int) returns (lead: string, trail: string)
    ensures Framed(DialectOf(e), PreviewSql(e, schema, table, limit), lead, Qualify(e, schema, table), trail)
  {
    hide Fragment, Qualify, Decimal;
    var d, n: nat := DialectOf(e), if limit <= 0 then DEFAULT_MAX_ROWS else limit;
    if e.SQLServer? {
      lead, trail := "SELECT TOP " + Decimal(n) + " * FROM ", "";
      PlainFragment(d, "SELECT TOP ");
      PlainFragment(d, " * FROM ");
      DecimalFragment(d, n);
      FragmentAround(d, "SELECT TOP ", Decimal(n), " * FROM ");
      assert OneLine(Decimal(n)) && OneLine("SELECT TOP ") && OneLine(" * FROM ");
    } else {
      lead, trail := "SELECT * FROM ", " LIMIT " + Decimal(n);
      PlainFragment(d, lead);
      Associate(lead, Qualify(e, schema, table), trail);
      var ref := Qualify(e, schema, table);
      Associate(lead + ref, " LIMIT ", Decimal(n));
    }
  }

  lemma CountIsFramed(e: Engine, schema: string, table: string)
    ensures Framed(DialectOf(e), CountSql(e, schema, table),
                   "SELECT COUNT(*) AS row_count FROM ", Qualify(e, schema, table), "")
  {
    hide Fragment, Qualify, Plain, Punct, OneLine;
    CountLead();
    PlainFragment(DialectOf(e), "SELECT COUNT(*) AS row_count FROM ");
    assert OneLine("") by { NothingIsOneLine(); }
  }

  lemma CountLead()
    ensures var lead := "SELECT COUNT(*) AS row_count FROM ";
      OneLine(lead) && Punct(lead[|lead| - 1]) && forall j :: 0 <= j < |lead| ==> Plain(lead[j])
  {
  }

  lemma NothingIsOneLine()
    ensures OneLine("")
  {
  }

  // A framed name makes one statement exactly when it makes no cut by itself and,
  // on SQL Server, hides no GO line.
  lemma FramedIsOneStatement(e: Engine, t: string, lead: string, schema: string, table: string, trail: string)
    requires Framed(DialectOf(e), t, lead, Qualify(e, schema, table), trail)
    requires t != "" && t[0] == 'S' && !IsSpace(t[|t| - 1]) && t[|t| - 1] != ';'
    ensures IsOneStatement(e, t) <==>
      && NoCut(DialectOf(e), Qualify(e, schema, table))
      && (e.SQLServer? ==> !HidesGo(schema) && !HidesGo(table))
  {
    hide Qualify, HidesGo, HasGoLine, IsOneStatement, OnlyComments, Fragment, Walled;
    CutsOfMiddle(DialectOf(e), lead, Qualify(e, schema, table), trail);
    NoCutAtAll(DialectOf(e), t);
    WordIsNoComment(t);
    OneStatementIff(e, t);
    if e.SQLServer? {
      QualifiedGo(schema, table);
      PaddedGo(lead, Qualify(e, schema, table), trail);
    }
  }

  lemma NoCutAtAll(d: Dialect, t: string)
    requires t != "" && t[|t| - 1] != ';'
    ensures NoInnerCut(d, t) <==> NoCut(d, t)
  {
    hide Run, Inside;
  }

  lemma PrintedEnds(e: Engine, schema: string, table: string, limit: int)
    ensures var t := PreviewSql(e, schema, table, limit);
      t != "" && t[0] == 'S' && !IsSpace(t[|t| - 1]) && t[|t| - 1] != ';'
    ensures var t := CountSql(e, schema, table);
      t != "" && t[0] == 'S' && !IsSpace(t[|t| - 1]) && t[|t| - 1] != ';'
  {
    hide Doubled;
    var ref := Qualify(e, schema, table);
    QuotedShape(e, table);
    assert ref[|ref| - 1] == CloseMark(e);
  }

  // For every schema, table and limit, each text is exactly one statement precisely
  // when the splitter makes no cut in the qualified name read by itself and, on SQL
  // Server, neither name hides a GO line.
  lemma PreviewIsOneStatement(e: Engine, schema: string, table: string, limit: int)
    ensures IsOneStatement(e, PreviewSql(e, schema, table, limit)) <==>
      && NoCut(DialectOf(e), Qualify(e, schema, table))
      && (e.SQLServer? ==> !HidesGo(schema) && !HidesGo(table))
    ensures IsOneStatement(e, CountSql(e, schema, table)) <==>
      && NoCut(DialectOf(e), Qualify(e, schema, table))
      && (e.SQLServer? ==> !HidesGo(schema) && !HidesGo(table))
  {
    hide PreviewSql, CountSql, HidesGo, NoCut, IsOneStatement, Framed, Qualify;
    PrintedEnds(e, schema, table, limit);
    var lead, trail := PreviewIsFramed(e, schema, table, limit);
    FramedIsOneStatement(e, PreviewSql(e, schema, table, limit), lead, schema, table, trail);
    CountIsFramed(e, schema, table);
    FramedIsOneStatement(
      e, CountSql(e, schema, table), "SELECT COUNT(*) AS row_count FROM ", schema, table, "");
  }

  // Names that are safe to quote make no cut, and neither do names without a semicolon.
  lemma NamesWithoutCut(e: Engine, schema: string, table: string)
    requires (SafeName(e, schema) && SafeName(e, table)) || (';' !in schema && ';' !in table)
    ensures NoCut(DialectOf(e), Qualify(e, schema, table))
  {
    if SafeName(e, schema) && SafeName(e, table) {
      hide NoCut, Qualify, SafeName;
      QualifiedFragment(e, schema, table);
    } else {
      hide Run, Inside, Doubled, SafeName;
      DoublingKeepsRunes(CloseMark(e), ';', schema);
      DoublingKeepsRunes(CloseMark(e), ';', table);
      assert ';' !in Qualify(e, schema, table);
    }
  }

  // A name that is not safe can carry a statement of its own out of its quotes.
  lemma UnsafeNameSplits()
    ensures var table := "\\\";x";
      && !SafeName(PostgreSQL, table)
      && !IsOneStatement(PostgreSQL, PreviewSql(PostgreSQL, "", table, 1))
  {
    hide LexSplit, IsOneStatement, OnlyComments, Stripped;
    var table := "\\\";x";
    var d := DialectOf(PostgreSQL);
    var a := "SELECT * FROM ";
    var b := "\"\\\"\";";
    var t := PreviewSql(PostgreSQL, "", table, 1);
    UnsafeShape();
    var rest := t[|a| + 5..];
    assert t == (a + b) + rest;
    RunOfUnsafe(d, a, b);
    RunPrefix(d, START, a + b, rest, |a| + 4);
    assert CutAt(d, START, t, |a| + 4);
    PrintedEnds(PostgreSQL, "", table, 1);
    OneStatementIff(PostgreSQL, t);
  }

  lemma UnsafeShape()
    ensures var t := PreviewSql(PostgreSQL, "", "\\\";x", 1);
      |t| > 19 && t[..19] == "SELECT * FROM " + "\"\\\"\";"
    ensures !SafeName(PostgreSQL, "\\\";x")
  {
    var table := "\\\";x";
    assert table[1..] == "\";x" && table[1..][1..] == ";x" && ";x"[1..] == "x" && "x"[1..] == "";
    assert Doubled('"', "x") == "x" && Doubled('"', ";x") == ";x";
    assert Doubled('"', "\";x") == "\"\";x";
    assert Doubled('"', table) == "\\\"\";x";
  }

  lemma RunOfUnsafe(d: Dialect, a: string, b: string)
    requires d == DialectOf(PostgreSQL) && a == "SELECT * FROM " && b == "\"\\\"\";"
    ensures Run(d, START, a + b, |a| + 4) == Closing('"')
  {
    PlainFragment(d, a);
    SettledByLast(d, a);
    assert Run(d, START, b, 1) == Quoted('"');
    assert Run(d, START, b, 2) == Escape('"');
    assert Run(d, START, b, 3) == Quoted('"');
    assert Run(d, START, b, 4) == Closing('"');
    hide Run;
    RunConcat(d, START, a, b, 4);
  }

  /* ---- reading both texts back ---- */

  function DigitsEnd(s: string, i: nat): (k: nat)
    requires i <= |s|
    ensures i <= k <= |s|
    ensures forall j :: i <= j < k ==> '0' <= s[j] <= '9'
    decreases |s| - i
  {
    if i < |s| && '0' <= s[i] <= '9' then DigitsEnd(s, i + 1) else i
  }

  // A number and what stands behind it.
  function ReadNumber(s: string): Option<(nat, string)> {
    var k := DigitsEnd(s, 0);
    if k == 0 then None else Some((DecimalValue(s[..k]), s[k..]))
  }

  // Schema, table and number of rows asked for.
  function ReadPreview(e: Engine, s: string): Option<(string, string, nat)> {
    if e == SQLServer then
      var a :- Skip("SELECT TOP ", s);
      var n :- ReadNumber(a);
      var b :- Skip(" * FROM ", n.1);
      var name :- ReadQualified(e, b);
      Some((name.0, name.1, n.0))
    else
      var a :- Skip("SELECT * FROM ", s);
      var name :- ReadName(e, a);
      var b :- Skip(" LIMIT ", name.1);
      var n :- ReadNumber(b);
      if n.1 == "" then Some((name.0.0, name.0.1, n.0)) else None
  }

  function ReadCount(e: Engine, s: string): Option<(string, string)> {
    var a :- Skip("SELECT COUNT(*) AS row_count FROM ", s);
    ReadQualified(e, a)
  }

  lemma {:induction false} DigitsEndIs(s: string, i: nat, k: nat)
    requires i <= k <= |s| && (forall j :: i <= j < k ==> '0' <= s[j] <= '9')
    requires k < |s| ==> !('0' <= s[k] <= '9')
    ensures DigitsEnd(s, i) == k
    decreases k - i
  {
    if i < k {
      DigitsEndIs(s, i + 1, k);
    }
  }

  lemma ReadNumberOfDecimal(n: nat, rest: string)
    requires rest != "" ==> !('0' <= rest[0] <= '9')
    ensures ReadNumber(Decimal(n) + rest) == Some((n, rest))
  {
    hide Decimal, DecimalValue;
    var d := Decimal(n);
    DigitsEndIs(d + rest, 0, |d|);
    DecimalRoundTrip(n);
    assert (d + rest)[..|d|] == d && (d + rest)[|d|..] == rest;
  }

  // The preview asks for the table it was given and for as many rows: the limit if
  // that is positive and 500 otherwise, behind TOP on SQL Server and LIMIT elsewhere.
  lemma PreviewReadsBack(e: Engine, schema: string, table: string, limit: int)
    ensures ReadPreview(e, PreviewSql(e, schema, table, limit)) ==
      Some((schema, table, if limit > 0 then limit else 500))
  {
    hide Decimal, Qualify, ReadName, ReadQualified, ReadNumber, Skip;
    var n: nat := if limit > 0 then limit else 500;
    var ref, d := Qualify(e, schema, table), Decimal(n);
    if e == SQLServer {
      assert PreviewSql(e, schema, table, limit) == "SELECT TOP " + (d + (" * FROM " + ref));
      SkipWord("SELECT TOP ", d + (" * FROM " + ref));
      ReadNumberOfDecimal(n, " * FROM " + ref);
      SkipWord(" * FROM ", ref);
      QualifyRoundTrip(e, schema, table);
    } else {
      assert PreviewSql(e, schema, table, limit) == "SELECT * FROM " + (ref + (" LIMIT " + d));
      SkipWord("SELECT * FROM ", ref + (" LIMIT " + d));
      ReadNameOfQualified(e, schema, table, " LIMIT " + d);
      SkipWord(" LIMIT ", d);
      assert d + "" == d;
      ReadNumberOfDecimal(n, "");
    }
  }

  lemma CountReadsBack(e: Engine, schema: string, table: string)
    ensures ReadCount(e, CountSql(e, schema, table)) == Some((schema, table))
  {
    hide Qualify, ReadQualified, Skip;
    SkipWord("SELECT COUNT(*) AS row_count FROM ", Qualify(e, schema, table));
    QualifyRoundTrip(e, schema, table);
  }

  // So different tables or different positive limits print different previews.
  lemma PreviewInjective(e: Engine, s1: string, t1: string, l1: int, s2: string, t2: string, l2: int)
    requires l1 > 0 && l2 > 0 && PreviewSql(e, s1, t1, l1) == PreviewSql(e, s2, t2, l2)
    ensures s1 == s2 && t1 == t2 && l1 == l2
  {
    hide PreviewSql, ReadPreview;
    PreviewReadsBack(e, s1, t1, l1);
    PreviewReadsBack(e, s2, t2, l2);
  }
}

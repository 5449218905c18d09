/** Session.Execute and its read-only guard (core/dbcore/query.go:82-117 and
    core/dbcore/session.go:279-293). */
module Execution {
  import opened Wrappers
  import opened Text
  import opened Lexer
  import opened Leading
  import opened Splitter
  import opened SplitLaws
  import opened Classifier
  import opened Quoting
  import opened Fragments
  import opened OneStatement
  import opened BatchLaws
  import opened Printers

  datatype Error = NothingToRun | ParametersNeedOneStatement | ReadOnlyRefuses(keyword: string)

  datatype Result<T> = Ok(value: T) | Err(error: Error)

  // What one statement produced; an empty error means it succeeded.
  datatype StatementResult = StatementResult(statement: string, kind: Kind, error: string)

  // The database: it records what it is sent. Its reply to a statement may depend
  // on everything sent so far, and is otherwise unknown.
  class Database {
    const reply: seq<string> -> string
    var sent: seq<string>

    constructor (reply: seq<string> -> string)
      ensures sent == [] && this.reply == reply
    {
      this.reply := reply;
      sent := [];
    }

    method Run(statement: string) returns (error: string)
      modifies this
      ensures sent == old(sent) + [statement] && error == reply(sent)
    {
      sent := sent + [statement];
      error := reply(sent);
    }
  }

  function Texts(e: Engine, sql: string): (ts: seq<string>)
    ensures |ts| == |Split(e, sql)|
    ensures forall k :: 0 <= k < |ts| ==> ts[k] == Split(e, sql)[k].text
  {
    var sts := Split(e, sql);
    seq(|sts|, k requires 0 <= k < |sts| => sts[k].text)
  }

  function Guard(readOnly: bool, sql: string): Option<Error> {
    if !readOnly || IsReadOnly(sql) then None else Some(ReadOnlyRefuses(FirstKeyword(sql)))
  }

  // Why a batch is refused before anything is sent.
  function Refusal(readOnly: bool, texts: seq<string>, args: nat): Option<Error> {
    if texts == [] then Some(NothingToRun)
    else if args > 0 && |texts| > 1 then Some(ParametersNeedOneStatement)
    else FirstRefused(readOnly, texts)
  }

  function FirstRefused(readOnly: bool, texts: seq<string>): Option<Error> {
    if texts == [] then None
    else
      var first := Guard(readOnly, texts[0]);
      if first.Some? then first else FirstRefused(readOnly, texts[1..])
  }

  // What running the statements one after another yields, given what was sent before.
  function Executed(reply: seq<string> -> string, sent: seq<string>, texts: seq<string>, stopOnError: bool)
    : seq<StatementResult>
    decreases |texts|
  {
    if texts == [] then []
    else
      var log := sent + [texts[0]];
      var error := reply(log);
      var rest := if error != "" && stopOnError then [] else Executed(reply, log, texts[1..], stopOnError);
      [StatementResult(texts[0], Classify(texts[0]), error)] + rest
  }

  function Statements(rs: seq<StatementResult>): (ts: seq<string>)
    ensures |ts| == |rs| && forall k :: 0 <= k < |rs| ==> ts[k] == rs[k].statement
  {
    seq(|rs|, k requires 0 <= k < |rs| => rs[k].statement)
  }

  class Session {
    const engine: Engine
    const readOnly: bool
    const db: Database

    constructor (engine: Engine, readOnly: bool, db: Database)
      ensures this.engine == engine && this.readOnly == readOnly && this.db == db
    {
      this.engine, this.readOnly, this.db := engine, readOnly, db;
    }

    method Execute(sql: string, args: nat, stopOnError: bool) returns (r: Result<seq<StatementResult>>)
      modifies db
      ensures var refusal := Refusal(readOnly, Texts(engine, sql), args);
        if refusal.Some? then r == Err(refusal.value) && db.sent == old(db.sent)
        else
          && r == Ok(Executed(db.reply, old(db.sent), Texts(engine, sql), stopOnError))
          && db.sent == old(db.sent) + Statements(r.value)
    {
      hide *;
      var statements := SplitStatements(engine, sql);
      ghost var texts := Texts(engine, sql);
      RefusalIs(readOnly, texts, args);
      if |statements| == 0 {
        return Err(NothingToRun);
      }
      if args > 0 && |statements| > 1 {
        return Err(ParametersNeedOneStatement);
      }
      assert texts[0..] == texts;
      for k := 0 to |statements|
        invariant db.sent == old(db.sent)
        invariant FirstRefused(readOnly, texts) == FirstRefused(readOnly, texts[k..])
      {
        FirstRefusedStep(readOnly, texts, k);
        var refused := Guard(readOnly, statements[k].text);
        if refused.Some? {
          return Err(refused.value);
        }
      }
      FirstRefusedStep(readOnly, texts, |texts|);
      var results: seq<StatementResult> := [];
      ghost var before := db.sent;
      ghost var all := Executed(db.reply, before, texts, stopOnError);
      assert before + Statements(results) == before && results + all == all;
      for k := 0 to |statements|
        invariant db.sent == before + Statements(results)
        invariant all == results + Executed(db.reply, db.sent, texts[k..], stopOnError)
      {
        ResultStep(db.reply, before, results, texts, k, stopOnError);
        var kind := ClassifyStatement(statements[k].text);
        var error := db.Run(statements[k].text);
        results := results + [StatementResult(statements[k].text, kind, error)];
        if error != "" && stopOnError {
          break;
        }
      }
      ResultsDone(db.reply, before, results, texts, stopOnError);
      return Ok(results);
    }
  }

  // One more result: what it is, what has been sent with it, and what is still to come.
  lemma ResultStep(
    reply: seq<string> -> string, before: seq<string>, results: seq<StatementResult>, texts: seq<string>, k: nat,
    stopOnError: bool)
    requires k < |texts|
    ensures var log := before + Statements(results) + [texts[k]];
      var more := results + [StatementResult(texts[k], Classify(texts[k]), reply(log))];
      && before + Statements(more) == log
      && results + Executed(reply, before + Statements(results), texts[k..], stopOnError) ==
           more + (if reply(log) != "" && stopOnError then []
                   else Executed(reply, log, texts[k + 1..], stopOnError))
      && more + [] == more
  {
    hide Classify, Executed;
    ExecutedStep(reply, before + Statements(results), texts, k, stopOnError);
    var log := before + Statements(results) + [texts[k]];
    var result := StatementResult(texts[k], Classify(texts[k]), reply(log));
    assert Statements(results + [result]) == Statements(results) + [texts[k]];
  }

  lemma ResultsDone(
    reply: seq<string> -> string, before: seq<string>, results: seq<StatementResult>, texts: seq<string>,
    stopOnError: bool)
    ensures results + Executed(reply, before + Statements(results), texts[|texts|..], stopOnError) == results
  {
    ExecutedStep(reply, before + Statements(results), texts, |texts|, stopOnError);
  }

  lemma RefusalIs(readOnly: bool, texts: seq<string>, args: nat)
    ensures Refusal(readOnly, texts, args) ==
      if texts == [] then Some(NothingToRun)
      else if args > 0 && |texts| > 1 then Some(ParametersNeedOneStatement)
      else FirstRefused(readOnly, texts)
  {
  }

  lemma FirstRefusedStep(readOnly: bool, texts: seq<string>, k: nat)
    requires k <= |texts|
    ensures FirstRefused(readOnly, texts[k..]) ==
      if k == |texts| then None
      else if Guard(readOnly, texts[k]).Some? then Guard(readOnly, texts[k])
      else FirstRefused(readOnly, texts[k + 1..])
  {
    hide Guard;
    if k < |texts| {
      assert texts[k..][1..] == texts[k + 1..];
    }
  }

  lemma ExecutedStep(reply: seq<string> -> string, sent: seq<string>, texts: seq<string>, k: nat, stopOnError: bool)
    requires k <= |texts|
    ensures Executed(reply, sent, texts[k..], stopOnError) ==
      if k == |texts| then []
      else
        var log := sent + [texts[k]];
        [StatementResult(texts[k], Classify(texts[k]), reply(log))] +
        (if reply(log) != "" && stopOnError then [] else Executed(reply, log, texts[k + 1..], stopOnError))
  {
    hide Classify;
    if k < |texts| {
      assert texts[k..][1..] == texts[k + 1..];
    }
  }

  /* ---- laws ---- */

  // A batch passes the guard exactly when the session may write or every
  // statement of it is a read.
  lemma {:induction false} AllAdmitted(readOnly: bool, texts: seq<string>)
    ensures FirstRefused(readOnly, texts).None? <==>
      !readOnly || forall k :: 0 <= k < |texts| ==> IsReadOnly(texts[k])
  {
    hide IsReadOnly, FirstKeyword;
    if texts != [] {
      AllAdmitted(readOnly, texts[1..]);
      assert texts == [texts[0]] + texts[1..];
    }
  }

  // r is what the k-th statement yields, after those before it.
  ghost predicate IsResult(
    reply: seq<string> -> string, sent: seq<string>, texts: seq<string>, k: nat, r: StatementResult)
    requires k < |texts|
  {
    r.statement == texts[k] && r.kind == Classify(texts[k]) && r.error == reply(sent + texts[..k + 1])
  }

  // The results are a prefix of the statements, in order. They stop short only
  // after a failure with StopOnError set, and then at that failure.
  lemma {:induction false} ResultsAlign(
    reply: seq<string> -> string, sent: seq<string>, texts: seq<string>, stopOnError: bool)
    ensures var rs := Executed(reply, sent, texts, stopOnError);
      && (texts != [] ==> rs != [])
      && |rs| <= |texts|
      && (forall k :: 0 <= k < |rs| ==> IsResult(reply, sent, texts, k, rs[k]))
      && (|rs| < |texts| ==> stopOnError && rs[|rs| - 1].error != "")
      && (stopOnError ==> forall k :: 0 <= k < |rs| - 1 ==> rs[k].error == "")
    decreases |texts|
  {
    hide Classify, Executed;
    ExecutedStep(reply, sent, texts, 0, stopOnError);
    assert texts[0..] == texts;
    if texts != [] {
      var log := sent + [texts[0]];
      ResultsAlign(reply, log, texts[1..], stopOnError);
      var rs := Executed(reply, sent, texts, stopOnError);
      var rest := Executed(reply, log, texts[1..], stopOnError);
      assert texts[..1] == [texts[0]];
      forall k | 1 <= k < |rs| ensures IsResult(reply, sent, texts, k, rs[k]) {
        assert rs[k] == rest[k - 1];
        assert IsResult(reply, log, texts[1..], k - 1, rest[k - 1]);
        SentSoFar(sent, texts, k);
      }
    }
  }

  lemma SentSoFar(sent: seq<string>, texts: seq<string>, k: nat)
    requires 1 <= k < |texts|
    ensures sent + [texts[0]] + texts[1..][..k] == sent + texts[..k + 1]
  {
    assert texts[..k + 1] == [texts[0]] + texts[1..][..k];
  }

  // On a read-only session every statement that reaches the database is a read.
  lemma OnlyReadsAreSent(
    reply: seq<string> -> string, sent: seq<string>, texts: seq<string>, args: nat, stopOnError: bool)
    requires Refusal(true, texts, args).None?
    ensures forall t :: t in Statements(Executed(reply, sent, texts, stopOnError)) ==> IsReadOnly(t)
  {
    hide IsReadOnly, Classify, FirstKeyword;
    AllAdmitted(true, texts);
    ResultsAlign(reply, sent, texts, stopOnError);
  }

  // And it begins with one of these words.
  lemma SentBeginsAllowed(
    reply: seq<string> -> string, sent: seq<string>, texts: seq<string>, args: nat, stopOnError: bool)
    requires Refusal(true, texts, args).None?
    ensures forall t :: t in Statements(Executed(reply, sent, texts, stopOnError)) ==>
      var first := FirstKeyword(t);
      || first in {"SELECT", "TABLE", "VALUES", "SHOW", "EXPLAIN", "DESCRIBE", "DESC", "PRINT"}
      || (first == "PRAGMA" && '=' !in t)
      || (first == "WITH" && NoStandingWrite(t))
  {
    hide IsReadOnly, FirstKeyword, NoStandingWrite, Executed;
    OnlyReadsAreSent(reply, sent, texts, args, stopOnError);
    forall t | t in Statements(Executed(reply, sent, texts, stopOnError)) ensures IsReadOnly(t) {
    }
    forall t ensures IsReadOnly(t) <==>
      var first := FirstKeyword(t);
      || first in {"SELECT", "TABLE", "VALUES", "SHOW", "EXPLAIN", "DESCRIBE", "DESC", "PRINT"}
      || (first == "PRAGMA" && '=' !in t)
      || (first == "WITH" && NoStandingWrite(t))
    {
      ReadOnlyIff(t);
    }
  }

  // The first statement that is no read.
  predicate FirstWrite(texts: seq<string>, k: nat) {
    k < |texts| && !IsReadOnly(texts[k]) && forall t :: t in texts[..k] ==> IsReadOnly(t)
  }

  // Why a batch is refused, and that nothing else refuses it.
  lemma RefusedIff(readOnly: bool, texts: seq<string>, args: nat)
    ensures var r := Refusal(readOnly, texts, args);
      && (r == Some(NothingToRun) <==> |texts| == 0)
      && (r == Some(ParametersNeedOneStatement) <==> args >= 1 && |texts| >= 2)
      && (r.None? <==>
            |texts| >= 1 && (args == 0 || |texts| == 1) && (!readOnly || forall t :: t in texts ==> IsReadOnly(t)))
      && forall word :: r == Some(ReadOnlyRefuses(word)) ==>
            readOnly && exists k: nat :: FirstWrite(texts, k) && word == FirstKeyword(texts[k])
  {
    hide IsReadOnly, FirstKeyword, FirstWrite;
    AllAdmitted(readOnly, texts);
    FirstRefusedIs(readOnly, texts);
  }

  lemma {:induction false} FirstRefusedIs(readOnly: bool, texts: seq<string>)
    ensures var r := FirstRefused(readOnly, texts);
      r.Some? ==>
        && r.value.ReadOnlyRefuses? && readOnly
        && exists k: nat :: FirstWrite(texts, k) && r.value.keyword == FirstKeyword(texts[k])
  {
    hide IsReadOnly, FirstKeyword;
    if FirstRefused(readOnly, texts).Some? {
      if IsReadOnly(texts[0]) || !readOnly {
        FirstRefusedIs(readOnly, texts[1..]);
        var r := FirstRefused(readOnly, texts[1..]);
        var k: nat :| FirstWrite(texts[1..], k) && r.value.keyword == FirstKeyword(texts[1..][k]);
        assert texts[..k + 1] == [texts[0]] + texts[1..][..k];
        assert texts[k + 1] == texts[1..][k];
        assert FirstWrite(texts, k + 1);
      } else {
        assert texts[..0] == [];
        assert FirstWrite(texts, 0);
      }
    }
  }

  // Each text a read-only session sends is moreover one statement, so that the keyword
  // it was judged by is that of all of it. On SQL Server this fails exactly for texts
  // that a GO line cut out of a region, where they can have a cut inside.
  lemma SentAreSingle(
    e: Engine, reply: seq<string> -> string, sent: seq<string>, sql: string, args: nat, stopOnError: bool)
    requires Refusal(true, Texts(e, sql), args).None?
    ensures forall t :: t in Statements(Executed(reply, sent, Texts(e, sql), stopOnError)) ==>
      && IsReadOnly(t)
      && (IsOneStatement(e, t) <==> (e.SQLServer? ==> NoInnerCut(DialectOf(e), t)))
    ensures e.SQLServer? && AllGoOutside(sql) ==>
      forall t :: t in Statements(Executed(reply, sent, Texts(e, sql), stopOnError)) ==> IsOneStatement(e, t)
  {
    hide Split, IsReadOnly, Classify, FirstKeyword, IsOneStatement, NoInnerCut, AllGoOutside, OnlyComments, Executed;
    OnlyReadsAreSent(reply, sent, Texts(e, sql), args, stopOnError);
    ResultsAlign(reply, sent, Texts(e, sql), stopOnError);
    var ts := Statements(Executed(reply, sent, Texts(e, sql), stopOnError));
    forall k: nat | k < |ts|
      ensures IsOneStatement(e, ts[k]) <==> (e.SQLServer? ==> NoInnerCut(DialectOf(e), ts[k]))
      ensures e.SQLServer? && AllGoOutside(sql) ==> IsOneStatement(e, ts[k])
    {
      assert ts[k] == Split(e, sql)[k].text && ts[k] in ts;
      ReadIsSingle(e, sql, k);
    }
  }

  lemma ReadIsSingle(e: Engine, sql: string, k: nat)
    requires k < |Split(e, sql)| && IsReadOnly(Split(e, sql)[k].text)
    ensures var t := Split(e, sql)[k].text;
      IsOneStatement(e, t) <==> (e.SQLServer? ==> NoInnerCut(DialectOf(e), t))
    ensures e.SQLServer? && AllGoOutside(sql) ==> IsOneStatement(e, Split(e, sql)[k].text)
  {
    hide Split, IsReadOnly, Classify, FirstKeyword, IsOneStatement, NoInnerCut, AllGoOutside, OnlyComments;
    if OnlyComments(Split(e, sql)[k].text) {
      CommentsAreNoRead(Split(e, sql)[k].text);
    }
    if e.SQLServer? {
      ResplitSqlServerIff(sql, k);
      if AllGoOutside(sql) {
        ResplitSqlServer(sql, k);
      }
    } else {
      ResplitStable(e, sql, k);
    }
  }

  // Such a text: a literal with a GO line in it is sent in two parts, and the second
  // holds a semicolon that the lexer, started afresh, cuts at.
  lemma GoInLiteralIsSent()
    ensures var sql := "DESC '\nGO\nDESC;'";
      && Texts(SQLServer, sql) == ["DESC '", "DESC;'"]
      && Refusal(true, Texts(SQLServer, sql), 0).None?
      && !IsOneStatement(SQLServer, "DESC;'")
  {
    hide LexSplit, Lines, GoPieces, IsReadOnly, FirstKeyword, IsOneStatement, OnlyComments, CutAt, IsGoSeparator, Trimmed;
    var sql := "DESC '\nGO\nDESC;'";
    var st := Statement(sql, 0, |sql|);
    LiteralIsWhole();
    GoSplitOne(st);
    LiteralLines();
    TwoPieces(st, "DESC '", "DESC;'");
    assert Texts(SQLServer, sql) == ["DESC '", "DESC;'"];
    DescIsRead("DESC '");
    DescIsRead("DESC;'");
    AllAdmitted(true, ["DESC '", "DESC;'"]);
    DescCuts();
    OneStatementIff(SQLServer, "DESC;'");
  }

  lemma DescCuts()
    ensures CutAt(DialectOf(SQLServer), START, "DESC;'", 4) && Trimmed("DESC;'")
  {
    var d, t := DialectOf(SQLServer), "DESC;'";
    PlainRun(d, t, 4);
  }

  lemma DescIsRead(t: string)
    requires |t| > 4 && t[..4] == "DESC" && !StartsWord(t[4])
    ensures IsReadOnly(t)
  {
    hide Stripped, LeadingEnd;
    assert t[0] == "DESC"[0] && t[1] == "DESC"[1] && t[2] == "DESC"[2] && t[3] == "DESC"[3];
    WordIsNoComment(t);
    KeywordEndIs(t, 0, 4);
    assert ToUpper("DESC") == "DESC";
    hide FirstKeyword;
  }

  lemma LiteralLines()
    ensures Lines("DESC '\nGO\nDESC;'") == ["DESC '", "GO", "DESC;'"]
    ensures !IsGoSeparator("DESC '") && !IsGoSeparator("DESC;'") && Trimmed("DESC '") && Trimmed("DESC;'")
  {
    hide Lines, IsGoSeparator;
    ThreeLines("DESC '", "GO", "DESC;'");
    assert "DESC '" + "\n" + ("GO" + "\n" + "DESC;'") == "DESC '\nGO\nDESC;'";
    WalledLine("DESC '", 0);
    WalledLine("DESC;'", 0);
  }

  lemma LiteralIsWhole()
    ensures var sql := "DESC '\nGO\nDESC;'";
      LexSplit(DialectOf(SQLServer), sql) == [Statement(sql, 0, |sql|)]
  {
    hide *;
    var sql, d := "DESC '\nGO\nDESC;'", DialectOf(SQLServer);
    LiteralState(d);
    OnlySemicolon(d, sql, 14);
    LiteralEnds();
    WordIsNoComment(sql);
    OnePiece(d, sql);
  }

  lemma LiteralState(d: Dialect)
    ensures Run(d, START, "DESC '\nGO\nDESC;'", 14) == Quoted('\'')
  {
    hide Run;
    InLiteral(d, "DESC ", "'\nGO\nDESC;'", 9);
    assert "DESC '\nGO\nDESC;'" == "DESC " + "'\nGO\nDESC;'";
  }

  lemma LiteralEnds()
    ensures Trimmed("DESC '\nGO\nDESC;'") && StartsWord("DESC '\nGO\nDESC;'"[0])
  {
  }

  lemma OnlySemicolon(d: Dialect, t: string, n: nat)
    requires n < |t| && Run(d, START, t, n) == Quoted('\'')
    requires forall j :: 0 <= j < |t| && t[j] == ';' ==> j == n
    ensures NoInnerCut(d, t)
  {
    hide Run;
  }

  // Behind a fragment that ends with punctuation, a text that opens a literal is read
  // as that literal.
  lemma InLiteral(d: Dialect, lead: string, literal: string, i: nat)
    requires lead != "" && Punct(lead[|lead| - 1]) && forall j :: 0 <= j < |lead| ==> Plain(lead[j])
    requires 0 < i <= |literal| && literal[0] == '\'' && forall j :: 0 < j < i ==> literal[j] !in "'\\"
    ensures Run(d, START, lead + literal, |lead| + i) == Quoted('\'')
  {
    hide Run, Fragment, Punct, Plain;
    PlainFragment(d, lead);
    SettledByLast(d, lead);
    RunConcat(d, START, lead, literal, i);
    LiteralRun(d, literal, i);
  }

  lemma {:induction false} LiteralRun(d: Dialect, r: string, i: nat)
    requires 0 < i <= |r| && r[0] == '\'' && forall j :: 0 < j < i ==> r[j] !in "'\\"
    ensures Run(d, START, r, i) == Quoted('\'')
  {
    if i > 1 {
      LiteralRun(d, r, i - 1);
    } else {
      assert Run(d, START, r, 0) == START;
    }
  }

  // The preview of a table works on every session, read-only or not, when its names
  // make no cut and hide no GO line: it is admitted and sent as the one statement it is.
  lemma PreviewRuns(
    e: Engine, readOnly: bool, schema: string, table: string, limit: int,
    reply: seq<string> -> string, sent: seq<string>, stopOnError: bool)
    requires NoCut(DialectOf(e), Qualify(e, schema, table))
    requires e.SQLServer? ==> !HidesGo(schema) && !HidesGo(table)
    ensures var sql := PreviewSql(e, schema, table, limit);
      && Refusal(readOnly, Texts(e, sql), 0).None?
      && Statements(Executed(reply, sent, Texts(e, sql), stopOnError)) == [sql]
  {
    hide PreviewSql, Split, HidesGo, NoCut, Qualify, IsReadOnly, Classify, FirstKeyword;
    var sql := PreviewSql(e, schema, table, limit);
    PreviewIsOneStatement(e, schema, table, limit);
    PreviewIsRead(e, schema, table, limit);
    assert Texts(e, sql) == [sql];
    AllAdmitted(readOnly, [sql]);
    ResultsAlign(reply, sent, [sql], stopOnError);
  }
}

/** SplitStatements and the GO-batch splitter (core/dbcore/sqltext.go:31-101 and
    183-220), proved against the cuts the reference lexer makes. */
module Splitter {
  import opened Text
  import opened Lexer
  import opened Skippers
  import opened Tokens
  import opened Leading

  datatype Statement = Statement(text: string, start: nat, end: nat)

  /* ---- what is returned, in terms of the cuts ---- */

  predicate Ascending(cs: seq<nat>, n: nat) {
    && (forall k :: 0 <= k < |cs| ==> 0 < cs[k] <= n)
    && (forall k :: 0 < k < |cs| ==> cs[k - 1] < cs[k])
  }

  function LastOf(cs: seq<nat>): nat { if cs == [] then 0 else cs[|cs| - 1] }

  // A segment becomes a statement unless it is nothing but blanks and comments.
  function Kept(r: string, start: nat, end: nat): seq<Statement>
    requires start <= end <= |r|
  {
    Worth(Statement(Trim(r[start..end]), start, end))
  }

  function Worth(st: Statement): seq<Statement> {
    if st.text != "" && !OnlyComments(st.text) then [st] else []
  }

  function Pieces(r: string, cs: seq<nat>): seq<Statement>
    requires Ascending(cs, |r|)
  {
    if cs == [] then []
    else
      var before := cs[..|cs| - 1];
      Pieces(r, before) + Kept(r, LastOf(before), LastOf(cs))
  }

  // Every segment a cut closes, then whatever follows the last cut.
  function LexSplit(d: Dialect, r: string): seq<Statement> {
    var cs := Cuts(d, r, |r|);
    Pieces(r, cs) + Kept(r, LastOf(cs), |r|)
  }

  function Split(e: Engine, sql: string): seq<Statement> {
    var cut := LexSplit(DialectOf(e), sql);
    if e.SQLServer? then GoSplit(cut) else cut
  }

  /* ---- GO batches ---- */

  // strings.Fields: the maximal runs of non-space runes.
  function Fields(s: string): seq<string>
    decreases |s|
  {
    if s == "" then []
    else if IsSpace(s[0]) then Fields(s[1..])
    else [s[..FieldEnd(s, 0)]] + Fields(s[FieldEnd(s, 0)..])
  }

  function FieldEnd(s: string, i: nat): (k: nat)
    requires i <= |s|
    ensures i <= k <= |s|
    ensures forall j :: i <= j < k ==> !IsSpace(s[j])
    ensures k < |s| ==> IsSpace(s[k])
    ensures i < |s| && !IsSpace(s[i]) ==> i < k
    decreases |s| - i
  {
    if i < |s| && !IsSpace(s[i]) then FieldEnd(s, i + 1) else i
  }

  // strconv.Atoi on a 64-bit platform succeeds.
  predicate IsInt(s: string) {
    var digits := if s != "" && (s[0] == '+' || s[0] == '-') then s[1..] else s;
    && digits != "" && AllDigits(digits)
    && DecimalValue(digits) <= (if s[0] == '-' then 0x8000_0000_0000_0000 else 0x7FFF_FFFF_FFFF_FFFF)
  }

  // strings.EqualFold(s, "GO"): no rune beyond ASCII folds to G or O.
  predicate FoldsToGo(s: string) {
    |s| == 2 && (s[0] == 'G' || s[0] == 'g') && (s[1] == 'O' || s[1] == 'o')
  }

  predicate IsGoSeparator(line: string) {
    var f := Fields(Trim(line));
    && f != [] && FoldsToGo(f[0])
    && (|f| == 1 || (|f| == 2 && IsInt(f[1])))
  }

  // The lines between GO separators, as one group per batch.
  function Batches(lines: seq<string>): (bs: seq<seq<string>>)
    ensures bs != []
  {
    if lines == [] then [[]]
    else
      var n := |lines| - 1;
      var before := Batches(lines[..n]);
      if IsGoSeparator(lines[n]) then before + [[]]
      else before[..|before| - 1] + [before[|before| - 1] + [lines[n]]]
  }

  // One statement per non-blank batch, with the span of the statement it is from.
  function BatchStatement(batch: seq<string>, st: Statement): seq<Statement> {
    var text := Trim(Join(batch, "\n"));
    if text != "" then [st.(text := text)] else []
  }

  function BatchStatements(bs: seq<seq<string>>, st: Statement): seq<Statement> {
    if bs == [] then []
    else BatchStatements(bs[..|bs| - 1], st) + BatchStatement(bs[|bs| - 1], st)
  }

  function GoPieces(st: Statement): seq<Statement> { BatchStatements(Batches(Lines(st.text)), st) }

  function GoSplit(sts: seq<Statement>): seq<Statement> {
    if sts == [] then [] else GoSplit(sts[..|sts| - 1]) + GoPieces(sts[|sts| - 1])
  }

  // The batches a GO has already ended, and the one being collected.
  function Closed(lines: seq<string>): seq<seq<string>> {
    Batches(lines)[..|Batches(lines)| - 1]
  }

  function Open(lines: seq<string>): seq<string> { Batches(lines)[|Batches(lines)| - 1] }

  lemma BatchStep(lines: seq<string>, k: nat, st: Statement)
    requires k < |lines|
    ensures IsGoSeparator(lines[k]) ==>
      && Open(lines[..k + 1]) == []
      && BatchStatements(Closed(lines[..k + 1]), st) ==
           BatchStatements(Closed(lines[..k]), st) + BatchStatement(Open(lines[..k]), st)
    ensures !IsGoSeparator(lines[k]) ==>
      && Open(lines[..k + 1]) == Open(lines[..k]) + [lines[k]]
      && Closed(lines[..k + 1]) == Closed(lines[..k])
  {
    hide IsGoSeparator, BatchStatement;
    assert lines[..k + 1][..k] == lines[..k];
    var before := Batches(lines[..k]);
    if IsGoSeparator(lines[k]) {
      assert Closed(lines[..k + 1]) == before;
    }
  }

  lemma LastBatch(lines: seq<string>, st: Statement)
    ensures BatchStatements(Batches(lines), st) ==
      BatchStatements(Closed(lines), st) + BatchStatement(Open(lines), st)
  {
  }

  method SplitOnGoBatches(statements: seq<Statement>) returns (out: seq<Statement>)
    ensures out == GoSplit(statements)
  {
    hide Batches, Lines, Open, Closed, BatchStatements, IsGoSeparator, Join, Trim;
    out := [];
    for n := 0 to |statements|
      invariant out == GoSplit(statements[..n])
    {
      var st := statements[n];
      var lines := Lines(st.text);
      var buf: seq<string> := [];
      ghost var done := out;
      NoBatchYet(st);
      for k := 0 to |lines|
        invariant out == done + BatchStatements(Closed(lines[..k]), st)
        invariant buf == Open(lines[..k])
      {
        BatchStep(lines, k, st);
        if IsGoSeparator(lines[k]) {
          var joined := Trim(Join(buf, "\n"));
          if joined != "" {
            out := out + [Statement(joined, st.start, st.end)];
          }
          buf := [];
          continue;
        }
        buf := buf + [lines[k]];
      }
      assert lines[..|lines|] == lines;
      LastBatch(lines, st);
      var joined := Trim(Join(buf, "\n"));
      if joined != "" {
        out := out + [Statement(joined, st.start, st.end)];
      }
      assert statements[..n + 1][..n] == statements[..n];
    }
    assert statements[..|statements|] == statements;
  }

  lemma NoBatchYet(st: Statement)
    ensures Open([]) == [] && BatchStatements(Closed([]), st) == []
  {
  }

  /* ---- the splitting loop ---- */

  // The flush closure: keeps the segment [start, end) and moves the start.
  method Flush(r: string, out: seq<Statement>, start: nat, end: nat)
    returns (grown: seq<Statement>, next: nat)
    requires start <= end <= |r|
    ensures grown == out + Kept(r, start, end) && next == end
  {
    var text := Trim(r[start..end]);
    grown := out;
    if text != "" {
      var rest := StripLeading(text);
      if rest != "" {
        grown := out + [Statement(text, start, end)];
      }
    }
    next := end;
  }

  // The loop may stand at i: everything cut so far is in out, and start is the
  // last cut.
  ghost predicate Ready(d: Dialect, r: string, i: nat, out: seq<Statement>, start: nat)
  {
    && i <= |r| && AtToken(Run(d, START, r, i), r, i)
    && out == Pieces(r, Cuts(d, r, i)) && start == LastOf(Cuts(d, r, i))
  }

  method SplitStatements(engine: Engine, sql: string) returns (out: seq<Statement>)
    ensures out == Split(engine, sql)
  {
    hide Run, Ready, Pieces, Kept, LexSplit, Split, GoSplit, Resume, TagCloses, IdentEnd;
    ghost var d := DialectOf(engine);
    var r := sql;
    var start := 0;
    out := [];
    var i := 0;
    ReadyAtStart(d, r);
    while i < |r|
      invariant i <= |r| && start <= |r| && Ready(d, r, i, out, start)
      decreases |r| - i
    {
      ghost var from := i;
      if r[i] == '\'' {
        DelimiterReady(engine, r, i, out, start);
        i := SkipQuoted(r, i, '\'');
      } else if r[i] == '"' && engine != MySQL {
        DelimiterReady(engine, r, i, out, start);
        i := SkipQuoted(r, i, '"');
      } else if r[i] == '`' && engine == MySQL {
        DelimiterReady(engine, r, i, out, start);
        i := SkipQuoted(r, i, '`');
      } else if r[i] == '[' && engine == SQLServer {
        DelimiterReady(engine, r, i, out, start);
        i := SkipUntil(r, i + 1, ']');
        BracketResume(r, from + 1, i);
      } else if r[i] == '-' && i + 1 < |r| && r[i + 1] == '-' {
        CommentReady(engine, r, i, out, start);
        i := SkipLineComment(r, i);
      } else if r[i] == '#' && engine == MySQL {
        DelimiterReady(engine, r, i, out, start);
        i := SkipLineComment(r, i);
      } else if r[i] == '/' && i + 1 < |r| && r[i + 1] == '*' {
        CommentReady(engine, r, i, out, start);
        i := SkipBlockComment(r, i);
      } else if r[i] == '$' && engine == PostgreSQL {
        var next, ok := SkipDollarQuoted(r, i);
        if ok {
          DollarReady(engine, r, i, out, start);
          i := next;
        } else {
          SingleReady(engine, r, i, out, start);
          i := i + 1;
        }
      } else if r[i] == ';' {
        SemicolonReady(engine, r, i, out, start);
        out, start := Flush(r, out, start, i + 1);
        i := i + 1;
      } else {
        SingleReady(engine, r, i, out, start);
        i := i + 1;
      }
    }
    FlushedIsLexSplit(d, r, out, start);
    out, start := Flush(r, out, start, |r|);
    SplitIsBatched(engine, sql);
    if engine == SQLServer {
      out := SplitOnGoBatches(out);
    }
  }

  /* ---- one lemma per branch of the loop ---- */

  lemma ReadyAtStart(d: Dialect, r: string)
    ensures Ready(d, r, 0, [], 0)
  {
  }

  lemma FlushedIsLexSplit(d: Dialect, r: string, out: seq<Statement>, start: nat)
    requires Ready(d, r, |r|, out, start)
    ensures start <= |r| && out + Kept(r, start, |r|) == LexSplit(d, r)
  {
  }

  lemma SplitIsBatched(e: Engine, sql: string)
    ensures Split(e, sql) ==
      if e == SQLServer then GoSplit(LexSplit(DialectOf(e), sql)) else LexSplit(DialectOf(e), sql)
  {
  }

  lemma DelimiterReady(e: Engine, r: string, i: nat, out: seq<Statement>, start: nat)
    requires Ready(DialectOf(e), r, i, out, start) && i < |r|
    requires
      || r[i] == '\'' || (r[i] == '"' && e != MySQL) || (r[i] == '`' && e == MySQL)
      || (r[i] == '[' && e == SQLServer) || (r[i] == '#' && e == MySQL)
    ensures var k :=
        if r[i] == '[' then Resume(Bracket, r, i + 1)
        else if r[i] == '#' then Resume(Line, r, i)
        else Resume(Quoted(r[i]), r, i + 1);
      i < k <= |r| && Ready(DialectOf(e), r, k, out, start)
  {
    hide Run, Cuts, WordsUpTo, Pieces;
    DelimiterJump(DialectOf(e), r, i);
    if r[i] == '#' {
      assert Resume(Line, r, i) == Resume(Line, r, i + 1);
    }
  }

  lemma CommentReady(e: Engine, r: string, i: nat, out: seq<Statement>, start: nat)
    requires Ready(DialectOf(e), r, i, out, start) && i < |r| && CommentOpens(r, i)
    ensures i < CommentEnd(r, i) && Ready(DialectOf(e), r, CommentEnd(r, i), out, start)
    ensures CommentEnd(r, i) == if r[i] == '-' then Resume(Line, r, i) else Resume(Block(1), r, i + 2)
  {
    hide Run, Cuts, WordsUpTo, Pieces;
    CommentJump(DialectOf(e), r, i);
  }

  lemma DollarReady(e: Engine, r: string, i: nat, out: seq<Statement>, start: nat)
    requires Ready(DialectOf(e), r, i, out, start)
    requires i < |r| && r[i] == '$' && e == PostgreSQL && TagCloses(r, i + 1)
    ensures var j := IdentEnd(r, i + 1);
      && i < j < |r|
      && Ready(DialectOf(e), r, Resume(Body(r[i..j + 1], ""), r, j + 1), out, start)
  {
    hide Run, Cuts, WordsUpTo, Pieces;
    DollarJump(DialectOf(e), r, i);
  }

  lemma SingleReady(e: Engine, r: string, i: nat, out: seq<Statement>, start: nat)
    requires Ready(DialectOf(e), r, i, out, start)
    requires i < |r| && r[i] != ';' && !CommentOpens(r, i) && !Region(Enter(DialectOf(e), r[i]))
    requires r[i] == '$' && e == PostgreSQL ==> !TagCloses(r, i + 1)
    ensures Ready(DialectOf(e), r, i + 1, out, start)
  {
    hide Run, Cuts, WordsUpTo, Pieces, CutAt;
    SingleStep(DialectOf(e), r, i);
    CutStep(DialectOf(e), r, i);
  }

  lemma SemicolonReady(e: Engine, r: string, i: nat, out: seq<Statement>, start: nat)
    requires Ready(DialectOf(e), r, i, out, start) && i < |r| && r[i] == ';'
    ensures start <= i + 1
    ensures Ready(DialectOf(e), r, i + 1, out + Kept(r, start, i + 1), i + 1)
  {
    hide Run, Cuts, WordsUpTo, CutAt, Kept, Pieces;
    SingleStep(DialectOf(e), r, i);
    CutStep(DialectOf(e), r, i);
  }

  lemma CutStep(d: Dialect, r: string, i: nat)
    requires i < |r|
    ensures var cs := Cuts(d, r, i);
      if CutAt(d, START, r, i) then
        && Cuts(d, r, i + 1) == cs + [i + 1]
        && Pieces(r, cs + [i + 1]) == Pieces(r, cs) + Kept(r, LastOf(cs), i + 1)
      else Cuts(d, r, i + 1) == cs
  {
    hide CutAt, Kept;
    var cs := Cuts(d, r, i);
    assert (cs + [i + 1])[..|cs|] == cs;
  }
}

/** What separates statements, in plain terms: which semicolons do for each engine
    (core/dbcore/sqltext.go:54-92), and which lines do on SQL Server (183-220). */
module Separators {
  import opened Text
  import opened Lexer
  import opened Skippers
  import opened Reading
  import opened Splitter
  import opened GoLaws
  import opened OneStatement

  /* ---- semicolons ---- */

  // A span ends behind exactly those semicolons that stand by themselves.
  lemma SemicolonsThatSeparate(e: Engine, sql: string, j: nat)
    requires j + 1 < |sql|
    ensures IsEnd(Split(e, sql), j + 1) <==> sql[j] == ';' && Stands(Splitting(e), sql, j)
  {
    hide Split, IsEnd, CutAt, Stands;
    EndsAreCuts(e, sql, j);
    CutIffStands(e, sql, j);
  }

  // None of the engine's own marks is at i.
  predicate Unmarked(e: Engine, r: string, i: nat)
    requires i < |r|
  {
    && r[i] != '\''
    && (r[i] == '"' ==> e == MySQL)
    && (r[i] == '`' ==> e == SQLServer || e == PostgreSQL || e == SQLite)
    && (r[i] == '#' ==> e == SQLServer || e == PostgreSQL || e == SQLite)
    && (r[i] == '[' ==> e == PostgreSQL || e == MySQL || e == SQLite)
    && (r[i] == '$' ==> e == SQLServer || e == MySQL || e == SQLite)
    && !(i + 1 < |r| && r[i] == '-' && r[i + 1] == '-')
    && !(i + 1 < |r| && r[i] == '/' && r[i + 1] == '*')
  }

  lemma {:induction false} UnmarkedStands(e: Engine, r: string, i: nat, j: nat)
    requires i <= j < |r| && forall m :: i <= m < j ==> Unmarked(e, r, m)
    ensures StandsFrom(Splitting(e), r, i, j)
    decreases j - i
  {
    if i < j {
      assert Unmarked(e, r, i);
      UnmarkedStands(e, r, i + 1, j);
    }
  }

  // Where no mark stands before it, a semicolon separates.
  lemma UnmarkedSemicolon(e: Engine, sql: string, j: nat)
    requires j + 1 < |sql| && sql[j] == ';' && forall m :: 0 <= m < j ==> Unmarked(e, sql, m)
    ensures IsEnd(Split(e, sql), j + 1)
  {
    hide Split, IsEnd, Unmarked;
    UnmarkedStands(e, sql, 0, j);
    SemicolonsThatSeparate(e, sql, j);
  }

  // From the mark at i on, j is set apart: in a literal or quoted name without its mark
  // or a backslash, in a bracketed name before its first bracket, in a comment before
  // the newline or the first close, in a dollar body before its tag.
  predicate SetApart(e: Engine, r: string, i: nat, j: nat)
    requires i < j < |r|
  {
    || ((r[i] == '\'' || (r[i] == '"' && e != MySQL) || (r[i] == '`' && e == MySQL))
        && forall m :: i < m <= j ==> r[m] != r[i] && r[m] != '\\')
    || (r[i] == '[' && e == SQLServer && forall m :: i < m < j ==> r[m] != ']')
    || (((r[i] == '-' && r[i + 1] == '-') || (r[i] == '#' && e == MySQL)) && forall m :: i < m <= j ==> r[m] != '\n')
    || (r[i] == '/' && r[i + 1] == '*' && i + 1 < j
        && forall m :: i + 2 <= m < j ==> !PairAt(r, m, '*', '/'))
    || (r[i] == '$' && e == PostgreSQL && TagCloses(r, i + 1) && IdentEnd(r, i + 1) < j
        && NotBetween(r, r[i..IdentEnd(r, i + 1) + 1], IdentEnd(r, i + 1), j))
  }

  predicate NotBetween(r: string, tag: string, i: nat, j: nat) { forall m :: i < m < j ==> !OccursAt(r, tag, m) }

  lemma {:induction false} QuoteGoesOn(r: string, q: char, i: nat, j: nat)
    requires i <= j + 1 && j < |r| && q != '\\' && forall m :: i <= m <= j ==> r[m] != q && r[m] != '\\'
    ensures j < QuoteEnd(r, q, i)
    decreases |r| - i
  {
    if i <= j {
      QuoteGoesOn(r, q, i + 1, j);
    }
  }

  lemma {:induction false} BlockGoesOn(r: string, i: nat, depth: nat, j: nat)
    requires i <= |r| && j < |r| && forall m :: i <= m < j ==> !PairAt(r, m, '*', '/')
    ensures j < BlockEnd(r, i, depth)
    decreases |r| - i
  {
    if i <= j {
      if PairAt(r, i, '/', '*') {
        BlockGoesOn(r, i + 2, depth + 1, j);
      } else if !PairAt(r, i, '*', '/') {
        BlockGoesOn(r, i + 1, depth, j);
      }
    }
  }

  lemma SetApartInToken(e: Engine, r: string, i: nat, j: nat)
    requires i < j < |r| && SetApart(e, r, i, j)
    ensures j < TokenEnd(Splitting(e), r, i)
  {
    hide QuoteEnd, BlockEnd, TagEnd, First, TagCloses, OccursAt;
    if r[i] in "'\"`" {
      QuoteGoesOn(r, r[i], i + 1, j);
    } else if r[i] == '/' {
      BlockGoesOn(r, i + 2, 1, j);
    }
  }

  // What a mark that stands by itself sets apart separates nothing.
  lemma SetApartSemicolon(e: Engine, sql: string, i: nat, j: nat)
    requires i < j && j + 1 < |sql| && Stands(Splitting(e), sql, i) && SetApart(e, sql, i, j)
    ensures !IsEnd(Split(e, sql), j + 1)
  {
    hide Split, IsEnd, TokenEnd, SetApart;
    SetApartInToken(e, sql, i, j);
    StandsOn(Splitting(e), sql, 0, i) by { StandsIsLater(Splitting(e), sql, 0, i); }
    SemicolonsThatSeparate(e, sql, j);
  }

  predicate NoCommentRunes(r: string, i: nat, k: nat)
    requires i <= k <= |r|
  {
    forall m :: i <= m < k ==> r[m] != '/' && r[m] != '*'
  }

  lemma {:induction false} BlockPassesOver(r: string, i: nat, k: nat, depth: nat)
    requires i <= k <= |r| && NoCommentRunes(r, i, k)
    ensures BlockEnd(r, i, depth) == BlockEnd(r, k, depth)
    decreases k - i
  {
    if i < k {
      BlockPassesOver(r, i + 1, k, depth);
    }
  }

  // Comments nest: with one opened at k inside the one at i, the close at m ends the
  // inner one only, and the one at n the outer.
  lemma CommentsNest(e: Engine, sql: string, i: nat, k: nat, m: nat, n: nat, j: nat)
    requires i + 2 <= k && k + 2 <= m && m + 2 <= n && n + 2 < |sql| && i < j < n + 2
    requires sql[i] == '/' && sql[i + 1] == '*' && sql[k] == '/' && sql[k + 1] == '*'
    requires sql[m] == '*' && sql[m + 1] == '/' && sql[n] == '*' && sql[n + 1] == '/'
    requires NoCommentRunes(sql, i + 2, k) && NoCommentRunes(sql, k + 2, m) && NoCommentRunes(sql, m + 2, n)
    requires Stands(Splitting(e), sql, i)
    ensures !IsEnd(Split(e, sql), j + 1) && Stands(Splitting(e), sql, n + 2)
  {
    hide Split, IsEnd, NoCommentRunes;
    BlockPassesOver(sql, i + 2, k, 1);
    BlockPassesOver(sql, k + 2, m, 2);
    BlockPassesOver(sql, m + 2, n, 1);
    assert BlockEnd(sql, n, 1) == n + 2;
    assert BlockEnd(sql, m, 2) == BlockEnd(sql, m + 2, 1);
    assert BlockEnd(sql, k, 1) == BlockEnd(sql, k + 2, 2);
    assert TokenEnd(Splitting(e), sql, i) == n + 2;
    hide BlockEnd, TokenEnd;
    StandsOn(Splitting(e), sql, 0, i) by { StandsIsLater(Splitting(e), sql, 0, i); }
    SemicolonsThatSeparate(e, sql, j);
  }

  /* ---- separator lines ---- */

  // Spaces, the word in any case, and either nothing more than spaces or spaces and a
  // decimal number that a 64-bit integer holds.
  ghost predicate IsGoLine(line: string) {
    exists lead, go, rest :: GoThenRest(line, lead, go, rest)
  }

  ghost predicate GoThenRest(line: string, lead: string, go: string, rest: string) {
    && line == lead + go + rest && AllSpace(lead) && go in {"GO", "Go", "gO", "go"}
    && (AllSpace(rest) || exists gap, sign, digits, tail :: RepeatCount(rest, gap, sign, digits, tail))
  }

  predicate RepeatCount(rest: string, gap: string, sign: string, digits: string, tail: string) {
    && rest == gap + sign + digits + tail && gap != "" && AllSpace(gap) && AllSpace(tail)
    && sign in {"", "+", "-"} && digits != "" && AllDigits(digits)
    && DecimalValue(digits) <= if sign == "-" then 9223372036854775808 else 9223372036854775807
  }

  lemma {:induction false} FieldsOfSpaces(s: string)
    requires AllSpace(s)
    ensures Fields(s) == []
  {
    if s != "" {
      FieldsOfSpaces(s[1..]);
    }
  }

  lemma {:induction false} FieldsBehindSpaces(lead: string, s: string)
    requires AllSpace(lead)
    ensures Fields(lead + s) == Fields(s)
    decreases |lead|
  {
    if lead == "" {
      assert lead + s == s;
    } else {
      FieldsBehindSpaces(lead[1..], s);
      assert (lead + s)[1..] == lead[1..] + s;
    }
  }

  lemma {:induction false} FieldEndIs(s: string, i: nat, k: nat)
    requires i <= k <= |s| && (forall j :: i <= j < k ==> !IsSpace(s[j])) && (k < |s| ==> IsSpace(s[k]))
    ensures FieldEnd(s, i) == k
    decreases k - i
  {
    if i < k {
      FieldEndIs(s, i + 1, k);
    }
  }

  predicate NoSpace(w: string) { w != "" && forall j :: 0 <= j < |w| ==> !IsSpace(w[j]) }

  lemma FieldsOfWord(w: string, s: string)
    requires NoSpace(w) && (s != "" ==> IsSpace(s[0]))
    ensures Fields(w + s) == [w] + Fields(s)
  {
    hide IsSpace;
    FieldEndIs(w + s, 0, |w|);
    assert (w + s)[..|w|] == w && (w + s)[|w|..] == s;
  }

  // The first field and what is about it.
  lemma {:induction false} FirstField(s: string) returns (lead: string, rest: string)
    requires Fields(s) != []
    ensures var w := Fields(s)[0];
      && s == lead + w + rest && AllSpace(lead) && NoSpace(w) && (rest != "" ==> IsSpace(rest[0]))
      && Fields(rest) == Fields(s)[1..]
    decreases |s|
  {
    hide IsSpace;
    if IsSpace(s[0]) {
      var l, r := FirstField(s[1..]);
      lead, rest := [s[0]] + l, r;
      assert s == [s[0]] + s[1..];
    } else {
      lead, rest := "", s[FieldEnd(s, 0)..];
    }
  }

  lemma {:induction false} NoFields(s: string)
    requires Fields(s) == []
    ensures AllSpace(s)
  {
    if s != "" {
      NoFields(s[1..]);
    }
  }

  lemma {:induction false} FieldsBeforeSpaces(s: string, tail: string)
    requires AllSpace(tail)
    ensures Fields(s + tail) == Fields(s)
    decreases |s|
  {
    hide IsSpace;
    if Fields(s) == [] {
      NoFields(s);
      FieldsOfSpaces(s + tail);
    } else {
      var lead, rest := FirstField(s);
      var w := Fields(s)[0];
      FieldsBeforeSpaces(rest, tail);
      assert s + tail == lead + (w + (rest + tail));
      FieldsBehindSpaces(lead, w + (rest + tail));
      FieldsOfWord(w, rest + tail);
    }
  }

  lemma FieldsOfTrim(s: string)
    ensures Fields(Trim(s)) == Fields(s)
  {
    hide Fields, Trim;
    var a, b := TrimIsSlice(s);
    assert s == s[..a] + (s[a..b] + s[b..]);
    FieldsBehindSpaces(s[..a], s[a..b] + s[b..]);
    FieldsBeforeSpaces(s[a..b], s[b..]);
  }

  lemma CountOfField(rest: string)
    requires |Fields(rest)| == 1 && IsInt(Fields(rest)[0]) && IsSpace(rest[0])
    ensures exists gap, sign, digits, tail :: RepeatCount(rest, gap, sign, digits, tail)
  {
    hide IsSpace, Fields, IsInt, RepeatCount, AllSpace;
    var gap, tail := FirstField(rest);
    var f := Fields(rest)[0];
    NoFields(tail);
    var sign, digits := SignAndDigits(f);
    assert rest[|gap|] == f[0];
    CountParts(rest, gap, f, sign, digits, tail);
  }

  lemma SignAndDigits(f: string) returns (sign: string, digits: string)
    requires IsInt(f)
    ensures f == sign + digits && sign in {"", "+", "-"} && digits != "" && AllDigits(digits)
    ensures DecimalValue(digits) <= if sign == "-" then 9223372036854775808 else 9223372036854775807
  {
    hide DecimalValue;
    sign, digits := if f[0] in "+-" then [f[0]] else "", if f[0] in "+-" then f[1..] else f;
  }

  lemma CountParts(rest: string, gap: string, f: string, sign: string, digits: string, tail: string)
    requires rest == gap + f + tail && f == sign + digits && gap != "" && AllSpace(gap) && AllSpace(tail)
    requires sign in {"", "+", "-"} && digits != "" && AllDigits(digits)
    requires DecimalValue(digits) <= if sign == "-" then 9223372036854775808 else 9223372036854775807
    ensures RepeatCount(rest, gap, sign, digits, tail)
  {
    hide DecimalValue, AllSpace, AllDigits;
    assert gap + (sign + digits) + tail == gap + sign + digits + tail;
  }

  lemma FieldOfCount(rest: string, gap: string, sign: string, digits: string, tail: string)
    requires RepeatCount(rest, gap, sign, digits, tail)
    ensures |Fields(rest)| == 1 && IsInt(Fields(rest)[0]) && IsSpace(rest[0])
  {
    hide Fields, DecimalValue, IsInt, AllDigits, IsSpace;
    var w := sign + digits;
    IntOf(sign, digits);
    assert rest == gap + (w + tail);
    FieldsBehindSpaces(gap, w + tail);
    FieldsOfWord(w, tail);
    FieldsOfSpaces(tail);
  }

  lemma IntOf(sign: string, digits: string)
    requires sign in {"", "+", "-"} && digits != "" && AllDigits(digits)
    requires DecimalValue(digits) <= if sign == "-" then 9223372036854775808 else 9223372036854775807
    ensures IsInt(sign + digits) && NoSpace(sign + digits)
  {
    hide DecimalValue;
    var w := sign + digits;
    assert sign == "" ==> w == digits;
    assert sign != "" ==> w[1..] == digits && w[0] == sign[0];
  }

  // A line is taken for a separator exactly when it has this shape.
  lemma GoSeparatorIff(line: string)
    ensures IsGoSeparator(line) <==> IsGoLine(line)
  {
    hide IsSpace, Fields, Trim, IsInt, RepeatCount;
    FieldsOfTrim(line);
    if IsGoSeparator(line) {
      var lead, rest := FirstField(line);
      var go := Fields(line)[0];
      if |Fields(line)| == 1 {
        NoFields(rest);
      } else {
        FieldsNeedText(rest);
        CountOfField(rest);
      }
      assert go == [go[0], go[1]];
      assert GoThenRest(line, lead, go, rest);
    }
    if lead, go, rest :| GoThenRest(line, lead, go, rest) {
      GoLineFields(line, lead, go, rest);
    }
  }

  lemma FieldsNeedText(s: string)
    requires Fields(s) != []
    ensures s != ""
  {
  }

  lemma GoLineFields(line: string, lead: string, go: string, rest: string)
    requires GoThenRest(line, lead, go, rest)
    ensures IsGoSeparator(line)
  {
    hide Fields, Trim, IsInt, RepeatCount;
    FieldsOfTrim(line);
    if AllSpace(rest) {
      FieldsOfSpaces(rest);
    } else {
      var gap, sign, digits, tail :| RepeatCount(rest, gap, sign, digits, tail);
      FieldOfCount(rest, gap, sign, digits, tail);
    }
    assert line == lead + (go + rest);
    FieldsBehindSpaces(lead, go + rest);
    FieldsOfWord(go, rest);
  }

  /* ---- what a separator line does ---- */

  lemma {:induction false} BatchesAround(a: seq<string>, go: string, b: seq<string>)
    requires IsGoSeparator(go)
    ensures Batches(a + [go] + b) == Batches(a) + Batches(b)
    decreases |b|
  {
    hide IsGoSeparator, Batches;
    BatchesSnoc([], go);
    if b == [] {
      BatchesSnoc(a, go);
      assert a + [go] + b == a + [go];
    } else {
      var n := |b| - 1;
      BatchesAround(a, go, b[..n]);
      BatchesSnoc(b[..n], b[n]);
      BatchesSnoc(a + [go] + b[..n], b[n]);
      assert b[..n] + [b[n]] == b && a + [go] + b[..n] + [b[n]] == a + [go] + b;
      var x, y := Batches(a), Batches(b[..n]);
      assert (x + y)[..|x + y| - 1] == x + y[..|y| - 1] && (x + y)[|x + y| - 1] == y[|y| - 1];
    }
  }

  lemma {:induction false} BatchStatementsConcat(x: seq<seq<string>>, y: seq<seq<string>>, st: Statement)
    ensures BatchStatements(x + y, st) == BatchStatements(x, st) + BatchStatements(y, st)
  {
    hide BatchStatement;
    if y == [] {
      assert x + y == x;
    } else {
      BatchStatementsConcat(x, y[..|y| - 1], st);
      assert (x + y)[..|x + y| - 1] == x + y[..|y| - 1];
    }
  }

  // On either side of a separator line a statement is cut up by itself.
  lemma GoSeparates(st: Statement, a: string, line: string, b: string)
    requires IsGoLine(line) && OneLine(line) && st.text == a + "\n" + (line + "\n" + b)
    ensures GoPieces(st) == GoPieces(st.(text := a)) + GoPieces(st.(text := b))
  {
    hide Batches, Lines, BatchStatements, IsGoSeparator, IsGoLine;
    GoSeparatorIff(line);
    LinesAround(a, line + "\n" + b);
    LinesAround(line, b);
    LinesOfOneLine(line);
    assert Lines(st.text) == Lines(a) + [line] + Lines(b);
    BatchesAround(Lines(a), line, Lines(b));
    BatchStatementsConcat(Batches(Lines(a)), Batches(Lines(b)), st);
    SpanOnly(Batches(Lines(a)), st, a);
    SpanOnly(Batches(Lines(b)), st, b);
  }

  lemma {:induction false} SpanOnly(bs: seq<seq<string>>, st: Statement, text: string)
    ensures BatchStatements(bs, st) == BatchStatements(bs, st.(text := text))
  {
    hide Trim, Join;
    if bs != [] {
      SpanOnly(bs[..|bs| - 1], st, text);
    }
  }

  lemma GoFreePiece(st: Statement)
    requires !HasGoLine(st.text) && Trim(st.text) != ""
    ensures GoPieces(st) == [st.(text := Trim(st.text))]
  {
    hide Lines, Trim, AnyGo, Join;
    OneBatch(Lines(st.text));
    JoinLines(st.text);
    var lines := Lines(st.text);
    assert [lines][..0] == [];
    assert BatchStatements([lines][..0], st) == [];
  }

  // Two parts that are not blank, with such a line between them, come back as two.
  lemma GoMakesTwo(sql: string, a: string, line: string, b: string)
    requires IsGoLine(line) && OneLine(line) && sql == a + "\n" + (line + "\n" + b)
    requires LexSplit(DialectOf(SQLServer), sql) == [Statement(sql, 0, |sql|)]
    requires !HasGoLine(a) && !HasGoLine(b) && Trim(a) != "" && Trim(b) != ""
    ensures Split(SQLServer, sql) == [Statement(Trim(a), 0, |sql|), Statement(Trim(b), 0, |sql|)]
  {
    hide LexSplit, GoPieces, HasGoLine, Trim, IsGoLine;
    var st := Statement(sql, 0, |sql|);
    GoSplitOne(st);
    GoSeparates(st, a, line, b);
    GoFreePiece(st.(text := a));
    GoFreePiece(st.(text := b));
  }
}

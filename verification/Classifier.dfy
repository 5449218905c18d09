/** The read/write classifier (core/dbcore/sqltext.go:250-394). */
module Classifier {
  import opened Text
  import opened Lexer
  import opened Skippers
  import opened Tokens
  import opened Leading
  import opened Reading

  datatype Kind = Select | Dml | Ddl | Tx | Utility | Other

  const READ_WORDS: set<string> := {"SELECT", "TABLE", "VALUES"}
  const DML_WORDS: set<string> := {
    "INSERT", "UPDATE", "DELETE", "MERGE", "REPLACE", "UPSERT", "COPY", "LOAD", "CALL", "EXEC", "EXECUTE"
  }
  const DDL_WORDS: set<string> := {
    "CREATE", "ALTER", "DROP", "TRUNCATE", "RENAME", "COMMENT", "GRANT", "REVOKE", "VACUUM", "REINDEX",
    "ANALYZE", "CLUSTER"
  }
  const TX_WORDS: set<string> := {
    "BEGIN", "START", "COMMIT", "ROLLBACK", "SAVEPOINT", "RELEASE", "END"
  }
  const UTILITY_WORDS: set<string> := {
    "SET", "USE", "SHOW", "EXPLAIN", "DESCRIBE", "DESC", "PRAGMA", "RESET", "DECLARE", "PRINT", "CHECKPOINT"
  }
  const CTE_WRITES: set<string> := {"INSERT", "UPDATE", "DELETE", "MERGE"}
  const SAFE_UTILITIES: set<string> := {"SHOW", "EXPLAIN", "DESCRIBE", "DESC", "PRINT"}

  function UpperAll(words: seq<string>): (u: seq<string>)
    ensures |u| == |words| && forall k :: 0 <= k < |words| ==> u[k] == ToUpper(words[k])
  {
    seq(|words|, k requires 0 <= k < |words| => ToUpper(words[k]))
  }

  // The bare words of a statement, upper-cased, as the reference lexer finds them.
  function Keywords(sql: string): seq<string> { UpperAll(Words(KEYWORDS, sql)) }

  predicate HasWrite(words: seq<string>) {
    exists k :: 0 <= k < |words| && words[k] in CTE_WRITES
  }

  function Classify(sql: string): Kind {
    var first := FirstKeyword(sql);
    if first in READ_WORDS then Select
    else if first == "WITH" then (if HasWrite(Keywords(sql)) then Dml else Select)
    else if first in DML_WORDS then Dml
    else if first in DDL_WORDS then Ddl
    else if first in TX_WORDS then Tx
    else if first in UTILITY_WORDS then Utility
    else Other
  }

  predicate IsReadOnly(sql: string) {
    var kind, first := Classify(sql), FirstKeyword(sql);
    kind.Select? || (kind.Utility? && (first in SAFE_UTILITIES || (first == "PRAGMA" && '=' !in sql)))
  }

  /* ---- the scanning loop ---- */

  // The loop may stand at i: every word that has begun before i is complete and
  // in out.
  ghost predicate Scanned(r: string, i: nat, out: seq<string>) {
    && i <= |r|
    && var s := Run(KEYWORDS, START, r, i);
       && AtToken(s, r, i)
       && (i < |r| && IsIdent(r[i]) ==> Unfinished(s) == [])
       && out == UpperAll(WordsUpTo(KEYWORDS, START, r, i) + Unfinished(s))
  }

  method ScanKeywords(sql: string) returns (out: seq<string>)
    ensures out == Keywords(sql)
  {
    hide Run, Scanned, Keywords, Resume, TagCloses, ToUpper;
    var r := sql;
    out := [];
    var i := 0;
    ScannedAtStart(r);
    while i < |r|
      invariant i <= |r| && Scanned(r, i, out)
      decreases |r| - i
    {
      ghost var from := i;
      if r[i] == '\'' {
        ScannedDelimiter(r, i, out);
        i := SkipQuoted(r, i, '\'');
      } else if r[i] == '"' {
        ScannedDelimiter(r, i, out);
        i := SkipQuoted(r, i, '"');
      } else if r[i] == '`' {
        ScannedDelimiter(r, i, out);
        i := SkipQuoted(r, i, '`');
      } else if r[i] == '[' {
        ScannedDelimiter(r, i, out);
        i := SkipUntil(r, i + 1, ']');
        BracketResume(r, from + 1, i);
      } else if r[i] == '-' && i + 1 < |r| && r[i + 1] == '-' {
        ScannedComment(r, i, out);
        i := SkipLineComment(r, i);
      } else if r[i] == '/' && i + 1 < |r| && r[i + 1] == '*' {
        ScannedComment(r, i, out);
        i := SkipBlockComment(r, i);
      } else if r[i] == '$' {
        var next, ok := SkipDollarQuoted(r, i);
        if ok {
          ScannedDollar(r, i, out);
          i := next;
        } else {
          ScannedSingle(r, i, out);
          i := i + 1;
        }
      } else if IsLetter(r[i]) || r[i] == '_' {
        var start := i;
        while i < |r| && IsIdent(r[i])
          invariant start <= i <= |r|
          invariant IdentEnd(r, i) == IdentEnd(r, start)
        {
          i := i + 1;
        }
        ScannedWord(r, start, out);
        out := out + [ToUpper(r[start..i])];
      } else {
        ScannedSingle(r, i, out);
        i := i + 1;
      }
    }
    ScannedAll(r, out);
  }

  method ClassifyStatement(sql: string) returns (kind: Kind)
    ensures kind == Classify(sql)
  {
    hide FirstKeyword, Keywords;
    var first := FirstKeyword(sql);
    if first in READ_WORDS {
      return Select;
    }
    if first == "WITH" {
      var words := ScanKeywords(sql);
      for k := 0 to |words|
        invariant !HasWrite(words[..k])
      {
        assert words[..k + 1] == words[..k] + [words[k]];
        if words[k] in CTE_WRITES {
          return Dml;
        }
      }
      assert words[..|words|] == words;
      return Select;
    }
    return
      if first in DML_WORDS then Dml
      else if first in DDL_WORDS then Ddl
      else if first in TX_WORDS then Tx
      else if first in UTILITY_WORDS then Utility
      else Other;
  }

  /* ---- one lemma per branch of the scanning loop ---- */

  lemma ScannedAtStart(r: string)
    ensures Scanned(r, 0, [])
  {
  }

  lemma ScannedAll(r: string, out: seq<string>)
    requires Scanned(r, |r|, out)
    ensures out == Keywords(r)
  {
  }

  // A rune that is no identifier rune ends exactly the word that is unfinished.
  lemma EmitsUnfinished(s: State, r: string, i: nat)
    requires i < |r| && AtToken(s, r, i) && !IsIdent(r[i])
    ensures Emits(s, r[i]) == Unfinished(s)
  {
    assert IdentEnd(r, i) == i;
  }

  lemma ScannedJump(r: string, i: nat, k: nat, out: seq<string>)
    requires i < |r| && k <= |r| && Scanned(r, i, out) && !IsIdent(r[i]) && Jumps(KEYWORDS, r, i, k)
    ensures Scanned(r, k, out)
  {
    hide Run, WordsUpTo, Cuts, Emits, Unfinished, AtToken;
    EmitsUnfinished(Run(KEYWORDS, START, r, i), r, i);
    var words := WordsUpTo(KEYWORDS, START, r, k);
    assert words + [] == words;
  }

  lemma ScannedDelimiter(r: string, i: nat, out: seq<string>)
    requires i < |r| && Scanned(r, i, out) && r[i] in "'\"`["
    ensures var k := if r[i] == '[' then Resume(Bracket, r, i + 1) else Resume(Quoted(r[i]), r, i + 1);
      i < k <= |r| && Scanned(r, k, out)
  {
    hide Run, WordsUpTo, Cuts, Jumps, Resume;
    DelimiterJump(KEYWORDS, r, i);
    ScannedJump(r, i, Resume(Enter(KEYWORDS, r[i]), r, i + 1), out);
  }

  lemma ScannedComment(r: string, i: nat, out: seq<string>)
    requires i < |r| && Scanned(r, i, out) && CommentOpens(r, i)
    ensures i < CommentEnd(r, i) && Scanned(r, CommentEnd(r, i), out)
    ensures CommentEnd(r, i) == if r[i] == '-' then Resume(Line, r, i) else Resume(Block(1), r, i + 2)
  {
    hide Run, WordsUpTo, Cuts, Jumps, Resume;
    CommentJump(KEYWORDS, r, i);
    ScannedJump(r, i, CommentEnd(r, i), out);
  }

  lemma ScannedDollar(r: string, i: nat, out: seq<string>)
    requires i < |r| && Scanned(r, i, out) && r[i] == '$' && TagCloses(r, i + 1)
    ensures var j := IdentEnd(r, i + 1);
      && i < j < |r|
      && Scanned(r, Resume(Body(r[i..j + 1], ""), r, j + 1), out)
  {
    hide Run, WordsUpTo, Cuts, Jumps, Resume;
    DollarJump(KEYWORDS, r, i);
    var j := IdentEnd(r, i + 1);
    ScannedJump(r, i, Resume(Body(r[i..j + 1], ""), r, j + 1), out);
  }

  lemma ScannedSingle(r: string, i: nat, out: seq<string>)
    requires i < |r| && Scanned(r, i, out)
    requires !CommentOpens(r, i) && !StartsWord(r[i]) && r[i] !in "'\"`["
    requires r[i] == '$' ==> !TagCloses(r, i + 1)
    ensures Scanned(r, i + 1, out)
  {
    hide Run, WordsUpTo, Cuts, CutAt, TagCloses;
    SingleStep(KEYWORDS, r, i);
    var s := Run(KEYWORDS, START, r, i);
    if IsIdent(r[i]) {
      DigitStep(r, i);
    } else {
      FreshStep(KEYWORDS, r, i);
      EmitsUnfinished(s, r, i);
      assert WordsUpTo(KEYWORDS, START, r, i + 1) + [] == WordsUpTo(KEYWORDS, START, r, i + 1);
    }
  }

  // A digit outside a word changes nothing, but it may belong to a dollar tag.
  lemma DigitStep(r: string, i: nat)
    requires i < |r| && IsIdent(r[i]) && !StartsWord(r[i])
    requires var s := Run(KEYWORDS, START, r, i); AtToken(s, r, i) && Unfinished(s) == []
    ensures WordsUpTo(KEYWORDS, START, r, i + 1) == WordsUpTo(KEYWORDS, START, r, i)
    ensures Unfinished(Run(KEYWORDS, START, r, i + 1)) == []
  {
    hide Cuts, TagCloses;
    var s := Run(KEYWORDS, START, r, i);
    if s.Tag? {
      WordInAppend(s.tag[1..], [r[i]]);
      assert (s.tag + [r[i]])[1..] == s.tag[1..] + [r[i]];
    }
  }

  lemma {:induction false} WordInAppend(digits: string, w: string)
    requires WordIn(digits) == []
    ensures WordIn(digits + w) == WordIn(w)
  {
    if digits == "" {
      assert digits + w == w;
    } else {
      WordInAppend(digits[1..], w);
      assert (digits + w)[1..] == digits[1..] + w;
    }
  }

  // While identifier runes follow, the word or the tag being read grows.
  lemma {:induction false} WordRun(d: Dialect, r: string, i: nat, j: nat)
    requires i < |r| && StartsWord(r[i]) && i < j <= IdentEnd(r, i)
    requires var s := Run(d, START, r, i); AtToken(s, r, i) && Unfinished(s) == []
    ensures var s := Run(d, START, r, i);
      Run(d, START, r, j) == if s.Tag? then Tag(s.tag + r[i..j]) else Code(r[i..j])
    ensures WordsUpTo(d, START, r, j) == WordsUpTo(d, START, r, i)
  {
    hide Run, WordsUpTo, Cuts, TagCloses;
    if j == i + 1 {
      assert r[i..j] == [r[i]];
      WordBegins(d, r, i);
    } else {
      WordRun(d, r, i, j - 1);
      assert r[i..j] == r[i..j - 1] + [r[j - 1]];
      WordGrows(d, r, j - 1);
    }
  }

  lemma WordBegins(d: Dialect, r: string, i: nat)
    requires i < |r| && StartsWord(r[i])
    requires var s := Run(d, START, r, i); AtToken(s, r, i) && Unfinished(s) == []
    ensures var s := Run(d, START, r, i);
      Run(d, START, r, i + 1) == if s.Tag? then Tag(s.tag + [r[i]]) else Code([r[i]])
    ensures WordsUpTo(d, START, r, i + 1) == WordsUpTo(d, START, r, i)
  {
    hide TagCloses;
  }

  lemma WordGrows(d: Dialect, r: string, j: nat)
    requires j < |r| && IsIdent(r[j])
    requires var s := Run(d, START, r, j); s.Tag? || (s.Code? && s.word != "")
    ensures var s := Run(d, START, r, j);
      Run(d, START, r, j + 1) == if s.Tag? then Tag(s.tag + [r[j]]) else Code(s.word + [r[j]])
    ensures WordsUpTo(d, START, r, j + 1) == WordsUpTo(d, START, r, j)
  {
  }

  lemma ScannedWord(r: string, i: nat, out: seq<string>)
    requires i < |r| && Scanned(r, i, out) && StartsWord(r[i])
    ensures i < IdentEnd(r, i) && Scanned(r, IdentEnd(r, i), out + [ToUpper(r[i..IdentEnd(r, i)])])
  {
    hide Run, WordsUpTo, Cuts, ToUpper, UpperAll;
    var e := IdentEnd(r, i);
    var s := Run(KEYWORDS, START, r, i);
    WordRun(KEYWORDS, r, i, e);
    var word := r[i..e];
    UnfinishedWord(s, word);
    assert IdentEnd(r, e) == e;
    var words := WordsUpTo(KEYWORDS, START, r, i);
    assert words + [] == words;
    assert UpperAll(words + [word]) == UpperAll(words) + [ToUpper(word)];
  }

  lemma UnfinishedWord(s: State, word: string)
    requires word != "" && StartsWord(word[0]) && Unfinished(s) == []
    ensures s.Tag? && s.tag != "" ==> Unfinished(Tag(s.tag + word)) == [word]
    ensures Unfinished(Code(word)) == [word]
  {
    if s.Tag? && s.tag != "" {
      WordInAppend(s.tag[1..], word);
      assert (s.tag + word)[1..] == s.tag[1..] + word;
    }
  }

  /* ---- laws ---- */

  lemma {:induction false} ScanFrom(r: string, i: nat, out: seq<string>)
    requires Scanned(r, i, out)
    ensures Keywords(r) == out + UpperAll(WordsFrom(r, i))
    decreases |r| - i
  {
    hide Keywords, Scanned, WordsFrom, UpperAll;
    ScannedInText(r, i, out);
    WordsFromStep(r, i);
    if i == |r| {
      ScannedAll(r, out);
      assert UpperAll([]) == [] && out + [] == out;
    } else {
      ScannedToken(r, i, out);
      var word := if StartsWord(r[i]) then [r[i..IdentEnd(r, i)]] else [];
      var k := TokenEnd(Scanning, r, i);
      ScanFrom(r, k, out + UpperAll(word));
      UpperAllConcat(word, WordsFrom(r, k));
      Associate(out, UpperAll(word), UpperAll(WordsFrom(r, k)));
    }
  }

  lemma WordsFromStep(r: string, i: nat)
    requires i <= |r|
    ensures WordsFrom(r, i) ==
      if i == |r| then []
      else (if StartsWord(r[i]) then [r[i..IdentEnd(r, i)]] else []) + WordsFrom(r, TokenEnd(Scanning, r, i))
  {
  }

  lemma UpperAllConcat(a: seq<string>, b: seq<string>)
    ensures UpperAll(a + b) == UpperAll(a) + UpperAll(b)
  {
    hide ToUpper;
  }

  lemma ScannedInText(r: string, i: nat, out: seq<string>)
    requires Scanned(r, i, out)
    ensures i <= |r|
  {
  }

  lemma ScannedToken(r: string, i: nat, out: seq<string>)
    requires i < |r| && Scanned(r, i, out)
    ensures var word := if StartsWord(r[i]) then [r[i..IdentEnd(r, i)]] else [];
      Scanned(r, TokenEnd(Scanning, r, i), out + UpperAll(word))
  {
    hide Run, Scanned, ToUpper, Jumps, TagCloses;
    assert out + [] == out;
    if StartsWord(r[i]) {
      WordIsToken(r, i);
      ScannedWord(r, i, out);
      assert UpperAll([r[i..IdentEnd(r, i)]]) == [ToUpper(r[i..IdentEnd(r, i)])];
    } else if Opens(Scanning, r, i) {
      ScannedAtToken(r, i, out);
      OpensIsJump(Scanning, r, i);
      ScannedJump(r, i, TokenEnd(Scanning, r, i), out);
    } else {
      NothingOpens(Scanning, r, i);
      ScannedSingle(r, i, out);
    }
  }

  lemma WordIsToken(r: string, i: nat)
    requires i < |r| && StartsWord(r[i])
    ensures TokenEnd(Scanning, r, i) == IdentEnd(r, i)
  {
  }

  lemma ScannedAtToken(r: string, i: nat, out: seq<string>)
    requires i < |r| && Scanned(r, i, out) && Opens(Scanning, r, i)
    ensures AtToken(Run(DialectFor(Scanning), START, r, i), r, i) && !IsIdent(r[i])
  {
    hide Run;
  }

  // The scanned words are exactly those that stand by themselves.
  lemma WordsAreOccurrences(sql: string, upper: string)
    ensures upper in Keywords(sql) <==> exists p: nat, w :: StandingWord(sql, p, w) && ToUpper(w) == upper
  {
    hide Keywords, Scanned, WordsFrom, WordFrom, StandsFrom, ToUpper;
    ScannedAtStart(sql);
    ScanFrom(sql, 0, []);
    var words := WordsFrom(sql, 0);
    assert Keywords(sql) == UpperAll(words);
    if upper in Keywords(sql) {
      var k :| 0 <= k < |words| && ToUpper(words[k]) == upper;
      WordsFromStand(sql, 0, words[k]);
      var p: nat :| StandsFrom(Scanning, sql, 0, p) && WordFrom(sql, p, words[k]);
      assert StandingWord(sql, p, words[k]);
    }
    if p: nat, w :| StandingWord(sql, p, w) && ToUpper(w) == upper {
      WordsFromStand(sql, 0, w);
      var k :| 0 <= k < |words| && words[k] == w;
      assert Keywords(sql)[k] == upper;
    }
  }

  // No word that stands by itself, at whatever depth of parentheses, modifies data.
  ghost predicate NoStandingWrite(sql: string) {
    forall p: nat, w :: StandingWord(sql, p, w) ==> ToUpper(w) !in {"INSERT", "UPDATE", "DELETE", "MERGE"}
  }

  lemma HasWriteIff(sql: string)
    ensures HasWrite(Keywords(sql)) <==> !NoStandingWrite(sql)
  {
    hide Keywords, StandingWord, ToUpper;
    var words := Keywords(sql);
    if HasWrite(words) {
      var k :| 0 <= k < |words| && words[k] in CTE_WRITES;
      WordsAreOccurrences(sql, words[k]);
    }
    if p: nat, w :| StandingWord(sql, p, w) && ToUpper(w) in {"INSERT", "UPDATE", "DELETE", "MERGE"} {
      WordsAreOccurrences(sql, ToUpper(w));
      var k :| 0 <= k < |words| && words[k] == ToUpper(w);
    }
  }

  // A WITH statement is a read exactly when no word standing in it modifies data.
  lemma WithIsReadIff(sql: string)
    requires FirstKeyword(sql) == "WITH"
    ensures IsReadOnly(sql) <==> NoStandingWrite(sql)
  {
    hide FirstKeyword, Keywords, NoStandingWrite;
    HasWriteIff(sql);
  }

  // The allowlist: a statement is a read exactly when it begins with one of these.
  lemma ReadOnlyIff(sql: string)
    ensures IsReadOnly(sql) <==>
      var first := FirstKeyword(sql);
      || first in {"SELECT", "TABLE", "VALUES", "SHOW", "EXPLAIN", "DESCRIBE", "DESC", "PRINT"}
      || (first == "PRAGMA" && '=' !in sql)
      || (first == "WITH" && NoStandingWrite(sql))
  {
    hide FirstKeyword, Keywords, NoStandingWrite;
    HasWriteIff(sql);
  }

  // What every other class begins with.
  lemma ClassIff(sql: string)
    ensures var first, kind := FirstKeyword(sql), Classify(sql);
      && (kind == Select <==>
            first in {"SELECT", "TABLE", "VALUES"} || (first == "WITH" && NoStandingWrite(sql)))
      && (kind == Dml <==>
            || first in {"INSERT", "UPDATE", "DELETE", "MERGE", "REPLACE", "UPSERT", "COPY", "LOAD", "CALL", "EXEC", "EXECUTE"}
            || (first == "WITH" && !NoStandingWrite(sql)))
      && (kind == Ddl <==>
            first in {"CREATE", "ALTER", "DROP", "TRUNCATE", "RENAME", "COMMENT", "GRANT", "REVOKE", "VACUUM", "REINDEX",
                      "ANALYZE", "CLUSTER"})
      && (kind == Tx <==> first in {"BEGIN", "START", "COMMIT", "ROLLBACK", "SAVEPOINT", "RELEASE", "END"})
      && (kind == Utility <==>
            first in {"SET", "USE", "SHOW", "EXPLAIN", "DESCRIBE", "DESC", "PRAGMA", "RESET", "DECLARE", "PRINT",
                      "CHECKPOINT"})
  {
    hide FirstKeyword, Keywords, NoStandingWrite;
    HasWriteIff(sql);
  }

  // The first keyword is the letters and underscores the statement proper begins with,
  // in upper case however they are written.
  lemma KeywordInAnyCase(sql: string, word: string)
    requires var s := Stripped(sql);
      && |word| <= |s| && (|word| < |s| ==> s[|word|] != '_' && !IsLetter(s[|word|]))
      && forall j :: 0 <= j < |word| ==>
           'A' <= word[j] <= 'Z' && (s[j] == word[j] || ('a' <= s[j] <= 'z' && s[j] - 'a' == word[j] - 'A'))
    ensures FirstKeyword(sql) == word
  {
    hide Stripped;
    var s := Stripped(sql);
    var k := KeywordEnd(s, 0);
    assert k == |word|;
    assert ToUpper(s[..k]) == word;
  }

  // What StripLeading removes holds no word, and leaves the lexer at the start.
  lemma StrippedStarts(sql: string)
    ensures var k := LeadingEnd(sql, 0);
      && WordsUpTo(KEYWORDS, START, sql, k) == []
      && (if k < |sql| then Run(KEYWORDS, START, sql, k) == START
          else Unfinished(Run(KEYWORDS, START, sql, k)) == [])
  {
    IdleTo(KEYWORDS, sql, 0);
  }

  lemma {:induction false} WordsOfSuffix(d: Dialect, r: string, k: nat, j: nat)
    requires k + j <= |r| && Run(d, START, r, k) == START
    ensures WordsUpTo(d, START, r, k + j) ==
      WordsUpTo(d, START, r, k) + WordsUpTo(d, START, r[k..], j)
  {
    hide Run, Emits;
    if j > 0 {
      WordsOfSuffix(d, r, k, j - 1);
      RunSlice(d, START, r, k, j - 1);
      assert r[k..][j - 1] == r[k + j - 1];
    }
  }

  lemma KeywordsOfStripped(sql: string)
    ensures Keywords(Stripped(sql)) == Keywords(sql)
  {
    hide Run, WordsUpTo, Emits, LeadingEnd;
    var k := LeadingEnd(sql, 0);
    StrippedStarts(sql);
    if k < |sql| {
      WordsOfSuffix(KEYWORDS, sql, k, |sql| - k);
      RunSlice(KEYWORDS, START, sql, k, |sql| - k);
    } else {
      NoWordsInNothing();
    }
  }

  lemma NoWordsInNothing()
    ensures Words(KEYWORDS, "") == []
  {
  }

  // Leading comments, whitespace and parentheses do not change the class.
  lemma ClassifyIgnoresLeading(sql: string)
    ensures FirstKeyword(Stripped(sql)) == FirstKeyword(sql)
    ensures Classify(Stripped(sql)) == Classify(sql)
  {
    hide Stripped, Keywords, KeywordEnd, ToUpper;
    StripIdempotent(sql);
    KeywordsOfStripped(sql);
  }

  // The read-only verdict does look at them, in one case: a PRAGMA behind a
  // comment that holds an equals sign is refused.
  lemma ReadOnlyOfStripped(sql: string)
    ensures IsReadOnly(sql) <==>
      && IsReadOnly(Stripped(sql))
      && !(FirstKeyword(sql) == "PRAGMA" && '=' in sql[..LeadingEnd(sql, 0)])
  {
    hide FirstKeyword, Classify, LeadingEnd;
    ClassifyIgnoresLeading(sql);
    var k := LeadingEnd(sql, 0);
    assert sql == sql[..k] + sql[k..];
    assert '=' in sql <==> '=' in sql[..k] || '=' in sql[k..];
    PragmaIsUtility(sql);
  }

  // Nothing but comments is no read.
  lemma CommentsAreNoRead(sql: string)
    requires OnlyComments(sql)
    ensures !IsReadOnly(sql)
  {
    assert ToUpper("") == "";
    assert FirstKeyword(sql) == "";
  }

  // Such a statement: with its comment it is refused, without it it is a read.
  lemma PragmaBehindEquals()
    ensures var sql := "/*=*/PRAGMA x";
      Stripped(sql) == "PRAGMA x" && IsReadOnly(Stripped(sql)) && !IsReadOnly(sql)
  {
    hide IsReadOnly, FirstKeyword;
    var sql := "/*=*/PRAGMA x";
    assert Resume(BlockStar(1), sql, 4) == Resume(START, sql, 5) == 5;
    assert Resume(Block(1), sql, 3) == 5;
    assert Resume(Block(1), sql, 2) == 5;
    assert LeadingEnd(sql, 5) == 5;
    assert LeadingEnd(sql, 0) == 5;
    assert sql[..5] == "/*=*/" && sql[5..] == "PRAGMA x";
    PragmaIsRead();
    ClassifyIgnoresLeading(sql);
    ReadOnlyOfStripped(sql);
    assert sql[..5][2] == '=';
  }

  lemma PragmaIsRead()
    ensures FirstKeyword("PRAGMA x") == "PRAGMA" && IsReadOnly("PRAGMA x")
  {
    hide FirstKeyword, Classify;
    PragmaKeyword();
    PragmaIsUtility("PRAGMA x");
  }

  lemma PragmaKeyword()
    ensures FirstKeyword("PRAGMA x") == "PRAGMA"
  {
    var s := "PRAGMA x";
    assert KeywordEnd(s, 6) == 6;
    assert KeywordEnd(s, 5) == 6 && KeywordEnd(s, 4) == 6;
    assert KeywordEnd(s, 3) == 6 && KeywordEnd(s, 2) == 6;
    assert KeywordEnd(s, 1) == 6 && KeywordEnd(s, 0) == 6;
    assert LeadingEnd(s, 0) == 0;
    assert s[..6] == "PRAGMA" && ToUpper("PRAGMA") == "PRAGMA";
  }

  lemma PragmaIsUtility(sql: string)
    ensures FirstKeyword(sql) == "PRAGMA" ==> Classify(sql) == Utility
    ensures FirstKeyword(sql) == "PRAGMA" ==> FirstKeyword(sql) !in SAFE_UTILITIES
  {
    hide FirstKeyword;
  }

  lemma {:induction false} WordsGrow(d: Dialect, r: string, i: nat, j: nat)
    requires i <= j <= |r|
    ensures WordsUpTo(d, START, r, i) <= WordsUpTo(d, START, r, j)
  {
    hide Run, Emits;
    if i < j {
      WordsGrow(d, r, i, j - 1);
    }
  }

  // The first keyword is a prefix of the first scanned word; the word goes on
  // where it holds a digit.
  lemma FirstKeywordIsPrefix(sql: string)
    requires FirstKeyword(sql) != ""
    ensures Keywords(sql) != [] && FirstKeyword(sql) <= Keywords(sql)[0]
  {
    hide Run, WordsUpTo, LeadingEnd;
    var k := LeadingEnd(sql, 0);
    StrippedStarts(sql);
    var s := Stripped(sql);
    var n := KeywordEnd(s, 0);
    assert n > 0 && s[0] == sql[k];
    var e := IdentEnd(sql, k);
    WordRun(KEYWORDS, sql, k, e);
    var word := sql[k..e];
    FirstWordIs(sql, e, word);
    assert forall j :: 0 <= j < n ==> s[j] == sql[k + j];
    IdentEndIsPast(sql, k, k + n);
    assert s[..n] == word[..n];
    assert ToUpper(s[..n]) == ToUpper(word)[..n];
  }

  lemma {:induction false} IdentEndIsPast(r: string, i: nat, j: nat)
    requires i <= j <= |r| && forall m :: i <= m < j ==> IsIdent(r[m])
    ensures j <= IdentEnd(r, i)
    decreases j - i
  {
    if i < j {
      IdentEndIsPast(r, i + 1, j);
    }
  }

  lemma FirstWordIs(sql: string, e: nat, word: string)
    requires e <= |sql| && word != "" && (e < |sql| ==> !IsIdent(sql[e]))
    requires WordsUpTo(KEYWORDS, START, sql, e) == [] && Run(KEYWORDS, START, sql, e) == Code(word)
    ensures Words(KEYWORDS, sql) != [] && Words(KEYWORDS, sql)[0] == word
  {
    hide Run, WordsUpTo, IsIdent;
    if e < |sql| {
      WordEnds(sql, e, word);
      WordsGrow(KEYWORDS, sql, e + 1, |sql|);
    }
  }

  lemma WordEnds(sql: string, e: nat, word: string)
    requires e < |sql| && word != "" && !IsIdent(sql[e])
    requires WordsUpTo(KEYWORDS, START, sql, e) == [] && Run(KEYWORDS, START, sql, e) == Code(word)
    ensures WordsUpTo(KEYWORDS, START, sql, e + 1) == [word]
  {
    hide Run, IsIdent;
  }
}

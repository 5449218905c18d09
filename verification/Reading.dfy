/** Which parts of a text are set apart, by position (core/dbcore/sqltext.go:54-92,
    103-181 and 336-370). Written with each engine's own marks and without the
    reference lexer, which is then proved to agree. */
module Reading {
  import opened Text
  import opened Lexer
  import opened Skippers
  import opened Tokens
  import opened Leading

  // Who reads: the statement splitter of an engine, or the keyword scanner.
  datatype Reader = Splitting(engine: Engine) | Scanning

  /* ---- what sets a part apart ---- */

  predicate IsQuote(rd: Reader, c: char) {
    || c == '\''
    || (c == '"' && rd != Splitting(MySQL))
    || (c == '`' && (rd == Splitting(MySQL) || rd == Scanning))
  }

  predicate IsBracket(rd: Reader, c: char) { c == '[' && (rd == Splitting(SQLServer) || rd == Scanning) }

  predicate IsHash(rd: Reader, c: char) { c == '#' && rd == Splitting(MySQL) }

  predicate IsDollar(rd: Reader, c: char) { c == '$' && (rd == Splitting(PostgreSQL) || rd == Scanning) }

  predicate PairAt(r: string, i: nat, a: char, b: char) { i + 1 < |r| && r[i] == a && r[i + 1] == b }

  /* ---- where it ends ---- */

  // The first c from i on, or the end.
  function First(r: string, i: nat, c: char): (k: nat)
    requires i <= |r|
    ensures i <= k <= |r|
    ensures forall j :: i <= j < k ==> r[j] != c
    ensures k < |r| ==> r[k] == c
    decreases |r| - i
  {
    if i == |r| || r[i] == c then i else First(r, i + 1, c)
  }

  function Behind(r: string, k: nat): nat { if k < |r| then k + 1 else |r| }

  // From i to k there are only doubled marks, escaped runes and other runes.
  predicate Paired(r: string, q: char, i: nat, k: nat)
    requires i <= k <= |r|
    decreases k - i
  {
    if i == k then true
    else if PairAt(r, i, q, q) || (r[i] == '\\' && i + 1 < |r|) then i + 2 <= k && Paired(r, q, i + 2, k)
    else r[i] != q && Paired(r, q, i + 1, k)
  }

  // A mark at k that is neither doubled nor escaped.
  predicate Closes(r: string, q: char, i: nat, k: nat) {
    i <= k < |r| && Paired(r, q, i, k) && r[k] == q && !PairAt(r, k, q, q)
  }

  // Behind the mark that closes the quoted text from i, or the end.
  function QuoteEnd(r: string, q: char, i: nat): (k: nat)
    requires i <= |r| && q != '\\'
    ensures i <= k <= |r|
    decreases |r| - i
  {
    if i == |r| then i
    else if PairAt(r, i, q, q) || (r[i] == '\\' && i + 1 < |r|) then QuoteEnd(r, q, i + 2)
    else if r[i] == q then i + 1
    else QuoteEnd(r, q, i + 1)
  }

  lemma {:induction false} QuoteEndCloses(r: string, q: char, i: nat)
    requires i <= |r| && q != '\\'
    ensures var k := QuoteEnd(r, q, i);
      (i < k && Closes(r, q, i, k - 1)) || (k == |r| && forall m: nat :: !Closes(r, q, i, m))
    decreases |r| - i
  {
    if i < |r| {
      var next := if PairAt(r, i, q, q) || (r[i] == '\\' && i + 1 < |r|) then i + 2 else i + 1;
      if r[i] != q || next == i + 2 {
        QuoteEndCloses(r, q, next);
        forall m: nat | i < m ensures Closes(r, q, i, m) <==> Closes(r, q, next, m) {
        }
      }
    }
  }

  // Behind the close of the block comment whose body goes on at i at the depth given.
  function BlockEnd(r: string, i: nat, depth: nat): (k: nat)
    requires i <= |r|
    ensures i <= k <= |r|
    decreases |r| - i
  {
    if i == |r| then i
    else if PairAt(r, i, '/', '*') then BlockEnd(r, i + 2, depth + 1)
    else if PairAt(r, i, '*', '/') then (if depth <= 1 then i + 2 else BlockEnd(r, i + 2, depth - 1))
    else BlockEnd(r, i + 1, depth)
  }

  // Behind the first place from i on where the tag stands again, or the end.
  function TagEnd(r: string, i: nat, tag: string): (k: nat)
    requires i <= |r|
    ensures i <= k <= |r|
    ensures k < |r| ==> OccursAt(r, tag, k - |tag|) && i <= k - |tag|
    ensures forall j :: i <= j && OccursAt(r, tag, j) ==> k <= j + |tag|
    decreases |r| - i
  {
    if OccursAt(r, tag, i) then i + |tag|
    else if i == |r| then i
    else TagEnd(r, i + 1, tag)
  }

  // Where what begins at i ends: a part set apart, a word for the scanner, or one rune.
  function TokenEnd(rd: Reader, r: string, i: nat): (k: nat)
    requires i < |r|
    ensures i < k <= |r|
  {
    if IsQuote(rd, r[i]) then QuoteEnd(r, r[i], i + 1)
    else if IsBracket(rd, r[i]) then Behind(r, First(r, i + 1, ']'))
    else if PairAt(r, i, '-', '-') then First(r, i + 2, '\n')
    else if IsHash(rd, r[i]) then First(r, i + 1, '\n')
    else if PairAt(r, i, '/', '*') then BlockEnd(r, i + 2, 1)
    else if IsDollar(rd, r[i]) && TagCloses(r, i + 1) then
      var j := IdentEnd(r, i + 1);
      TagEnd(r, j + 1, r[i..j + 1])
    else if rd == Scanning && StartsWord(r[i]) then IdentEnd(r, i)
    else i + 1
  }

  // Read token by token from i, one begins at j.
  predicate StandsFrom(rd: Reader, r: string, i: nat, j: nat)
    decreases |r| - i
  {
    i == j || (i < |r| && i < j && StandsFrom(rd, r, TokenEnd(rd, r, i), j))
  }

  // What is at j stands by itself: it is in no part that is set apart.
  predicate Stands(rd: Reader, r: string, j: nat) { StandsFrom(rd, r, 0, j) }

  lemma {:induction false} StandsOn(rd: Reader, r: string, i: nat, j: nat)
    requires i <= j < |r| && StandsFrom(rd, r, i, j)
    ensures StandsFrom(rd, r, i, TokenEnd(rd, r, j))
    ensures forall m :: j < m < TokenEnd(rd, r, j) ==> !StandsFrom(rd, r, i, m)
    decreases |r| - i
  {
    hide TokenEnd;
    if i < j {
      StandsIsLater(rd, r, TokenEnd(rd, r, i), j);
      StandsOn(rd, r, TokenEnd(rd, r, i), j);
    } else {
      forall m | j < m < TokenEnd(rd, r, j) ensures !StandsFrom(rd, r, i, m) {
        if StandsFrom(rd, r, TokenEnd(rd, r, j), m) {
          StandsIsLater(rd, r, TokenEnd(rd, r, j), m);
        }
      }
    }
  }

  lemma StandsIsLater(rd: Reader, r: string, i: nat, j: nat)
    requires StandsFrom(rd, r, i, j)
    ensures i <= j
  {
  }

  /* ---- the reference lexer agrees ---- */

  lemma {:induction false} LineResume(r: string, i: nat)
    requires i <= |r|
    ensures Resume(Line, r, i) == First(r, i, '\n')
    decreases |r| - i
  {
    if i < |r| && r[i] != '\n' {
      LineResume(r, i + 1);
    }
  }

  lemma {:induction false} QuoteResume(r: string, q: char, i: nat)
    requires i <= |r| && q in "'\"`"
    ensures Resume(Quoted(q), r, i) == QuoteEnd(r, q, i)
    decreases |r| - i
  {
    if i < |r| {
      if PairAt(r, i, q, q) {
        QuoteResume(r, q, i + 2);
        assert Resume(Closing(q), r, i + 1) == Resume(Quoted(q), r, i + 2);
      } else if r[i] == '\\' {
        assert Resume(Quoted(q), r, i) == Resume(Escape(q), r, i + 1);
        if i + 1 < |r| {
          QuoteResume(r, q, i + 2);
          assert Resume(Escape(q), r, i + 1) == Resume(Quoted(q), r, i + 2);
        }
      } else if r[i] == q {
        assert Resume(Closing(q), r, i + 1) == i + 1;
      } else {
        QuoteResume(r, q, i + 1);
      }
    }
  }

  lemma {:induction false} BlockResume(r: string, i: nat, depth: nat)
    requires i <= |r| && depth >= 1
    ensures Resume(Block(depth), r, i) == BlockEnd(r, i, depth)
    decreases |r| - i
  {
    hide Resume;
    if i == |r| {
      ResumeAtEnd(Block(depth), r);
    } else if PairAt(r, i, '/', '*') {
      BlockOpens(r, i, depth);
      BlockResume(r, i + 2, depth + 1);
    } else if PairAt(r, i, '*', '/') {
      BlockCloses(r, i, depth);
      if depth > 1 {
        BlockResume(r, i + 2, depth - 1);
      }
    } else {
      BlockStays(r, i, depth);
      BlockResume(r, i + 1, depth);
    }
  }

  lemma ResumeAtEnd(s: State, r: string)
    ensures Resume(s, r, |r|) == |r|
  {
  }

  lemma BlockOpens(r: string, i: nat, depth: nat)
    requires PairAt(r, i, '/', '*')
    ensures Resume(Block(depth), r, i) == Resume(Block(depth + 1), r, i + 2)
  {
    assert Resume(Block(depth), r, i) == Resume(BlockSlash(depth), r, i + 1);
  }

  lemma TagResume(r: string, p: nat, tag: string)
    requires p <= |r| && tag != ""
    ensures Resume(Body(tag, ""), r, p) == TagEnd(r, p, tag)
  {
    hide Resume, TagEnd, Index;
    var k, e := Index(r[p..], tag), TagEnd(r, p, tag);
    BodyResume(tag, r, p, k);
    OccursBehind(r, p, tag, e - |tag| - p);
    OccursBehind(r, p, tag, k);
  }

  lemma OccursBehind(r: string, p: nat, tag: string, j: int)
    requires p <= |r|
    ensures OccursAt(r[p..], tag, j) <==> j >= 0 && OccursAt(r, tag, p + j)
  {
    if 0 <= j && p + j + |tag| <= |r| {
      assert r[p..][j..j + |tag|] == r[p + j..p + j + |tag|];
    }
  }

  function DialectFor(rd: Reader): Dialect {
    match rd case Splitting(e) => DialectOf(e) case Scanning => KEYWORDS
  }

  lemma MarkIsJump(rd: Reader, r: string, i: nat)
    requires i < |r| && AtToken(Run(DialectFor(rd), START, r, i), r, i)
    requires IsQuote(rd, r[i]) || IsBracket(rd, r[i]) || IsHash(rd, r[i])
    ensures Jumps(DialectFor(rd), r, i, TokenEnd(rd, r, i))
  {
    hide Run, Resume, Jumps, Cuts, WordsUpTo, AtToken;
    DelimiterJump(DialectFor(rd), r, i);
    if IsQuote(rd, r[i]) {
      QuoteResume(r, r[i], i + 1);
    } else if IsBracket(rd, r[i]) {
      BracketResume(r, i + 1, Behind(r, First(r, i + 1, ']')));
    } else {
      LineResume(r, i + 1);
    }
  }

  lemma CommentIsJump(rd: Reader, r: string, i: nat)
    requires i < |r| && AtToken(Run(DialectFor(rd), START, r, i), r, i)
    requires PairAt(r, i, '-', '-') || PairAt(r, i, '/', '*')
    ensures Jumps(DialectFor(rd), r, i, TokenEnd(rd, r, i))
  {
    hide Run, Resume, Jumps, Cuts, WordsUpTo, AtToken;
    CommentJump(DialectFor(rd), r, i);
    if r[i] == '-' {
      DashDash(r, i);
    } else {
      BlockResume(r, i + 2, 1);
    }
  }

  lemma DollarIsJump(rd: Reader, r: string, i: nat)
    requires i < |r| && AtToken(Run(DialectFor(rd), START, r, i), r, i)
    requires IsDollar(rd, r[i]) && TagCloses(r, i + 1)
    ensures Jumps(DialectFor(rd), r, i, TokenEnd(rd, r, i))
  {
    hide Run, Resume, Jumps, Cuts, WordsUpTo, AtToken, TagCloses;
    DollarJump(DialectFor(rd), r, i);
    TagIsText(r, i);
    var j := IdentEnd(r, i + 1);
    TagResume(r, j + 1, r[i..j + 1]);
  }

  // Set apart at i, by whatever mark.
  predicate Opens(rd: Reader, r: string, i: nat)
    requires i < |r|
  {
    || IsQuote(rd, r[i]) || IsBracket(rd, r[i]) || IsHash(rd, r[i])
    || PairAt(r, i, '-', '-') || PairAt(r, i, '/', '*')
    || (IsDollar(rd, r[i]) && TagCloses(r, i + 1))
  }

  // The lexer jumps over what is set apart.
  lemma OpensIsJump(rd: Reader, r: string, i: nat)
    requires i < |r| && AtToken(Run(DialectFor(rd), START, r, i), r, i) && Opens(rd, r, i)
    ensures Jumps(DialectFor(rd), r, i, TokenEnd(rd, r, i))
  {
    hide Run, Jumps, AtToken, TagCloses, TokenEnd, DialectFor, IsQuote, IsBracket, IsHash;
    if IsQuote(rd, r[i]) || IsBracket(rd, r[i]) || IsHash(rd, r[i]) {
      MarkIsJump(rd, r, i);
    } else if PairAt(r, i, '-', '-') || PairAt(r, i, '/', '*') {
      CommentIsJump(rd, r, i);
    } else {
      DollarIsJump(rd, r, i);
    }
  }

  // And it reads any other rune alone.
  lemma NothingOpens(rd: Reader, r: string, i: nat)
    requires i < |r| && !Opens(rd, r, i)
    ensures var d := DialectFor(rd);
      && !CommentOpens(r, i) && !Region(Enter(d, r[i])) && (r[i] == '$' && d.dollar ==> !TagCloses(r, i + 1))
    ensures !(rd == Scanning && StartsWord(r[i])) ==> TokenEnd(rd, r, i) == i + 1
  {
    hide TagCloses;
  }

  lemma TagIsText(r: string, i: nat)
    requires i < |r| && TagCloses(r, i + 1)
    ensures i < IdentEnd(r, i + 1) < |r|
  {
  }

  lemma DashDash(r: string, i: nat)
    requires PairAt(r, i, '-', '-')
    ensures Resume(Line, r, i) == First(r, i + 2, '\n')
  {
    LineResume(r, i);
    assert First(r, i, '\n') == First(r, i + 1, '\n') == First(r, i + 2, '\n');
  }

  /* ---- the semicolons that cut ---- */

  lemma SplitToken(e: Engine, r: string, i: nat)
    requires i < |r| && AtToken(Run(DialectOf(e), START, r, i), r, i)
    ensures var d, k := DialectOf(e), TokenEnd(Splitting(e), r, i);
      && AtToken(Run(d, START, r, k), r, k)
      && (forall j :: i < j < k ==> !CutAt(d, START, r, j))
      && (CutAt(d, START, r, i) <==> r[i] == ';')
  {
    hide Run, Cuts, WordsUpTo, AtToken, TokenEnd, CutAt;
    var d, rd := DialectOf(e), Splitting(e);
    assert DialectFor(rd) == d;
    if Opens(rd, r, i) {
      OpensIsJump(rd, r, i);
      CutsGrow(d, r, i, TokenEnd(rd, r, i));
      SemicolonOpensNothing(rd, r, i);
    } else {
      NothingOpens(rd, r, i);
      SingleStep(d, r, i);
    }
  }

  lemma SemicolonOpensNothing(rd: Reader, r: string, i: nat)
    requires i < |r| && Opens(rd, r, i)
    ensures r[i] != ';'
  {
  }

  lemma {:induction false} CutsStand(e: Engine, r: string, i: nat, j: nat)
    requires i <= j < |r| && AtToken(Run(DialectOf(e), START, r, i), r, i)
    ensures CutAt(DialectOf(e), START, r, j) <==> r[j] == ';' && StandsFrom(Splitting(e), r, i, j)
    decreases |r| - i
  {
    hide Run, AtToken, TokenEnd, CutAt;
    SplitToken(e, r, i);
    var k := TokenEnd(Splitting(e), r, i);
    if k <= j {
      CutsStand(e, r, k, j);
    } else if i < j && StandsFrom(Splitting(e), r, k, j) {
      StandsIsLater(Splitting(e), r, k, j);
    }
  }

  // The lexer cuts at exactly the semicolons that stand by themselves.
  lemma CutIffStands(e: Engine, r: string, j: nat)
    requires j < |r|
    ensures CutAt(DialectOf(e), START, r, j) <==> r[j] == ';' && Stands(Splitting(e), r, j)
  {
    hide CutAt;
    CutsStand(e, r, 0, j);
  }

  /* ---- the words the scanner finds ---- */

  // A word begins at p and goes on for as long as identifier runes do.
  predicate WordFrom(r: string, p: nat, w: string) {
    p < |r| && StartsWord(r[p]) && w == r[p..IdentEnd(r, p)]
  }

  // It stands by itself for the keyword scanner.
  predicate StandingWord(r: string, p: nat, w: string) { Stands(Scanning, r, p) && WordFrom(r, p, w) }

  // The words that begin from i on, in order.
  function WordsFrom(r: string, i: nat): seq<string>
    decreases |r| - i
  {
    if i >= |r| then []
    else (if StartsWord(r[i]) then [r[i..IdentEnd(r, i)]] else []) + WordsFrom(r, TokenEnd(Scanning, r, i))
  }

  ghost predicate WordStandsFrom(r: string, i: nat, w: string) {
    exists p: nat :: StandsFrom(Scanning, r, i, p) && WordFrom(r, p, w)
  }

  lemma {:induction false} WordsFromStand(r: string, i: nat, w: string)
    ensures w in WordsFrom(r, i) <==> WordStandsFrom(r, i, w)
    decreases |r| - i
  {
    hide TokenEnd, WordFrom;
    if i < |r| {
      var k := TokenEnd(Scanning, r, i);
      WordsFromStand(r, k, w);
      assert WordFrom(r, i, w) <==> StartsWord(r[i]) && w == r[i..IdentEnd(r, i)] by { WordHere(r, i, w); }
      assert StandsFrom(Scanning, r, i, i);
      if p: nat :| StandsFrom(Scanning, r, k, p) && WordFrom(r, p, w) {
        StandsIsLater(Scanning, r, k, p);
        assert StandsFrom(Scanning, r, i, p);
      }
    } else {
      forall p: nat ensures !(StandsFrom(Scanning, r, i, p) && WordFrom(r, p, w)) {
        NoWordBehind(r, i, p, w);
      }
    }
  }

  lemma WordHere(r: string, i: nat, w: string)
    requires i < |r|
    ensures WordFrom(r, i, w) <==> StartsWord(r[i]) && w == r[i..IdentEnd(r, i)]
  {
  }

  lemma NoWordBehind(r: string, i: nat, p: nat, w: string)
    requires i >= |r|
    ensures !(StandsFrom(Scanning, r, i, p) && WordFrom(r, p, w))
  {
  }
}

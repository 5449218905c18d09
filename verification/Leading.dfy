/** StripLeading and firstKeyword (core/dbcore/sqltext.go:224-260). */
module Leading {
  import opened Text
  import opened Lexer
  import opened Skippers
  import opened Tokens

  // Where the whitespace, comments and opening parentheses from i on end.
  function LeadingEnd(r: string, i: nat): (k: nat)
    requires i <= |r|
    ensures i <= k <= |r|
    decreases |r| - i
  {
    if i == |r| then i
    else if IsSpace(r[i]) || r[i] == '(' then LeadingEnd(r, i + 1)
    else if CommentOpens(r, i) then LeadingEnd(r, CommentEnd(r, i))
    else i
  }

  function CommentEnd(r: string, i: nat): (k: nat)
    requires i < |r| && CommentOpens(r, i)
    ensures i < k <= |r|
  {
    if r[i] == '-' then Resume(Line, r, i) else Resume(Block(1), r, i + 2)
  }

  function Stripped(sql: string): string { sql[LeadingEnd(sql, 0)..] }

  predicate OnlyComments(sql: string) { Stripped(sql) == "" }

  method StripLeading(sql: string) returns (rest: string)
    ensures rest == Stripped(sql)
  {
    var r := sql;
    var i := 0;
    while i < |r|
      invariant i <= |r| && LeadingEnd(r, i) == LeadingEnd(r, 0)
      decreases |r| - i
    {
      if IsSpace(r[i]) {
        i := i + 1;
      } else if r[i] == '-' && i + 1 < |r| && r[i + 1] == '-' {
        i := SkipLineComment(r, i);
      } else if r[i] == '/' && i + 1 < |r| && r[i + 1] == '*' {
        i := SkipBlockComment(r, i);
      } else if r[i] == '(' {
        i := i + 1;
      } else {
        return r[i..];
      }
    }
    return "";
  }

  /* ---- what is stripped, in the lexer's terms ---- */

  // The first rune of the statement proper: outside every region, and neither
  // whitespace, an opening parenthesis nor part of a comment opener.
  predicate Significant(d: Dialect, r: string, i: nat)
    requires i < |r|
  {
    && AtToken(Run(d, START, r, i), r, i)
    && !IsSpace(r[i]) && r[i] != '(' && !CommentOpens(r, i)
  }

  // At the start, at the newline that ends a line comment, or in a comment that
  // the end of the text cuts short.
  predicate Blank(s: State, r: string, i: nat)
    requires i <= |r|
  {
    && (s == START || InComment(s))
    && (i < |r| ==> s == START || (s.Line? && r[i] == '\n'))
  }

  predicate InComment(s: State) { s.Line? || s.Block? || s.BlockSlash? || s.BlockStar? }

  // From i to k there is nothing but blanks: no cut, no word, nothing significant.
  predicate Idle(d: Dialect, r: string, i: nat, k: nat)
    requires i <= k <= |r|
  {
    && Blank(Run(d, START, r, k), r, k)
    && Cuts(d, r, k) == Cuts(d, r, i)
    && WordsUpTo(d, START, r, k) == WordsUpTo(d, START, r, i)
    && (forall j :: i <= j < k ==> !Significant(d, r, j))
    && (forall j :: i <= j < k ==> !CutAt(d, START, r, j))
  }

  lemma BlankStep(d: Dialect, r: string, i: nat)
    requires i < |r| && Blank(Run(d, START, r, i), r, i) && (IsSpace(r[i]) || r[i] == '(')
    ensures Idle(d, r, i, i + 1)
  {
    hide AtToken;
    BlankRune(d, Run(d, START, r, i), r[i]);
  }

  lemma BlankRune(d: Dialect, s: State, c: char)
    requires (s == START || (s.Line? && c == '\n')) && (IsSpace(c) || c == '(')
    ensures Step(d, s, c) == START && Emits(s, c) == []
  {
  }

  lemma CutsGrow(d: Dialect, r: string, i: nat, k: nat)
    requires i <= k <= |r|
    ensures |Cuts(d, r, i)| <= |Cuts(d, r, k)|
    ensures Cuts(d, r, i) == Cuts(d, r, k) ==> forall j :: i <= j < k ==> !CutAt(d, START, r, j)
  {
    hide Run, CutAt;
    if i < k {
      CutsGrow(d, r, i, k - 1);
    }
  }

  // Inside a comment nothing is significant.
  lemma BlankComment(d: Dialect, r: string, i: nat)
    requires i < |r| && Blank(Run(d, START, r, i), r, i) && CommentOpens(r, i)
    ensures Idle(d, r, i, CommentEnd(r, i))
  {
    hide Run, Cuts, WordsUpTo, Step, CutAt;
    var k := CommentEnd(r, i);
    FreshStep(d, r, i);
    CommentOpener(d, r, i);
    var open := if r[i] == '-' then Line else Block(1);
    if r[i] == '-' {
      assert Resume(Line, r, i) == Resume(Line, r, i + 1) == Resume(Line, r, i + 2);
    }
    assert k == Resume(open, r, i + 2);
    RegionJump(d, r, i + 2);
    CutsGrow(d, r, i, k);
    CommentEndBlank(d, r, i + 2);
    forall j | i <= j < k ensures !Significant(d, r, j) {
      if j >= i + 2 {
        assert Inside(Run(d, START, r, j), r[j]);
      }
    }
  }

  lemma {:induction false} CommentEndBlank(d: Dialect, r: string, i: nat)
    requires i <= |r| && InComment(Run(d, START, r, i))
    ensures var k := Resume(Run(d, START, r, i), r, i);
      && Blank(Run(d, START, r, k), r, k)
      && (forall j :: i <= j < k ==> Inside(Run(d, START, r, j), r[j]))
    decreases |r| - i
  {
    hide Run, Step;
    var s := Run(d, START, r, i);
    if i < |r| && Inside(s, r[i]) {
      StepInside(d, r, i);
      if Within(s, r[i]) != START {
        CommentEndBlank(d, r, i + 1);
      } else {
        assert Resume(START, r, i + 1) == i + 1;
      }
    }
  }

  lemma {:induction false} IdleTo(d: Dialect, r: string, i: nat)
    requires i <= |r| && Blank(Run(d, START, r, i), r, i)
    ensures Idle(d, r, i, LeadingEnd(r, i))
    ensures LeadingEnd(r, i) < |r| ==> Significant(d, r, LeadingEnd(r, i))
    decreases |r| - i
  {
    hide Run, Cuts, WordsUpTo, Step, CutAt;
    if i < |r| {
      if IsSpace(r[i]) || r[i] == '(' {
        BlankStep(d, r, i);
        IdleTo(d, r, i + 1);
      } else if CommentOpens(r, i) {
        BlankComment(d, r, i);
        IdleTo(d, r, CommentEnd(r, i));
      }
    }
  }

  // StripLeading cuts at the first significant rune, in every dialect: the
  // engine's own and the one keywords are scanned with.
  lemma StrippedIsFirstSignificant(d: Dialect, sql: string)
    ensures var k := LeadingEnd(sql, 0);
      && (forall j :: 0 <= j < k ==> !Significant(d, sql, j))
      && (k < |sql| ==> Significant(d, sql, k))
  {
    IdleTo(d, sql, 0);
  }

  // Stripping twice strips no more than once.
  lemma StripIdempotent(sql: string)
    ensures Stripped(Stripped(sql)) == Stripped(sql)
  {
    var s := Stripped(sql);
    if s != "" {
      var k := LeadingEnd(sql, 0);
      LeadingEndStops(sql, 0);
      assert s[0] == sql[k];
      assert |s| > 1 ==> s[1] == sql[k + 1];
      assert CommentOpens(s, 0) == CommentOpens(sql, k);
      assert LeadingEnd(s, 0) == 0;
    }
  }

  lemma {:induction false} LeadingEndStops(r: string, i: nat)
    requires i <= |r| && LeadingEnd(r, i) < |r|
    ensures var k := LeadingEnd(r, i); !IsSpace(r[k]) && r[k] != '(' && !CommentOpens(r, k)
    decreases |r| - i
  {
    if IsSpace(r[i]) || r[i] == '(' {
      LeadingEndStops(r, i + 1);
    } else if CommentOpens(r, i) {
      LeadingEndStops(r, CommentEnd(r, i));
    }
  }

  /* ---- the first keyword ---- */

  // strings.IndexFunc: the first rune that cannot belong to a keyword.
  function KeywordEnd(s: string, i: nat): (k: nat)
    requires i <= |s|
    ensures i <= k <= |s|
    ensures forall j :: i <= j < k ==> StartsWord(s[j])
    ensures k < |s| ==> !StartsWord(s[k])
    decreases |s| - i
  {
    if i < |s| && StartsWord(s[i]) then KeywordEnd(s, i + 1) else i
  }

  function FirstKeyword(sql: string): string {
    var s := Stripped(sql);
    ToUpper(s[..KeywordEnd(s, 0)])
  }
}

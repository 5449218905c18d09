/** How one jump of a skip-ahead loop looks to the reference lexer. A token
    position is one where such a loop may stand: outside every region, with
    nothing half open behind it. From there each branch of the loops in
    core/dbcore/sqltext.go opens one region and lands on the next token position. */
module Tokens {
  import opened Text
  import opened Lexer
  import opened Skippers

  predicate AtToken(s: State, r: string, i: nat)
    requires i <= |r|
  {
    i < |r| ==>
      && !Inside(s, r[i])
      && !(s.Dash? && r[i] == '-')
      && !(s.Slash? && r[i] == '*')
      && (s.Tag? ==> s.tag != "" && !TagCloses(r, i))
  }

  predicate CommentOpens(r: string, i: nat)
    requires i < |r|
  {
    i + 1 < |r| && ((r[i] == '-' && r[i + 1] == '-') || (r[i] == '/' && r[i + 1] == '*'))
  }

  // What lies between token positions i and k: no cut, and only the word that
  // the rune at i ended.
  predicate Jumps(d: Dialect, r: string, i: nat, k: nat)
    requires i < |r| && k <= |r|
  {
    && AtToken(Run(d, START, r, k), r, k)
    && Cuts(d, r, k) == Cuts(d, r, i)
    && WordsUpTo(d, START, r, k) == WordsUpTo(d, START, r, i) + Emits(Run(d, START, r, i), r[i])
    && Unfinished(Run(d, START, r, k)) == []
  }

  lemma RegionJump(d: Dialect, r: string, m: nat)
    requires m <= |r| && Region(Run(d, START, r, m))
    ensures var k := Resume(Run(d, START, r, m), r, m);
      && AtToken(Run(d, START, r, k), r, k)
      && Cuts(d, r, k) == Cuts(d, r, m)
      && WordsUpTo(d, START, r, k) == WordsUpTo(d, START, r, m)
      && Unfinished(Run(d, START, r, k)) == []
  {
    var k := Resume(Run(d, START, r, m), r, m);
    ResumeIsRegionEnd(d, r, m);
    NothingInRegion(d, r, m, k);
  }

  // A rune that is no identifier rune starts afresh at a token position.
  lemma FreshStep(d: Dialect, r: string, i: nat)
    requires i < |r| && AtToken(Run(d, START, r, i), r, i) && !IsIdent(r[i])
    ensures Run(d, START, r, i + 1) == Enter(d, r[i])
    ensures r[i] != ';' ==> Cuts(d, r, i + 1) == Cuts(d, r, i)
    ensures WordsUpTo(d, START, r, i + 1) ==
      WordsUpTo(d, START, r, i) + Emits(Run(d, START, r, i), r[i])
  {
    if Run(d, START, r, i).Tag? {
      assert IdentEnd(r, i) == i;
    }
  }

  // A quote, bracket or hash opens its region at once.
  lemma DelimiterJump(d: Dialect, r: string, i: nat)
    requires i < |r| && AtToken(Run(d, START, r, i), r, i)
    requires Region(Enter(d, r[i]))
    ensures Jumps(d, r, i, Resume(Enter(d, r[i]), r, i + 1))
  {
    hide Run, Cuts, WordsUpTo, Resume;
    FreshStep(d, r, i);
    RegionJump(d, r, i + 1);
  }

  lemma CommentJump(d: Dialect, r: string, i: nat)
    requires i < |r| && AtToken(Run(d, START, r, i), r, i) && CommentOpens(r, i)
    ensures Jumps(d, r, i, if r[i] == '-' then Resume(Line, r, i) else Resume(Block(1), r, i + 2))
  {
    hide Run, Cuts, WordsUpTo, Step;
    FreshStep(d, r, i);
    CommentOpener(d, r, i);
    if r[i] == '-' {
      assert Resume(Line, r, i) == Resume(Line, r, i + 1) == Resume(Line, r, i + 2);
    }
    RegionJump(d, r, i + 2);
  }

  lemma CommentOpener(d: Dialect, r: string, i: nat)
    requires i < |r| && CommentOpens(r, i) && Run(d, START, r, i + 1) == Enter(d, r[i])
    ensures Run(d, START, r, i + 2) == if r[i] == '-' then Line else Block(1)
    ensures Cuts(d, r, i + 2) == Cuts(d, r, i + 1)
    ensures WordsUpTo(d, START, r, i + 2) == WordsUpTo(d, START, r, i + 1)
  {
  }

  // Identifier runes after a '$' extend the tag it may open.
  lemma {:induction false} TagRun(d: Dialect, r: string, i: nat, j: nat)
    requires i < |r| && r[i] == '$' && i < j <= IdentEnd(r, i + 1)
    requires Run(d, START, r, i + 1) == Tag("$")
    ensures Run(d, START, r, j) == Tag(r[i..j])
    ensures Cuts(d, r, j) == Cuts(d, r, i + 1)
    ensures WordsUpTo(d, START, r, j) == WordsUpTo(d, START, r, i + 1)
  {
    hide Run, Cuts, WordsUpTo;
    if j == i + 1 {
      assert r[i..j] == "$";
    } else {
      TagRun(d, r, i, j - 1);
      TagStep(d, r, j - 1, r[i..j - 1]);
      assert r[i..j] == r[i..j - 1] + [r[j - 1]];
    }
  }

  lemma TagStep(d: Dialect, r: string, j: nat, tag: string)
    requires j < |r| && IsIdent(r[j]) && Run(d, START, r, j) == Tag(tag)
    ensures Run(d, START, r, j + 1) == Tag(tag + [r[j]])
    ensures Cuts(d, r, j + 1) == Cuts(d, r, j)
    ensures WordsUpTo(d, START, r, j + 1) == WordsUpTo(d, START, r, j)
  {
  }

  lemma DollarJump(d: Dialect, r: string, i: nat)
    requires d.dollar && i < |r| && r[i] == '$' && AtToken(Run(d, START, r, i), r, i)
    requires TagCloses(r, i + 1)
    ensures var j := IdentEnd(r, i + 1);
      Jumps(d, r, i, Resume(Body(r[i..j + 1], ""), r, j + 1))
  {
    hide Run, Cuts, WordsUpTo, Resume;
    var j := IdentEnd(r, i + 1);
    FreshStep(d, r, i);
    TagRun(d, r, i, j);
    TagOpensBody(d, r, j, r[i..j]);
    assert r[i..j + 1] == r[i..j] + "$";
    RegionJump(d, r, j + 1);
  }

  lemma TagOpensBody(d: Dialect, r: string, j: nat, tag: string)
    requires j < |r| && r[j] == '$' && Run(d, START, r, j) == Tag(tag)
    ensures Run(d, START, r, j + 1) == Body(tag + "$", "")
    ensures Cuts(d, r, j + 1) == Cuts(d, r, j)
    ensures WordsUpTo(d, START, r, j + 1) == WordsUpTo(d, START, r, j)
  {
  }

  // Any other rune is read alone.
  lemma SingleStep(d: Dialect, r: string, i: nat)
    requires i < |r| && AtToken(Run(d, START, r, i), r, i)
    requires !CommentOpens(r, i) && !Region(Enter(d, r[i]))
    requires r[i] == '$' && d.dollar ==> !TagCloses(r, i + 1)
    ensures AtToken(Run(d, START, r, i + 1), r, i + 1)
    ensures CutAt(d, START, r, i) <==> r[i] == ';'
  {
    var s := Run(d, START, r, i);
    if s.Tag? && IsIdent(r[i]) {
      assert IdentEnd(r, i) == IdentEnd(r, i + 1);
    }
  }
}

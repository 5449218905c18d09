/** The skip-ahead loops of core/dbcore/sqltext.go (lines 103-181). Each jumps over
    one quoted, bracketed, commented or dollar-quoted region. Resume says where the
    reference lexer leaves that region, and every loop is proved to stop there. */
module Skippers {
  import opened Text
  import opened Lexer

  // Where a text in state s at position i is first outside its region again.
  function Resume(s: State, r: string, i: nat): (k: nat)
    requires i <= |r|
    ensures i <= k <= |r|
    decreases |r| - i
  {
    if i == |r| || !Inside(s, r[i]) then i else Resume(Within(s, r[i]), r, i + 1)
  }

  // The states a region goes through from its first rune to its last.
  predicate Region(s: State) { !s.Code? && !s.Dash? && !s.Slash? && !s.Tag? }

  lemma RegionStays(s: State, c: char)
    requires Region(s) && Inside(s, c)
    ensures Region(Within(s, c)) || Within(s, c) == START
  {
  }

  lemma StepInside(d: Dialect, r: string, i: nat)
    requires i < |r| && Inside(Run(d, START, r, i), r[i])
    ensures Run(d, START, r, i + 1) == Within(Run(d, START, r, i), r[i])
    ensures Cuts(d, r, i + 1) == Cuts(d, r, i)
    ensures WordsUpTo(d, START, r, i + 1) == WordsUpTo(d, START, r, i)
  {
    hide Within, Enter;
    assert Emits(Run(d, START, r, i), r[i]) == [];
    assert !CutAt(d, START, r, i);
  }

  // Up to Resume every rune is inside the region; there, none is.
  lemma {:induction false} ResumeIsRegionEnd(d: Dialect, r: string, i: nat)
    requires i <= |r| && Region(Run(d, START, r, i))
    ensures var k := Resume(Run(d, START, r, i), r, i);
      && (forall j :: i <= j < k ==> Inside(Run(d, START, r, j), r[j]))
      && (k < |r| ==> !Inside(Run(d, START, r, k), r[k]))
      && (Region(Run(d, START, r, k)) || Run(d, START, r, k) == START)
    decreases |r| - i
  {
    hide Run, Within, Step;
    var s := Run(d, START, r, i);
    if i < |r| && Inside(s, r[i]) {
      StepInside(d, r, i);
      RegionStays(s, r[i]);
      if Region(Within(s, r[i])) {
        ResumeIsRegionEnd(d, r, i + 1);
      } else {
        assert Resume(START, r, i + 1) == i + 1;
      }
    }
  }

  // So a region holds no cut and no bare word.
  lemma {:induction false} NothingInRegion(d: Dialect, r: string, i: nat, k: nat)
    requires i <= k <= |r|
    requires forall j :: i <= j < k ==> Inside(Run(d, START, r, j), r[j])
    ensures Cuts(d, r, k) == Cuts(d, r, i)
    ensures WordsUpTo(d, START, r, k) == WordsUpTo(d, START, r, i)
  {
    hide Run, Cuts, WordsUpTo;
    if i < k {
      NothingInRegion(d, r, i, k - 1);
      StepInside(d, r, k - 1);
    }
  }

  /* ---- the loops ---- */

  method SkipQuoted(r: string, from: nat, quote: char) returns (i: nat)
    requires from < |r|
    ensures i == Resume(Quoted(quote), r, from + 1)
  {
    i := from + 1;
    while i < |r|
      invariant from < i <= |r|
      invariant Resume(Quoted(quote), r, i) == Resume(Quoted(quote), r, from + 1)
    {
      if r[i] == quote {
        if i + 1 < |r| && r[i + 1] == quote {
          i := i + 2;
          continue;
        }
        return i + 1;
      }
      if r[i] == '\\' && i + 1 < |r| {
        i := i + 2;
        continue;
      }
      i := i + 1;
    }
  }

  method SkipUntil(r: string, from: nat, end: char) returns (i: nat)
    requires from <= |r|
    ensures from <= i <= |r|
    ensures forall j :: from <= j < i - 1 ==> r[j] != end
    ensures i < |r| ==> from < i && r[i - 1] == end
  {
    i := from;
    while i < |r| && r[i] != end
      invariant from <= i <= |r|
      invariant forall j :: from <= j < i ==> r[j] != end
    {
      i := i + 1;
    }
    if i < |r| {
      i := i + 1;
    }
  }

  // For a closing bracket the first occurrence is where the bracket region ends.
  lemma {:induction false} BracketResume(r: string, i: nat, k: nat)
    requires i <= k <= |r|
    requires forall j :: i <= j < k - 1 ==> r[j] != ']'
    requires k < |r| ==> i < k && r[k - 1] == ']'
    ensures k == Resume(Bracket, r, i)
    decreases k - i
  {
    if i < k {
      if r[i] == ']' {
        assert Resume(START, r, i + 1) == i + 1;
      } else {
        assert Within(Bracket, r[i]) == Bracket;
        BracketResume(r, i + 1, k);
      }
    }
  }

  method SkipLineComment(r: string, from: nat) returns (i: nat)
    requires from <= |r|
    ensures i == Resume(Line, r, from)
  {
    i := from;
    while i < |r| && r[i] != '\n'
      invariant from <= i <= |r|
      invariant Resume(Line, r, i) == Resume(Line, r, from)
    {
      i := i + 1;
    }
  }

  method SkipBlockComment(r: string, from: nat) returns (i: nat)
    requires from + 2 <= |r|
    ensures i == Resume(Block(1), r, from + 2)
  {
    i := from + 2;
    var depth := 1;
    while i < |r|
      invariant from + 2 <= i <= |r| && depth >= 1
      invariant Resume(Block(depth), r, i) == Resume(Block(1), r, from + 2)
    {
      if r[i] == '/' && i + 1 < |r| && r[i + 1] == '*' {
        depth := depth + 1;
        i := i + 2;
        continue;
      }
      if r[i] == '*' && i + 1 < |r| && r[i + 1] == '/' {
        BlockCloses(r, i, depth);
        depth := depth - 1;
        i := i + 2;
        if depth == 0 {
          return;
        }
        continue;
      }
      BlockStays(r, i, depth);
      i := i + 1;
    }
  }

  lemma BlockCloses(r: string, i: nat, depth: nat)
    requires depth >= 1 && i + 1 < |r| && r[i] == '*' && r[i + 1] == '/'
    ensures Resume(Block(depth), r, i) ==
      if depth == 1 then i + 2 else Resume(Block(depth - 1), r, i + 2)
  {
    assert Resume(BlockStar(depth), r, i + 1) == Resume(Block(depth), r, i);
  }

  // A '/' or '*' that is not the first half of a delimiter changes nothing.
  lemma BlockStays(r: string, i: nat, depth: nat)
    requires depth >= 1 && i < |r|
    requires !(r[i] == '/' && i + 1 < |r| && r[i + 1] == '*')
    requires !(r[i] == '*' && i + 1 < |r| && r[i + 1] == '/')
    ensures Resume(Block(depth), r, i) == Resume(Block(depth), r, i + 1)
  {
    var s := Within(Block(depth), r[i]);
    assert Resume(Block(depth), r, i) == Resume(s, r, i + 1);
    if i + 1 < |r| {
      assert Within(s, r[i + 1]) == Within(Block(depth), r[i + 1]);
    }
  }

  /* ---- PostgreSQL dollar quotes ---- */

  // The end of the identifier runes that start at i.
  function IdentEnd(r: string, i: nat): (k: nat)
    requires i <= |r|
    ensures i <= k <= |r|
    ensures forall j :: i <= j < k ==> IsIdent(r[j])
    ensures k < |r| ==> !IsIdent(r[k])
    decreases |r| - i
  {
    if i < |r| && IsIdent(r[i]) then IdentEnd(r, i + 1) else i
  }

  // A '$' before i, with only identifier runes after it, opens a dollar body.
  predicate TagCloses(r: string, i: nat)
    requires i <= |r|
  {
    IdentEnd(r, i) < |r| && r[IdentEnd(r, i)] == '$'
  }

  predicate OccursAt(s: string, t: string, j: int) {
    0 <= j && j + |t| <= |s| && s[j..j + |t|] == t
  }

  ghost predicate FirstOccurrence(s: string, t: string, k: int) {
    && (k == -1 || OccursAt(s, t, k))
    && (forall j :: OccursAt(s, t, j) ==> 0 <= k <= j)
  }

  // strings.Index: the first place where t occurs in s, or -1.
  function Index(s: string, t: string): (k: int)
    ensures FirstOccurrence(s, t, k)
  {
    if OccursAt(s, t, 0) then 0
    else if s == "" then -1
    else
      var k := Index(s[1..], t);
      FirstInTail(s, t, k);
      if k < 0 then -1 else k + 1
  }

  lemma OccursInTail(s: string, t: string, j: nat)
    requires s != ""
    ensures OccursAt(s, t, j + 1) <==> OccursAt(s[1..], t, j)
  {
    if j + 1 + |t| <= |s| {
      assert s[j + 1..j + 1 + |t|] == s[1..][j..j + |t|];
    }
  }

  lemma FirstInTail(s: string, t: string, k: int)
    requires s != "" && !OccursAt(s, t, 0) && FirstOccurrence(s[1..], t, k)
    ensures FirstOccurrence(s, t, if k < 0 then -1 else k + 1)
  {
    if k >= 0 {
      OccursInTail(s, t, k);
    }
    forall j | OccursAt(s, t, j) ensures 0 <= k && k + 1 <= j {
      OccursInTail(s, t, j - 1);
    }
  }

  method SkipDollarQuoted(r: string, i: nat) returns (next: nat, ok: bool)
    requires i < |r| && r[i] == '$'
    ensures ok == TagCloses(r, i + 1)
    ensures ok ==> var j := IdentEnd(r, i + 1);
      next == Resume(Body(r[i..j + 1], ""), r, j + 1)
    ensures !ok ==> next == i
  {
    var j := i + 1;
    while j < |r| && (r[j] == '_' || IsLetter(r[j]) || IsDigit(r[j]))
      invariant i < j <= |r|
      invariant IdentEnd(r, j) == IdentEnd(r, i + 1)
    {
      j := j + 1;
    }
    if j >= |r| || r[j] != '$' {
      return i, false;
    }
    var tag, rest := r[i..j + 1], r[j + 1..];
    var end := Index(rest, tag);
    BodyResume(tag, r, j + 1, end);
    if end < 0 {
      return |r|, true;
    }
    return j + 1 + |rest[..end]| + |tag|, true;
  }

  lemma EndsWithIsOccurrence(tag: string, r: string, p: nat, i: nat)
    requires p <= i <= |r|
    ensures EndsWith(r[p..i], tag) <==> OccursAt(r[p..], tag, i - p - |tag|)
  {
    var j := i - p - |tag|;
    if j >= 0 {
      assert r[p..][j..j + |tag|] == r[p..i][j..];
    }
  }

  lemma BodyStep(tag: string, r: string, p: nat, i: nat)
    requires p <= i < |r|
    ensures Resume(Body(tag, r[p..i]), r, i) ==
      if EndsWith(r[p..i + 1], tag) then i + 1 else Resume(Body(tag, r[p..i + 1]), r, i + 1)
  {
    assert r[p..i] + [r[i]] == r[p..i + 1];
    assert Resume(START, r, i + 1) == i + 1;
  }

  // A dollar body that starts at p ends at the first e where it ends with its tag.
  lemma {:induction false} BodyEnds(tag: string, r: string, p: nat, i: nat, e: nat)
    requires p <= i <= e <= |r|
    requires forall m :: i < m < e ==> !EndsWith(r[p..m], tag)
    requires e < |r| ==> i < e && EndsWith(r[p..e], tag)
    ensures Resume(Body(tag, r[p..i]), r, i) == e
    decreases e - i
  {
    if i < e {
      BodyStep(tag, r, p, i);
      if i + 1 < e {
        BodyEnds(tag, r, p, i + 1, e);
      } else if !EndsWith(r[p..e], tag) {
        assert Resume(Body(tag, r[p..e]), r, |r|) == |r|;
      }
    }
  }

  // Which is right after the first occurrence k of the tag in what follows p.
  lemma BodyResume(tag: string, r: string, p: nat, k: int)
    requires tag != "" && p <= |r| && FirstOccurrence(r[p..], tag, k)
    ensures Resume(Body(tag, ""), r, p) == if k < 0 then |r| else p + k + |tag|
  {
    var e := if k < 0 then |r| else p + k + |tag|;
    forall m | p < m < e ensures !EndsWith(r[p..m], tag) {
      EndsWithIsOccurrence(tag, r, p, m);
    }
    if e < |r| {
      EndsWithIsOccurrence(tag, r, p, e);
    }
    assert r[p..p] == "";
    hide OccursAt, EndsWith;
    BodyEnds(tag, r, p, p, e);
  }
}

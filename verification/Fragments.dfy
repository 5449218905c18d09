/** Pieces of printed SQL, as the statement lexer reads them: how fragments that
    leave the lexer outside every region combine into one statement. */
module Fragments {
  import opened Text
  import opened Lexer
  import opened Skippers
  import opened Leading
  import opened Splitter
  import opened SplitLaws
  import opened GoLaws
  import opened Quoting

  // Outside every region, whatever the next rune turns out to open or close.
  predicate Level(s: State) { s.Code? || s.Dash? || s.Slash? || s.Closing? || s.Tag? }

  // Read from the start, the text makes no cut.
  ghost predicate NoCut(d: Dialect, r: string) {
    forall j :: 0 <= j < |r| ==> !CutAt(d, START, r, j)
  }

  // And it ends outside every region.
  ghost predicate Fragment(d: Dialect, r: string) { NoCut(d, r) && Level(Run(d, START, r, |r|)) }

  // Punctuation that settles whatever was pending before it.
  predicate Punct(c: char) { c in " ,().\n" }

  lemma {:induction false} QuoteMarks(d: Dialect, r: string, i: nat)
    requires i <= |r|
    ensures var s := Run(d, START, r, i);
      s.Quoted? || s.Escape? || s.Closing? ==> s.quote in "'\"`"
  {
    if i > 0 {
      QuoteMarks(d, r, i - 1);
    }
  }

  lemma PunctSettles(d: Dialect, s: State, c: char)
    requires Punct(c) && (s.Quoted? || s.Escape? || s.Closing? ==> s.quote in "'\"`")
    ensures Level(s) ==> Step(d, s, c) == START
    ensures Level(Step(d, s, c)) ==> Step(d, s, c) == START
  {
  }

  lemma SettledByLast(d: Dialect, a: string)
    requires Fragment(d, a) && a != "" && Punct(a[|a| - 1])
    ensures Run(d, START, a, |a|) == START
  {
    hide Step, Punct;
    QuoteMarks(d, a, |a| - 1);
    PunctSettles(d, Run(d, START, a, |a| - 1), a[|a| - 1]);
  }

  // Behind a fragment, a text that opens with punctuation is read from the start.
  lemma {:induction false} RunBehind(d: Dialect, a: string, b: string, j: nat)
    requires Fragment(d, a) && 0 < j <= |b|
    requires Run(d, START, a, |a|) == START || Punct(b[0])
    ensures Run(d, START, a + b, |a| + j) == Run(d, START, b, j)
  {
    hide Step, Punct;
    RunConcat(d, START, a, b, j - 1);
    assert (a + b)[|a| + j - 1] == b[j - 1];
    if j == 1 {
      QuoteMarks(d, a, |a|);
      if Punct(b[0]) {
        PunctSettles(d, Run(d, START, a, |a|), b[0]);
        PunctSettles(d, START, b[0]);
      }
    } else {
      RunBehind(d, a, b, j - 1);
    }
  }

  lemma FragmentConcat(d: Dialect, a: string, b: string)
    requires Fragment(d, a) && Fragment(d, b)
    requires a == "" || b == "" || Punct(a[|a| - 1]) || Punct(b[0])
    ensures Fragment(d, a + b)
  {
    hide Run, Step, Punct, Level;
    if a == "" {
      assert a + b == b;
    } else if b == "" {
      assert a + b == a;
    } else {
      if Punct(a[|a| - 1]) {
        SettledByLast(d, a);
      }
      RunBehind(d, a, b, |b|);
      forall j | 0 <= j < |a + b| ensures !CutAt(d, START, a + b, j) {
        if j < |a| {
          RunPrefix(d, START, a, b, j);
          assert !CutAt(d, START, a, j);
        } else {
          NoCutBehind(d, a, b, j - |a|);
        }
      }
    }
  }

  lemma NoCutBehind(d: Dialect, a: string, b: string, j: nat)
    requires Fragment(d, a) && Fragment(d, b) && j < |b|
    requires Run(d, START, a, |a|) == START || Punct(b[0])
    ensures !CutAt(d, START, a + b, |a| + j)
  {
    hide Run, Step, Level;
    assert !CutAt(d, START, b, j);
    if j == 0 {
      RunPrefix(d, START, a, b, |a|);
      StartsAtStart(d, b);
    } else {
      RunBehind(d, a, b, j);
    }
  }

  // What stands behind a fragment that ends with punctuation, and before text without
  // a semicolon, makes the cuts it makes by itself.
  lemma CutsOfMiddle(d: Dialect, lead: string, t: string, trail: string)
    requires Fragment(d, lead) && lead != "" && Punct(lead[|lead| - 1]) && ';' !in trail
    ensures NoCut(d, lead + t + trail) <==> NoCut(d, t)
  {
    hide Run, Inside, Punct, Level;
    var n, whole := |lead|, lead + t + trail;
    SettledByLast(d, lead);
    assert whole == lead + (t + trail);
    forall j | 0 <= j < n ensures !CutAt(d, START, whole, j) {
      RunPrefix(d, START, lead, t + trail, j);
      assert !CutAt(d, START, lead, j);
    }
    forall j | 0 <= j < |t| ensures CutAt(d, START, whole, n + j) <==> CutAt(d, START, t, j) {
      RunConcat(d, START, lead, t + trail, j);
      RunPrefix(d, START, t, trail, j);
    }
    forall j | n + |t| <= j < |whole| ensures !CutAt(d, START, whole, j) {
      assert whole[j] == trail[j - n - |t|];
    }
    if NoCut(d, whole) {
      forall j | 0 <= j < |t| ensures !CutAt(d, START, t, j) {
        assert !CutAt(d, START, whole, n + j);
      }
    } else {
      var j :| 0 <= j < |whole| && CutAt(d, START, whole, j);
      assert CutAt(d, START, t, j - n);
    }
  }

  // Three parts, the outer two bound to the middle by punctuation.
  lemma FragmentAround(d: Dialect, a: string, b: string, c: string)
    requires Fragment(d, a) && Fragment(d, b) && Fragment(d, c)
    requires a != "" && Punct(a[|a| - 1]) && c != "" && Punct(c[0])
    ensures Fragment(d, a + b + c)
  {
    hide Fragment, Punct;
    FragmentConcat(d, a, b);
    FragmentConcat(d, a + b, c);
  }

  /* ---- plain text ---- */

  predicate Plain(c: char) { IsIdent(c) || Punct(c) || c == '*' }

  lemma {:induction false} PlainRun(d: Dialect, r: string, i: nat)
    requires i <= |r| && forall j :: 0 <= j < i ==> Plain(r[j])
    ensures Run(d, START, r, i).Code?
  {
    if i > 0 {
      PlainRun(d, r, i - 1);
    }
  }

  lemma PlainFragment(d: Dialect, r: string)
    requires forall j :: 0 <= j < |r| ==> Plain(r[j])
    ensures Fragment(d, r)
  {
    hide Run;
    PlainRun(d, r, |r|);
  }

  lemma DecimalFragment(d: Dialect, n: nat)
    ensures Fragment(d, Decimal(n))
  {
    hide Fragment;
    PlainFragment(d, Decimal(n));
  }

  lemma EmptyFragment(d: Dialect)
    ensures Fragment(d, "")
  {
    hide Fragment;
    PlainFragment(d, "");
  }

  /* ---- quoted names ---- */

  // A safely quoted name is a fragment.
  lemma QuotedFragment(e: Engine, name: string)
    requires SafeName(e, name)
    ensures Fragment(DialectOf(e), QuoteIdentifier(e, name))
  {
    hide Run, Resume, CutAt, QuoteIdentifier;
    var d, t := DialectOf(e), QuoteIdentifier(e, name);
    var r := t + " ";
    QuotedNameIsOneRegion(e, name, ' ');
    QuotedShape(e, name);
    OpensRegion(e, d, r);
    ResumeIsRegionEnd(d, r, 1);
    RunPrefix(d, START, t, " ", |t|);
    forall j | 0 <= j < |t| ensures !CutAt(d, START, t, j) {
      RunPrefix(d, START, t, " ", j);
      if j > 0 {
        assert Inside(Run(d, START, r, j), r[j]);
        InsideIsNoCut(d, t, j);
      } else {
        OpeningIsNoCut(d, t);
      }
    }
    assert r[|t|] == ' ';
  }

  lemma QuotedShape(e: Engine, name: string)
    ensures var t := QuoteIdentifier(e, name);
      |t| >= 2 && t[0] == OpenMark(e) && t[|t| - 1] == CloseMark(e)
  {
  }

  lemma OpensRegion(e: Engine, d: Dialect, r: string)
    requires d == DialectOf(e) && r != "" && r[0] == OpenMark(e)
    ensures Run(d, START, r, 1) == Enter(d, r[0]) && Region(Enter(d, r[0]))
  {
  }

  lemma InsideIsNoCut(d: Dialect, t: string, j: nat)
    requires j < |t| && Inside(Run(d, START, t, j), t[j])
    ensures !CutAt(d, START, t, j)
  {
    hide Run;
  }

  lemma OpeningIsNoCut(d: Dialect, t: string)
    requires t != "" && t[0] != ';'
    ensures !CutAt(d, START, t, 0)
  {
  }

  lemma QualifiedFragment(e: Engine, schema: string, table: string)
    requires SafeName(e, schema) && SafeName(e, table)
    ensures Fragment(DialectOf(e), Qualify(e, schema, table))
  {
    hide Fragment, QuoteIdentifier, SafeName;
    var d := DialectOf(e);
    QuotedFragment(e, table);
    if schema != "" {
      QuotedFragment(e, schema);
      PlainFragment(d, ".");
      FragmentConcat(d, QuoteIdentifier(e, schema), ".");
      FragmentConcat(d, QuoteIdentifier(e, schema) + ".", QuoteIdentifier(e, table));
    }
  }

  // Fragments listed with a separator of punctuation make a fragment.
  lemma {:induction false} JoinFragment(d: Dialect, parts: seq<string>, sep: string)
    requires forall k :: 0 <= k < |parts| ==> Fragment(d, parts[k])
    requires sep != "" && forall j :: 0 <= j < |sep| ==> Punct(sep[j])
    ensures Fragment(d, Join(parts, sep))
  {
    hide Fragment, Punct;
    if parts == [] {
      EmptyFragment(d);
    } else if |parts| > 1 {
      JoinFragment(d, parts[1..], sep);
      PlainFragment(d, sep);
      FragmentAroundSep(d, parts[0], sep, Join(parts[1..], sep));
    }
  }

  lemma FragmentAroundSep(d: Dialect, a: string, sep: string, b: string)
    requires Fragment(d, a) && Fragment(d, sep) && Fragment(d, b)
    requires sep != "" && Punct(sep[0]) && Punct(sep[|sep| - 1])
    ensures Fragment(d, a + sep + b)
  {
    hide Fragment, Punct;
    FragmentConcat(d, a, sep);
    FragmentConcat(d, a + sep, b);
  }

  /* ---- whole statements ---- */

  lemma WordIsNoComment(t: string)
    requires t != "" && StartsWord(t[0])
    ensures Stripped(t) == t && !OnlyComments(t)
  {
    assert LeadingEnd(t, 0) == 0;
  }

  // A text whose only cut is at its end is one statement.
  lemma OneCutAtEnd(d: Dialect, r: string)
    requires EndsWithCut(d, r) && NoInnerCut(d, r)
    ensures LexSplit(d, r) == [Statement(Trim(r), 0, |r|)]
  {
    hide CutAt, LexSplit, Cuts, Trim, OnlyComments;
    NoCutsUpTo(d, r, |r| - 1);
    LastRuneCuts(d, r);
    CutsAreCuts(d, r, |r|, |r|);
    SplitTiles(d, r);
    var cs := Cuts(d, r, |r|);
    assert cs == [|r|];
    assert r[|r|..] == "" && r[0..|r|] == r;
    TrimmedFixed("");
    BlankIsOnlyComments();
    assert LexSplit(d, r)[0] == Tile(r, cs, 0);
  }

  // A fragment and a semicolon end with a cut, and hold no other.
  lemma FragmentCloses(d: Dialect, body: string)
    requires Fragment(d, body)
    ensures EndsWithCut(d, body + ";")
    ensures LexSplit(d, body + ";") == [Statement(Trim(body + ";"), 0, |body| + 1)]
  {
    hide Run, CutAt, LexSplit, Trim;
    var r := body + ";";
    RunPrefix(d, START, body, ";", |body|);
    LevelCuts(d, r, |body|);
    forall j | 0 <= j < |body| ensures !CutAt(d, START, r, j) {
      RunPrefix(d, START, body, ";", j);
      SameCut(d, body, ";", j);
    }
    OneCutAtEnd(d, r);
  }

  lemma LevelCuts(d: Dialect, r: string, i: nat)
    requires i < |r| && r[i] == ';' && Level(Run(d, START, r, i))
    ensures CutAt(d, START, r, i)
  {
    hide Run;
    QuoteMarks(d, r, i);
  }

  lemma SameCut(d: Dialect, a: string, b: string, j: nat)
    requires j < |a| && !CutAt(d, START, a, j) && Run(d, START, a + b, j) == Run(d, START, a, j)
    ensures !CutAt(d, START, a + b, j)
  {
    hide Run;
  }

  // The text begins with the word and a space.
  predicate OpensWith(word: string, t: string) {
    |word| < |t| && t[|word|] == ' ' && forall j :: 0 <= j < |word| ==> t[j] == word[j]
  }

  lemma StillOpens(word: string, t: string, more: string)
    requires OpensWith(word, t)
    ensures OpensWith(word, t + more)
  {
  }

  lemma OpensAt(word: string, t: string, more: string)
    requires word != "" && OpensWith(word, t)
    ensures (t + more)[0] == word[0]
  {
  }

  // That word is its first keyword.
  lemma KeywordOf(word: string, t: string)
    requires word != "" && OpensWith(word, t) && forall j :: 0 <= j < |word| ==> StartsWord(word[j])
    ensures FirstKeyword(t) == ToUpper(word)
  {
    assert t[0] == word[0] && !StartsWord(' ');
    hide StartsWord, LeadingEnd, Stripped, ToUpper;
    WordIsNoComment(t);
    KeywordEndIs(t, 0, |word|);
    assert t[..|word|] == word;
  }

  lemma {:induction false} KeywordEndIs(s: string, i: nat, k: nat)
    requires i <= k < |s| && !StartsWord(s[k]) && forall j :: i <= j < k ==> StartsWord(s[j])
    ensures KeywordEnd(s, i) == k
    decreases k - i
  {
    if i < k {
      KeywordEndIs(s, i + 1, k);
    }
  }

  /* ---- GO lines in printed text ---- */

  // A name with a GO separator on a line of its own, strictly inside.
  ghost predicate HidesGo(name: string) {
    var ls := Lines(name);
    exists k :: 0 < k < |ls| - 1 && IsGoSeparator(ls[k])
  }

  // Text that no GO line can reach out of: it starts and ends with a rune that
  // no separator holds.
  predicate Walled(t: string) { t != "" && !GoRune(t[0]) && !GoRune(t[|t| - 1]) }

  lemma WalledLine(line: string, i: nat)
    requires i < |line| && !GoRune(line[i])
    ensures !IsGoSeparator(line)
  {
    hide GoRune, IsGoSeparator;
    if IsGoSeparator(line) {
      SeparatorRunes(line, i);
    }
  }

  // The first and last lines of walled text hold its walls.
  lemma WalledEnds(t: string)
    requires Walled(t)
    ensures var ls := Lines(t);
      && ls[0] != "" && ls[0][0] == t[0]
      && ls[|ls| - 1] != "" && ls[|ls| - 1][|ls[|ls| - 1]| - 1] == t[|t| - 1]
  {
    hide IsGoSeparator;
    var n := |t| - 1;
    assert t == t[..n] + [t[n]];
    LinesConcat(t[..n], [t[n]]);
    LinesOfOneLine([t[n]]);
    SpliceLines(Lines(t[..n]), Lines([t[n]]));
  }

  // Laid end to end with one-line text between them, walled texts have the GO
  // lines they had apart.
  lemma WalledConcat(a: string, p: string, b: string)
    requires Walled(a) && Walled(b) && OneLine(p)
    ensures Walled(a + p + b)
    ensures HasGoLine(a + p + b) <==> HasGoLine(a) || HasGoLine(b)
  {
    hide GoRune, IsGoSeparator, Splice;
    var la, lb := Lines(a), Lines(b);
    WalledEnds(a);
    WalledEnds(b);
    LinesConcat(a, p);
    LinesOfOneLine(p);
    LinesConcat(a + p, b);
    var n := |la| - 1;
    var join := la[n] + p + lb[0];
    SpliceThree(la, p, lb);
    WalledLine(join, |la[n]| - 1);
    WalledLine(la[n], |la[n]| - 1);
    WalledLine(lb[0], 0);
    AnyGoConcat(la[..n], [join]);
    AnyGoConcat(la[..n] + [join], lb[1..]);
    AnyGoConcat(la[..n], [la[n]]);
    AnyGoConcat([lb[0]], lb[1..]);
    assert la == la[..n] + [la[n]] && lb == [lb[0]] + lb[1..];
    OneLineGo(join);
    OneLineGo(la[n]);
    OneLineGo(lb[0]);
  }

  lemma OneLineGo(line: string)
    ensures AnyGo([line]) <==> IsGoSeparator(line)
  {
    hide IsGoSeparator;
    assert [line][0] == line;
  }

  lemma SpliceThree(la: seq<string>, p: string, lb: seq<string>)
    requires la != [] && lb != []
    ensures |Splice(la, [p])| > 0
    ensures var n := |la| - 1;
      Splice(Splice(la, [p]), lb) == la[..n] + [la[n] + p + lb[0]] + lb[1..]
  {
    var n := |la| - 1;
    assert Splice(la, [p]) == la[..n] + [la[n] + p];
  }

  // One-line text around walled text adds no GO line and hides none.
  lemma PaddedGo(p: string, a: string, q: string)
    requires OneLine(p) && OneLine(q) && Walled(a)
    ensures HasGoLine(p + a + q) <==> HasGoLine(a)
  {
    hide GoRune, IsGoSeparator, Splice;
    var la := Lines(a);
    var n := |la| - 1;
    WalledEnds(a);
    LinesConcat(p, a);
    LinesOfOneLine(p);
    LinesConcat(p + a, q);
    LinesOfOneLine(q);
    PaddedLines(p, la, q);
    var ls := Lines(p + a + q);
    var lead := if n == 0 then p + la[0] + q else p + la[0];
    WalledLine(lead, |p|);
    WalledLine(la[0], 0);
    WalledLine(la[n], |la[n]| - 1);
    if n > 0 {
      WalledLine(la[n] + q, |la[n]| - 1);
    }
    forall k | 0 <= k <= n ensures IsGoSeparator(ls[k]) <==> IsGoSeparator(la[k]) {
    }
  }

  lemma PaddedLines(p: string, la: seq<string>, q: string)
    requires la != []
    ensures Splice([p], la) != []
    ensures var ls := Splice(Splice([p], la), [q]);
      && |ls| == |la|
      && (if |la| == 1 then ls[0] == p + la[0] + q
          else ls[0] == p + la[0] && ls[|la| - 1] == la[|la| - 1] + q)
      && (forall k :: 0 < k < |la| - 1 ==> ls[k] == la[k])
  {
    assert Splice([p], la) == [p + la[0]] + la[1..];
  }

  // A bracketed name has a GO line exactly when the name hides one.
  lemma BracketedGo(name: string)
    ensures Walled("[" + name + "]")
    ensures HasGoLine("[" + name + "]") <==> HidesGo(name)
  {
    hide IsGoSeparator, Lines, AnyGo;
    assert Walled("[" + name + "]");
    hide GoRune;
    BracketedLines(name);
    var ls := Lines("[" + name + "]");
    var last := ls[|ls| - 1];
    WalledLine(ls[0], 0);
    WalledLine(last, |last| - 1);
    GoBetween(Lines(name), ls);
  }

  // The brackets stand at the ends of the first and the last line.
  lemma BracketedLines(name: string)
    ensures var la, ls := Lines(name), Lines("[" + name + "]");
      var last := ls[|ls| - 1];
      && |ls| == |la| && (forall k :: 0 < k < |la| - 1 ==> ls[k] == la[k])
      && ls[0] != "" && ls[0][0] == '[' && last != "" && last[|last| - 1] == ']'
  {
    hide Splice;
    LinesConcat("[", name);
    LinesOfOneLine("[");
    LinesConcat("[" + name, "]");
    LinesOfOneLine("]");
    PaddedLines("[", Lines(name), "]");
  }

  // Lines that differ in the first and the last, which are no separators.
  lemma GoBetween(la: seq<string>, ls: seq<string>)
    requires la != [] && |ls| == |la| && forall k :: 0 < k < |la| - 1 ==> ls[k] == la[k]
    requires !IsGoSeparator(ls[0]) && !IsGoSeparator(ls[|ls| - 1])
    ensures AnyGo(ls) <==> exists k :: 0 < k < |la| - 1 && IsGoSeparator(la[k])
  {
    hide IsGoSeparator;
    if k: nat :| 0 < k < |la| - 1 && IsGoSeparator(la[k]) {
      assert IsGoSeparator(ls[k]);
    }
  }

  lemma {:induction false} NoMarkNoDoubling(q: char, name: string)
    requires q !in name
    ensures Doubled(q, name) == name
  {
    if name != "" {
      assert name[0] in name && q !in name[1..];
      NoMarkNoDoubling(q, name[1..]);
      assert name == [name[0]] + name[1..];
    }
  }

  function DoubledLines(q: char, ls: seq<string>): (out: seq<string>)
    ensures |out| == |ls| && forall k :: 0 <= k < |ls| ==> out[k] == Doubled(q, ls[k])
  {
    seq(|ls|, k requires 0 <= k < |ls| => Doubled(q, ls[k]))
  }

  lemma {:induction false} LinesOfDoubled(q: char, name: string)
    requires q != '\n'
    ensures Lines(Doubled(q, name)) == DoubledLines(q, Lines(name))
  {
    if name != "" {
      LinesOfDoubled(q, name[1..]);
      var c, rest, ls := name[0], Doubled(q, name[1..]), Lines(name[1..]);
      DoubledWithRune(q, c, ls);
      hide DoubledLines, WithRune;
      if c == q {
        assert Doubled(q, name)[1..] == [q] + rest && ([q] + rest)[1..] == rest;
      } else {
        assert Doubled(q, name)[1..] == rest;
      }
    }
  }

  lemma DoubledWithRune(q: char, c: char, ls: seq<string>)
    requires q != '\n' && ls != []
    ensures var out := DoubledLines(q, ls);
      DoubledLines(q, WithRune(c, ls)) == if c == q then WithRune(q, WithRune(q, out)) else WithRune(c, out)
  {
    hide Doubled;
    var out := DoubledLines(q, ls);
    assert [q] + ([q] + out[0]) == [q, q] + out[0];
    DoublingOne(q, c, ls[0]);
    NothingDoubled(q);
  }

  lemma NothingDoubled(q: char)
    ensures Doubled(q, "") == ""
  {
  }

  lemma DoublingOne(q: char, c: char, line: string)
    ensures Doubled(q, [c] + line) == (if c == q then [q, q] else [c]) + Doubled(q, line)
  {
    assert ([c] + line)[1..] == line;
  }

  lemma {:induction false} DoublingKeepsRunes(q: char, c: char, name: string)
    ensures c in Doubled(q, name) <==> c in name
  {
    if name != "" {
      DoublingKeepsRunes(q, c, name[1..]);
      assert name == [name[0]] + name[1..];
    }
  }

  lemma RuneWalls(line: string, c: char)
    requires c in line && !GoRune(c)
    ensures !IsGoSeparator(line)
  {
    hide IsGoSeparator, GoRune;
    var i :| 0 <= i < |line| && line[i] == c;
    WalledLine(line, i);
  }

  // Doubling brackets neither makes nor breaks a separator: no separator holds one.
  lemma DoubledGo(name: string)
    ensures HidesGo(Doubled(']', name)) <==> HidesGo(name)
  {
    hide IsGoSeparator, Doubled, Lines;
    LinesOfDoubled(']', name);
    forall line ensures IsGoSeparator(Doubled(']', line)) <==> IsGoSeparator(line) {
      DoublingKeepsRunes(']', ']', line);
      if ']' in line {
        RuneWalls(line, ']');
        RuneWalls(Doubled(']', line), ']');
      } else {
        NoMarkNoDoubling(']', line);
      }
    }
    var la, lb := Lines(name), Lines(Doubled(']', name));
    assert forall k :: 0 <= k < |la| ==> lb[k] == Doubled(']', la[k]);
  }

  lemma QuotedGo(name: string)
    ensures Walled(QuoteIdentifier(SQLServer, name))
    ensures HasGoLine(QuoteIdentifier(SQLServer, name)) <==> HidesGo(name)
  {
    hide HasGoLine, HidesGo, Walled, Doubled;
    DoubledGo(name);
    BracketedGo(Doubled(']', name));
  }

  lemma QualifiedGo(schema: string, table: string)
    ensures Walled(Qualify(SQLServer, schema, table))
    ensures HasGoLine(Qualify(SQLServer, schema, table)) <==> HidesGo(schema) || HidesGo(table)
  {
    hide HasGoLine, QuoteIdentifier, Walled, IsGoSeparator;
    QuotedGo(table);
    if schema == "" {
      assert Lines("") == [""];
      assert !HidesGo(schema);
    } else {
      QuotedGo(schema);
      WalledConcat(QuoteIdentifier(SQLServer, schema), ".", QuoteIdentifier(SQLServer, table));
    }
  }
}

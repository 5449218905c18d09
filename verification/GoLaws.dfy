/** What GO-batch splitting promises (core/dbcore/sqltext.go:183-220): no GO line
    survives, nothing else is lost, and text without a GO line is left alone. */
module GoLaws {
  import opened Text
  import opened Splitter

  /* ---- separators ---- */

  // A separator is recognised by its trimmed text alone.
  lemma {:induction false} TrimIgnoresTrailingSpace(s: string, c: char)
    requires IsSpace(c)
    ensures Trim(s + [c]) == Trim(s)
  {
    hide IsSpace;
    if s == "" {
      assert (s + [c])[1..] == "";
    } else if IsSpace(s[0]) {
      assert (s + [c])[1..] == s[1..] + [c];
      TrimIgnoresTrailingSpace(s[1..], c);
    } else {
      assert (s + [c])[..|s|] == s;
    }
  }

  lemma TrimIgnoresLeadingSpace(s: string, c: char)
    requires IsSpace(c)
    ensures Trim([c] + s) == Trim(s)
  {
    assert ([c] + s)[1..] == s;
  }

  // Every rune of a line that is no space sits in one of its fields.
  lemma {:induction false} FieldsCover(s: string, i: nat)
    requires i < |s| && !IsSpace(s[i])
    ensures exists k :: 0 <= k < |Fields(s)| && s[i] in Fields(s)[k]
    decreases |s|
  {
    hide IsSpace;
    if IsSpace(s[0]) {
      FieldsCover(s[1..], i - 1);
      assert s[1..][i - 1] == s[i] && Fields(s) == Fields(s[1..]);
    } else {
      var n := FieldEnd(s, 0);
      if i < n {
        assert s[..n][i] == s[i];
        assert Fields(s)[0] == s[..n];
      } else {
        FieldsCover(s[n..], i - n);
        assert s[n..][i - n] == s[i];
        var k :| 0 <= k < |Fields(s[n..])| && s[i] in Fields(s[n..])[k];
        assert Fields(s)[k + 1] == Fields(s[n..])[k];
      }
    }
  }

  // The only runes a separator line can hold.
  predicate GoRune(c: char) {
    IsSpace(c) || c in "GgOo+-" || '0' <= c <= '9'
  }

  lemma SeparatorRunes(line: string, i: nat)
    requires IsGoSeparator(line) && i < |line|
    ensures GoRune(line[i])
  {
    hide Fields, IsSpace, Trim;
    if !IsSpace(line[i]) {
      var a, b := TrimIsSlice(line);
      assert a <= i < b by { NotInMargins(line, a, b, i); }
      assert line[a..b][i - a] == line[i];
      FieldsCover(Trim(line), i - a);
      var f := Fields(Trim(line));
      var k :| 0 <= k < |f| && line[i] in f[k];
      var j :| 0 <= j < |f[k]| && f[k][j] == line[i];
      if k == 1 {
        IntRunes(f[1], j);
      }
    }
  }

  lemma NotInMargins(line: string, a: nat, b: nat, i: nat)
    requires a <= b <= |line| && AllSpace(line[..a]) && AllSpace(line[b..])
    requires i < |line| && !IsSpace(line[i])
    ensures a <= i < b
  {
    assert forall j :: 0 <= j < a ==> line[..a][j] == line[j];
    assert forall j :: b <= j < |line| ==> line[b..][j - b] == line[j];
  }

  lemma IntRunes(s: string, j: nat)
    requires IsInt(s) && j < |s|
    ensures s[j] in "+-" || '0' <= s[j] <= '9'
  {
    if s[0] in "+-" && j > 0 {
      assert s[1..][j - 1] == s[j];
    }
  }

  /* ---- GO lines in a text ---- */

  ghost predicate AnyGo(lines: seq<string>) {
    exists k :: 0 <= k < |lines| && IsGoSeparator(lines[k])
  }

  ghost predicate HasGoLine(t: string) { AnyGo(Lines(t)) }

  lemma AnyGoConcat(a: seq<string>, b: seq<string>)
    ensures AnyGo(a + b) <==> AnyGo(a) || AnyGo(b)
  {
    hide IsGoSeparator;
    if AnyGo(a) {
      var k :| 0 <= k < |a| && IsGoSeparator(a[k]);
      assert IsGoSeparator((a + b)[k]);
    }
    if AnyGo(b) {
      var k :| 0 <= k < |b| && IsGoSeparator(b[k]);
      assert IsGoSeparator((a + b)[|a| + k]);
    }
  }

  // Trimming a text brings no GO line about.
  lemma {:induction false} TrimLeftKeepsGoFree(t: string)
    requires HasGoLine(TrimLeft(IsSpace, t))
    ensures HasGoLine(t)
  {
    hide IsGoSeparator, IsSpace, AnyGo;
    if t != "" && IsSpace(t[0]) {
      TrimLeftKeepsGoFree(t[1..]);
      LeadingSpaceLine(t[0], t[1..]);
      assert [t[0]] + t[1..] == t;
    }
  }

  lemma LeadingSpaceLine(c: char, s: string)
    requires IsSpace(c) && HasGoLine(s)
    ensures HasGoLine([c] + s)
  {
    hide IsGoSeparator;
    assert ([c] + s)[1..] == s;
    var ls := Lines(s);
    var k :| 0 <= k < |ls| && IsGoSeparator(ls[k]);
    if c == '\n' {
      assert IsGoSeparator(Lines([c] + s)[k + 1]);
    } else if k == 0 {
      SeparatorByTrim(ls[0], c);
      assert IsGoSeparator(Lines([c] + s)[0]);
    } else {
      assert IsGoSeparator(Lines([c] + s)[k]);
    }
  }

  lemma SeparatorByTrim(line: string, c: char)
    requires IsSpace(c)
    ensures IsGoSeparator([c] + line) <==> IsGoSeparator(line)
    ensures IsGoSeparator(line + [c]) <==> IsGoSeparator(line)
  {
    TrimIgnoresLeadingSpace(line, c);
    TrimIgnoresTrailingSpace(line, c);
  }

  lemma {:induction false} TrimRightKeepsGoFree(t: string)
    requires HasGoLine(TrimRight(IsSpace, t))
    ensures HasGoLine(t)
  {
    hide IsGoSeparator, IsSpace, AnyGo, Lines;
    if t != "" && IsSpace(t[|t| - 1]) {
      var n := |t| - 1;
      TrimRightKeepsGoFree(t[..n]);
      TrailingSpaceLine(t[..n], t[n]);
      assert t[..n] + [t[n]] == t;
    }
  }

  lemma TrailingSpaceLine(s: string, c: char)
    requires IsSpace(c) && HasGoLine(s)
    ensures HasGoLine(s + [c])
  {
    hide IsGoSeparator, Splice;
    LinesConcat(s, [c]);
    var ls := Lines(s);
    var k :| 0 <= k < |ls| && IsGoSeparator(ls[k]);
    LinesOfRune(c);
    SpliceLines(ls, Lines([c]));
    var out := Lines(s + [c]);
    if k < |ls| - 1 {
      assert IsGoSeparator(out[k]);
    } else {
      SeparatorByTrim(ls[k], c);
      assert ls[k] + "" == ls[k];
      assert IsGoSeparator(out[k]);
    }
  }

  lemma LinesOfRune(c: char)
    ensures Lines([c])[0] == if c == '\n' then "" else [c]
  {
    assert Lines([c][1..]) == [""];
  }

  lemma SpliceLines(la: seq<string>, lb: seq<string>)
    requires la != [] && lb != []
    ensures |Splice(la, lb)| == |la| + |lb| - 1
    ensures forall k :: 0 <= k < |la| - 1 ==> Splice(la, lb)[k] == la[k]
    ensures Splice(la, lb)[|la| - 1] == la[|la| - 1] + lb[0]
  {
  }

  lemma TrimKeepsGoFree(t: string)
    requires HasGoLine(Trim(t))
    ensures HasGoLine(t)
  {
    hide HasGoLine;
    TrimRightKeepsGoFree(TrimLeft(IsSpace, t));
    TrimLeftKeepsGoFree(t);
  }

  /* ---- batches ---- */

  function Flatten(bs: seq<seq<string>>): seq<string> {
    if bs == [] then [] else Flatten(bs[..|bs| - 1]) + bs[|bs| - 1]
  }

  function NonGo(lines: seq<string>): seq<string> {
    if lines == [] then []
    else
      var before, last := NonGo(lines[..|lines| - 1]), lines[|lines| - 1];
      if IsGoSeparator(last) then before else before + [last]
  }

  // Cutting into batches removes the separator lines and nothing else.
  lemma {:induction false} BatchesKeepLines(lines: seq<string>)
    ensures Flatten(Batches(lines)) == NonGo(lines)
  {
    hide IsGoSeparator;
    if lines != [] {
      var n := |lines| - 1;
      BatchesKeepLines(lines[..n]);
      var before := Batches(lines[..n]);
      var m := |before| - 1;
      if IsGoSeparator(lines[n]) {
        assert (before + [[]])[..m + 1] == before;
      } else {
        var grown := before[..m] + [before[m] + [lines[n]]];
        assert Batches(lines) == grown && grown[..m] == before[..m];
        assert Flatten(grown) == Flatten(before[..m]) + (before[m] + [lines[n]]);
      }
    }
  }

  lemma {:induction false} NonGoHasNoGo(lines: seq<string>)
    ensures !AnyGo(NonGo(lines))
    ensures !AnyGo(lines) ==> NonGo(lines) == lines
  {
    hide IsGoSeparator;
    if lines != [] {
      var n := |lines| - 1;
      NonGoHasNoGo(lines[..n]);
      assert lines[..n] + [lines[n]] == lines;
      AnyGoConcat(lines[..n], [lines[n]]);
      assert AnyGo([lines[n]]) <==> IsGoSeparator([lines[n]][0]);
      if !IsGoSeparator(lines[n]) {
        AnyGoConcat(NonGo(lines[..n]), [lines[n]]);
      }
    }
  }

  lemma {:induction false} BatchInFlatten(bs: seq<seq<string>>, k: nat)
    requires k < |bs| && AnyGo(bs[k])
    ensures AnyGo(Flatten(bs))
  {
    hide IsGoSeparator, AnyGo;
    var n := |bs| - 1;
    AnyGoConcat(Flatten(bs[..n]), bs[n]);
    if k < n {
      BatchInFlatten(bs[..n], k);
    }
  }

  lemma {:induction false} BatchLinesAreLines(lines: seq<string>, k: nat, j: nat)
    requires k < |Batches(lines)| && j < |Batches(lines)[k]|
    ensures Batches(lines)[k][j] in lines
  {
    hide IsGoSeparator;
    if lines != [] {
      var n := |lines| - 1;
      var before := Batches(lines[..n]);
      if k < |before| && j < |before[k]| {
        BatchLinesAreLines(lines[..n], k, j);
        assert Batches(lines)[k][j] == before[k][j];
        assert before[k][j] in lines[..n];
      } else {
        assert Batches(lines)[k][j] == lines[n];
      }
    }
  }

  // The text of a batch, trimmed or not, has no GO line.
  lemma BatchTextGoFree(text: string, k: nat)
    requires k < |Batches(Lines(text))|
    ensures !HasGoLine(Trim(Join(Batches(Lines(text))[k], "\n")))
  {
    hide IsGoSeparator, AnyGo, Trim, Lines, Batches, Join;
    var lines := Lines(text);
    var batch := Batches(lines)[k];
    BatchesKeepLines(lines);
    NonGoHasNoGo(lines);
    if AnyGo(batch) {
      BatchInFlatten(Batches(lines), k);
    }
    LinesAreOneLine(text);
    forall j | 0 <= j < |batch| ensures OneLine(batch[j]) {
      BatchLinesAreLines(lines, k, j);
    }
    JoinGoFree(batch);
    if HasGoLine(Trim(Join(batch, "\n"))) {
      TrimKeepsGoFree(Join(batch, "\n"));
    }
  }

  lemma JoinGoFree(batch: seq<string>)
    requires !AnyGo(batch) && forall j :: 0 <= j < |batch| ==> OneLine(batch[j])
    ensures !HasGoLine(Join(batch, "\n"))
  {
    hide IsGoSeparator, AnyGo;
    if batch == [] {
      EmptyTextGoFree();
    } else {
      LinesOfJoin(batch);
    }
  }

  lemma EmptyTextGoFree()
    ensures !HasGoLine("")
  {
    assert Trim("") == "" && Fields("") == [];
    assert !IsGoSeparator("");
  }

  /* ---- the statements SQL Server is given ---- */

  // Each piece keeps the span of the statement it was cut from, is trimmed and
  // not empty, and has no GO line.
  ghost predicate IsGoPiece(piece: Statement, st: Statement) {
    && piece.start == st.start && piece.end == st.end
    && piece.text != "" && Trimmed(piece.text) && !HasGoLine(piece.text)
  }

  lemma {:induction false} BatchStatementsArePieces(st: Statement, m: nat, k: nat)
    requires m <= |Batches(Lines(st.text))|
    requires k < |BatchStatements(Batches(Lines(st.text))[..m], st)|
    ensures IsGoPiece(BatchStatements(Batches(Lines(st.text))[..m], st)[k], st)
  {
    hide HasGoLine, Trim, Join, Lines, Batches, Trimmed;
    var bs := Batches(Lines(st.text));
    if m > 0 {
      assert bs[..m][..m - 1] == bs[..m - 1];
      if k < |BatchStatements(bs[..m - 1], st)| {
        BatchStatementsArePieces(st, m - 1, k);
      } else {
        BatchTextGoFree(st.text, m - 1);
        TrimIsTrimmed(Join(bs[m - 1], "\n"));
      }
    }
  }

  lemma {:induction false} GoSplitPieces(sts: seq<Statement>, k: nat)
    requires k < |GoSplit(sts)|
    ensures exists j :: 0 <= j < |sts| && IsGoPiece(GoSplit(sts)[k], sts[j])
  {
    hide IsGoPiece, Batches, Lines, BatchStatements;
    var n := |sts| - 1;
    var before := GoSplit(sts[..n]);
    if k < |before| {
      GoSplitPieces(sts[..n], k);
      var j :| 0 <= j < n && IsGoPiece(before[k], sts[..n][j]);
      assert sts[..n][j] == sts[j];
    } else {
      var bs := Batches(Lines(sts[n].text));
      assert bs[..|bs|] == bs;
      BatchStatementsArePieces(sts[n], |bs|, k - |before|);
    }
  }

  /* ---- nothing else is lost ---- */

  function Ink(s: string): string {
    if s == "" then ""
    else
      var before, last := Ink(s[..|s| - 1]), s[|s| - 1];
      if IsSpace(last) then before else before + [last]
  }

  lemma {:induction false} InkConcat(a: string, b: string)
    ensures Ink(a + b) == Ink(a) + Ink(b)
  {
    hide IsSpace;
    if b == "" {
      assert a + b == a;
    } else {
      InkConcat(a, b[..|b| - 1]);
      assert (a + b)[..|a + b| - 1] == a + b[..|b| - 1];
    }
  }

  lemma {:induction false} SpaceHasNoInk(s: string)
    requires AllSpace(s)
    ensures Ink(s) == ""
  {
    if s != "" {
      SpaceHasNoInk(s[..|s| - 1]);
    }
  }

  lemma TrimKeepsInk(s: string)
    ensures Ink(Trim(s)) == Ink(s)
  {
    hide IsSpace, Ink, Trim;
    var a, b := TrimIsSlice(s);
    assert s == s[..a] + (s[a..b] + s[b..]);
    InkConcat(s[..a], s[a..b] + s[b..]);
    InkConcat(s[a..b], s[b..]);
    SpaceHasNoInk(s[..a]);
    SpaceHasNoInk(s[b..]);
  }

  function InkOfLines(lines: seq<string>): string {
    if lines == [] then "" else InkOfLines(lines[..|lines| - 1]) + Ink(lines[|lines| - 1])
  }

  function InkOfTexts(sts: seq<Statement>): string {
    if sts == [] then "" else InkOfTexts(sts[..|sts| - 1]) + Ink(sts[|sts| - 1].text)
  }

  lemma {:induction false} InkOfLinesConcat(a: seq<string>, b: seq<string>)
    ensures InkOfLines(a + b) == InkOfLines(a) + InkOfLines(b)
  {
    hide Ink;
    if b == [] {
      assert a + b == a;
    } else {
      InkOfLinesConcat(a, b[..|b| - 1]);
      assert (a + b)[..|a + b| - 1] == a + b[..|b| - 1];
    }
  }

  lemma {:induction false} InkOfJoin(lines: seq<string>)
    ensures Ink(Join(lines, "\n")) == InkOfLines(lines)
  {
    hide Ink;
    if lines == [] {
      SpaceHasNoInk("");
    } else {
      assert lines == [lines[0]] + lines[1..];
      InkOfLinesConcat([lines[0]], lines[1..]);
      InkOfOne(lines[0]);
      if |lines| == 1 {
        assert lines[1..] == [];
      } else {
        InkOfJoin(lines[1..]);
        var rest := Join(lines[1..], "\n");
        InkConcat(lines[0] + "\n", rest);
        InkConcat(lines[0], "\n");
        SpaceHasNoInk("\n");
      }
    }
  }

  lemma InkOfOne(line: string)
    ensures InkOfLines([line]) == Ink(line)
  {
    hide Ink;
    assert [line][..0] == [];
  }

  lemma {:induction false} InkOfBatches(bs: seq<seq<string>>, st: Statement)
    ensures InkOfTexts(BatchStatements(bs, st)) == InkOfLines(Flatten(bs))
  {
    hide Ink, Trim, Join;
    if bs != [] {
      var n := |bs| - 1;
      InkOfBatches(bs[..n], st);
      InkOfLinesConcat(Flatten(bs[..n]), bs[n]);
      InkOfJoin(bs[n]);
      TrimKeepsInk(Join(bs[n], "\n"));
      SpaceHasNoInk("");
      var before, last := BatchStatements(bs[..n], st), BatchStatement(bs[n], st);
      if last == [] {
        assert before + last == before;
      } else {
        assert (before + last)[..|before|] == before;
      }
    }
  }

  // Whitespace and the separator lines aside, the pieces of a statement hold
  // exactly its runes, in order.
  lemma GoPiecesKeepInk(st: Statement)
    ensures InkOfTexts(GoPieces(st)) == InkOfLines(NonGo(Lines(st.text)))
  {
    hide Ink, Batches, Lines, BatchStatements;
    InkOfBatches(Batches(Lines(st.text)), st);
    BatchesKeepLines(Lines(st.text));
  }

  /* ---- text without a GO line ---- */

  lemma {:induction false} OneBatch(lines: seq<string>)
    requires !AnyGo(lines)
    ensures Batches(lines) == [lines]
  {
    hide IsGoSeparator;
    if lines != [] {
      var n := |lines| - 1;
      assert lines[..n] + [lines[n]] == lines;
      AnyGoConcat(lines[..n], [lines[n]]);
      assert [lines[n]][0] == lines[n];
      OneBatch(lines[..n]);
    }
  }

  // A trimmed statement is passed through untouched exactly when it has no GO line.
  lemma GoPiecesOfGoFree(st: Statement)
    requires st.text != "" && Trimmed(st.text)
    ensures GoPieces(st) == [st] <==> !HasGoLine(st.text)
  {
    hide AnyGo, Lines, Trim, Join, Batches, Trimmed;
    if !HasGoLine(st.text) {
      OneBatch(Lines(st.text));
      JoinLines(st.text);
      TrimmedFixed(st.text);
      var lines := Lines(st.text);
      assert [lines][..0] == [];
      assert BatchStatements([lines][..0], st) == [];
      assert BatchStatements([lines], st) == BatchStatement(lines, st);
      assert st.(text := st.text) == st;
    }
    if GoPieces(st) == [st] {
      var bs := Batches(Lines(st.text));
      assert bs[..|bs|] == bs;
      BatchStatementsArePieces(st, |bs|, 0);
    }
  }
}

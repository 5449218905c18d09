/** What the statement splitter promises about whole buffers: the statements tile
    the buffer, splitting distributes over buffers cut apart, and a returned
    statement splits into itself. */
module SplitLaws {
  import opened Text
  import opened Lexer
  import opened Leading
  import opened Splitter

  // The cuts are exactly the places after a semicolon outside every region.
  lemma {:induction false} CutsAreCuts(d: Dialect, r: string, i: nat, k: nat)
    requires 0 < k <= i <= |r|
    ensures k in Cuts(d, r, i) <==> CutAt(d, START, r, k - 1)
  {
    hide CutAt;
    if k < i {
      CutsAreCuts(d, r, i - 1, k);
    }
  }

  // The machine is at the start after the last cut, and there is no cut since.
  lemma {:induction false} SinceLastCut(d: Dialect, r: string, i: nat)
    requires i <= |r|
    ensures var a := LastOf(Cuts(d, r, i));
      && a <= i && Run(d, START, r, a) == START
      && (forall j :: a <= j < i ==> !CutAt(d, START, r, j))
  {
    hide Run, CutAt, Step;
    if i == 0 {
      assert Run(d, START, r, 0) == START by { StartsAtStart(d, r); }
    } else {
      SinceLastCut(d, r, i - 1);
      if CutAt(d, START, r, i - 1) {
        CutRestarts(d, r, i - 1);
      }
    }
  }

  lemma StartsAtStart(d: Dialect, r: string)
    ensures Run(d, START, r, 0) == START
  {
  }

  // Part of a buffer that begins where the machine restarts lexes on its own.
  lemma SegmentRun(d: Dialect, r: string, a: nat, b: nat, j: nat)
    requires a <= b <= |r| && j <= b - a && Run(d, START, r, a) == START
    ensures Run(d, START, r[a..b], j) == Run(d, START, r, a + j)
  {
    hide Run;
    RunSlice(d, START, r, a, j);
    assert r[a..] == r[a..b] + r[b..];
    RunPrefix(d, START, r[a..b], r[b..], j);
  }

  lemma SegmentCut(d: Dialect, r: string, a: nat, b: nat, j: nat)
    requires a <= b <= |r| && j < b - a && Run(d, START, r, a) == START
    ensures CutAt(d, START, r[a..b], j) <==> CutAt(d, START, r, a + j)
  {
    hide Run, Inside;
    SegmentRun(d, r, a, b, j);
  }

  lemma {:induction false} SpacesIdle(d: Dialect, r: string, i: nat)
    requires i <= |r| && AllSpace(r[..i])
    ensures Run(d, START, r, i) == START
  {
    if i > 0 {
      assert AllSpace(r[..i - 1]) by { assert forall j :: 0 <= j < i ==> r[..i][j] == r[j]; }
      SpacesIdle(d, r, i - 1);
      assert r[..i][i - 1] == r[i - 1];
    }
  }

  // Trimming such a part moves its start over spaces only.
  lemma TrimmedSegment(d: Dialect, r: string, a: nat, b: nat) returns (p: nat, q: nat)
    requires a <= b <= |r| && Run(d, START, r, a) == START
    ensures a <= p <= q <= b && Trim(r[a..b]) == r[p..q] && Trimmed(r[p..q])
    ensures Run(d, START, r, p) == START
    ensures AllSpace(r[q..b])
  {
    hide Run, Trim;
    var k, l := TrimIsSlice(r[a..b]);
    p, q := a + k, a + l;
    SliceOfSlice(r, a, b, k, l);
    SliceOfSlice(r, a, b, l, b - a);
    TrimIsTrimmed(r[a..b]);
    SpacesIdle(d, r[a..b], k);
    SegmentRun(d, r, a, b, k);
  }

  lemma SliceOfSlice(r: string, a: nat, b: nat, k: nat, l: nat)
    requires a <= b <= |r| && k <= l <= b - a
    ensures r[a..b][k..l] == r[a + k..a + l]
    ensures l == b - a ==> r[a..b][k..] == r[a + k..b]
  {
    var x, y := r[a..b][k..l], r[a + k..a + l];
    assert |x| == |y| && forall i :: 0 <= i < |x| ==> x[i] == r[a + k + i] == y[i];
    if l == b - a {
      assert r[a..b][k..] == r[a..b][k..l];
    }
  }

  // A segment that ends with a cut is never only comments.
  lemma ClosedSegmentKept(d: Dialect, r: string, a: nat, b: nat)
    requires a < b <= |r| && Run(d, START, r, a) == START && CutAt(d, START, r, b - 1)
    ensures Kept(r, a, b) == [Statement(Trim(r[a..b]), a, b)]
  {
    hide Run, Inside, Trim, OnlyComments;
    var p, q := TrimmedSegment(d, r, a, b);
    SpaceTail(r, q, b);
    if Trim(r[a..b]) == "" {
      BlankSegment(r, a, b);
    }
    var text := r[p..b];
    assert text != "";
    SegmentCut(d, r, p, b, b - 1 - p);
    ClosedTextKept(d, text);
  }

  lemma ClosedTextKept(d: Dialect, t: string)
    requires t != "" && CutAt(d, START, t, |t| - 1)
    ensures !OnlyComments(t)
  {
    hide Run, CutAt, Cuts, WordsUpTo;
    StartsAtStart(d, t);
    IdleTo(d, t, 0);
  }

  lemma SpaceTail(r: string, q: nat, b: nat)
    requires q <= b <= |r| && AllSpace(r[q..b])
    ensures q < b ==> IsSpace(r[b - 1])
  {
    assert q < b ==> r[q..b][b - 1 - q] == r[b - 1];
  }

  lemma BlankSegment(r: string, a: nat, b: nat)
    requires a < b <= |r| && Trim(r[a..b]) == ""
    ensures IsSpace(r[b - 1])
  {
    hide Trim;
    var k, l := TrimIsSlice(r[a..b]);
    SliceOfSlice(r, a, b, l, b - a);
    SpaceTail(r, a + l, b);
    assert l == b - a ==> k == l && r[a..b][..k] == r[a..b];
  }

  /* ---- tiling ---- */

  function SegmentStart(cs: seq<nat>, k: nat): nat
    requires k <= |cs|
  {
    if k == 0 then 0 else cs[k - 1]
  }

  // The k-th segment as a statement: it spans from the previous cut to its own.
  function Tile(r: string, cs: seq<nat>, k: nat): Statement
    requires Ascending(cs, |r|) && k < |cs|
  {
    Statement(Trim(r[SegmentStart(cs, k)..cs[k]]), SegmentStart(cs, k), cs[k])
  }

  ghost predicate Tiles(r: string, cs: seq<nat>, out: seq<Statement>)
    requires Ascending(cs, |r|)
  {
    |cs| <= |out| && forall k :: 0 <= k < |cs| ==> out[k] == Tile(r, cs, k)
  }

  lemma TilesGrow(r: string, cs: seq<nat>, out: seq<Statement>, c: nat)
    requires Ascending(cs + [c], |r|) && Ascending(cs, |r|) && c <= |r| && |out| == |cs| && Tiles(r, cs, out)
    ensures LastOf(cs) <= c
    ensures Tiles(r, cs + [c], out + [Statement(Trim(r[LastOf(cs)..c]), LastOf(cs), c)])
  {
    hide Trim;
    assert (cs + [c])[|cs|] == c;
    assert LastOf(cs) == SegmentStart(cs + [c], |cs|);
    forall k | 0 <= k < |cs| ensures Tile(r, cs + [c], k) == Tile(r, cs, k) {
      assert SegmentStart(cs + [c], k) == SegmentStart(cs, k);
    }
  }

  lemma {:induction false} PiecesTile(d: Dialect, r: string, i: nat)
    requires i <= |r|
    ensures |Pieces(r, Cuts(d, r, i))| == |Cuts(d, r, i)|
    ensures Tiles(r, Cuts(d, r, i), Pieces(r, Cuts(d, r, i)))
  {
    hide Run, CutAt, Kept, Cuts, Pieces, Trim, Tiles, Tile;
    if i == 0 {
      NoCutsUpTo(d, r, 0);
      NoPieces(r);
    } else {
      PiecesTile(d, r, i - 1);
      CutStep(d, r, i - 1);
      if CutAt(d, START, r, i - 1) {
        SinceLastCut(d, r, i - 1);
        ClosedSegmentKept(d, r, LastOf(Cuts(d, r, i - 1)), i);
        TilesGrow(r, Cuts(d, r, i - 1), Pieces(r, Cuts(d, r, i - 1)), i);
      }
    }
  }

  lemma NoPieces(r: string)
    ensures Pieces(r, []) == [] && Tiles(r, [], [])
  {
  }

  // Every statement a cut closes is returned, in order, with contiguous spans
  // from 0 and its trimmed slice as text. Only what follows the last cut may be
  // dropped, and only when it is blank.
  lemma SplitTiles(d: Dialect, r: string)
    ensures var cs, out := Cuts(d, r, |r|), LexSplit(d, r);
      var tail := Trim(r[LastOf(cs)..]);
      && |out| == |cs| + (if OnlyComments(tail) then 0 else 1)
      && Tiles(r, cs, out)
      && (!OnlyComments(tail) ==> out[|cs|] == Statement(tail, LastOf(cs), |r|))
  {
    hide Trim, Tile, Pieces, Cuts;
    PiecesTile(d, r, |r|);
    var a := LastOf(Cuts(d, r, |r|));
    assert r[a..|r|] == r[a..];
  }

  /* ---- re-splitting a returned statement ---- */

  predicate NoInnerCut(d: Dialect, t: string) {
    forall j :: 0 <= j < |t| - 1 ==> !CutAt(d, START, t, j)
  }

  lemma {:induction false} NoCutsUpTo(d: Dialect, t: string, i: nat)
    requires i <= |t| && forall j :: 0 <= j < i ==> !CutAt(d, START, t, j)
    ensures Cuts(d, t, i) == []
  {
    hide CutAt;
    if i > 0 {
      NoCutsUpTo(d, t, i - 1);
    }
  }

  // A trimmed text is one statement, all of it, exactly when it is more than
  // comments and the lexer finds no cut before its last rune.
  lemma OnePiece(d: Dialect, t: string)
    requires Trimmed(t)
    ensures LexSplit(d, t) == [Statement(t, 0, |t|)] <==> NoInnerCut(d, t) && !OnlyComments(t)
  {
    hide CutAt, Cuts, OnlyComments, LexSplit;
    if LexSplit(d, t) == [Statement(t, 0, |t|)] {
      KeptIsMoreThanComments(d, t, 0);
      forall j | 0 <= j < |t| - 1 ensures !CutAt(d, START, t, j) {
        if CutAt(d, START, t, j) {
          CutIsAnEnd(d, t, j);
        }
      }
    }
    if NoInnerCut(d, t) && !OnlyComments(t) {
      WholeIsOnePiece(d, t);
    }
  }

  lemma CutIsAnEnd(d: Dialect, t: string, j: nat)
    requires j < |t| && CutAt(d, START, t, j)
    ensures exists m :: 0 <= m < |LexSplit(d, t)| && LexSplit(d, t)[m].end == j + 1
  {
    hide CutAt, Cuts, OnlyComments, LexSplit, Trim;
    CutsAreCuts(d, t, |t|, j + 1);
    SplitTiles(d, t);
    var cs := Cuts(d, t, |t|);
    var m :| 0 <= m < |cs| && cs[m] == j + 1;
    assert LexSplit(d, t)[m] == Tile(t, cs, m);
  }

  lemma WholeIsOnePiece(d: Dialect, t: string)
    requires Trimmed(t) && NoInnerCut(d, t) && !OnlyComments(t)
    ensures LexSplit(d, t) == [Statement(t, 0, |t|)]
  {
    hide CutAt, Cuts, OnlyComments, LexSplit, Trim;
    TrimmedFixed(t);
    TrimmedFixed("");
    BlankIsOnlyComments();
    SplitTiles(d, t);
    NoCutsUpTo(d, t, |t| - 1);
    LastRuneCuts(d, t);
    var cs := Cuts(d, t, |t|);
    if cs == [] {
      assert t[0..] == t;
    } else {
      assert t[|t|..] == "";
      assert t[0..|t|] == t;
      assert LexSplit(d, t)[0] == Tile(t, cs, 0);
    }
  }

  lemma BlankIsOnlyComments()
    ensures OnlyComments("")
  {
  }

  lemma LastRuneCuts(d: Dialect, t: string)
    requires t != "" && Cuts(d, t, |t| - 1) == []
    ensures Cuts(d, t, |t|) == [] || Cuts(d, t, |t|) == [|t|]
  {
    hide CutAt;
  }

  // Splitting any returned text again returns that text as its only statement.
  // An unterminated tail that lost its trailing space is no exception.
  lemma Resplit(d: Dialect, r: string, k: nat)
    requires k < |LexSplit(d, r)|
    ensures var t := LexSplit(d, r)[k].text;
      LexSplit(d, t) == [Statement(t, 0, |t|)]
  {
    hide LexSplit, Cuts, CutAt, Run, Trim, OnlyComments;
    SplitTiles(d, r);
    SegmentHasNoInnerCut(d, r, k);
    KeptIsMoreThanComments(d, r, k);
    var cs := Cuts(d, r, |r|);
    var a := SegmentStart(cs, k);
    var b := if k < |cs| then cs[k] else |r|;
    assert k == |cs| ==> r[a..] == r[a..b];
    var p, q := TrimmedSegment(d, r, a, b);
    InnerCutInSegment(d, r, p, q);
    OnePiece(d, r[p..q]);
  }

  lemma InnerCutInSegment(d: Dialect, r: string, p: nat, q: nat)
    requires p <= q <= |r| && Run(d, START, r, p) == START
    requires forall j :: p <= j < q - 1 ==> !CutAt(d, START, r, j)
    ensures NoInnerCut(d, r[p..q])
  {
    hide Run, CutAt;
    forall j | 0 <= j < q - p - 1 ensures !CutAt(d, START, r[p..q], j) {
      SegmentCut(d, r, p, q, j);
    }
  }

  lemma SegmentHasNoInnerCut(d: Dialect, r: string, k: nat)
    requires k <= |Cuts(d, r, |r|)|
    ensures var cs := Cuts(d, r, |r|);
      var a := SegmentStart(cs, k);
      var b := if k < |cs| then cs[k] else |r|;
      && a <= b && Run(d, START, r, a) == START
      && (forall j :: a <= j < b - 1 ==> !CutAt(d, START, r, j))
  {
    hide Cuts, CutAt, Run;
    var cs := Cuts(d, r, |r|);
    var a := SegmentStart(cs, k);
    var b := if k < |cs| then cs[k] else |r|;
    if k == 0 {
      StartsAtStart(d, r);
    } else {
      CutsAreCuts(d, r, |r|, a);
      assert a == cs[k - 1] && a in cs;
      CutRestarts(d, r, a - 1);
    }
    assert a <= b;
    forall j | a <= j < b - 1 ensures !CutAt(d, START, r, j) {
      CutsAreCuts(d, r, |r|, j + 1);
      if CutAt(d, START, r, j) {
        var m :| 0 <= m < |cs| && cs[m] == j + 1;
        AscendingGap(cs, |r|, k, m);
      }
    }
  }

  // Nothing in an ascending list lies strictly between neighbours.
  lemma AscendingGap(cs: seq<nat>, n: nat, k: nat, m: nat)
    requires Ascending(cs, n) && k <= |cs| && m < |cs|
    ensures m < k ==> cs[m] <= SegmentStart(cs, k)
    ensures k <= m ==> cs[k] <= cs[m]
  {
    if m + 1 < k {
      AscendingGap(cs, n, k - 1, m);
    } else if k < m {
      AscendingGap(cs, n, k, m - 1);
    }
  }

  lemma {:induction false} KeptIsMoreThanComments(d: Dialect, r: string, k: nat)
    requires k < |LexSplit(d, r)|
    ensures !OnlyComments(LexSplit(d, r)[k].text)
  {
    hide OnlyComments, Trim, Cuts;
    PiecesAreMoreThanComments(r, Cuts(d, r, |r|));
  }

  lemma {:induction false} PiecesAreMoreThanComments(r: string, cs: seq<nat>)
    requires Ascending(cs, |r|)
    ensures forall k :: 0 <= k < |Pieces(r, cs)| ==> !OnlyComments(Pieces(r, cs)[k].text)
  {
    hide OnlyComments, Trim;
    if cs != [] {
      PiecesAreMoreThanComments(r, cs[..|cs| - 1]);
    }
  }

  /* ---- a buffer laid after another ---- */

  function Moved(st: Statement, off: nat): Statement {
    Statement(st.text, st.start + off, st.end + off)
  }

  function Shift(sts: seq<Statement>, off: nat): seq<Statement> {
    if sts == [] then [] else Shift(sts[..|sts| - 1], off) + [Moved(sts[|sts| - 1], off)]
  }

  lemma {:induction false} ShiftConcat(x: seq<Statement>, y: seq<Statement>, off: nat)
    ensures Shift(x + y, off) == Shift(x, off) + Shift(y, off)
  {
    hide Moved;
    if y == [] {
      assert x + y == x;
    } else {
      ShiftConcat(x, y[..|y| - 1], off);
      assert (x + y)[..|x + y| - 1] == x + y[..|y| - 1];
    }
  }

  function ShiftCuts(cs: seq<nat>, off: nat): (out: seq<nat>)
    ensures |out| == |cs| && forall k :: 0 <= k < |cs| ==> out[k] == cs[k] + off
  {
    seq(|cs|, k requires 0 <= k < |cs| => cs[k] + off)
  }

  // The buffer ends with a cut, at its very last rune.
  predicate EndsWithCut(d: Dialect, a: string) {
    a != "" && CutAt(d, START, a, |a| - 1)
  }

  lemma {:induction false} CutsConcat(d: Dialect, a: string, b: string, j: nat)
    requires EndsWithCut(d, a) && j <= |b|
    ensures Cuts(d, a + b, |a| + j) == Cuts(d, a, |a|) + ShiftCuts(Cuts(d, b, j), |a|)
  {
    hide Run, Inside, ShiftCuts;
    if j == 0 {
      CutsPrefix(d, a, b, |a|);
    } else {
      CutsConcat(d, a, b, j - 1);
      CutRestarts(d, a, |a| - 1);
      RunConcat(d, START, a, b, j - 1);
      assert (a + b)[|a| + j - 1] == b[j - 1];
      var before := Cuts(d, b, j - 1);
      assert ShiftCuts(before + [j], |a|) == ShiftCuts(before, |a|) + [|a| + j];
    }
  }

  lemma {:induction false} CutsPrefix(d: Dialect, a: string, b: string, i: nat)
    requires i <= |a|
    ensures Cuts(d, a + b, i) == Cuts(d, a, i)
  {
    hide Run, Inside;
    if i > 0 {
      CutsPrefix(d, a, b, i - 1);
      RunPrefix(d, START, a, b, i - 1);
    }
  }

  lemma PiecesStep(r: string, cs: seq<nat>, c: nat)
    requires Ascending(cs, |r|) && LastOf(cs) < c <= |r|
    ensures Ascending(cs + [c], |r|)
    ensures Pieces(r, cs + [c]) == Pieces(r, cs) + Kept(r, LastOf(cs), c)
  {
    hide Kept;
    assert (cs + [c])[..|cs|] == cs;
  }

  lemma AscendingPrefix(before: seq<nat>, c: nat, n: nat)
    requires Ascending(before + [c], n)
    ensures Ascending(before, n) && LastOf(before) < c <= n
  {
    var cs := before + [c];
    assert cs[|before|] == c;
    assert forall k :: 0 <= k < |before| ==> before[k] == cs[k];
  }

  lemma AscendingConcat(ca: seq<nat>, cb: seq<nat>, n: nat, m: nat)
    requires Ascending(ca, n) && LastOf(ca) == n && Ascending(cb, m)
    ensures Ascending(ca, n + m) && Ascending(ca + ShiftCuts(cb, n), n + m)
    ensures LastOf(ca + ShiftCuts(cb, n)) == n + LastOf(cb)
  {
    var cs := ca + ShiftCuts(cb, n);
    assert cb == [] ==> cs == ca;
    forall k | 0 < k < |cs| ensures cs[k - 1] < cs[k] {
      if |ca| < k {
        assert cs[k] == cb[k - |ca|] + n && cs[k - 1] == cb[k - 1 - |ca|] + n;
      }
    }
  }

  lemma {:induction false} PiecesConcat(a: string, b: string, ca: seq<nat>, cb: seq<nat>)
    requires Ascending(ca, |a|) && LastOf(ca) == |a| && Ascending(cb, |b|)
    ensures Ascending(ca + ShiftCuts(cb, |a|), |a + b|) && Ascending(ca, |a + b|)
    ensures Pieces(a + b, ca + ShiftCuts(cb, |a|)) == Pieces(a, ca) + Shift(Pieces(b, cb), |a|)
    ensures LastOf(ca + ShiftCuts(cb, |a|)) == |a| + LastOf(cb)
  {
    hide Kept, Pieces, Shift, ShiftCuts, Ascending;
    AscendingConcat(ca, cb, |a|, |b|);
    if cb == [] {
      PiecesPrefix(a, b, ca);
      assert ca + ShiftCuts(cb, |a|) == ca;
      NoPieces(b);
      ShiftNothing(|a|);
    } else {
      var before, c := cb[..|cb| - 1], cb[|cb| - 1];
      assert cb == before + [c];
      AscendingPrefix(before, c, |b|);
      AscendingConcat(ca, before, |a|, |b|);
      PiecesConcat(a, b, ca, before);
      PiecesStep(b, before, c);
      PiecesStep(a + b, ca + ShiftCuts(before, |a|), |a| + c);
      assert ca + ShiftCuts(cb, |a|) == ca + ShiftCuts(before, |a|) + [|a| + c];
      KeptShifts(a, b, LastOf(before), c);
      ShiftConcat(Pieces(b, before), Kept(b, LastOf(before), c), |a|);
    }
  }

  lemma ShiftOne(st: Statement, off: nat)
    ensures Shift([st], off) == [Moved(st, off)]
  {
    ShiftNothing(off);
    assert [st][..0] == [];
  }

  lemma ShiftNothing(off: nat)
    ensures Shift([], off) == []
  {
  }

  lemma {:induction false} PiecesPrefix(a: string, b: string, ca: seq<nat>)
    requires Ascending(ca, |a|)
    ensures Ascending(ca, |a + b|) && Pieces(a + b, ca) == Pieces(a, ca)
  {
    hide Trim, OnlyComments;
    if ca != [] {
      var before := ca[..|ca| - 1];
      PiecesPrefix(a, b, before);
      assert (a + b)[LastOf(before)..LastOf(ca)] == a[LastOf(before)..LastOf(ca)];
    }
  }

  lemma SliceOfConcat(a: string, b: string, i: nat, j: nat)
    requires i <= j <= |b|
    ensures (a + b)[|a| + i..|a| + j] == b[i..j]
  {
  }

  lemma KeptShifts(a: string, b: string, i: nat, j: nat)
    requires i <= j <= |b|
    ensures Kept(a + b, |a| + i, |a| + j) == Shift(Kept(b, i, j), |a|)
  {
    hide Trim, Worth, Shift;
    SliceOfConcat(a, b, i, j);
    WorthShifts(Statement(Trim(b[i..j]), i, j), |a|);
  }

  lemma WorthShifts(st: Statement, off: nat)
    ensures Worth(Moved(st, off)) == Shift(Worth(st), off)
  {
    hide OnlyComments, Shift;
    ShiftNothing(off);
    ShiftOne(st, off);
  }

  lemma LexSplitConcat(d: Dialect, a: string, b: string)
    requires EndsWithCut(d, a)
    ensures LexSplit(d, a + b) == LexSplit(d, a) + Shift(LexSplit(d, b), |a|)
  {
    hide Cuts, CutAt, Pieces, Kept, Shift, ShiftCuts, EndsWithCut, LexSplit, Ascending;
    CutsConcat(d, a, b, |b|);
    ClosedByCut(d, a);
    AscendingCuts(d, a);
    AscendingCuts(d, b);
    PiecesConcat(a, b, Cuts(d, a, |a|), Cuts(d, b, |b|));
    KeptShifts(a, b, LastOf(Cuts(d, b, |b|)), |b|);
    LexSplitIs(d, a);
    LexSplitIs(d, b);
    LexSplitIs(d, a + b);
    var pb, tail := Pieces(b, Cuts(d, b, |b|)), Kept(b, LastOf(Cuts(d, b, |b|)), |b|);
    ShiftConcat(pb, tail, |a|);
    var all := LexSplit(d, a);
    assert Pieces(a, Cuts(d, a, |a|)) + [] == Pieces(a, Cuts(d, a, |a|));
    Associate(all, Shift(pb, |a|), Shift(tail, |a|));
  }

  lemma AscendingCuts(d: Dialect, r: string)
    ensures Ascending(Cuts(d, r, |r|), |r|)
  {
  }

  lemma LexSplitIs(d: Dialect, r: string)
    ensures LastOf(Cuts(d, r, |r|)) <= |r|
    ensures LexSplit(d, r) == Pieces(r, Cuts(d, r, |r|)) + Kept(r, LastOf(Cuts(d, r, |r|)), |r|)
  {
  }

  lemma ClosedByCut(d: Dialect, a: string)
    requires EndsWithCut(d, a)
    ensures LastOf(Cuts(d, a, |a|)) == |a| && Kept(a, |a|, |a|) == []
  {
    hide CutAt, Run;
    assert a[|a|..|a|] == "";
  }

  /* ---- the same with GO batches ---- */

  lemma {:induction false} BatchesShift(bs: seq<seq<string>>, st: Statement, off: nat)
    ensures BatchStatements(bs, Moved(st, off)) == Shift(BatchStatements(bs, st), off)
  {
    hide BatchStatement, Shift;
    if bs == [] {
      ShiftNothing(off);
    } else {
      BatchesShift(bs[..|bs| - 1], st, off);
      BatchShift(bs[|bs| - 1], st, off);
      ShiftConcat(BatchStatements(bs[..|bs| - 1], st), BatchStatement(bs[|bs| - 1], st), off);
    }
  }

  lemma BatchShift(batch: seq<string>, st: Statement, off: nat)
    ensures BatchStatement(batch, Moved(st, off)) == Shift(BatchStatement(batch, st), off)
  {
    hide Trim, Join, Shift;
    ShiftNothing(off);
    ShiftOne(st.(text := Trim(Join(batch, "\n"))), off);
  }

  lemma GoPiecesShift(st: Statement, off: nat)
    ensures GoPieces(Moved(st, off)) == Shift(GoPieces(st), off)
  {
    hide Batches, Lines, BatchStatements;
    BatchesShift(Batches(Lines(st.text)), st, off);
  }

  lemma {:induction false} GoSplitShift(sts: seq<Statement>, off: nat)
    ensures GoSplit(Shift(sts, off)) == Shift(GoSplit(sts), off)
  {
    hide GoPieces, Moved;
    if sts != [] {
      var n := |sts| - 1;
      GoSplitShift(sts[..n], off);
      var moved := Shift(sts, off);
      assert moved[..|moved| - 1] == Shift(sts[..n], off);
      GoPiecesShift(sts[n], off);
      ShiftConcat(GoSplit(sts[..n]), GoPieces(sts[n]), off);
    }
  }

  lemma {:induction false} GoSplitConcat(x: seq<Statement>, y: seq<Statement>)
    ensures GoSplit(x + y) == GoSplit(x) + GoSplit(y)
  {
    hide GoPieces;
    if y == [] {
      assert x + y == x;
    } else {
      GoSplitConcat(x, y[..|y| - 1]);
      assert (x + y)[..|x + y| - 1] == x + y[..|y| - 1];
    }
  }

  // If a buffer ends with a cut, whatever follows it is split on its own, for
  // all four engines.
  lemma SplitConcat(e: Engine, a: string, b: string)
    requires EndsWithCut(DialectOf(e), a)
    ensures Split(e, a + b) == Split(e, a) + Shift(Split(e, b), |a|)
  {
    hide LexSplit, GoSplit, CutAt, Shift;
    var d := DialectOf(e);
    LexSplitConcat(d, a, b);
    if e == SQLServer {
      GoSplitConcat(LexSplit(d, a), Shift(LexSplit(d, b), |a|));
      GoSplitShift(LexSplit(d, b), |a|);
    }
  }
}

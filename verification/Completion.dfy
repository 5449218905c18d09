/** Editor completion (core/dbcore/complete.go): ranking suggestions (lines
    381-432), the word before the cursor and the statement around it (187-194 and
    244-251). */
module Completion {
  import opened Text
  import opened Lexer
  import opened Skippers
  import opened Splitter
  import opened SplitLaws
  import Leading
  import opened OneStatement

  datatype Suggestion = Suggestion(text: string, kind: string, detail: string)
  datatype Scored = Scored(s: Suggestion, score: nat)

  const CAP: nat := 40
  const NO_MATCH: int := -1

  /* ---- the order ---- */

  // Go compares strings bytewise; in UTF-8 that is by code point.
  predicate TextLess(a: string, b: string) {
    b != "" && (a == "" || a[0] < b[0] || (a[0] == b[0] && TextLess(a[1..], b[1..])))
  }

  predicate Less(a: Scored, b: Scored) {
    a.score < b.score || (a.score == b.score && TextLess(ToLower(a.s.text), ToLower(b.s.text)))
  }

  lemma {:induction false} TextLessIsOrder(a: string, b: string, c: string)
    ensures TextLess(a, b) ==> !TextLess(b, a)
    ensures !TextLess(a, b) && !TextLess(b, c) ==> !TextLess(a, c)
    ensures !TextLess(a, b) && !TextLess(b, a) ==> a == b
    decreases |a|
  {
    if a != "" && b != "" && a[0] == b[0] {
      TextLessIsOrder(a[1..], b[1..], if c != "" then c[1..] else "");
      assert a == [a[0]] + a[1..] && b == [b[0]] + b[1..];
    }
  }

  lemma LessIsOrder(a: Scored, b: Scored, c: Scored)
    ensures Less(a, b) ==> !Less(b, a)
    ensures !Less(a, b) && !Less(b, c) ==> !Less(a, c)
  {
    hide TextLess, ToLower;
    TextLessIsOrder(ToLower(a.s.text), ToLower(b.s.text), ToLower(c.s.text));
  }

  /* ---- sort.SliceStable ---- */

  // Puts x behind everything that is not greater.
  function Insert(s: seq<Scored>, x: Scored): seq<Scored> {
    if s != [] && Less(x, s[|s| - 1]) then Insert(s[..|s| - 1], x) + [s[|s| - 1]] else s + [x]
  }

  function StableSort(xs: seq<Scored>): seq<Scored> {
    if xs == [] then [] else Insert(StableSort(xs[..|xs| - 1]), xs[|xs| - 1])
  }

  predicate Sorted(s: seq<Scored>) {
    forall i, j :: 0 <= i < j < |s| ==> !Less(s[j], s[i])
  }

  predicate Tied(a: Scored, b: Scored) { !Less(a, b) && !Less(b, a) }

  // The elements tied with e, in order.
  function TiedWith(s: seq<Scored>, e: Scored): seq<Scored> {
    if s == [] then []
    else
      var before, last := TiedWith(s[..|s| - 1], e), s[|s| - 1];
      if Tied(last, e) then before + [last] else before
  }

  lemma {:induction false} InsertElements(s: seq<Scored>, x: Scored)
    ensures multiset(Insert(s, x)) == multiset(s) + multiset{x}
    ensures |Insert(s, x)| == |s| + 1
  {
    hide Less;
    if s != [] {
      var n := |s| - 1;
      assert s == s[..n] + [s[n]];
      InsertElements(s[..n], x);
    }
  }

  lemma {:induction false} InsertSorted(s: seq<Scored>, x: Scored)
    requires Sorted(s)
    ensures Sorted(Insert(s, x))
  {
    hide Less;
    if s != [] {
      var n := |s| - 1;
      var out := Insert(s, x);
      if Less(x, s[n]) {
        InsertSorted(s[..n], x);
        InsertElements(s[..n], x);
        var head := Insert(s[..n], x);
        forall i | 0 <= i < |head| ensures !Less(s[n], head[i]) {
          assert head[i] in multiset(head);
          assert head[i] in s[..n] || head[i] == x;
          LessIsOrder(x, s[n], x);
        }
      } else {
        forall i | 0 <= i < |s| ensures !Less(x, s[i]) {
          LessIsOrder(x, s[n], s[i]);
        }
      }
    }
  }

  lemma {:induction false} InsertStable(s: seq<Scored>, x: Scored, e: Scored)
    ensures TiedWith(Insert(s, x), e) == TiedWith(s, e) + if Tied(x, e) then [x] else []
  {
    hide Less;
    if s == [] {
      assert [] + [x] == [x] && [x][..0] == [];
    } else {
      var n := |s| - 1;
      if Less(x, s[n]) {
        InsertStable(s[..n], x, e);
        var head := Insert(s[..n], x);
        assert (head + [s[n]])[..|head|] == head;
        if Tied(x, e) && Tied(s[n], e) {
          LessIsOrder(s[n], e, x);
          LessIsOrder(x, e, s[n]);
        }
      } else {
        assert (s + [x])[..|s|] == s;
      }
    }
  }

  // The sort orders its input, keeps its elements, and never swaps a tie.
  lemma {:induction false} StableSortSorts(xs: seq<Scored>)
    ensures Sorted(StableSort(xs))
    ensures multiset(StableSort(xs)) == multiset(xs)
    ensures |StableSort(xs)| == |xs|
  {
    hide Less;
    if xs != [] {
      var n := |xs| - 1;
      StableSortSorts(xs[..n]);
      assert xs == xs[..n] + [xs[n]];
      InsertSorted(StableSort(xs[..n]), xs[n]);
      InsertElements(StableSort(xs[..n]), xs[n]);
    }
  }

  lemma {:induction false} StableSortStable(xs: seq<Scored>, e: Scored)
    ensures TiedWith(StableSort(xs), e) == TiedWith(xs, e)
  {
    hide Less, Insert;
    if xs != [] {
      var n := |xs| - 1;
      StableSortStable(xs[..n], e);
      InsertStable(StableSort(xs[..n]), xs[n], e);
    }
  }

  // Sorted sequences with the same ties are the same, so whatever sorts stably
  // computes StableSort.
  lemma StableSortUnique(xs: seq<Scored>, ys: seq<Scored>)
    requires Sorted(ys) && forall e :: TiedWith(ys, e) == TiedWith(xs, e)
    ensures ys == StableSort(xs)
  {
    hide Less, StableSort, TiedWith;
    StableSortSorts(xs);
    forall e ensures TiedWith(StableSort(xs), e) == TiedWith(ys, e) {
      StableSortStable(xs, e);
    }
    SortedByTies(StableSort(xs), ys);
  }

  lemma {:induction false} SortedByTies(a: seq<Scored>, b: seq<Scored>)
    requires Sorted(a) && Sorted(b) && forall e :: TiedWith(a, e) == TiedWith(b, e)
    ensures a == b
  {
    hide Less, TiedWith, Tied;
    if a == [] || b == [] {
      NoTies(a, b);
    } else {
      var n, m := |a| - 1, |b| - 1;
      SameLast(a, b);
      assert a == a[..n] + [a[n]] && b == b[..m] + [b[m]];
      forall e ensures TiedWith(a[..n], e) == TiedWith(b[..m], e) {
        TiesBefore(a, e);
        TiesBefore(b, e);
        SameFront(TiedWith(a[..n], e), TiedWith(b[..m], e), if Tied(a[n], e) then [a[n]] else []);
      }
      SortedByTies(a[..n], b[..m]);
    }
  }

  lemma TiesBefore(s: seq<Scored>, e: Scored)
    requires s != []
    ensures var n := |s| - 1; TiedWith(s, e) == TiedWith(s[..n], e) + if Tied(s[n], e) then [s[n]] else []
    ensures Tied(s[|s| - 1], s[|s| - 1])
  {
    hide Less;
    LessIsOrder(s[|s| - 1], s[|s| - 1], s[|s| - 1]);
  }

  lemma SameFront<T>(x: seq<T>, y: seq<T>, tail: seq<T>)
    requires x + tail == y + tail
    ensures x == y
  {
    assert |x| == |y| && (x + tail)[..|x|] == x && (y + tail)[..|y|] == y;
  }

  lemma NoTies(a: seq<Scored>, b: seq<Scored>)
    requires (a == [] || b == []) && forall e :: TiedWith(a, e) == TiedWith(b, e)
    ensures a == b
  {
    hide Tied;
    if a != [] {
      TiesBefore(a, a[|a| - 1]);
    }
    if b != [] {
      TiesBefore(b, b[|b| - 1]);
    }
  }

  lemma {:induction false} TiesAreElements(s: seq<Scored>, e: Scored)
    ensures forall x :: x in TiedWith(s, e) ==> x in s
  {
    hide Tied;
    if s != [] {
      var n := |s| - 1;
      assert s == s[..n] + [s[n]];
      TiesAreElements(s[..n], e);
    }
  }

  // Each last element is among the other's, so neither is behind the other: they
  // are tied, and the last of their ties.
  lemma SameLast(a: seq<Scored>, b: seq<Scored>)
    requires Sorted(a) && Sorted(b) && a != [] && b != []
    requires forall e :: TiedWith(a, e) == TiedWith(b, e)
    ensures a[|a| - 1] == b[|b| - 1]
  {
    hide Less, TiedWith, Sorted;
    var x, y := a[|a| - 1], b[|b| - 1];
    var tiesA, tiesB := TiedWith(a, x), TiedWith(b, y);
    TiesBefore(a, x);
    TiesBefore(b, y);
    TiesBefore(b, x);
    assert tiesA[|tiesA| - 1] == x && tiesB[|tiesB| - 1] == y;
    assert x in TiedWith(b, x) && y in TiedWith(a, y);
    TiesAreElements(b, x);
    TiesAreElements(a, y);
    LastIsGreatest(b, x);
    LastIsGreatest(a, y);
    assert Tied(y, x);
  }

  lemma LastIsGreatest(s: seq<Scored>, x: Scored)
    requires Sorted(s) && x in s
    ensures !Less(s[|s| - 1], x)
  {
    hide Less;
    LessIsOrder(x, x, x);
  }

  /* ---- filtering ---- */

  function IdentityOf(s: Suggestion): string { s.kind + "\0" + ToLower(s.text) }

  // How well a suggestion matches, or NO_MATCH.
  function Score(needle: string, s: Suggestion): (score: int)
    ensures score == NO_MATCH || 0 <= score
  {
    var lower := ToLower(s.text);
    var rank :=
      if needle == "" then 1
      else if needle <= lower then 0
      else if Index(lower, needle) >= 0 then 2
      else NO_MATCH;
    if rank < 0 then NO_MATCH else if s.kind == "keyword" then rank + 3 else rank
  }

  // The identity s has among what is kept.
  predicate Has(kept: seq<Scored>, s: Suggestion) {
    exists k :: 0 <= k < |kept| && IdentityOf(kept[k].s) == IdentityOf(s)
  }

  // Matching suggestions, the first of each identity.
  function Kept(needle: string, items: seq<Suggestion>): seq<Scored> {
    if items == [] then []
    else
      var before, s := Kept(needle, items[..|items| - 1]), items[|items| - 1];
      if Has(before, s) || Score(needle, s) < 0 then before else before + [Scored(s, Score(needle, s))]
  }

  function Texts(kept: seq<Scored>): (out: seq<Suggestion>)
    ensures |out| == |kept| && forall k :: 0 <= k < |kept| ==> out[k] == kept[k].s
  {
    seq(|kept|, k requires 0 <= k < |kept| => kept[k].s)
  }

  function Top(kept: seq<Scored>): seq<Scored> { if |kept| <= CAP then kept else kept[..CAP] }

  method Rank(prefix: string, items: seq<Suggestion>) returns (out: seq<Suggestion>)
    ensures out == Texts(Top(StableSort(Kept(ToLower(prefix), items))))
  {
    hide IdentityOf, Score, ToLower, StableSort;
    var needle := ToLower(prefix);
    var kept: seq<Scored> := [];
    var seen: set<string> := {};
    for i := 0 to |items|
      invariant kept == Kept(needle, items[..i])
      invariant forall k :: 0 <= k < |kept| ==> IdentityOf(kept[k].s) in seen
      invariant forall key :: key in seen ==> exists k :: 0 <= k < |kept| && IdentityOf(kept[k].s) == key
    {
      assert items[..i + 1][..i] == items[..i];
      var s := items[i];
      var key := IdentityOf(s);
      if key in seen {
        continue;
      }
      var score := Score(needle, s);
      if score < 0 {
        continue;
      }
      ghost var before := kept;
      kept := kept + [Scored(s, score)];
      forall earlier | earlier in seen ensures exists k :: 0 <= k < |kept| && IdentityOf(kept[k].s) == earlier {
        var k :| 0 <= k < |before| && IdentityOf(before[k].s) == earlier;
        assert kept[k] == before[k];
      }
      assert IdentityOf(kept[|before|].s) == key;
      seen := seen + {key};
    }
    assert items[..|items|] == items;
    kept := StableSort(kept);
    out := [];
    for i := 0 to |kept|
      invariant |out| == i && out == Texts(kept[..i]) && i < CAP
    {
      out := out + [kept[i].s];
      if |out| >= CAP {
        assert out == Texts(kept[..CAP]);
        break;
      }
    }
    assert |kept| < CAP ==> kept[..|kept|] == kept;
  }

  /* ---- what ranking promises ---- */

  // A suggestion matches exactly when its text, whatever the case, contains what
  // was typed; one that starts with it scores better than one that does not.
  lemma MatchIff(needle: string, s: Suggestion)
    ensures Score(needle, s) >= 0 <==> exists j :: OccursAt(ToLower(s.text), needle, j)
    ensures forall other: Suggestion ::
      needle != "" && other.kind == s.kind && Score(needle, s) >= 0 && Score(needle, other) >= 0
      && needle <= ToLower(s.text) && !(needle <= ToLower(other.text)) ==>
        Score(needle, s) < Score(needle, other)
  {
    hide ToLower;
    var lower := ToLower(s.text);
    if needle == "" {
      assert OccursAt(lower, needle, 0);
    } else if needle <= lower {
      assert OccursAt(lower, needle, 0);
    }
  }

  predicate DistinctIdentities(kept: seq<Scored>) {
    forall i, j :: 0 <= i < j < |kept| ==> IdentityOf(kept[i].s) != IdentityOf(kept[j].s)
  }

  // One text stands before another in the dictionary.
  ghost predicate TextBefore(a: string, b: string) {
    exists n: nat :: FirstDifference(a, b, n)
  }

  predicate FirstDifference(a: string, b: string, n: nat) {
    n <= |a| && n < |b| && a[..n] == b[..n] && (n == |a| || a[n] < b[n])
  }

  lemma {:induction false} TextLessIff(a: string, b: string)
    ensures TextLess(a, b) <==> TextBefore(a, b)
    decreases |a|
  {
    if b != "" && (a == "" || a[0] < b[0]) {
      assert FirstDifference(a, b, 0);
    }
    if a != "" && b != "" && a[0] == b[0] {
      TextLessIff(a[1..], b[1..]);
      if n: nat :| FirstDifference(a[1..], b[1..], n) {
        assert a[..n + 1] == [a[0]] + a[1..][..n] && b[..n + 1] == [b[0]] + b[1..][..n];
        assert FirstDifference(a, b, n + 1);
      }
      if n: nat :| FirstDifference(a, b, n) {
        assert n > 0;
        assert a[1..][..n - 1] == a[..n][1..] && b[1..][..n - 1] == b[..n][1..];
        assert FirstDifference(a[1..], b[1..], n - 1);
      }
    } else if n: nat :| FirstDifference(a, b, n) {
      SameStart(a, b, n);
    }
  }

  lemma SameStart(a: string, b: string, n: nat)
    requires FirstDifference(a, b, n)
    ensures n > 0 ==> a != "" && b != "" && a[0] == b[0]
  {
    assert n > 0 ==> a[..n][0] == a[0] && b[..n][0] == b[0];
  }

  // What starts with what was typed, if anything was.
  predicate Starts(needle: string, s: Suggestion) { needle != "" && needle <= ToLower(s.text) }

  // Of two matches the one that is no keyword is better; of two keywords or two others
  // the one that starts with what was typed; then the one whose text comes first.
  ghost predicate Before(needle: string, a: Suggestion, b: Suggestion) {
    if (a.kind == "keyword") != (b.kind == "keyword") then b.kind == "keyword"
    else if Starts(needle, a) != Starts(needle, b) then Starts(needle, a)
    else TextBefore(ToLower(a.text), ToLower(b.text))
  }

  // The order sorted by is that one.
  lemma LessIff(needle: string, a: Suggestion, b: Suggestion)
    requires Score(needle, a) >= 0 && Score(needle, b) >= 0
    ensures Less(Scored(a, Score(needle, a)), Scored(b, Score(needle, b))) <==> Before(needle, a, b)
  {
    hide TextLess, TextBefore, ToLower, Index;
    TextLessIff(ToLower(a.text), ToLower(b.text));
  }

  // At most 40 matches are returned, best first, and no match left out is better.
  lemma RankIsBest(needle: string, items: seq<Suggestion>)
    ensures var sorted := StableSort(Kept(needle, items));
      var top := Top(sorted);
      && |top| == (if |sorted| <= 40 then |sorted| else 40) && top == sorted[..|top|]
      && forall i, j :: 0 <= i < j < |sorted| ==> !Before(needle, sorted[j].s, sorted[i].s)
  {
    hide Less, Before, Kept, StableSort, Score;
    var kept := Kept(needle, items);
    var sorted := StableSort(kept);
    StableSortSorts(kept);
    KeptComesFromMatches(needle, items);
    SameElements(kept, sorted, needle, items);
    forall i, j | 0 <= i < j < |sorted| ensures !Before(needle, sorted[j].s, sorted[i].s) {
      LessIff(needle, sorted[j].s, sorted[i].s);
      assert sorted[i] == Scored(sorted[i].s, Score(needle, sorted[i].s));
      assert sorted[j] == Scored(sorted[j].s, Score(needle, sorted[j].s));
    }
    assert sorted[..|sorted|] == sorted;
  }

  // What is kept are matches with their scores (KeptComesFromMatches), and exactly one
  // for each identity that matches.
  lemma {:induction false} KeptIsDistinct(needle: string, items: seq<Suggestion>)
    ensures DistinctIdentities(Kept(needle, items))
  {
    hide IdentityOf, Score;
    if items != [] {
      KeptIsDistinct(needle, items[..|items| - 1]);
    }
  }

  lemma {:induction false} KeptCovers(needle: string, items: seq<Suggestion>, i: nat)
    requires i < |items| && Score(needle, items[i]) >= 0
    ensures Has(Kept(needle, items), items[i])
  {
    hide IdentityOf, Score, Has;
    var n := |items| - 1;
    var before, kept := Kept(needle, items[..n]), Kept(needle, items);
    if i < n {
      assert items[..n][i] == items[i];
      KeptCovers(needle, items[..n], i);
      HasStays(before, kept, items[i]);
    } else if !Has(before, items[n]) {
      HasLast(before, Scored(items[n], Score(needle, items[n])));
    }
  }

  lemma HasStays(before: seq<Scored>, kept: seq<Scored>, s: Suggestion)
    requires before <= kept && Has(before, s)
    ensures Has(kept, s)
  {
    hide IdentityOf;
    var k :| 0 <= k < |before| && IdentityOf(before[k].s) == IdentityOf(s);
    assert kept[k] == before[k];
  }

  lemma HasLast(before: seq<Scored>, x: Scored)
    ensures Has(before + [x], x.s)
  {
    hide IdentityOf;
    assert (before + [x])[|before|] == x;
  }

  // Of the suggestions with one identity, the one kept is the first that matches.
  lemma {:induction false} KeptIsFirst(needle: string, items: seq<Suggestion>, i: nat)
    requires i < |items| && Score(needle, items[i]) >= 0
    requires forall j :: 0 <= j < i && IdentityOf(items[j]) == IdentityOf(items[i]) ==> Score(needle, items[j]) < 0
    ensures Scored(items[i], Score(needle, items[i])) in Kept(needle, items)
  {
    hide IdentityOf, Score;
    var n := |items| - 1;
    if i < n {
      assert items[..n][i] == items[i];
      KeptIsFirst(needle, items[..n], i);
    } else {
      var before := Kept(needle, items[..n]);
      KeptComesFromMatches(needle, items[..n]);
      forall k | 0 <= k < |before| ensures IdentityOf(before[k].s) != IdentityOf(items[n]) {
        assert before[k].s in items[..n];
        var j :| 0 <= j < n && items[j] == before[k].s;
        assert Score(needle, items[j]) >= 0;
      }
      assert Kept(needle, items)[|before|] == Scored(items[n], Score(needle, items[n]));
    }
  }

  predicate AreMatches(kept: seq<Scored>, needle: string, items: seq<Suggestion>) {
    forall k :: 0 <= k < |kept| ==> kept[k].s in items && kept[k].score == Score(needle, kept[k].s) >= 0
  }

  lemma {:induction false} KeptComesFromMatches(needle: string, items: seq<Suggestion>)
    ensures AreMatches(Kept(needle, items), needle, items)
  {
    hide IdentityOf, Score, Has;
    if items != [] {
      var n := |items| - 1;
      KeptComesFromMatches(needle, items[..n]);
      var before := Kept(needle, items[..n]);
      assert forall s :: s in items[..n] ==> s in items;
      assert AreMatches(before, needle, items);
    }
  }

  // Kinds without NUL keep apart: equal identities mean equal kinds and texts
  // that differ at most in case.
  lemma IdentityIsKindAndText(a: Suggestion, b: Suggestion)
    requires '\0' !in a.kind && '\0' !in b.kind
    ensures IdentityOf(a) == IdentityOf(b) <==> a.kind == b.kind && ToLower(a.text) == ToLower(b.text)
  {
    hide ToLower;
    if IdentityOf(a) == IdentityOf(b) {
      var s := IdentityOf(a);
      assert s[|a.kind|] == '\0' && s[|b.kind|] == '\0';
      assert forall j :: 0 <= j < |a.kind| ==> s[j] == a.kind[j] && s[j] != '\0';
      assert forall j :: 0 <= j < |b.kind| ==> s[j] == b.kind[j] && s[j] != '\0';
      assert |a.kind| == |b.kind|;
      assert s[..|a.kind|] == a.kind && s[..|b.kind|] == b.kind;
      assert s[|a.kind| + 1..] == ToLower(a.text) && s[|b.kind| + 1..] == ToLower(b.text);
    }
  }

  // Suggestions returned: at most 40 of those kept, in order; anything kept but
  // left out does not come before anything returned.
  lemma RankIsTop(needle: string, items: seq<Suggestion>)
    ensures var kept := Kept(needle, items);
      var sorted := StableSort(kept);
      var top := Top(sorted);
      && |top| == (if |kept| < CAP then |kept| else CAP)
      && Sorted(top)
      && multiset(top) <= multiset(kept)
      && (forall i, j :: 0 <= i < |top| && |top| <= j < |sorted| ==> !Less(sorted[j], top[i]))
  {
    hide Less, Kept;
    var kept := Kept(needle, items);
    StableSortSorts(kept);
    var sorted := StableSort(kept);
    if |sorted| > CAP {
      assert sorted == sorted[..CAP] + sorted[CAP..];
    }
  }

  // No two returned suggestions share an identity, and each one matches.
  lemma RankIsDistinct(needle: string, items: seq<Suggestion>)
    ensures var top := Top(StableSort(Kept(needle, items)));
      && (forall k :: 0 <= k < |top| ==> top[k].s in items && Score(needle, top[k].s) >= 0)
      && (forall i, j :: 0 <= i < j < |top| ==> IdentityOf(top[i].s) != IdentityOf(top[j].s))
  {
    hide Less, Kept, IdentityOf, Score, StableSort;
    var kept := Kept(needle, items);
    KeptIsDistinct(needle, items);
    KeptComesFromMatches(needle, items);
    StableSortSorts(kept);
    SameElements(kept, StableSort(kept), needle, items);
    DistinctCarriesOver(kept, StableSort(kept));
  }

  lemma SameElements(a: seq<Scored>, b: seq<Scored>, needle: string, items: seq<Suggestion>)
    requires multiset(a) == multiset(b) && AreMatches(a, needle, items)
    ensures AreMatches(b, needle, items)
  {
    hide Score;
    forall k | 0 <= k < |b| ensures b[k] in a {
      assert b[k] in multiset(b);
    }
  }

  // Whether identities are distinct does not depend on the order.
  lemma {:induction false} DistinctCarriesOver(a: seq<Scored>, b: seq<Scored>)
    requires multiset(a) == multiset(b) && DistinctIdentities(a)
    ensures DistinctIdentities(b)
  {
    hide IdentityOf, DistinctIdentities;
    if b != [] {
      var n, x := |b| - 1, b[|b| - 1];
      assert b == b[..n] + [x];
      assert x in multiset(b) && x in a;
      var k :| 0 <= k < |a| && a[k] == x;
      var rest := a[..k] + a[k + 1..];
      TakenOut(a, k, rest);
      LastTakenOut(a, b, k);
      DistinctCarriesOver(rest, b[..n]);
      forall i | 0 <= i < n ensures IdentityOf(b[i].s) != IdentityOf(x.s) {
        assert b[..n][i] in multiset(b[..n]);
        assert b[i] in rest;
      }
      DistinctGrows(b[..n], x);
    }
  }

  lemma DistinctGrows(s: seq<Scored>, x: Scored)
    requires DistinctIdentities(s) && forall i :: 0 <= i < |s| ==> IdentityOf(s[i].s) != IdentityOf(x.s)
    ensures DistinctIdentities(s + [x])
  {
    hide IdentityOf;
  }

  lemma LastTakenOut<T>(a: seq<T>, b: seq<T>, k: nat)
    requires multiset(a) == multiset(b) && b != [] && k < |a| && a[k] == b[|b| - 1]
    ensures multiset(a[..k] + a[k + 1..]) == multiset(b[..|b| - 1])
  {
    var n, rest := |b| - 1, a[..k] + a[k + 1..];
    OneLess(a, k);
    OneLess(b, n);
    assert b[..n] + b[n + 1..] == b[..n];
    assert multiset(rest) + multiset{a[k]} - multiset{a[k]} == multiset(rest);
    assert multiset(b[..n]) + multiset{a[k]} - multiset{a[k]} == multiset(b[..n]);
  }

  lemma OneLess<T>(a: seq<T>, k: nat)
    requires k < |a|
    ensures multiset(a) == multiset(a[..k] + a[k + 1..]) + multiset{a[k]}
  {
    assert a == a[..k] + [a[k]] + a[k + 1..];
  }

  lemma TakenOut(a: seq<Scored>, k: nat, rest: seq<Scored>)
    requires k < |a| && rest == a[..k] + a[k + 1..] && DistinctIdentities(a)
    ensures DistinctIdentities(rest)
    ensures forall x :: x in rest ==> IdentityOf(x.s) != IdentityOf(a[k].s)
  {
    hide IdentityOf;
    assert a == a[..k] + [a[k]] + a[k + 1..];
  }

  /* ---- the word and the statement at the cursor ---- */

  method WordBefore(r: string, cursor: nat) returns (word: string, start: nat)
    requires cursor <= |r|
    ensures start <= cursor && word == r[start..cursor]
    ensures forall j :: start <= j < cursor ==> IsIdent(r[j])
    ensures start > 0 ==> !IsIdent(r[start - 1])
  {
    var i: nat := cursor;
    while i > 0 && IsIdent(r[i - 1])
      invariant i <= cursor
      invariant forall j :: i <= j < cursor ==> IsIdent(r[j])
    {
      i := i - 1;
    }
    return r[i..cursor], i;
  }

  function Around(sts: seq<Statement>, sql: string, cursor: nat): string {
    if sts == [] then sql
    else if sts[0].start <= cursor <= sts[0].end then sts[0].text
    else Around(sts[1..], sql, cursor)
  }

  method StatementAround(e: Engine, sql: string, cursor: nat) returns (text: string)
    ensures text == Around(Split(e, sql), sql, cursor)
  {
    hide Split;
    var sts := SplitStatements(e, sql);
    for k := 0 to |sts|
      invariant Around(sts, sql, cursor) == Around(sts[k..], sql, cursor)
    {
      assert sts[k..][1..] == sts[k + 1..];
      if sts[k].start <= cursor && cursor <= sts[k].end {
        return sts[k].text;
      }
    }
    return sql;
  }

  lemma {:induction false} AroundFirst(sts: seq<Statement>, sql: string, cursor: nat, k: nat)
    requires k < |sts| && sts[k].start <= cursor <= sts[k].end
    requires forall j :: 0 <= j < k ==> sts[j].end < cursor
    ensures Around(sts, sql, cursor) == sts[k].text
  {
    if k > 0 {
      assert sts[1..][k - 1] == sts[k];
      AroundFirst(sts[1..], sql, cursor, k - 1);
    }
  }

  // Where no span holds the cursor, the whole buffer is taken.
  lemma {:induction false} AroundNothing(sts: seq<Statement>, sql: string, cursor: nat)
    requires forall k :: 0 <= k < |sts| ==> !(sts[k].start <= cursor <= sts[k].end)
    ensures Around(sts, sql, cursor) == sql
  {
    if sts != [] {
      AroundNothing(sts[1..], sql, cursor);
    }
  }

  // Statements in order: each span is that of the one before, or begins behind it.
  ghost predicate InOrder(sts: seq<Statement>) {
    && (forall k :: 0 <= k < |sts| ==> sts[k].start <= sts[k].end)
    && (forall j, k :: 0 <= j < k < |sts| ==> sts[j].end <= sts[k].start || SameSpan(sts[j], sts[k]))
  }

  predicate SameSpan(a: Statement, b: Statement) { a.start == b.start && a.end == b.end }

  lemma LexSplitInOrder(d: Dialect, sql: string)
    ensures InOrder(LexSplit(d, sql))
  {
    hide LexSplit, Cuts, Trim, Leading.OnlyComments;
    SplitTiles(d, sql);
    var cs, sts := Cuts(d, sql, |sql|), LexSplit(d, sql);
    forall k | 0 <= k < |sts| ensures sts[k].start == SegmentStart(cs, k) <= sts[k].end {
      if k < |cs| {
        assert sts[k] == Tile(sql, cs, k);
      }
    }
    forall j, k | 0 <= j < k < |sts| ensures sts[j].end <= sts[k].start {
      assert sts[j] == Tile(sql, cs, j);
      AscendingGap(cs, |sql|, k, j);
    }
  }

  // Cutting statements into batches keeps the order; batches of one share its span.
  lemma {:induction false} GoSplitInOrder(sts: seq<Statement>)
    requires InOrder(sts)
    ensures InOrder(GoSplit(sts))
    ensures forall k :: 0 <= k < |GoSplit(sts)| ==> exists i :: 0 <= i < |sts| && SameSpan(GoSplit(sts)[k], sts[i])
  {
    hide GoPieces;
    if sts != [] {
      var n := |sts| - 1;
      GoSplitInOrder(sts[..n]);
      var before, pieces, out := GoSplit(sts[..n]), GoPieces(sts[n]), GoSplit(sts);
      forall k | 0 <= k < |out|
        ensures k < |before| ==> exists i :: 0 <= i < n && SameSpan(out[k], sts[i])
        ensures |before| <= k ==> SameSpan(out[k], sts[n])
      {
        if k < |before| {
          var i :| 0 <= i < n && SameSpan(before[k], sts[..n][i]);
          assert SameSpan(out[k], sts[i]);
        } else {
          GoPiecesKeepSpan(sts[n], k - |before|);
        }
      }
      forall j, k | 0 <= j < k < |out| ensures out[j].end <= out[k].start || SameSpan(out[j], out[k]) {
        if j < |before| && |before| <= k {
          var i :| 0 <= i < n && SameSpan(out[j], sts[i]);
        }
      }
    }
  }

  // Because the spans tile the buffer, a cursor behind the start of a span, or at a
  // start that no earlier span ends at, and up to its end finds the first statement
  // with that span; on a boundary the earlier span wins. On SQL Server, where the batches of one statement share its span, that is
  // the first batch, wherever in them the cursor stands.
  lemma CursorFindsItsStatement(e: Engine, sql: string, k: nat, cursor: nat)
    requires k < |Split(e, sql)| && Split(e, sql)[k].start <= cursor <= Split(e, sql)[k].end
    requires forall j :: 0 <= j < k ==> !SameSpan(Split(e, sql)[j], Split(e, sql)[k])
    requires cursor == Split(e, sql)[k].start ==> forall j :: 0 <= j < k ==> Split(e, sql)[j].end != cursor
    ensures Around(Split(e, sql), sql, cursor) == Split(e, sql)[k].text
  {
    hide LexSplit, GoSplit, Around;
    LexSplitInOrder(DialectOf(e), sql);
    GoSplitInOrder(LexSplit(DialectOf(e), sql));
    assert InOrder(Split(e, sql));
    AroundFirst(Split(e, sql), sql, cursor, k);
  }
}

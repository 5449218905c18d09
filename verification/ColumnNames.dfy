/** deduplicateNames (core/dbcore/query.go:250-265): renaming the columns of a
    result in place so that no two share a name. */
module ColumnNames {
  import opened Text

  // The name a column starts from: its own, or one made from its position.
  function Base(names: seq<string>, i: nat): string
    requires i < |names|
  {
    if names[i] == "" then "column" + Decimal(i + 1) else names[i]
  }

  // How many of the first n columns start from the name b.
  function Count(names: seq<string>, b: string, n: nat): nat
    requires n <= |names|
  {
    if n == 0 then 0 else Count(names, b, n - 1) + if Base(names, n - 1) == b then 1 else 0
  }

  function Earlier(names: seq<string>, i: nat): nat
    requires i < |names|
  {
    Count(names, Base(names, i), i)
  }

  function Numbered(b: string, k: nat): string { b + " (" + Decimal(k) + ")" }

  // A repeated name is numbered from 2.
  function Renamed(names: seq<string>, i: nat): string
    requires i < |names|
  {
    var k := Earlier(names, i);
    if k == 0 then Base(names, i) else Numbered(Base(names, i), k + 1)
  }

  function RenamedAll(names: seq<string>): (out: seq<string>)
    ensures |out| == |names| && forall i :: 0 <= i < |names| ==> out[i] == Renamed(names, i)
  {
    seq(|names|, i requires 0 <= i < |names| => Renamed(names, i))
  }

  // The counter map holds, for every name met so far, how often it was met.
  ghost predicate Tally(seen: map<string, nat>, names: seq<string>, i: nat)
    requires i <= |names|
  {
    forall b :: if b in seen then seen[b] == Count(names, b, i) > 0 else Count(names, b, i) == 0
  }

  method DeduplicateNames(cols: array<string>)
    modifies cols
    ensures cols[..] == RenamedAll(old(cols[..]))
  {
    hide Numbered, Decimal, Renamed, Tally, Count;
    ghost var names := cols[..];
    var seen: map<string, nat> := map[];
    NothingTallied(names);
    for i := 0 to cols.Length
      invariant forall j :: 0 <= j < i ==> cols[j] == Renamed(names, j)
      invariant forall j :: i <= j < cols.Length ==> cols[j] == names[j]
      invariant Tally(seen, names, i)
    {
      var name := cols[i];
      if name == "" {
        name := "column" + Decimal(i + 1);
        cols[i] := name;
      }
      assert name == Base(names, i);
      TallyStep(seen, names, i);
      if name in seen {
        var n := seen[name];
        seen := seen[name := n + 1];
        cols[i] := Numbered(name, n + 1);
      } else {
        seen := seen[name := 1];
      }
    }
  }

  lemma NothingTallied(names: seq<string>)
    ensures Tally(map[], names, 0)
  {
  }

  lemma TallyStep(seen: map<string, nat>, names: seq<string>, i: nat)
    requires i < |names| && Tally(seen, names, i)
    ensures var b := Base(names, i);
      && Tally(seen[b := if b in seen then seen[b] + 1 else 1], names, i + 1)
      && Renamed(names, i) == if b in seen then Numbered(b, seen[b] + 1) else b
  {
    hide Numbered, Base;
  }

  /* ---- what the new names are ---- */

  lemma {:induction false} CountGrows(names: seq<string>, b: string, m: nat, n: nat)
    requires m <= n <= |names|
    ensures Count(names, b, m) <= Count(names, b, n)
  {
    if m < n {
      CountGrows(names, b, m, n - 1);
    }
  }

  // The columns before i that start from the name b.
  function Positions(names: seq<string>, b: string, i: nat): set<nat>
    requires i <= |names|
  {
    set j: nat | j < i && Base(names, j) == b
  }

  lemma {:induction false} CountIsSize(names: seq<string>, b: string, i: nat)
    requires i <= |names|
    ensures Count(names, b, i) == |Positions(names, b, i)|
  {
    hide Base;
    if i == 0 {
      assert Positions(names, b, 0) == {};
    } else {
      CountIsSize(names, b, i - 1);
      var before := Positions(names, b, i - 1);
      assert Positions(names, b, i) == before + if Base(names, i - 1) == b then {i - 1} else {};
    }
  }

  // A column without a name is named by its position, counted from 1. A name met before
  // gets a number in parentheses: one more than the columns before that start from it.
  lemma NewNames(names: seq<string>, i: nat)
    requires i < |names|
    ensures Base(names, i) == if names[i] == "" then "column" + Decimal(i + 1) else names[i]
    ensures var before := |Positions(names, Base(names, i), i)|;
      Renamed(names, i) ==
        if before == 0 then Base(names, i) else Base(names, i) + " (" + Decimal(before + 1) + ")"
  {
    CountIsSize(names, Base(names, i), i);
  }

  // Two columns that start from one name have different numbers of predecessors.
  lemma EarlierDiffers(names: seq<string>, i: nat, j: nat)
    requires i < j < |names| && Base(names, i) == Base(names, j)
    ensures Earlier(names, i) < Earlier(names, j)
  {
    CountGrows(names, Base(names, i), i + 1, j);
  }

  // Where a name has a predecessor, its first occurrence has none.
  lemma {:induction false} FirstOccurrence(names: seq<string>, b: string, n: nat) returns (i: nat)
    requires n <= |names| && Count(names, b, n) > 0
    ensures i < n && Base(names, i) == b && Earlier(names, i) == 0
  {
    if Count(names, b, n - 1) > 0 {
      i := FirstOccurrence(names, b, n - 1);
    } else {
      i := n - 1;
    }
  }

  // Counted from the end, the rune before the number is an opening parenthesis
  // and the number itself is all digits.
  lemma NumberedRunes(a: string, k: nat, m: nat)
    requires m <= |Decimal(k)|
    ensures var s := Numbered(a, k);
      && |s| >= m + 2 && s[|s| - 1] == ')'
      && (if m == |Decimal(k)| then s[|s| - 2 - m] == '(' else '0' <= s[|s| - 2 - m] <= '9')
  {
    var d := Decimal(k);
    assert m < |d| ==> '0' <= d[|d| - 1 - m] <= '9';
  }

  // The number at the end of a numbered name is read back uniquely.
  lemma NumberedInjective(a: string, j: nat, b: string, k: nat)
    requires Numbered(a, j) == Numbered(b, k)
    ensures a == b && j == k
  {
    var s, dj, dk := Numbered(a, j), Decimal(j), Decimal(k);
    var m := if |dj| < |dk| then |dj| else |dk|;
    NumberedRunes(a, j, m);
    NumberedRunes(b, k, m);
    assert |dj| == |dk|;
    assert s[..|a|] == a && s[..|b|] == b;
    assert s[|a| + 2..|s| - 1] == dj && s[|b| + 2..|s| - 1] == dk;
    DecimalInjective(j, k);
  }

  lemma RenamedIsNotEmpty(names: seq<string>, i: nat)
    requires i < |names|
    ensures Renamed(names, i) != ""
    ensures Renamed(names, i) == names[i] <==>
      names[i] != "" && forall j :: 0 <= j < i ==> Base(names, j) != names[i]
  {
    hide Decimal;
    if Earlier(names, i) > 0 {
      var j := FirstOccurrence(names, Base(names, i), i);
      assert |Numbered(Base(names, i), Earlier(names, i) + 1)| > |Base(names, i)|;
    } else {
      forall j | 0 <= j < i ensures Base(names, j) != Base(names, i) {
        if Base(names, j) == Base(names, i) {
          EarlierDiffers(names, j, i);
        }
      }
    }
  }

  predicate Distinct(names: seq<string>) {
    forall i, j :: 0 <= i < j < |names| ==> names[i] != names[j]
  }

  // Some column already carries the name a repeated column would be given.
  predicate Collides(names: seq<string>) {
    exists i, j :: 0 <= i < |names| && 0 <= j < |names| && Earlier(names, j) > 0
      && Base(names, i) == Numbered(Base(names, j), Earlier(names, j) + 1)
  }

  // The new names are pairwise distinct exactly when no column already carries a
  // name the numbering makes.
  lemma DistinctIff(names: seq<string>)
    ensures Distinct(RenamedAll(names)) <==> !Collides(names)
  {
    hide Numbered, Earlier, Base;
    var out := RenamedAll(names);
    if Collides(names) {
      var i, j :| 0 <= i < |names| && 0 <= j < |names| && Earlier(names, j) > 0
        && Base(names, i) == Numbered(Base(names, j), Earlier(names, j) + 1);
      var first := FirstWithBase(names, i);
      assert out[first] == out[j] && first != j;
    } else {
      forall i, j | 0 <= i < j < |names| ensures out[i] != out[j] {
        if out[i] == out[j] {
          SameNameCollides(names, i, j);
        }
      }
    }
  }

  lemma FirstWithBase(names: seq<string>, i: nat) returns (first: nat)
    requires i < |names|
    ensures first < |names| && Base(names, first) == Base(names, i) && Earlier(names, first) == 0
  {
    first := FirstOccurrence(names, Base(names, i), i + 1);
  }

  lemma SameNameCollides(names: seq<string>, i: nat, j: nat)
    requires i < j < |names| && Renamed(names, i) == Renamed(names, j)
    ensures Collides(names)
  {
    hide Numbered, Earlier, Base;
    if Base(names, i) == Base(names, j) {
      EarlierDiffers(names, i, j);
    }
    if Earlier(names, i) > 0 && Earlier(names, j) > 0 {
      NumberedInjective(Base(names, i), Earlier(names, i) + 1, Base(names, j), Earlier(names, j) + 1);
    }
  }

  // In particular when no name has the form the numbering makes.
  lemma UnnumberedIsDistinct(names: seq<string>)
    requires forall i, b, k :: 0 <= i < |names| ==> names[i] != Numbered(b, k)
    ensures Distinct(RenamedAll(names))
  {
    hide Earlier, Decimal, Numbered;
    DistinctIff(names);
    forall i, b, k | 0 <= i < |names| ensures Base(names, i) != Numbered(b, k) {
      GeneratedIsUnnumbered(i, b, k);
    }
  }

  lemma GeneratedIsUnnumbered(i: nat, b: string, k: nat)
    ensures "column" + Decimal(i + 1) != Numbered(b, k)
  {
    NumberedRunes(b, k, 0);
    var d := Decimal(i + 1);
    assert ("column" + d)[|"column" + d| - 1] == d[|d| - 1];
  }

  // "a", "a", "a (2)" is the shortest list that still ends up with two names alike.
  lemma NumberedInputCollides()
    ensures var out := RenamedAll(["a", "a", "a (2)"]); out[1] == out[2]
  {
    var names := ["a", "a", "a (2)"];
    assert Decimal(2) == "2";
    assert Count(names, "a", 1) == 1;
    assert Numbered("a", 2) == "a (2)";
    assert Count(names, "a (2)", 1) == 0;
    assert Count(names, "a (2)", 2) == 0;
  }
}

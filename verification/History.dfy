/** QueryHistoryStore (app/lib/data/connection_store.dart:154-189): the statements
    run last, newest first, each once, at most 200. */
module History {
  import opened Text

  const LIMIT: nat := 200

  // Dart's String.trim also drops the byte order mark.
  predicate IsDartSpace(c: char) { IsSpace(c) || c == '\U{FEFF}' }

  // Everything but the statement itself rides along.
  datatype HistoryEntry = HistoryEntry(sql: string, connection: string, at: int)

  function Key(e: HistoryEntry): string { TrimBy(IsDartSpace, e.sql) }

  function Without(es: seq<HistoryEntry>, key: string): (out: seq<HistoryEntry>)
    ensures |out| <= |es|
  {
    if es == [] then []
    else if Key(es[0]) == key then Without(es[1..], key)
    else [es[0]] + Without(es[1..], key)
  }

  function Take(es: seq<HistoryEntry>, n: nat): seq<HistoryEntry> {
    if |es| <= n then es else es[..n]
  }

  class QueryHistoryStore {
    var entries: seq<HistoryEntry>
    // Every entry added since the store was last empty, oldest first.
    ghost var added: seq<HistoryEntry>

    ghost predicate Valid()
      reads this
    {
      entries == Take(MostRecent(added), LIMIT)
    }

    // What a store shows: the history itself as far as it goes, and no more than 200.
    lemma ShowsTwoHundred()
      requires Valid()
      ensures |entries| <= 200 && entries <= MostRecent(added)
      ensures |MostRecent(added)| <= 200 ==> entries == MostRecent(added)
      ensures |MostRecent(added)| > 200 ==> |entries| == 200
    {
    }

    constructor ()
      ensures Valid() && entries == [] && added == []
    {
      entries, added := [], [];
    }

    method Add(entry: HistoryEntry)
      requires Valid()
      modifies this
      ensures Valid() && added == old(added) + [entry]
      ensures entries == Take([entry] + Without(old(entries), Key(entry)), LIMIT)
    {
      CappingLosesNothing(added, entry);
      added := added + [entry];
      var withoutDuplicate := Without(entries, Key(entry));
      entries := Take([entry] + withoutDuplicate, LIMIT);
    }

    method Clear()
      modifies this
      ensures Valid() && entries == [] && added == []
    {
      entries, added := [], [];
    }
  }

  // Statements are told apart by what is left between the spaces about them.
  lemma KeyIsBetweenSpaces(e: HistoryEntry) returns (a: nat, b: nat)
    ensures a <= b <= |e.sql| && Key(e) == e.sql[a..b]
    ensures forall i :: 0 <= i < a || b <= i < |e.sql| ==> IsSpace(e.sql[i]) || e.sql[i] == '\U{FEFF}'
    ensures a < b ==> !IsSpace(e.sql[a]) && e.sql[a] != '\U{FEFF}'
    ensures a < b ==> !IsSpace(e.sql[b - 1]) && e.sql[b - 1] != '\U{FEFF}'
  {
    hide IsSpace;
    a := LeftOf(e.sql);
    var k := RightOf(e.sql[a..]);
    b := a + k;
    assert e.sql[a..][..k] == e.sql[a..b];
    forall i | b <= i < |e.sql| ensures IsDartSpace(e.sql[i]) {
      assert e.sql[a..][i - a] == e.sql[i];
    }
    assert a < b ==> e.sql[a..][k - 1] == e.sql[b - 1];
  }

  lemma {:induction false} LeftOf(s: string) returns (a: nat)
    ensures a <= |s| && TrimLeft(IsDartSpace, s) == s[a..]
    ensures (forall i :: 0 <= i < a ==> IsDartSpace(s[i])) && (a < |s| ==> !IsDartSpace(s[a]))
  {
    hide IsDartSpace;
    a := 0;
    if s != [] && IsDartSpace(s[0]) {
      var k := LeftOf(s[1..]);
      a := k + 1;
      forall i | 0 <= i < a ensures IsDartSpace(s[i]) {
        assert i > 0 ==> s[1..][i - 1] == s[i];
      }
    }
  }

  lemma {:induction false} RightOf(s: string) returns (b: nat)
    ensures b <= |s| && TrimRight(IsDartSpace, s) == s[..b]
    ensures (forall i :: b <= i < |s| ==> IsDartSpace(s[i])) && (b > 0 ==> !IsDartSpace(s[b - 1]))
  {
    hide IsDartSpace;
    b := |s|;
    if s != [] && IsDartSpace(s[|s| - 1]) {
      b := RightOf(s[..|s| - 1]);
    }
  }

  /* ---- the history without a cap ---- */

  // Newest first, and of those that trim to one statement only the newest.
  function MostRecent(added: seq<HistoryEntry>): seq<HistoryEntry> {
    if added == [] then []
    else
      var n := |added| - 1;
      [added[n]] + Without(MostRecent(added[..n]), Key(added[n]))
  }

  lemma {:induction false} WithoutConcat(a: seq<HistoryEntry>, b: seq<HistoryEntry>, key: string)
    ensures Without(a + b, key) == Without(a, key) + Without(b, key)
  {
    hide Key, Head;
    if a == [] {
      assert a + b == b;
    } else {
      hide Without;
      WithoutConcat(a[1..], b, key);
      WithoutStep(a, key);
      WithoutStep(a + b, key);
      assert (a + b)[1..] == a[1..] + b;
      Associate(Head(a[0], key), Without(a[1..], key), Without(b, key));
    }
  }

  function Head(e: HistoryEntry, key: string): seq<HistoryEntry> { if Key(e) == key then [] else [e] }

  lemma WithoutStep(es: seq<HistoryEntry>, key: string)
    requires es != []
    ensures Without(es, key) == Head(es[0], key) + Without(es[1..], key)
  {
    hide Key;
  }

  predicate DistinctKeys(es: seq<HistoryEntry>) {
    forall i, j :: 0 <= i < j < |es| ==> Key(es[i]) != Key(es[j])
  }

  lemma {:induction false} WithoutIs(es: seq<HistoryEntry>, key: string)
    ensures forall e :: e in Without(es, key) <==> e in es && Key(e) != key
    ensures DistinctKeys(es) ==> DistinctKeys(Without(es, key))
  {
    hide Key;
    if es != [] {
      WithoutIs(es[1..], key);
      assert es == [es[0]] + es[1..];
      var rest := Without(es[1..], key);
      if DistinctKeys(es) {
        assert DistinctKeys(es[1..]);
        assert forall k :: 0 <= k < |rest| ==> rest[k] in es[1..];
      }
    }
  }

  // With distinct keys at most one entry goes.
  lemma {:induction false} WithoutDropsOne(es: seq<HistoryEntry>, key: string)
    requires DistinctKeys(es)
    ensures |Without(es, key)| >= |es| - 1
    ensures |Without(es, key)| == |es| <==> forall i :: 0 <= i < |es| ==> Key(es[i]) != key
    ensures |Without(es, key)| == |es| ==> Without(es, key) == es
  {
    hide Key;
    if es != [] {
      assert DistinctKeys(es[1..]);
      WithoutDropsOne(es[1..], key);
      assert es == [es[0]] + es[1..];
      if Key(es[0]) == key {
        assert forall i :: 0 <= i < |es| - 1 ==> es[1..][i] == es[i + 1];
      }
    }
  }

  lemma {:induction false} MostRecentDistinct(added: seq<HistoryEntry>)
    ensures DistinctKeys(MostRecent(added))
    ensures forall e :: e in MostRecent(added) ==> e in added
  {
    hide Key;
    if added != [] {
      var n := |added| - 1;
      MostRecentDistinct(added[..n]);
      WithoutIs(MostRecent(added[..n]), Key(added[n]));
      hide Without, MostRecent;
      NewestFirst(added);
      var rest := Without(MostRecent(added[..n]), Key(added[n]));
      assert forall k :: 0 <= k < |rest| ==> rest[k] in rest;
    }
  }

  lemma NewestFirst(added: seq<HistoryEntry>)
    requires added != []
    ensures var n := |added| - 1;
      MostRecent(added) == [added[n]] + Without(MostRecent(added[..n]), Key(added[n]))
  {
  }

  // Cutting the list to the limit before adding an entry does not change the
  // first entries afterwards: what was cut could not have come back.
  lemma TakeThenAdd(all: seq<HistoryEntry>, entry: HistoryEntry, n: nat)
    requires DistinctKeys(all) && n > 0
    ensures Take([entry] + Without(Take(all, n), Key(entry)), n) ==
      Take([entry] + Without(all, Key(entry)), n)
  {
    hide Key, Without;
    if n < |all| {
      var head, tail := all[..n], all[n..];
      assert all == head + tail;
      WithoutConcat(head, tail, Key(entry));
      assert DistinctKeys(head);
      WithoutDropsOne(head, Key(entry));
      var short, long := [entry] + Without(head, Key(entry)), [entry] + Without(all, Key(entry));
      assert long == short + Without(tail, Key(entry));
      assert |short| >= n;
      assert long[..n] == short[..n];
    }
  }

  lemma CappingLosesNothing(added: seq<HistoryEntry>, entry: HistoryEntry)
    ensures Take([entry] + Without(Take(MostRecent(added), 200), Key(entry)), 200) ==
      Take(MostRecent(added + [entry]), 200)
  {
    hide Key, Without;
    assert (added + [entry])[..|added|] == added;
    MostRecentDistinct(added);
    TakeThenAdd(MostRecent(added), entry, 200);
  }

  /* ---- an independent description ---- */

  // An entry is listed exactly when no later one trims to the same statement,
  // and later entries stand before earlier ones.
  predicate IsLatest(added: seq<HistoryEntry>, i: nat)
    requires i < |added|
  {
    forall j :: i < j < |added| ==> Key(added[j]) != Key(added[i])
  }

  // The latest of the first n entries, newest first.
  function LatestFrom(added: seq<HistoryEntry>, n: nat): seq<HistoryEntry>
    requires n <= |added|
  {
    if n == 0 then []
    else if IsLatest(added, n - 1) then [added[n - 1]] + LatestFrom(added, n - 1)
    else LatestFrom(added, n - 1)
  }

  lemma LatestWithOneMore(added: seq<HistoryEntry>, entry: HistoryEntry, i: nat)
    requires i < |added|
    ensures IsLatest(added + [entry], i) <==> IsLatest(added, i) && Key(added[i]) != Key(entry)
  {
    hide Key;
    var all := added + [entry];
    assert all[|added|] == entry;
    assert forall j :: 0 <= j < |added| ==> all[j] == added[j];
  }

  lemma {:induction false} LatestOfPrefix(added: seq<HistoryEntry>, entry: HistoryEntry, n: nat)
    requires n <= |added|
    ensures LatestFrom(added + [entry], n) == Without(LatestFrom(added, n), Key(entry))
  {
    hide Key, IsLatest;
    if n > 0 {
      LatestOfPrefix(added, entry, n - 1);
      LatestWithOneMore(added, entry, n - 1);
      var rest := LatestFrom(added, n - 1);
      assert ([added[n - 1]] + rest)[1..] == rest;
    }
  }

  // The uncapped history is the latest entry of each statement, newest first.
  lemma {:induction false} MostRecentIsLatest(added: seq<HistoryEntry>)
    ensures MostRecent(added) == LatestFrom(added, |added|)
  {
    hide Key, Without, IsLatest;
    if added != [] {
      var n := |added| - 1;
      var before, entry := added[..n], added[n];
      assert added == before + [entry];
      MostRecentIsLatest(before);
      LatestOfPrefix(before, entry, n);
      NewestIsLatest(added);
    }
  }

  lemma NewestIsLatest(added: seq<HistoryEntry>)
    requires added != []
    ensures IsLatest(added, |added| - 1)
  {
  }
}

/** QuoteIdentifier and Qualify (core/dbcore/engine.go:85-107), a reader that
    inverts them, and when the statement lexer reads a quoted name as one region. */
module Quoting {
  import opened Wrappers
  import opened Lexer
  import opened Skippers

  function OpenMark(e: Engine): char {
    match e case SQLServer => '[' case MySQL => '`' case _ => '"'
  }

  function CloseMark(e: Engine): char {
    match e case SQLServer => ']' case MySQL => '`' case _ => '"'
  }

  // strings.ReplaceAll(name, q, qq).
  function Doubled(q: char, name: string): string {
    if name == "" then ""
    else if name[0] == q then [q, q] + Doubled(q, name[1..])
    else [name[0]] + Doubled(q, name[1..])
  }

  function QuoteIdentifier(e: Engine, name: string): string {
    [OpenMark(e)] + Doubled(CloseMark(e), name) + [CloseMark(e)]
  }

  function Qualify(e: Engine, schema: string, table: string): string {
    if schema == "" then QuoteIdentifier(e, table)
    else QuoteIdentifier(e, schema) + "." + QuoteIdentifier(e, table)
  }

  /* ---- reading names back ---- */

  // What stands behind a word expected here.
  function Skip(word: string, s: string): (r: Option<string>)
    ensures r.Some? ==> |r.value| == |s| - |word|
  {
    if word <= s then Some(s[|word|..]) else None
  }

  lemma SkipWord(word: string, rest: string)
    ensures Skip(word, word + rest) == Some(rest)
  {
  }

  // A left-to-right reader: undoubles the closing mark up to the first single one.
  function ReadBody(q: char, s: string): (r: Option<(string, string)>)
    ensures r.Some? ==> |r.value.1| < |s|
  {
    if s == "" then None
    else if s[0] != q then Prepend(s[0], ReadBody(q, s[1..]))
    else if |s| > 1 && s[1] == q then Prepend(q, ReadBody(q, s[2..]))
    else Some(("", s[1..]))
  }

  function Prepend(c: char, r: Option<(string, string)>): Option<(string, string)> {
    if r.None? then None else Some(([c] + r.value.0, r.value.1))
  }

  function ReadIdentifier(e: Engine, s: string): (r: Option<(string, string)>)
    ensures r.Some? ==> |r.value.1| < |s|
  {
    if s == "" || s[0] != OpenMark(e) then None else ReadBody(CloseMark(e), s[1..])
  }

  // A qualified name as (schema, table), the schema empty when there is none, and
  // what stands behind it.
  function ReadName(e: Engine, s: string): (r: Option<((string, string), string)>)
    ensures r.Some? ==> |r.value.1| < |s|
  {
    var first :- ReadIdentifier(e, s);
    if first.1 == "" || first.1[0] != '.' then Some((("", first.0), first.1))
    else
      var second :- ReadIdentifier(e, first.1[1..]);
      Some(((first.0, second.0), second.1))
  }

  function ReadQualified(e: Engine, s: string): Option<(string, string)> {
    var name :- ReadName(e, s);
    if name.1 == "" then Some(name.0) else None
  }

  lemma {:induction false} ReadBodyOfDoubled(q: char, name: string, rest: string)
    requires rest != "" ==> rest[0] != q
    ensures ReadBody(q, Doubled(q, name) + [q] + rest) == Some((name, rest))
  {
    var s := Doubled(q, name) + [q] + rest;
    if name == "" {
      assert s == [q] + rest && s[1..] == rest;
    } else {
      ReadBodyOfDoubled(q, name[1..], rest);
      var inner := Doubled(q, name[1..]) + [q] + rest;
      assert name == [name[0]] + name[1..];
      if name[0] == q {
        assert s == [q, q] + inner && s[2..] == inner;
      } else {
        assert s == [name[0]] + inner && s[1..] == inner;
      }
    }
  }

  lemma ReadIdentifierOfQuoted(e: Engine, name: string, rest: string)
    requires rest != "" ==> rest[0] != CloseMark(e)
    ensures ReadIdentifier(e, QuoteIdentifier(e, name) + rest) == Some((name, rest))
  {
    var body := Doubled(CloseMark(e), name) + [CloseMark(e)] + rest;
    assert QuoteIdentifier(e, name) + rest == [OpenMark(e)] + body;
    ReadBodyOfDoubled(CloseMark(e), name, rest);
  }

  lemma ReadNameOfQualified(e: Engine, schema: string, table: string, rest: string)
    requires rest != "" ==> rest[0] != '.' && rest[0] != CloseMark(e)
    ensures ReadName(e, Qualify(e, schema, table) + rest) == Some(((schema, table), rest))
  {
    hide QuoteIdentifier, ReadIdentifier;
    ReadIdentifierOfQuoted(e, table, rest);
    if schema != "" {
      var more := "." + (QuoteIdentifier(e, table) + rest);
      assert more[1..] == QuoteIdentifier(e, table) + rest;
      ReadIdentifierOfQuoted(e, schema, more);
      assert Qualify(e, schema, table) + rest == QuoteIdentifier(e, schema) + more;
    }
  }

  // Qualified names read back uniquely, whatever marks and dots they hold.
  lemma QualifyRoundTrip(e: Engine, schema: string, table: string)
    ensures ReadQualified(e, Qualify(e, schema, table)) == Some((schema, table))
  {
    hide Qualify, ReadName;
    ReadNameOfQualified(e, schema, table, "");
    assert Qualify(e, schema, table) + "" == Qualify(e, schema, table);
  }

  // The marks each engine puts about a name.
  lemma MarksAre(e: Engine, name: string)
    ensures var t := QuoteIdentifier(e, name);
      && (e == SQLServer ==> t[0] == '[' && t[|t| - 1] == ']')
      && (e == MySQL ==> t[0] == '`' && t[|t| - 1] == '`')
      && (e == PostgreSQL || e == SQLite ==> t[0] == '"' && t[|t| - 1] == '"')
  {
  }

  lemma QualifyInjective(e: Engine, s1: string, t1: string, s2: string, t2: string)
    requires Qualify(e, s1, t1) == Qualify(e, s2, t2)
    ensures s1 == s2 && t1 == t2
  {
    QualifyRoundTrip(e, s1, t1);
    QualifyRoundTrip(e, s2, t2);
  }

  /* ---- quoted names in front of the statement lexer ---- */

  // Read in pairs, no backslash stands before a mark or at the end of the name.
  predicate NoStrayEscape(q: char, name: string) {
    if name == "" then true
    else if name[0] == '\\' then |name| > 1 && name[1] != q && NoStrayEscape(q, name[2..])
    else NoStrayEscape(q, name[1..])
  }

  // The splitter honours backslash escapes in every quoted region and does not
  // know the doubled bracket, so not every name is safe to print.
  predicate SafeName(e: Engine, name: string) {
    if e.SQLServer? then ']' !in name else NoStrayEscape(CloseMark(e), name)
  }

  lemma {:induction false} ResumeShift(s: State, a: string, b: string, i: nat)
    requires i <= |b|
    ensures Resume(s, a + b, |a| + i) == |a| + Resume(s, b, i)
    decreases |b| - i
  {
    hide Within, Inside;
    if i < |b| {
      assert (a + b)[|a| + i] == b[i];
      if Inside(s, b[i]) {
        ResumeShift(Within(s, b[i]), a, b, i + 1);
      }
    }
  }

  // What follows the opening mark: the doubled name, the closing mark, a rune.
  function Tail(q: char, name: string, c: char): string { Doubled(q, name) + [q, c] }

  lemma TailOne(q: char, name: string, c: char)
    requires name != ""
    ensures name[0] != q ==> Tail(q, name, c) == [name[0]] + Tail(q, name[1..], c)
    ensures name[0] == q ==> Tail(q, name, c) == [q, q] + Tail(q, name[1..], c)
  {
  }

  // Entered one mark too late, the region never ends where the name does.
  lemma {:induction false} ClosingMisses(q: char, name: string, c: char)
    requires q in "'\"`" && c != q
    ensures Resume(Closing(q), Tail(q, name, c), 0) != |Tail(q, name, c)| - 1
  {
    var t := Tail(q, name, c);
    if name == "" {
      assert t == [q, c];
      assert Resume(Closing(q), t, 0) == Resume(Quoted(q), t, 1);
    } else {
      TailOne(q, name, c);
      if name[0] == q {
        var rest := Tail(q, name[1..], c);
        assert t == [q, q] + rest;
        ClosingMisses(q, name[1..], c);
        assert Resume(Closing(q), t, 0) == Resume(Quoted(q), t, 1) == Resume(Closing(q), t, 2);
        ResumeShift(Closing(q), [q, q], rest, 0);
      } else {
        assert t[0] != q && Resume(Closing(q), t, 0) == 0;
      }
    }
  }

  lemma {:induction false} QuotedTail(q: char, name: string, c: char)
    requires q in "'\"`" && c != q
    ensures Resume(Quoted(q), Tail(q, name, c), 0) == |Tail(q, name, c)| - 1 <==> NoStrayEscape(q, name)
  {
    var t := Tail(q, name, c);
    if name == "" {
      assert t == [q, c];
      assert Resume(Quoted(q), t, 0) == Resume(Closing(q), t, 1);
    } else {
      TailOne(q, name, c);
      var rest := Tail(q, name[1..], c);
      if name[0] == q {
        assert t == [q, q] + rest;
        assert Resume(Quoted(q), t, 0) == Resume(Closing(q), t, 1) == Resume(Quoted(q), t, 2);
        ResumeShift(Quoted(q), [q, q], rest, 0);
        QuotedTail(q, name[1..], c);
      } else if name[0] == '\\' {
        EscapedTail(q, name, c);
        if |name| > 1 && name[1] != q {
          QuotedTail(q, name[2..], c);
        }
      } else {
        assert t == [name[0]] + rest;
        assert Resume(Quoted(q), t, 0) == Resume(Quoted(q), t, 1);
        ResumeShift(Quoted(q), [name[0]], rest, 0);
        QuotedTail(q, name[1..], c);
      }
    }
  }

  lemma EscapedTail(q: char, name: string, c: char)
    requires q in "'\"`" && c != q && name != "" && name[0] == '\\'
    ensures var t := Tail(q, name, c);
      if |name| > 1 && name[1] != q then
        && |t| == 2 + |Tail(q, name[2..], c)|
        && Resume(Quoted(q), t, 0) == 2 + Resume(Quoted(q), Tail(q, name[2..], c), 0)
      else Resume(Quoted(q), t, 0) != |t| - 1
  {
    var t := Tail(q, name, c);
    TailOne(q, name, c);
    var rest := Tail(q, name[1..], c);
    assert t == ['\\'] + rest;
    assert Resume(Quoted(q), t, 0) == Resume(Escape(q), t, 1) == Resume(Quoted(q), t, 2);
    if |name| == 1 {
      assert name[1..] == "" && t == ['\\', q, c];
    } else {
      TailOne(q, name[1..], c);
      assert name[1..][1..] == name[2..];
      var last := Tail(q, name[2..], c);
      if name[1] != q {
        assert t == ['\\', name[1]] + last;
        ResumeShift(Quoted(q), ['\\', name[1]], last, 0);
      } else {
        assert t == ['\\', q, q] + last;
        assert Resume(Quoted(q), t, 2) == Resume(Closing(q), t, 3);
        ResumeShift(Closing(q), ['\\', q, q], last, 0);
        ClosingMisses(q, name[2..], c);
      }
    }
  }

  lemma {:induction false} BracketTail(name: string, c: char)
    ensures Resume(Bracket, Tail(']', name, c), 0) == |Tail(']', name, c)| - 1 <==> ']' !in name
  {
    var t := Tail(']', name, c);
    assert Resume(START, t, 1) == 1;
    if name == "" {
      assert t == [']', c];
    } else {
      TailOne(']', name, c);
      assert ']' in name <==> name[0] == ']' || ']' in name[1..];
      if name[0] != ']' {
        var rest := Tail(']', name[1..], c);
        assert t == [name[0]] + rest;
        assert Resume(Bracket, t, 0) == Resume(Bracket, t, 1);
        ResumeShift(Bracket, [name[0]], rest, 0);
        BracketTail(name[1..], c);
      }
    }
  }

  // Whatever rune follows it, a printed name is read as one region that ends
  // with its closing mark exactly when the name is safe.
  lemma QuotedNameIsOneRegion(e: Engine, name: string, c: char)
    requires c != CloseMark(e)
    ensures var t := QuoteIdentifier(e, name);
      Resume(Enter(DialectOf(e), t[0]), t + [c], 1) == |t| <==> SafeName(e, name)
  {
    var t := QuoteIdentifier(e, name);
    var q := CloseMark(e);
    var tail := Tail(q, name, c);
    assert t + [c] == [OpenMark(e)] + tail;
    var s := Enter(DialectOf(e), t[0]);
    ResumeShift(s, [OpenMark(e)], tail, 0);
    if e.SQLServer? {
      BracketTail(name, c);
    } else {
      QuotedTail(q, name, c);
    }
  }
}

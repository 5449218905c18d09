/** Characters and strings as the Go core and the Dart app see them: a string is
    a sequence of code points. ASCII is spelled out. Which code points beyond
    ASCII are letters or digits, and how they change case, is left open: the
    constants without a value stand for any such table, so every theorem holds
    whatever version of Unicode the program was built with. */
module Text {

  const LETTERS_BEYOND_ASCII: set<char>
  const DIGITS_BEYOND_ASCII: set<char>
  const UPPER_BEYOND_ASCII: map<char, char>
  const LOWER_BEYOND_ASCII: map<char, char>

  predicate BeyondAscii(c: char) { '\U{7F}' < c }

  // The Unicode White_Space property, which is what unicode.IsSpace tests.
  predicate IsSpace(c: char) {
    || '\t' <= c <= '\r' || c == ' ' || c == '\U{85}' || c == '\U{A0}' || c == '\U{1680}'
    || '\U{2000}' <= c <= '\U{200A}' || c == '\U{2028}' || c == '\U{2029}'
    || c == '\U{202F}' || c == '\U{205F}' || c == '\U{3000}'
  }

  predicate IsLetter(c: char) {
    || 'a' <= c <= 'z' || 'A' <= c <= 'Z'
    || (BeyondAscii(c) && !IsSpace(c) && c in LETTERS_BEYOND_ASCII)
  }

  predicate IsDigit(c: char) {
    '0' <= c <= '9' || (BeyondAscii(c) && !IsSpace(c) && c in DIGITS_BEYOND_ASCII)
  }

  predicate IsIdent(c: char) { c == '_' || IsLetter(c) || IsDigit(c) }

  // The runes that may begin a bare word.
  predicate StartsWord(c: char) { c == '_' || IsLetter(c) }

  function UpperRune(c: char): char {
    if 'a' <= c <= 'z' then c - 'a' + 'A'
    else if BeyondAscii(c) && c in UPPER_BEYOND_ASCII then UPPER_BEYOND_ASCII[c] else c
  }

  function LowerRune(c: char): char {
    if 'A' <= c <= 'Z' then c - 'A' + 'a'
    else if BeyondAscii(c) && c in LOWER_BEYOND_ASCII then LOWER_BEYOND_ASCII[c] else c
  }

  function ToUpper(s: string): (u: string)
    ensures |u| == |s|
  {
    seq(|s|, i requires 0 <= i < |s| => UpperRune(s[i]))
  }

  function ToLower(s: string): (l: string)
    ensures |l| == |s|
  {
    seq(|s|, i requires 0 <= i < |s| => LowerRune(s[i]))
  }

  // The classes of the ASCII runes, and every rune that is a space.
  lemma ClassesAre(c: char)
    ensures c <= '\U{7F}' ==> (StartsWord(c) <==> c == '_' || 'a' <= c <= 'z' || 'A' <= c <= 'Z')
    ensures c <= '\U{7F}' ==> (IsIdent(c) <==> StartsWord(c) || '0' <= c <= '9')
    ensures c <= '\U{7F}' ==> (UpperRune(c) != c <==> 'a' <= c <= 'z') && (LowerRune(c) != c <==> 'A' <= c <= 'Z')
    ensures 'a' <= c <= 'z' ==> 'A' <= UpperRune(c) <= 'Z' && LowerRune(UpperRune(c)) == c
    ensures IsSpace(c) <==>
      c in "\t\n\U{B}\U{C}\r \U{85}\U{A0}\U{1680}\U{2000}\U{2001}\U{2002}\U{2003}\U{2004}\U{2005}\U{2006}\U{2007}"
        + "\U{2008}\U{2009}\U{200A}\U{2028}\U{2029}\U{202F}\U{205F}\U{3000}"
  {
  }

  lemma Associate<T>(x: seq<T>, y: seq<T>, z: seq<T>)
    ensures x + y + z == x + (y + z)
  {
  }

  /* ---- trimming ---- */

  function TrimLeft(space: char -> bool, s: string): string {
    if s != [] && space(s[0]) then TrimLeft(space, s[1..]) else s
  }

  function TrimRight(space: char -> bool, s: string): string {
    if s != [] && space(s[|s| - 1]) then TrimRight(space, s[..|s| - 1]) else s
  }

  function TrimBy(space: char -> bool, s: string): string {
    TrimRight(space, TrimLeft(space, s))
  }

  function Trim(s: string): string { TrimBy(IsSpace, s) }

  predicate AllSpace(s: string) { forall i :: 0 <= i < |s| ==> IsSpace(s[i]) }

  // Trimming cuts a run of spaces off each end and nothing else.
  lemma {:induction false} TrimLeftIsSuffix(s: string) returns (a: nat)
    ensures a <= |s| && TrimLeft(IsSpace, s) == s[a..]
    ensures AllSpace(s[..a]) && (a < |s| ==> !IsSpace(s[a]))
  {
    if s != [] && IsSpace(s[0]) {
      var k := TrimLeftIsSuffix(s[1..]);
      a := k + 1;
      assert s[..a] == [s[0]] + s[1..][..k];
      assert s[a..] == s[1..][k..];
    } else {
      a := 0;
    }
  }

  lemma {:induction false} TrimRightIsPrefix(s: string) returns (b: nat)
    ensures b <= |s| && TrimRight(IsSpace, s) == s[..b]
    ensures AllSpace(s[b..]) && (b > 0 ==> !IsSpace(s[b - 1]))
  {
    if s != [] && IsSpace(s[|s| - 1]) {
      b := TrimRightIsPrefix(s[..|s| - 1]);
      assert s[b..] == s[..|s| - 1][b..] + [s[|s| - 1]];
      assert s[..b] == s[..|s| - 1][..b];
    } else {
      b := |s|;
    }
  }

  lemma TrimIsSlice(s: string) returns (a: nat, b: nat)
    ensures a <= b <= |s| && Trim(s) == s[a..b]
    ensures AllSpace(s[..a]) && AllSpace(s[b..])
    ensures a < b ==> !IsSpace(s[a]) && !IsSpace(s[b - 1])
  {
    a := TrimLeftIsSuffix(s);
    var k := TrimRightIsPrefix(s[a..]);
    b := a + k;
    assert s[a..][..k] == s[a..b];
    assert s[a..][k..] == s[b..];
    if a < b {
      assert s[a..][k - 1] == s[b - 1];
    }
  }

  // Text with no space at either end is its own trim.
  predicate Trimmed(s: string) { s == [] || (!IsSpace(s[0]) && !IsSpace(s[|s| - 1])) }

  lemma TrimmedFixed(s: string)
    ensures Trimmed(s) <==> Trim(s) == s
  {
    if !Trimmed(s) {
      var a, b := TrimIsSlice(s);
      assert a < b ==> s[a..b][0] == s[a] && s[a..b][b - a - 1] == s[b - 1];
    }
  }

  lemma TrimIsTrimmed(s: string)
    ensures Trimmed(Trim(s))
  {
    var a, b := TrimIsSlice(s);
    assert a < b ==> s[a..b][0] == s[a] && s[a..b][b - a - 1] == s[b - 1];
  }

  /* ---- lines: strings.Split(s, "\n") and strings.Join(lines, "\n") ---- */

  function Lines(s: string): (ls: seq<string>)
    ensures ls != []
  {
    if s == [] then [[]] else WithRune(s[0], Lines(s[1..]))
  }

  // The lines of a text once a rune is put in front of it.
  function WithRune(c: char, ls: seq<string>): (r: seq<string>)
    requires ls != []
    ensures r != []
  {
    if c == '\n' then [[]] + ls else [[c] + ls[0]] + ls[1..]
  }

  function Join(parts: seq<string>, sep: string): string {
    if parts == [] then []
    else if |parts| == 1 then parts[0]
    else parts[0] + sep + Join(parts[1..], sep)
  }

  predicate OneLine(s: string) { '\n' !in s }

  lemma {:induction false} LinesAreOneLine(s: string)
    ensures forall k :: 0 <= k < |Lines(s)| ==> OneLine(Lines(s)[k])
  {
    if s != [] {
      LinesAreOneLine(s[1..]);
    }
  }

  lemma {:induction false} JoinLines(s: string)
    ensures Join(Lines(s), "\n") == s
  {
    if s != [] {
      JoinLines(s[1..]);
      var rest := Lines(s[1..]);
      assert s == [s[0]] + s[1..];
      if s[0] == '\n' {
        assert ([[]] + rest)[1..] == rest;
      } else if |rest| > 1 {
        assert ([[s[0]] + rest[0]] + rest[1..])[1..] == rest[1..];
      }
    }
  }

  // Two lists of lines laid end to end: the last line of la and the first of lb
  // become one line.
  function Splice(la: seq<string>, lb: seq<string>): seq<string>
    requires la != [] && lb != []
  {
    la[..|la| - 1] + [la[|la| - 1] + lb[0]] + lb[1..]
  }

  lemma {:induction false} LinesConcat(a: string, b: string)
    ensures Lines(a + b) == Splice(Lines(a), Lines(b))
  {
    if a == [] {
      assert a + b == b;
      assert "" + Lines(b)[0] == Lines(b)[0];
      assert Lines(b) == [Lines(b)[0]] + Lines(b)[1..];
    } else {
      LinesConcat(a[1..], b);
      assert (a + b)[1..] == a[1..] + b;
      SpliceWithRune(a[0], Lines(a[1..]), Lines(b));
    }
  }

  lemma SpliceWithRune(c: char, la: seq<string>, lb: seq<string>)
    requires la != [] && lb != []
    ensures WithRune(c, Splice(la, lb)) == Splice(WithRune(c, la), lb)
  {
    var ab := Splice(la, lb);
    if c != '\n' {
      var left, right := [[c] + ab[0]] + ab[1..], Splice([[c] + la[0]] + la[1..], lb);
      if |la| == 1 {
        assert left[0] == [c] + (la[0] + lb[0]) == right[0];
      } else {
        assert left[0] == right[0];
      }
      assert left[1..] == right[1..];
    }
  }

  lemma {:induction false} LinesOfOneLine(s: string)
    requires OneLine(s)
    ensures Lines(s) == [s]
  {
    if s != [] {
      assert OneLine(s[1..]) && s[0] in s;
      LinesOfOneLine(s[1..]);
      assert s == [s[0]] + s[1..];
    }
  }

  lemma {:induction false} LinesOfJoin(parts: seq<string>)
    requires parts != [] && forall k :: 0 <= k < |parts| ==> OneLine(parts[k])
    ensures Lines(Join(parts, "\n")) == parts
  {
    LinesOfOneLine(parts[0]);
    if |parts| == 1 {
      assert parts == [parts[0]];
    } else {
      LinesOfJoin(parts[1..]);
      var rest := Join(parts[1..], "\n");
      LinesAround(parts[0], rest);
      assert parts == [parts[0]] + parts[1..];
    }
  }

  // A newline between two texts keeps their lines apart.
  lemma LinesAround(a: string, b: string)
    ensures Lines(a + "\n" + b) == Lines(a) + Lines(b)
  {
    assert a + "\n" + b == a + ("\n" + b);
    assert ("\n" + b)[1..] == b;
    LinesConcat(a, "\n" + b);
    var la := Lines(a);
    assert la[|la| - 1] + [] == la[|la| - 1];
    assert la == la[..|la| - 1] + [la[|la| - 1]];
  }

  /* ---- decimal numbers ---- */

  function DigitRune(d: nat): char
    requires d < 10
  {
    '0' + (d as char)
  }

  function Decimal(n: nat): (s: string)
    ensures s != [] && forall i :: 0 <= i < |s| ==> '0' <= s[i] <= '9'
  {
    if n < 10 then [DigitRune(n)] else Decimal(n / 10) + [DigitRune(n % 10)]
  }

  predicate AllDigits(s: string) { forall i :: 0 <= i < |s| ==> '0' <= s[i] <= '9' }

  function DecimalValue(s: string): nat
    requires AllDigits(s)
  {
    if s == [] then 0 else 10 * DecimalValue(s[..|s| - 1]) + (s[|s| - 1] - '0') as nat
  }

  // Reading a printed number gives the number back, so printing is injective.
  lemma {:induction false} DecimalRoundTrip(n: nat)
    ensures DecimalValue(Decimal(n)) == n
  {
    var s := Decimal(n);
    if n >= 10 {
      DecimalRoundTrip(n / 10);
      assert s[..|s| - 1] == Decimal(n / 10);
    } else {
      assert s[..|s| - 1] == [];
    }
  }

  lemma DecimalInjective(m: nat, n: nat)
    requires Decimal(m) == Decimal(n)
    ensures m == n
  {
    DecimalRoundTrip(m);
    DecimalRoundTrip(n);
  }
}

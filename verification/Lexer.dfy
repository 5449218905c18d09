/** The reference lexer: a machine that reads a SQL text one rune at a time and
    never looks ahead or back. What core/dbcore/sqltext.go does by skipping ahead
    is specified and proved against this machine. */
module Lexer {
  import opened Text

  // Which delimiters open a region. Single quotes and the two comment forms
  // are common to every dialect.
  datatype Dialect = Dialect(
    doubleQuote: bool, backtick: bool, bracket: bool, hash: bool, dollar: bool)

  datatype Engine = SQLServer | PostgreSQL | MySQL | SQLite

  function DialectOf(e: Engine): Dialect {
    Dialect(doubleQuote := !e.MySQL?, backtick := e.MySQL?, bracket := e.SQLServer?,
            hash := e.MySQL?, dollar := e.PostgreSQL?)
  }

  // The one dialect scanKeywords uses, whatever the engine.
  const KEYWORDS := Dialect(true, true, true, false, true)

  datatype State =
    // outside every region
    | Code(word: string)                  // the bare word being read, "" for none
    | Dash                                // after a '-', which may open a comment
    | Slash                               // after a '/', which may open a comment
    | Closing(quote: char)                // after a quote, which the next rune may double
    | Tag(tag: string)                    // after '$' and identifier runes
    // inside a region
    | Quoted(quote: char)
    | Escape(quote: char)                 // after a backslash inside quotes
    | Bracket
    | Line
    | Block(depth: nat)
    | BlockSlash(depth: nat)              // after a '/' inside a block comment
    | BlockStar(depth: nat)               // after a '*' inside a block comment
    | Body(tag: string, seen: string)     // a dollar body, with what it holds so far

  const START := Code("")

  // The rune c, read in state s, still belongs to the region s is in.
  predicate Inside(s: State, c: char) {
    match s
    case Code(_) => false
    case Dash => false
    case Slash => false
    case Closing(q) => c == q
    case Tag(_) => false
    case Line => c != '\n'
    case _ => true
  }

  // The state after a rune that belongs to the current region.
  function Within(s: State, c: char): State
    requires Inside(s, c)
  {
    match s
    case Closing(q) => Quoted(q)
    case Quoted(q) => if c == q then Closing(q) else if c == '\\' then Escape(q) else s
    case Escape(q) => Quoted(q)
    case Bracket => if c == ']' then START else s
    case Line => s
    case Block(n) => BlockRune(n, c)
    case BlockSlash(n) => if c == '*' then Block(n + 1) else BlockRune(n, c)
    case BlockStar(n) =>
      if c == '/' then (if n <= 1 then START else Block(n - 1)) else BlockRune(n, c)
    case Body(t, seen) => if EndsWith(seen + [c], t) then START else Body(t, seen + [c])
  }

  function BlockRune(n: nat, c: char): State {
    if c == '/' then BlockSlash(n) else if c == '*' then BlockStar(n) else Block(n)
  }

  predicate EndsWith(s: string, t: string) { |t| <= |s| && s[|s| - |t|..] == t }

  // The state after a rune outside every region that continues nothing.
  function Enter(d: Dialect, c: char): State {
    if c == '\'' then Quoted(c)
    else if c == '"' && d.doubleQuote then Quoted(c)
    else if c == '`' && d.backtick then Quoted(c)
    else if c == '[' && d.bracket then Bracket
    else if c == '-' then Dash
    else if c == '/' then Slash
    else if c == '#' && d.hash then Line
    else if c == '$' && d.dollar then Tag("$")
    else if StartsWord(c) then Code([c])
    else START
  }

  function Step(d: Dialect, s: State, c: char): State {
    if Inside(s, c) then Within(s, c)
    else if s.Code? && s.word != "" && IsIdent(c) then Code(s.word + [c])
    else if s.Dash? && c == '-' then Line
    else if s.Slash? && c == '*' then Block(1)
    else if s.Tag? && c == '$' then Body(s.tag + "$", "")
    else if s.Tag? && IsIdent(c) then Tag(s.tag + [c])
    else Enter(d, c)
  }

  // The state after the first i runes of r, starting in s.
  function Run(d: Dialect, s: State, r: string, i: nat): State
    requires i <= |r|
  {
    if i == 0 then s else Step(d, Run(d, s, r, i - 1), r[i - 1])
  }

  // A statement ends after r[i]: a semicolon outside every region.
  predicate CutAt(d: Dialect, s: State, r: string, i: nat)
    requires i < |r|
  {
    r[i] == ';' && !Inside(Run(d, s, r, i), ';')
  }

  // The places where statements end, in order.
  function Cuts(d: Dialect, r: string, i: nat): (cs: seq<nat>)
    requires i <= |r|
    ensures forall k :: 0 <= k < |cs| ==> 0 < cs[k] <= i
    ensures forall k :: 0 < k < |cs| ==> cs[k - 1] < cs[k]
  {
    if i == 0 then []
    else Cuts(d, r, i - 1) + if CutAt(d, START, r, i - 1) then [i] else []
  }

  /* ---- bare words ---- */

  // What a failed dollar tag held: its runes from the first that starts a word.
  function WordIn(run: string): seq<string> {
    if run == "" then [] else if StartsWord(run[0]) then [run] else WordIn(run[1..])
  }

  // The words that end when c is read in state s.
  function Emits(s: State, c: char): seq<string> {
    match s
    case Code(w) => if w != "" && !IsIdent(c) then [w] else []
    case Tag(t) => if t != "" && !IsIdent(c) && c != '$' then WordIn(t[1..]) else []
    case _ => []
  }

  // The word still being read at the end of the text.
  function Unfinished(s: State): seq<string> {
    match s
    case Code(w) => if w != "" then [w] else []
    case Tag(t) => if t != "" then WordIn(t[1..]) else []
    case _ => []
  }

  function WordsUpTo(d: Dialect, s: State, r: string, i: nat): seq<string>
    requires i <= |r|
  {
    if i == 0 then []
    else WordsUpTo(d, s, r, i - 1) + Emits(Run(d, s, r, i - 1), r[i - 1])
  }

  // The bare words of a text, in order.
  function Words(d: Dialect, r: string): seq<string> {
    WordsUpTo(d, START, r, |r|) + Unfinished(Run(d, START, r, |r|))
  }

  /* ---- the machine on parts of a text ---- */

  lemma {:induction false} RunPrefix(d: Dialect, s: State, a: string, b: string, i: nat)
    requires i <= |a|
    ensures Run(d, s, a + b, i) == Run(d, s, a, i)
  {
    hide Step;
    if i > 0 {
      RunPrefix(d, s, a, b, i - 1);
    }
  }

  // Reading a + b is reading a and then b from where a left off.
  lemma {:induction false} RunConcat(d: Dialect, s: State, a: string, b: string, j: nat)
    requires j <= |b|
    ensures Run(d, s, a + b, |a| + j) == Run(d, Run(d, s, a, |a|), b, j)
  {
    hide Step;
    if j == 0 {
      RunPrefix(d, s, a, b, |a|);
    } else {
      RunConcat(d, s, a, b, j - 1);
      assert (a + b)[|a| + j - 1] == b[j - 1];
    }
  }

  lemma {:induction false} RunSlice(d: Dialect, s: State, r: string, k: nat, j: nat)
    requires k + j <= |r|
    ensures Run(d, s, r, k + j) == Run(d, Run(d, s, r, k), r[k..], j)
  {
    hide Run;
    var a, b := r[..k], r[k..];
    assert a + b == r;
    RunPrefix(d, s, a, b, k);
    RunConcat(d, s, a, b, j);
  }

  // After a cut the machine is back at the start.
  lemma CutRestarts(d: Dialect, r: string, i: nat)
    requires i < |r| && CutAt(d, START, r, i)
    ensures Run(d, START, r, i + 1) == START
  {
  }
}

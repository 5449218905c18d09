# DB-Crawler core: a verified model

DB-Crawler is a mobile SQL client: a Go core (`core/dbcore`) behind a Flutter app
(`app/lib`). This project models the parts of it that decide what reaches a
database and what comes back to the user, and proves what those parts promise.

- **SQL text** (`Lexer`, `Skippers`, `Tokens`, `Reading`, `Leading`, `Splitter`, `SplitLaws`,
  `GoLaws`, `OneStatement`, `BatchLaws`, `Separators`, `Classifier`). `Lexer` is a reference
  machine that reads a text one rune at a time, with no looking ahead. The core's skip-ahead
  loops, its statement splitter, its GO-batch splitter and its keyword scanner are written as
  the source writes them and proved against that machine. `Reading` says by position, with
  each engine's own marks, which parts of a text are set apart, and `Separators` which
  semicolons and lines separate; the machine is proved to agree. From there follow the laws of
  whole buffers: spans tile the buffer, splitting distributes over buffers, a returned
  statement splits into itself.
- **Printed SQL** (`Quoting`, `Fragments`, `Printers`, `Ddl`, `DdlGo`, `DdlLaws`, `DdlReader`).
  Quoted names, the preview, the count and the reconstructed DDL are read back by the core's
  own splitter and classifier as the statements they were printed from, and by readers of
  their own as the names, limits, columns, keys and indexes they were printed for. `Grouping` is the
  fold that gathers catalog rows into the indexes the DDL prints.
- **Running statements** (`Execution`, `ColumnNames`): the all-or-nothing read-only gate,
  the alignment of results with statements, and the renaming of duplicate columns.
- **Protocols** (`Sessions`, `Operations`, `CoreClient`): sessions opened and closed by
  concurrent callers, the running operations of a session and their cancellation, and the
  app's request/response protocol with an isolate that may die, each as a class whose
  critical sections are the steps of an interleaved system.
- **App pieces** (`Csv`, `History`, `Completion`): the CSV export with its NULL, the capped
  history, and the ranking of suggestions.

## Conventions

A string is a sequence of code points; Go's `[]rune(s)` and `string(runes)` are the
identity on it. `Text` spells out ASCII and the Unicode White_Space set; which code
points beyond ASCII are letters or digits, and how they change case, is left to
constants without a value, so the theorems hold for every such table. No delimiter, digit
or letter is a space. The splitter's `Start` and `End` count runes, as in the source.

Statements are exact where the unconditional claim fails:

- Names: the splitter honours backslash escapes inside every quoted region and ends a
  bracketed name at its first `]`, while the printer only doubles the closing mark.
  `Quoting.QuotedNameIsOneRegion` says for which names the two agree, in both directions.
- The preview is one statement exactly when the splitter makes no cut in the qualified
  name read by itself and, on SQL Server, neither name hides a GO line. Safe names make no
  cut, nor do names without a semicolon (`Printers.NamesWithoutCut`).
- The reconstructed script is read back exactly when each of its statements, read by
  itself, makes no cut and ends outside every region and, on SQL Server, none holds a GO
  line. `DdlGo` says which names, types and defaults print one.
- The reconstructed script says what the table is exactly when no type or default runs into
  what is printed behind it: a nullable column of type `int NOT NULL` prints like an `int`
  column that is not nullable (`DdlReader.TypeSaysNotNull`).
- GO lines are cut on SQL Server inside literals and names too, and batches are not looked
  at again as segments are. When every GO line begins outside the lexer's regions, a
  returned text is stable under re-splitting exactly when it is more than comments.
- `IsReadOnly` is not always unchanged by stripping leading comments: a `PRAGMA` behind a
  comment with an equals sign is refused (`Classifier.ReadOnlyOfStripped`).
- On a read-only session each text sent is one statement, except exactly for SQL Server
  texts with a cut inside, which only a GO line inside a region leaves behind.
- Column renaming yields distinct names exactly when no column already carries a name the
  numbering makes; `a`, `a`, `a (2)` does.
- A result row of no fields prints like a row holding one NULL; all other grids round-trip.
- Session ids are distinct for the first 2^64 sessions; after that an id can replace, and
  so leak, a session that is still open.
- A cursor finds the first statement that has its span. On SQL Server the batches of a
  GO-split statement share one span, so the first of them is found wherever the cursor is.
- Two operations under one name evict each other from the session's map, so one of them
  can no longer be cancelled; with a fresh name for each, all can. An execution that
  registers behind the closing of its session is not cancelled by it.
- The requests that hang once the isolate's exit has been delivered are exactly those made
  after it: the client still accepts them, and they stay pending until it is disposed.

## Model

| member | source | states |
|---|---|---|
| Skippers.SkipQuoted | core/dbcore/sqltext.go:103-122 | the index where the reference lexer is first outside the quoted region, doubled quotes and backslash escapes included |
| Skippers.SkipUntil | core/dbcore/sqltext.go:124-132 | the index after the first closing rune, or the end of the text |
| Skippers.SkipLineComment | core/dbcore/sqltext.go:134-139 | the index where the reference lexer leaves the line comment: the newline or the end |
| Skippers.SkipBlockComment | core/dbcore/sqltext.go:141-161 | the index where the reference lexer leaves the block comment at its outermost depth |
| Skippers.SkipDollarQuoted | core/dbcore/sqltext.go:163-181 | whether a dollar opens a tagged body, and the index where the reference lexer leaves that body |
| Skippers.BracketResume | core/dbcore/sqltext.go:73-74 | the first closing bracket is where the reference lexer leaves a bracketed identifier |
| Skippers.BodyResume | core/dbcore/sqltext.go:173-180 | a dollar body ends right after the first occurrence of its tag, or at the end of the text |
| Skippers.ResumeIsRegionEnd | core/dbcore/sqltext.go:54-92 | every rune a jump passes over is inside the region and the rune it lands on is not |
| Skippers.NothingInRegion | core/dbcore/sqltext.go:31-36 | no semicolon inside a literal, comment, dollar body or bracketed name is a separator, and no word there is a keyword |
| Reading.CutIffStands | core/dbcore/sqltext.go:54-92 | the splitter's machine cuts at exactly the semicolons that stand by themselves when a text is read token by token with the engine's own marks |
| Reading.QuoteEndCloses | core/dbcore/sqltext.go:103-122 | a quoted part ends behind the first mark that is neither doubled nor escaped, or at the end of the text |
| Reading.OpensIsJump | core/dbcore/sqltext.go:58-82 | for every engine and for the keyword scanner, what each mark sets apart is what the machine reads as one region |
| Splitter.SplitStatements | core/dbcore/sqltext.go:37-101 | for every engine and buffer the loop ends in bounds and returns the statements the reference lexer's cuts give |
| Separators.SemicolonsThatSeparate | core/dbcore/sqltext.go:54-92 | for every engine a returned span ends behind an inner position exactly when a semicolon stands there by itself |
| Separators.UnmarkedSemicolon | core/dbcore/sqltext.go:54-92 | a semicolon separates when none of the engine's marks is before it: single quotes; double quotes except on MySQL; backtick and hash on MySQL only; brackets on SQL Server only; dollar on PostgreSQL only; the two comment openers |
| Separators.SetApartSemicolon | core/dbcore/sqltext.go:58-82 | what such a mark sets apart separates nothing: up to its own mark, the bracket, the newline, the close of the comment or the tag |
| Separators.CommentsNest | core/dbcore/sqltext.go:141-161 | a comment opened inside a comment is closed first; nothing separates before the outer one is closed, and the text stands by itself again behind it |
| Splitter.Flush | core/dbcore/sqltext.go:42-52 | appends the trimmed segment with its span unless it is blank, and moves the start |
| Splitter.SplitOnGoBatches | core/dbcore/sqltext.go:183-205 | one statement per non-blank run of lines between GO separators, with the span of the statement it is from |
| Separators.GoSeparatorIff | core/dbcore/sqltext.go:207-220 | a line is a separator exactly when it is spaces, GO in any case, and then spaces or spaces and a decimal number of 64 bits |
| Separators.GoSeparates | core/dbcore/sqltext.go:183-205 | the parts on either side of a separator line are cut up as if each were the statement |
| Separators.GoMakesTwo | core/dbcore/sqltext.go:183-205 | two parts that are not blank with a separator line between them come back as two statements |
| SplitLaws.CutsAreCuts | core/dbcore/sqltext.go:83-87 | a position is a cut exactly when the rune before it is a semicolon the reference lexer reads outside every region |
| SplitLaws.SplitTiles | core/dbcore/sqltext.go:42-52 | spans start at 0 and follow one another, texts are trimmed slices, every segment a cut closes is kept, and only a blank tail is dropped |
| SplitLaws.ClosedSegmentKept | core/dbcore/sqltext.go:44-50 | a segment that ends with a top-level semicolon is never taken for comments only |
| SplitLaws.OnePiece | core/dbcore/sqltext.go:37-93 | a trimmed text is returned whole as one statement exactly when it is more than comments and has no cut before its last rune |
| SplitLaws.Resplit | core/dbcore/sqltext.go:37-93 | splitting any returned text again gives that text alone with span 0 to its length, unterminated tails included |
| SplitLaws.LexSplitConcat | core/dbcore/sqltext.go:37-93 | behind a buffer that ends with a cut, a second buffer is split on its own with shifted offsets |
| SplitLaws.SplitConcat | core/dbcore/sqltext.go:37-101 | the same for all four engines, GO batches included |
| GoLaws.GoSplitPieces | core/dbcore/sqltext.go:183-205 | every piece has its parent's span, is trimmed and not empty, and holds no GO-separator line |
| GoLaws.BatchesKeepLines | core/dbcore/sqltext.go:188-203 | the lines of all batches in order are exactly the lines that are no GO separator |
| GoLaws.GoPiecesKeepInk | core/dbcore/sqltext.go:188-203 | whitespace aside, the pieces of a statement hold exactly the runes of its non-GO lines, in order |
| GoLaws.GoPiecesOfGoFree | core/dbcore/sqltext.go:185-205 | a trimmed statement passes through unchanged exactly when none of its lines is a GO separator |
| GoLaws.SeparatorRunes | core/dbcore/sqltext.go:207-220 | a separator line holds nothing but whitespace, the letters of GO, a sign and digits |
| OneStatement.OneStatementIff | core/dbcore/sqltext.go:37-101 | for every engine, a trimmed text is one statement by itself exactly when it has no inner cut, is more than comments and, on SQL Server, has no GO line |
| OneStatement.EndsAreCuts | core/dbcore/sqltext.go:42-52 | for every engine a position inside the buffer is a cut exactly when some returned span ends there, GO splitting or not |
| OneStatement.ResplitStable | core/dbcore/sqltext.go:37-101 | for PostgreSQL, MySQL and SQLite every returned text re-splits into itself |
| OneStatement.GoInLiteralIsUnstable | core/dbcore/sqltext.go:94-100 | a literal that holds a GO line is cut in two, and the second half is cut again |
| BatchLaws.ResplitSqlServer | core/dbcore/sqltext.go:94-100 | when the GO lines of the statements the lexer cuts begin outside its regions, a text returned for SQL Server has no inner cut and re-splits into itself exactly when it is more than comments |
| BatchLaws.AllStableOnSqlServer | core/dbcore/sqltext.go:185-205 | then all returned texts are stable exactly when no GO batch of a statement holds nothing but comments |
| BatchLaws.OnlyCommentsIff | core/dbcore/sqltext.go:185-205 | for every engine a returned text is nothing but comments exactly when it is a GO batch that is, which only SQL Server has |
| BatchLaws.CommentBehindGo | core/dbcore/sqltext.go:185-205 | a comment behind a GO line is returned as a statement, and dropped when split again |
| BatchLaws.BatchHasNoInnerCut | core/dbcore/sqltext.go:185-205 | a batch behind a GO line outside every region is read by itself as inside its statement |
| Leading.StripLeading | core/dbcore/sqltext.go:222-244 | the text behind all leading whitespace, comments and opening parentheses |
| Leading.StrippedIsFirstSignificant | core/dbcore/sqltext.go:222-244 | what is left starts at the first rune that the reference lexer, in any dialect, reads outside every region and that is neither whitespace, a parenthesis nor part of a comment opener |
| Leading.StripIdempotent | core/dbcore/sqltext.go:222-244 | stripping twice strips no more than once |
| Text.ClassesAre | core/dbcore/sqltext.go:284-286 | which ASCII runes are identifier runes and letters and how they change case, and which runes are spaces |
| Classifier.ScanKeywords | core/dbcore/sqltext.go:333-370 | exactly the bare words the reference lexer finds in the keyword dialect, upper-cased, in order |
| Classifier.ClassifyStatement | core/dbcore/sqltext.go:288-331 | the class of a statement, with every word of a WITH statement looked at |
| Classifier.WithIsReadIff | core/dbcore/sqltext.go:305-331 | a WITH statement is a read exactly when no word that stands by itself, at any depth, is INSERT, UPDATE, DELETE or MERGE |
| Classifier.ReadOnlyIff | core/dbcore/sqltext.go:372-394 | the allowlist word by word: which first keywords make a read, PRAGMA without an equals sign and WITH without a writing word among them |
| Classifier.ClassIff | core/dbcore/sqltext.go:288-331 | which first keywords make a select, a write, a definition, a transaction statement and a utility, word by word |
| Classifier.KeywordInAnyCase | core/dbcore/sqltext.go:250-260 | the first keyword is the letters and underscores behind what is stripped, upper-cased however written |
| Classifier.WordsAreOccurrences | core/dbcore/sqltext.go:333-370 | the scanned words are exactly the identifier runs that stand by themselves when the text is read token by token |
| Classifier.ClassifyIgnoresLeading | core/dbcore/sqltext.go:222-260 | the first keyword and the class do not change when leading comments and parentheses are stripped |
| Classifier.KeywordsOfStripped | core/dbcore/sqltext.go:336-370 | the scanned words do not change either |
| Classifier.ReadOnlyOfStripped | core/dbcore/sqltext.go:379-394 | the read-only verdict changes only for a PRAGMA with an equals sign in what was stripped |
| Classifier.PragmaBehindEquals | core/dbcore/sqltext.go:379-394 | such a PRAGMA: refused with its comment, a read without it |
| Classifier.FirstKeywordIsPrefix | core/dbcore/sqltext.go:250-260 | a non-empty first keyword is a prefix of the first scanned word |
| Quoting.QualifyRoundTrip | core/dbcore/engine.go:85-107 | a left-to-right reader that undoubles marks gets schema and table back from every qualified name |
| Quoting.QualifyInjective | core/dbcore/engine.go:99-107 | no two pairs of schema and table print alike |
| Quoting.ReadNameOfQualified | core/dbcore/engine.go:99-107 | the reader finds a qualified name and what stands behind it |
| Quoting.MarksAre | core/dbcore/engine.go:85-97 | brackets on SQL Server, backticks on MySQL and double quotes elsewhere stand about a printed name |
| Quoting.QuotedNameIsOneRegion | core/dbcore/engine.go:85-97 | the splitter reads a printed name as one region ending with its mark exactly when the name is safe |
| Fragments.QuotedFragment | core/dbcore/engine.go:85-97 | a safe printed name makes no cut and leaves the lexer outside every region |
| Fragments.QualifiedFragment | core/dbcore/engine.go:99-107 | the same for a qualified name |
| Fragments.QuotedGo | core/dbcore/engine.go:90-91 | for any name, the bracketed name has a GO line exactly when a line strictly inside the name is one |
| Printers.PreviewIsRead | core/dbcore/introspect.go:301-310 | the preview is read-only for every schema, table and limit |
| Printers.CountIsRead | core/dbcore/introspect.go:314-316 | the count is read-only for every schema and table |
| Printers.PreviewReadsBack | core/dbcore/introspect.go:301-310 | a reader of the preview gets schema, table and number of rows back: the limit if positive and 500 otherwise, behind TOP on SQL Server and LIMIT elsewhere |
| Printers.PreviewInjective | core/dbcore/introspect.go:301-310 | different tables or different positive limits print different previews |
| Printers.CountReadsBack | core/dbcore/introspect.go:314-316 | a reader of the count gets schema and table back |
| Printers.PreviewIsOneStatement | core/dbcore/introspect.go:301-316 | for every schema, table and limit each text is one statement over its whole length exactly when the qualified name by itself makes no cut and, on SQL Server, neither name hides a GO line |
| Printers.NamesWithoutCut | core/dbcore/engine.go:85-107 | names that are safe to quote make no cut when printed, and neither do names without a semicolon |
| Printers.UnsafeNameSplits | core/dbcore/introspect.go:301-310 | a name with a backslash before a quote breaks the preview in two |
| Ddl.QuoteAll | core/dbcore/introspect.go:290-296 | the quoted names joined by commas |
| Ddl.RenderDdl | core/dbcore/introspect.go:236-288 | the script of the parts in order; what it says of the table is `DdlReader.ScriptReadsBackIff` |
| DdlReader.ScriptReadsBackIff | core/dbcore/introspect.go:236-288 | a left-to-right reader gets back the table, each column's name, type, nullability and default, the key, each foreign key and each index that is not primary, exactly when no type or default runs into what is printed behind it |
| DdlReader.ReadColumnIff | core/dbcore/introspect.go:241-253 | the same for one column line, whatever its name |
| DdlReader.ReadForeignText | core/dbcore/introspect.go:265-271 | name, columns, target and target columns of a foreign key are read back |
| DdlReader.ReadIndexLine | core/dbcore/introspect.go:273-287 | name, uniqueness, table and columns of an index are read back |
| DdlReader.KeyIsMeant | core/dbcore/introspect.go:255-263 | the key names are those of the columns marked as primary key, in order |
| DdlReader.TypeSaysNotNull | core/dbcore/introspect.go:243-248 | two columns that differ in type and nullability and print alike |
| DdlLaws.DdlSplits | core/dbcore/introspect.go:236-288 | for safe names, types and defaults the script splits into the CREATE TABLE and one CREATE INDEX per non-primary index, each text exactly, each classified as DDL, unless exactly when SQL Server finds a GO line |
| DdlLaws.DdlSplitsIff | core/dbcore/introspect.go:236-288 | for every table the script is read back as the statements it was printed from exactly when each of them by itself makes no cut and ends outside every region and, on SQL Server, none holds a GO line |
| DdlLaws.SafeIsReadable | core/dbcore/introspect.go:236-288 | safe names and balanced types and defaults make every printed statement readable by itself |
| DdlGo.GoInTable | core/dbcore/introspect.go:236-272 | the CREATE TABLE has a GO line exactly when a name hides one or one stands behind the first line of a column's type and default |
| DdlGo.GoInIndex | core/dbcore/introspect.go:273-287 | a CREATE INDEX has a GO line exactly when one of its names hides one |
| DdlGo.OneLineTail | core/dbcore/introspect.go:241-253 | types and defaults of one line have none behind the column's name |
| DdlLaws.ScriptSplits | core/dbcore/introspect.go:236-288 | when each statement to be printed is readable by itself, the cuts of the script are exactly the semicolons that end them |
| Grouping.GroupIndexRows | core/dbcore/introspect.go:348-367 | one entry per index name in order of first appearance, with its columns in order and the flags of its first row |
| Grouping.OrderIs | core/dbcore/introspect.go:349-358 | every name that appears is listed exactly once |
| Grouping.OrderIsByFirstRow | core/dbcore/introspect.go:349-358 | groups stand in the order in which their names first appear |
| Grouping.GroupIs | core/dbcore/introspect.go:348-367 | a group holds the columns of its rows in order and the flags of the first of them |
| Grouping.ColumnsAreConserved | core/dbcore/introspect.go:359-366 | the groups hold as many columns as the rows do |
| Execution.Session.Execute | core/dbcore/query.go:82-117 | either an error with nothing sent, or the results of the statements in order with exactly those statements sent |
| Execution.AllAdmitted | core/dbcore/session.go:279-292 | a batch passes the guard exactly when the session may write or every statement is a read |
| Execution.RefusedIff | core/dbcore/query.go:82-99 | nothing to run, parameters for several statements, or the first statement that is no read on a read-only session: which of them refuses a batch, and nothing else does |
| Execution.ResultsAlign | core/dbcore/query.go:107-116 | results are a non-empty prefix aligned with the statements, short only after a failure with StopOnError, with no earlier failure |
| Execution.OnlyReadsAreSent | core/dbcore/query.go:95-99 | on a read-only session every statement sent is one IsReadOnly accepts |
| Execution.SentBeginsAllowed | core/dbcore/session.go:279-292 | on a read-only session every statement sent begins with one of the allowed words |
| Execution.SentAreSingle | core/dbcore/query.go:82-117 | on a read-only session every statement sent is a read and one statement, except exactly for SQL Server texts with an inner cut; there are none when GO lines begin outside the lexer's regions |
| Execution.GoInLiteralIsSent | core/dbcore/sqltext.go:94-100 | such a text: the part of a literal behind its GO line is admitted and is not one statement |
| Execution.PreviewRuns | core/dbcore/introspect.go:298-310 | the preview of a table whose names make no cut and hide no GO line is admitted on every session and sent as that one statement |
| ColumnNames.DeduplicateNames | core/dbcore/query.go:250-265 | in place, each column gets its own name, or its position's, or that name numbered by how often it came before |
| ColumnNames.NewNames | core/dbcore/query.go:250-265 | a column without a name is called column and its position from 1; one whose name was met before gets one more than the number of columns before it that start from that name |
| ColumnNames.RenamedIsNotEmpty | core/dbcore/query.go:250-265 | new names are not empty, and a name is kept exactly when it is not empty and no earlier column starts from it |
| ColumnNames.DistinctIff | core/dbcore/query.go:224-228 | new names are pairwise distinct exactly when no column already carries a name the numbering makes |
| ColumnNames.UnnumberedIsDistinct | core/dbcore/query.go:224-228 | names without a trailing number in parentheses always become distinct |
| ColumnNames.NumberedInputCollides | core/dbcore/query.go:250-265 | a, a, a (2) ends with two columns alike |
| ColumnNames.NumberedInjective | core/dbcore/query.go:258-260 | a numbered name determines its base and its number |
| Sessions.Manager.NextId | core/dbcore/session.go:61-63 | the atomic step that hands out an id, fresh until the counter comes round |
| Sessions.Manager.Register | core/dbcore/session.go:106-109 | the locked step that puts a session in the map |
| Sessions.Manager.Get | core/dbcore/session.go:166-174 | finds exactly the sessions in the map, and never an id that was taken out |
| Sessions.Manager.Detach | core/dbcore/session.go:180-191 | the locked step of Close: removes the session and makes the caller its only holder |
| Sessions.Manager.DetachAll | core/dbcore/session.go:193-205 | the locked step of CloseAll: takes every session once and leaves the map empty |
| Sessions.Manager.Open | core/dbcore/session.go:72-110 | dial, ping, number and register in one go: on success the session is in the map under a fresh id, on failure its handle is closed and the map unchanged |
| Sessions.Manager.Close | core/dbcore/session.go:176-191 | removes the session and closes its handle; nothing changes for an id that is not open |
| Sessions.Manager.CloseAll | core/dbcore/session.go:193-205 | empties the map and closes every handle as often as the map held it, and no other |
| Sessions.IdsDistinctIff | core/dbcore/session.go:61-63 | the ids handed out are all different exactly up to 2^64 of them |
| Sessions.IdAtIs | core/dbcore/session.go:61-63 | ids are conn- and the counter of 64 bits in decimal |
| Sessions.LeavingIsGone | core/dbcore/session.go:176-205 | what leaves the map is exactly what is gone, and each close is listed |
| Sessions.InvStep | core/dbcore/session.go:71-110 | every step of Open, Close and CloseAll keeps each handle in exactly one place and ids apart |
| Sessions.EnterKeepsIff | core/dbcore/session.go:106-109 | registering loses no session exactly when its id is not in the map |
| Sessions.ClosedAtMostOnce | core/dbcore/session.go:176-205 | under every interleaving and for runs of any length no database handle is closed twice |
| Sessions.SessionSafety | core/dbcore/session.go:61-205 | until the counter comes round every handle is accounted for and a removed id never resolves again |
| Operations.Session.Track | core/dbcore/session.go:243-248 | an execution with a name is put in the map under it, replacing what was there |
| Operations.Session.Untrack | core/dbcore/session.go:250-254 | the entry under the execution's name is removed |
| Operations.Session.Find | core/dbcore/session.go:256-267 | the locked part of Cancel: what it finds is an execution that has not ended |
| Operations.Session.CancelAll | core/dbcore/session.go:269-276 | stops exactly the executions in the map and leaves it empty |
| Operations.RunInv | core/dbcore/session.go:243-277 | under every interleaving the map leads only to executions that have not ended, each under its own name |
| Operations.CoveredStepIff | core/dbcore/session.go:243-254 | a step makes an execution that goes on unreachable exactly when it takes over or removes an entry that is another's |
| Operations.FreshNamesCover | core/dbcore/query.go:101-106 | with fresh names, in every run, Cancel reaches every named execution that goes on and cancelAll leaves none |
| Operations.StoppedForAReason | core/dbcore/session.go:256-277 | no cancel function is called but at the end of its own execution, by a Cancel that found it under its name, or by cancelAll |
| Operations.SharedNameEscapes | core/dbcore/session.go:250-277 | of two executions under one name the second outlives the first and then the closing of the session |
| Operations.LateExecutionGoesOn | core/dbcore/session.go:176-191 | an execution that registers behind cancelAll is not stopped by it |
| CoreClient.Client.Call | app/lib/core/native_core.dart:154-162 | a closed client refuses; otherwise a fresh id becomes pending |
| CoreClient.Client.Complete | app/lib/core/native_core.dart:180-183 | a response completes the request it names if that is pending and changes nothing otherwise |
| CoreClient.Client.FailAll | app/lib/core/native_core.dart:185-193 | every pending request fails, in order, and none stays pending |
| CoreClient.Client.Dispose | app/lib/core/native_core.dart:195-202 | closes once, failing what is pending; a second call changes nothing |
| CoreClient.InvStep | app/lib/core/native_core.dart:120-235 | every step of caller, queues and isolate keeps the protocol invariant, and completions are final |
| CoreClient.ExactlyOnce | app/lib/core/native_core.dart:154-235 | in every run ids are pending or completed, never both or twice, and a success answers the request it was made for |
| CoreClient.FailuresSayWhy | app/lib/core/native_core.dart:185-202 | a request fails only when pending at the isolate's exit or at dispose, each with its own message, and then all of them do |
| CoreClient.DisposedStaysEmpty | app/lib/core/native_core.dart:195-202 | after dispose nothing is pending in any later state |
| CoreClient.HangsIffAfterExit | app/lib/core/native_core.dart:142-162 | once the isolate's exit was delivered and while the client is not disposed, the requests pending are exactly those made after it; all earlier ones are completed |
| CoreClient.HangingRun | app/lib/core/native_core.dart:144-162 | a run of three steps that ends with a request nobody will answer |
| Csv.ToCsv | app/lib/core/models.dart:373-384 | the header and then every row, fields quoted, lines ended by a newline |
| Csv.QuotedIff | app/lib/core/models.dart:381-390 | a value is quoted exactly when it is empty or holds a quote, comma, carriage return or newline; others stand as they are and NULL is nothing |
| Csv.CellRoundTrip | app/lib/core/models.dart:381-390 | a printed cell reads back as itself, NULL and the empty string apart |
| Csv.RowsReadBack | app/lib/core/models.dart:377-384 | what a reader gets back from any grid |
| Csv.CsvRoundTripIff | app/lib/core/models.dart:373-390 | header and cells come back exactly when the header and every row have a field |
| Csv.CsvInjective | app/lib/core/models.dart:373-390 | grids that differ in a name or a cell print differently |
| History.QueryHistoryStore.Add | app/lib/data/connection_store.dart:177-184 | the entry moves to the front, its duplicates go, and the list stays the first 200 of the uncapped history |
| History.QueryHistoryStore.Clear | app/lib/data/connection_store.dart:186-189 | the list is empty |
| History.QueryHistoryStore.ShowsTwoHundred | app/lib/data/connection_store.dart:153-184 | the store shows the first 200 of the uncapped history, or all of a shorter one |
| History.KeyIsBetweenSpaces | app/lib/data/connection_store.dart:177-184 | statements are compared by what is between the spaces about them |
| History.CappingLosesNothing | app/lib/data/connection_store.dart:180-182 | cutting to 200 at every add gives the same list as cutting once at the end |
| History.MostRecentIsLatest | app/lib/data/connection_store.dart:177-184 | the uncapped history lists, newest first, exactly the latest entry of each statement up to trimming |
| Completion.Rank | core/dbcore/complete.go:381-425 | the first 40, stably sorted, of the first matches of each kind and text |
| Completion.RankIsTop | core/dbcore/complete.go:411-423 | at most 40 are returned, in order, and nothing left out orders before anything returned |
| Completion.LessIff | core/dbcore/complete.go:394-416 | of two matches the one that is no keyword is better, then the one that starts with what was typed, then the one whose lower-cased text comes first |
| Completion.RankIsBest | core/dbcore/complete.go:411-423 | the first 40 in that order are returned and none left out is better than one before it |
| Completion.RankIsDistinct | core/dbcore/complete.go:381-409 | every suggestion returned matches and no two share kind and lower-cased text |
| Completion.KeptIsFirst | core/dbcore/complete.go:389-409 | of equal suggestions the first that matches is kept |
| Completion.MatchIff | core/dbcore/complete.go:394-402 | a suggestion matches exactly when its text contains what was typed, and a prefix scores better |
| Completion.IdentityIsKindAndText | core/dbcore/complete.go:390-393 | for kinds without NUL two suggestions have one key exactly when kind and lower-cased text agree |
| Completion.StableSortSorts | core/dbcore/complete.go:411-416 | the sort orders its input and keeps its elements |
| Completion.StableSortStable | core/dbcore/complete.go:411-416 | ties keep their order |
| Completion.StableSortUnique | core/dbcore/complete.go:411-416 | whatever is sorted and keeps the order of ties is this sort's result |
| Completion.WordBefore | core/dbcore/complete.go:196-203 | the longest run of identifier runes that ends at the cursor |
| Completion.StatementAround | core/dbcore/complete.go:248-257 | the text of the first statement whose span holds the cursor, or the whole buffer |
| Completion.AroundNothing | core/dbcore/complete.go:248-257 | a cursor in no span takes the whole buffer |
| Completion.CursorFindsItsStatement | core/dbcore/complete.go:248-257 | for every engine a cursor behind the start of a span, or at a start no earlier span ends at, and up to its end finds the first statement with that span |
| Completion.GoSplitInOrder | core/dbcore/sqltext.go:185-205 | GO splitting keeps the spans in order: two pieces share a span or the later one starts at or behind the end of the earlier |

## Left out

- Drivers, sockets, TLS, timeouts, hints and catalog queries: foreign calls. The database is an object that logs what it is sent and replies arbitrarily.
- `runOne`, `returnsRows` and `containsWord`: which driver call a statement goes through. `containsWord` inspects single bytes of UTF-8 text.
- `readRows`: the row cap and the typing of columns from values; a counter and a table.
- `Execution.Session` runs without the cancellation modelled in `Operations`: a statement cut short is one more way to fail.
- `groupForeignKeyRows`: the same fold as `groupIndexRows` over pairs of columns.
- `Complete`, `tableReferences`, `identifierSequence`, `contextBefore`: heuristics over words, with no claim of their own to hold them to.
- DSN building and redaction, result JSON, number and time formatting, the FFI envelope: library encodings.
- Saved connections and the files behind them, and `QueryHistoryStore.load`: a loaded list need not be distinct or short, so the history laws start from an empty store.
- Flutter widgets and application state.
- Invalid UTF-8: `[]rune` turns it into U+FFFD, so a returned text need not be a slice of the bytes.
- Lone surrogates in Dart strings: a Dart string is a sequence of UTF-16 units, here of code points.
- Splitter.IsInt: `strconv.Atoi` is modelled for 64-bit platforms; on 32-bit ones a repeat count beyond 2^31 is no separator.
- Completion.StableSortSorts: `sort.SliceStable` is a library call, modelled by an insertion sort on values, which `Completion.StableSortUnique` says is no restriction; sorting in place is not captured.
- BatchLaws.ResplitSqlServer: one direction in the buffer's terms. A GO line inside a region may by accident leave parts that are stable, as two halves of a literal without a semicolon are; `OneStatement.ResplitSqlServerIff` is exact for each returned text.
- CoreClient.Client.Call: the request's JSON and the awaiting caller are not modelled, only which request a completion belongs to.

# The SQLite shell and the ZeroVM runtime, verified

A Dafny model of the two programs at the centre of this repository:

* `sqlite/shell.c`, the command shell: its printers (csv, SQL literals, C-style
  strings, INSERT statements, the query behind `.dump`, the columns of
  `.tables`), the readers that have to undo them (`local_getline`, the splitter
  and dequoter of `.import`, the tokenizer of dot-commands with
  `resolve_backslashes`), and its drivers (`process_input`, `shell_exec`,
  `.import`, `.explain`).
* `api/zrt.c` and `api/zvm.c`, the user-side runtime of ZeroVM: three channels
  mapped into memory with shared cursors, two implementations of the user log,
  and an integer printer built on a string reversal by exclusive or.

The code works on buffers, cursors and fields, and so does the model: arrays are
rewritten in place, buffers grow, and classes hold what the C code keeps in
structures and static variables. Each method is proved against a small function
or predicate on values. The theorems are about those.

| module | models |
|---|---|
| `Text`, `Readers`, `Arithmetic` | C strings in buffers, readers of printed text, facts about multiplication |
| `LineReader` | `local_getline` and `fgets` |
| `Quoting`, `DumpSelect` | the three SQL quoters, and the query that `.dump` builds with one of them |
| `Numerals`, `InsertOutput` | `isNumber`, `output_hex_blob`, MODE_Insert |
| `SqlComplete`, `SqlGrammar` | `sqlite3_complete`, the state machine that decides where a batch ends, and the grammar that it accepts |
| `Terminators` | lines of a slash or the word go, which end a batch like a semicolon |
| `SqlLexer`, `LineEndings`, `Replay` | INSERT output read by the shell itself through `process_input` |
| `Csv`, `CsvRoundTrip`, `CsvImport` | `output_csv`, MODE_Csv, `.import` |
| `CEscape`, `DotCommand` | `output_c_string`, `resolve_backslashes`, the tokenizer |
| `Blank`, `Statements`, `ProcessInput` | `_all_whitespace`, `_is_command_terminator`, `_is_complete`, `process_input` |
| `ShellState`, `ExplainMode`, `TablesLayout`, `ShellExec` | `struct callback_data`, `.explain` and its neighbours, `.tables`, `shell_exec` |
| `ShellWorld` | `process_input` with `sqlite3_complete` and `shell_exec` as it calls them, over whole runs |
| `Integers`, `Channels`, `UserLog` | `itoa` and `strrev`, the syscalls on channels, `log_msg` and `log_msg2` |

Conventions. A C string is a Dafny `string` without NUL; a buffer is an
`array<char>`, and `HoldsAt(buf, off, s)` says that the buffer holds `s` and its
terminator at `off`. Characters are bytes, and the character classes are those of
the C locale. `sqlite3_complete` is modelled as the code has it
(`sqlite/sqlite3.c:112167-112317`); the table cites its documentation. The rest that the
shell asks of SQLite (what is prepared, what a statement answers, does a row store)
is a parameter: a function of the text and of everything that happened before, on
which nothing is assumed but that preparing a text uses up some of it unless it is an
error, and that a statement ends with an answer other than SQLITE_ROW and SQLITE_OK.

Statements of `process_input` that need no more than its own code hold for any
answers of these calls (`Env`); `RunsOn` says that the answers are those of
`sqlite3_complete` and of `shell_exec` on an engine (there are such answers for every
engine, `ShellEnvRuns`), and `ProcessInput` makes the calls.

Where the code and its comments differ, the model follows the code:

* For a separator of several bytes `output_csv` compares at the start of the
  field, not at the position it looks at (`sqlite/shell.c:632-633`). The csv round
  trip is therefore stated with the exact condition under which it holds
  (`FileReadsBack`), with a counterexample (`TwoByteSeparatorFails`) and with the
  proof that one byte is always enough (`OneByteFileReadsBack`).
* `output_hex_blob` prints a signed `char`, so a byte from 0x80 up comes out as
  eight digits (`sqlite/shell.c:499`). `LitReadsBack` and the lemmas built on it hold
  exactly for blobs below 0x80 and numbers that are numerals; `HighBlobFails` and
  `InfinityFails` are inputs that do not read back.
* The `memset` of `.explain` clears 100 bytes, which are 25 of the 100 widths
  (`sqlite/shell.c:1697`). What is restored later is not affected.
* `local_getline` drops a carriage return before every newline, also inside an SQL
  literal (`sqlite/shell.c:369-372`). So the shell executes its own INSERT output
  exactly as printed if and only if no CR LF is in the table name and the texts
  (`BatchSame`, `ReplayExact`), with a counterexample (`CrLfFails`).
* `log_msg` terminates what it appends, and so writes one byte behind the log exactly
  when a message fills the space left (`api/zvm.c:49`; `TerminatorBehind`, `Overrun`).
* `_is_complete` puts the terminator back and leaves the byte behind it zero
  (`sqlite/shell.c:2474-2482`); the text in the buffer is unchanged.
* `shell_exec` sets SQLITE_ABORT when a callback asks to stop, and then overwrites
  it with the result of `sqlite3_finalize`, so the next statement is run
  (`sqlite/shell.c:1197-1198`, `sqlite/shell.c:1221-1222`; `ShellExec.StopIsNoError`).
* Any value but 1 turns `.explain` off (`sqlite/shell.c:1680-1681`), and `.dump`
  copies an empty table name without quotes (`sqlite/shell.c:1303-1308`).

## Model

| member | source | states |
|---|---|---|
| `LineReader.LineEnd` | sqlite/shell.c:369 | the first place where a line may end: no shorter prefix ends in a newline with evenly many quotes (csv) before it |
| `LineReader.LineEndIs` | sqlite/shell.c:369-374 | any prefix that ends a line with no shorter one before it is the line that is returned, whatever it was read in |
| `LineReader.NoLineEnd` | sqlite/shell.c:357-364 | without a line end the rest of the file is one line |
| `LineReader.Stream.Fgets` | sqlite/shell.c:357 | fgets as the C standard has it: at most size-1 characters, no further than a newline, terminated |
| `LineReader.ReadChunk` | sqlite/shell.c:357-368 | a chunk extends the buffered prefix of the file, the quote flag is the parity of all quotes so far, and at most its last character is a newline |
| `LineReader.CutEol` | sqlite/shell.c:369-373 | newline and at most one carriage return before it are cut |
| `LineReader.FillLine` | sqlite/shell.c:347-375 | however reads are cut into chunks, the buffer ends with the next logical line; 100 bytes are free before every read |
| `LineReader.LocalGetline` | sqlite/shell.c:337-378 | null exactly at end of file, else the shortest line as defined by `LineEnd`, in a buffer of exactly its size; the file is left right after it |
| `Quoting.QuotedReadsBack` | sqlite/shell.c:506-531 | a quoted text is read back whatever it holds and whatever follows that is not a quote, so no text ends its literal early |
| `Quoting.OutputQuotedString` | sqlite/shell.c:506-531 | the chunked printer prints the quote-doubled literal |
| `Quoting.QuoteChunks` | sqlite/shell.c:515-529 | pieces up to the next quote, each followed by two quotes, make up the quote-doubled literal |
| `Quoting.CountDoubled` | sqlite/shell.c:907-913 | the counting pass of appendText counts exactly the bytes of the doubled literal |
| `Quoting.WriteQuoted` | sqlite/shell.c:920-929 | the writing pass fills the buffer to its last byte with old text, doubled literal and terminator |
| `Quoting.AppendText` | sqlite/shell.c:901-936 | the result is the old text and the appended text, quoted if asked for, in a buffer of exactly its size |
| `Quoting.MeasureName` | sqlite/shell.c:870-877 | quotes are needed exactly for names that are no plain identifier, and the count is that of the doubled name |
| `Quoting.SetTableName` | sqlite/shell.c:860-891 | the destination is the plain name or its quote-doubled literal, in a buffer of exactly its size; null for null |
| `Quoting.DestNameIs` | sqlite/shell.c:870-877 | a destination is the name itself if and only if that is letters, digits and underscores, no digit first |
| `Quoting.SetDestTable` | sqlite/shell.c:860-891 | the destination in the shell state becomes the printed form of the name, or null |
| `Numerals.NumeralIsNum` | sqlite/shell.c:282-304 | every text of the grammar is accepted, however it is taken apart |
| `Numerals.IsNumGrammar` | sqlite/shell.c:282-304 | accepted are exactly optional sign, digits, optional fraction, optional exponent, and realnum tells whether one of the last two is there |
| `Numerals.NumChars` | sqlite/shell.c:282-304 | no accepted text holds a quote, comma, parenthesis or anything else but digits, signs, point and e |
| `Numerals.WalkFraction` | sqlite/shell.c:290-295 | the walk over a fraction stops where the grammar puts its end, or refuses |
| `Numerals.WalkExponent` | sqlite/shell.c:296-302 | the walk over an exponent stops where the grammar puts its end, or refuses |
| `Numerals.IsNumber` | sqlite/shell.c:282-304 | the cursor walk decides the grammar without passing the terminator and assigns realnum whenever it accepts |
| `InsertOutput.HexReadsWide` | sqlite/shell.c:495-501 | printed hex digits read as bytes give every byte below 0x80 once and every other one after three bytes 0xff |
| `InsertOutput.WidenedSame` | sqlite/shell.c:499 | these are the bytes of the blob exactly when all are below 0x80 |
| `InsertOutput.LitReadsBack` | sqlite/shell.c:820-837 | a printed literal is read back as itself exactly when a number is a numeral and a blob stays below 0x80; text and NULL always are |
| `InsertOutput.LitsReadBack` | sqlite/shell.c:818-839 | a printed list of values is read back exactly when each value is |
| `InsertOutput.NameReadsBack` | sqlite/shell.c:817-890 | every destination name is read back from its printed form |
| `InsertOutput.InsertReadsBack` | sqlite/shell.c:814-841 | a printed INSERT gives back name and values, whatever text the values hold, under exactly that condition |
| `InsertOutput.InsertsReadBack` | sqlite/shell.c:814-841 | the output of a whole query gives back all rows in order exactly when every row meets the condition |
| `InsertOutput.OutputHexBlob` | sqlite/shell.c:495-501 | prints the blob literal |
| `InsertOutput.ColumnMeans` | sqlite/shell.c:820-837 | the literal chosen is the only one the column can stand for: NULL exactly without a value or for type NULL, a number for INTEGER and FLOAT, the text for TEXT, the bytes for a blob with a statement, and without a type a number exactly if it reads like one |
| `InsertOutput.ColumnReads` | sqlite/shell.c:820-837 | a reader gets what the column stands for exactly if its numbers are numerals and its bytes below 0x80, and from a blob always its widened bytes |
| `InsertOutput.OutputColumn` | sqlite/shell.c:820-837 | what the branches print is read as what text, type and statement call for |
| `InsertOutput.OutputColumns` | sqlite/shell.c:818-839 | the loop prints the list of literals with commas between them and nothing else |
| `InsertOutput.HighBlobFails` | sqlite/shell.c:499 | the blob 80 prints as `X'ffffff80'` and is read as four bytes |
| `InsertOutput.InfinityFails` | sqlite/shell.c:825-826 | a number that prints as `Inf` is not read back |
| `InsertOutput.InsertCallback` | sqlite/shell.c:814-841 | with the destination of a name, a row adds the INSERT statement for that name and the row's values, a null row nothing; both count |
| `InsertOutput.InsertRows` | sqlite/shell.c:814-841 | the callback over all rows adds the statements of the query, and reading them gives the name and, for every column of every row, what its text and type stand for, exactly when every row is printable |
| `SqlLexer.BodySealed` | sqlite/shell.c:814-841 | in a printed statement every newline is inside a text literal, and nothing is open before its semicolon |
| `SqlLexer.MinusThenDigit` | sqlite/shell.c:282-304 | a minus sign in a number is followed by a digit, so a number never opens a comment |
| `SqlComplete.ReadWord` | sqlite/sqlite3.h:1822-1824 | the switch on the first letter (`sqlite/sqlite3.c:112264-112303`) finds exactly the six words that the machine knows, in either case |
| `SqlComplete.NextToken` | sqlite/sqlite3.h:1824-1828 | the scanner (`sqlite/sqlite3.c:112201-112312`) passes over exactly one token, or finds that it is never closed |
| `SqlComplete.Sqlite3Complete` | sqlite/sqlite3.h:1816-1848 | the loop (`sqlite/sqlite3.c:112200-112316`) runs the table over the tokens of the text and decides whether it ends between statements |
| `SqlComplete.TokenMoves` | sqlite/sqlite3.h:1824-1827 | tokens end where a reader of single characters, which knows of literals, names and comments only, is outside of all of them |
| `SqlComplete.OpenIsIncomplete` | sqlite/sqlite3.h:1822-1828 | a text that ends inside a literal or a quoted name is not complete, whatever it holds |
| `SqlComplete.SemicolonCompletes` | sqlite/sqlite3.h:1822-1828 | from the middle of a statement that begins no trigger, text in which all newlines and semicolons are inside literals and nothing is left open becomes complete with a semicolon at its end |
| `SqlComplete.InsertCompletes` | sqlite/sqlite3.h:1822-1824 | so a single INSERT statement is complete with its semicolon, whatever its literals hold |
| `SqlComplete.SemicolonDecides` | sqlite/sqlite3.h:1822-1828 | without the word trigger a text is complete if and only if all is closed and its last token but white space and comments is a semicolon |
| `SqlComplete.TriggerWaits` | sqlite/sqlite3.h:1822-1824 | a trigger once begun is not complete without the word end, however many semicolons follow |
| `SqlGrammar.CompleteByTokens` | sqlite/sqlite3.h:1824-1828 | the answer depends on the tokens but white space and comments, and on nothing else |
| `SqlGrammar.TokensAre` | sqlite/sqlite3.h:1824-1828 | which tokens are semicolons and which are white space, by their characters |
| `SqlComplete.IdCharIs` | sqlite/sqlite3.h:1822-1828 | words are made of letters, digits, underscore, dollar and bytes from 0x80 up |
| `SqlGrammar.WordsAre` | sqlite/sqlite3.h:1822-1824 | which tokens are the words create, trigger, temp, temporary, end and explain |
| `SqlGrammar.TriggerAfter` | sqlite/sqlite3.h:1822-1824 | a trigger goes on up to the first semicolon, END, semicolon, and no further |
| `SqlGrammar.StatementAfter` | sqlite/sqlite3.h:1822-1824 | a statement is a trigger exactly if it begins with CREATE, any number of TEMP, and TRIGGER, possibly after EXPLAIN and other words; any other ends with its first semicolon |
| `SqlGrammar.CompleteIsWhole` | sqlite/sqlite3.h:1816-1828 | a text is complete if and only if all is closed, it is not blank, and its tokens are whole statements in that sense |
| `SqlGrammar.CreateTrigger` | sqlite/sqlite3.h:1822-1824 | a text that begins with CREATE TRIGGER is complete if and only if semicolon, END, semicolon comes and whole statements follow its first place |
| `SqlComplete.CompleteIsDocumented` | sqlite/sqlite3.h:1816-1831 | sqlite3_complete has the two properties that the replay of printed statements rests on |
| `LineEndings.UnixSame` | sqlite/shell.c:369-372 | dropping a carriage return before every newline changes a text exactly if it holds CR LF |
| `LineEndings.FirstLine` | sqlite/shell.c:369-372 | the line before a newline is returned without one carriage return at its end |
| `LineEndings.UnixBody` | sqlite/shell.c:814-841 | the dropping turns a printed statement into that of the name and texts without those carriage returns, and leaves it alone exactly if they have none |
| `Replay.PendingStep` | sqlite/shell.c:2527-2556 | while a literal is open a line joins the batch as it is, also if it looks like a terminator, a dot-command or a blank line |
| `Replay.FeedStatement` | sqlite/shell.c:2504-2582 | the lines of one printed statement are gathered and executed as one batch |
| `Replay.InsertsReplay` | sqlite/shell.c:2494-2592 | the INSERT output of a query, read as a file, is executed statement by statement, in order, whatever its texts hold |
| `Replay.BatchSame` | sqlite/shell.c:369-372 | a statement is executed exactly as printed if and only if no CR LF is in its name and texts |
| `Replay.BatchReads` | sqlite/shell.c:814-841 | what is executed inserts the printed values, texts and name without the carriage returns before newlines |
| `Replay.ReplayExact` | sqlite/shell.c:2494-2592 | over a whole run all statements are executed as printed if and only if there is no CR LF |
| `Replay.CrLfFails` | sqlite/shell.c:369-372 | the text a, CR, LF, b is executed as another statement than the printed one |
| `Replay.ShellIsDocumented` | sqlite/shell.c:2555-2556 | in the shell itself nothing has to be assumed of sqlite3_complete |
| `Replay.ReplayRows` | sqlite/shell.c:2494-2592 | printing a query and reading the file, with sqlite3_complete and shell_exec called for each batch: each statement is executed, exactly as printed if and only if there is no CR LF, nothing is left over, no statement stays live, and reading ends early only on an error with bail_on_error set |
| `DumpSelect.NestedReadsBack` | sqlite/shell.c:1303-1311 | quoting a name with double and the result with single quotes is undone by two readings, for every name |
| `DumpSelect.ColumnsReadBack` | sqlite/shell.c:1313-1325 | the list of columns in the query is read back for all column names |
| `DumpSelect.SelectReadsBack` | sqlite/shell.c:1302-1332 | the query names the table twice and its columns in order, whatever characters are in the names |
| `DumpSelect.IdentIs` | sqlite/shell.c:1303-1308 | the name goes into the INSERT as it is if and only if it is empty or letters and digits, a letter first |
| `DumpSelect.IdentQuote` | sqlite/shell.c:1303-1308 | the table name is quoted exactly when it is not a letter followed by letters and digits |
| `DumpSelect.BuildSelect` | sqlite/shell.c:1302-1332 | the calls of appendText build that query; without columns there is none |
| `Csv.DecideQuote` | sqlite/shell.c:629-638 | a field is quoted exactly if it is empty or one of its characters asks for it |
| `Csv.QuoteField` | sqlite/shell.c:639-644 | prints the field between double quotes with double quotes doubled |
| `Csv.OutputCsv` | sqlite/shell.c:623-652 | adds field or nullvalue and, if asked for, the separator to the output |
| `CsvRoundTrip.OneByteQuoting` | sqlite/shell.c:629-638 | with a separator of one byte a field is written as it is if and only if it is not empty and visible ASCII without quotes and separator |
| `Csv.FirstCut` | sqlite/shell.c:1803-1816 | in any record, well formed or not, the first field ends at the first separator outside quotes, and the rest is split anew behind it |
| `Csv.FieldsJoin` | sqlite/shell.c:1803-1816 | the fields of any record, joined by the separator, are the record |
| `Csv.DequoteAny` | sqlite/shell.c:1826-1834 | in a quoted field that nobody wrote a lone quote vanishes and the character after it stays |
| `CsvRoundTrip.NullsReadBack` | sqlite/shell.c:623-652 | a file with NULLs reads back with nullvalue in their places, if that is written without quotes, exactly when the rows so filled are separable |
| `Csv.CsvCallback` | sqlite/shell.c:800-813 | one line for each row, and a header before the first if headers are on |
| `Csv.ExportRows` | sqlite/shell.c:800-813 | the callback over all rows of a query prints the line of each, NULLs included, after a header exactly if rows are counted from 0 and headers are on |
| `CsvRoundTrip.FieldIsOneRecord` | sqlite/shell.c:623-652 | a written field balances its quotes, holds newlines only inside quotes, and never ends in a carriage return |
| `CsvRoundTrip.RecordIsLine` | sqlite/shell.c:337-378 | the line reader returns a written record whole, however many newlines its fields hold |
| `CsvRoundTrip.FieldPassed` | sqlite/shell.c:1803-1816 | the splitter passes over a separable field, with the quotes balanced behind it |
| `CsvRoundTrip.FieldCut` | sqlite/shell.c:1803-1816 | a field that is not separable comes out as another text |
| `CsvRoundTrip.DequoteField` | sqlite/shell.c:1826-1834 | dequoting undoes the quoting of a field, and leaves an unquoted field as it is |
| `CsvRoundTrip.RowReads` | sqlite/shell.c:1803-1834 | splitter and dequoter give back a written row exactly when the row is separable |
| `CsvRoundTrip.CellsAreRowText` | sqlite/shell.c:808-811 | what the callback prints for a row without NULLs is the record of the row and a newline |
| `CsvRoundTrip.FileCellsAreText` | sqlite/shell.c:800-813 | what the callback prints for rows without NULLs is the file of these rows |
| `CsvRoundTrip.FileReadsBack` | sqlite/shell.c:623-652 | reading lines, splitting and dequoting a written file gives back its rows in order if and only if every row is separable |
| `CsvRoundTrip.OneByteFileReadsBack` | sqlite/shell.c:630-637 | with any separator of one byte other than the quote and the newline that is so for all rows |
| `CsvRoundTrip.TwoByteSeparatorFails` | sqlite/shell.c:632-633 | with the separator `::` the field `a::b` is written without quotes and is not read back |
| `CsvImport.DequoteLoop` | sqlite/shell.c:1829-1833 | in place, the write index stays behind the read index and the value replaces the field; nothing outside the field changes |
| `CsvImport.SplitLoop` | sqlite/shell.c:1803-1817 | although columns are recorded only up to nCol, the count tells exactly whether the record has nCol fields, and then the buffer holds all of them |
| `CsvImport.ReadRecord` | sqlite/shell.c:1803-1836 | a record is taken exactly if its quote-aware split has nCol fields, and then its values are the dequoted fields |
| `CsvImport.ImportRecord` | sqlite/shell.c:1799-1846 | one turn reads one record and tells whether it was accepted and stored |
| `CsvImport.ImportFile` | sqlite/shell.c:1797-1852 | the rows stored are the records up to the first that is not accepted, COMMIT and rc 0 if there is none, else ROLLBACK and rc 1 |
| `CsvImport.Import` | sqlite/shell.c:1740-1852 | so it is if separator, columns, both statements and the file are there; else nothing is begun, with rc 0 only for a table without columns |
| `CsvImport.ExportImports` | sqlite/shell.c:1797-1850 | an exported file is imported and committed, row for row, if and only if every row is separable and the engine takes all of them |
| `CsvImport.ExportImport` | sqlite/shell.c:1740-1852 | writing a query, with or without header, and importing the file stores exactly its records under exactly that condition |
| `CEscape.OutputCString` | sqlite/shell.c:536-559 | prints every character as itself, a letter escape or three octal digits, between double quotes |
| `CEscape.EscapesAre` | sqlite/shell.c:540-556 | which characters print as a letter escape, as themselves, or as four characters |
| `CEscape.OctalEscape` | sqlite/shell.c:1489-1499 | an octal escape takes as many digits as there are, three at most, and stands for their number modulo 256 |
| `CEscape.LetterEscape` | sqlite/shell.c:1482-1489 | n, t and r are newline, tab and return, and any other character is itself |
| `CEscape.EscapeCharReads` | sqlite/shell.c:1478-1505 | one printed character is read back as itself, and nothing after it is taken for a further octal digit |
| `CEscape.EscapedResolves` | sqlite/shell.c:536-559 | resolving the escaped form of a text gives the text, for all bytes |
| `CEscape.ReadEscape` | sqlite/shell.c:1482-1501 | the value of an escape sequence, octal values modulo 256, and where it ends |
| `CEscape.ResolveLoop` | sqlite/shell.c:1478-1505 | in place, the write index never passes the read index and the resolved text replaces the token; nothing else changes |
| `DotCommand.ResolveToken` | sqlite/shell.c:1478-1505 | seen as a C string the token becomes the resolved text up to a NUL that an escape put there |
| `DotCommand.TakeToken` | sqlite/shell.c:1540-1555 | one token is cut out of the line and resolved without touching what comes before or after it |
| `DotCommand.SingleQuotedToken` | sqlite/shell.c:1542-1549 | between single quotes a token is what it is, backslashes included |
| `DotCommand.DoubleQuotedToken` | sqlite/shell.c:1542-1549 | between double quotes its escapes are resolved |
| `DotCommand.BareToken` | sqlite/shell.c:1550-1554 | without quotes it goes up to white space, and its escapes are resolved |
| `DotCommand.FiftyTokens` | sqlite/shell.c:1539-1541 | tokens are taken as long as there are any, and until there are 50 |
| `DotCommand.Tokenize` | sqlite/shell.c:1537-1556 | after the loop the line buffer holds exactly the tokens of the line, at most 50, at the positions recorded |
| `DotCommand.CleanPiece` | sqlite/shell.c:1537-1556 | wherever quotes and spaces cut a text whose escapes hold neither, no piece ends in an unpaired backslash |
| `DotCommand.ShownIsPaired` | sqlite/shell.c:2176-2183 | so it is for every setting that .show printed, also where its own quotes cut it |
| `DotCommand.ShownReadsBack` | sqlite/shell.c:2176-2183 | a setting that .show printed is read back from the command line as the same text if and only if it holds no double quote |
| `DotCommand.ShownRestores` | sqlite/shell.c:2165-2168 | so typing it back to .separator or .nullvalue, which keep 19 characters, stores the same setting |
| `Blank.BlankGrammar` | sqlite/shell.c:2432-2451 | accepted are exactly texts made of spaces, closed block comments, and line comments ended by newline or end of text |
| `Blank.AllWhitespace` | sqlite/shell.c:2432-2451 | the cursor walk decides that grammar without passing the terminator |
| `Blank.IsCommandTerminator` | sqlite/shell.c:2458-2468 | a terminator line is a slash or the word go between blanks, and is never empty |
| `Blank.TerminatorIs` | sqlite/shell.c:2458-2468 | a terminator is a slash or go in either case, white space before it, blanks and comments behind it |
| `Statements.BlankLine` | sqlite/shell.c:2516 | a blank line with nothing pending is skipped and changes nothing else |
| `Statements.DotLine` | sqlite/shell.c:2517-2526 | result 2 of a dot-command ends the reading, 0 is no error, any other counts as one |
| `Statements.FirstSqlLine` | sqlite/shell.c:2527-2582 | the first line of a batch is its text, but a terminator line is a semicolon; it is executed at once if it is complete |
| `Statements.LoneTerminator` | sqlite/shell.c:2527-2582 | with nothing pending a terminator line is the batch of one semicolon |
| `Statements.FurtherSqlLine` | sqlite/shell.c:2527-2582 | a further line joins behind a newline, whatever it is, but a terminator line joins as a semicolon exactly where a semicolon would complete the batch |
| `Statements.LoopCondition` | sqlite/shell.c:2504 | reading ends early exactly on an exit, or on an error with bail_on_error set and no one at the keyboard |
| `Terminators.NewlineBeforeSemicolon` | sqlite/sqlite3.h:1822-1828 | what a semicolon completes, a semicolon on the next line completes as well, also behind a line comment |
| `Terminators.TerminatorEnds` | sqlite/shell.c:2527-2582 | in the shell a terminator line executes every batch that a semicolon would complete, as one event from its first line to this one |
| `Terminators.TerminatorWaits` | sqlite/shell.c:2527-2554 | and joins any other batch as it is |
| `Terminators.TerminatorEndsRun` | sqlite/shell.c:2504-2582 | so it is after any run that leaves such a batch waiting |
| `Statements.StepFaithful` | sqlite/shell.c:2515-2582 | one line keeps conservation: events without gap or overlap, each true of its lines, the rest waiting, errors counted |
| `Statements.RunFaithful` | sqlite/shell.c:2504-2583 | over whole runs every line read is in exactly one skipped line, dot-command, executed batch or the leftover, what each line does to them being said by the lemmas above; dot-commands run only with nothing pending, a batch starts at its reported line and ends at the first line that completes it |
| `ProcessInput.Accumulator.constructor` | sqlite/shell.c:2495-2502 | the loop starts with no SQL and the invariant of the buffer |
| `ProcessInput.Accumulator.IsComplete` | sqlite/shell.c:2474-2482 | the two bytes written past the text are within the buffer and the text is unchanged afterwards |
| `ProcessInput.Accumulator.Normalize` | sqlite/shell.c:2527-2529 | a terminator line becomes a semicolon if what waits is complete up to one; the two bytes fit |
| `ProcessInput.Accumulator.Begin` | sqlite/shell.c:2531-2543 | the first line of a batch is stored with two spare bytes and its line number |
| `ProcessInput.Accumulator.Extend` | sqlite/shell.c:2544-2554 | a further line is appended after a newline and the spare bytes are kept |
| `ProcessInput.Accumulator.ContainsSemicolon` | sqlite/shell.c:2422-2426 | looks at exactly the part of the buffer that the line added |
| `ProcessInput.Accumulator.Execute` | sqlite/shell.c:2557-2581 | shell_exec runs the batch once, the error count grows exactly if it returns an error, and the engine has seen what the history says |
| `ProcessInput.Accumulator.ExecuteIfComplete` | sqlite/shell.c:2555-2582 | a complete batch is executed once and cleared, anything else waits unchanged |
| `ProcessInput.Accumulator.TakeLine` | sqlite/shell.c:2515-2582 | the loop body on the buffer is one step of the line-by-line machine and keeps the invariant of the buffer |
| `ProcessInput.Turn` | sqlite/shell.c:2504-2582 | one turn reads one line from the file, and what the run will end with stays the same |
| `ProcessInput.ProcessInput` | sqlite/shell.c:2494-2592 | events, error count and leftover are those of a conserving run over the lines of the file, and the leftover is reported exactly if it is not blank; the engine has seen exactly the executions of the batches in order, no statement is left live, and the count is that of the failed batches and dot-commands |
| `ShellWorld.BatchSeen` | sqlite/shell.c:2560-2562 | what one batch adds to all that the engine has seen, and when it counts as an error |
| `ShellWorld.BatchExecutes` | sqlite/shell.c:1108-1240 | a batch is prepared statement by statement, each where the engine said the one before it ended; the texts prepared for a batch make up the batch up to its first error, nothing is run after it, nothing is left exactly without one, and every statement prepared is finalized |
| `ShellWorld.RunFinalizes` | sqlite/shell.c:2494-2592 | over whole runs of the shell every statement is finalized as often as it was prepared |
| `ShellWorld.ErrorsCounted` | sqlite/shell.c:2562-2577 | the error count is the number of batches whose shell_exec returned an error and of dot-commands that failed |
| `ShellState.CallbackData.constructor` | sqlite/shell.c:2748-2752 | the initial settings: list mode, separator bar, no header, nothing saved by .explain |
| `ExplainMode.SavedFromSwitch` | sqlite/shell.c:1681-1687 | in any run of commands what is saved is what held just before the most recent switch to saved |
| `ExplainMode.ExplainRestores` | sqlite/shell.c:1679-1712 | an .explain that turns it off restores mode, header and all 100 widths from before that switch, whatever came between |
| `ExplainMode.ExplainSets` | sqlite/shell.c:1694-1705 | turned on, it sets mode, header and eight widths, clears 17 more, and saves what held unless something is saved |
| `ExplainMode.ExplainTwice` | sqlite/shell.c:1681-1711 | turning it on twice is turning it on once, and on and off is nothing |
| `ExplainMode.OthersSet` | sqlite/shell.c:2402-2408 | .headers and .width change what they are about, the first 99 widths at most, and nothing else |
| `ExplainMode.ModesSet` | sqlite/shell.c:1952-1982 | the ten names of .mode and their modes; any other name changes nothing |
| `ExplainMode.ExplainCommand` | sqlite/shell.c:1679-1712 | the command on the fields is the step of the run |
| `ExplainMode.HeadersCommand` | sqlite/shell.c:1714-1717 | changes the header flag and nothing that is saved |
| `ExplainMode.ModeCommand` | sqlite/shell.c:1952-1982 | changes the mode, for csv and tabs the separator, for insert the table; an unknown name changes nothing and is an error |
| `ExplainMode.ModeTableCommand` | sqlite/shell.c:1984-1994 | insert mode with a table sets mode and destination, any other name changes nothing and is an error |
| `ExplainMode.WidthCommand` | sqlite/shell.c:2402-2408 | changes the first widths only, at most 99, and nothing that is saved |
| `TablesLayout.PlacedOnce` | sqlite/shell.c:2240-2249 | every entry from 1 to nRow has exactly one place, in column-major order and within the columns |
| `TablesLayout.CountAtMostColumns` | sqlite/shell.c:2240-2249 | no line is empty and none has more than nPrintCol entries |
| `TablesLayout.LinesFit` | sqlite/shell.c:2240-2249 | every line is at most 78 characters long if and only if the longest name is |
| `TablesLayout.EveryNamePrinted` | sqlite/shell.c:2243-2248 | every name stands, padded, at the character position of its column on its line |
| `TablesLayout.NamesStandApart` | sqlite/shell.c:2243-2248 | each name itself stands there, blanks behind it up to the width and two before it, but for the first column |
| `TablesLayout.MostColumns` | sqlite/shell.c:2240-2241 | there are as many columns as fit into 80 characters, but one at least |
| `TablesLayout.FewestRows` | sqlite/shell.c:2242 | and no more rows than these columns need |
| `TablesLayout.LongestName` | sqlite/shell.c:2235-2239 | the length of the longest name, NULL entries left out |
| `TablesLayout.PrintTables` | sqlite/shell.c:2232-2250 | prints as many lines as needed, each holding every nPrintRow-th entry |
| `ShellExec.Engine.Prepare` | sqlite/sqlite3.h:2903-2914 | a new handle for a statement, none for an error or a comment, and how much text was used |
| `ShellExec.TextConserved` | sqlite/shell.c:1125-1237 | the text used by the statements in order and the text left are the text given |
| `ShellExec.EveryStatementPrepared` | sqlite/shell.c:1126-1135 | the texts prepared are exactly the places where the statements start: the whole text, and then each time what follows the text that the engine used and the white space after it; so SQLITE_OK means that every statement was prepared |
| `ShellExec.RunsToTheEnd` | sqlite/shell.c:1163-1222 | without a row that stops it a statement is stepped to its end, and the code of its end is the result |
| `ShellExec.StopsAtRow` | sqlite/shell.c:1186-1222 | at the first row that stops it a statement is stepped no further, and only want of memory is an error |
| `ShellExec.OnlyLastFails` | sqlite/shell.c:1125-1127 | nothing is run after an error |
| `ShellExec.FinalizedAsPrepared` | sqlite/shell.c:1125-1237 | over an execution every statement is finalized exactly as often as it was prepared |
| `ShellExec.StepToEnd` | sqlite/shell.c:1163-1211 | a statement is stepped to the answer that ends it or to the first row at which memory runs out or the callback asks to stop, one callback for each row |
| `ShellExec.RunStatement` | sqlite/shell.c:1139-1234 | a statement is stepped, finalized once and forgotten; its result is that of finalizing, also after a stop by the callback, unless memory ran out |
| `ShellExec.TurnOfOk` | sqlite/shell.c:1126-1236 | a turn as a function of the text and of all that happened before keeps the protocol, and uses up text exactly when it ends without error, namely what the engine says it used and the white space after it |
| `ShellExec.ExecuteKeepsProtocol` | sqlite/shell.c:1125-1237 | so do all turns of an execution, each on what those before it left and none after an error |
| `ShellExec.ExecTurn` | sqlite/shell.c:1126-1236 | the calls of one turn make that turn, and leave no statement behind |
| `ShellExec.TakeTurn` | sqlite/shell.c:1125-1237 | one turn is a step towards the whole execution, and the text left gets shorter unless it fails |
| `ShellExec.Exec` | sqlite/shell.c:1108-1240 | no statement is left, pStmt is NULL, the turns are those of the execution, the statements run are an in-order prefix of the text, the result is SQLITE_OK exactly if all of it was run, and otherwise an error message is saved |
| `Integers.XorCancels` | api/zrt.c:131-133 | exclusive or applied twice gives back either operand |
| `Integers.SwapChars` | api/zrt.c:130-134 | the three exclusive ors swap two characters |
| `Integers.StrRev` | api/zrt.c:124-137 | the text is reversed in place and nothing after it changes |
| `Integers.DigitIs` | api/zrt.c:140 | the digits are those of the table |
| `Integers.Itoa` | api/zrt.c:139-155 | leaves sign and digits, highest first, for every int but the smallest and every base from 2 to 36 |
| `Integers.IntReadsBack` | api/zrt.c:139-155 | parsing that text gives the number back |
| `Integers.NoLeadingZero` | api/zrt.c:139-155 | it has no leading zero unless the number is zero |
| `Integers.DecimalFits` | api/zrt.c:107-112 | in base 10 it is at most 11 characters, within the 17 bytes of log_int |
| `Channels.StepKeeps` | api/zrt.c:450-492 | a call keeps every cursor within its buffer if and only if an accepted seek lands inside; buffers never change size |
| `Channels.SeekMoves` | api/zrt.c:450-492 | after its line in the log, a seek leaves the cursor at the offset, the cursor plus it or fsize plus it for whence 0, 1 and 2, and hands that position back; otherwise the cursor stays, with -EPERM or -EBADF; nothing else moves |
| `Channels.SeekTells` | api/zrt.c:474-491 | SEEK_CUR by 0 on input or output moves nothing and tells the position |
| `Channels.SeeksAdd` | api/zrt.c:474-478 | two relative seeks that are accepted add up |
| `Channels.SeekThenRead` | api/zrt.c:470-473 | a read after a seek gives the bytes from the position sought |
| `Channels.ReadMoves` | api/zrt.c:348-381 | what a read answers and moves, by its arguments |
| `Channels.WriteMoves` | api/zrt.c:408-442 | what a write answers, changes and moves, by its arguments |
| `Channels.LogMoves` | api/zrt.c:83-98 | a message goes to the log at its cursor, as far as it fits |
| `Channels.WritesConcatenate` | api/zrt.c:384-442 | over any run without seeks on the output, what was sent stands there, one piece behind the other, as far as it fits |
| `Channels.ReadsConcatenate` | api/zrt.c:321-381 | over any run without seeks on the input, what the reads return is, in order, the input between the first and the last cursor |
| `Channels.LastWriteWins` | api/zrt.c:384-442 | after any run each byte of a channel is that of the last write to cover it, the log lines of seeks included |
| `Channels.ZrtRead` | api/zrt.c:321-381 | the answer and the state of the abstract files: min(length, bsize - pos) bytes, or the error code |
| `Channels.ZrtWrite` | api/zrt.c:384-442 | the same for writing |
| `Channels.LogMsg2` | api/zrt.c:83-98 | a message goes to the log channel at the shared cursor, cut to what fits; a null message is an error and changes nothing |
| `Channels.LogSeek` | api/zrt.c:161 | two messages for every zrt_lseek, before its arguments are looked at |
| `Channels.ZrtLseek` | api/zrt.c:450-492 | the seek of the abstract files, after the log lines, and whether cursors are still within their buffers |
| `UserLog.OldStepHolds` | api/zvm.c:33-54 | log_msg keeps what fits of all messages, terminated; offset and space left add up to the size; the byte behind is kept until the log is full |
| `UserLog.NewStepHolds` | api/zrt.c:83-98 | log_msg2 keeps what fits of all messages and the cursor behind it |
| `UserLog.OldAfter` | api/zvm.c:33-54 | so after any messages the old log holds the first bytes of all of them together, and zeros |
| `UserLog.NewAfter` | api/zrt.c:83-98 | and so does the new log, with its cursor behind them |
| `UserLog.LogsAgree` | api/zvm.c:33-54 | from an empty log, after any messages, both logs hold the same bytes |
| `UserLog.CodeAfter` | api/zvm.c:42-53 | what log_msg answers after any messages, by how much of the log they fill |
| `UserLog.TerminatorBehind` | api/zvm.c:49 | the terminator goes to the byte behind the log exactly if the message fills the space left |
| `UserLog.Overrun` | api/zvm.c:33-54 | over any messages that byte is overwritten exactly if they reach the size of the log together, and first by the one that makes them reach it |
| `UserLog.Logger.LogSet` | api/zvm.c:18-26 | pointer and space are those of the log channel; a missing setup or buffer is an error |
| `UserLog.Logger.StrNCat` | api/zvm.c:49 | strncat appends what fits and a terminator to the string at the pointer |
| `UserLog.Logger.LogMsg` | api/zvm.c:33-54 | answer and log are those of the step, a null message counting as an empty one |
| `UserLog.LogInt` | api/zrt.c:107-112 | the decimal text of the number goes to the log |

## Left out

- The SQLite engine. Preparing, stepping and finalizing statements, and storing a row are parameters or a class that keeps the documented contract.
- The builds of `sqlite3_complete` without triggers or EXPLAIN, and the one for EBCDIC.
- What dot-commands do to the engine is one event in its log, on which all later answers may depend; `open_db` and the result of a dot-command are parameters.
- Allocation failure, and lengths from 2^30 up, where `strlen30` is no longer exact.
- Input files that hold NUL bytes: what `fgets` leaves in the buffer cannot be told from the end of the chunk, and so the result depends on the chunks.
- The csv round trip with NULL values whose nullvalue would be written with quotes, the empty one included (they print as nullvalue, `Csv.OutputCsv` says so), and with separators that hold a double quote or a newline.
- CsvImport.Import: the line number and the column count in its error message are not modelled.
- The array azCol of `.import` and azArg of the tokenizer are sequences of offsets into the line buffer; the pointers themselves are not modelled.
- Tokenize: requires that no token ends in an unpaired backslash, because resolve_backslashes then reads past the end of its token.
- Prompts, echo, timers, history and interrupts in `process_input`, the text of its error messages, and lines typed with readline.
- ShellExec.Exec: pArg and pzErrMsg are not null, as at all its call sites; echo, statistics and explain output are not modelled.
- `booleanValue` and `atoi`: dot-commands carry the numbers that their arguments stand for.
- Descriptors above 2, LOADED and NETWORK channels (calls into the host), and the stat, mmap and other calls of `api/zrt.c` that return constants.
- Seeks past the end of a buffer: `StepKeeps` says exactly which seeks these are, and the calls after them depend on the width of `size_t`.
- Integers.Itoa: excludes the smallest int, whose negation overflows, and bases outside 2 to 36, for which there are no digits.
- UserLog.Logger.LogMsg: the array holds the byte behind the log, to which `Overrun` says when it writes, and the log ends where its pointer is, as in a buffer of zeros.
- Replay.ReplayRows: the texts of numbers open no literal, name or comment and hold no semicolon or newline, as is so for all numerals (`SqlLexer.NumeralQuiet`) and for Inf (`SqlLexer.InfinityQuiet`).
- The modes Line, Column, List, Semi, Html, Tcl and Explain, the other dot-commands, `main` and its options, backup and restore: easier repeats, or input and output.

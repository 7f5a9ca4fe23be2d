# SingleStore ODBC driver: verified models

Dafny models of the parts of the driver that hold real algorithms or protocols, with
proofs of what they promise. `dafny verify dfyconfig.toml` checks everything.

| file | what it models |
|---|---|
| `BlockCursor.dfy` | SQLFetchScroll and SQLFetch: cursor position, rowset, remembered row pointer and the client library's row pointer, for static, cached forward-only and streaming cursors |
| `Tokenizer.dfy` | the in-place SQL scanner that finds parameter markers, tokens, statements and comments |
| `ClientSide.dfy` | parameter substitution, the choice between sending a query whole and statement by statement, the loops over statements and parameter rows, and the rewrite of array INSERTs into bounded multi-row batches |
| `TupleList.dfy` | when the text behind VALUES can be rewritten |
| `DataAtExec.dfy` | the data-at-execution protocol: SQLExecute, SQLParamData, SQLPutData, SQLFreeStmt |
| `GetData.dfy` | SQLGetData of character and binary columns in pieces |
| `Numeric.dfy` | decimal text to SQL_NUMERIC_STRUCT by repeated halving of a digit buffer |
| `DsnKeys.dfy`, `Dsn.dfy`, `ConnString.dfy` | connection strings: key table, option bitmap and switched keys, parser and printer |
| `Association.dfy` | the two-way relation between statements and explicitly allocated descriptors |
| `Escape.dfy` | the recursion over ODBC escape sequences, with the escape grammar as a parameter |
| `LinkedList.dfy`, `DescriptorList.dfy` | the intrusive doubly linked list, and the list of descriptors a connection keeps |
| `CString.dfy`, `Common.dfy` | C string functions, return codes and arithmetic the others lean on |

Main results:

- **Block cursor.** `Statement.FetchScroll` refines `Step`, a cursor that knows neither the
  library pointer nor `Cursor.Next`, for every orientation, offset and array size, although
  row 0 of a scrollable rowset is read last. Every history of calls fills the slots with the
  rows the specification names. Under SQL_FETCH_NEXT alone every kind of cursor delivers
  a prefix of the result, each row once and in order. Read until SQL_NO_DATA, a streamed
  result is complete; a stored one is if and only if no call had array size 0 while some
  rows, but not all, had been asked for (`CompleteIff`). `Step` is compared with the table
  "Cursor Positioning Rules" of SQLFetchScroll in the ODBC Programmer's Reference: it agrees
  except exactly where PRIOR or LAST would start before the first row.
- **Tokenizer.** The scanner records exactly the markers outside strings and comments, as an
  independent character automaton defines them, for every text whose quotes are closed. The
  text also determines its tokens, how many each statement has, which statements become
  sub-queries, their types, and whether it returns a result. The scanner changes comments,
  separators, and CALL exactly where it is the first token of a statement, and no other byte
  (`Overwritten`).
- **Client-side execution.** Substitution replaces the i-th marker by the i-th literal and
  moves every other byte. Executed one by one, statements own exactly the markers inside them
  if and only if there is not exactly one sub-query or no marker stands behind the first
  separator; a query such as `;SELECT ?` is given a negative length to copy. The whole text is
  executed if and only if each statement has two tokens or more (`CutStatements`, `SplitBatch`,
  `OverrunIff`). Every statement runs its rows, and SQL_ERROR needs as many rejected queries as
  the parameter array has rows, also when a statement without parameters runs once
  (`RunStatements`, `ReturnTellsHowManyFailed`). Batched INSERTs carry the tuples the
  row-at-a-time path would send, each once, within the limit, up to a row that cannot be built
  (`ExecuteArrayInsert`), and they are lists of tuples if and only if the text behind the word
  VALUES found is one (`BatchesAreTuplesIff`).
- **Data at execution.** In every order of calls nothing is sent while a parameter is pending,
  each is asked for once, and what is sent is the concatenation of the chunks of this run.
  This fails for a parameter if and only if a chunk that is not empty was put for it, the run
  was then abandoned with SQL_CLOSE, and the parameter has not been bound again, nor a run
  been completed or the parameters reset since (`StaleIff`, `SendsWhatWasGivenIff`).
- **Numerics.** The struct denotes the number written if and only if the number has at most
  `scale` significant decimals, carries a dot when that is needed, and fits into 120 bits.
- **Connection strings.** Among data sources whose texts are `Quotable`, printing and parsing
  gives back exactly those whose flags are 0 or 1, whose option fields equal their bits, and
  in which TCPIP is the opposite of NamedPipe unless Options is 0 (`RoundTripIff`); the default
  data source is not one of them. A single value is read back if and only if it is quotable.
  From the defaults exactly one of TCPIP and NamedPipe is set after every pair, and NamedPipe
  equals its bit. Every field, and every bit of Options, is decided by the last pair that
  bears on it.
- **Descriptors.** Every operation keeps `Stmts` of each descriptor equal to the statements
  that point at it, without duplicates. The delete-all loop leaves a reference behind if and
  only if two stand next to each other. The connection's list holds the live descriptors whose
  records have not been freed; freeing such a descriptor once more leaves the list intact if and
  only if the neighbours it had follow each other or are both gone (`DescriptorList`).
- **Escapes.** Unless the grammar fails on a pair, the scan succeeds exactly when braces
  outside quoted strings balance. The grammar is applied once per pair, innermost first, up
  to the first pair on which it fails.

Where the code and its documentation or the standard differ, the model follows the code.

## Model

| member | source | states |
|---|---|---|
| `BlockCursor.Statement.FetchRow` | ma_statement.c:3332-3442 | one library fetch fills the slot from the row the library pointer is at, moves the pointer by one and counts the row, or finds the end and changes neither |
| `BlockCursor.Statement.DataSeek` | ma_result.c:90-102 | seeking fails on an empty stored result and else puts the library pointer at the row, clamped to the end |
| `BlockCursor.Statement.Fetch` | ma_statement.c:3235-3450 | from an aligned library pointer, the block read with row 0 last fills slot i with result row start + i and marks the other slots NOROW |
| `BlockCursor.Statement.Seek` | ma_statement.c:6354-6470 | orientation checks, position arithmetic and the seek agree with the abstract target; the library pointer ends at the position |
| `BlockCursor.Statement.FetchScroll` | ma_statement.c:6354-6489 | for every array size, 0 included, the new position, rowset size and outcome are those of the abstract cursor, the slots hold exactly the rowset, and the invariant tying position, rowset size, Cursor.Next and library pointer is kept |
| `BlockCursor.FetchNext` | ma_statement.c:6380-6489 | SQLFetch answers what the reader of a stored or streamed result answers, and the slots hold the rows it names |
| `BlockCursor.Statement.RunScrolls` | ma_statement.c:6354-6489 | any history of calls on a static cursor gives the abstract trace and delivers its rows |
| `BlockCursor.RunNexts` | ma_statement.c:3262-3442 | SQL_FETCH_NEXT alone delivers a prefix of the rows in order, whatever the kind of cursor and the array sizes |
| `BlockCursor.NextDeliversPrefix` | ma_statement.c:6380-6391 | no row is named twice and none out of order |
| `BlockCursor.StreamDeliversAll` | ma_statement.c:3262-3442 | a streamed result delivers every row asked for |
| `BlockCursor.CompleteIff` | ma_statement.c:3256-3260 | read until SQL_NO_DATA, a stored result has delivered all its rows if and only if no call had array size 0 after the first row and before the last had been asked for |
| `BlockCursor.EveryKindAlike` | ma_statement.c:6380-6391 | with array sizes of at least 1, stored and streamed results answer alike |
| `BlockCursor.NoDataFromTheEndOn` | ma_statement.c:6440-6460 | SQL_NO_DATA is answered exactly from the call on that finds all rows asked for, if no array size of 0 came in between on a stored result |
| `BlockCursor.RowsetsAreFull` | ma_result.c:290-308 | every rowset lies inside the result and has as many rows as array size and position allow |
| `BlockCursor.NextsThenPriorsReturn` | ma_statement.c:6385-6391 | any number of NEXT and as many PRIOR with one array size return to the same rowset |
| `BlockCursor.ZeroArraySizeLosesRow` | ma_statement.c:3256-3260 | of three rows read one by one with a call of array size 0 after the first, the last is never delivered |
| `BlockCursor.FollowsOdbcTable` | ma_statement.c:6385-6460 | the new position is the one of the standard's table if and only if PRIOR or LAST does not reach before row 1; there the driver answers SQL_NO_DATA and the standard row 1 |
| `BlockCursor.EmptyResultHasNoRows` | ma_statement.c:6385-6460 | no call on an empty result delivers a row |
| `Tokenizer.Query.StripLeadingComments` | ma_parse.c:639-686 | finds the end of the comment and blanks exactly its bytes |
| `Tokenizer.Query.SkipSpacesAndComments` | ma_parse.c:29-45 | stops at the first byte that is neither blank nor in a comment, changing comment bytes only |
| `Tokenizer.Query.ParseQuery` | ma_parse.c:492-636 | markers are exactly the plain question marks, tokens are those of the text and contain the markers, statements end at the plain semicolons, each with its number of tokens, up to a statement of a type that may hold semicolons, and the buffer is the text with comments, separators and leading CALLs overwritten; the sub-queries are exactly the statements with two tokens or more, each with the offset of its first token and the type its first two tokens give it, SELECT with INTO being one of its own, and the query has the type of the first; it returns a result if one of them does, a SELECT with INTO included |
| `Tokenizer.OffsetsArePlaces` | ma_parse.c:585-592 | recorded offsets increase and are exactly the occurrences outside comments and strings |
| `Tokenizer.FinishedBuffer` | ma_parse.c:593-606 | in the finished buffer the NULs are exactly the separators and every marker is still a question mark |
| `Tokenizer.Overwritten` | ma_parse.c:509-517 | every byte of the buffer: NUL on a separator, ECHO over a CALL that is the first token of a statement if calls are replaced, a blank in a comment, and else the byte of the text |
| `Tokenizer.EveryStatementCounted` | ma_parse.c:521-543 | there are as many subqueries as the semicolons cut out statements if and only if each has two tokens or more, its semicolon being one |
| `Tokenizer.ScannerAndAutomaton` | ma_parse.c:47-76 | from every state between elements, scanner and character automaton find the same offsets, up to an unclosed quote |
| `Tokenizer.ClosedQuotesAgree` | ma_parse.c:555-592 | for closed quotes the offsets found are those of the automaton |
| `Tokenizer.UnclosedQuoteLeaks` | ma_parse.c:576-582 | behind an unclosed quote the scanner finds a marker the automaton does not |
| `ClientSide.InsertParams` | ma_statement.c:1622-1674 | the statement's text with the i-th marker replaced by the i-th literal, the outcome of the first parameter that cannot be written, or a negative length exactly when all can and a marker lies behind the statement's NUL |
| `ClientSide.SpliceKeepsBytes` | ma_statement.c:1649-1667 | every byte that is no marker is carried over, shifted by the literals before it |
| `ClientSide.SplicePutsLiterals` | ma_statement.c:1646-1655 | the i-th literal stands where the i-th marker stood |
| `ClientSide.CountParams` | ma_statement.c:1716-1727 | the parameters counted for a statement are exactly those whose markers lie inside it |
| `ClientSide.SplitStatements` | ma_statement.c:1986-2118 | statements and parameter ranges follow each other without gap; two or more own exactly their markers, a single one is given all; the text is covered exactly when there are as many rounds as NULs cut out statements |
| `ClientSide.CutStatements` | ma_statement.c:1984-2118 | for a parsed query, statements own exactly their markers if and only if there is not exactly one sub-query or no marker stands behind the first separator; all of the text is executed, with all parameters, if and only if each statement has two tokens or more, its semicolon being one, or batches are not allowed |
| `ClientSide.SplitBatch` | ma_statement.c:623-792 | when a query is refused, sent whole, or executed statement by statement, and for the last what CutStatements states |
| `ClientSide.OverrunIff` | ma_statement.c:1631-1664 | a statement whose parameters can all be written is built if and only if it owns its markers; otherwise a negative length is copied |
| `ClientSide.LeadingSeparator` | ma_statement.c:1986-1994 | `;SELECT ?` has one sub-query, and its marker stands behind the first separator |
| `ClientSide.RunRows` | ma_statement.c:2066-2105 | the rows up to the first that cannot be built are counted as processed, each not ignored has its query sent, UNUSED, SUCCESS and ERROR statuses say exactly what happened, ERROR only in the last row of the array, and rejected queries are counted |
| `ClientSide.ReturnTellsHowManyFailed` | ma_statement.c:2344-2357 | SUCCESS if no query is rejected; ERROR exactly when all rows are, and, for a statement without parameters, the array has no second row |
| `ClientSide.RejectedWithInfo` | ma_statement.c:2098-2101 | a rejected statement without parameters and an array of two: SUCCESS_WITH_INFO and DIAG_UNAVAILABLE |
| `ClientSide.RunStatements` | ma_statement.c:1986-2118 | every statement runs its rows in order, the queries sent are those of the rows not ignored, the status of a row is its fate in the last statement that ran it, the return code compares all rejected queries with the array size, and a row that cannot be built ends everything |
| `ClientSide.CombineRows` | ma_statement.c:2016-2043 | the inner loop builds the combined text of the batch, with the comma decided by the row's index, and marks ignored rows |
| `ClientSide.MarkRows` | ma_statement.c:2046-2055 | every row of the batch that is not ignored gets the fate of the batch |
| `ClientSide.RunBatches` | ma_statement.c:2006-2063 | the batches sent are the prefix and the combined text of consecutive rows, rows carry the fate of their batch, and the return code is ERROR when the last batch is rejected, else tells whether some were |
| `ClientSide.CombinedIsJoinIff` | ma_statement.c:2037-2041 | the combined text is the comma-separated tuples if and only if the first row of the batch is not ignored or all are |
| `ClientSide.IgnoredFirstRowLeavesComma` | ma_statement.c:2039 | a batch whose first row is ignored begins with a comma |
| `ClientSide.BatchWithinLimit` | ma_statement.c:2008-2016 | no batch carries more than S2_MAX_PARAMS parameters |
| `ClientSide.BatchesCoverRows` | ma_statement.c:2011-2043 | the batches together carry the tuples of all rows not ignored, in order, each once |
| `ClientSide.FindToken` | ma_parse.c:314-326 | the first token beginning with the word, or 0 |
| `ClientSide.ChooseRewrite` | ma_statement.c:1999-2009 | the INSERT is rewritten exactly when the first VALUES token stands behind the start and before the first question mark and neither of the other clauses is found; then every marker stands behind the word VALUES |
| `ClientSide.MarkersBehindValues` | ma_statement.c:1999-2004 | VALUES before the first question-mark token means all markers are behind the word |
| `ClientSide.RewriteKeepsInsert` | ma_statement.c:2009-2041 | each row's own query is the common prefix and its tuple, and a batch whose first row is not ignored is the same prefix and the comma-joined tuples |
| `ClientSide.ExecuteArrayInsert` | ma_statement.c:1984-2105 | from a parsed single statement to the server: rewritten or not, the tuples of the rows not ignored go out behind the same text, each once and in order, up to the first row that cannot be built; a batch whose first row is ignored has a comma in front; with a marker behind the first separator no row can be built |
| `ClientSide.PrefixStartsTheText` | ma_parse.c:277 | after the skip of leading blanks and comments token 0 starts the text, so the prefix sent is the text up to VALUES |
| `TupleList.RunSplice` | ma_statement.c:1646-1664 | literals that are atoms leave the structure of the text behind VALUES as it is with markers |
| `TupleList.BatchesAreTuplesIff` | ma_statement.c:1999-2041 | every batch is a list of tuples if and only if the text behind the word VALUES found is one |
| `TupleList.TableNamedValues` | ma_statement.c:1999-2009 | INSERT INTO values2 VALUES(?): the word found begins the name of the table |
| `TupleList.TwoBlanks` | ma_statement.c:2004 | ON DUPLICATE KEY UPDATE with two blanks is not found and stands behind the tuple |
| `DataAtExec.Statement.Execute` | ma_statement.c:1318-1328 | with a pending parameter nothing is sent and SQL_NEED_DATA is answered; without one the query is built and sent |
| `DataAtExec.Statement.Bind` | ma_statement.c:2442-2471 | binding a parameter anew empties its buffer and no other |
| `DataAtExec.Statement.ParamData` | ma_statement.c:800-881 | asks for the next pending parameter, or sends the query with the stored data and leaves nothing pending or stored |
| `DataAtExec.Statement.PutData` | ma_statement.c:980-1064 | appends the chunk to the parameter's buffer, or nothing for SQL_NULL_DATA; a missing pointer and an invalid length are refused, and a second chunk for a fixed-length type |
| `DataAtExec.Statement.FreeDae` | ma_statement.c:6104-6117 | empties every buffer |
| `DataAtExec.Statement.Close` | ma_statement.c:281-292 | gives the run up and leaves the buffers as they are |
| `DataAtExec.Statement.ResetParams` | ma_statement.c:297-304 | nothing pending, nothing stored, no parameter bound |
| `DataAtExec.DaeParamsOnce` | ma_statement.c:827-847 | the parameters asked for are each pending parameter once, in increasing order |
| `DataAtExec.StaleIff` | ma_statement.c:1018-1057 | a buffer differs from the chunks of this run, joined, if and only if a chunk that is not empty was put, a close followed, and nothing has emptied the buffer since |
| `DataAtExec.SendsWhatWasGivenIff` | ma_statement.c:1325-1328 | the query sent carries for each pending parameter the chunks of this run, joined, if and only if no pending parameter has such a chunk |
| `DataAtExec.CloseLeavesChunks` | ma_statement.c:281-292 | "a" put before SQL_CLOSE and "b" put in the next run: the query sent has "ab" |
| `DataAtExec.BindDropsChunks` | ma_statement.c:2465-2471 | with the parameter bound again in between it has "b" |
| `DataAtExec.RunWithData` | ma_statement.c:800-881 | a whole run asks for every pending parameter once in order, sends one query carrying all chunks, and leaves nothing behind |
| `GetData.Row.Fetch` | ma_statement.c:3444-3445 | a fetch resets the offset and length of every column |
| `GetData.Row.Get` | odbc_3_api.c:846-871 | SQL_NO_DATA for a finished column, the error for a negative size, and else the next piece, from the start when another column was read in between |
| `GetData.Row.GetPiece` | ma_statement.c:4170-4252 | the piece that fits, the number of bytes undelivered before the call, 01004 exactly when bytes remain, except that a buffer without room for a byte and without an indicator is answered SUCCESS, and the new offset |
| `GetData.ReadWhole` | ma_statement.c:4170-4252 | for any buffer sizes with room for a byte the pieces concatenate to the value, each indicator is what was undelivered, and all calls but the last are truncated |
| `Numeric.HalvePass` | ma_helper.c:1236-1243 | one pass halves the number in the digit buffer and returns its remainder |
| `Numeric.Halve` | ma_helper.c:1233-1263 | the bytes hold the number modulo 2^120 |
| `Numeric.ExactUpTo36Digits` | ma_helper.c:1233-1263 | up to 36 digits nothing is lost |
| `Numeric.Limit` | ma_helper.c:1233-1263 | the limit lies between 10^36 and 10^38 |
| `Numeric.CharToSqlNumeric` | ma_helper.c:1114-1266 | overflow and unwritten-buffer cases exactly, sign and scale, and the struct denotes the number written if and only if it is representable |
| `Numeric.ExactIfRepresentable` | ma_helper.c:1188-1263 | the digits taken denote the number written if and only if it is representable |
| `Numeric.TooManyDecimals` | ma_helper.c:1188-1212 | a number with more significant decimals than the scale is denoted by no struct of that scale |
| `DsnKeys.NamesDiffer` | ma_dsn.c:36-112 | no two keys of the table have the same name, whatever the case |
| `DsnKeys.FindKey` | ma_dsn.c:558-560 | the key of that name, or none |
| `DsnKeys.MasksDiffer` | ma_dsn.c:36-112 | the option keys own different bits |
| `Dsn.DataSource.SetDefaults` | ma_dsn.c:136-141 | TCPIP, NO_SSPS and NO_CACHE are 1, every other field, text and bit is kept, and the result is consistent exactly when NamedPipe and its bit were off |
| `Dsn.DataSource.SetOptionValue` | ma_dsn.c:199-210 | the field is 1 or 0 and equals its bit; every other field and text and the bits of every other option are kept |
| `Dsn.DataSource.SwitchDependents` | ma_dsn.c:217-270 | setting one of NamedPipe and TCPIP resets the other, field and bit |
| `Dsn.DataSource.StoreValue` | ma_dsn.c:275-338 | the value is stored by the kind of the key and the switched key follows; an alias is refused |
| `Dsn.DataSource.UpdateOptionsFields` | ma_dsn.c:342-358 | every option field takes the value of its bit and TCPIP follows NamedPipe |
| `Dsn.AssignMirrors` | ma_dsn.c:199-358 | an option field equal to its bit stays so under every key, and becomes so when it or OPTIONS is set |
| `Dsn.AssignKeepsLinked` | ma_dsn.c:199-358 | every key keeps exactly one of NamedPipe and TCPIP set, and NamedPipe equal to its bit |
| `Dsn.DefaultsLinked` | ma_dsn.c:136-141 | the defaults are consistent, and NO_CACHE is the only option whose field differs from its bit |
| `Dsn.PrefixesKeepLinked` | ma_dsn.c:537-635 | it holds after every prefix of the pairs read |
| `Dsn.LastOccurrenceDecides` | ma_dsn.c:602-612 | every field has the value the last pair bearing on it gives, or the one it had |
| `Dsn.OwnOccurrenceDecides` | ma_dsn.c:564-612 | outside the linked group the last of a key's own pairs, aliases included, decides its field, whatever other pairs follow |
| `Dsn.LastOccurrenceDecidesBits` | ma_dsn.c:199-358 | the bits of an option in Options are what the last pair bearing on it gives: its own key, OPTIONS, or TCPIP for NamedPipe |
| `Dsn.LastOptionsDecidesRest` | ma_dsn.c:325-358 | every other bit of Options is that of the last OPTIONS pair, or the one it was |
| `ConnString.CopyBraced` | ma_dsn.c:571-594 | the loop over closing braces reads the braced value, doubled braces as one |
| `ConnString.ParseConnString` | ma_dsn.c:518-642 | the data source becomes the old one with the scanned pairs applied in order, and the result tells whether every key had an equals sign |
| `ConnString.DsnToString` | ma_dsn.c:670-740 | the printed text is the entries of the fields that are not empty, separated by semicolons, in table order |
| `ConnString.ReadsBackIff` | ma_dsn.c:569-600 | a printed value in front of another entry is read back, up to its end, if and only if it is trimmed and holds no closing brace when braces are printed, and no opening one at the start when not |
| `ConnString.ClosingBraceCuts` | ma_dsn.c:725-731 | a closing brace inside a value that needs braces is not doubled by the printer: what is read back ends in front of it |
| `ConnString.ClosingBraceCutsValue` | ma_dsn.c:725-731 | "a}b c" comes back as "a" |
| `ConnString.ScanPrinted` | ma_dsn.c:670-740 | scanning a printed data source gives one pair for every field that is not empty, in order |
| `ConnString.SignedRead` | ma_dsn.c:699-705 | a 32-bit number printed as signed is read back as the same word |
| `ConnString.WidenedRead` | ma_dsn.c:712-718 | a byte printed after sign extension to 16 bits is read back as the same byte |
| `ConnString.RoundTrip` | ma_dsn.c:518-740 | parsing the printed text into an all-zero data source gives a printable data source back |
| `ConnString.RoundTripIff` | ma_dsn.c:518-740 | with quotable texts, a data source comes back if and only if its flags are 0 or 1, its option fields equal their bits, and TCPIP is the opposite of NamedPipe unless Options is 0 |
| `ConnString.DefaultsDoNotReturn` | ma_dsn.c:136-141 | the default data source does not come back |
| `ConnString.PrintAndParse` | ma_dsn.c:518-740 | the round trip through the two operations |
| `ConnString.AlwaysLinked` | ma_dsn.c:537-635 | from the defaults, after every pair of any string, the linked group is consistent |
| `Association.Desc.RemoveRef` | ma_statement.c:139-158 | removes the first reference, or every reference but the ones stepped over |
| `Association.SkippingLeavesIff` | ma_statement.c:144-156 | the delete-all loop leaves a reference behind if and only if two stand next to each other |
| `Association.SkippingIsWithout` | ma_statement.c:144-156 | without duplicates it removes exactly the one there is |
| `Association.Connection.SetStmtAttr` | ma_statement.c:3578-3638 | the errors exactly, HY017 for another implicit descriptor and HY024 for the wrong type, the descriptor in use afterwards, and the relation kept |
| `Association.Connection.Detach` | ma_statement.c:3602-3606 | back to the statement's own descriptor, with the relation kept |
| `Association.Connection.Attach` | ma_statement.c:3592-3600 | the descriptor takes its type and learns of the statement, once |
| `Association.Connection.DescFree` | ma_desc.c:113-171 | every statement using the descriptor falls back on its own, no other pointer changes, and no statement points at a freed descriptor |
| `Association.Connection.FreeRecords` | ma_statement.c:293-303 | SQL_UNBIND and SQL_RESET_PARAMS detach an explicit descriptor from all its statements, which fall back on their own, and leave every other pointer alone |
| `Association.Connection.Drop` | ma_statement.c:305-342 | a dropped statement is referenced by no descriptor |
| `Association.Connection.AllocStmt` | ma_statement.c:32-68 | a new statement uses its own descriptors |
| `Association.Connection.AllocDesc` | ma_desc.c:75-109 | a new explicit descriptor has no type and no statements |
| `Escape.Scanner.Unescape` | ma_parse.c:87-198 | a level is read up to its closing brace or the end, its result is the text with every pair replaced by what the grammar makes of it, and the grammar is called on the pairs innermost first |
| `Escape.UnescapeQuery` | ma_parse.c:87-198 | success means balanced braces, the meaning of the one reading of the query, and the grammar called on its pairs, innermost first; a rejected text is the inside of the first pair of braces outside quoted strings on which the grammar fails; any other failure means unbalanced braces |
| `Escape.BalancedByClose` | ma_parse.c:103-125 | braces balance exactly when the open ones close and the rest balances |
| `Escape.OneStepPerPair` | ma_parse.c:118-150 | one grammar step for every pair |
| `Escape.ReadsUnique` | ma_parse.c:94-189 | a query has only one reading as text, quoted strings and pairs of braces |
| `Escape.ReadsFlatten` | ma_parse.c:94-189 | nothing of the query is left out of its reading |
| `Escape.NoBracesUnchanged` | ma_parse.c:151-187 | a query without braces outside quoted strings is copied unchanged |
| `LinkedList.List.Add` | ma_legacy_helpers.c:40-53 | the element stands in front of the given node, prev and next stay inverse, and it is answered, though it is the root only in front of the first |
| `LinkedList.List.Unlink` | ma_legacy_helpers.c:56-65 | what is written, whether the element is in the list or not |
| `LinkedList.List.Delete` | ma_legacy_helpers.c:56-65 | the traversal loses exactly the element; for an element deleted before, the list stays as it is if and only if the neighbours it had follow each other or are both gone |
| `LinkedList.List.Reverse` | ma_legacy_helpers.c:92-105 | the traversal is reversed and the list well formed |
| `LinkedList.ReverseTwice` | ma_legacy_helpers.c:92-105 | reversing a list twice gives it back |
| `LinkedList.AddAndDelete` | ma_legacy_helpers.c:40-65 | deleting an element just added gives the list back |
| `DescriptorList.Connection.Alloc` | ma_desc.c:75-109 | a new descriptor stands first in the list |
| `DescriptorList.Connection.Free` | ma_desc.c:113-171 | the first free takes a descriptor off the list; one more, after a free of the records only, keeps the list if and only if the neighbours it had follow each other or are both gone |
| `DescriptorList.AllListedIff` | ma_desc.c:160-168 | the list is that of all live descriptors exactly as long as none has had only its records freed |
| `DescriptorList.LostDescriptor` | ma_desc.c:160-168 | allocate, free the records, allocate another, free the first: the list is empty and the other lives |

## Left out

- Dynamic cursors, bookmarks and SQLSetPos between fetches: the position is clamped or moved without the remembered row pointer.
- The aggregate return code of a scrollable block fetch: row 0 is processed last and overwrites it. Conversion errors of single columns are not modelled.
- Tokenizer.Query.ParseQuery: the names of cursors are not modelled; trimming of the query before the scan and FixIsoFormat only shorten the text.
- ClientSide.SplitBatch: positioned commands, SQL_ATTR_MAX_ROWS, which wraps the query, and server-side prepared statements.
- ClientSide.InsertParams: how a value becomes a literal (escaping, type conversion) and the server's answer are parameters; what happens once a negative length is copied.
- TupleList.BatchesAreTuplesIff: that markers lie outside strings, and literals are atoms, is asked of the text and the literals.
- ClientSide.RunRows: affected-row counts, result retrieval and the retry of statements the server does not support.
- ClientSide.RunBatches: affected-row counts.
- DataAtExec.Statement.PutData: one parameter set; wide-character conversion and allocation failure.
- DataAtExec.Statement.Execute: positioned updates and SQLSetPos with data at execution; several statements in one query.
- GetData.Row.Get: NULL columns, wide characters, fixed-length types, binary columns read as hexadecimal text, and character data into an empty buffer without an indicator, where the terminator is written in front of the buffer.
- Numeric.CharToSqlNumeric: negative scale, malformed text, more than 100 characters and a precision above 38; the reverse conversion.
- ConnString.ParseConnString: the delimiter NUL, an embedded NUL, and the in-place cutting of the scratch copy, none of whose bytes is read again; numbers are read with a 64-bit long.
- ConnString.DsnToString: the 2048-byte buffer; the text is unbounded in the model.
- ConnString.RoundTripIff: data sources with a text that is not quotable; such a value can still come back by chance when it is the last one printed.
- Dsn.DataSource.StoreValue: the mode that does not overwrite, which only reading a stored data source uses. A NULL text and an empty one are the same.
- Stored data sources, dialogs, TLS and SSO: profile I/O and flat settings.
- Association.Connection.DescFree: SQLCopyDesc; the connection's list of descriptors is a model of its own, DescriptorList.
- Escape.UnescapeQuery: the lexer and the grammar of escape sequences.
- Character sets, catalog functions, SQLGetInfo, error texts, locking, logging and server-side prepared execution: plumbing, flat tables or code of the client library.

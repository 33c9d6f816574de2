# Verification of the GizmoSQL core algorithms

This project models the parts of GizmoSQL whose behaviour is hard to see from reading one function at a time, and
proves what they are for: the table of sessions and the protocol that kills one, the cursor over parameter batches,
the scanners of SQL text, the layout of result tables, the bulk ingest transaction, the instrumentation queue, three
text codecs, and two caches that threads share. Code that changes state is written as classes, methods and loops of
the same shape as the original and proved against functions; what those functions mean is proved in lemmas beside
them. Concurrent code is a transition system whose steps are the critical sections.

Check everything with `dafny verify dfyconfig.toml`.

## Files

| file | subject |
|---|---|
| `Text.dfy` | trimming, searching, decimal numbers |
| `SqlLexer.dfy`, `SqlProcessor.dfy`, `ShellLoop.dfy`, `ShellCommands.dfy` | the client's lexical rules as an automaton, the incremental splitter, the script loop, and a script line by line |
| `InitCommands.dfy` | the regular expression that splits start-up commands, when it agrees with the client's lexer, and the loop over the pieces |
| `FunctionRewriter.dfy`, `RewrittenCalls.dfy`, `ScannersAgree.dfy`, `SqlLiterals.dfy` | the rewriter of `GIZMOSQL_...()` calls, what becomes of each of the nine, when it and the client's lexer agree on what is quoted, and when an inserted value is read back |
| `SessionTable.dfy`, `SessionProtocol.dfy`, `SessionKills.dfy`, `SessionRequests.dfy` | the critical sections of the session table, all their interleavings, what a kill answers and does in them, who may kill and what each request does alone |
| `SqliteBatchReader.dfy` | the statement with its bound parameters, and the resumable reader |
| `ColumnWidths.dfy`, `TabularOutput.dfy`, `TableReading.dfy`, `CsvOutput.dfy` | column widths, the box and table modes, what is read off a table, CSV |
| `BulkIngest.dfy`, `IngestOutcomes.dfy` | transaction guard, appender and ingest; the outcome of each pair of options |
| `InstrumentationRecords.dfy`, `WriteQueue.dfy` | records and what they queue; the queue, its writer and shutdown |
| `Json.dfy`, `LogFields.dfy` | compact JSON and a parser for it; fields smuggled through log messages |
| `ConnectionUri.dfy`, `UriReading.dfy` | the client's connection URI, and what is written in and read from one |
| `Jwks.dfy`, `Health.dfy` | the key cache, the health status and its watchers |

## What the proofs found

Where a property fails, a lemma named below says when it holds, for all inputs or all runs.

* **Kill reports a failure although it worked.** A request that meets a flagged session evicts it. If that happens
  between the flagging and `RemoveSession`, `KILL SESSION` answers "not found" although the id is killed for good
  (`KilledButReportedMissing`). And if the session is closed and opened again in that window, the session that
  is removed is one that was never flagged or interrupted (`KilledButNotFlagged`). A kill that has found a session
  answers OK if and only if the id is live at `RemoveSession` (`KillAnswersOKIfLive`), and then it removes the session
  it flagged if and only if nothing removed the id since it was found (`KillErasesWhatItFlagged`). If it answers "not
  found", the id is killed all the same if and only if a request for it has been refused or evicted, or another kill
  has succeeded, since it was found (`MissingThoughKilled`). The promise that matters holds in every interleaving:
  after an OK, no session of that id is handed out (`NoSessionAfterKill`).
* **A bulk ingest into a catalog without a schema can fill the wrong table.** The appender is opened on the bare table
  name, which is looked up in the current catalog. Rows go astray if and only if there are any, no interim table is
  used, no schema is given, and the catalog is another than the current one (`IngestIsAsExpected`, `RowsGoAstray`).
* **Start-up commands can hang the server**: the single semicolon does (`HangsOnASemicolon`). The `continue` for an
  empty command skips the increment of the iterator, so the loop ends if and only if no empty piece comes before the
  first failing command (`TerminatesUnlessEmptyPiece`). If no command fails, it hangs if and only if a semicolon with
  an even number of quotes behind it begins the text or follows another semicolon (`HangsOnText`).
* **The regular expression disagrees with a forward scan on an odd number of quotes** as soon as there is a semicolon
  (`RegexIsForwardSplit`). With the client's lexer it agrees if and only if the semicolons at top level are those with
  an even number of quotes behind them (`SplittersAgree`); an apostrophe in a comment is enough to part them
  (`ApostropheInComment`).
* **A statement whose parameter batches are all empty runs once**, with whatever was bound before. What is delivered are
  the results of the parameter rows if and only if there is one or that run has no results (`DeliverResults`).
* **The error of a dot command on the rest of a line is ignored** even with bail-on-error, unlike one on a line of its
  own (`InlineErrorIsIgnored`). After a failure a script goes on if and only if bail-on-error is off at that point or the
  failure is of that kind (`RunGoesOnAfterFailure`).
* **The exit code can be 0 although a statement failed**: if and only if the script ends in `.exit`
  (`ExitCodeTellsFailure`, `ExitHidesFailure`).
* **The test for two-character comparison operators in `ShouldAddAlias` never decides anything**: each operator ends in
  a character that was tested before, so the contract of `ShouldAddAlias` does without it.
* **The rewriter and the client disagree about backslashes and comments**: the rewriter lets a backslash protect a quote
  and knows no comments (`BackslashesAreNotShared`, `CommentsAreNotShared`). They agree on a text if and only if no
  backslash protects a closing quote with text behind it, and no quote or call stands in a comment
  (`RewriterAndLexerAgree`).
* **Values are inserted as they are.** An inserted literal is read back as the value if and only if the value has no
  quote, and the call has an alias or is not followed by a quote (`InsertedValueIsReadBack`, `ValueIsCutShort`).
* **A column can be shown wider than its content**, and another be dropped for that (`GrownAndDropped`,
  `WidenedByTheFooter`); `WiderThanContent` says exactly when.
* **A non-finite double arrives as null** in log fields (`FieldIsReadBack`), and a message without fields that happens
  to begin like an encoded one is altered (`MessageWithoutFields`).
* **The age of a verification key is bounded when it is checked, not when it is returned**: on the fast path the two are
  one moment; after a refresh a key can be older by whatever time passes before the second lookup
  (`ReturnedKeysWereFresh`, `AgeAtReturnIsNotBounded`).
* **A token can be verified with the key of one fetch and the algorithm of another** (`AlgorithmOfAnotherFetch`): if and
  only if a fetch has succeeded between the two lookups (`AlgorithmOfTheSameFetch`).
* **A write can be left in the queue for good** by a thread that passed the unlocked test of the shutdown flag
  (`RacingWriteIsStranded`): when the writer leaves, this can still happen if and only if there is such a thread
  (`StrandedIffPending`). The shutdown sequence rules it out, and applies every UPDATE, if no request is under way when
  it begins (`ShutdownSequence`); a record that a request still holds when shutdown is requested is not updated
  (`UpdatedUnlessHeld`).
* **A connection URI restores its configuration if and only if** the host has no `?` and neither the user name nor the
  roots path has an `&` (`UriRoundTrip`).

## Model

| member | source | states |
|---|---|---|
| `SessionTable.EraseSound` | src/duckdb/duckdb_server.cpp:866-880 | erasing and evicting keep killed and live ids disjoint, an erased id is not live, and killed ids stay killed |
| `SessionTable.AdmitSound` | src/duckdb/duckdb_server.cpp:923-954 | the write-lock re-check keeps killed and live ids disjoint; a session it hands out is the live one of its id and that id is not killed; a refused id is killed and not live |
| `SessionTable.Server.FastPath` | src/duckdb/duckdb_server.cpp:854-883 | what the read-lock lookup decides: killed, flagged, found or missing |
| `SessionTable.Server.EvictKilled` | src/duckdb/duckdb_server.cpp:869-877 | erases and marks killed; the metric drops only if there was a session |
| `SessionTable.Server.SlowPath` | src/duckdb/duckdb_server.cpp:923-954 | re-check and insertion; an earlier winner's session is reused, a flagged one evicted |
| `SessionTable.Server.GetClientSession` | src/duckdb/duckdb_server.cpp:850-955 | alone: refuses exactly killed or flagged ids, reuses the live session, or inserts a new one |
| `SessionTable.Server.FindSession` | src/duckdb/duckdb_server.cpp:1062-1069 | finds the session that a request for the id would be given or find marked, and none exactly when a request would be refused or build one |
| `SessionTable.Server.RemoveSession` | src/duckdb/duckdb_server.cpp:1071-1084 | erases, remembers a killed id only if it was live, reports whether it was |
| `SessionTable.Server.ReleaseAllSessions` | src/duckdb/duckdb_server.cpp:1027-1052 | empties the table; the metric drops by the number of sessions |
| `SessionProtocol.RunKeeps` | src/duckdb/duckdb_server.cpp:850-955 | in every run the table is sound, the history explains it, and sessions under construction have been handed to nobody |
| `SessionProtocol.NoSessionAfterKill` | src/enterprise/kill_session/kill_session_handler.cpp:89-106 | once a kill has returned OK, no later critical section hands out a session of that id, in any interleaving |
| `SessionProtocol.SameSessionUnlessRemoved` | src/duckdb/duckdb_server.cpp:923-954 | two successful calls for one id get the same object if and only if no removal of the id lies between them |
| `SessionProtocol.MetricCountsLiveSessions` | src/duckdb/duckdb_server.cpp:948-949 | the net of all metric changes is the number of live sessions |
| `SessionKills.LiveIsInTheLog` | src/duckdb/duckdb_server.cpp:850-955 | an id is live if and only if some session of it was handed out and nothing has removed it since |
| `SessionKills.KillAnswersOKIfLive` | src/enterprise/kill_session/kill_session_handler.cpp:89-106 | a kill that has found a session answers OK if and only if the id is live at its RemoveSession |
| `SessionKills.KillErasesWhatItFlagged` | src/enterprise/kill_session/kill_session_handler.cpp:89-106 | the session it erases is the one it found and flagged if and only if nothing removed the id between the find and the removal |
| `SessionKills.KillWorksUnlessRemoved` | src/enterprise/kill_session/kill_session_handler.cpp:89-106 | both together: OK for the session it flagged if and only if nothing removed the id in between |
| `SessionKills.KilledIsInTheLog` | src/duckdb/duckdb_server.cpp:850-955 | an id is killed if and only if a request for it has been refused or evicted, or a kill of it has answered OK |
| `SessionKills.MissingThoughKilled` | src/enterprise/kill_session/kill_session_handler.cpp:89-106 | a kill that does not find the session again answers KeyError; the id is killed all the same if and only if one of these has happened since it was found |
| `SessionKills.KilledButReportedMissing` | src/enterprise/kill_session/kill_session_handler.cpp:89-106 | for every id, a run in which the kill answers KeyError although the id ends up killed |
| `SessionKills.KilledButNotFlagged` | src/enterprise/kill_session/kill_session_handler.cpp:89-106 | for every id, a run in which the kill removes a session other than the one it flagged |
| `SessionRequests.KillsAreAuthorised` | src/enterprise/kill_session/kill_session_handler.cpp:55-87 | in every run, whatever a kill has found, missed or removed goes back to a request for that id with the licence and the role admin that was not aimed at its own session |
| `SessionRequests.RefusedKillDoesNothing` | src/enterprise/kill_session/kill_session_handler.cpp:55-80 | a request that lacks one of these changes neither the table, the flags nor the log, and its thread stays idle |
| `SessionRequests.KillAlone` | src/enterprise/kill_session/kill_session_handler.cpp:89-106 | a permitted kill that nobody interferes with flags the live session, erases it, remembers the id and answers OK, and changes no other id |
| `SessionRequests.KillMissesAlone` | src/enterprise/kill_session/kill_session_handler.cpp:89-94 | without a session of the id it says so and changes nothing |
| `SessionRequests.UseAlone` | src/duckdb/duckdb_server.cpp:850-955 | alone: a killed id is refused, a missing session is built, a live one handed out, a flagged one erased and its id killed |
| `SessionRequests.CloseAlone` | src/duckdb/duckdb_server.cpp:1071-1084 | alone: the session is erased and its id may be used again |
| `SessionRequests.ShutdownAlone` | src/duckdb/duckdb_server.cpp:1027-1052 | the table is emptied and the metric falls by the number of sessions |
| `SqliteBatchReader.Statement.SetParameters` | src/sqlite/sqlite_statement.cc:204-224 | keeps the non-empty batches, in order |
| `SqliteBatchReader.Statement.Bind` | src/sqlite/sqlite_statement.cc:226-240 | refuses indices out of range, otherwise binds that row |
| `SqliteBatchReader.Statement.Step` | src/sqlite/sqlite_statement.cc:168-178 | delivers the next row of the bound run, its end, or its failure |
| `SqliteBatchReader.Reader.ReadNext` | src/sqlite/sqlite_statement_batch_reader.cc:116-235 | returns exactly the next up to 16384 rows still owed, null exactly when none are, an error exactly when the failure falls into this batch |
| `SqliteBatchReader.Create` | src/sqlite/sqlite_statement_batch_reader.cc:90-106 | the extra step leaves all results still to be read; fails only if the first run fails before its first row |
| `SqliteBatchReader.ReadAll` | src/sqlite/sqlite_statement_batch_reader.cc:116-235 | reading to the end yields the chunks of the flat result, or a prefix of them when a run fails; null stays null |
| `SqliteBatchReader.ChunksAreTheRows` | src/sqlite/sqlite_statement_batch_reader.cc:152-153 | the chunks concatenate to the rows; all have 1 to 16384 rows and all but the last are full |
| `SqliteBatchReader.FlatIsResults` | src/sqlite/sqlite_statement_batch_reader.cc:195-216 | what is owed is the concatenation of the results of each parameter row in order, up to the first run that fails |
| `SqliteBatchReader.RowsAreOwed` | src/sqlite/sqlite_statement.cc:204-224 | after parameters with at least one row have been set, the results of every parameter row of every batch are owed |
| `SqliteBatchReader.DeliverResults` | src/sqlite/sqlite_statement_batch_reader.cc:90-235 | parameters set, reader created and read to the end: fails if and only if some run does; the emitted batches concatenate to the results of every parameter row if and only if there is one or the idle run has no results; all are full but the last |
| `SqliteBatchReader.NoRowsRunsOnce` | src/sqlite/sqlite_statement.cc:216-223 | if all batches are empty the statement is run once, with the old binding |
| `SqlLexer.FirstTopCorrect` | src/client/sql_processor.cpp:25-80 | the reference: the first semicolon outside quotes and comments |
| `SqlLexer.QuotedStretch` | src/client/sql_processor.cpp:44-60 | quoted text goes on up to the next quote of its kind and no further |
| `SqlLexer.LineComment` | src/client/sql_processor.cpp:67-69 | two dashes begin a comment that ends at the end of the line |
| `SqlLexer.BlockComment` | src/client/sql_processor.cpp:36-42 | a slash and a star begin a comment that ends at the next star and slash and no earlier |
| `SqlLexer.PlainStretch` | src/client/sql_processor.cpp:31-76 | without quotes, double dashes and slash-stars everything is at top level |
| `SqlProcessor.TokenStep` | src/client/sql_processor.cpp:31-76 | one round of the two-character scanner is one or two steps of the one-character lexer |
| `SqlProcessor.Processor.AccumulateLine` | src/client/sql_processor.cpp:25-80 | the flags are those of a one-pass lexer on the joined lines; true exactly at its first top-level semicolon, which is remembered |
| `SqlProcessor.Processor.GetStatement` | src/client/sql_processor.cpp:82-95 | the trimmed text before the semicolon, or all of it |
| `SqlProcessor.Processor.GetRemainder` | src/client/sql_processor.cpp:97-106 | the text after the semicolon without leading blanks |
| `SqlProcessor.Processor.Reset` | src/client/sql_processor.cpp:108-114 | back to an empty, outside state |
| `ShellLoop.ProcessLines` | src/client/shell_loop.cpp:164-230 | runs the statements and dot commands of the reference in order, stops where it says under the bail-on-error setting of that moment, and returns its exit code |
| `ShellLoop.ProcessRemainder` | src/client/shell_loop.cpp:195-214 | the inner loop ends because the remainder shrinks, and runs what the reference says |
| `ShellLoop.EventsArePieces` | src/client/shell_loop.cpp:170-229 | what the line-by-line reference executes is what whole-text splitting gives |
| `ShellCommands.DotCommandsHaveDotForm` | src/client/command_processor.cpp:100-103 | a dot command is a line with a dot that has nothing but blanks and tabs before it |
| `ShellCommands.EventsLineByLine` | src/client/shell_loop.cpp:170-229 | the meaning of a script is that of its lines one after the other: what each adds to the text under way, which statements it completes, whether it or its rest is a command |
| `ShellCommands.WhichLinesAreCommands` | src/client/shell_loop.cpp:175-181 | in every script, the commands on lines of their own are exactly the lines of that form that begin while no statement is under way, in order |
| `ShellCommands.BlanksAreSkipped` | src/client/sql_processor.cpp:97-106 | the rest of a line begins at its first character that is not a blank, tab or line end |
| `ShellLoop.ScriptRunsItsPieces` | src/client/shell_loop.cpp:164-230 | without dot commands, the statements are the non-empty pieces between top-level semicolons of the whole text, in order, the last one included |
| `ShellLoop.RunGoesOnAfterFailure` | src/client/shell_loop.cpp:170-229 | after a failed statement or dot command the run goes on if and only if bail-on-error is off after it or it was a dot command on the rest of a line |
| `ShellLoop.RunStopsAfter` | src/client/shell_loop.cpp:164-230 | a run with something left to do stops after an event if and only if it is the command to exit, or a failure with bail-on-error on other than that of a dot command on the rest of a line |
| `ShellLoop.BailIsTheLastSetting` | src/client/command_processor.cpp:311-322 | the setting is the one made by the last command that makes one |
| `ShellLoop.InlineErrorIsIgnored` | src/client/shell_loop.cpp:195-214 | a script in which such an error is passed over with bail-on-error on |
| `ShellLoop.ExitCodeTellsFailure` | src/client/shell_loop.cpp:164-230 | the exit code is 1 if and only if the run did not end in the command to exit and some statement failed, or some dot command on a line of its own while bail-on-error was on, switched by `.bail` or not; otherwise it is 0 |
| `ShellLoop.ExitHidesFailure` | src/client/shell_loop.cpp:175-181 | a script that fails and exits with 0 |
| `InitCommands.PairedIsEven` | src/common/gizmosql_library.cpp:99 | the lookahead matches if and only if an even number of quotes follows |
| `InitCommands.RegexIsForwardSplit` | src/common/gizmosql_library.cpp:99-101 | the pieces are those of a forward quote-aware scan if and only if the quotes are even or there is no semicolon |
| `InitCommands.SplittersAgree` | src/client/sql_processor.cpp:25-80 | on every text, the pieces are those of the client's lexer if and only if the semicolons at top level are those with an even number of quotes behind them |
| `InitCommands.SplittersAgreeOnSingleQuotes` | src/client/sql_processor.cpp:25-80 | on a text in which the lexer never meets a double quote or a comment, the lexer's pieces are those of the forward scan, and the regular expression gives them if and only if the quotes are even or there is no semicolon |
| `InitCommands.PlainTextsHaveOnlySingleQuotes` | src/client/sql_processor.cpp:25-80 | such is every text without double quotes, double dashes and slash-stars |
| `InitCommands.ApostropheInComment` | src/common/gizmosql_library.cpp:99-101 | a text with an apostrophe in a comment, which the lexer splits and the regular expression does not |
| `InitCommands.TerminatesUnlessEmptyPiece` | src/common/gizmosql_library.cpp:103-111 | the loop stops if and only if no empty piece comes before the first failing command |
| `InitCommands.EmptyPieceInText` | src/common/gizmosql_library.cpp:99-101 | there is an empty piece if and only if a semicolon with an even number of quotes behind it begins the text or follows another semicolon |
| `InitCommands.HangsOnText` | src/common/gizmosql_library.cpp:96-113 | if no command fails, the loop never ends if and only if the text has such a semicolon |
| `InitCommands.HangsOnASemicolon` | src/common/gizmosql_library.cpp:103-105 | the shortest text that hangs the server |
| `InitCommands.RunInitCommands` | src/common/gizmosql_library.cpp:96-113 | runs each piece once, in order, up to the first failure |
| `FunctionRewriter.ShouldAddAlias` | src/duckdb/duckdb_statement.cpp:179-277 | an alias exactly when no comparison precedes and the call is followed by an end, a separator or a SELECT keyword |
| `FunctionRewriter.CopyRegion` | src/duckdb/duckdb_statement.cpp:293-326 | copies a quoted region up to its closing quote, backslashes protecting the next character |
| `FunctionRewriter.Rewrite` | src/duckdb/duckdb_statement.cpp:291-484 | the output is the concatenation of the images of the segments |
| `FunctionRewriter.SegmentsCoverTheText` | src/duckdb/duckdb_statement.cpp:291-484 | the segments concatenate to the text |
| `FunctionRewriter.UnchangedIfNoCall` | src/duckdb/duckdb_statement.cpp:279-486 | the output equals the input if and only if there is no call outside quotes |
| `RewrittenCalls.CallIsReplaced` | src/duckdb/duckdb_statement.cpp:328-482 | wherever the scan stands at one of the nine names, in any case, it writes the literal of that name's own value, NULL for an empty instance id and true or false for the flag, and the name as an alias if one is wanted |
| `RewrittenCalls.OtherIsCopied` | src/duckdb/duckdb_statement.cpp:483-484 | a character outside quotes that begins none of them is copied |
| `RewrittenCalls.RegionIsCopied` | src/duckdb/duckdb_statement.cpp:293-326 | a quoted region is copied with its quotes |
| `RewrittenCalls.FromTheBeginning` | src/duckdb/duckdb_statement.cpp:287-291 | the rewritten text is what these make of the text from its beginning to its end |
| `RewrittenCalls.CallAlone` | src/duckdb/duckdb_statement.cpp:328-482 | a call by itself becomes its literal with the name as an alias |
| `RewrittenCalls.AliasRule` | src/duckdb/duckdb_statement.cpp:179-277 | an alias is wanted if and only if no comparison operator stands before the call, and behind it, blanks apart, is the end, a comma, a semicolon, a closing parenthesis or one of nine keywords |
| `FunctionRewriter.RewritingIsIdempotent` | src/duckdb/duckdb_statement.cpp:279-486 | rewriting twice is rewriting once, for every table of harmless names and literals |
| `FunctionRewriter.ServerTableIsGood` | src/duckdb/duckdb_statement.cpp:328-482 | the nine calls and their literals are such a table when each value, between quotes, is read by the scanner as one literal |
| `FunctionRewriter.PlainValuesClose` | src/duckdb/duckdb_statement.cpp:293-312 | which every value without quotes and backslashes is |
| `FunctionRewriter.ServerRewritingIsIdempotent` | src/duckdb/duckdb_statement.cpp:279-486 | so with such values the server's rewriting is idempotent |
| `SqlLiterals.LiteralIsReadBack` | src/duckdb/duckdb_statement.cpp:382-397 | a value between quotes is read by SQL as that value, ending at its closing quote, if and only if it has no quote in it and none follows |
| `SqlLiterals.ValueIsCutShort` | src/duckdb/duckdb_statement.cpp:382-397 | with a quote in the value, the literal ends there and the rest is read as SQL |
| `SqlLiterals.InsertedValueIsReadBack` | src/duckdb/duckdb_statement.cpp:328-482 | the literal of a call in the rewritten text is read back if and only if the value has no quote and the call has an alias or is not followed by a quote |
| `ScannersAgree.RegionAgrees` | src/duckdb/duckdb_statement.cpp:293-326 | the client's lexer is inside quotes throughout a region the rewriter skips, and outside after it, if and only if the quote that ends it is not protected by a backslash with text behind it |
| `ScannersAgree.RewriterAndLexerAgree` | src/client/sql_processor.cpp:25-80 | the scanners take the same characters for quoted, and calls are replaced only where the lexer is at top level, if and only if no backslash protects a closing quote with text behind it and no quote or call stands in a comment |
| `ScannersAgree.SharedTextsAgree` | src/client/sql_processor.cpp:25-80 | in particular on every text without backslashes and comments |
| `ScannersAgree.ServerNamesAreWords` | src/duckdb/duckdb_statement.cpp:328-482 | the nine names satisfy the condition on names of these statements |
| `ScannersAgree.BackslashesAreNotShared` | src/duckdb/duckdb_statement.cpp:297-299 | a text with a backslash before a quote: a call that the lexer sees at top level is left alone |
| `ScannersAgree.CommentsAreNotShared` | src/duckdb/duckdb_statement.cpp:293-312 | a text with an apostrophe in a comment: likewise |
| `ColumnWidths.FixNarrowColumns` | src/client/output_renderer.cpp:219-238 | within as many passes as columns the fixed columns are exactly those no wider than the fair share, and one is left |
| `ColumnWidths.LevelIsLargest` | src/client/output_renderer.cpp:223-238 | the level is the largest integer whose capped widths fit the budget |
| `ColumnWidths.NoBetterAllocation` | src/client/output_renderer.cpp:188-190 | raising the level for every cut column by one never fits: any allocation that gives each column at least the smaller of its width and level + 1 exceeds the budget |
| `ColumnWidths.CapColumnWidths` | src/client/output_renderer.cpp:191-258 | natural widths if they fit; otherwise max(4, level) for columns above the level, as many columns as fit, all of them and within the terminal if the level is at least four |
| `ColumnWidths.GrowsUnlessItFits` | src/client/output_renderer.cpp:240-246 | a column gets more than its natural width if and only if that is below four and capping all columns at it would exceed the budget |
| `ColumnWidths.GrownAndDropped` | src/client/output_renderer.cpp:240-258 | an input on which a column grows and the other is dropped, although both would fit |
| `TabularOutput.RenderCell` | src/client/output_renderer.cpp:404-418 | the cell has the column width plus three; a value that fits stands verbatim at the left or right end with blanks elsewhere, of one that does not there is the prefix that leaves room for the ellipsis |
| `TabularOutput.RenderCellCentered` | src/client/output_renderer.cpp:421-433 | likewise, with the value in the middle and the odd blank on the right |
| `TabularOutput.CellLengths` | src/client/output_renderer.cpp:262-272 | every kind of cell is as wide as its column and its padding |
| `TabularOutput.ComputeColumnWidths` | src/client/output_renderer.cpp:148-186 | the widest header, type or scanned value, and at least one |
| `TabularOutput.NaturalWidthCutsNothing` | src/client/output_renderer.cpp:519-524 | in its natural width no column cuts a header, a type or a row that is shown |
| `TabularOutput.TopAndBottomAreDisjoint` | src/client/output_renderer.cpp:508-517 | the rows shown at the top and the bottom are disjoint and together as many as are to be shown |
| `TabularOutput.PackFooter` | src/client/output_renderer.cpp:658-675 | all footer parts, in order, greedily packed in lines that fit |
| `TabularOutput.WidenedFits` | src/client/output_renderer.cpp:574-580 | widening the last column makes room for the longest footer part and narrows nothing |
| `TabularOutput.WiderThanContent` | src/client/output_renderer.cpp:519-580 | a column is shown wider than its content if and only if it is narrower than the minimum of four and capping all columns at its width would not fit, or it is the last one and the footer needs more room than cutting it has saved |
| `TabularOutput.WidenedByTheFooter` | src/client/output_renderer.cpp:574-580 | a table whose only column is widened by its footer |
| `TabularOutput.OutputIsRectangular` | src/client/output_renderer.cpp:618-689 | every line has the same display width |
| `TabularOutput.DataLineIsOneLine` | src/client/output_renderer.cpp:404-418 | a row comes out as one line on the terminal if and only if no value as it is shown has a line feed |
| `TabularOutput.HeaderLineIsOneLine` | src/client/output_renderer.cpp:421-433 | likewise for names and types |
| `TabularOutput.RenderTabular` | src/client/output_renderer.cpp:477-692 | the lines are head, body and foot of the specification for a layout whose widths are natural, capped and widened; all are equally wide |
| `TableReading.HeadShows` | src/client/output_renderer.cpp:618-640 | the first lines: a rule, and with headers the names, the types, each in the middle of its column, and another rule |
| `TableReading.BodyShows` | src/client/output_renderer.cpp:641-652 | line by line: the first rows, the dots if rows are left out or missing, the last rows; every value is shown in its cell, numbers on the right |
| `TableReading.FootShows` | src/client/output_renderer.cpp:654-689 | a rule, the footer from border to border, the bottom |
| `TableReading.FooterTells` | src/client/output_renderer.cpp:539-563 | the parts: the total, or the rows held and a plus; how many rows are shown if that is less; the columns, if several; how many are shown if some are dropped |
| `TableReading.PartsOnALine` | src/client/output_renderer.cpp:658-675 | parts on one line are two blanks apart |
| `TableReading.NaturalWidthIsNeeded` | src/client/output_renderer.cpp:519-524 | a natural width above one is that of a name, a type or a value that is shown |
| `TableReading.LinesFitTerminal` | src/client/output_renderer.cpp:574-580 | every line has the width the columns were fitted by, and fits in the terminal if and only if the longest footer part does and, with one column shown, that column |
| `CsvOutput.CsvEscape` | src/client/output_renderer.cpp:275-292 | quotes exactly the fields that need it and doubles the quotes in them |
| `CsvOutput.EscapeTells` | src/client/output_renderer.cpp:275-292 | a field without commas, quotes, CR and LF is written as it is; any other in quotes, with one more quote for each of its own |
| `CsvOutput.Render` | src/client/output_renderer.cpp:713-732 | writes the lines of the grid of header and cells |
| `CsvOutput.FieldRoundTrip` | src/client/output_renderer.cpp:275-292 | a reader of RFC 4180 section 2 gets back any field, commas, quotes, CR and LF included |
| `CsvOutput.GridRoundTrip` | src/client/output_renderer.cpp:713-732 | reading the output gives back the grid if and only if every line has a cell |
| `CsvOutput.RenderedTableReadsBack` | src/client/output_renderer.cpp:713-732 | for a table: if and only if it has a column or nothing is written |
| `BulkIngest.TransactionGuard.Commit` | src/duckdb/duckdb_server.cpp:89-100 | commits once; a failed commit has undone the transaction |
| `BulkIngest.TransactionGuard.Destroy` | src/duckdb/duckdb_server.cpp:79-87 | rolls back unless committed |
| `BulkIngest.AppendRow` | src/duckdb/duckdb_server.cpp:638-648 | a row of the right width arrives whole; otherwise a database exception, or one nobody catches if a cell cannot be converted |
| `BulkIngest.AppendRecordBatch` | src/duckdb/duckdb_server.cpp:629-651 | appends all rows of a batch, in order |
| `BulkIngest.Prepare` | src/duckdb/duckdb_server.cpp:1632-1671 | each option leaves the named table ready for appending, or nothing changed |
| `BulkIngest.ReadStream` | src/duckdb/duckdb_server.cpp:1692-1711 | appends all streamed rows and counts them, skipping metadata-only chunks |
| `BulkIngest.MoveInterim` | src/duckdb/duckdb_server.cpp:1715-1735 | moves the rows by column name, checks the count and drops the interim table |
| `BulkIngest.DoPutCommandStatementIngest` | src/duckdb/duckdb_server.cpp:1582-1746 | all or nothing: success means exactly the rows appended where the appender was opened and their count, anything else the database and transaction state of before; succeeds if acceptable unless the database fails, and only if acceptable |
| `BulkIngest.IngestIsAsExpected` | src/duckdb/duckdb_server.cpp:1677-1687 | a success does what was asked if and only if there were no rows or the appender was opened on the named table: via the interim table, with a schema, without a catalog, or in the current catalog |
| `BulkIngest.IngestedTables` | src/duckdb/duckdb_server.cpp:1715-1741 | what success leaves: old rows kept for append, only streamed rows for replace and create, interim gone; if the table was missed, the rows in the other one and none in the named one; all other tables untouched |
| `IngestOutcomes.WhenMissing` | src/duckdb/duckdb_server.cpp:1614-1671 | with a missing table an ingest can succeed exactly if that is not to fail, the stream reads cleanly, and the new table can be created and the table that is opened takes the rows |
| `IngestOutcomes.WhenExisting` | src/duckdb/duckdb_server.cpp:1632-1671 | with an existing one: never if that is to fail; appending needs all columns in the table, replacing a table that can be created, using it as it is one of the right width |
| `IngestOutcomes.Appended` | src/duckdb/duckdb_server.cpp:1715-1735 | appending keeps the old rows and puts the streamed ones behind them by column name, with defaults; the interim table is gone and nothing else changed |
| `IngestOutcomes.UsedAsIs` | src/duckdb/duckdb_server.cpp:1677-1711 | using the table as it is puts the streamed rows behind its own |
| `IngestOutcomes.Created` | src/duckdb/duckdb_server.cpp:1655-1671 | replacing a table or filling a missing one leaves the streamed columns and rows and no others |
| `IngestOutcomes.StreamedItem` | src/duckdb/duckdb_server.cpp:629-651 | what is streamed are the values of the cells, and nothing for a chunk of metadata |
| `BulkIngest.RowsGoAstray` | src/duckdb/duckdb_server.cpp:1677-1687 | an input whose rows land in the table of another catalog |
| `BulkIngest.AppendedValues` | src/duckdb/duckdb_server.cpp:1715-1718 | each streamed value of a named column ends up in that column of its row |
| `InstrumentationRecords.Manager.QueueWrite` | src/enterprise/instrumentation/instrumentation_manager.cpp:470-481 | queues the write unless disabled or shut down |
| `InstrumentationRecords.Manager.WriterThreadLoop` | src/enterprise/instrumentation/instrumentation_manager.cpp:483-511 | after the flag is set, executes what is queued, in order, and ends |
| `InstrumentationRecords.Manager.Shutdown` | src/enterprise/instrumentation/instrumentation_manager.cpp:513-525 | drains the queue once; a second call does nothing |
| `InstrumentationRecords.SessionRecord.Destroy` | src/enterprise/instrumentation/instrumentation_records.cpp:117-135 | one UPDATE with a status the database knows, the stop reason itself if it is one |
| `InstrumentationRecords.SessionLife` | src/enterprise/instrumentation/instrumentation_records.cpp:90-139 | one INSERT and one UPDATE that tells the last stop reason set, with a status the database knows |
| `InstrumentationRecords.SessionStatusTells` | src/enterprise/instrumentation/instrumentation_records.cpp:122-127 | the status is the stop reason if it is closed, killed, timeout or error, and otherwise closed |
| `InstrumentationRecords.ExecutionRecord.Finalize` | src/enterprise/instrumentation/instrumentation_records.cpp:232-267 | queues the UPDATE the first time only |
| `InstrumentationRecords.ExecutionRecord.Perform` | src/enterprise/instrumentation/instrumentation_records.cpp:201-230 | keeps the fields in agreement with the calls so far; the first finishing call queues their summary |
| `InstrumentationRecords.Live` | src/enterprise/instrumentation/instrumentation_records.cpp:174-267 | whatever is called in whatever order: one INSERT, then one UPDATE that summarises the calls up to the first finishing one |
| `InstrumentationRecords.UnfinishedTells` | src/enterprise/instrumentation/instrumentation_records.cpp:232-267 | an execution that was only fetched from is reported as executing, up to its destruction |
| `InstrumentationRecords.CompletedTells` | src/enterprise/instrumentation/instrumentation_records.cpp:201-207 | a completed one as a success, with the duration reported if there is one |
| `InstrumentationRecords.FinishedTells` | src/enterprise/instrumentation/instrumentation_records.cpp:208-230 | a failed, timed out or cancelled one as that, with the message of a failure |
| `WriteQueue.WritesAreConserved` | src/enterprise/instrumentation/instrumentation_manager.cpp:470-511 | in every run, executed, in flight and queued are the accepted writes in push order, none twice, each UPDATE behind its INSERT |
| `WriteQueue.ShutdownAppliesEveryUpdate` | src/enterprise/instrumentation/instrumentation_manager.cpp:483-525 | if all records were closed before shutdown was requested, then when the writer has left every INSERT has been executed and its UPDATE after it |
| `WriteQueue.ShutdownSequence` | src/common/gizmosql_library.cpp:1406-1427 | if no request holds a record or is inside QueueWrite when the server begins to release, then after the release and the shutdown every INSERT has been executed and its UPDATE after it |
| `WriteQueue.ReleaseAllReleases` | src/duckdb/duckdb_server.cpp:1027-1052 | clearing statements, then sessions, then the instance leaves none of them holding a record, from every state |
| `WriteQueue.UpdatedUnlessHeld` | src/common/gizmosql_library.cpp:1406-1427 | an inserted record has its UPDATE executed if and only if nobody holds it when shutdown is requested |
| `WriteQueue.StrandedIffPending` | src/enterprise/instrumentation/instrumentation_manager.cpp:493-495 | when the writer leaves, the run can still end with something accepted and not executed if and only if a thread has passed the test of the flag and not pushed yet |
| `WriteQueue.RacingWriteIsStranded` | src/enterprise/instrumentation/instrumentation_manager.cpp:472-479 | a run in which that happens |
| `WriteQueue.CanFinish` | src/enterprise/instrumentation/instrumentation_manager.cpp:483-511 | from every state after the request the writer can take and execute what is queued, in order, and leave |
| `WriteQueue.OneRecord` | src/enterprise/instrumentation/instrumentation_records.cpp:232-267 | a run from a record's construction to the writer's end that executes its INSERT and then its UPDATE |
| `Json.RoundTrip` | src/common/gizmosql_logging.cpp:158 | parsing the compact text of a JSON value gives the value back, nested values and all escapes of section 7 of RFC 8259 included |
| `Json.EscapesAre` | src/common/gizmosql_logging.cpp:158 | exactly quotes, backslashes and control characters are escaped, and how |
| `Json.PutKeeps` | src/common/gizmosql_logging.cpp:152-157 | assigning a member keeps the object sorted and updates it as a map |
| `LogFields.EncodeFieldsForMessage` | src/common/gizmosql_logging.cpp:150-159 | nothing for no fields, otherwise the marker, the compact object into which the fields were put one after the other, and a space |
| `LogFields.EncodedLooksLike` | src/common/gizmosql_logging.cpp:45 | what is sent begins with [[KV]] and ends with a space, and what is in between is read as the object |
| `LogFields.ObjectHasTheFields` | src/common/gizmosql_logging.cpp:152-157 | the object built from the fields is sorted, printable, and is their map |
| `LogFields.TryExtractFieldsFromMessage` | src/common/gizmosql_logging.cpp:162-219 | the scanning loop computes what the recursive scanner says, text and fields |
| `LogFields.ScannerFindsTheClosingBrace` | src/common/gizmosql_logging.cpp:168-215 | for every compactly printed object the scanner stops at its own closing brace |
| `LogFields.FieldsRoundTrip` | src/common/gizmosql_logging.cpp:150-219 | extracting from encoded fields followed by a message gives the same object and exactly the message |
| `LogFields.FieldIsReadBack` | src/common/gizmosql_logging.cpp:153-157 | the last field of a key is read back as written if and only if it is not a non-finite double |
| `LogFields.MessageWithoutFields` | src/common/gizmosql_logging.cpp:163-166 | a message without fields arrives unchanged if and only if it does not begin like an encoded one with a closed object |
| `ConnectionUri.BuildConnectionURI` | src/client/client_config.cpp:213-240 | host, port and exactly the parameters that are not the default, with the right separators |
| `UriReading.ParamsTell` | src/client/client_config.cpp:222-236 | which parameters are there, with their names and values spelled out |
| `UriReading.ParamsInOrder` | src/client/client_config.cpp:222-236 | and in which order |
| `ConnectionUri.ParseQueryString` | src/client/client_config.cpp:140-151 | splits at ampersands and at the first equals sign; the last value of a key counts |
| `ConnectionUri.ClientConfig.ParseConnectionURI` | src/client/client_config.cpp:155-211 | what is parsed into which setting; a bad port fails after the host has been stored |
| `UriReading.ParamRead` | src/client/client_config.cpp:140-151 | a single parameter is read with its value, equals signs in it included |
| `UriReading.SettingsRead` | src/client/client_config.cpp:188-208 | each name sets its own setting and any other none |
| `UriReading.BoolRule` | src/client/client_config.cpp:29-33 | a flag is set by 1 and by true in any case, and by nothing else |
| `UriReading.HostPortRead` | src/client/client_config.cpp:175-187 | the text behind the last colon is the port; a bad one is noticed after the host has been taken |
| `UriReading.HostRead` | src/client/client_config.cpp:186-188 | without a colon everything is the host |
| `UriReading.SchemeRule` | src/client/client_config.cpp:155-162 | what is before the first colon and two slashes is dropped |
| `UriReading.StoiReads` | src/client/client_config.cpp:180 | blanks, a sign, digits and whatever follows; the number has to fit in 32 bits |
| `UriReading.StoiFails` | src/client/client_config.cpp:180-184 | without a digit after the sign there is no port |
| `ConnectionUri.QueryRoundTrip` | src/client/client_config.cpp:140-151 | a written query is read as the parameters it was written from |
| `ConnectionUri.StoiRoundTrip` | src/client/client_config.cpp:180 | a 32-bit port is read back from its decimal text |
| `ConnectionUri.ParsedIsRestorable` | src/client/client_config.cpp:155-211 | no URI yields a host with a question mark or a name or path with an ampersand |
| `ConnectionUri.UriRoundTrip` | src/client/client_config.cpp:155-240 | the built URI restores the settings if and only if the host has no question mark and user name and roots path no ampersand |
| `Jwks.JwksManager.FetchAndParseJwks` | src/enterprise/jwks/jwks_manager.cpp:105-188 | replaces the cache by the usable keys if there are any, otherwise changes nothing |
| `Jwks.JwksManager.RefreshKeys` | src/enterprise/jwks/jwks_manager.cpp:90-103 | fetches only if the last success is five seconds old |
| `Jwks.JwksManager.GetKeyForKid` | src/enterprise/jwks/jwks_manager.cpp:29-58 | alone: the fresh cached key, or the key after a refresh, or the failure of the fetch |
| `Jwks.JwksManager.GetAlgorithmForKid` | src/enterprise/jwks/jwks_manager.cpp:60-88 | alone: likewise, for the algorithm published with the key |
| `Jwks.KeysAreUsable` | src/enterprise/jwks/jwks_manager.cpp:126-169 | a key id is in the new cache if and only if a usable key was published under it |
| `Jwks.LastPublicationCounts` | src/enterprise/jwks/jwks_manager.cpp:126-169 | of several usable publications under one id the last one counts, with its algorithm |
| `Jwks.FirstLookDecides` | src/enterprise/jwks/jwks_manager.cpp:29-42 | a key is served without a fetch if and only if the cache is younger than the TTL and has it |
| `Jwks.RefreshDecides` | src/enterprise/jwks/jwks_manager.cpp:90-103 | a fetch is made if and only if the last success is five seconds old or there is none; it replaces the cache if it brings a usable key, and otherwise the call fails |
| `Jwks.SecondLookDecides` | src/enterprise/jwks/jwks_manager.cpp:47-57 | after the refresh the key of the cache is served if it is there |
| `Jwks.ReturnedKeysWereFresh` | src/enterprise/jwks/jwks_manager.cpp:29-103 | in every interleaving a key returned by the first lookup is younger than the TTL when it is returned, one returned after a refresh is younger than five seconds and the delay since the check; successful fetches are 5 s apart, and a key reported missing was missing |
| `Jwks.CacheChangesOnlyBySuccess` | src/enterprise/jwks/jwks_manager.cpp:171-178 | no step but a delivering fetch changes the cache |
| `Jwks.AgeAtReturnIsNotBounded` | src/enterprise/jwks/jwks_manager.cpp:44-54 | for every delay there is a run that returns a key that much later than it was checked |
| `Jwks.AlgorithmOfTheSameFetch` | src/common/gizmosql_security.cpp:604-615 | in every run the key and the algorithm of one token come from the same fetch if and only if no fetch has succeeded between the two lookups; then they were published together, and otherwise only can the algorithm be reported missing |
| `Jwks.AlgorithmOfAnotherFetch` | src/common/gizmosql_security.cpp:604-615 | for any two publications of the key, a run that takes the key from the first and the algorithm from the second |
| `Health.Service.Poll` | src/common/health_service.cpp:72-81 | the status follows the check and the version counts its flips |
| `Health.Service.Check` | src/common/health_service.cpp:87-113 | the initial status flipped once per version |
| `Health.StreamsAlternate` | src/common/health_service.cpp:147-178 | a stream never sends a status twice in a row, its versions strictly increase and carry the statuses, and its last one is the last one seen |
| `Health.SentVersionsDifferByOdd` | src/common/health_service.cpp:166-177 | between two sends an odd number of changes happened |
| `Health.Wait` | src/common/health_service.cpp:150-159 | if it ends on the version the watcher knows, every poll meanwhile found the same status; woken after every poll, it ends on that version or the next |
| `Health.Watch` | src/common/health_service.cpp:115-182 | whatever polls come in between, what is sent is the stream of what was seen; in an undisturbed watch a round that shows no new version has missed no change, and a watch that is woken after every poll sends every version |

## Left out

- Arrow, DuckDB and SQLite themselves: a result list per bound row, a map of tables with a snapshot for the open transaction, an outcome per call.
- What becomes of the algorithm of a token: the header's is taken if none or an empty one was found, and a verifier is chosen by it; neither is modelled.
- Line feeds in the width of a table: a line feed counts as one column, so the rectangle is that of the rendered lines; DataLineIsOneLine says which of them come out as one line.
- gRPC, Flight, HTTP, TLS, tokens, licences: foreign libraries; a failed request or write is a parameter.
- Concurrent ingests of several sessions: the database changes only through the one connection; whether a temporary table hides a stored one of the same name is DuckDB's, so a target is one name whether temporary or not.
- The catalog search path: a name without a catalog or a schema is in the current one, also for a catalog given without a schema, as the metadata query of the original has it.
- Case folding and casts in the INSERT by name, and NOT NULL constraints: names are compared as they are, a violated constraint is a failure of the database.
- 32-bit and 64-bit overflow of widths, counts and versions: unbounded integers; only the port and the log integers have a width.
- Conversion of bound SQLite parameters and result values, the check of the number of bound columns, and reading on after an error: a value is whatever was bound or delivered.
- The interactive shell, dot-command handlers, and lines with a line break in them: the script loop takes lines as they come from the stream.
- Full Unicode: a string is a sequence of characters; log strings that are not valid UTF-8, for which the JSON library throws, are not part of the model, nor are surrogate pairs in escapes.
- The digits of a finite double: a double is its decimal text.
- The nesting depth limits of the JSON and regular expression engines.
- The other renderers, and numeric alignment by type: a column is numeric or not.
- The merging of fields into the written log line, its time stamp, tag and source position.
- Liveness: that a writer or watcher is woken up, and real time. Safety, and termination of sequential loops, only.
- The logging of KILL SESSION, its instrumentation, and the interruption of the running query; that the three tests at its start are made in order is not observable here, because the refusals differ only in their text.
- The characters of the two border styles: a style is a parameter.
- Instrumentation of a session that loses the race to be admitted: in WriteQueue such a record is one more record with its own INSERT and UPDATE.
- Writes that fail in the database: the writer logs that and goes on, so here a write has been executed either way.
- InstrumentationRecords.Live: the setters of one execution are taken one after the other, and the clock is past zero, because the original uses time zero for "not set".
- InitCommands.RunInitCommands: stated for the inputs on which the loop ends, because a method here must end; TerminatesUnlessEmptyPiece says which those are, and StuckForever what happens on the others.

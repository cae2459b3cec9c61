# Verification of the UDF runner

This project models the stateful parts of the UDF runner and proves what they are relied on for. It has four
components, and two small algorithms.

**Script options.** A script may carry lines like `%key value;`. The parser is a generated shift-reduce parser:
a longest-match lexer, a table, a driver with two stacks and an error recovery, and rule functions that decode
escapes. `Lexer`, `Grammar` and `ShiftReduce` treat the machinery for every automaton and every table that is
consistent with its item sets. `ErrorRecovery` describes its recovery from syntax errors. `OptionLexer` and
`OptionTable` are the automaton and the table of the option grammar. `OptionText` is an independent reading of a
line on its characters; `OptionDriver` and `OptionAcceptance` prove that the table-driven parser computes it on
every line, errors included. On this rest exact acceptance (`OptionForm`), the scan of a script
(`ScriptOptions`), extents (`OptionExtents`), the print and parse round trip (`OptionRoundTrip`), the price of
the grammar's one conflict (`OptionConflict`) and the agreement with the older parser (`LegacyOptions`,
`ParserAgreement`).

**Row transfer.** `Packet` says when a message table holds a list of rows: one null bitmap, and five pools in
which NUMERIC, TIMESTAMP, DATE and STRING share one. `TableIterator` is the reader that recovers cells through
running counters, across packets; `ResultHandler` is the writer that cuts messages by accounted size;
`ForwardInput` composes them in the test container's VM, and with a reader of what was emitted.

**Waitable queue.** `EventFd` and `WaitableQueue` are the classes with their retry loops. `WakeupProtocol`
interleaves any number of producers and consumers system call by system call, with the same kernel functions.

**Session.** `SessionTrace` defines the legal traces of messages and VM calls by a monitor, and proves what holds
of them: what every reply and the end of every call into the VM decide. `Session` is the client process; its
methods keep the monitor's state, for any server and any VM.

**Graph search and rule grouping.** `DepSets` is the visited-set search of the mutation-testing configuration,
`RuleGrouping` the in-place sort and slicing of the grammar's rules.

Classes stand for the source's objects, arrays for what it changes in place; lists and maps that it grows are
fields of sequence or map type. Bytes are characters. Integers are unbounded except where the source's width
matters: the 32-bit line and column counters wrap around, sizes computed from them wrap at 64 bits, and the
notification count saturates.

Some behaviours that a reader may not expect are modelled as the code has them: errors in script options count
lines from 0, a failed `next()` of the result handler leaves its message unusable until the handler is
reinitialised, the boolean getter returns true for a missing column, and in single-call mode a CLOSE from the
server in answer to a result or a DONE does not end the session.

## Model

| member | source | states |
|---|---|---|
| Lexer.LongestMatch | udf-runner-cpp/v1/base/script_options_parser/ctpg/ctpg.hpp:1428-1478 | For every automaton and input, the match is the longest prefix whose run ends in a recognising state, with that state's first term; no term exactly when no prefix qualifies |
| Lexer.Match | udf-runner-cpp/v1/base/script_options_parser/ctpg/ctpg.hpp:1428-1478 | The matching loop over state and iterator ends and computes that match |
| Text.Update | udf-runner-cpp/v1/base/script_options_parser/ctpg/ctpg.hpp:806-827 | The position update loop: line, 32-bit column and offset after a consumed text |
| Text.AdvanceInLine | udf-runner-cpp/v1/base/script_options_parser/ctpg/ctpg.hpp:806-827 | On a text without newline the line stays, and the column counts modulo 2^32 |
| Text.AdvanceCounts | udf-runner-cpp/v1/base/script_options_parser/ctpg/ctpg.hpp:806-827 | The position behind a text: the line counts its newlines, the column the characters behind the last one, both modulo 2^32, and the offset all characters |
| OptionLexer.CharClasses | udf-runner-cpp/v1/base/script_options_parser/ctpg/script_option_lines_ctpg.cc:93-97 | The tests for blanks and word characters decide exactly the characters listed in the patterns |
| OptionLexer.EscapeMeanings | udf-runner-cpp/v1/base/script_options_parser/ctpg/script_option_lines_ctpg.cc:56-89 | Which characters form an escape, and the code points that the eight escapes stand for |
| OptionLexer.RecognisesPatterns | udf-runner-cpp/v1/base/script_options_parser/ctpg/script_option_lines_ctpg.cc:93-107 | The option automaton recognises a text as a term exactly when that term's pattern, written over literal texts and character lists, matches it and no pattern of a lower term does |
| OptionLexer.NextToken | udf-runner-cpp/v1/base/script_options_parser/ctpg/script_option_lines_ctpg.cc:93-118 | At every position of every line the matcher finds a token, and it is the one described on characters |
| OptionLexer.TokenMatchesPattern | udf-runner-cpp/v1/base/script_options_parser/ctpg/script_option_lines_ctpg.cc:93-118 | Every token matches its own pattern and none of a lower-numbered term |
| OptionLexer.TokensCoverLine | udf-runner-cpp/v1/base/script_options_parser/ctpg/ctpg.hpp:2785-2837 | The tokens of a line concatenate back to the line |
| Grammar.TreeIsRightmostDerivation | udf-runner-cpp/v1/base/script_options_parser/ctpg/ctpg.hpp:2648-2672 | The reductions of a parse tree, bottom up and then reversed, are a rightmost derivation of exactly its leaves |
| ShiftReduce.ParseState.GetCurrentTerm | udf-runner-cpp/v1/base/script_options_parser/ctpg/ctpg.hpp:2785-2837 | The lookahead: the recovery token, the pending term, the end of input, or a fresh match, with the diagnostic when nothing matches |
| ShiftReduce.ParseState.Consume | udf-runner-cpp/v1/base/script_options_parser/ctpg/ctpg.hpp:2725-2731 | Consuming advances position and iterator to the end of the term |
| ShiftReduce.ParseState.Push | udf-runner-cpp/v1/base/script_options_parser/ctpg/ctpg.hpp:2626-2646 | A shift pushes one state and one value |
| ShiftReduce.ParseState.Pop | udf-runner-cpp/v1/base/script_options_parser/ctpg/ctpg.hpp:2684-2706 | Recovery pops one state and at most one value, and tells whether a state is left |
| ShiftReduce.ParseState.ReduceBy | udf-runner-cpp/v1/base/script_options_parser/ctpg/ctpg.hpp:2648-2672 | A reduction replaces the handle on both stacks by the goto state and the rule function's value, or fails where that function throws |
| ShiftReduce.ParseState.Iterate | udf-runner-cpp/v1/base/script_options_parser/ctpg/ctpg.hpp:1948-2001 | One pass through the loop changes the whole parser state as the machine's step says, for every kind of table entry |
| ShiftReduce.HandleOnStack | udf-runner-cpp/v1/base/script_options_parser/ctpg/ctpg.hpp:2648-2672 | With a table consistent with its item sets, the right-hand side of a complete item lies on top of the stack |
| ShiftReduce.StepKeepsInv | udf-runner-cpp/v1/base/script_options_parser/ctpg/ctpg.hpp:1948-2001 | Every iteration keeps the invariant: cursors one longer than values, linked by item sets; values the fold of valid trees; tokens lexed so far; and no empty stack is indexed |
| ShiftReduce.RunSound | udf-runner-cpp/v1/base/script_options_parser/ctpg/ctpg.hpp:1935-2003 | The invariant over any number of iterations, and what a stop with a value means |
| ShiftReduce.Soundness | udf-runner-cpp/v1/base/script_options_parser/ctpg/ctpg.hpp:1935-2003 | For every consistent table and input: a returned value is the bottom-up fold of a parse tree over the tokens of the whole input, up to stretches that recovery replaced; without a diagnostic the reversed reductions are a rightmost derivation of exactly the tokens |
| ShiftReduce.ContextParse | udf-runner-cpp/v1/base/script_options_parser/ctpg/ctpg.hpp:1935-2003 | The parser loop ends when the machine does, with its outcome and diagnostics |
| ErrorRecovery.ErrorReported | udf-runner-cpp/v1/base/script_options_parser/ctpg/ctpg.hpp:1957-1973 | The first error is reported once, at the position of its term, and gives up the topmost state |
| ErrorRecovery.RecoveryFinds | udf-runner-cpp/v1/base/script_options_parser/ctpg/ctpg.hpp:1957-1973 | Recovery gives up states, with their values, down to the last one that has an entry for the recovery token; it reads and reports nothing |
| ErrorRecovery.RecoveryExhausted | udf-runner-cpp/v1/base/script_options_parser/ctpg/ctpg.hpp:1957-1973 | Without such a state the parse ends without a value |
| ErrorRecovery.RecoveryShifts | udf-runner-cpp/v1/base/script_options_parser/ctpg/ctpg.hpp:1985-1990 | The state found shifts the recovery token, and terms are skipped from there |
| ErrorRecovery.SkipsTerm | udf-runner-cpp/v1/base/script_options_parser/ctpg/ctpg.hpp:2772-2782 | A skipped term is read over and not reported, the end of the input ends the parse, and the first other entry ends the skipping |
| OptionTable.TableConsistent | udf-runner-cpp/v1/base/script_options_parser/ctpg/script_option_lines_ctpg.cc:116-182 | The option table is consistent with its item sets, so that the soundness of the driver applies to it |
| OptionDriver.MovesSimulated | udf-runner-cpp/v1/base/script_options_parser/ctpg/ctpg.hpp:1935-2003 | The driver on the option table follows the stack moves, up to the value or to the syntax error with its position and term |
| OptionDriver.RecoveryFails | udf-runner-cpp/v1/base/script_options_parser/ctpg/ctpg.hpp:1957-1973 | No rule uses the recovery token: recovery pops every state and the parse has no value |
| OptionAcceptance.ValueMoves | udf-runner-cpp/v1/base/script_options_parser/ctpg/script_option_lines_ctpg.cc:135-154 | Reading a value text shifts and reduces to the decoded text, or stops at its end |
| OptionAcceptance.OptionMoves | udf-runner-cpp/v1/base/script_options_parser/ctpg/script_option_lines_ctpg.cc:131-134 | Reading an option ends in its key, value and positions, or at the offset where it fails |
| OptionAcceptance.TextMoves | udf-runner-cpp/v1/base/script_options_parser/ctpg/script_option_lines_ctpg.cc:120-181 | Reading a whole line ends where the character-level reading ends |
| OptionAcceptance.LineOutcome | udf-runner-cpp/v1/base/script_options_parser/ctpg/script_option_lines_ctpg.cc:116-197 | On every line the table-driven loop stops, and answers as the character-level reading does: the same options with their positions, or one syntax error at the same offset |
| OptionAcceptance.ParseLine | udf-runner-cpp/v1/base/script_options_parser/ctpg/script_option_lines_ctpg.cc:184-197 | Running the parser on a line gives that answer |
| OptionText.TerminatorParity | udf-runner-cpp/v1/base/script_options_parser/ctpg/script_option_lines_ctpg.cc:93-154 | The semicolon that ends an option is the first one of the value text behind an even run of backslashes; every earlier one follows an odd run |
| OptionText.DecodeSplits | udf-runner-cpp/v1/base/script_options_parser/ctpg/script_option_lines_ctpg.cc:135-154 | Decoding goes piece by piece, where no piece ends inside an escape |
| OptionText.DecodePieces | udf-runner-cpp/v1/base/script_options_parser/ctpg/script_option_lines_ctpg.cc:56-71 | The pieces: a plain character, a backslash with each of the four escape characters, and a backslash with any other character, which stays |
| OptionText.DecodeStart | udf-runner-cpp/v1/base/script_options_parser/ctpg/script_option_lines_ctpg.cc:74-89 | The four escaped blanks are replaced at the start of a value, and only there |
| OptionForm.ExactAcceptance | udf-runner-cpp/v1/base/script_options_parser/ctpg/script_option_lines_ctpg.cc:116-182 | A line is accepted exactly when it is written as well-formed options and a tail that is empty (only after an option) or whose first nonblank is not %; its options are those written |
| OptionForm.WrittenAccepted | udf-runner-cpp/v1/base/script_options_parser/ctpg/script_option_lines_ctpg.cc:116-182 | From the written form to acceptance, at any position of a line |
| OptionForm.AcceptedWritten | udf-runner-cpp/v1/base/script_options_parser/ctpg/script_option_lines_ctpg.cc:116-182 | From acceptance back to a written form |
| OptionConflict.GrammarDerives | udf-runner-cpp/v1/base/script_options_parser/ctpg/script_option_lines_ctpg.cc:120-181 | The grammar alone derives every nonempty line that does not begin with %: there is a parse tree with exactly its tokens |
| OptionConflict.ParserIsGreedy | udf-runner-cpp/v1/base/script_options_parser/ctpg/ctpg.hpp:2450-2464 | The conflict resolved to shift: of lines with blanks and then % the parser accepts only those whose text from % on it accepts |
| OptionConflict.DerivableButRejected | udf-runner-cpp/v1/base/script_options_parser/ctpg/script_option_lines_ctpg.cc:120-181 | A blank and a percent sign: derived by the grammar, rejected by the parser |
| ScriptOptions.NextLineIsNextOptionLine | udf-runner-cpp/v1/base/script_options_parser/ctpg/script_option_lines_ctpg.cc:206-233 | Searching from the start of a line finds the next line that contains %, and passes over no such line |
| ScriptOptions.OptionLinesExact | udf-runner-cpp/v1/base/script_options_parser/ctpg/script_option_lines_ctpg.cc:206-233 | The lines found are exactly the lines of the script, between line breaks, that contain % |
| ScriptOptions.OptionLinesOrdered | udf-runner-cpp/v1/base/script_options_parser/ctpg/script_option_lines_ctpg.cc:206-233 | They are found in order, each once |
| ScriptOptions.CollectEnds | udf-runner-cpp/v1/base/script_options_parser/ctpg/script_option_lines_ctpg.cc:235-276 | A scan ends without an error if and only if every line is accepted, and has then added the options of all; otherwise it ends with the error of the first rejected line and has added those of the lines before it |
| ScriptOptions.AddOptions | udf-runner-cpp/v1/base/script_options_parser/ctpg/script_option_lines_ctpg.cc:253-268 | The loop that appends a line's options to the lists of their keys |
| ScriptOptions.LineNumber | udf-runner-cpp/v1/base/script_options_parser/ctpg/script_option_lines_ctpg.cc:247-251 | The line number of an error is the number of newline positions before the line |
| ScriptOptions.ParseOneLine | udf-runner-cpp/v1/base/script_options_parser/ctpg/script_option_lines_ctpg.cc:241-268 | One line adds its options to the map, or leaves it and reports line and diagnostics |
| ScriptOptions.ParseOptions | udf-runner-cpp/v1/base/script_options_parser/ctpg/script_option_lines_ctpg.cc:235-276 | The whole scan terminates and parses the lines that contain % in order; it reports no error if and only if all of them are accepted, and otherwise the diagnostic of the first rejected line, at the offset where its text is rejected, with the number of newlines before it; the options of exactly the lines before that one have been added |
| OptionExtents.ExtentExact | udf-runner-cpp/v1/base/script_options_parser/ctpg/script_option_lines_ctpg.cc:253-258 | Start and size recorded for an option are right if and only if its columns fit the 32-bit counters |
| OptionExtents.CollectAddsRecorded | udf-runner-cpp/v1/base/script_options_parser/ctpg/script_option_lines_ctpg.cc:235-276 | The resulting map is the initial one with the recorded options added in order |
| OptionExtents.LookupAddAll | udf-runner-cpp/v1/base/script_options_parser/ctpg/script_option_lines_ctpg.cc:259-267 | A key's list is its old list followed by its own options, in order |
| OptionExtents.ExtentsRecorded | udf-runner-cpp/v1/base/script_options_parser/ctpg/script_option_lines_ctpg.cc:235-276 | From an empty map the recorded extents start at %, end at a semicolon, are pairwise disjoint and increase strictly in each list, whether or not a line fails |
| OptionRoundTrip.DecodeEncode | udf-runner-cpp/v1/base/script_options_parser/ctpg/script_option_lines_ctpg.cc:56-89 | Decoding an encoded value gives the value back |
| OptionRoundTrip.EncodedEnds | udf-runner-cpp/v1/base/script_options_parser/ctpg/script_option_lines_ctpg.cc:131-154 | An encoded value ends at the semicolon printed behind it and not before |
| OptionRoundTrip.LineRoundTrip | udf-runner-cpp/v1/base/script_options_parser/ctpg/script_option_lines_ctpg.cc:116-182 | A printed line is parsed back to its keys and values in order |
| OptionRoundTrip.RoundTrip | udf-runner-cpp/v1/base/script_options_parser/ctpg/script_option_lines_ctpg.cc:235-276 | Any settings, printed over any lines, are parsed back without error: every key has exactly its values in order |
| LegacyOptions.ProcessOption | udf-runner-cpp/v1/base/script_options_parser/legacy/script_option_lines.cc:57-91 | The part that cuts out an option computes value and remaining code, or the error of the source |
| LegacyOptions.ProcessedExactly | udf-runner-cpp/v1/base/script_options_parser/legacy/script_option_lines.cc:14-55 | An option is processed if and only if its first occurrence has nothing but whitespace between the line break before it, or the start of the code, and itself; otherwise it is not found or ignored |
| LegacyOptions.OutcomeExactly | udf-runner-cpp/v1/base/script_options_parser/legacy/script_option_lines.cc:57-91 | By the characters behind a processed option: which of them make a missing value, which a missing end, and where in all other cases the option is cut out |
| LegacyOptions.ExtractOptionLine | udf-runner-cpp/v1/base/script_options_parser/legacy/script_option_lines.cc:11-104 | The extraction computes value, code and position; it reports a position or an exception if and only if the option is processed, and leaves the code alone without a position |
| LegacyOptions.LateCheckNeverFires | udf-runner-cpp/v1/base/script_options_parser/legacy/script_option_lines.cc:81-87 | The last check for a missing value can never fire |
| LegacyOptions.ExtractionConservesText | udf-runner-cpp/v1/base/script_options_parser/legacy/script_option_lines.cc:57-91 | With a one-character terminator the old code is prefix, option, blanks, value, blanks, terminator and suffix; the value is nonempty, trimmed and free of terminators and line breaks; the new code is prefix and suffix, and shorter |
| ParserAgreement.Agreement | udf-runner-cpp/v1/base/script_options_parser/legacy/script_option_lines.cc:11-104 | Where the new parser accepts the first % of a script as an option without backslash, the old extraction for that key reports the same start, erases the same extent and returns the value without trailing blanks |
| Packet.FilterAt | udf-runner-cpp/v1/base/exaudflib/impl/swig/swig_table_iterator.h:35-67 | A cell stands in its pool at the number of earlier non-null cells of the same pool |
| Packet.PackedAppend | udf-runner-cpp/v1/base/exaudflib/impl/swig/swig_result_handler.h:102-153 | Appending a flag and a value packs one more cell |
| Packet.PoolsOfTypes | udf-runner-cpp/v1/base/exaudflib/impl/swig/swig_result_handler.h:108-152 | Which column types share the string pool, and which have their own |
| Packet.SlotAt | udf-runner-cpp/v1/base/exaudflib/impl/swig/swig_table_iterator.h:133-144 | The cell of row k and column c is number k * columns + c |
| Packet.EncodingInjective | udf-runner-cpp/v1/base/exaudflib/impl/swig/swig_result_handler.h:98-163 | A message table determines its rows: no two lists of rows have the same encoding |
| TableIterator.ScanColumns | udf-runner-cpp/v1/base/exaudflib/impl/swig/swig_table_iterator.h:52-66 | The pass over one row hands every non-null column its pool index and advances the pool counters, and fails exactly on a non-null column of unsupported type |
| TableIterator.SWIGTableIterator.IncrementColOffsets | udf-runner-cpp/v1/base/exaudflib/impl/swig/swig_table_iterator.h:35-67 | Moving to a row of an encoded packet sets row number, counters and offsets for it; missing null flags are reported |
| TableIterator.SWIGTableIterator.ReceiveNextData | udf-runner-cpp/v1/base/exaudflib/impl/swig/swig_table_iterator.h:68-122 | What every kind of answer to NEXT or RESET does to the iterator |
| TableIterator.Acceptance | udf-runner-cpp/v1/base/exaudflib/impl/swig/swig_table_iterator.h:83-117 | Which answers bring rows, which only end them, and which exception every other one raises |
| TableIterator.NullValues | udf-runner-cpp/v1/base/exaudflib/impl/swig/swig_table_iterator.h:209-340 | The value that each getter returns for a null |
| TableIterator.ErrorValues | udf-runner-cpp/v1/base/exaudflib/impl/swig/swig_table_iterator.h:209-340 | The value that each getter returns for a missing column or one of another type |
| TableIterator.SWIGTableIterator.constructor | udf-runner-cpp/v1/base/exaudflib/impl/swig/swig_table_iterator.h:148-162 | A new iterator stands before all rows of the packets to come |
| TableIterator.SWIGTableIterator.Reinitialize | udf-runner-cpp/v1/base/exaudflib/impl/swig/swig_table_iterator.h:166-171 | So does a reinitialised one |
| TableIterator.SWIGTableIterator.Reset | udf-runner-cpp/v1/base/exaudflib/impl/swig/swig_table_iterator.h:193-197 | So does one that is reset, and the forced finish is withdrawn |
| TableIterator.SWIGTableIterator.Eot | udf-runner-cpp/v1/base/exaudflib/impl/swig/swig_table_iterator.h:190-192 | The end is reached exactly when no row remains |
| TableIterator.SWIGTableIterator.Next | udf-runner-cpp/v1/base/exaudflib/impl/swig/swig_table_iterator.h:172-189 | A successful step drops exactly the first remaining row, across packets; behind the end it is an error |
| TableIterator.SWIGTableIterator.CheckValue | udf-runner-cpp/v1/base/exaudflib/impl/swig/swig_table_iterator.h:123-144 | The index of a value, or which of the reasons for none |
| TableIterator.SWIGTableIterator.Get | udf-runner-cpp/v1/base/exaudflib/impl/swig/swig_table_iterator.h:209-345 | A getter of the column's type returns the cell of the current row, and wasNull holds exactly for null; a missing column or another type is an error |
| TableIterator.ReadRow | udf-runner-cpp/v1/base/exaudflib/impl/swig/swig_table_iterator.h:209-345 | Reading all columns of the current row gives that row |
| TableIterator.VisitRows | udf-runner-cpp/v1/base/exaudflib/impl/swig/swig_table_iterator.h:172-205 | Reading and advancing until the end visits exactly the concatenation of all packets' rows, and rowsCompleted is the 1-based position at each |
| ResultHandler.AccountedIs | udf-runner-cpp/v1/base/exaudflib/impl/swig/swig_result_handler.h:102-153 | The accounted size of rows is that of any message that holds them: eight bytes for each double and 64-bit integer, four for each 32-bit integer, one for each boolean, and four and its length for each text |
| ResultHandler.WriteCells | udf-runner-cpp/v1/base/exaudflib/impl/swig/swig_result_handler.h:98-153 | The loop over the columns succeeds exactly when every column is null or set and supported, and then adds all cells and their accounted size; otherwise the first other column decides about the exception |
| ResultHandler.PartialIsCorrupt | udf-runner-cpp/v1/base/exaudflib/impl/swig/swig_result_handler.h:98-153 | A message left in the middle of a row encodes no list of rows |
| ResultHandler.SWIGResultHandler.constructor | udf-runner-cpp/v1/base/exaudflib/impl/swig/swig_result_handler.h:36-43 | A new handler has sent and accepted nothing |
| ResultHandler.SWIGResultHandler.Reinitialize | udf-runner-cpp/v1/base/exaudflib/impl/swig/swig_result_handler.h:45-50 | Pending rows and set values are dropped, what was sent stays |
| ResultHandler.SWIGResultHandler.Flush | udf-runner-cpp/v1/base/exaudflib/impl/swig/swig_result_handler.h:54-97 | All pending rows are sent as one message, none is lost, and only the answer decides about an exception |
| ResultHandler.ReplyFaults | udf-runner-cpp/v1/base/exaudflib/impl/swig/swig_result_handler.h:69-94 | Which replies to EMIT raise which exception |
| ResultHandler.SWIGResultHandler.Next | udf-runner-cpp/v1/base/exaudflib/impl/swig/swig_result_handler.h:98-170 | A successful call accepts exactly the row that was set, tagged with the input's row number; a message is sent if and only if its doubles, integers, booleans and texts account for 4,000,000 bytes or more, so that without its last row it is below; in the both-EXACTLY_ONCE mode nothing is sent and the input is forced to finish then; a failed call leaves a message that decodes to nothing, and the exception of the first column that is neither null nor set |
| ResultHandler.SWIGResultHandler.Set | udf-runner-cpp/v1/base/exaudflib/impl/swig/swig_result_handler.h:171-274 | A setter of the column's type sets that column and no other; otherwise nothing is set |
| ResultHandler.SWIGResultHandler.SetString | udf-runner-cpp/v1/base/exaudflib/impl/swig/swig_result_handler.h:184-196 | The string setter keeps the text up to its first NUL |
| ResultHandler.CStringIs | udf-runner-cpp/v1/base/exaudflib/impl/swig/swig_result_handler.h:184-196 | That is its longest prefix without NUL |
| ResultHandler.SWIGResultHandler.SetNull | udf-runner-cpp/v1/base/exaudflib/impl/swig/swig_result_handler.h:275-277 | Marks one column null and changes no other |
| ForwardInput.NewTestVM | udf-runner-cpp/v1/test_container/test_container.cc:28-34 | The VM is refused exactly when a call type is not MULTIPLE |
| ForwardInput.TestVM.ForwardInput | udf-runner-cpp/v1/test_container/test_container.cc:67-86 | All input rows are forwarded: the rows sent are the input rows in order, each under its row number, and the two faults arise exactly where the source throws |
| ForwardInput.TestVM.ForwardRow | udf-runner-cpp/v1/test_container/test_container.cc:74-84 | One round of the loop moves one row from the input to the accepted output |
| ForwardInput.IdentityExactlyWithoutNul | udf-runner-cpp/v1/test_container/test_container.cc:74-84 | Forwarding is the identity exactly on rows whose strings contain no NUL |
| ForwardInput.ReadBack | udf-runner-cpp/v1/base/exaudflib/impl/swig/swig_result_handler.h:98-170 | Codec round trip for all supported column types: a reader of a handler's messages recovers the accepted rows, nulls included |
| ForwardInput.ForwardAndRead | udf-runner-cpp/v1/test_container/test_container.cc:67-86 | End to end: for any input packets and any re-chunking a reader of the emitted messages sees the input rows, and the same values exactly without NULs; every message without its last row is below 4,000,000 |
| EventFd.EventFd.ReadNotification | udf-runner-cpp/v2/linux_event_fd.cc:58-76 | The read loop ends with the first call that is not interrupted, and takes the whole count or reports the error |
| EventFd.EventFd.WriteNotification | udf-runner-cpp/v2/linux_event_fd.cc:78-96 | The write loop likewise; at the highest count the write would block and the count stays |
| WaitableQueue.WaitableQueue.Notify | udf-runner-cpp/v2/include/exasol/udf/v2/waitable_queue.hpp:131-155 | Interrupted writes are repeated, a saturated count is left; afterwards the count is positive unless a call failed |
| WaitableQueue.WaitableQueue.Enqueue | udf-runner-cpp/v2/include/exasol/udf/v2/waitable_queue.hpp:58-67 | A taken item is appended and announced, a refused one changes nothing; after a failed write the item stays |
| WaitableQueue.WaitableQueue.EnqueueBatch | udf-runner-cpp/v2/include/exasol/udf/v2/waitable_queue.hpp:69-86 | The longest prefix that the storage takes is appended, and announced once if it is nonempty |
| WaitableQueue.WaitableQueue.TryDequeue | udf-runner-cpp/v2/include/exasol/udf/v2/waitable_queue.hpp:88-92 | Takes the first item, and fails exactly on an empty queue |
| WaitableQueue.WaitableQueue.DrainNotifications | udf-runner-cpp/v2/include/exasol/udf/v2/waitable_queue.hpp:94-119 | Returns exactly the accumulated count and leaves zero, through any interruptions |
| WakeupProtocol.NoticedKept | udf-runner-cpp/v2/include/exasol/udf/v2/waitable_queue.hpp:58-119 | Every step that does not fail keeps: queued items are announced by the count, by a producer about to write, or by a consumer that is awake |
| WakeupProtocol.EnqueueTakes | udf-runner-cpp/v2/include/exasol/udf/v2/waitable_queue.hpp:58-67 | An insertion appends the value for its producer, which owes a notification then, or changes nothing |
| WakeupProtocol.BatchTakesPrefix | udf-runner-cpp/v2/include/exasol/udf/v2/waitable_queue.hpp:69-86 | Whatever the others do meanwhile, after n taken insertions exactly the first n values of a batch have been accepted from its producer, in order |
| WakeupProtocol.BatchEnds | udf-runner-cpp/v2/include/exasol/udf/v2/waitable_queue.hpp:69-86 | A batch ends with the first refusal or after its last value, and owes a notification exactly if any value was taken |
| WakeupProtocol.NoLostWakeup | udf-runner-cpp/v2/include/exasol/udf/v2/waitable_queue.hpp:58-119 | In every interleaving of any number of producers and consumers, saturation included: while no call has failed, queued items are announced, so that a waiting consumer wakes up or a producer still owes its write |
| WakeupProtocol.ItemsConserved | udf-runner-cpp/v2/include/exasol/udf/v2/waitable_queue.hpp:58-119 | In every run, faults included: items accepted are the items delivered followed by those queued, and signals written are those drained plus the count |
| WakeupProtocol.ConsumerEmptiesQueue | udf-runner-cpp/v2/include/exasol/udf/v2/waitable_queue.hpp:94-119 | From every such state with idle producers one consumer alone delivers all queued items in order and ends waiting with a zero count |
| WakeupProtocol.EveryItemArrives | udf-runner-cpp/v2/include/exasol/udf/v2/waitable_queue.hpp:58-119 | After any run without a failed call exactly the accepted items can still be delivered, in their order, without help from a producer |
| WakeupProtocol.DequeueFirstLosesWakeup | udf-runner-cpp/v2/include/exasol/udf/v2/waitable_queue.hpp:94-96 | The order asked for is needed: dequeuing before draining loses a wakeup |
| WakeupProtocol.FaultLosesWakeup | udf-runner-cpp/v2/include/exasol/udf/v2/waitable_queue.hpp:131-155 | One failed write leaves an item that nobody notices |
| Session.Session.SocketRecv | udf-runner-cpp/v1/base/exaudflib/impl/socket_low_level.cc:59-101 | A receive waits until an answer comes, and gives up after an error only where asked to |
| Session.Session.SendInit | udf-runner-cpp/v1/base/exaudflib/impl/socket_high_level.cc:22-241 | The handshake ends connected, refused with an exception noted, unanswered without one, or with limits that cannot be set |
| Session.Session.SendRun | udf-runner-cpp/v1/base/exaudflib/impl/socket_high_level.cc:274-398 | The replies to RUN: work, CLEANUP, or an exception |
| Session.Session.SendReturn | udf-runner-cpp/v1/base/exaudflib/impl/socket_high_level.cc:400-436 | The replies to a result |
| Session.Session.SendUndefinedCall | udf-runner-cpp/v1/base/exaudflib/impl/socket_high_level.cc:438-465 | The replies to an undefined call |
| Session.Session.SendDone | udf-runner-cpp/v1/base/exaudflib/impl/socket_high_level.cc:467-499 | The replies to DONE: another round, CLEANUP, or an exception |
| Session.Session.SendFinished | udf-runner-cpp/v1/base/exaudflib/impl/socket_high_level.cc:501-528 | The replies to FINISHED |
| Session.Session.SendClose | udf-runner-cpp/v1/base/exaudflib/impl/socket_high_level.cc:243-272 | A CLOSE is answered before the process goes on |
| Session.Session.CallVm | udf-runner-cpp/v1/base/exaudflib/impl/exaudflib_main.cc:193-287 | A call into the VM exchanges data only, and its end, with what it leaves behind, becomes part of the trace |
| Session.Session.RunVm | udf-runner-cpp/v1/base/exaudflib/vm/swig_vm.h:28-37 | The VM's own exceptions become a message and count as done; others pass through |
| Session.Session.HandleError | udf-runner-cpp/v1/base/exaudflib/impl/exaudflib_main.cc:63-103 | Whatever goes wrong on the way, a CLOSE is sent, and the exit code is 1 |
| Session.Session.Connect | udf-runner-cpp/v1/base/exaudflib/impl/exaudflib_main.cc:165-189 | Sockets are opened until a handshake succeeds; a local client opens another one only when the one before was not answered, and ends with CLOSE on an error; a remote one starts over |
| Session.Session.RunUntilDone | udf-runner-cpp/v1/base/exaudflib/impl/exaudflib_main.cc:258-264 | The VM is run until it is done; without being done, a message it leaves behind ends the process through CLOSE |
| Session.Session.RunRounds | udf-runner-cpp/v1/base/exaudflib/impl/exaudflib_main.cc:255-267 | The rounds of an ordinary UDF end with CLEANUP, an error or an exception |
| Session.Session.SingleCall | udf-runner-cpp/v1/base/exaudflib/impl/exaudflib_main.cc:214-252 | One single call: exceptions on the way are swallowed, a message ends the process through CLOSE, and the answer is an undefined call or a result, as the call left it |
| Session.Session.SingleCalls | udf-runner-cpp/v1/base/exaudflib/impl/exaudflib_main.cc:206-253 | The rounds of single-call mode |
| Session.Session.ShutDown | udf-runner-cpp/v1/base/exaudflib/impl/exaudflib_main.cc:270-277 | After CLEANUP the VM's shutdown decides: FINISHED is sent, and code 0 returned, only if it neither throws nor leaves a message; with a message CLOSE is the last request |
| Session.Session.Serve | udf-runner-cpp/v1/base/exaudflib/impl/exaudflib_main.cc:204-277 | From the first RUN to the acknowledged FINISHED: code 0 only behind a shutdown that neither threw nor left a message, and every other code through CLOSE |
| Session.Session.ExaUdfClientMain | udf-runner-cpp/v1/base/exaudflib/impl/exaudflib_main.cc:107-294 | Against any server and any VM the messages and VM calls are a legal trace; the exit code is 0 exactly when FINISHED was acknowledged, and then the call into the VM before it neither threw nor left a message; it is 1 exactly when a CLOSE was answered, which is then the last request |
| SessionTrace.Alternation | udf-runner-cpp/v1/base/exaudflib/impl/exaudflib_main.cc:165-287 | In the life of a socket requests and replies alternate, apart from calls into the VM; only an unanswered CLIENT is given up, with its socket |
| SessionTrace.CloseIsLast | udf-runner-cpp/v1/base/exaudflib/impl/socket_high_level.cc:243-272 | CLOSE is sent at most once, and nothing but its reply follows |
| SessionTrace.FinishedAfterCleanup | udf-runner-cpp/v1/base/exaudflib/impl/exaudflib_main.cc:254-277 | FINISHED is sent only directly behind a VM shutdown without exception and message, and that only behind a CLEANUP reply to a RUN or DONE, with nothing but the VM's data requests in between |
| SessionTrace.FinishedEndsCleanly | udf-runner-cpp/v1/base/exaudflib/impl/exaudflib_main.cc:270-277 | The last events of a finished session are such a shutdown, FINISHED and its answer |
| SessionTrace.ShutdownDecides | udf-runner-cpp/v1/base/exaudflib/impl/exaudflib_main.cc:270-277 | A shutdown with a message is followed by CLOSE, one that throws by another shutdown, any other by FINISHED |
| SessionTrace.MakingDecides | udf-runner-cpp/v1/base/exaudflib/impl/exaudflib_main.cc:195-202 | Without a VM, or with a message left behind by its making, CLOSE comes instead of the first RUN |
| SessionTrace.RunDecides | udf-runner-cpp/v1/base/exaudflib/impl/exaudflib_main.cc:258-266 | What the end of an ordinary run decides: DONE, another run, or the way to CLOSE |
| SessionTrace.SingleCallDecides | udf-runner-cpp/v1/base/exaudflib/impl/exaudflib_main.cc:215-252 | What the end of a single call decides: RUN, an undefined call, a result, or the way to CLOSE |
| SessionTrace.FailedUdfNeverFinishes | udf-runner-cpp/v1/base/exaudflib/impl/exaudflib_main.cc:258-276 | A message that the VM does not take back keeps FINISHED from being sent |
| SessionTrace.FinishedOnce | udf-runner-cpp/v1/base/exaudflib/impl/socket_high_level.cc:501-528 | FINISHED is sent at most once |
| SessionTrace.FinishedIsLast | udf-runner-cpp/v1/base/exaudflib/impl/exaudflib_main.cc:277-294 | Nothing follows an acknowledged FINISHED |
| SessionTrace.NoRunAfterCleanup | udf-runner-cpp/v1/base/exaudflib/impl/exaudflib_main.cc:204-268 | No RUN and no DONE follows a CLEANUP reply to a RUN or DONE |
| SessionTrace.RunAfterDone | udf-runner-cpp/v1/base/exaudflib/impl/exaudflib_main.cc:255-267 | Outside single-call mode every RUN but the first directly follows the DONE reply to a DONE |
| SessionTrace.DoneAfterRun | udf-runner-cpp/v1/base/exaudflib/impl/exaudflib_main.cc:204-268 | Every DONE answers for one accepted RUN of its own |
| SessionTrace.HandshakeDecides | udf-runner-cpp/v1/base/exaudflib/impl/socket_high_level.cc:49-241 | META follows INFO and the VM is made after a META with supported columns; any other reply is followed by CLOSE or another socket |
| SessionTrace.GoodReplyGoesOn | udf-runner-cpp/v1/base/exaudflib/impl/socket_high_level.cc:299-396 | An accepted RUN puts the VM to work, the DONE reply to a DONE is followed by RUN, and CLEANUP by the shutdown |
| SessionTrace.BadReplyEnds | udf-runner-cpp/v1/base/exaudflib/impl/exaudflib_main.cc:278-287 | After any reply that is not allowed for a RUN or FINISHED, or for a DONE outside single-call mode, a CLOSE from the server among them, only data requests and one CLOSE are sent |
| SessionTrace.SingleCallRunsOn | udf-runner-cpp/v1/base/exaudflib/impl/exaudflib_main.cc:243-252 | In single-call mode an expected reply to an answer is followed by DONE, and every other reply, even a CLOSE from the server, is swallowed and followed by another RUN |
| DepSets.ClosedContains | tools/generate_mull_config.py:33-41 | A set closed under references contains everything that its members reach |
| DepSets.Search.ArtifactIds | tools/generate_mull_config.py:33-41 | The recursion over the shared visited set terminates on every graph and returns the artifacts of exactly the newly visited sets, all of whose references are visited then; a missing set ends it |
| DepSets.ArtifactsOfRoot | tools/generate_mull_config.py:33-46 | From an empty visited set the result is exactly the direct artifacts of all sets reachable from the root, and the search fails exactly when a reachable reference is missing |
| DepSets.CollectInputs | tools/generate_mull_config.py:43-46 | The collected inputs are those of all roots of all actions, and fail exactly when one of them does |
| RuleGrouping.Exchange | udf-runner-cpp/v1/base/script_options_parser/ctpg/ctpg.hpp:378-384 | One comparison of the sort: a swap keeps every nonterminal's rules in order and lowers the weight |
| RuleGrouping.Sort | udf-runner-cpp/v1/base/script_options_parser/ctpg/ctpg.hpp:369-388 | The adjacent-swap sort terminates, sorts by left-hand side and keeps the order of the rules of each nonterminal |
| RuleGrouping.SameBlocksPermute | udf-runner-cpp/v1/base/script_options_parser/ctpg/ctpg.hpp:369-388 | So its result is a permutation |
| RuleGrouping.MakeNtermRuleSlices | udf-runner-cpp/v1/base/script_options_parser/ctpg/ctpg.hpp:2201-2215 | On sorted rules each slice holds exactly the positions of its nonterminal's rules |
| RuleGrouping.BlockIsSlice | udf-runner-cpp/v1/base/script_options_parser/ctpg/ctpg.hpp:2201-2215 | A slice with exactly these positions is the list of the nonterminal's rules |
| RuleGrouping.GroupRules | udf-runner-cpp/v1/base/script_options_parser/ctpg/ctpg.hpp:2192-2215 | Together: each nonterminal's slice is the list of its own rules in the order of the grammar, and every rule lies in exactly one slice |

## Left out

- ShiftReduce.Soundness: speaks of runs that stop; that the loop stops is proved for the option table (`OptionAcceptance.LineOutcome`), since a table with cyclic empty rules may loop.
- ShiftReduce.ContextParse: takes consistency of the table with its item sets as a hypothesis and requires a run that stops, for the same reason.
- OptionTable.TableConsistent: the table is written down state by state and its consistency proved; the generator's closure, lookahead and state construction are not modelled.
- OptionExtents.ExtentsRecorded: assumes lines below 2^32 columns and a script below 2^64 characters, beyond which `OptionExtents.ExtentExact` shows that recorded positions are wrong.
- OptionRoundTrip.RoundTrip: states values; the recorded extents of the same parse are the matter of `OptionExtents`.
- ParserAgreement.Agreement: covers an option that is the first % of the script and has no backslash in it, the case in which the two parsers are meant to agree; the older parser does not know escapes.
- ResultHandler.SWIGResultHandler.Set: the eight typed setters are one method with the type as a parameter, and the five maps of set values are one map.
- TableIterator.SWIGTableIterator.Get: the eight typed getters are one method with the type as a parameter; texts are handed out whole, not as pointers.
- TableIterator.SWIGTableIterator.IncrementColOffsets: a row number missing from a packet reads as 0; `rows_in_group` is left out.
- EventFd.EventFd.ReadNotification: interruptions are assumed to end; a loop interrupted for ever has no result. Short reads and writes are not modelled.
- WaitableQueue.WaitableQueue.DrainNotifications: is stated without concurrent writers; `WakeupProtocol` interleaves the single reads and writes.
- Session.Session.ExaUdfClientMain: server answers and VM actions are finite lists of any length, so every finite part of an endless run is covered; an endless run itself has no result. What a VM call leaves behind is arbitrary, except that an exception of the VM has a text. Sends succeed, and assertions of debug builds are switched off.
- Session.Session.SendReturn: a missing result counts as an exception before anything is sent.
- DepSets.Search.ArtifactIds: Python's recursion limit is left out.
- The lexer builder (`dfa_builder`): its merging of states is not a construction for arbitrary regular expressions; the option automaton is written down and proved against the patterns.
- Whitespace skipping in the parser, which the option parser switches off, and the verbose trace and diagnostics of the generator.
- The exception handler shared by iterator and result handler is one field in each; serialisation failures of a message are left out.
- StreamingVM, the exchange of metadata and connection information, ZeroMQ, protobuf encoding, process checks, resource limits, and the locks for VMs with several threads.
- The internals of the lock-free queues: an abstract first-in first-out queue stands for them.
- Path building and filtering in `tools/generate_mull_config.py`, and the Bazel query.
- FlatBuffers, Arrow and JSON-schema wrappers, descriptor ownership, message builders and build scripts: bookkeeping without a protocol of its own.

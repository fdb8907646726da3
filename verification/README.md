# Tash: models and proofs

Dafny models of the parts of the tash shell where one scan must agree with a grammar, another scan
or an optimum, and of the step protocols that keep descriptors and child processes consistent.
`dafny verify dfyconfig.toml` verifies the whole project.

A `char` stands for one byte. Loops, classes and in-place updates of the program are methods and
classes here, each proved against a specification function; the laws are lemmas about those
functions, over all inputs or all runs.

| module | what it models |
|---|---|
| `JsonGrammar`, `JsonContentStreamer`, `JsonWriter` | the character automaton that pulls the root `content` string out of a JSON document, against a recursive grammar of JSON; a JSON writer with literal code points, whose inverse it is |
| `Lines`, `ResponseLines` | the write callback that cuts received bytes into lines |
| `StreamingRetry` | retries and model fallback above one streaming request |
| `QuoteStates`, `Tokenizer` | the quote rule of the scanners; tokenizing and quote stripping |
| `CommandLine`, `NestedCommands`, `ListExecutor` | splitting a command line at `&&`, `\|\|`, `;` and running the resulting flat list; commands with nested parentheses, by a grammar |
| `Runs`, `Heredocs`, `RedirectionPass`, `PrintedRedirections`, `HeredocBodies`, `TargetAgreement` | heredoc markers, the redirection pass and what it records of written commands, collecting bodies and handing them out, and when the two scans agree |
| `CommandDispatch`, `NestedDispatch`, `BodyArrival`, `LineArrival`, `ArrivalWitnesses` | how a command is taken apart into subshell, pipeline stages or a plain command, which heredoc bodies arrive at its redirections, whole lines, and commands that lose a body |
| `Descriptors`, `Pipeline`, `BuiltinRedirection` | descriptor tables under `dup`, `dup2`, `close`, `pipe`, `fork`; pipeline wiring; redirections around a builtin and in a child |
| `Reaping`, `BackgroundJobs` | children, SIGCHLD, the reaping loop, the job map and `fg` |
| `FuzzyFinder`, `Suggest` | the fuzzy score as a maximum over embeddings; edit distance and the command suggestion |
| `StableSort`, `StructuredPipe` | `where` and `sort-by` |
| `Linkify` | hyperlinks around URLs, on whole texts and on output read in pieces |
| `Session` | saving and loading a session |
| `RateLimiter` | the sliding-window limiter |
| `Text` | shared byte-string helpers |

Constants, character classes and tables of the code are pinned by laws that spell them out again in
numbers or literal texts: what an operator compares, which redirection it leaves, how a file is laid out.

Where the code does not do what its documentation promises, the code is modelled and the exact
condition is proved:

- The streamer emits the first string literal after the `:` of a root `content`, wherever that literal
  is; exactly what any document emits is `StreamsRootContent`. With faithfully read names and one root
  `content`, the promise is kept if and only if its value is a string, or no literal follows, or the
  next one is empty (`DocumentPromiseIff`); `{"content":null,"x":"y"}` streams `x`
  (`NullContentStreamsNextName`).
- A root key is recognised as `content` from its bytes with the escapes swallowed. A document with one
  member is streamed as promised for every string value exactly when that reading of the name agrees
  with its decoded form (`PromiseKeptIff`), and a document with any number of string members and at most
  one name that decodes to `content` exactly when it does so for every name (`NamesPromiseIff`);
  `EscapedContentIsMissed` and `EscapedOtherNameIsStreamed` are a key for each way to disagree.
- After output was shown, the fallback chain asks another model only on a 404. It can show output of
  two attempts exactly when a 404 reply carried text (`ShownAgainIff404`).
- The redirection pass and the heredoc scan agree on the markers whatever follows a target if and only
  if the scan of the target alone finds no marker and ends outside quotes and markers
  (`TargetAgreesIff`); for a target without `<`, if and only if its quotes are closed
  (`PlainTargetAgreesIff`). At a `<<` they agree if and only if the delimiter is not empty
  (`MarkerAgreesIff`). `>a" <<E` is a command on which they disagree (`QuoteInTargetHidesMarker`).
- Heredoc bodies read for a command can be lost before its redirections. What arrives is fixed exactly for
  every command by its slots, in the order in which they take bodies (`DispatchDelivers`): a plain command
  has one for each entry that the redirection pass makes of its expanded text, a pipeline stage one for each
  marker of its scan, empty where the pass makes no entry, and a subshell has none. For every command all
  bodies arrive, whatever is written in them, if and only if the slots begin with the markers of the command
  (`AllArriveIff`).
  - A subshell command's bodies arrive if and only if they are all empty (`SubshellArrivesIff`); `(cat) <<E`
    loses its body (`SubshellLosesBody`).
  - In a pipeline everything arrives if and only if no subshell stage has a marker and every other stage has
    the entries that its scan announces (`PipelineArrivesIff`); in `(cat) <<A | cat <<B` the body of A goes
    to B (`PipelineShiftsBody`).
  - In a plain command each marker gets its own body if and only if the pass makes exactly its markers of the
    expanded text (`PlainArrivesIff`). `cat >o<<E` loses its body to the file name (`TargetLosesBody`); with
    `a <<F` in `X`, `echo $X <<E` gives the body to F (`ExpansionTakesBody`).
- Separators inside a subshell never separate (`SubshellIsOneSegment`). The splitter keeps no such promise for
  `$( … )` alone: `$(a;b)` is split at its `;` (`SubstitutionIsSplit`). A well-nested command comes back whole
  if and only if outside quotes its separators stand in subshells only, or in a substitution behind a subshell
  (`OneCommandIff`).
- `fg` drops a job that merely stopped: a process stays behind outside the map exactly when `fg`'s wait
  returned for another reason than its end (`FgForgetsJobIff`), and a run from the start gets there
  (`FgForgetsStoppedJob`).
- The comparator of `sort-by` orders all columns of the kinds allowed if and only if numbers do not mix
  with other values (`OrderedIffUnmixed`); on 10, "9" and 9 it goes round in a circle
  (`MixedColumnCycles`). This is about classes of columns: a single mixed column, such as one with a
  single row, may still be ordered.
- Alias and environment names that are empty or contain `=` do not survive a save; all others do
  (`RoundTripIff`).
- The scorer's comment describes a memo table that the code allocates but never consults; the table is
  proved to be sound for every call that is reached (`ReachedCallsAreKeyed`, `ScorerState.Solve`) and
  to bound the work (`ScorerState.LoopsAreBounded`).

## Model

| member | source | states |
|---|---|---|
| `JsonContentStreamer.Streamer.HandleChar` | src/ai/llm_client.cpp:1522-1651 | one character takes all ten fields to exactly the automaton's next state |
| `JsonContentStreamer.Streamer.Feed` | src/ai/llm_client.cpp:1518-1520 | feeding a chunk runs the automaton over its characters in order |
| `JsonContentStreamer.FeedCutsDoNotMatter` | src/ai/llm_client.cpp:1518-1520 | any way of cutting the text into chunks ends in the same state |
| `JsonContentStreamer.ContentIsConcatOfEmitted` | include/tash/llm_client.h:256-262 | `content()` is always the concatenation of the pieces emitted so far |
| `JsonContentStreamer.StoiReadsHexUnit` | src/ai/llm_client.cpp:1524-1531 | `std::stoi` on four hex digits gives the value of the `\uXXXX` unit |
| `JsonContentStreamer.Utf8MeetsLayout` | src/ai/llm_client.cpp:1532-1546 | each unit is written in the bit layout of section 3 of RFC 3629, which fixes the bytes (`Utf8Unique`), with no joining of surrogates |
| `JsonContentStreamer.PiecesDecode` | src/ai/llm_client.cpp:1551-1576 | the pieces for a string literal are its decoding in the sense of section 7 of RFC 8259 |
| `JsonContentStreamer.DecodesUnique` | src/ai/llm_client.cpp:1551-1576 | that decoding is unique, so a correct output is the only one |
| `JsonGrammar.Utf8Unique` | src/ai/llm_client.cpp:1534-1543 | a code point has one byte sequence in the layout |
| `JsonContentStreamer.SkipValue` | src/ai/llm_client.cpp:1608-1651 | below the root any value, however nested and whatever its keys and strings say, is passed over: nothing emitted, depths restored |
| `JsonContentStreamer.ArmedValue` | src/ai/llm_client.cpp:1578-1651 | after the `:` of a root `content` the first literal of the value, at whatever depth, is emitted and nothing else of it |
| `JsonContentStreamer.RootMembers` | src/ai/llm_client.cpp:1634-1644 | what the members of the root object emit, whatever their values: the first literal after the `:` of each name read as `content`, a following name included |
| `JsonContentStreamer.StreamsRootContent` | src/ai/llm_client.cpp:1518-1651 | exactly what a whole document with any root object, whitespace and nesting emits |
| `JsonContentStreamer.OtherRootsEmitNothing` | src/ai/llm_client.cpp:1634-1642 | a document whose root is an array, a string or an atom emits nothing, whatever its objects hold |
| `JsonContentStreamer.StrayClosersAreIgnored` | src/ai/llm_client.cpp:1625-1633 | closing brackets with nothing to close change nothing |
| `JsonContentStreamer.ContentIsDecodedValue` | src/ai/llm_client.cpp:1518-1651 | with one root `content` string and names read faithfully, both `content()` and the joined pieces are the decoded value |
| `JsonContentStreamer.ContentOfPlainNamedDocument` | src/ai/llm_client.cpp:1518-1651 | the same for every document whose root keys hold no backslash |
| `JsonContentStreamer.PlainNamesAreFaithful` | src/ai/llm_client.cpp:1597-1604 | a key without backslash is read as its decoded form |
| `JsonContentStreamer.DocumentPromiseIff` | src/ai/llm_client.cpp:1634-1642 | with one root `content` of any kind: its decoded string, or nothing for another value, if and only if it is a string, or no literal comes after its `:`, or the next one is empty |
| `JsonContentStreamer.NullContentStreamsNextName` | src/ai/llm_client.cpp:1598-1602 | `{"content":null,"x":"y"}` streams `x` |
| `JsonContentStreamer.PromiseKeptIff` | src/ai/llm_client.cpp:1551-1576 | for a root name, all string values of a one-member document are streamed or ignored as promised if and only if the name as read is `content` exactly when its decoding is |
| `JsonContentStreamer.NamesPromiseIff` | src/ai/llm_client.cpp:1551-1576 | for documents with any number of string members and at most one name decoding to `content`: all string values are streamed as promised if and only if every name is read as its decoding says |
| `JsonContentStreamer.EscapedContentIsMissed` | src/ai/llm_client.cpp:1551-1576 | a key that decodes to `content` through an escape is not recognised |
| `JsonContentStreamer.EscapedOtherNameIsStreamed` | src/ai/llm_client.cpp:1551-1576 | a key that decodes to something else is taken for `content` |
| `JsonWriter.ContentReads` | src/ai/llm_client.cpp:1522-1592 | inside the content string, text written with any mixture of bare bytes, the eight two-character escapes by code point, and `\uXXXX` in digits by value appends exactly the bytes that are meant |
| `JsonWriter.StreamsWhatIsMeant` | src/ai/llm_client.cpp:1518-1651 | the same for the `content` of any document with faithful names |
| `JsonWriter.StreamsBack` | src/ai/llm_client.cpp:1518-1651 | every string, written with its quotes, backslashes and control characters escaped, is streamed back as it was |
| `Lines.SplitIsExact` | src/ai/llm_client.cpp:475-478 | splitting loses nothing and leaves no newline in a part |
| `ResponseLines.StreamContext.WriteCallback` | src/ai/llm_client.cpp:465-488 | one callback updates buffer, accumulated text, chunks and byte count as specified, and over the cap takes nothing |
| `ResponseLines.StreamContext.DrainLines` | src/ai/llm_client.cpp:475-486 | the loop leaves the unterminated tail and delivers the parse of every complete line in order |
| `ResponseLines.ExtractedIsParsed` | src/ai/llm_client.cpp:477-485 | the chunks delivered join to the concatenation of `parse_line` over the lines, one trailing CR removed |
| `ResponseLines.LineIsHandedOver` | src/ai/llm_client.cpp:479-485 | one trailing CR is taken off before `parse_line`, any other line is handed over as it is |
| `ResponseLines.PassingTheCap` | src/ai/llm_client.cpp:467-473 | bytes are counted exactly; data that passes the cap leaves buffer, text and chunks alone, and the mark stays |
| `ResponseLines.OneMoreCut` | src/ai/llm_client.cpp:465-488 | the state after any bytes depends on the bytes seen, not on where they were cut |
| `ResponseLines.CutsDoNotMatter` | src/ai/llm_client.cpp:435-488 | under the cap, however the transport cuts the bytes: accumulated text, chunks and buffer are those of the joined input |
| `StreamingRetry.StreamingClient.InvokeOnce` | src/ai/llm_client.cpp:1028-1056 | one request is made, its chunks reach the callback in order, and the response is its classification |
| `StreamingRetry.StreamingClient.InvokeStreaming` | src/ai/llm_client.cpp:1061-1084 | the attempts made, what they showed and the response handed up |
| `StreamingRetry.StreamingClient.StreamingChain` | src/ai/llm_client.cpp:1164-1184 | the models asked in order, all that was shown, and the response of the chain |
| `StreamingRetry.AttemptsLaws` | src/ai/llm_client.cpp:1061-1084 | between 1 and `max_attempts` requests; no attempt is followed by another after it showed text or was aborted |
| `StreamingRetry.RetriesIff` | src/ai/llm_client.cpp:24-28 | another request of the same model follows exactly a reply without text that broke other than by an abort, or had status 0, 429 or 500 and up, while attempts are left |
| `StreamingRetry.RetriesUntilAnswer` | src/ai/llm_client.cpp:1061-1084 | transient failures followed by a 200 with text within the attempts give that text |
| `StreamingRetry.ReportsLastReply` | src/ai/llm_client.cpp:1028-1056 | success, text, status, transport and message of the response in terms of the last reply alone |
| `StreamingRetry.NextModelIff` | src/ai/llm_client.cpp:1174-1179 | another model is asked exactly when the last reply to this one was a 404 |
| `StreamingRetry.FallsBackToAnswer` | src/ai/llm_client.cpp:1164-1184 | models that answer 404 are passed over, each after one request, until one answers |
| `StreamingRetry.AllNotFound` | src/ai/llm_client.cpp:1180-1184 | when every model answers 404 the response is that none is available |
| `StreamingRetry.ChainLaws` | src/ai/llm_client.cpp:1164-1184 | at most `max_attempts * (1 + fallbacks)` requests in any run, none after an aborted one, and one that showed text is followed only after a 404 |
| `StreamingRetry.OneAttemptShows` | src/ai/llm_client.cpp:1058-1084 | when the 404 bodies carry no text, all text shown comes from the last attempt alone, and on success it is the response text |
| `StreamingRetry.ShownAgainIff404` | src/ai/llm_client.cpp:1174-1179 | after a first reply that showed text, some run shows text of another attempt if and only if that reply was a 404 |
| `QuoteStates.QuoteState.Consume` | include/tash/util/quote_state.h:31-35 | toggles as the quote rule says and reports whether the character was a boundary |
| `QuoteStates.BoundaryIff` | include/tash/util/quote_state.h:31-35 | a character is reported exactly when it changes the state |
| `QuoteStates.NeverBoth` | include/tash/util/quote_state.h:23-38 | no text ever leaves both kinds of quote open |
| `Tokenizer.TokenizeString` | src/core/parser.cpp:79-120 | the loop computes the token function, for every non-empty delimiter |
| `Tokenizer.WordsRoundTrip` | src/core/parser.cpp:79-120 | any words, empty ones included, escaped, quoted and joined by spaces, come back from tokenizing and quote stripping |
| `Tokenizer.WordsAreTokens` | src/core/parser.cpp:79-120 | words bare, in single quotes or with backslashed quotes, among any spaces, tabs and line ends, are exactly the tokens; quotes stay, backslashes go |
| `Tokenizer.EndsAtDelimiter` | src/core/parser.cpp:99-108 | outside quotes a delimiter of any length ends a token and is dropped |
| `Tokenizer.QuotesAreStripped` | src/core/parser.cpp:342-351 | quotes of one kind at both ends are taken off, and nothing else |
| `CommandLine.StripCommentLoop` | src/core/parser.cpp:584-598 | cuts at the first `#` outside quotes |
| `CommandLine.ParseCommandLine` | src/core/parser.cpp:582-721 | the scan yields the specified segments and diagnostics, in order |
| `CommandLine.SplitJoined` | src/core/parser.cpp:615-681 | commands joined by spaced operators are split back into exactly those commands and operators |
| `CommandLine.NoCommentInJoined` | src/core/parser.cpp:584-598 | comment stripping leaves such a line alone |
| `CommandLine.ParseJoined` | src/core/parser.cpp:582-721 | parsing the joined line gives the commands with their operators, first one without |
| `NestedCommands.NestPasses` | src/core/parser.cpp:626-654 | nested text leaves no depth behind, substitutions closed before subshells, and exactly when it meets a separator in it |
| `NestedCommands.SubshellIsOneSegment` | src/core/parser.cpp:606-654 | `(x)` is one segment and gives no complaint, for every well-nested `x` and whatever separators it holds |
| `NestedCommands.NestedLineParses` | src/core/parser.cpp:582-681 | commands of words, quoted parts, subshells and substitutions joined by operators parse to exactly these commands |
| `NestedCommands.OneCommandIff` | src/core/parser.cpp:582-681 | a well-nested command comes back as one segment exactly when each separator outside quotes stands in a subshell, or in a substitution behind a subshell |
| `NestedCommands.CommentIsCut` | src/core/parser.cpp:584-598 | from a `#` after such a line on, nothing counts |
| `NestedCommands.DanglingOperator` | src/core/parser.cpp:682-700 | an and-operator or or-operator at the end of the line is complained of, a `;` is not |
| `NestedCommands.OpenQuote` | src/core/parser.cpp:702-716 | a quote left open is complained of by its kind |
| `NestedCommands.SubstitutionIsSplit` | src/core/parser.cpp:655-681 | a `;` in a substitution that stands in no subshell splits the command there |
| `ListExecutor.Shell.ExecuteCommandLine` | src/core/executor.cpp:545-589 | the loop's final world and `last_exit` are those of the flat-list semantics |
| `ListExecutor.OneCommandRuns` | src/core/executor.cpp:556-587 | a command's status is recorded before the hooks after it |
| `ListExecutor.ParsePrinted` | src/core/parser.cpp:582-721 | a printed program of AND-OR lists parses to its flattening |
| `ListExecutor.RunProgram` | src/core/executor.cpp:545-589 | running the flattening is evaluating the trees, section 2.9.3 of POSIX.1-2017 XCU Shell Command Language |
| `ListExecutor.MeaningPreserved` | src/core/executor.cpp:545-589 | print, parse and run: final state and status equal direct evaluation of the trees, for every command interpreter and every state |
| `Heredocs.ReadMarkerLoop` | src/core/parser.cpp:775-794 | reads delimiter, flags and length of one marker |
| `Heredocs.ScanPendingHeredocs` | src/core/parser.cpp:760-800 | the scan yields the markers outside quotes, in order |
| `RedirectionPass.ParseRedirections` | src/core/parser.cpp:377-542 | the pass yields redirections, kept text and missing operands of its events in order, pulling bodies by appearance |
| `PrintedRedirections.PassRecords` | src/core/parser.cpp:354-542 | a command written with words, quoted parts, `<`, `>`, `>>`, `2>`, `2>&1` and heredoc markers: each redirection in order with its literal descriptor, name and mode, each marker with its delimiter, flags and the next body, all else kept, nothing missed |
| `PrintedRedirections.OperandIsMissing` | src/core/parser.cpp:398-456 | an operator with nothing after it is reported and records nothing |
| `RedirectionPass.CommandBuilder.FileOperand` | src/core/parser.cpp:398-456 | one file operator with its operand: same branch, same position after it |
| `RedirectionPass.CommandBuilder.HeredocMarker` | src/core/parser.cpp:458-513 | one `<<` marker with its body, and the next body index |
| `RedirectionPass.EntriesAreScannedMarkers` | src/core/parser.cpp:377-542 | the heredoc entries are the scanned markers, in count, order, delimiter and both flags, filled with the bodies by position |
| `RedirectionPass.EntriesAreFilled` | src/core/parser.cpp:500-512 | for every text: the entries of the pass are those it makes without bodies, filled with the bodies in order |
| `RedirectionPass.FillAt` | src/core/parser.cpp:506-511 | the k-th body lands on the k-th marker, markers beyond the bodies stay empty |
| `RedirectionPass.PlainIsNeutral` | src/core/parser.cpp:760-800 | targets free of quotes and `<` meet the condition of the agreement |
| `RedirectionPass.QuoteInTargetHidesMarker` | src/core/parser.cpp:514-533 | the command `>a" <<E`, on which the scan sees no marker and the pass one |
| `TargetAgreement.TargetAgreesIff` | src/core/parser.cpp:398-456 | for every file operator and target: pass and scan agree on every continuation with any bodies if and only if the scan of the target alone finds no marker and ends outside quotes and markers |
| `TargetAgreement.PlainTargetAgreesIff` | src/core/parser.cpp:398-456 | for a target without `<`: if and only if its quotes are closed |
| `TargetAgreement.MarkerAgreesIff` | src/core/parser.cpp:458-513 | at a `<<` whose continuation agrees: if and only if the delimiter is not empty |
| `TargetAgreement.OpenScan` | src/core/parser.cpp:760-800 | where the scan of a text does not close, a word after it becomes a marker or a marker after it is lost |
| `HeredocBodies.LineSource.CollectHeredocBodies` | src/core/parser.cpp:802-824 | the loops fill the bodies and consume the input as specified, failing at end of input |
| `HeredocBodies.CollectsWritten` | src/core/parser.cpp:802-824 | documents written for the markers are read back as their bodies, tabs stripped for `<<-`, the rest of the input unread |
| `HeredocBodies.ReadsOneDocument` | src/core/parser.cpp:805-822 | one document up to its delimiter line |
| `HeredocBodies.DocumentIsRead` | src/core/parser.cpp:802-824 | body lines with their leading tabs, up to the delimiter: each with a newline, tabs taken off for `<<-` only |
| `HeredocBodies.ScanAppend` | src/core/parser.cpp:760-800 | scanning continues over a boundary that closes its quotes and markers |
| `HeredocBodies.ScanJoined` | src/core/parser.cpp:760-800 | scanning the whole line is concatenating the scans of its segments |
| `HeredocBodies.DistributeBodies` | src/core/executor.cpp:628-636 | the loops give each segment its markers with the next bodies |
| `HeredocBodies.DistributesAll` | src/core/executor.cpp:628-636 | over all segments the bodies are handed out in order, each once |
| `HeredocBodies.KeepsCommands` | src/core/executor.cpp:628-636 | commands, operators and the number of markers per segment are kept |
| `HeredocBodies.LineGetsItsBodies` | src/core/executor.cpp:608-637 | collection plus distribution gives each segment exactly the bodies written for its markers and leaves the rest of the input unread, section 2.7.4 of POSIX.1-2017 XCU Shell Command Language |
| `CommandDispatch.FindClose` | src/core/executor.cpp:293-303 | the parenthesis that closes the first one, quotes and nesting respected, or none |
| `CommandDispatch.FindPipe` | src/core/executor.cpp:314-326 | whether a pipe sign outside quotes, not the first of two, follows a subshell |
| `CommandDispatch.FindStructuredPipe` | src/core/structured_pipe.cpp:137-148 | whether the structured-pipe operator occurs outside quotes |
| `CommandDispatch.SplitAtPipes` | src/core/executor.cpp:396-420 | the loop computes the split at pipes outside quotes and parentheses |
| `CommandDispatch.TakeBodies` | src/core/executor.cpp:472-480 | a stage takes the next bodies, and empty ones where none are left; the index moves past them |
| `CommandDispatch.BuildStages` | src/core/executor.cpp:421-502 | the stages in order with their redirections: bodies to those that are no subshells, refusal at an unmatched parenthesis |
| `CommandDispatch.PrepareCommand` | src/core/executor.cpp:260-285 | blank and skipped commands end here; a leading backslash is taken off and keeps alias and hooks away |
| `CommandDispatch.ExpandAliasHead` | src/core/executor.cpp:247-258 | only the first word is replaced by its alias |
| `CommandDispatch.FindLoneSubshell` | src/core/executor.cpp:290-328 | subshell with nothing piped from it, unmatched parenthesis, or neither |
| `CommandDispatch.PlanCommand` | src/core/executor.cpp:379-503 | after expansion: no words, one process, or the stages of a pipeline |
| `CommandDispatch.DispatchCommand` | src/core/executor.cpp:260-503 | the processes a command starts, each with its redirections, or why it starts none |
| `CommandDispatch.KeptWhateverBodies` | src/core/parser.cpp:500-512 | which text the pass keeps does not depend on the bodies |
| `NestedDispatch.AliasOfFirstWord` | src/core/executor.cpp:247-258 | blanks, word and rest: the alias takes the place of the word and of nothing else |
| `NestedDispatch.PreparedIs` | src/core/executor.cpp:262-285 | blank commands, commands after a backslash, aliases and hooks, each with what is run |
| `NestedDispatch.SubshellCloses` | src/core/executor.cpp:293-303 | the parenthesis found is the one that closes the subshell, whatever nested text is in it |
| `NestedDispatch.LoneSubshellIs` | src/core/executor.cpp:290-328 | `(x)` with a tail without pipes is a subshell with that body and tail |
| `NestedDispatch.PipedSubshellIs` | src/core/executor.cpp:311-327 | with a pipe in its tail it is left to the pipeline |
| `NestedDispatch.PipesAreFound` | src/core/structured_pipe.cpp:137-148 | which texts have a pipe or a structured pipe |
| `NestedDispatch.PipelineParts` | src/core/executor.cpp:396-420 | stages of nested texts joined by pipe signs are the parts, pipes in their groups and quotes left alone |
| `NestedDispatch.DoubleBar` | src/core/executor.cpp:409-413 | of two pipe signs only the second separates |
| `BodyArrival.DispatchDelivers` | src/core/executor.cpp:260-503 | what arrives at all, for every command: the supplied bodies in order on its slots |
| `BodyArrival.AllArriveIff` | src/core/executor.cpp:260-503 | for every command: all bodies arrive, whatever is written, if and only if its slots begin with the markers of its scan |
| `BodyArrival.NothingFromNothing` | src/core/executor.cpp:260-503 | a command given no bodies, of whatever kind, starts no process with one |
| `BodyArrival.NothingReachesInside` | src/core/executor.cpp:348-349 | the commands inside a subshell are run without bodies |
| `BodyArrival.SubshellArrivesIff` | src/core/executor.cpp:327-361 | the bodies given to a subshell command arrive if and only if all of them are empty |
| `BodyArrival.SubshellAllArriveIff` | src/core/executor.cpp:327-361 | they arrive whatever is written if and only if the command has no marker |
| `BodyArrival.SplitJoins` | src/core/executor.cpp:396-420 | the parts of a pipeline joined by pipe signs are the command |
| `BodyArrival.ScanJoinedParts` | src/core/parser.cpp:760-800 | the scan of a pipeline is the scans of its parts, one after the other |
| `BodyArrival.PipelineArrivesIff` | src/core/executor.cpp:421-503 | the bodies of a pipeline arrive, whatever is written, if and only if no subshell stage has a marker and the pass makes of every other stage the entries its scan announces |
| `BodyArrival.SubshellShiftsBodies` | src/core/executor.cpp:463-480 | a marked subshell stage takes no body, and the next stage's first entry gets the one meant for it |
| `BodyArrival.PlainDelivers` | src/core/executor.cpp:376-379 | a plain command delivers the bodies to the entries that the pass makes of its expanded text, in order |
| `BodyArrival.PlainArrivesIff` | src/core/executor.cpp:376-379 | each marker of a plain command gets its own body if and only if the pass makes exactly these markers of the expanded text |
| `BodyArrival.PlainAllArriveIff` | src/core/executor.cpp:376-379 | all written bodies of a plain command arrive if and only if the pass makes its markers first |
| `ArrivalWitnesses.SubshellLosesBody` | src/core/executor.cpp:327-330 | `(cat) <<E` with body `x`: closed, whole, its body read, and the redirection made with an empty one |
| `ArrivalWitnesses.TargetLosesBody` | src/core/parser.cpp:440-456 | `cat >o<<E` with body `x`: closed, whole, its body read, and no redirection that gets it |
| `ArrivalWitnesses.PipelineShiftsBody` | src/core/executor.cpp:463-480 | `(cat) <<A` piped to `cat <<B`: a pipeline in which A's redirection is empty and B's has the body written for A |
| `ArrivalWitnesses.ExpansionTakesBody` | src/core/executor.cpp:376-379 | `echo $X <<E` expanded to `echo a <<F <<E`: F gets the body written for E |
| `LineArrival.RanIsTheRun` | src/core/executor.cpp:545-589 | running just the segments that the statuses let through, without conditions, is the run of the line |
| `LineArrival.DealtIsPrepared` | src/core/executor.cpp:608-637 | after reading and handing out, each command of a line has the documents written for its own markers |
| `LineArrival.EntriesAreDistributed` | src/core/executor.cpp:376-379 | commands passed whole to the pass deliver exactly the bodies distributed to those that run |
| `LineArrival.WrittenAreDistributed` | src/core/executor.cpp:260-503 | commands of any kinds that receive everything deliver exactly the non-empty bodies distributed to those that run, in order |
| `LineArrival.BodiesReachTheRedirections` | src/core/executor.cpp:608-637 | from the input to the redirections, whatever the statuses decide at the operators: commands that run and are passed whole have their markers as heredoc redirections, in order, each with the body written for it |
| `LineArrival.WrittenBodiesArrive` | src/core/executor.cpp:608-637 | the same for commands of any kinds that satisfy the condition of `AllArriveIff`: every non-empty body written for a command that runs reaches its marker, and no other body does |
| `LineArrival.AllDocumentsArrive` | src/core/executor.cpp:608-637 | where all commands of the line run, these are all the documents of the line |
| `Pipeline.CloseAll` | src/core/process.cpp:383-385 | closes exactly the listed ends |
| `Pipeline.WireStage` | src/core/process.cpp:377-385 | a child ends with its own ends of the neighbouring pipes on 0 and 1 and no other pipe end |
| `Pipeline.WirePipeline` | src/core/process.cpp:359-431 | for every n >= 1 and any redirections: each child's whole table, which children exit, and the parent's table restored |
| `Pipeline.OneWriterOneReader` | src/core/process.cpp:359-431 | the only writer of pipe k is descriptor 1 of child k, the only reader descriptor 0 of child k + 1, the parent holds neither |
| `Pipeline.SetUpStage` | src/core/process.cpp:375-386 | wiring and then the stage's redirections: the child's whole table, and it exits exactly when an open fails |
| `Pipeline.UnredirectedStage` | src/core/process.cpp:375-386 | without redirections a stage ends with the wired table |
| `Pipeline.RedirectionOverridesPipe` | src/core/process.cpp:375-386 | a stage's own redirection of a descriptor overrides its pipe |
| `Pipeline.UnredirectedKeepsPipe` | src/core/process.cpp:375-386 | a descriptor without redirections keeps its pipe |
| `Pipeline.RedirectionsKeepPipesApart` | src/core/process.cpp:375-386 | in the tables a pipeline ends with, redirections to files included: only stage k can write to pipe k, through stdout or a stderr joined to it, only stage k + 1 can read from it, and descriptors above 2 are inherited |
| `BuiltinRedirection.BuiltinRedir.Apply` | src/core/executor.cpp:93-133 | descriptors 0-2 end as the list says up to the first failed open, `ok` says whether there was none, and everything else is undoable |
| `BuiltinRedirection.BuiltinRedir.Restore` | src/core/executor.cpp:135-139 | gives back exactly the table at entry, however far `apply` got |
| `BuiltinRedirection.AroundBuiltin` | src/core/executor.cpp:88-147 | apply then restore leaves the shell's table unchanged for every list, failing ones included |
| `BuiltinRedirection.SetupChildIo` | src/core/process.cpp:101-147 | the child exits exactly when an open fails; otherwise it has the same bindings as the builtin and nothing else has changed |
| `BuiltinRedirection.LastWins` | src/core/process.cpp:101-147 | the last redirection of a descriptor decides it; `2>&1` takes stdout as of that place in the list |
| `BuiltinRedirection.BoundSources` | src/core/process.cpp:101-147 | each of descriptors 0-2 ends on an opened file or on what it had, stderr possibly on what stdout had |
| `BuiltinRedirection.StopsAtFailure` | src/core/executor.cpp:103-133 | a failed open abandons the rest of the list |
| `BuiltinRedirection.BoundAppend` | src/core/process.cpp:101-147 | redirections take effect from left to right |
| `Reaping.WakeupKept` | src/core/process.cpp:347-357 | every step keeps: a zombie is announced by a pending SIGCHLD, the flag, or a drain under way |
| `Reaping.JobsKept` | src/core/process.cpp:321-345 | every step keeps: each job-map entry names an unreaped child, the very process it was made for |
| `Reaping.BoundKept` | src/core/process.cpp:293-296 | every step keeps the cap on the job map |
| `Reaping.AccountKept` | src/core/process.cpp:286-319 | every step keeps: each background command started is in the map, or was reaped by a drain, or was taken by `fg`, and only one of these |
| `Reaping.InvariantAlways` | src/core/signals.cpp:54-56 | all of these hold after every interleaving of exits, stops, continuations, deliveries and steps of the main thread |
| `Reaping.QuietPromptHasNoZombies` | src/core/process.cpp:347-357 | at the prompt with no signal pending and the flag clear, no zombie is left |
| `Reaping.JobMapIsSound` | src/core/process.cpp:286-319 | after every run: the cap, keys among unreaped children, no recycled pid |
| `Reaping.JobLeavesOnlyBy` | src/builtins/bg.cpp:105-107 | a job leaves the map exactly when a drain reaps its process or `fg`'s wait returns |
| `Reaping.LiveJobIsTrackedIff` | src/builtins/bg.cpp:101-107 | an unreaped background process is in the map if and only if `fg` has not taken it |
| `Reaping.FgForgetsStoppedJob` | src/builtins/bg.cpp:101-107 | a run from the start after which a stopped background process lives outside the map |
| `Reaping.FgForgetsJobIff` | src/builtins/bg.cpp:105-107 | in every state that satisfies the invariants, after `fg`'s wait the process is a child outside the map if and only if the wait was not for its end |
| `Reaping.FgResumes` | src/builtins/bg.cpp:102-102 | `fg` continues a stopped job, which raises SIGCHLD, and leaves any other as it is |
| `Reaping.WhileFgWaits` | src/builtins/bg.cpp:102-105 | while `fg` waits only children and the kernel move, until its wait returns |
| `Reaping.FgReturnsOnStop` | src/builtins/bg.cpp:102-105 | in every run `fg` returns for a stop only if the job was stopped after that `fg` |
| `Reaping.FgSeesExit` | src/builtins/bg.cpp:102-105 | in every run a job that exits under `fg` is waited for by its own ending |
| `Reaping.StopIsReportedOnce` | src/core/process.cpp:328-344 | a stop that a wait has reported is seen by no other wait and no drain |
| `Reaping.DrainedMeans` | src/core/process.cpp:328-344 | a drain is over exactly when no child is dead and no stop or continuation is unreported |
| `Reaping.DeliveredOnce` | src/core/signals.cpp:54-56 | a delivery leaves the flag set and nothing pending |
| `Reaping.AwaitSeesStops` | src/core/process.cpp:275-275 | a foreground wait comes back for a stop exactly when asked to and the stop is unreported |
| `Reaping.ForksAreRunning` | src/core/process.cpp:286-319 | a fork adds one running child and disturbs nothing else |
| `Reaping.ChangesAreNews` | src/core/process.cpp:328-344 | a stop or continuation is unreported and raises SIGCHLD |
| `Reaping.DrainProgresses` | src/core/process.cpp:328-344 | left alone, each turn of the drain takes exactly one report, and it ends when none is left |
| `BackgroundJobs.Shell.Do` | src/core/process.cpp:286-357 | every step the code takes is an enabled step of the state machine and extends one run of it |
| `BackgroundJobs.Shell.CheckBackgroundProcessFinished` | src/core/process.cpp:321-345 | among any asynchronous steps the drain ends, and the flag changes only if something happened meanwhile |
| `BackgroundJobs.Shell.ReapBackgroundProcesses` | src/core/process.cpp:347-357 | ends with the flag clear, and any zombie left is announced by a pending signal |
| `BackgroundJobs.Shell.BackgroundProcess` | src/core/process.cpp:286-319 | refused exactly at the cap; otherwise one fresh job is entered, even if its process has died by then |
| `BackgroundJobs.Shell.BuiltinFg` | src/builtins/bg.cpp:102-108 | the job is continued and waited for; exactly this job leaves the map; if it exits or is killed after that the result is its exit code or 1, and it comes back for a stop only if it is stopped after that |
| `FuzzyFinder.Solve` | src/ui/fuzzy_finder.cpp:63-114 | the loop with its early exits computes the unpruned recurrence, for every starting point |
| `FuzzyFinder.BestIsMaximum` | src/ui/fuzzy_finder.cpp:63-114 | `solve(0, 0, -1)` is the maximum of the summed scores over all strictly increasing case-insensitive embeddings, attained, and "no path" exactly when there is none |
| `FuzzyFinder.NoRoom` | src/ui/fuzzy_finder.cpp:65-76 | the early exits skip only positions from which no path exists |
| `FuzzyFinder.ReachedCallsAreKeyed` | src/ui/fuzzy_finder.cpp:107-107 | in every chain of calls from the first one the previous match is at `ci - 1` |
| `FuzzyFinder.ScorerState.Solve` | src/ui/fuzzy_finder.cpp:38-61 | a table keyed on (query index, candidate index) gives the same score |
| `FuzzyFinder.ScorerState.LoopsAreBounded` | src/ui/fuzzy_finder.cpp:38-43 | with the table the loop runs at most once per key, (query length + 1) * (candidate length + 1) times in all |
| `FuzzyFinder.ScoreRange` | src/ui/fuzzy_finder.cpp:32-36 | scores lie between minus the candidate's length and 11 per query character plus 7 |
| `FuzzyFinder.LocalIs` | src/ui/fuzzy_finder.cpp:63-114 | the score of one match in numbers |
| `FuzzyFinder.EqualCiIff` | src/ui/fuzzy_finder.cpp:14-17 | characters match exactly when they are equal or the large and small form of one ASCII letter |
| `FuzzyFinder.ScoreIgnoresCase` | src/ui/fuzzy_finder.cpp:120-130 | the score does not change with the case of letters in query or candidate |
| `FuzzyFinder.RankedIs` | src/ui/fuzzy_finder.cpp:146-152 | scores do not grow along the result, and among equal ones lengths do not shrink |
| `FuzzyFinder.FuzzyScore` | src/ui/fuzzy_finder.cpp:120-130 | positive exactly on candidates containing the query as a subsequence, and then the best total raised to 1 |
| `FuzzyFinder.MatchingIsExact` | src/ui/fuzzy_finder.cpp:140-145 | the matches are exactly the candidates with an embedding, with their scores |
| `FuzzyFinder.FuzzyFilter` | src/ui/fuzzy_finder.cpp:132-159 | the result and what was cut off form a ranked permutation of the matches, cut at `max_results` when that is positive |
| `Suggest.DamerauLevenshtein` | src/ui/suggest.cpp:14-32 | the table's last cell is the distance |
| `Suggest.DistanceIsLeastCost` | src/ui/suggest.cpp:14-32 | the distance is the least cost of a script of keeps, substitutions, insertions, deletions and adjacent swaps, attained |
| `Suggest.DistanceIsSymmetric` | src/ui/suggest.cpp:14-32 | symmetric |
| `Suggest.ZeroIffEqual` | src/ui/suggest.cpp:14-32 | zero if and only if the strings are equal |
| `Suggest.AtLeastLengthDifference` | src/ui/suggest.cpp:14-32 | at least the difference of the lengths |
| `Suggest.FilterIsSound` | src/ui/suggest.cpp:91-92 | the length filter drops no eligible candidate |
| `Suggest.EligibleIff` | src/ui/suggest.cpp:83-99 | eligible are distances from 1 to a third of the length plus 1, below 999 |
| `Suggest.SuggestCommand` | src/ui/suggest.cpp:83-102 | the first eligible candidate of least distance; for non-empty candidates none exactly when no candidate is eligible |
| `StructuredPipe.OpWhere` | src/core/structured_pipe.cpp:250-291 | the loop keeps exactly the items that have the field and satisfy the comparison; too few arguments or no array pass through |
| `StructuredPipe.WhereKeeps` | src/core/structured_pipe.cpp:250-291 | a row is kept exactly when it is in the input and satisfies the comparison with the operand's words joined by spaces |
| `StructuredPipe.KeepsNumbers` | src/core/structured_pipe.cpp:270-287 | on numbers each operator makes its own comparison, and no other operator keeps anything |
| `StructuredPipe.KeepsTexts` | src/core/structured_pipe.cpp:86-103 | any other two values are compared by their texts, in the order of the dictionary |
| `StructuredPipe.OpSortBy` | src/core/structured_pipe.cpp:293-329 | the sort in the direction the flags ask for; meaningful where the comparator orders the column |
| `StructuredPipe.ColumnIsOrdered` | src/core/structured_pipe.cpp:311-323 | on a column of numbers, or one without numbers, the comparator is a strict weak order, missing fields included |
| `StructuredPipe.OrderedIffUnmixed` | src/core/structured_pipe.cpp:86-103 | all columns of the kinds allowed are ordered if and only if numbers do not mix with other values |
| `StructuredPipe.MixedColumnCycles` | src/core/structured_pipe.cpp:86-103 | 10, "9" and 9 in one column go round in a circle, in both directions |
| `StructuredPipe.SortByIsStableSort` | src/core/structured_pipe.cpp:293-329 | a stable permutation in key order, rows lacking the field last in both directions, and the only such one |
| `StructuredPipe.SortedNumbersAscend` | src/core/structured_pipe.cpp:293-329 | sorted numbers ascend, or descend after `--desc` or `-d` |
| `StructuredPipe.SortedStringsAscend` | src/core/structured_pipe.cpp:293-329 | sorted strings follow the dictionary, or its reverse |
| `StructuredPipe.WhereCommutesWithSortBy` | src/core/structured_pipe.cpp:250-329 | for any arguments of `where`, filter after sort equals sort after filter |
| `StableSort.SortIsStable` | src/core/structured_pipe.cpp:311-323 | the sort is sorted, a permutation, and keeps ties in order |
| `StableSort.StableSortIsUnique` | src/core/structured_pipe.cpp:311-323 | a stable sort determines its result |
| `StableSort.FilterOfSort` | src/core/structured_pipe.cpp:250-329 | filtering and stable sorting commute for any order and any filter |
| `Linkify.FindUrlStart` | src/ui/rich_output.cpp:123-137 | the first position at or after `from` where a scheme starts |
| `Linkify.FindUrlEnd` | src/ui/rich_output.cpp:139-162 | the end of the URL there, or none when nothing follows the scheme |
| `Linkify.LinkifyUrls` | src/ui/rich_output.cpp:164-204 | every URL wrapped, everything else copied |
| `Linkify.WrappedIsUrl` | src/ui/rich_output.cpp:109-118 | what is wrapped satisfies `is_url`, holds no stop character after its scheme and is as long as possible |
| `Linkify.LinkedAfterLine` | src/ui/rich_output.cpp:164-204 | linking distributes over line breaks |
| `Linkify.CopyLinked` | src/core/process.cpp:234-257 | the carry loop prints the linked form of the whole output however reads cut it |
| `Linkify.StripRestores` | src/ui/rich_output.cpp:188-196 | on text without ESC, deleting the OSC 8 sequences gives the text back |
| `Linkify.LinksAreWritten` | src/ui/rich_output.cpp:164-204 | in a text of URLs and other characters each URL becomes the target and the text of an OSC 8 hyperlink, byte by byte, and every other character stays |
| `Session.EscapeValue` | src/core/session.cpp:19-34 | the loop computes the escaping |
| `Session.UnescapeValue` | src/core/session.cpp:37-60 | the loop computes the unescaping, lone and unknown backslashes kept |
| `Session.UnescapeEscape` | src/core/session.cpp:19-60 | unescaping undoes escaping on all values |
| `Session.EscapedIsOneLine` | src/core/session.cpp:19-34 | an escaped value holds no newline and no CR, and `=` only where the value does |
| `Session.EscapesAre` | src/core/session.cpp:19-34 | the escape of each byte, by code point |
| `Session.DecimalIs` | src/core/session.cpp:96-97 | a time is written in decimal digits, the last one last, after a minus sign when negative |
| `Session.StrtollReadsDecimal` | src/core/session.cpp:161-164 | every int64 timestamp is read back as written |
| `Session.StrtollSaturates` | src/core/session.cpp:161-164 | any other integer is read as the nearest of 64 bits |
| `Session.OneLinePerField` | src/core/session.cpp:94-128 | each field occupies exactly one line of the file |
| `Session.SavedLinesAre` | src/core/session.cpp:79-132 | the lines of the file with their literal keys |
| `Session.OtherLinesAreSkipped` | src/core/session.cpp:148-173 | lines without `=` and lines with other keys change nothing |
| `Session.SaveSession` | src/core/session.cpp:79-132 | the file is the specified text over the names in ascending order |
| `Session.SortedKeysAreUnique` | src/core/session.cpp:100-128 | the sorted order makes the file depend on the session alone |
| `Session.LoadSession` | src/core/session.cpp:134-177 | the reading loop computes the fold over the lines of the text |
| `Session.LoadedNamesAreGood` | src/core/session.cpp:148-173 | no text loads a name that is empty or contains `=` |
| `Session.RoundTripIff` | src/core/session.cpp:79-177 | loading a saved session returns every field and both maps if and only if all names are non-empty and free of `=` |
| `RateLimiter.AiRateLimiter.Allow` | src/ai/ai_config.cpp:345-363 | one call drops the expired timestamps, and grants and records exactly when fewer than the maximum remain |
| `RateLimiter.AiRateLimiter.Serve` | src/ai/ai_config.cpp:345-363 | a run of calls grants exactly the times the laws below are about |
| `RateLimiter.HeldIsEnough` | src/ai/ai_config.cpp:350-355 | dropping expired timestamps loses nothing a later call looks at |
| `RateLimiter.GrantedIffRoom` | src/ai/ai_config.cpp:345-363 | over every run with a non-decreasing clock a call is granted if and only if fewer than the maximum of grants lie in its own window |
| `RateLimiter.NeverTooMany` | src/ai/ai_config.cpp:342-363 | any interval (t - window, t] holds at most `max_requests` granted calls |
| `RateLimiter.RefusedOnlyWhenFull` | src/ai/ai_config.cpp:357-359 | a call is refused if and only if exactly `max_requests` grants lie in its own window |

## Left out

- Overflow of `int`, `size_t` and `time_t`: depths, lengths, scores and clock arithmetic are unbounded integers; int64 timestamps in a session are modelled with their range and `strtoll` with its saturation.
- JsonContentStreamer.Streamer.HandleChar: a byte is a `char` below 256 by convention only, and the emit callback is modelled as the list of pieces it receives.
- JsonContentStreamer.PromiseKeptIff: about one-member documents; `NamesPromiseIff` covers any number of members.
- StreamingRetry: the pause between attempts, log output and message texts other than the one the chain compares; the non-streaming request paths.
- StreamingRetry.StreamingClient.InvokeOnce: libcurl, TLS and the provider's line formats are the arbitrary reply of a server function.
- CommandLine.ParseCommandLine: diagnostics are kinds without line, column and wording; a comment sign inside a heredoc body or a continuation line is outside it.
- ListExecutor.Shell.ExecuteCommandLine: one command with its hooks, history and traps is an arbitrary function on an arbitrary world; expansions, subshells and pipelines happen inside it, and `CommandDispatch` does not say what they compute.
- RedirectionPass.ParseRedirections: stops where the remaining text is tokenized; tilde expansion, unescaping and the record of quoted tokens (src/core/parser.cpp:544-580) are not part of this model.
- HeredocBodies: backslash continuation lines and the diagnostic at end of input in `execute_script_file`; the body's expansion at execution.
- CommandDispatch.DispatchCommand: ends where processes are started. Aliases, hooks, variable expansion and command substitution are arbitrary functions; exit statuses, diagnostics, globs, builtins, `auto_cd`, the run of a structured pipeline and the expansion of an unquoted body after the pass are not modelled.
- BodyArrival.AllArriveIff: heredocs with empty bodies are not followed, because a lost empty body and a kept one look the same.
- BodyArrival.PipelineArrivesIff: about pipelines whose quotes, delimiters and parentheses close in their own stages and whose markers expansion keeps; others fall under `AllArriveIff`.
- LineArrival.WrittenBodiesArrive: the environment that a command meets is an arbitrary function of the world before it; which of several heredocs of one process wins is not part of this model.
- CommandDispatch.PrepareCommand: a hook decides from the command alone, and changes neither aliases nor state.
- Pipeline.WirePipeline: pipes and forks succeed; close-on-exec flags, exec, and the wait statuses are not modelled. A descriptor returned by a call is any unused one, where POSIX returns the lowest.
- BuiltinRedirection: `dup` succeeds and descriptors 0-2 are open at entry; opening is an outcome per redirection, so files are not modelled.
- Reaping.JobsKept: about the main shell only. A subshell starts with a copy of the job map whose pids are not its children (src/core/executor.cpp:340-349), and the model has no second shell.
- Reaping: a blocking wait is one enabled step; the pid kept for the SIGINT handler and trap flags are not modelled.
- BackgroundJobs.Shell.ReapBackgroundProcesses: the asynchronous steps come from a finite schedule, so that the loop ends; the invariants in `Reaping` need no such bound.
- BackgroundJobs.Shell.BackgroundProcess: the usage error for a missing command, and the redirections and exec of the child.
- BackgroundJobs.Shell.BuiltinFg: choosing the job from the argument is not modelled; a wait whose schedule is used up counts as interrupted, and nothing is said of the result then, because the code reads a status that was never written.
- FuzzyFinder: `tolower` is that of the C locale.
- FuzzyFinder.ScorerState.Solve: the code allocates this table but its `solve` never reads it; the class models the comment's intention.
- Suggest: building the list of commands from the search path; the edit distance has no triangle inequality and none is claimed.
- StructuredPipe: numbers are reals with infinities and NaN, so rounding of large integers to `double` is not modelled; typing of `where` operands and the display of non-strings are arbitrary functions; `select`, the other operators and the readers and writers of tables.
- StructuredPipe.SortByIsStableSort: nothing is claimed for mixed columns, on which the comparator is not transitive (`MixedColumnCycles`).
- StructuredPipe.OpSortBy: where the comparator does not order the column, the library promises nothing and the equation fixes one possible result.
- Linkify.CopyLinked: short writes to standard output are ignored as in the code; the table and colour output of the same file.
- Session.SaveSession: creating directories and failing to open the file; several sessions in a directory.
- RateLimiter.AiRateLimiter.Allow: the mutex is modelled by calls taking place one after the other.
- Prompt, themes, highlighting, completion, AI menus, safety checks and glob expansion: no deep invariant, or out of scope.

# Verification of JJMCP's evaluation pipeline

JJMCP evaluates Julia code in a REPL that lives in a tmux pane. It pastes the code, polls
overlapping captures of the screen, splices them into one history, and reads the result out of
lines that private marker words delimit. This project models that pipeline, and the protocols
around it, in Dafny and proves what they promise.

`dafny verify dfyconfig.toml` checks everything.

## How the project is laid out

| module | what it models |
|---|---|
| `Kmp` | the prefix table and the walk that finds how two captures overlap |
| `Text` | searching, lines, trimming, carriage returns |
| `Markers`, `MarkerIds` | the six marker words of one evaluation, why they cannot be confused, and why two evaluations do not disturb each other |
| `Extraction`, `ExtractionLaws`, `LexLaws`, `LineEndings` | the marker parser and what more output, trimming, continuation and carriage returns do to it |
| `Joining` | what it means to join texts each on a line of its own |
| `Runtime` | what the injected Julia runtime prints, with words of its own making, and the print/parse round trip |
| `Truncation`, `Utf8` | the line and byte truncations, and their cuts in valid UTF-8 |
| `Compaction`, `CompactionLaws` | re-printing an oversized accumulator, and what that keeps |
| `Splice`, `Repetition` | the spliced history of captures, when it is exact, and what it loses when it is not |
| `Recency`, `Provenance`, `TailLimits` | which rows of a text every truncation keeps, that it shows no others, and how many it shows |
| `EvalLoop`, `EvalRuns`, `VerdictRuns`, `SliceRuns`, `UncompactedRuns` | the polling loop as a class, and theorems about all its runs |
| `PrintedPane`, `KeptHistory`, `EndToEnd`, `Evaluation` | one evaluation in a pane, and what the loop makes of it |
| `TailBuffer` | the Julia helper's streaming tail against the one-shot truncation |
| `StringLiteral` | Julia string literals and a reader for them |
| `AdvisoryLock` | the lock file, as steps of any number of processes |
| `JsonRpc`, `JobQueue` | request dispatch, and the reader and worker threads |
| `BootstrapCache` | which panes carry the runtime, while REPLs restart |

Operations that loop or assign in the source are methods here, proved equal to a specification
function; what the source promises is then proved of those functions. Shared state between
threads or processes is a state machine whose steps interleave in any order.

## Conventions and hypotheses

- A byte is a `char` whose code is the byte. The theorems hold for every string, so for every
  byte string. `size_t` matters only where a note counts digits; there texts have at most
  2^64 - 1 bytes.
- `Marker` values are the parser's parameter. Laws of the parser need `Apart` (no word is an infix
  of another one) and `Plain` (one line, no blanks at the ends); both are proved of every id
  without line breaks. The round trip needs ids of digits and underscores, which is what
  `make_marker_id` builds.
- Captures end at line ends (`EndsLine`), as tmux prints them, where a theorem about tokens on
  seams needs it. Splicing, extraction, freezing, trimming, truncation and the bound on the
  working set need no such thing.
- `Clean` says that a printed segment contains no marker and does not end in a marker that lacks
  its last one or two characters, which the next marker's leading underscores would supply.
  `PrintParse` shows that this is exactly what parsing back needs. `AllSpotless` asks the same of
  BEGIN.
- `Emission` is the text of `run_command`, with the words that the Julia runtime builds itself
  (`RuntimeMarker`); the parser's words come from `make_marker` (`MakeMarker`). `Recovers` says what
  extraction owes a run: flags, slices, and the combined text, in which the parts are joined in order
  (`JoinsInOrder`), each on a line of its own (`JoinsOnLine`).
- `Prints` says that one evaluation is printed in a pane with unrelated lines around it. `Watches`
  says that the captures are sliding windows of that pane that end at line ends, the first from its
  start. `LosesNoOutput` says that the stream repeats itself around an overlap (`Recurs`) only before
  BEGIN or behind END; it is asked only where slices are returned, not for the verdict.
  `UniqueFirstLinesMakeExact` gives a condition on the screens under which nothing is lost at all.
- `Keeps` compares rows: whatever newest rows fit the two limits, the other text ends with them,
  but for blank rows, which joining lines and dropping final newlines can take out. `Drawn` is the
  other side: notes in front, then at most one row that a cut has shortened, then rows in order.
- Lock: the system never gives two living processes one pid; dead ones' pids may be used again.
- Bootstrap cache: a pane's tokens are not empty and not used again, unless a theorem says that a
  token could not be read.

## Model

| member | source | states |
|---|---|---|
| `Kmp.PrefixFunction` | src/julia_wrap.cpp:298-312 | entry i is the longest proper border of the first i+1 bytes; at most one fallback per byte in total |
| `Kmp.ComputeCaptureOverlap` | src/julia_wrap.cpp:401-432 | the longest suffix of the old capture that is a prefix of the new one, for all inputs, fast path and full match in mid-scan included; at most as many fallbacks as both have bytes |
| `Kmp.AdvanceIsLongest` | src/julia_wrap.cpp:418-431 | once the fallback chain has met a match or run out, the automaton state is the longest overlap of the extended text |
| `Kmp.FallbackKeepsCeiling` | src/julia_wrap.cpp:303-306 | falling back to the longest border skips no candidate overlap |
| `Kmp.OverlapNests` | src/julia_wrap.cpp:303-306 | the overlaps shorter than one overlap are exactly the overlaps within its border |
| `Kmp.TableExtends` | src/julia_wrap.cpp:300-311 | a longest overlap with the shifted text extends a correct table to a correct table |
| `Markers.MadeMarkersAreApart` | src/julia_wrap.cpp:53-64 | for every id, no marker word is an infix of another |
| `Markers.MadeMarkersArePlain` | src/julia_wrap.cpp:53-64 | for ids without line breaks every word is one trimmed line |
| `Markers.NumericWordsOverlapByUnderscores` | src/julia_wrap.cpp:53-71 | for ids of digits and underscores, a word ends in the start of any other, of the same id or not, by two underscores at most |
| `Markers.OccurrencesNeverNest` | src/julia_wrap.cpp:367-386 | in any text, one marker occurrence never lies within another |
| `MarkerIds.IdsAreNumericAndShort` | src/julia_wrap.cpp:66-71 | ids are digits and lone underscores, none at the end, and of 64-bit numbers at most 62 bytes long |
| `MarkerIds.IdsAreDistinct` | src/julia_wrap.cpp:66-71 | ids of different sequence numbers, processes or times differ |
| `MarkerIds.ForeignWordsAreApart` | src/julia_wrap.cpp:53-71 | no marker word of one evaluation stands in a word of another |
| `MarkerIds.EmissionIsUnrelated` | src/julia_wrap.cpp:137-185 | all that one evaluation prints is unrelated lines to another, unless its output holds the other's markers |
| `MarkerIds.EvaluationsDoNotDisturb` | src/tools.cpp:1370-1525 | two evaluations one after the other in a pane: each is printed among lines unrelated to it, so every theorem about one evaluation in a pane holds of both |
| `Text.TrimAscii` | src/julia_wrap.cpp:281-294 | the text without blanks at either end, and nothing else removed |
| `Text.TrimUnique` | src/julia_wrap.cpp:281-294 | any core without outer blanks between blank margins is the trimmed text |
| `Text.OneCharacterTrimmed` | src/julia_wrap.cpp:283-287 | the blanks are space, tab, carriage return and newline, and nothing else |
| `Extraction.FindNextMarkerToken` | src/julia_wrap.cpp:367-386 | the earliest token of any kind but BEGIN, found by separate searches for the kinds |
| `Extraction.FirstTokenUnique` | src/julia_wrap.cpp:367-386 | two earliest tokens are the same: ties cannot occur between words that are apart |
| `Extraction.FindMarkerLinePayloadStart` | src/julia_wrap.cpp:341-357 | the position after the first line that is the trimmed BEGIN word, or nothing |
| `Extraction.AppendSegmentTo` | src/julia_wrap.cpp:314-339 | appends the segment without carriage returns and one final newline, on a line of its own (`BesideJoins`) |
| `Joining.BesideJoins` | src/julia_wrap.cpp:329-339 | the result begins with what was there and ends with the text, and has the rows of both in order, without the text's first row if that is blank and only ends an open one |
| `Joining.JoinIsUnique` | src/julia_wrap.cpp:329-339 | and it is the only text of which that is true |
| `Extraction.ExtractBetweenMarkers` | src/julia_wrap.cpp:434-505 | the scanning loop over positions computes what interpreting the pieces between tokens gives |
| `ExtractionLaws.ExtractionFreezes` | src/julia_wrap.cpp:434-505 | once END has been found, no further output changes the result |
| `ExtractionLaws.LexFrozen` | src/julia_wrap.cpp:456-503 | pieces up to END are the same whatever follows, so no token across the seam can win |
| `ExtractionLaws.TrimKeepsExtraction` | src/tools.cpp:1465-1475 | cutting at the line that holds the first BEGIN leaves extraction unchanged |
| `ExtractionLaws.TrimPointIsExact` | src/tools.cpp:1465-1475 | the cut is the start of the line in which BEGIN first stands |
| `ExtractionLaws.CutsAgree` | src/tools.cpp:1448-1456 | two suffixes of one history that both find BEGIN, where it occurs once, extract alike: a live capture and the accumulator agree |
| `LineEndings.FirstLineDecides` | src/julia_wrap.cpp:341-357 | a line counts as the BEGIN line if and only if it is the BEGIN word between blanks |
| `LineEndings.CrlfReadsAlike` | src/julia_wrap.cpp:314-327 | a capture whose lines end in carriage return and newline extracts exactly as with newlines |
| `Runtime.RunCommand` | src/julia_wrap.cpp:159-185 | BEGIN, output, OUT_END, value, VAL_END as far as the `try` block gets, then ERROR, message, BT, trace as far as the `catch` block gets, which can throw too, and END in every case, with the words of the runtime's own `_marker` |
| `Runtime.SameWords` | src/julia_wrap.cpp:53-64 | the words that the runtime prints for its six names are those that `make_marker` gives the parser |
| `Runtime.EmissionIsPrint` | src/julia_wrap.cpp:137-185 | what the runtime prints is the BEGIN line and the run's segments, each closed by the word the parser expects for it |
| `Runtime.PrintedMarkerIsFirst` | src/julia_wrap.cpp:367-386 | the parser stops at the printed marker if and only if the text before it is clean |
| `Runtime.PrintParse` | src/julia_wrap.cpp:434-505 | parsing printed pieces gives them back, whatever follows, if and only if every segment is clean |
| `Runtime.RoundTrip` | src/julia_wrap.cpp:137-185 | extracting with the parser's words what the runtime printed with its own recovers output, value, late output, error and backtrace up to a final newline, with the right flags, and the combined text, every part in order on a line of its own |
| `Truncation.SplitLinesLoop` | src/julia_wrap.cpp:260-279 | the lines of the text, a last unterminated one included |
| `Truncation.UnlinesInvertsLines` | src/julia_wrap.cpp:260-279 | joining the split lines by newlines gives the text back |
| `Truncation.LinesInvertsUnlines` | src/julia_wrap.cpp:260-279 | splitting joined lines gives the lines back |
| `Truncation.JoinLinesLoop` | src/julia_wrap.cpp:11-21 | the lines with a newline before each that something was written before |
| `Truncation.JoinLosesLeadingBlanks` | src/julia_wrap.cpp:14-19 | the join is the proper join of the lines that remain when blank ones in front are dropped, and empty only if none remain |
| `Truncation.SafeSuffixStartLoop` | src/julia_wrap.cpp:40-49 | the first byte at or after the position that continues no character |
| `Truncation.SafePrefixLengthLoop` | src/julia_wrap.cpp:28-38 | the last position at or before the limit that continues no character, or 0 |
| `Truncation.TruncateLinesImpl` | src/julia_wrap.cpp:507-528 | the line prefix with its note |
| `Truncation.TruncateLinesTailImpl` | src/julia_wrap.cpp:530-548 | the line tail with its note |
| `Truncation.TruncateBytesImpl` | src/julia_wrap.cpp:550-566 | the byte prefix with its note |
| `Truncation.TruncateBytesTailImpl` | src/julia_wrap.cpp:568-580 | the byte tail with its note |
| `Truncation.BytesTailBound` | src/julia_wrap.cpp:568-580 | a byte tail is at most 64 bytes over its limit, the digits of the note included |
| `Truncation.LinesTailKeepsNewest` | src/julia_wrap.cpp:530-548 | without carriage returns, a line tail is a note of the omitted count and a suffix of the text, but for its final newline, of at most that many lines |
| `Truncation.LinesPrefixKeepsOldest` | src/julia_wrap.cpp:507-528 | without carriage returns, a line prefix is a prefix of the text of at most that many lines, without blank ones in front, and a note of the omitted count |
| `Truncation.LinesTailKeepsSuffix` | src/julia_wrap.cpp:530-548 | without carriage returns, every line tail is the text or a note followed by a suffix of it, up to its final newline |
| `Truncation.BytesTailKeepsSuffix` | src/julia_wrap.cpp:568-580 | every byte tail is the text, or a note followed by a suffix of it |
| `Truncation.DecimalReadsBack` | src/julia_wrap.cpp:545 | the digits in a note read back as the number, without leading zeros |
| `TailLimits.NothingToOmit` | src/julia_wrap.cpp:507-580 | a text within the limit is left alone by all four truncations |
| `TailLimits.NothingIsShown` | src/julia_wrap.cpp:507-580 | with a limit of zero each of the four only says that the output is hidden |
| `TailLimits.CarriageReturnsDoNotCount` | src/julia_wrap.cpp:260-279 | carriage returns before the end of a text are not counted as lines, and are dropped exactly from texts that are cut |
| `TailLimits.ToolTailHasFewRows` | src/tools.cpp:142-146 | without carriage returns, a tool tail has at most two rows, its notes, more than allowed |
| `TailLimits.ToolTailLeavesAlone` | src/tools.cpp:142-146 | a text within both limits is shown as it is |
| `TailLimits.ToolTailCountsRows` | src/tools.cpp:142-146 | if only the lines are too many, the note says how many are left out and the newest rows follow, all of them if none is blank |
| `TailLimits.ToolTailCountsBytes` | src/tools.cpp:142-146 | if only the bytes are too many, the note says how many are left out and the rest follows |
| `Utf8.BoundaryIsNoContinuation` | src/julia_wrap.cpp:23-26 | in valid UTF-8 (section 4 of RFC 3629) the character boundaries are exactly the positions without a continuation byte |
| `Utf8.BytesTailCutsAtBoundary` | src/julia_wrap.cpp:568-580 | the tail of valid text is valid, starts at the nearest boundary within the limit, loses at most three bytes more, and notes what it omits |
| `Utf8.BytesPrefixCutsAtBoundary` | src/julia_wrap.cpp:550-566 | the same for the prefix |
| `LexLaws.LexConcat` | src/julia_wrap.cpp:456-503 | behind a line end the pieces of a text and of its continuation join up |
| `LexLaws.VerdictContinues` | src/julia_wrap.cpp:434-505 | flags and phase after more output follow from flags and phase before and the new output alone |
| `Compaction.CompactMarkerAccumulator` | src/tools.cpp:142-192 | prints BEGIN, the tail of each slice and the sighted markers as a list of pieces |
| `TailLimits.BlocksAreSmall` | src/tools.cpp:165-186 | each slice is printed with at most 2002 rows and 262209 bytes, the backtrace with at most 202 and 131137 |
| `TailLimits.BlocksShowSmallTexts` | src/tools.cpp:165-186 | up to 2000 rows and 256 KiB, or 200 and 128 KiB, a slice is printed whole |
| `CompactionLaws.ExtractedSlicesAreClean` | src/julia_wrap.cpp:434-505 | no slice that extraction returns holds or completes a marker, so slices can be printed again |
| `CompactionLaws.ToolTailIsClean` | src/tools.cpp:142-146 | truncation with its notes keeps a slice clean |
| `CompactionLaws.CompactParses` | src/tools.cpp:165-192 | parsing a compacted accumulator gives the printed pieces back |
| `CompactionLaws.CompactionKeepsVerdict` | src/tools.cpp:1491-1502 | found END, Julia error and phase are the same with every continuation, before and after compaction, if and only if the sighted flags agree with the parse |
| `CompactionLaws.SightedIsParsed` | src/tools.cpp:1493-1497 | searching the accumulator for markers sights exactly those that its parse has met |
| `CompactionLaws.RuntimeOrderAgrees` | src/tools.cpp:1491-1502 | in every order in which the runtime can print, errors while showing or reporting included, the flags do agree |
| `CompactionLaws.CompactionTruncatesSlices` | src/tools.cpp:165-192 | reading back gives each slice's truncated tail up to one newline; the value slice is lost once ERROR was sighted |
| `CompactionLaws.CompactionContinues` | src/tools.cpp:165-192 | with any further output, the closed slices stay the kept tails and the open one takes up the output behind its own kept block |
| `CompactionLaws.CompactIsBounded` | src/tools.cpp:165-192 | a compacted accumulator fits the limit, notes and markers included |
| `Splice.SpliceIsShortest` | src/tools.cpp:1439-1446 | the splice is the shortest text that begins with the old capture and ends with the new one |
| `Splice.HistoryEndsWithLast` | src/tools.cpp:1433-1446 | the spliced history always ends with the last capture |
| `Splice.ExactUsesTrueOverlap` | src/julia_wrap.cpp:401-432 | the computed overlap is the true one if and only if the stream around it, widened at both ends, has no period |
| `Splice.NewsOfWindow` | src/tools.cpp:1439-1446 | one splice of sliding windows never adds more than the new output, and adds just that if and only if the stream does not repeat itself around the overlap; otherwise it loses the first part of the new output |
| `Splice.HistoryOfWindows` | src/tools.cpp:1433-1446 | over any run the history is never longer than the stream covered, and equals it if and only if the stream repeats itself around none of the overlaps |
| `Splice.LossRepeats` | src/tools.cpp:1439-1446 | what one splice loses equals what stands right before it on the stream, and nothing is lost if and only if nothing recurs |
| `Splice.HistoryLeavesOutLosses` | src/tools.cpp:1433-1446 | over any run the history is the covered stream with just those blocks left out: nothing is invented or reordered |
| `Splice.UniqueFirstLinesMakeExact` | src/tools.cpp:1439-1446 | it does if each new screen's first line was on the old one exactly once |
| `Splice.RepeatedOutputIsLost` | src/julia_wrap.cpp:412-415 | a screenful printed once more adds nothing: splicing under-appends on periodic output |
| `Repetition.RepeatedIsUnrelated` | src/tools.cpp:1439-1446 | what a splice loses repeats whole lines just shown, so it holds no marker word that is printed once |
| `Repetition.WindowsEcho` | src/tools.cpp:1433-1446 | over any run of sliding windows that end at line ends, the history has begun and has read the same markers as the stream covered, whatever output it lost |
| `Recency.LinesTailKeeps` | src/julia_wrap.cpp:530-548 | without carriage returns, the line tail ends with the newest rows that fit its limit |
| `Recency.BytesTailKeeps` | src/julia_wrap.cpp:568-580 | the byte tail ends with the newest rows that take fewer bytes than its limit |
| `Recency.ToolTailKeeps` | src/tools.cpp:142-146 | both truncations in turn end with the newest rows that fit both limits |
| `Recency.KeepsTwice` | src/tools.cpp:1491-1502 | keeping the newest rows is transitive, so it survives any number of truncations |
| `Provenance.ToolTailDraws` | src/tools.cpp:142-146 | truncating text drawn from some rows gives text drawn from them: notes in front, at most one cut row, rows in order |
| `Provenance.DrawnPicked` | src/julia_wrap.cpp:314-339 | so does leaving out rows, as dropping blank ones does |
| `EvalLoop.Session.constructor` | src/tools.cpp:1394-1404 | a session starts with nothing accumulated and the shortest backoff |
| `EvalLoop.Session.SpliceCapture` | src/tools.cpp:1433-1446 | appends what the new capture adds, and reports growth if and only if there is some |
| `EvalLoop.Session.ReadCapture` | src/tools.cpp:1448-1456 | reads the live capture, or the accumulator if that shows no BEGIN |
| `EvalLoop.Session.TrimBeforeBegin` | src/tools.cpp:1465-1475 | once, when BEGIN has been located, drops everything before its line |
| `EvalLoop.Session.SettleAccumulator` | src/tools.cpp:1491-1510 | compacts an oversized accumulator that has begun, and drops the head of one that has not |
| `EvalLoop.Session.Poll` | src/tools.cpp:1411-1525 | one iteration: its new state, its failures, its backoff, and how the loop goes on |
| `EvalLoop.Session.Run` | src/tools.cpp:1411-1525 | the whole loop's state is the fold of the polls over the captures shown; it finishes exactly when END has been read, and otherwise stops only at the deadline, after six failures in a row or on a rejection |
| `EvalRuns.PollIsBounded` | src/tools.cpp:1491-1510 | from a bounded accumulator, any capture leaves a bounded one unless END was found |
| `EvalRuns.WorkingSetIsBounded` | src/tools.cpp:31-35 | after every poll that continues, the accumulator has at most one mebibyte, whatever the pane prints |
| `EvalRuns.SettleIsExact` | src/tools.cpp:1491-1510 | up to one mebibyte nothing changes; above it a begun accumulator is compacted and read again, and another one is cut to its last half mebibyte, less the first line of that |
| `EvalRuns.AccumulatorIsSuffixOfHistory` | src/tools.cpp:1433-1510 | until compaction, accumulator and last capture are suffixes of the one spliced history |
| `VerdictRuns.SettleTracks` | src/tools.cpp:1491-1510 | dropping and compacting leave an accumulator that stands for the history in every continuation |
| `VerdictRuns.RunTracks` | src/tools.cpp:1411-1525 | every run of captures of a well-formed history keeps that |
| `VerdictRuns.RunVerdict` | src/tools.cpp:1411-1525 | over every run, what the loop has last read has the found-BEGIN, found-END and error flags of extracting the whole untrimmed history |
| `SliceRuns.ExtractedThins` | src/julia_wrap.cpp:434-505 | a slice that extraction returns holds the rows of its segments, without some blank ones |
| `SliceRuns.CompactCarries` | src/tools.cpp:1491-1502 | compaction keeps the newest rows of every slice, except the value once an error was printed |
| `SliceRuns.RunKeepsNewest` | src/tools.cpp:1411-1525 | over every run, however often it compacts, every slice of what the loop has last read ends with the newest rows that the history shows of it, within the limits of one compaction, and holds nothing else but notes and earlier rows in order |
| `PrintedPane.PaneIsHistory` | src/julia_wrap.cpp:159-185 | one evaluation printed among unrelated lines is a history for which the run theorem holds |
| `PrintedPane.PaneHasWordsOnce` | src/julia_wrap.cpp:159-185 | in the pane of one evaluation every marker word stands at most once |
| `PrintedPane.NotEndedBefore` | src/julia_wrap.cpp:481-503 | what is shown of the pane up to a line end before the one of END has not ended |
| `PrintedPane.UnderscoreFreeIsAllSpotless` | src/julia_wrap.cpp:53-64 | output without underscores meets what is asked of an evaluation's segments |
| `KeptHistory.HistoryFrames` | src/tools.cpp:1433-1446 | if what splicing loses lies outside a part of the stream, the history holds that part whole, as far as shown, with other lines around it |
| `UncompactedRuns.UncompactedRunReads` | src/tools.cpp:1411-1525 | until compaction, what the loop has last read is exactly what extracting the whole history gives |
| `UncompactedRuns.SmallRunsNeverCompact` | src/tools.cpp:1491-1502 | no run compacts whose history, from BEGIN on, has not outgrown a mebibyte before it ends |
| `EndToEnd.EvaluationVerdict` | src/tools.cpp:1411-1525 | the loop has seen the evaluation end if and only if the captures have shown it to its end, and then reports an error exactly when it failed, whatever output splicing lost and however often the loop trimmed, dropped or compacted |
| `EndToEnd.PendingUntilEnd` | src/tools.cpp:1512-1514 | the loop goes on if and only if no capture so far has shown END |
| `EndToEnd.LiveCaptureWins` | src/tools.cpp:1448-1456 | a capture in which extraction finds END is read as it is, whatever was captured and spliced before |
| `EndToEnd.EvaluationResult` | src/tools.cpp:1411-1525 | if splicing lost no output between BEGIN and END, and at most a mebibyte from BEGIN on had been shown by any capture before END, the loop returns every slice as printed, up to one newline, and the combined text |
| `EndToEnd.EvaluationKeepsNewest` | src/tools.cpp:1411-1525 | if splicing lost no output between BEGIN and END, then after any number of compactions every slice ends with the newest rows printed of it, up to 2000 rows and less than 256 KiB (200 rows and 128 KiB of the backtrace), blank rows aside, behind only notes and earlier rows in order; only the value of a failed evaluation is given up |
| `Evaluation.RunMarkerEval` | src/tools.cpp:1370-1525 | run on the captures of a printed evaluation, the loop finishes at the first capture that shows END and at no other, with the right verdict, and with every slice if that capture shows BEGIN; with time left and a readable pane it finishes if and only if END is shown |
| `Evaluation.LossReachesSlice` | src/tools.cpp:1439-1446 | for any lines that an evaluation prints three times there are screens for which the loop finishes and returns them twice |
| `EndToEnd.OneScreenSuffices` | src/tools.cpp:1448-1456 | after any captures whatever, one that shows a clean evaluation from BEGIN to END returns every slice and the combined text |
| `TailBuffer.TruncateBytesTailJulia` | julia/JJMCPHelper/src/JJMCPHelper.jl:218-229 | the Julia loop over positions from one gives the C++ truncation; limits below zero hide everything |
| `TailBuffer.TailByteBuffer.Append` | julia/JJMCPHelper/src/JJMCPHelper.jl:163-179 | data and omitted count after a chunk |
| `TailBuffer.TailByteBuffer.TakeString` | julia/JJMCPHelper/src/JJMCPHelper.jl:181-186 | the shown text; turning the bytes into a string empties the buffer |
| `TailBuffer.DrainPipeTail` | julia/JJMCPHelper/src/JJMCPHelper.jl:188-209 | draining a pipe shows the tail of all chunks read, empty reads making no difference |
| `TailBuffer.StreamKeepsSuffix` | julia/JJMCPHelper/src/JJMCPHelper.jl:163-179 | for every chunking: kept bytes are a suffix within the limit, and omitted plus kept is the total |
| `TailBuffer.StreamCuts` | julia/JJMCPHelper/src/JJMCPHelper.jl:163-179 | the stream is cut where the one shot cuts, or after a full run of continuation bytes was discarded |
| `TailBuffer.StreamingEqualsOneShot` | julia/JJMCPHelper/src/JJMCPHelper.jl:157-186 | every chunking shows what the one shot shows, if and only if no discarded run of continuation bytes goes on behind a possible cut |
| `TailBuffer.NoRoomShowsNothing` | julia/JJMCPHelper/src/JJMCPHelper.jl:163-186 | with a limit of zero or below both say that the output is hidden, and the stream counts every byte |
| `TailBuffer.ValidStreamsAgree` | julia/JJMCPHelper/src/JJMCPHelper.jl:163-186 | for valid UTF-8 and a limit of three or more they always agree, and cut at a character boundary |
| `TailBuffer.TwoBytesAreNotEnough` | julia/JJMCPHelper/src/JJMCPHelper.jl:163-179 | with a limit of two, one four-byte character in two chunks leaves a broken tail |
| `StringLiteral.JuliaStringLiteral` | src/julia_wrap.cpp:73-109 | the quoted text with each byte escaped |
| `StringLiteral.BodyRoundTrip` | src/julia_wrap.cpp:73-109 | past the opening quote, Julia's reader gives back the text and stops exactly at what follows, for every text and every rest |
| `StringLiteral.LiteralRoundTrip` | src/julia_wrap.cpp:73-109 | the whole literal reads back, if and only if it is not an empty one that a quote follows, which opens a triple-quoted string |
| `StringLiteral.LiteralsDelimitThemselves` | src/julia_wrap.cpp:73-109 | no literal is a prefix of another, so the literal determines the text |
| `StringLiteral.InteriorIsWellEscaped` | src/julia_wrap.cpp:73-109 | no raw control byte, every inner quote and dollar behind an odd number of backslashes, none open at the end |
| `StringLiteral.PlainTextStays` | src/julia_wrap.cpp:73-109 | text that needs no escape stands between the quotes as it is |
| `StringLiteral.EscapesAreShort` | src/julia_wrap.cpp:73-109 | an escape is two characters long, or four for a control byte without a letter of its own |
| `AdvisoryLock.StepKeepsGuarded` | src/tools.cpp:532-571 | every step that is not a stray unlink keeps each owner's file at the path |
| `AdvisoryLock.StrayFreeRunsExclude` | src/tools.cpp:525-576 | over any interleaving of any number of processes without a stray unlink, at most one owns the lock |
| `AdvisoryLock.ExclusiveWithoutDeaths` | src/tools.cpp:525-576 | from an empty directory, mutual exclusion in every run in which no process dies |
| `AdvisoryLock.ExclusiveWhenReclaimingAtOnce` | src/tools.cpp:551-559 | with deaths and pid reuse, mutual exclusion if read, check and unlink follow one another undisturbed |
| `AdvisoryLock.StrayUnlinkIsExact` | src/tools.cpp:551-557 | where every owner's file is at the path, a step lets some continuation without stray unlinks end with two owners, if and only if it is one |
| `AdvisoryLock.LockSurvives` | src/tools.cpp:532-571 | while an owner neither dies nor releases, in runs without a stray unlink, no other process's acquire, failed or not, touches its lock |
| `AdvisoryLock.NothingIsLeftBehind` | src/tools.cpp:525-576 | while no process dies, the lock file is there if and only if a process owns the lock |
| `AdvisoryLock.TriesAreBounded` | src/tools.cpp:536-561 | over any interleaving, at most two attempts: acquiring and releasing takes at most eight steps each time |
| `AdvisoryLock.InterleavedReclaimBreaksExclusion` | src/tools.cpp:551-557 | a reachable state with two owners: two processes reclaim the same dead holder's file |
| `AdvisoryLock.OrphanBlocksForever` | src/tools.cpp:536-560 | from an orphaned state no continuation reclaims the file or has an owner |
| `AdvisoryLock.OrphansExactly` | src/tools.cpp:536-560 | of every reachable state: no continuation has an owner, if and only if a file records nothing, nobody owns or reclaims, and every checker has read nothing or its own pid |
| `AdvisoryLock.DyingEarlyOrphans` | src/tools.cpp:537-548 | such a state is reachable: a process dies between creating its file and writing it |
| `AdvisoryLock.Lock.ReclaimIfStale` | src/tools.cpp:551-557 | a file is unlinked if and only if its recorded process is gone |
| `AdvisoryLock.Lock.Acquire` | src/tools.cpp:532-562 | run alone: succeeds if and only if the path is free or stale, on failure leaves all as it was except for a stale file reclaimed, and is a run of the steps above |
| `AdvisoryLock.Lock.Release` | src/tools.cpp:564-571 | removes the file if and only if this object holds the lock |
| `JsonRpc.AnsweredExactly` | src/main.cpp:172-187 | every request gets one response with its own id, or null if it has none; well-formed notifications and notifications/initialized get none (JSON-RPC 2.0, sections 4.1 and 5); tools that throw change nothing |
| `JsonRpc.ReplyIsResponse` | src/mcp.cpp:90-186 | dispatch is silent exactly on the requests that get no response, and any reply carries the id and either a result or an error |
| `JsonRpc.MalformedAnswer` | src/mcp.cpp:94-98 | what is no request is answered by one error, -32600, or -32603 if the version is not a string |
| `JsonRpc.ToolCallsAreAnswered` | src/mcp.cpp:152-183 | a good tools/call is answered with what the tool gives for its name and arguments, none being an empty object, or with -32603 and what it raised |
| `JsonRpc.BadCallsAreRefused` | src/mcp.cpp:152-166 | any other tools/call is answered with -32602 and which parameter is bad |
| `JsonRpc.ToolResultSays` | src/mcp.cpp:25-36 | a tool's answer carries its text, a flag if and only if it is an error, and structured content if and only if there is some |
| `JsonRpc.ResourcesAreRead` | src/mcp.cpp:137-150 | resources/read is answered with the contents at its uri, -32002 and the reason if they cannot be read, -32602 if its parameters are bad, -32603 if reading raises |
| `JsonRpc.ListingsAreAnswered` | src/mcp.cpp:129-135 | tools and resources are listed under their own names, or -32603 if listing raises |
| `JsonRpc.HandshakeIsAnswered` | src/mcp.cpp:114-127 | initialize names protocol, server and capabilities; ping is answered with nothing |
| `JsonRpc.OtherMethodsAreUnknown` | src/mcp.cpp:185 | a request for any other method is answered with -32601 |
| `JsonRpc.NotificationsAreNotAnswered` | src/mcp.cpp:102-112 | a notification is not answered; after notifications/initialized the client is told that the tools have changed |
| `JobQueue.RunsStayCoherent` | src/main.cpp:189-257 | in every interleaving: mutex discipline, flag and queue states, and what each thread's position implies |
| `JobQueue.NoLostWakeUp` | src/main.cpp:196-203 | the worker never sleeps with its predicate true unless a notification is still to come |
| `JobQueue.StepKeepsOrder` | src/main.cpp:196-212 | handled, in flight and queued, in this order, change only by the reader's push at the end |
| `JobQueue.JobsStayInOrder` | src/main.cpp:189-256 | at any time those followed by what is still to be pushed are the input's worker requests in order |
| `JobQueue.ResponsesAreConserved` | src/main.cpp:172-256 | at any time the ids answered and the ids still owed make up what the input calls for |
| `JobQueue.RunsStaySourced` | src/main.cpp:172-256 | over every interleaving, each message written comes from handling a request of the input, or is the -32700 for a line that is no JSON |
| `JobQueue.ReaderIgnoresTools` | src/main.cpp:159-168 | at any time the reader's next step is the same whatever the tools do |
| `JobQueue.WorkerMethodsReachTools` | src/main.cpp:159-168 | the worker is given only methods whose answers do depend on the tools |
| `JobQueue.StepOnlyAppends` | src/main.cpp:172-187 | what has been written or handled is never taken back |
| `JobQueue.RunsAreBounded` | src/main.cpp:189-256 | every run is at most 12 steps per line, 13 more, and 4 per spurious wake-up long |
| `JobQueue.NoDeadlock` | src/main.cpp:189-256 | unless the server has returned, some thread can move without a spurious wake-up |
| `JobQueue.CompleteRunsServeEverything` | src/main.cpp:194-257 | a run that can go no further has returned, with the worker ended, each job handled once and in order, and every response written |
| `BootstrapCache.RuntimeBootstrapCache.IsCurrent` | src/tools.cpp:1161-1171 | the pane is known, and the tokens agree or one of them is empty |
| `BootstrapCache.RuntimeBootstrapCache.Mark` | src/tools.cpp:1173-1176 | afterwards the pane is current for that token and the empty one only, other panes as before |
| `BootstrapCache.RuntimeBootstrapCache.Invalidate` | src/tools.cpp:1178-1181 | afterwards the pane is current for no token, other panes as before |
| `BootstrapCache.RunsStaySound` | src/tools.cpp:1214-1291 | over every run with restarts at any point, a cached token never names a live process without the runtime |
| `BootstrapCache.CurrentMeansInstalled` | src/tools.cpp:1214-1291 | a yes to the live token, by a known token, means that the runtime is in that live process |
| `BootstrapCache.CodeMeetsRuntime` | src/tools.cpp:1364-1376 | code about to be pasted meets the runtime, unless the REPL restarted since its token was read or a token is unknown |
| `BootstrapCache.CacheChangesOnlyBy` | src/tools.cpp:1214-1291 | only marking after a bootstrap adds or changes an entry, only binding and a rejection remove one |
| `BootstrapCache.CachedPanesWereBootstrapped` | src/tools.cpp:1214-1291 | over every run, the cache knows only panes in which a bootstrap has run |
| `BootstrapCache.EvaluationsPasteAtMostTwice` | src/tools.cpp:1569-1584 | each evaluation pastes the code at most twice and the bootstrap at most twice, and pastes again only after a bootstrap |
| `BootstrapCache.RejectionIsRetried` | src/tools.cpp:1569-1584 | an evaluation whose code was rejected does not end before it has bootstrapped and pasted once more, unless it gives up |
| `BootstrapCache.RetryMeetsRuntime` | src/tools.cpp:1573-1581 | whatever the tokens, in the retry the code about to be pasted meets the runtime just bootstrapped, unless the REPL restarted after that |
| `BootstrapCache.EvaluationsEnd` | src/tools.cpp:1364-1584 | an evaluation under way can always go on without giving up, and is over after at most fifteen steps of its own |
| `BootstrapCache.CachedPanesNeedNoBootstrap` | src/tools.cpp:1220-1224 | no bootstrap is sent if and only if the pane is known and the tokens do not differ |
| `BootstrapCache.BindForgets` | src/tools.cpp:894 | binding a pane makes it current for no token and leaves the others as they were |
| `BootstrapCache.CodeMissesRuntime` | src/tools.cpp:1161-1171 | each of the three exceptions alone has a run to code that meets no runtime: a restart after the token was read, a token that cannot be read, one that could not be read before |

## Findings

- Splicing loses output when the stream repeats itself around an overlap (`RepeatedOutputIsLost`,
  `NewsOfWindow`). The verdict survives the loss (`EvaluationVerdict`), the slices do not
  (`LossReachesSlice`), unless the last capture shows the whole evaluation (`OneScreenSuffices`).
- Compaction drops the value slice once ERROR has been sighted; the flags and the phase survive
  (`CompactionTruncatesSlices`, `RuntimeOrderAgrees`).
- The prefix fast path of the overlap is no exception to the longest overlap, as the comment at
  src/julia_wrap.cpp:406-411 suggests: a prefix match of all of the old capture is the longest
  overlap there can be (`ComputeCaptureOverlap`).
- What follows VAL_END goes into the output slice (src/julia_wrap.cpp:494-497), where the comment
  says that it goes into none; the model does as the code does, and so `Recovers` puts late output there.
- A literal of the empty text followed by a quote would open a triple-quoted string. The source
  never puts a quote there (`LiteralRoundTrip`).
- A holder that dies between creating and writing the lock file blocks the lock for good
  (`DyingEarlyOrphans`, `OrphansExactly`); two reclaims of one dead holder can interleave into two owners
  (`InterleavedReclaimBreaksExclusion`). The comment at src/tools.cpp:520-524 names pid reuse as
  the remaining race: pid reuse only delays reclaiming, and the race is this interleaving.
- A request whose version is not a string is answered with -32603, not -32600 (`MalformedAnswer`).
- The streaming tail and the one shot differ on some invalid UTF-8, and below a limit of three
  bytes on valid text too (`StreamingEqualsOneShot`, `TwoBytesAreNotEnough`).

## Left out

- tmux, processes, sockets, /proc, files and logging: a capture is any string, or a window of a
  stream; the clock is a number that comes with each event.
- Julia itself: parsing and running code, `redirect_stdout`, the REPL's echo. Only the order in
  which the runtime prints markers is modelled, and what it prints between them is any text.
- The missing-runtime heuristic (src/tools.cpp:1148-1157) is a boolean that comes with a capture.
- Progress notifications and the texts of results, time-outs and status reports: no state depends on them.
- The bootstrap's own polling loop (src/tools.cpp:1236-1274) splices and extracts as the modelled loop
  does, without trimming or compaction; in the cache's runs it is one step that succeeds or gives up.
- Reading frames, JSON schemas, the tool list and argument checks: one branch each. Lines arrive as
  JSON values or as unparsable; `read_mcp_message` never fails, so the branch for that is not modelled.
- The `Test Summary` parser, transcripts, settings and configuration files.
- `AdvisoryLock`: opening and reading the lock file is one step, and a write stores the whole pid
  or nothing; kill's permission errors count as alive, as in the code.
- `JsonRpc`: the arguments and results of the single tools, progress notifications while one runs, and the
  wording of the exception that a version of another type raises.
- `JobQueue`: a handled request's message is written in one step, as the output mutex makes it;
  taking a job and leaving the mutex are one step under that mutex.
- `StringLiteral.ReadEscape`: octal and Unicode escapes, which no literal contains, read as malformed.
- `EvaluationResult`: of slices whose output splicing has lost nothing is claimed; what a run that
  compacted returns of them is `EvaluationKeepsNewest`. That speaks of the slices, not of the combined text.
- `Watches`: a line that is still being written is captured with a newline behind it and goes on in a
  later capture. Such captures are no windows of an append-only stream and are not modelled.

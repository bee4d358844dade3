# A verified model of a small MapReduce engine and its two jobs

The engine's `mapreduce()` (mapreduce.c) runs one job over one input file in four steps:

1. It cuts the input into `split_num` split files `split-<i>`.
2. It runs one map worker per split; map worker i writes the intermediate file `mr-<i>.itm`.
3. It waits for the map workers.
4. It runs one reduce worker. The reduce worker opens the intermediate files in index order, keeping the descriptor `open` returns for `mr-<i>.itm` at position i of the array `intermediate_fds`, and writes `mr.rst`.

Two jobs are supplied as pluggable functions (usr_functions.c):

- **Letter counter.** The map counts the letters A–Z of its split, case-insensitively, and writes one `"<L> <n>\n"` line per letter that occurs. The reduce parses those lines from every intermediate file and writes the totals in the same form.
- **Word finder.** The map assembles the lines of its split and writes every line that holds the job's target word as a whole word. The reduce concatenates the intermediate files.

The model works on files as byte sequences (`seq<char>`).

- **Split phase** (`Splitter`) is modelled by the imperative methods `FillSplit`, `WriteSplits` and `SplitPhase` over the input stream. They are proved equal to functions whose properties are lemmas.
- **File names and decimal formatting** (`FileNames`, `DecimalFormat`) are pure functions, with lemmas about them.
- **Job functions** (`LetterCounter`, `WordFinder`) are modelled the same way, as the source runs them:
  - the 1024-byte and 255-byte reads;
  - the strtok/sscanf parsing;
  - the 1023-byte line buffer;
  - the `strstr` skip-ahead scan.
- **The whole job** (`Job`) is modelled two ways over a directory of named files:
  - a function, `RunJob`;
  - a method, `MapReduce`, that calls the real method of every phase.

  On top of those, lemmas connect the end result to the input.

Files:

- `basics.dfy`: shared types, such as the outcome of a pluggable function and `DATA_SPLIT`.
- `decimal.dfy`: `"%d"` as snprintf prints it and sscanf reads it.
- `names.dfy`, `splitter.dfy`: mapreduce.c lines 36-72.
- `letter_counter.dfy`, `word_finder.dfy`: the four job functions.
- `job.dfy`: the composed run.

Where the system's documented design and its code disagree, the model follows the code:

- **The last split.** The documented design says the last split absorbs all remaining lines. The code gives the last split the same stop rule as every other split, so whatever the splits together leave of the input is read by no one. `Splitter.UnreadTailIsShort` bounds that tail, and `Splitter.TailDroppedExample` exhibits one.
- **Long lines.** The documented design says no line is ever divided across two split files. The code can divide a line of 1024 bytes or more, because `fgets` returns it in 1023-byte pieces. This happens only when a split reaches its byte target at the end of a 1023-byte piece that ends without a newline (mapreduce.c:61-64). `Splitter.SplitKeepsLinesWhole` states exactly where a boundary can fall.

## Model

| member | source | states |
|---|---|---|
| `DecimalFormat.DecimalRoundTrip` | usr_functions.c:53 | the digits `"%d"` prints for a non-negative count have that count as their value |
| `DecimalFormat.DecimalInjective` | mapreduce.c:49 | two values print the same digits exactly when they are equal |
| `DecimalFormat.ScanDecimalRoundTrip` | usr_functions.c:108 | `"%d"` of sscanf, after any white space, reads back the value `"%d"` printed |
| `DecimalFormat.IntDecimalWidth` | usr_functions.c:53 | a non-negative C `int` prints in at most ten digits |
| `DecimalFormat.ScanDecimalShape` | usr_functions.c:108 | `"%d"` of sscanf finds no value in white space alone; a value it reads is negative only after a '-'; a digit as the first byte after the white space always gives a non-negative value |
| `FileNames.FileNamesDistinct` | mapreduce.c:47-71 | split names are equal iff their indices are; intermediate names are equal iff their indices are; no split name is an intermediate name; neither kind is `mr.rst` |
| `FileNames.FileNamesFit` | mapreduce.c:48-49 | for every index a C `int` holds, each name and its NUL fit the 20-byte buffer, so snprintf never truncates a name |
| `FileNames.NameTablesAt` | mapreduce.c:47-71 | entry i of the split-name and intermediate-name tables is the name for index i |
| `Splitter.SplitSizeIsQuotient` | mapreduce.c:36 | the split size is the truncated quotient: size·n ≤ input size < (size+1)·n |
| `Splitter.PieceEnd` | mapreduce.c:61 | one fgets call reads at most 1023 bytes, and at least one unless the stream is at its end |
| `Splitter.PieceIsFgets` | mapreduce.c:61 | a piece holds a newline only as its last byte, and ends after a newline, after 1023 bytes, or at the end of the input |
| `Splitter.ChunkEnd` | mapreduce.c:61-64 | the inner loop of split i moves the stream forward and never past the end of the input |
| `Splitter.ChunkStopRule` | mapreduce.c:61-64 | a split reads nothing when nothing is wanted; otherwise it reaches the target unless the input runs out, and stays below target + 1023 bytes |
| `Splitter.ChunkIsWholePieces` | mapreduce.c:61-64 | every split is a run of whole fgets pieces |
| `Splitter.LastPieceStart` | mapreduce.c:61-64 | the last piece of a non-empty split starts while the split is still below its target, and ends where the split ends |
| `Splitter.SplitIsPrefix` | mapreduce.c:47-72 | the split files in index order are exactly the first `Consumed` bytes of the input: no overlap, no reordering, no gap |
| `Splitter.SplitThenUnread` | mapreduce.c:47-72 | the input is the split files followed by the bytes left unread |
| `Splitter.SplitChunkSizes` | mapreduce.c:61-64 | split i holds at least the split size unless it ends the input, fewer than split size + 1023 bytes, and nothing when the split size is 0 |
| `Splitter.SplitChunkOvershoot` | mapreduce.c:61-64 | a non-empty split exceeds its target by less than the length of its last piece |
| `Splitter.SplitKeepsLinesWhole` | mapreduce.c:57-64 | every split boundary inside the input follows a newline or 1023 bytes without one, so a line shorter than 1024 bytes is never divided |
| `Splitter.SplitEndsAtNewlines` | mapreduce.c:57-64 | when every line fits the fgets buffer, each split is empty, ends with a newline, or reaches the end of the input |
| `Splitter.ShortInputGivesEmptySplits` | mapreduce.c:36-64 | an input shorter than the split count gives split size 0 and only empty split files |
| `Splitter.ExhaustedInputGivesEmptySplits` | mapreduce.c:61 | once the input is used up, every later split file is empty |
| `Splitter.UnreadTailIsShort` | mapreduce.c:47-72 | the bytes left unread, which no split receives, number fewer than the split count |
| `Splitter.TailDroppedExample` | mapreduce.c:47-72 | a five-byte input of the shape "a\nb\nc" in two splits gives the splits "a\n" and "b\n", and its last byte is never read |
| `Splitter.FillSplit` | mapreduce.c:57-64 | the inner while loop copies the input from the stream position to where the stop rule ends the split, and returns the new position |
| `Splitter.WriteSplits` | mapreduce.c:47-71 | the for loop fills split i from where split i-1 left the stream, and fills both name tables |
| `Splitter.SplitPhase` | mapreduce.c:36-72 | phase 1 produces the split size, the split files `Split(input, n)`, both name tables, and the unread tail, with input = splits + tail |
| `LetterCounter.BucketIsCaseInsensitive` | usr_functions.c:34-40 | bucket k receives exactly the upper- and lower-case k-th letter; every other byte is counted nowhere |
| `LetterCounter.CountOfAppend` | usr_functions.c:32-41 | counts are additive over concatenation, so the 1024-byte reads do not change them |
| `LetterCounter.EntryFits` | usr_functions.c:52-53 | every `"<L> <n>\n"` line with a C `int` count fits the 16-byte buffer with its NUL |
| `LetterCounter.TokensAreLines` | usr_functions.c:102-111 | every token strtok returns for the delimiter "\n" is non-empty and holds no newline |
| `LetterCounter.TokensAppend` | usr_functions.c:102-111 | strtok on "\n" over text ending in a newline and then more text yields the tokens of each part, in order |
| `LetterCounter.ScanEntryShape` | usr_functions.c:108 | sscanf `"%c %d"` takes the first byte as the letter; it needs at least two bytes; a digit right after the letter always gives a count, and a non-negative one |
| `LetterCounter.ContributionOwnLetter` | usr_functions.c:106-110 | a token adds to the total of letter k only when it parses and starts with the k-th upper-case letter |
| `LetterCounter.EntryParses` | usr_functions.c:108 | sscanf `"%c %d"` reads back the letter and count of every printed line |
| `LetterCounter.FormatUpToParses` | usr_functions.c:102-110 | parsing the lines written for the first m letters gives each of those letters its count when positive, and every other letter nothing |
| `LetterCounter.FormatCountsParses` | usr_functions.c:102-110 | the map output, parsed back, gives every letter its count when positive and 0 otherwise |
| `LetterCounter.FormatEndsWithNewline` | usr_functions.c:50-60 | a map output is empty or ends with a newline |
| `LetterCounter.FormatUpToNoNul` | usr_functions.c:53 | the count lines contain no NUL byte, so the reduce's string functions see all of them |
| `LetterCounter.ShortSplitFitsOneRead` | usr_functions.c:100 | the map output of a split shorter than one million bytes fits in one 255-byte read |
| `LetterCounter.BlocksAgreeWithLines` | usr_functions.c:100-112 | when every block boundary follows a newline, parsing block by block equals parsing the whole file |
| `LetterCounter.SingleReadAgrees` | usr_functions.c:91-120 | when every file fits one 255-byte read, the block-wise total of each letter is its whole-line total |
| `LetterCounter.ReduceAgreesOnShortFiles` | usr_functions.c:91-133 | under that condition the reduce as written and the whole-line reduce write the same result |
| `LetterCounter.StraddlingLineIsLost` | usr_functions.c:100-110 | for every letter occurring n times, 8-digit n: the reduce as written totals X as 0, while whole-line parsing gives n |
| `LetterCounter.MapOutputsSum` | usr_functions.c:91-133 | the whole-line total of letter k over the map outputs of several texts is the count of k in the texts put together |
| `LetterCounter.LetterCountComposes` | usr_functions.c:91-133 | the whole-line reduce of the map outputs of n ≥ 1 texts succeeds and prints the letter counts of their concatenation |
| `LetterCounter.MapSpecParses` | usr_functions.c:19-63 | the map returns -1 and writes nothing exactly for a null split or a negative descriptor; otherwise it returns 0, and its output, parsed the way the reduce parses it, gives every letter its count in the split |
| `LetterCounter.ReduceSpecParses` | usr_functions.c:79-136 | the reduce returns -1 and writes nothing exactly for a null array or a count ≤ 0; otherwise it returns 0, and its output parses back as every positive block-wise total |
| `LetterCounter.ReduceLinesSpecParses` | usr_functions.c:79-136 | the corrected reduce has the same statuses, and on success its output parses back as every positive whole-line total |
| `LetterCounter.WriteCounts` | usr_functions.c:50-60 | the output loop writes one `"<L> <n>\n"` line per positive count, in alphabetical order |
| `LetterCounter.LetterCounterMap` | usr_functions.c:19-63 | -1 and no output for a null split or negative descriptor; otherwise 0 and the formatted counts of the split |
| `LetterCounter.ParseBlock` | usr_functions.c:102-112 | the strtok loop adds, per letter, the counts of the block's tokens that parse as an upper-case letter line |
| `LetterCounter.LetterCounterReduce` | usr_functions.c:79-136 | -1 and no output for a null array or count ≤ 0; otherwise 0 and the block-wise totals of all files, formatted |
| `WordFinder.Assemble` | usr_functions.c:164-191 | the line under construction never exceeds 1023 bytes |
| `WordFinder.StepShape` | usr_functions.c:167-191 | one byte emits at most the line being built and keeps every earlier line; a newline always ends the line; the line being built stays within 1023 bytes and free of newlines |
| `WordFinder.AssembleLength` | usr_functions.c:164-191 | every byte read either joins the open line or ends a line, so the completed lines with their newlines and the open line together are as long as the input |
| `WordFinder.AssembledLinesAreShort` | usr_functions.c:164-191 | every assembled line, and the line being built, has no newline and at most 1023 bytes |
| `WordFinder.AssembleRoundTrip` | usr_functions.c:164-191 | when every line fits the buffer, the assembled lines with their newlines, followed by the open line, give back the input |
| `WordFinder.OverflowDropsByte` | usr_functions.c:167-190 | a byte arriving when the line holds 1023 bytes ends the line and is itself dropped |
| `WordFinder.AssembleAppend` | usr_functions.c:164-191 | after a completed line, assembly of the rest starts afresh |
| `WordFinder.TrailingTextIgnored` | usr_functions.c:164-193 | text after the last newline, shorter than the buffer, changes nothing in the output |
| `WordFinder.FirstOccurrence` | usr_functions.c:173 | strstr returns an occurrence of the target at or after the search position |
| `WordFinder.FirstOccurrenceIsFirst` | usr_functions.c:173 | strstr returns the first such occurrence, and NULL only when there is none |
| `WordFinder.ScanSound` | usr_functions.c:171-187 | whatever the target, a line the skip-ahead scan (`ScanFrom`, and `Selected` from position 0) selects holds the target as a whole word: at the line start or after a space, and before ',', '.', a space or the end |
| `WordFinder.ScanComplete` | usr_functions.c:173-187 | for a target without a space, the skip-ahead never jumps over a whole-word occurrence |
| `WordFinder.SelectedIffWord` | usr_functions.c:171-187 | for a target without a space, a line is written exactly when it holds the target as a whole word |
| `WordFinder.SpacedTargetMissed` | usr_functions.c:173-187 | for the target "x x" the line "yx x x" holds it as a whole word, yet the scan does not select it |
| `WordFinder.MatchingKeepsSelected` | usr_functions.c:167-188 | a line is in the output exactly when it is an input line that the scan selects |
| `WordFinder.MatchingAppend` | usr_functions.c:167-188 | filtering commutes with concatenation, so output lines keep their input order |
| `WordFinder.MapOutputAppend` | usr_functions.c:164-193 | for input cut after a newline, the output of the whole is the output of the first part followed by that of the second |
| `WordFinder.MapOutputsJoin` | usr_functions.c:164-193 | for texts cut only at line ends, the outputs in order are the output of the texts put together |
| `WordFinder.StepOutput` | usr_functions.c:167-191 | one byte adds to the output exactly the line it ends, with its newline, when the scan selects that line |
| `WordFinder.MapSpecShape` | usr_functions.c:148-202 | the map returns -1 and writes nothing exactly for a null split, null user data or a negative descriptor; otherwise it returns 0 and writes lines each ended by a newline, never more bytes than the split holds |
| `WordFinder.ReduceSpecKeepsFiles` | usr_functions.c:219-254 | the reduce returns -1 and writes nothing exactly for a null array or a count ≤ 0; otherwise it returns 0, and file i appears whole in its output, right after files 0 .. i - 1 |
| `WordFinder.FindWord` | usr_functions.c:171-187 | the search loop over `search_ptr` finds a match exactly when the scan selects the line |
| `WordFinder.TakeByte` | usr_functions.c:165-191 | one byte of the loop body leaves the line buffer and the output as assembly after that byte prescribes |
| `WordFinder.TakeBlock` | usr_functions.c:164-192 | one 1024-byte read leaves the line buffer and the output as assembly after that block prescribes |
| `WordFinder.WordFinderMap` | usr_functions.c:148-202 | -1 and no output for a null split, null user data or negative descriptor; otherwise 0 and every selected completed line, each with a newline |
| `WordFinder.WordFinderReduce` | usr_functions.c:219-254 | -1 and no output for a null array or count ≤ 0; otherwise 0 and the files byte for byte in index order, independent of the 1024-byte reads |
| `Job.StoreKeepsOthers` | mapreduce.c:51-66 | writing the split files creates exactly the named files and leaves every other file as it was |
| `Job.WriteFiles` | mapreduce.c:51-66 | the loop that writes `contents[i]` to `names[i]` in turn leaves the directory `Store` describes; the same loop models the map workers writing their intermediate files (mapreduce.c:92-98) |
| `Job.StoreAt` | mapreduce.c:92-98 | with distinct names, every file in the directory holds what was last written to it |
| `Job.NamesDistinct` | mapreduce.c:47-71 | the split names are pairwise distinct, the intermediate names are pairwise distinct, and the two sets do not meet |
| `Job.RunJobSucceeds` | mapreduce.c:36-146 | a run has one split file, one map outcome and one reduce input per split, its split files are those of the split phase, and its reduce returns 0 whatever the map workers returned |
| `Job.JobWiring` | mapreduce.c:80-146 | map worker i consumes split i, and the reduce reads through entry i of its descriptor array exactly what map worker i wrote |
| `Job.ReduceInputsAreMapOutputs` | mapreduce.c:133-146 | the reduce receives the map outputs in index order, whatever the map statuses |
| `Job.FailedMapsStillReduce` | mapreduce.c:116-125 | when every word-finder map fails (no user data), the reduce still runs, succeeds and writes an empty result |
| `Job.LetterMapOutputs` | mapreduce.c:80-106 | the letter-counter intermediate files are the map outputs of the splits |
| `Job.LetterJobCountsWholeLines` | mapreduce.c:47-146 | with whole-line parsing, a letter-counter run prints the letter counts of the consumed input prefix |
| `Job.LetterJobCounts` | mapreduce.c:47-146 | as written, a letter-counter run whose split size + 1023 is below one million prints the letter counts of the consumed input prefix |
| `Job.SplitIsSeamless` | mapreduce.c:57-64 | when every line fits fgets, each split ends a line or only empty splits follow it |
| `Job.WordJobFindsLines` | mapreduce.c:47-146 | when every line fits fgets, a word-finder run writes what one map over the consumed prefix would write |
| `Job.ChunkNoNul` | mapreduce.c:61-62 | a split of an input without NUL has no NUL either |
| `Job.RunMap` | mapreduce.c:83-98 | a map worker's outcome is the job's map function on its split, with an open descriptor and the user data |
| `Job.RunMaps` | mapreduce.c:80-121 | the map phase yields, for each i, the outcome of the map function on file i; no status is consulted |
| `Job.OpenAll` | mapreduce.c:133-138 | the descriptor at position i of the reduce's array reads intermediate file i |
| `Job.RunReduce` | mapreduce.c:146 | the reduce worker's outcome is the job's reduce function on the files, with the split count |
| `Job.MapReduce` | mapreduce.c:36-146 | running every phase's method in turn gives exactly `RunJob` of the input |

## Left out

- Process lifecycle (mapreduce.c:75-121, 124-167). `fork`, `waitpid`, `_exit`, the worker PIDs in the result and parallel map workers are OS concurrency. The workers run one after another. The "reduce runs whatever the maps returned" policy is stated through `Job.RunJobSucceeds` and `Job.FailedMapsStillReduce`. A map that fails still leaves its (empty) intermediate file, as `O_CREAT | O_TRUNC` does.
- Timing with `gettimeofday` (mapreduce.c:14). It is a clock.
- Heap allocation and the `EXIT_ERROR` / `_EXIT_ERROR` aborts: failed allocations and failed open/fork calls are not modelled. Every open succeeds, with descriptor `Job.OpenedDescriptor`, and the model has no file-system errors to report.
- read/write/lseek failures. The -1 paths at usr_functions.c:44-47, 55-58, 93-96, 116-119, 128-131, 179-183, 196-199, 232-235, 240-243 and 247-250 are not modelled: I/O never fails in the model.
- The wording of stderr diagnostics. Writing a log line has no effect on the files.
- Integer widths. Letter counts, totals and byte counts are unbounded integers; overflow past a C `int` is not modelled. `LetterCounter.EntryFits` and `FileNames.FileNamesFit` show the 16- and 20-byte snprintf buffers suffice for every `int`.
- NUL bytes. The input of the split phase, the word finder's input and target, and the letter reduce's files must contain none (`NoNul`). The C string functions (`fputs`, `strlen`, `strcpy`, `strstr`, `strtok`) would stop at a NUL byte.
- An empty target word. Its zero-length skip can loop forever (usr_functions.c:156, 186), so a non-empty target is a precondition whenever the word finder has user data.
- A split count ≤ 0 (mapreduce.c:36). Zero divides by zero and a negative count makes the allocations fail, so `splitNum > 0` is a precondition.
- `Job.RunJob`'s directory. A missing file reads as empty; that case never arises, as `Job.StoreAt` shows.

## Findings

| source | as written | input that shows it | evidently intended | confidence | as-written member | corrected member |
|---|---|---|---|---|---|---|
| usr_functions.c:100-110 | each 255-byte `read` block is tokenised on its own, so a count line cut by a block boundary becomes two tokens that do not parse as that letter's line | one split in which each of the 26 letters occurs n times, 10000000 ≤ n < 100000000: the map output is 286 bytes, the boundary at byte 255 cuts the line of X after "X ", and the reduce totals X as 0 | totals taken over whole lines of every intermediate file | not executed | `LetterCounter.StraddlingLineIsLost` | `LetterCounter.LetterCountComposes` |

The as-written reduce is `LetterCounter.ReduceSpec` (method `LetterCounter.LetterCounterReduce`); the corrected one is `LetterCounter.ReduceLinesSpec`. `Job.LetterJobCountsWholeLines` proves the end-to-end letter count with the corrected reduce for every input. `Job.LetterJobCounts` shows the version as written agrees with it when the split size keeps every map output within one read.

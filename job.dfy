/** A whole mapreduce() job as one sequential run over a directory of named
    files: the input is split into `split-<i>`, map worker i reads
    `split-<i>` and writes `mr-<i>.itm`, and the reduce worker reads the
    intermediate files through the entries 0 .. n - 1 of its descriptor
    array, entry i holding the descriptor opened on `mr-<i>.itm`. The
    workers run one after another here; every open succeeds; the reduce
    runs whatever the map workers returned. */
module Job {
  import opened Basics
  import opened FileNames
  import opened Splitter
  import LetterCounter
  import WordFinder

  /** The two jobs of the user functions. */
  datatype Kind = LetterCount | WordFind

  /** The working directory the engine and its workers share. */
  type Directory = map<seq<char>, seq<char>>

  /** What a run leaves behind: the split files, the outcome of every map
      worker, the bytes the reduce read through each entry of its
      descriptor array, and the outcome of the reduce (what it wrote to
      `mr.rst`). */
  datatype JobRun = JobRun(splitFiles: seq<seq<char>>, mapOutcomes: seq<Outcome>,
                           reduceInputs: seq<seq<char>>, result: Outcome)

  /** A descriptor open() returns for a file it opened. */
  const OpenedDescriptor: int := 3

  predicate Distinct(names: seq<seq<char>>)
  {
    forall a, b :: 0 <= a < b < |names| ==> names[a] != names[b]
  }

  // ---------------------------------------------------------------------
  // Files

  /** Writes `contents[i]` to the file `names[i]`, in index order. */
  function Store(dir: Directory, names: seq<seq<char>>, contents: seq<seq<char>>): Directory
    requires |names| == |contents|
  {
    if names == [] then dir
    else Store(dir, names[..|names| - 1], contents[..|names| - 1])[names[|names| - 1] := contents[|names| - 1]]
  }

  /** The named files exist afterwards, and no other file is created or
      changed. */
  lemma {:induction false} StoreKeepsOthers(dir: Directory, names: seq<seq<char>>, contents: seq<seq<char>>)
    requires |names| == |contents|
    ensures forall x :: x in Store(dir, names, contents) <==> x in dir || x in names
    ensures forall x :: x in dir && x !in names ==> Store(dir, names, contents)[x] == dir[x]
  {
    if names != [] {
      var n := |names| - 1;
      assert names == names[..n] + [names[n]];
      StoreKeepsOthers(dir, names[..n], contents[..n]);
    }
  }

  /** The bytes read from a file; a missing file reads as empty. */
  function Contents(dir: Directory, name: seq<char>): seq<char>
  {
    if name in dir then dir[name] else []
  }

  /** With distinct names, every file holds what was written to it. */
  lemma {:induction false} StoreAt(dir: Directory, names: seq<seq<char>>, contents: seq<seq<char>>, i: nat)
    requires |names| == |contents| && Distinct(names) && i < |names|
    ensures names[i] in Store(dir, names, contents)
    ensures Contents(Store(dir, names, contents), names[i]) == contents[i]
  {
    var n := |names| - 1;
    if i < n {
      assert names[i] != names[n];
      StoreAt(dir, names[..n], contents[..n], i);
    }
  }

  /** The split names and the intermediate names are two sets of distinct
      names that do not meet. */
  lemma NamesDistinct(n: nat)
    ensures Distinct(SplitNames(n)) && Distinct(IntermediateNames(n))
    ensures forall a, b :: 0 <= a < n && 0 <= b < n ==> SplitNames(n)[a] != IntermediateNames(n)[b]
  {
    forall a, b | 0 <= a < n && 0 <= b < n
      ensures a != b ==> SplitNames(n)[a] != SplitNames(n)[b]
      ensures a != b ==> IntermediateNames(n)[a] != IntermediateNames(n)[b]
      ensures SplitNames(n)[a] != IntermediateNames(n)[b]
    {
      NameTablesAt(n, a);
      NameTablesAt(n, b);
      FileNamesDistinct(a, b);
    }
  }

  // ---------------------------------------------------------------------
  // The job as a function of its input

  predicate ValidJob(kind: Kind, usrData: Option<seq<char>>)
  {
    kind.WordFind? && usrData.Some? ==> |usrData.value| > 0 && NoNul(usrData.value)
  }

  /** spec->map_func for the job. */
  function MapFunction(kind: Kind, split: Option<DataSplit>, input: seq<char>): Outcome
    requires kind.WordFind? && WordFinder.ValidSplit(split) ==> |split.value.usrData.value| > 0
  {
    match kind
    case LetterCount => LetterCounter.MapSpec(split, input)
    case WordFind => WordFinder.MapSpec(split, input)
  }

  /** spec->reduce_func for the job. */
  function ReduceFunction(kind: Kind, files: Option<seq<seq<char>>>, count: int): Outcome
    requires files.Some? && count > 0 ==> |files.value| == count
  {
    match kind
    case LetterCount => LetterCounter.ReduceSpec(files, count)
    case WordFind => WordFinder.ReduceSpec(files, count)
  }

  /** The handle every map worker gets: its open split file and the job's
      user data. */
  function Handle(usrData: Option<seq<char>>): Option<DataSplit>
  {
    Some(DataSplit(OpenedDescriptor, usrData))
  }

  /** Map worker i reads the file `names[i]`. */
  function MapPhase(kind: Kind, usrData: Option<seq<char>>, dir: Directory, names: seq<seq<char>>): (outs: seq<Outcome>)
    requires ValidJob(kind, usrData)
    ensures |outs| == |names|
  {
    seq(|names|, i requires 0 <= i < |names| => MapFunction(kind, Handle(usrData), Contents(dir, names[i])))
  }

  function Written(outcomes: seq<Outcome>): (files: seq<seq<char>>)
    ensures |files| == |outcomes|
  {
    seq(|outcomes|, i requires 0 <= i < |outcomes| => outcomes[i].written)
  }

  /** Entry i of the reduce worker's descriptor array reads the file
      `names[i]`. */
  function ReadAll(dir: Directory, names: seq<seq<char>>): (files: seq<seq<char>>)
    ensures |files| == |names|
  {
    seq(|names|, i requires 0 <= i < |names| => Contents(dir, names[i]))
  }

  /** Phases 1 to 4 of mapreduce(). No map outcome is consulted before the
      reduce starts: a failed map worker only leaves its file empty. */
  function RunJob(kind: Kind, input: seq<char>, splitNum: int, usrData: Option<seq<char>>): JobRun
    requires splitNum > 0 && ValidJob(kind, usrData)
  {
    var splits := Split(input, splitNum);
    var dir := Store(map[], SplitNames(splitNum), splits);
    var outcomes := MapPhase(kind, usrData, dir, SplitNames(splitNum));
    var dir' := Store(dir, IntermediateNames(splitNum), Written(outcomes));
    var inputs := ReadAll(dir', IntermediateNames(splitNum));
    JobRun(splits, outcomes, inputs, ReduceFunction(kind, Some(inputs), splitNum))
  }

  // ---------------------------------------------------------------------
  // Properties of a run

  /** A run has one split file, one map outcome and one reduce input per
      split, and its reduce succeeds whatever the map workers returned. */
  lemma RunJobSucceeds(kind: Kind, input: seq<char>, splitNum: int, usrData: Option<seq<char>>)
    requires splitNum > 0 && ValidJob(kind, usrData)
    ensures var run := RunJob(kind, input, splitNum, usrData);
            && |run.splitFiles| == |run.mapOutcomes| == |run.reduceInputs| == splitNum
            && run.splitFiles == Split(input, splitNum)
            && run.result.status == 0
  {
    var run := RunJob(kind, input, splitNum, usrData);
    match kind
    case LetterCount => LetterCounter.ReduceSpecParses(Some(run.reduceInputs), splitNum);
    case WordFind => WordFinder.ReduceSpecKeepsFiles(Some(run.reduceInputs), splitNum);
  }

  /** Map worker i consumes chunk i, and the reduce reads through entry i
      of its descriptor array exactly what map worker i wrote. */
  lemma JobWiring(kind: Kind, input: seq<char>, splitNum: int, usrData: Option<seq<char>>, i: nat)
    requires splitNum > 0 && ValidJob(kind, usrData) && i < splitNum && NoNul(input)
    ensures var run := RunJob(kind, input, splitNum, usrData);
            && |run.splitFiles| == |run.mapOutcomes| == |run.reduceInputs| == splitNum
            && run.splitFiles == Split(input, splitNum)
            && run.mapOutcomes[i] == MapFunction(kind, Handle(usrData), run.splitFiles[i])
            && run.reduceInputs[i] == run.mapOutcomes[i].written
  {
    NamesDistinct(splitNum);
    var splits := Split(input, splitNum);
    var dir := Store(map[], SplitNames(splitNum), splits);
    StoreAt(map[], SplitNames(splitNum), splits, i);
    var outcomes := MapPhase(kind, usrData, dir, SplitNames(splitNum));
    StoreAt(dir, IntermediateNames(splitNum), Written(outcomes), i);
  }

  /** The reduce input of a run is the sequence of map outputs of its chunks. */
  lemma ReduceInputsAreMapOutputs(kind: Kind, input: seq<char>, splitNum: int, usrData: Option<seq<char>>)
    requires splitNum > 0 && ValidJob(kind, usrData) && NoNul(input)
    ensures var run := RunJob(kind, input, splitNum, usrData);
            run.reduceInputs == Written(run.mapOutcomes)
            && run.result == ReduceFunction(kind, Some(Written(run.mapOutcomes)), splitNum)
  {
    var run := RunJob(kind, input, splitNum, usrData);
    forall i | 0 <= i < splitNum ensures run.reduceInputs[i] == Written(run.mapOutcomes)[i] {
      JobWiring(kind, input, splitNum, usrData, i);
    }
  }

  /** Every word-finder map worker fails without user data, and the reduce
      still runs and succeeds, writing an empty result. */
  lemma FailedMapsStillReduce(input: seq<char>, splitNum: int)
    requires splitNum > 0 && NoNul(input)
    ensures var run := RunJob(WordFind, input, splitNum, None);
            && (forall i :: 0 <= i < splitNum ==> run.mapOutcomes[i].status == -1)
            && run.result == Outcome(0, [])
  {
    var run := RunJob(WordFind, input, splitNum, None);
    ReduceInputsAreMapOutputs(WordFind, input, splitNum, None);
    FlattenEmpties(run.reduceInputs);
  }

  /** The letter-counter map outputs of a run are those of its chunks. */
  lemma LetterMapOutputs(input: seq<char>, splitNum: int)
    requires splitNum > 0 && NoNul(input)
    ensures RunJob(LetterCount, input, splitNum, None).reduceInputs
            == LetterCounter.MapOutputs(Split(input, splitNum))
  {
    var run := RunJob(LetterCount, input, splitNum, None);
    var chunks := Split(input, splitNum);
    forall i | 0 <= i < splitNum ensures run.reduceInputs[i] == LetterCounter.MapOutputs(chunks)[i] {
      JobWiring(LetterCount, input, splitNum, None, i);
      LetterCounter.MapOutputsAt(chunks, i);
    }
  }

  /** End to end, with the reduce reading whole lines: a letter-counter run
      prints the letter counts of the part of the input the split phase
      consumed. */
  lemma LetterJobCountsWholeLines(input: seq<char>, splitNum: int)
    requires splitNum > 0 && NoNul(input)
    ensures var run := RunJob(LetterCount, input, splitNum, None);
            LetterCounter.ReduceLinesSpec(Some(run.reduceInputs), splitNum)
            == Outcome(0, LetterCounter.FormatCounts(LetterCounter.Counts(input[..Consumed(input, splitNum)])))
  {
    LetterMapOutputs(input, splitNum);
    LetterCounter.LetterCountComposes(Split(input, splitNum));
    SplitIsPrefix(input, splitNum);
  }

  /** End to end as the reduce is written: when the split size leaves every
      chunk under a million bytes, each intermediate file fits one 255-byte
      read, and the run prints the letter counts of the consumed input. */
  lemma LetterJobCounts(input: seq<char>, splitNum: int)
    requires splitNum > 0 && NoNul(input) && SplitSize(|input|, splitNum) + PieceMax < 1000000
    ensures RunJob(LetterCount, input, splitNum, None).result
            == Outcome(0, LetterCounter.FormatCounts(LetterCounter.Counts(input[..Consumed(input, splitNum)])))
  {
    var run := RunJob(LetterCount, input, splitNum, None);
    var chunks := Split(input, splitNum);
    LetterMapOutputs(input, splitNum);
    forall i | 0 <= i < splitNum ensures |run.reduceInputs[i]| <= LetterCounter.ReduceReadSize {
      SplitChunkSizes(input, splitNum, i);
      LetterCounter.MapOutputsAt(chunks, i);
      LetterCounter.ShortSplitFitsOneRead(chunks[i]);
    }
    LetterCounter.ReduceAgreesOnShortFiles(run.reduceInputs, splitNum);
    LetterJobCountsWholeLines(input, splitNum);
  }

  /** When no line of the input is too long for fgets, every chunk ends a
      line or is followed by nothing but empty chunks. */
  lemma SplitIsSeamless(input: seq<char>, splitNum: int)
    requires splitNum > 0 && LinesFit(input)
    ensures WordFinder.Seamless(Split(input, splitNum))
  {
    var chunks := Split(input, splitNum);
    forall i | 0 <= i < splitNum
      ensures chunks[i] == [] || chunks[i][|chunks[i]| - 1] == '\n' || Flatten(chunks[i + 1..]) == []
    {
      SplitEndsAtNewlines(input, splitNum, i);
      if i + 1 < splitNum && ChunkStart(input, SplitSize(|input|, splitNum), i + 1) == |input| {
        ExhaustedInputGivesEmptySplits(input, splitNum, i + 1);
        FlattenEmpties(chunks[i + 1..]);
      } else if i + 1 == splitNum {
        assert chunks[i + 1..] == [];
      }
    }
  }

  /** End to end for the word finder: when no line is too long for fgets,
      a run writes the lines of the consumed input that hold the target as
      a word, as if one map had read all of it. */
  lemma WordJobFindsLines(input: seq<char>, splitNum: int, target: seq<char>)
    requires splitNum > 0 && NoNul(input) && LinesFit(input) && |target| > 0 && NoNul(target)
    ensures RunJob(WordFind, input, splitNum, Some(target)).result
            == Outcome(0, WordFinder.MapOutput(input[..Consumed(input, splitNum)], target))
  {
    var run := RunJob(WordFind, input, splitNum, Some(target));
    var chunks := Split(input, splitNum);
    forall i | 0 <= i < splitNum ensures run.reduceInputs[i] == WordFinder.MapOutputs(chunks, target)[i] {
      JobWiring(WordFind, input, splitNum, Some(target), i);
      WordFinder.MapOutputsAt(chunks, target, i);
    }
    assert run.reduceInputs == WordFinder.MapOutputs(chunks, target);
    SplitIsSeamless(input, splitNum);
    WordFinder.MapOutputsJoin(chunks, target);
    SplitIsPrefix(input, splitNum);
  }

  // ---------------------------------------------------------------------
  // The job as the engine runs it

  /** Every chunk is a piece of the input, so it holds no NUL either. */
  lemma ChunkNoNul(input: seq<char>, splitNum: int, i: nat)
    requires splitNum > 0 && i < splitNum && NoNul(input)
    ensures NoNul(Split(input, splitNum)[i])
  {
    var chunks := Split(input, splitNum);
    SplitIsPrefix(input, splitNum);
    FlattenAt(chunks, i);
    var start := |Flatten(chunks[..i])|;
    forall k | 0 <= k < |chunks[i]| ensures chunks[i][k] != '\0' {
      assert chunks[i][k] == Flatten(chunks)[start + k];
    }
  }

  /** A letter-counter map writes count lines or nothing. */
  lemma LetterOutputNoNul(split: Option<DataSplit>, text: seq<char>)
    ensures NoNul(LetterCounter.MapSpec(split, text).written)
  {
    LetterCounter.FormatUpToNoNul(LetterCounter.Counts(text), LetterCounter.Letters);
  }

  /** Writes `contents[i]` to `names[i]` for each i in turn. */
  method WriteFiles(dir: Directory, names: seq<seq<char>>, contents: seq<seq<char>>) returns (dir': Directory)
    requires |names| == |contents|
    ensures dir' == Store(dir, names, contents)
  {
    dir' := dir;
    for i := 0 to |names|
      invariant dir' == Store(dir, names[..i], contents[..i])
    {
      assert names[..i + 1][..i] == names[..i] && contents[..i + 1][..i] == contents[..i];
      dir' := dir'[names[i] := contents[i]];
    }
    assert names[..|names|] == names && contents[..|names|] == contents;
  }

  /** One map worker: spec->map_func on its split. */
  method RunMap(kind: Kind, split: Option<DataSplit>, text: seq<char>) returns (outcome: Outcome)
    requires kind.WordFind? && WordFinder.ValidSplit(split) ==>
               |split.value.usrData.value| > 0 && NoNul(split.value.usrData.value)
    requires NoNul(text)
    ensures outcome == MapFunction(kind, split, text)
  {
    var status, written;
    match kind {
      case LetterCount =>
        status, written := LetterCounter.LetterCounterMap(split, text);
      case WordFind =>
        status, written := WordFinder.WordFinderMap(split, text);
    }
    outcome := Outcome(status, written);
  }

  /** Phases 2 and 3: map worker i runs on the file `names[i]`; its
      status is collected and not consulted. */
  method RunMaps(kind: Kind, usrData: Option<seq<char>>, dir: Directory, names: seq<seq<char>>)
    returns (outcomes: seq<Outcome>)
    requires ValidJob(kind, usrData)
    requires forall i :: 0 <= i < |names| ==> NoNul(Contents(dir, names[i]))
    ensures outcomes == MapPhase(kind, usrData, dir, names)
  {
    var handle := Handle(usrData);
    outcomes := [];
    for i := 0 to |names|
      invariant |outcomes| == i
      invariant forall j :: 0 <= j < i ==> outcomes[j] == MapPhase(kind, usrData, dir, names)[j]
    {
      var outcome := RunMap(kind, handle, Contents(dir, names[i]));
      outcomes := outcomes + [outcome];
    }
  }

  /** The reduce worker opens `names[i]` into entry i of its descriptor
      array. */
  method OpenAll(dir: Directory, names: seq<seq<char>>) returns (inputs: seq<seq<char>>)
    ensures inputs == ReadAll(dir, names)
  {
    inputs := [];
    for i := 0 to |names|
      invariant |inputs| == i
      invariant forall j :: 0 <= j < i ==> inputs[j] == ReadAll(dir, names)[j]
    {
      inputs := inputs + [Contents(dir, names[i])];
    }
  }

  method RunReduce(kind: Kind, inputs: seq<seq<char>>, count: int) returns (result: Outcome)
    requires count > 0 && |inputs| == count
    requires kind.LetterCount? ==> forall i :: 0 <= i < |inputs| ==> NoNul(inputs[i])
    ensures result == ReduceFunction(kind, Some(inputs), count)
  {
    var status, written;
    match kind {
      case LetterCount =>
        status, written := LetterCounter.LetterCounterReduce(Some(inputs), count);
      case WordFind =>
        status, written := WordFinder.WordFinderReduce(Some(inputs), count);
    }
    result := Outcome(status, written);
  }

  /** mapreduce() with the jobs' own map and reduce methods: phase 1 writes
      the split files, each map worker reads its split file and its output
      becomes its intermediate file, and the reduce worker opens the
      intermediate files in index order. */
  method MapReduce(kind: Kind, input: seq<char>, splitNum: int, usrData: Option<seq<char>>) returns (run: JobRun)
    requires splitNum > 0 && ValidJob(kind, usrData) && NoNul(input)
    ensures run == RunJob(kind, input, splitNum, usrData)
  {
    var splitSize, splitFiles, splitNames, intermediateNames, unread := SplitPhase(input, splitNum);
    var names, itmNames := splitNames[..], intermediateNames[..];
    NamesDistinct(splitNum);
    var dir := WriteFiles(map[], names, splitFiles[..]);
    forall i | 0 <= i < splitNum ensures NoNul(Contents(dir, names[i])) {
      StoreAt(map[], names, splitFiles[..], i);
      ChunkNoNul(input, splitNum, i);
    }
    var outcomes := RunMaps(kind, usrData, dir, names);
    var dir' := WriteFiles(dir, itmNames, Written(outcomes));
    var inputs := OpenAll(dir', itmNames);
    if kind.LetterCount? {
      forall j | 0 <= j < splitNum ensures NoNul(inputs[j]) {
        StoreAt(dir, itmNames, Written(outcomes), j);
        LetterOutputNoNul(Handle(usrData), Contents(dir, names[j]));
      }
    }
    var result := RunReduce(kind, inputs, splitNum);
    run := JobRun(splitFiles[..], outcomes, inputs, result);
  }
}

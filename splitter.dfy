/** The split phase of mapreduce() (mapreduce.c): the input is cut into
    `splitNum` chunks, each one filled with whole fgets() pieces until its
    byte count reaches the split size. Files are byte sequences here, and
    the position of the input stream is an index into the input. */
module Splitter {
  import opened Basics
  import opened FileNames

  /** `char buffer[1024]` given to fgets. */
  const BufferSize: nat := 1024
  /** fgets stores at most BufferSize - 1 bytes, keeping one for the NUL. */
  const PieceMax: nat := BufferSize - 1

  /** `split_size = input_file_size / total_splits`: C division of two
      non-negative numbers, which truncates. */
  function SplitSize(inputSize: nat, splitNum: int): nat
    requires splitNum > 0
  {
    inputSize / splitNum
  }

  /** The split size is the largest size of which splitNum copies fit in
      the input. */
  lemma SplitSizeIsQuotient(inputSize: nat, splitNum: int)
    requires splitNum > 0
    ensures var size := SplitSize(inputSize, splitNum);
            size * splitNum <= inputSize < (size + 1) * splitNum
  {
  }

  /** No byte of `s[a..b]` is a newline. */
  predicate NoNewline(s: seq<char>, a: nat, b: nat)
    requires a <= b <= |s|
  {
    forall j :: a <= j < b ==> s[j] != '\n'
  }

  // ---------------------------------------------------------------------
  // One fgets(buffer, 1024, input) call

  function PieceScan(s: seq<char>, pos: nat, j: nat): (e: nat)
    requires pos <= j <= |s| && j - pos <= PieceMax
    ensures j <= e <= |s| && e - pos <= PieceMax
    ensures j < |s| && j - pos < PieceMax ==> j < e
    decreases |s| - j
  {
    if j == |s| || j - pos == PieceMax then j
    else if s[j] == '\n' then j + 1
    else PieceScan(s, pos, j + 1)
  }

  /** Where the input stream stands after one fgets call made at `pos`;
      the call reads nothing only at the end of the input (fgets then
      returns NULL). */
  function PieceEnd(s: seq<char>, pos: nat): (e: nat)
    requires pos <= |s|
    ensures pos <= e <= |s| && e - pos <= PieceMax
    ensures pos < |s| ==> pos < e
  {
    PieceScan(s, pos, pos)
  }

  lemma {:induction false} PieceScanStopsAtNewline(s: seq<char>, pos: nat, j: nat)
    requires pos <= j <= |s| && j - pos <= PieceMax && NoNewline(s, pos, j)
    ensures var e := PieceScan(s, pos, j);
            && (e > pos ==> NoNewline(s, pos, e - 1))
            && (e == |s| || e - pos == PieceMax || (e > pos && s[e - 1] == '\n'))
    decreases |s| - j
  {
    if j < |s| && j - pos < PieceMax && s[j] != '\n' {
      PieceScanStopsAtNewline(s, pos, j + 1);
    }
  }

  /** fgets semantics: the piece holds no newline except as its last byte,
      and it ends after a newline, after PieceMax bytes, or at the end of
      the input. */
  lemma PieceIsFgets(s: seq<char>, pos: nat)
    requires pos <= |s|
    ensures var e := PieceEnd(s, pos);
            && (e > pos ==> NoNewline(s, pos, e - 1))
            && (e == |s| || e - pos == PieceMax || (e > pos && s[e - 1] == '\n'))
  {
    PieceScanStopsAtNewline(s, pos, pos);
  }

  /** `s[pos..e]` is a run of whole fgets pieces read from `pos` on. */
  predicate WholePieces(s: seq<char>, pos: nat, e: nat)
    decreases e - pos
  {
    pos <= e <= |s| &&
    (e == pos || (var p := PieceEnd(s, pos); pos < p <= e && WholePieces(s, p, e)))
  }

  // ---------------------------------------------------------------------
  // One split: `while (bytes_read < split_size && fgets(...))`

  /** Where the input stream stands after the inner while loop, started at
      `pos` with `target` more bytes wanted. */
  function ChunkEnd(s: seq<char>, pos: nat, target: int): (e: nat)
    requires pos <= |s|
    ensures pos <= e <= |s|
    decreases |s| - pos
  {
    if target <= 0 || pos == |s| then pos
    else
      var p := PieceEnd(s, pos);
      ChunkEnd(s, p, target - (p - pos))
  }

  /** The stop rule of one split: with nothing wanted nothing is read;
      otherwise the chunk reaches the target unless the input runs out,
      and overshoots it by less than one piece. */
  lemma {:induction false} ChunkStopRule(s: seq<char>, pos: nat, target: int)
    requires pos <= |s|
    ensures var e := ChunkEnd(s, pos, target);
            && (target <= 0 ==> e == pos)
            && (target > 0 ==> e - pos >= target || e == |s|)
            && (target > 0 ==> e - pos < target + PieceMax)
    decreases |s| - pos
  {
    if target > 0 && pos < |s| {
      var p := PieceEnd(s, pos);
      ChunkStopRule(s, p, target - (p - pos));
    }
  }

  /** A chunk is made of whole fgets pieces. */
  lemma {:induction false} ChunkIsWholePieces(s: seq<char>, pos: nat, target: int)
    requires pos <= |s|
    ensures WholePieces(s, pos, ChunkEnd(s, pos, target))
    decreases |s| - pos
  {
    if target > 0 && pos < |s| {
      var p := PieceEnd(s, pos);
      ChunkIsWholePieces(s, p, target - (p - pos));
    }
  }

  /** Where the last piece of a non-empty chunk starts: every piece of the
      chunk, the last one included, was read while the byte count was still
      below the target, so the chunk exceeds the target by less than the
      length of its last piece. */
  function LastPieceStart(s: seq<char>, pos: nat, target: int): (k: nat)
    requires pos < |s| && target > 0
    ensures pos <= k < |s| && k - pos < target && WholePieces(s, pos, k)
    ensures PieceEnd(s, k) == ChunkEnd(s, pos, target)
    decreases |s| - pos
  {
    var p := PieceEnd(s, pos);
    if p - pos >= target || p == |s| then pos
    else LastPieceStart(s, p, target - (p - pos))
  }

  // ---------------------------------------------------------------------
  // All splits: the outer for loop, sharing one input stream

  /** The input position where chunk `i` starts, the chunks before it
      having consumed everything up to there. */
  function ChunkStart(s: seq<char>, target: int, i: nat): (p: nat)
    ensures p <= |s|
  {
    if i == 0 then 0 else ChunkEnd(s, ChunkStart(s, target, i - 1), target)
  }

  /** The first `i` chunks, in index order. */
  function Chunks(s: seq<char>, target: int, i: nat): (chunks: seq<seq<char>>)
    ensures |chunks| == i
  {
    if i == 0 then []
    else Chunks(s, target, i - 1) + [s[ChunkStart(s, target, i - 1)..ChunkStart(s, target, i)]]
  }

  /** The contents of the split files split-0 .. split-(splitNum - 1). */
  function Split(s: seq<char>, splitNum: int): (chunks: seq<seq<char>>)
    requires splitNum > 0
    ensures |chunks| == splitNum
  {
    Chunks(s, SplitSize(|s|, splitNum), splitNum)
  }

  /** How many input bytes the split phase reads before closing the input. */
  function Consumed(s: seq<char>, splitNum: int): (n: nat)
    requires splitNum > 0
    ensures n <= |s|
  {
    ChunkStart(s, SplitSize(|s|, splitNum), splitNum)
  }

  /** Chunk `i` is the input between the start of chunk `i` and the start
      of chunk `i + 1`. */
  lemma {:induction false} ChunkAt(s: seq<char>, target: int, i: nat, count: nat)
    requires i < count
    ensures Chunks(s, target, count)[i]
            == s[ChunkStart(s, target, i)..ChunkStart(s, target, i + 1)]
    decreases count
  {
    if i < count - 1 {
      ChunkAt(s, target, i, count - 1);
    }
  }

  lemma {:induction false} FlattenChunks(s: seq<char>, target: int, i: nat)
    ensures Flatten(Chunks(s, target, i)) == s[..ChunkStart(s, target, i)]
  {
    if i > 0 {
      var q := ChunkStart(s, target, i - 1);
      var c := s[q..ChunkStart(s, target, i)];
      FlattenChunks(s, target, i - 1);
      FlattenAppend(Chunks(s, target, i - 1), [c]);
      assert Flatten([c]) == c + Flatten([]);
      assert s[..q] + c == s[..ChunkStart(s, target, i)];
    }
  }

  /** The split files, concatenated in index order, are exactly the first
      Consumed bytes of the input: chunks neither overlap nor reorder
      bytes, and nothing before the last consumed byte is lost. */
  lemma SplitIsPrefix(s: seq<char>, splitNum: int)
    requires splitNum > 0
    ensures Flatten(Split(s, splitNum)) == s[..Consumed(s, splitNum)]
  {
    FlattenChunks(s, SplitSize(|s|, splitNum), splitNum);
  }

  /** The input is the split files followed by the bytes left unread. */
  lemma SplitThenUnread(s: seq<char>, splitNum: int)
    requires splitNum > 0
    ensures s == Flatten(Split(s, splitNum)) + s[Consumed(s, splitNum)..]
  {
    SplitIsPrefix(s, splitNum);
    assert s == s[..Consumed(s, splitNum)] + s[Consumed(s, splitNum)..];
  }

  /** The stop rule, chunk by chunk: with a positive split size a chunk
      holds at least that many bytes unless it ends the input, and fewer
      than split size + PieceMax; with split size 0 every chunk is empty. */
  lemma SplitChunkSizes(s: seq<char>, splitNum: int, i: nat)
    requires splitNum > 0 && i < splitNum
    ensures var t := SplitSize(|s|, splitNum);
            var c := Split(s, splitNum)[i];
            && (t > 0 ==> |c| >= t || ChunkStart(s, t, i + 1) == |s|)
            && (t > 0 ==> |c| < t + PieceMax)
            && (t == 0 ==> c == [])
  {
    var t := SplitSize(|s|, splitNum);
    ChunkAt(s, t, i, splitNum);
    ChunkStopRule(s, ChunkStart(s, t, i), t);
  }

  /** Every non-empty chunk ends with one fgets piece that was started
      while the chunk held fewer bytes than the split size. */
  lemma SplitChunkOvershoot(s: seq<char>, splitNum: int, i: nat)
    requires splitNum > 0 && i < splitNum && Split(s, splitNum)[i] != []
    ensures var t := SplitSize(|s|, splitNum);
            var q := ChunkStart(s, t, i);
            && q < |s| && t > 0
            && var k := LastPieceStart(s, q, t);
               k - q < t && WholePieces(s, q, k) && PieceEnd(s, k) == ChunkStart(s, t, i + 1)
  {
    var t := SplitSize(|s|, splitNum);
    ChunkAt(s, t, i, splitNum);
    ChunkStopRule(s, ChunkStart(s, t, i), t);
  }

  // ---------------------------------------------------------------------
  // Lines are not divided

  /** The byte before position `e` ends a line, or the PieceMax bytes
      before `e` hold no newline at all: the place where fgets cuts a line
      that does not fit its buffer. */
  predicate CutAtLineEnd(s: seq<char>, e: nat)
    requires 0 < e <= |s|
  {
    s[e - 1] == '\n' || (e >= PieceMax && NoNewline(s, e - PieceMax, e))
  }

  lemma FirstPieceEnd(s: seq<char>, pos: nat)
    requires pos <= |s| && pos < PieceEnd(s, pos) < |s|
    ensures CutAtLineEnd(s, PieceEnd(s, pos))
  {
    PieceIsFgets(s, pos);
  }

  /** Every piece boundary inside the input is at a line end or cuts a run
      of PieceMax bytes without a newline. */
  lemma {:induction false} PieceBoundaryAtLineEnd(s: seq<char>, pos: nat, e: nat)
    requires WholePieces(s, pos, e) && pos < e < |s|
    ensures CutAtLineEnd(s, e)
    decreases e - pos
  {
    var p := PieceEnd(s, pos);
    if p == e {
      FirstPieceEnd(s, pos);
    } else {
      PieceBoundaryAtLineEnd(s, p, e);
    }
  }

  lemma {:induction false} WholePiecesAppend(s: seq<char>, a: nat, b: nat, c: nat)
    requires WholePieces(s, a, b) && WholePieces(s, b, c)
    ensures WholePieces(s, a, c)
    decreases b - a
  {
    if a < b {
      WholePiecesAppend(s, PieceEnd(s, a), b, c);
    }
  }

  lemma {:induction false} StartsOnPieceBoundaries(s: seq<char>, target: int, i: nat)
    ensures WholePieces(s, 0, ChunkStart(s, target, i))
  {
    if i > 0 {
      var q := ChunkStart(s, target, i - 1);
      StartsOnPieceBoundaries(s, target, i - 1);
      ChunkIsWholePieces(s, q, target);
      WholePiecesAppend(s, 0, q, ChunkEnd(s, q, target));
    }
  }

  /** No chunk boundary falls inside a line of fewer than 1024 bytes: each
      boundary strictly inside the input follows a newline or a run of
      PieceMax bytes without one. */
  lemma SplitKeepsLinesWhole(s: seq<char>, splitNum: int, i: nat)
    requires splitNum > 0 && i <= splitNum
    requires 0 < ChunkStart(s, SplitSize(|s|, splitNum), i) < |s|
    ensures CutAtLineEnd(s, ChunkStart(s, SplitSize(|s|, splitNum), i))
  {
    var t := SplitSize(|s|, splitNum);
    StartsOnPieceBoundaries(s, t, i);
    PieceBoundaryAtLineEnd(s, 0, ChunkStart(s, t, i));
  }

  /** Every line of the input, its newline included, has at most PieceMax
      bytes: every window of PieceMax bytes holds a newline. */
  predicate LinesFit(s: seq<char>)
  {
    forall i :: 0 <= i && i + PieceMax <= |s| ==> WindowHasNewline(s, i)
  }

  predicate WindowHasNewline(s: seq<char>, i: nat)
    requires i + PieceMax <= |s|
  {
    !NoNewline(s, i, i + PieceMax)
  }

  lemma LineEndWhenLinesFit(s: seq<char>, e: nat)
    requires 0 < e <= |s| && LinesFit(s) && CutAtLineEnd(s, e)
    ensures s[e - 1] == '\n'
  {
    if e >= PieceMax {
      assert WindowHasNewline(s, e - PieceMax);
    }
  }

  /** When every line fits the fgets buffer, every chunk that ends inside the
      input ends with a newline. */
  lemma SplitEndsAtNewlines(s: seq<char>, splitNum: int, i: nat)
    requires splitNum > 0 && i < splitNum && LinesFit(s)
    ensures var c := Split(s, splitNum)[i];
            c == [] || c[|c| - 1] == '\n' || ChunkStart(s, SplitSize(|s|, splitNum), i + 1) == |s|
  {
    var t := SplitSize(|s|, splitNum);
    var e := ChunkStart(s, t, i + 1);
    ChunkAt(s, t, i, splitNum);
    if Split(s, splitNum)[i] != [] && e < |s| {
      SplitKeepsLinesWhole(s, splitNum, i + 1);
      LineEndWhenLinesFit(s, e);
    }
  }

  // ---------------------------------------------------------------------
  // Empty chunks and the unread tail

  lemma {:induction false} ZeroTargetReadsNothing(s: seq<char>, i: nat)
    ensures ChunkStart(s, 0, i) == 0
  {
    if i > 0 {
      ZeroTargetReadsNothing(s, i - 1);
    }
  }

  /** An input shorter than the split count gives split size 0, and then
      every split file is empty. */
  lemma ShortInputGivesEmptySplits(s: seq<char>, splitNum: int)
    requires splitNum > 0 && |s| < splitNum
    ensures forall i :: 0 <= i < splitNum ==> Split(s, splitNum)[i] == []
  {
    assert SplitSize(|s|, splitNum) == 0;
    forall i | 0 <= i < splitNum ensures Split(s, splitNum)[i] == [] {
      ChunkAt(s, 0, i, splitNum);
      ZeroTargetReadsNothing(s, i);
      ZeroTargetReadsNothing(s, i + 1);
    }
  }

  lemma {:induction false} ExhaustedStaysAtEnd(s: seq<char>, target: int, i: nat, j: nat)
    requires i <= j && ChunkStart(s, target, i) == |s|
    ensures ChunkStart(s, target, j) == |s|
    decreases j - i
  {
    if i < j {
      ExhaustedStaysAtEnd(s, target, i, j - 1);
    }
  }

  /** Once the input is used up, every later split file is empty. */
  lemma ExhaustedInputGivesEmptySplits(s: seq<char>, splitNum: int, i: nat)
    requires splitNum > 0 && i < splitNum && ChunkStart(s, SplitSize(|s|, splitNum), i) == |s|
    ensures forall j :: i <= j < splitNum ==> Split(s, splitNum)[j] == []
  {
    var t := SplitSize(|s|, splitNum);
    forall j | i <= j < splitNum ensures Split(s, splitNum)[j] == [] {
      ChunkAt(s, t, j, splitNum);
      ExhaustedStaysAtEnd(s, t, i, j);
      ExhaustedStaysAtEnd(s, t, i, j + 1);
    }
  }

  lemma {:induction false} StartLowerBound(s: seq<char>, target: nat, i: nat)
    ensures ChunkStart(s, target, i) == |s| || ChunkStart(s, target, i) >= i * target
  {
    if i > 0 {
      StartLowerBound(s, target, i - 1);
      ChunkStopRule(s, ChunkStart(s, target, i - 1), target);
      assert (i - 1) * target + target == i * target;
    }
  }

  /** The last chunk gets no leftover: the bytes after Consumed are written
      to no split file. Since every chunk that does not end the input holds
      at least the split size, fewer than splitNum bytes are left unread. */
  lemma UnreadTailIsShort(s: seq<char>, splitNum: int)
    requires splitNum > 0
    ensures |s| - Consumed(s, splitNum) < splitNum
  {
    var t := SplitSize(|s|, splitNum);
    SplitSizeIsQuotient(|s|, splitNum);
    StartLowerBound(s, t, splitNum);
    var whole := splitNum * t;
    assert (t + 1) * splitNum == whole + splitNum;
  }

  /** Inputs whose tail is dropped: a five-byte input made of two
      one-byte lines and one more byte, such as "a\nb\nc", in two splits
      has split size 2; the first split takes the first line, the second
      split the second line, and the last byte is never read. */
  lemma TailDroppedExample(s: seq<char>)
    requires |s| == 5 && s[0] != '\n' && s[1] == '\n' && s[2] != '\n' && s[3] == '\n'
    ensures Split(s, 2) == [s[..2], s[2..4]]
    ensures Consumed(s, 2) == 4
  {
    assert SplitSize(|s|, 2) == 2;
    ExampleChunkEnd(s, 0);
    ExampleChunkEnd(s, 2);
    assert ChunkStart(s, 2, 1) == 2;
    assert ChunkStart(s, 2, 2) == 4;
    assert Chunks(s, 2, 1) == [s[..2]];
  }

  /** A chunk of target 2 starting at a letter followed by a newline. */
  lemma ExampleChunkEnd(s: seq<char>, pos: nat)
    requires pos + 2 < |s| && s[pos] != '\n' && s[pos + 1] == '\n'
    ensures ChunkEnd(s, pos, 2) == pos + 2
  {
    assert PieceScan(s, pos, pos + 1) == pos + 2;
    assert PieceEnd(s, pos) == pos + 2;
  }

  // ---------------------------------------------------------------------
  // The split phase as the engine runs it

  /** The inner while loop of one split: fgets pieces are copied from the
      input stream, which stands at `pos`, while the split's byte count is
      below the split size and the stream is not at its end. `next` is
      where the stream stands afterwards. */
  method FillSplit(input: seq<char>, pos: nat, splitSize: int) returns (chunk: seq<char>, next: nat)
    requires pos <= |input| && NoNul(input)
    ensures next == ChunkEnd(input, pos, splitSize)
    ensures chunk == input[pos..next]
  {
    chunk, next := [], pos;
    var bytesRead := 0;
    while bytesRead < splitSize && next < |input|
      invariant pos <= next <= |input|
      invariant chunk == input[pos..next]
      invariant bytesRead == next - pos
      invariant ChunkEnd(input, pos, splitSize) == ChunkEnd(input, next, splitSize - bytesRead)
      decreases |input| - next
    {
      var e := PieceEnd(input, next);
      assert input[pos..next] + input[next..e] == input[pos..e];
      chunk := chunk + input[next..e];
      bytesRead := bytesRead + (e - next);
      next := e;
    }
  }

  /** Phase 1 of mapreduce(): computes the split size, fills the split
      files in index order from one shared input stream, and records the
      split and intermediate file names. `unread` is what is left in the
      input stream when it is closed. */
  method SplitPhase(input: seq<char>, splitNum: int)
    returns (splitSize: nat, splitFiles: array<seq<char>>, splitNames: array<seq<char>>,
             intermediateNames: array<seq<char>>, unread: seq<char>)
    requires splitNum > 0 && NoNul(input)
    ensures fresh(splitFiles) && fresh(splitNames) && fresh(intermediateNames)
    ensures splitSize == SplitSize(|input|, splitNum)
    ensures splitFiles[..] == Split(input, splitNum)
    ensures splitNames[..] == SplitNames(splitNum)
    ensures intermediateNames[..] == IntermediateNames(splitNum)
    ensures input == Flatten(splitFiles[..]) + unread
    ensures unread == input[Consumed(input, splitNum)..]
  {
    splitSize := SplitSize(|input|, splitNum);
    var pos;
    splitFiles, splitNames, intermediateNames, pos := WriteSplits(input, splitSize, splitNum);
    unread := input[pos..];
    SplitThenUnread(input, splitNum);
  }

  /** The for loop of phase 1 for a given split size: split `i` is named,
      filled from where split `i - 1` left the stream, and its intermediate
      file is named. `pos` is where the stream stands after the last split. */
  method WriteSplits(input: seq<char>, splitSize: nat, splitNum: nat)
    returns (splitFiles: array<seq<char>>, splitNames: array<seq<char>>,
             intermediateNames: array<seq<char>>, pos: nat)
    requires NoNul(input)
    ensures fresh(splitFiles) && fresh(splitNames) && fresh(intermediateNames)
    ensures splitFiles[..] == Chunks(input, splitSize, splitNum)
    ensures splitNames[..] == SplitNames(splitNum)
    ensures intermediateNames[..] == IntermediateNames(splitNum)
    ensures pos == ChunkStart(input, splitSize, splitNum)
  {
    splitFiles := new seq<char>[splitNum];
    splitNames := new seq<char>[splitNum];
    intermediateNames := new seq<char>[splitNum];
    pos := 0;
    for i := 0 to splitNum
      invariant pos == ChunkStart(input, splitSize, i)
      invariant splitFiles[..i] == Chunks(input, splitSize, i)
      invariant splitNames[..i] == SplitNames(i)
      invariant intermediateNames[..i] == IntermediateNames(i)
    {
      var chunk;
      chunk, pos := FillSplit(input, pos, splitSize);
      assert Chunks(input, splitSize, i + 1) == Chunks(input, splitSize, i) + [chunk];
      splitNames[i] := SplitName(i);
      splitFiles[i] := chunk;
      intermediateNames[i] := IntermediateName(i);
      assert splitFiles[..i + 1] == splitFiles[..i] + [chunk];
      assert splitNames[..i + 1] == splitNames[..i] + [SplitName(i)];
      assert intermediateNames[..i + 1] == intermediateNames[..i] + [IntermediateName(i)];
    }
    assert splitFiles[..] == splitFiles[..splitNum];
    assert splitNames[..] == splitNames[..splitNum];
    assert intermediateNames[..] == intermediateNames[..splitNum];
  }
}

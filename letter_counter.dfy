/** The "letter counter" job (usr_functions.c): the map function counts
    the letters of its split case-insensitively and writes one "<L> <n>"
    line per letter that occurs; the reduce function parses those lines
    from every intermediate file and writes the totals in the same form. */
module LetterCounter {
  import opened Basics
  import opened DecimalFormat

  const Letters: nat := 26
  /** `read(split->fd, read_buffer, 1024)` in the map function. */
  const MapReadSize: nat := 1024
  /** `read(p_fd_in[i], read_buffer, sizeof(read_buffer) - 1)` with a
      256-byte buffer in the reduce function. */
  const ReduceReadSize: nat := 255
  /** `char output_line[16]`, the buffer each "<L> <n>" line is printed into. */
  const LineBufferSize: nat := 16

  predicate IsUpper(c: char)
  {
    'A' <= c <= 'Z'
  }

  predicate IsLower(c: char)
  {
    'a' <= c <= 'z'
  }

  function LetterChar(k: nat): char
    requires k < Letters
  {
    ('A' as int + k) as char
  }

  function LowerChar(k: nat): char
    requires k < Letters
  {
    ('a' as int + k) as char
  }

  /** The bucket of the map's frequency array a byte is counted in, or -1
      for a byte that is not counted. */
  function Bucket(c: char): int
  {
    if IsUpper(c) then c as int - 'A' as int
    else if IsLower(c) then c as int - 'a' as int
    else -1
  }

  /** Bucket k receives exactly the upper-case and the lower-case form of
      the k-th letter, and a byte that is no letter falls in no bucket. */
  lemma BucketIsCaseInsensitive(c: char, k: nat)
    requires k < Letters
    ensures Bucket(c) == k <==> c == LetterChar(k) || c == LowerChar(k)
    ensures Bucket(c) < Letters
    ensures Bucket(c) < 0 <==> !IsUpper(c) && !IsLower(c)
  {
  }

  // ---------------------------------------------------------------------
  // Letter counts

  /** How many bytes of `s` fall in bucket `k`. */
  function CountOf(s: seq<char>, k: int): nat
  {
    if s == [] then 0
    else CountOf(s[..|s| - 1], k) + (if Bucket(s[|s| - 1]) == k then 1 else 0)
  }

  /** Counting is additive over concatenation, so the counts do not depend
      on how the reads cut the input into blocks. */
  lemma {:induction false} CountOfAppend(a: seq<char>, b: seq<char>, k: int)
    ensures CountOf(a + b, k) == CountOf(a, k) + CountOf(b, k)
    decreases |b|
  {
    if b == [] {
      assert a + b == a;
    } else {
      assert (a + b)[..|a + b| - 1] == a + b[..|b| - 1];
      CountOfAppend(a, b[..|b| - 1], k);
    }
  }

  /** The letter frequencies of `s`, indexed by bucket. */
  function Counts(s: seq<char>): (d: seq<int>)
    ensures |d| == Letters
  {
    seq(Letters, k => CountOf(s, k))
  }

  // ---------------------------------------------------------------------
  // The "<L> <n>\n" lines

  /** snprintf(output_line, 16, "%c %d\n", 'A' + k, n). */
  function Entry(k: nat, n: nat): seq<char>
    requires k < Letters
  {
    [LetterChar(k), ' '] + Decimal(n) + ['\n']
  }

  /** For every count a C int can hold, the line and its NUL fit the
      16-byte buffer, so snprintf writes the whole line. */
  lemma EntryFits(k: nat, n: nat)
    requires k < Letters && n <= IntMax
    ensures |Entry(k, n)| + 1 <= LineBufferSize
  {
    IntDecimalWidth(n);
  }

  /** The lines the output loop writes for the first `k` letters: one line
      for each letter whose count is positive, in alphabetical order. */
  function FormatUpTo(d: seq<int>, k: nat): seq<char>
    requires k <= |d| <= Letters
  {
    if k == 0 then []
    else FormatUpTo(d, k - 1) + (if d[k - 1] > 0 then Entry(k - 1, d[k - 1]) else [])
  }

  function FormatCounts(d: seq<int>): seq<char>
    requires |d| == Letters
  {
    FormatUpTo(d, Letters)
  }

  // ---------------------------------------------------------------------
  // strtok(buffer, "\n") and sscanf(line, "%c %d", ...)

  /** The end of the line that starts at `i`: the next newline, or the end. */
  function LineEnd(s: seq<char>, i: nat): (e: nat)
    requires i <= |s|
    ensures i <= e <= |s|
    ensures e < |s| ==> s[e] == '\n'
    decreases |s| - i
  {
    if i == |s| || s[i] == '\n' then i else LineEnd(s, i + 1)
  }

  /** A non-empty run of bytes without a newline. */
  predicate IsToken(t: seq<char>)
  {
    t != [] && forall j :: 0 <= j < |t| ==> t[j] != '\n'
  }

  /** The tokens strtok returns for delimiter "\n": the maximal runs of
      bytes without a newline, empty runs skipped. */
  function Tokens(s: seq<char>): seq<seq<char>>
    decreases |s|
  {
    if s == [] then []
    else if s[0] == '\n' then Tokens(s[1..])
    else
      var e := LineEnd(s, 0);
      assert e > 0 by { assert LineEnd(s, 0) == LineEnd(s, 1); }
      [s[..e]] + Tokens(s[e..])
  }

  /** Every token is non-empty and holds no newline. */
  lemma {:induction false} TokensAreLines(s: seq<char>)
    ensures forall i :: 0 <= i < |Tokens(s)| ==> IsToken(Tokens(s)[i])
    decreases |s|
  {
    if s != [] {
      if s[0] == '\n' {
        TokensAreLines(s[1..]);
      } else {
        var e := LineEnd(s, 0);
        assert e > 0 by { assert LineEnd(s, 0) == LineEnd(s, 1); }
        LineEndNoNewline(s, 0);
        TokensAreLines(s[e..]);
        assert Tokens(s) == [s[..e]] + Tokens(s[e..]);
      }
    }
  }

  lemma {:induction false} LineEndNoNewline(s: seq<char>, i: nat)
    requires i <= |s|
    ensures forall j :: i <= j < LineEnd(s, i) ==> s[j] != '\n'
    decreases |s| - i
  {
    if i < |s| && s[i] != '\n' {
      LineEndNoNewline(s, i + 1);
    }
  }

  /** A line already read up to a newline ends before anything appended. */
  lemma {:induction false} LineEndAppend(a: seq<char>, b: seq<char>, i: nat)
    requires i < |a| && a[|a| - 1] == '\n'
    ensures LineEnd(a + b, i) == LineEnd(a, i) < |a|
    decreases |a| - i
  {
    if a[i] != '\n' {
      LineEndAppend(a, b, i + 1);
    }
  }

  lemma {:induction false} LineEndAll(s: seq<char>, i: nat)
    requires i <= |s| && forall j :: i <= j < |s| ==> s[j] != '\n'
    ensures LineEnd(s, i) == |s|
    decreases |s| - i
  {
    if i < |s| {
      LineEndAll(s, i + 1);
    }
  }

  /** Tokenising a text that ends with a newline and then a further text
      gives the tokens of the two, one after the other. */
  lemma {:induction false} TokensAppend(a: seq<char>, b: seq<char>)
    requires a == [] || a[|a| - 1] == '\n'
    ensures Tokens(a + b) == Tokens(a) + Tokens(b)
    decreases |a|
  {
    if a == [] {
      assert a + b == b;
    } else if a[0] == '\n' {
      assert (a + b)[1..] == a[1..] + b;
      TokensAppend(a[1..], b);
    } else {
      var e := LineEnd(a, 0);
      LineEndAppend(a, b, 0);
      assert (a + b)[..e] == a[..e];
      assert (a + b)[e..] == a[e..] + b;
      TokensAppend(a[e..], b);
    }
  }

  /** A non-empty line without newline, terminated by one, is one token. */
  lemma TokensOfLine(line: seq<char>)
    requires line != [] && forall j :: 0 <= j < |line| ==> line[j] != '\n'
    ensures Tokens(line + ['\n']) == [line]
  {
    var s := line + ['\n'];
    LineEndSame(line, s, 0);
    assert s[..|line|] == line;
    assert s[|line|..] == ['\n'];
    assert Tokens(['\n']) == Tokens([]);
  }

  lemma {:induction false} LineEndSame(a: seq<char>, s: seq<char>, i: nat)
    requires i <= |a| < |s| && a == s[..|a|] && s[|a|] == '\n'
    requires forall j :: i <= j < |a| ==> a[j] != '\n'
    ensures LineEnd(s, i) == |a|
    decreases |a| - i
  {
    if i < |a| {
      LineEndSame(a, s, i + 1);
    }
  }

  datatype Parsed = Parsed(letter: char, count: int)

  /** sscanf(line, "%c %d", &letter, &count) returning 2: "%c" takes the
      first byte whatever it is, " " skips white space, and "%d" needs an
      optionally signed run of digits. None when fewer than two
      conversions succeed. */
  function ScanEntry(line: seq<char>): Option<Parsed>
  {
    if line == [] then None
    else
      match ScanDecimal(line[1..])
      case None => None
      case Some(v) => Some(Parsed(line[0], v))
  }

  /** What one token adds to aggregated_counts[k]: its count, when it
      parses and names the k-th upper-case letter; otherwise nothing. */
  function Contribution(line: seq<char>, k: int): int
  {
    match ScanEntry(line)
    case None => 0
    case Some(p) => if IsUpper(p.letter) && p.letter as int - 'A' as int == k then p.count else 0
  }

  /** The letter is the first byte; a digit right after it always gives a
      count, and a non-negative one. */
  lemma ScanEntryShape(line: seq<char>)
    ensures var r := ScanEntry(line);
            && (r.Some? ==> |line| >= 2 && r.value.letter == line[0])
            && (|line| >= 2 && IsDigit(line[1]) ==> r.Some? && r.value.count >= 0)
  {
    if line != [] {
      var rest := line[1..];
      ScanDecimalShape(rest);
      if rest != [] && IsDigit(rest[0]) {
        assert SkipSpaces(rest) == rest;
      }
      match ScanDecimal(rest)
      case None =>
      case Some(v) =>
        assert ScanEntry(line) == Some(Parsed(line[0], v));
    }
  }

  /** A token adds only to the upper-case letter it starts with. */
  lemma ContributionOwnLetter(line: seq<char>, k: int)
    ensures Contribution(line, k) != 0 ==>
              0 <= k < Letters && ScanEntry(line).Some? && line[0] == LetterChar(k)
  {
    ScanEntryShape(line);
  }

  /** A printed "<L> <n>" line parses back to its letter and count. */
  lemma EntryParses(k: nat, n: nat)
    requires k < Letters
    ensures var line := Entry(k, n)[..|Entry(k, n)| - 1];
            ScanEntry(line) == Some(Parsed(LetterChar(k), n))
  {
    var line := Entry(k, n)[..|Entry(k, n)| - 1];
    assert line == [LetterChar(k)] + ([' '] + Decimal(n));
    assert line[1..] == [' '] + Decimal(n);
    ScanDecimalRoundTrip([' '], n);
  }

  function TokenSum(toks: seq<seq<char>>, k: int): int
  {
    if toks == [] then 0 else Contribution(toks[0], k) + TokenSum(toks[1..], k)
  }

  lemma {:induction false} TokenSumAppend(a: seq<seq<char>>, b: seq<seq<char>>, k: int)
    ensures TokenSum(a + b, k) == TokenSum(a, k) + TokenSum(b, k)
    decreases |a|
  {
    if a == [] {
      assert a + b == b;
    } else {
      assert (a + b)[1..] == a[1..] + b;
      TokenSumAppend(a[1..], b, k);
    }
  }

  /** One printed line, read back, adds its count to its own letter only. */
  lemma EntryTokenSum(j: nat, n: nat, k: int)
    requires j < Letters
    ensures TokenSum(Tokens(Entry(j, n)), k) == if k == j then n else 0
  {
    var entry := Entry(j, n);
    var line := entry[..|entry| - 1];
    assert entry == line + ['\n'];
    TokensOfLine(line);
    EntryParses(j, n);
    assert TokenSum([line], k) == Contribution(line, k) + TokenSum([], k);
  }

  /** What reading back the lines of the first `m` letters of `d` gives
      letter `k`: its count when it is among them and positive. */
  function Recovered(d: seq<int>, m: nat, k: int): int
    requires m <= |d|
  {
    if 0 <= k < m && d[k] > 0 then d[k] else 0
  }

  /** What the reduce function's parsing adds to letter `k` from the lines
      the output loop writes for the first `m` letters of `d`. */
  function ReadBack(d: seq<int>, m: nat, k: int): int
    requires m <= |d| <= Letters
  {
    TokenSum(Tokens(FormatUpTo(d, m)), k)
  }

  /** Appending the line of letter m - 1 adds its count to that letter. */
  lemma FormatStepParses(d: seq<int>, m: nat, k: int)
    requires 0 < m <= |d| <= Letters
    requires ReadBack(d, m - 1, k) == Recovered(d, m - 1, k)
    ensures ReadBack(d, m, k) == Recovered(d, m, k)
  {
    var prefix := FormatUpTo(d, m - 1);
    if d[m - 1] > 0 {
      var entry := Entry(m - 1, d[m - 1]);
      FormatEndsWithNewline(d, m - 1);
      TokensAppend(prefix, entry);
      TokenSumAppend(Tokens(prefix), Tokens(entry), k);
      EntryTokenSum(m - 1, d[m - 1], k);
    } else {
      assert FormatUpTo(d, m) == prefix;
    }
  }

  /** The lines the map function writes, read back through strtok and
      sscanf, give each letter its count when positive and nothing
      otherwise. */
  lemma {:induction false} FormatUpToParses(d: seq<int>, m: nat, k: int)
    requires m <= |d| <= Letters
    ensures ReadBack(d, m, k) == Recovered(d, m, k)
  {
    if m > 0 {
      FormatUpToParses(d, m - 1, k);
      FormatStepParses(d, m, k);
    } else {
      assert FormatUpTo(d, m) == [];
      assert TokenSum(Tokens([]), k) == 0;
    }
  }

  lemma {:induction false} FormatEndsWithNewline(d: seq<int>, m: nat)
    requires m <= |d| <= Letters
    ensures var f := FormatUpTo(d, m); f == [] || f[|f| - 1] == '\n'
  {
    if m > 0 {
      FormatEndsWithNewline(d, m - 1);
      if d[m - 1] > 0 {
        var e := Entry(m - 1, d[m - 1]);
        assert e[|e| - 1] == '\n';
        assert FormatUpTo(d, m) == FormatUpTo(d, m - 1) + e;
      } else {
        assert FormatUpTo(d, m) == FormatUpTo(d, m - 1);
      }
    }
  }

  /** Round trip: parsing the map output of `d` gives back every count of
      `d` that is positive. */
  lemma FormatCountsParses(d: seq<int>, k: nat)
    requires |d| == Letters && k < Letters
    ensures TokenSum(Tokens(FormatCounts(d)), k) == if d[k] > 0 then d[k] else 0
  {
    FormatUpToParses(d, Letters, k);
  }

  lemma {:induction false} CountOfBound(s: seq<char>, k: int)
    ensures CountOf(s, k) <= |s|
  {
    if s != [] {
      CountOfBound(s[..|s| - 1], k);
    }
  }

  lemma SixDigits(n: nat)
    requires n < 1000000
    ensures |Decimal(n)| <= 6
  {
    assert Pow10(6) == 1000000 by {
      assert Pow10(1) == 10;
      assert Pow10(2) == 100;
      assert Pow10(3) == 1000;
      assert Pow10(4) == 10000;
      assert Pow10(5) == 100000;
    }
    DecimalLengthBound(n, 6);
  }

  /** Counts below one million print in at most six digits, so each line
      takes at most 9 bytes. */
  lemma {:induction false} FormatUpToShort(d: seq<int>, m: nat)
    requires m <= |d| <= Letters && forall k :: 0 <= k < |d| ==> d[k] < 1000000
    ensures |FormatUpTo(d, m)| <= 9 * m
  {
    if m > 0 {
      FormatUpToShort(d, m - 1);
      FormatStepLength(d, m);
      if d[m - 1] > 0 {
        EntryShort(m - 1, d[m - 1]);
      }
    }
  }

  lemma FormatStepLength(d: seq<int>, m: nat)
    requires 0 < m <= |d| <= Letters
    ensures |FormatUpTo(d, m)| == |FormatUpTo(d, m - 1)| + (if d[m - 1] > 0 then |Entry(m - 1, d[m - 1])| else 0)
  {
  }

  lemma EntryShort(k: nat, n: nat)
    requires k < Letters && n < 1000000
    ensures |Entry(k, n)| <= 9
  {
    SixDigits(n);
  }

  /** The map output of a split shorter than one million bytes fits in one
      255-byte read of the reduce function. */
  lemma ShortSplitFitsOneRead(s: seq<char>)
    requires |s| < 1000000
    ensures |FormatCounts(Counts(s))| <= ReduceReadSize
  {
    forall k | 0 <= k < Letters ensures Counts(s)[k] < 1000000 {
      CountOfBound(s, k);
    }
    FormatUpToShort(Counts(s), Letters);
  }

  // ---------------------------------------------------------------------
  // The reduce function's view of its input files

  /** What the tokens of the 255-byte blocks of `file` from `pos` on add to
      letter `k`: each read() block is tokenised on its own. */
  function BlockSumFrom(file: seq<char>, pos: nat, k: int): int
    requires pos <= |file|
    decreases |file| - pos
  {
    if pos == |file| then 0
    else
      var next := Min(pos + ReduceReadSize, |file|);
      TokenSum(Tokens(file[pos..next]), k) + BlockSumFrom(file, next, k)
  }

  /** aggregated_counts[k] after all files: the block sums, file by file. */
  function FilesSum(files: seq<seq<char>>, k: int): int
  {
    if files == [] then 0 else BlockSumFrom(files[0], 0, k) + FilesSum(files[1..], k)
  }

  /** The sum the reduce function is meant to compute: every line of
      every file, whole. */
  function LinesSum(files: seq<seq<char>>, k: int): int
  {
    if files == [] then 0 else TokenSum(Tokens(files[0]), k) + LinesSum(files[1..], k)
  }

  /** The block boundaries of `file` from `pos` on all fall after a newline. */
  predicate BlocksEndAtNewlines(file: seq<char>, pos: nat)
    requires pos <= |file|
    decreases |file| - pos
  {
    pos + ReduceReadSize >= |file|
    || (file[pos + ReduceReadSize - 1] == '\n' && BlocksEndAtNewlines(file, pos + ReduceReadSize))
  }

  /** When no line straddles a block boundary, tokenising block by block is
      the same as tokenising the whole file. */
  lemma {:induction false} BlocksAgreeWithLines(file: seq<char>, pos: nat, k: int)
    requires pos <= |file| && BlocksEndAtNewlines(file, pos)
    ensures BlockSumFrom(file, pos, k) == TokenSum(Tokens(file[pos..]), k)
    decreases |file| - pos
  {
    if pos < |file| {
      var next := Min(pos + ReduceReadSize, |file|);
      if next < |file| {
        BlocksAgreeWithLines(file, next, k);
        assert file[pos..] == file[pos..next] + file[next..];
        TokensAppend(file[pos..next], file[next..]);
        TokenSumAppend(Tokens(file[pos..next]), Tokens(file[next..]), k);
      } else {
        assert file[pos..next] == file[pos..];
      }
    }
  }

  /** In particular when every file fits one 255-byte read. */
  lemma {:induction false} SingleReadAgrees(files: seq<seq<char>>, k: int)
    requires forall i :: 0 <= i < |files| ==> |files[i]| <= ReduceReadSize
    ensures FilesSum(files, k) == LinesSum(files, k)
  {
    if files != [] {
      BlocksAgreeWithLines(files[0], 0, k);
      assert files[0][0..] == files[0];
      SingleReadAgrees(files[1..], k);
    }
  }

  // ---------------------------------------------------------------------
  // The job functions as specifications

  /** Every letter of printed counts, read back, at once. */
  lemma FormatCountsParseAll(d: seq<int>)
    requires |d| == Letters
    ensures forall k :: 0 <= k < Letters ==>
              TokenSum(Tokens(FormatCounts(d)), k) == if d[k] > 0 then d[k] else 0
  {
    forall k | 0 <= k < Letters
      ensures TokenSum(Tokens(FormatCounts(d)), k) == if d[k] > 0 then d[k] else 0
    {
      FormatCountsParses(d, k);
    }
  }

  /** letter_counter_map: -1 without a split or with a negative
      descriptor; otherwise 0, and the letter counts of the split. */
  function MapSpec(split: Option<DataSplit>, input: seq<char>): Outcome
  {
    if split.None? || split.value.fd < 0 then Outcome(-1, [])
    else Outcome(0, FormatCounts(Counts(input)))
  }

  /** The map fails, writing nothing, exactly without a split or with a
      negative descriptor; otherwise it succeeds, and the reduce's parser
      reads its output back as the letter counts of the split. */
  lemma MapSpecParses(split: Option<DataSplit>, input: seq<char>)
    ensures var r := MapSpec(split, input);
            && (r.status == -1 <==> split.None? || split.value.fd < 0)
            && (r.status == -1 || r.status == 0)
            && (r.status == -1 ==> r.written == [])
            && (r.status == 0 ==>
                  forall k :: 0 <= k < Letters ==> TokenSum(Tokens(r.written), k) == CountOf(input, k))
  {
    FormatCountsParseAll(Counts(input));
  }

  /** The totals letter_counter_reduce prints, as it tokenises its input. */
  function ReduceTotals(files: seq<seq<char>>): (d: seq<int>)
    ensures |d| == Letters
  {
    seq(Letters, k => FilesSum(files, k))
  }

  /** letter_counter_reduce: -1 without the descriptor array or with a
      count that is not positive; otherwise 0 and the totals. `files` are
      the contents of the files the descriptor array refers to, in array
      order. */
  function ReduceSpec(files: Option<seq<seq<char>>>, count: int): Outcome
    requires files.Some? && count > 0 ==> |files.value| == count
  {
    if files.None? || count <= 0 then Outcome(-1, [])
    else Outcome(0, FormatCounts(ReduceTotals(files.value)))
  }

  /** The reduce fails, writing nothing, exactly without the descriptor
      array or with a count that is not positive; otherwise it succeeds,
      and its output reads back as every positive total. */
  lemma ReduceSpecParses(files: Option<seq<seq<char>>>, count: int)
    requires files.Some? && count > 0 ==> |files.value| == count
    ensures var r := ReduceSpec(files, count);
            && (r.status == -1 <==> files.None? || count <= 0)
            && (r.status == -1 || r.status == 0)
            && (r.status == -1 ==> r.written == [])
            && (r.status == 0 ==> forall k :: 0 <= k < Letters ==>
                  TokenSum(Tokens(r.written), k) == if FilesSum(files.value, k) > 0 then FilesSum(files.value, k) else 0)
  {
    if files.Some? && count > 0 {
      FormatCountsParseAll(ReduceTotals(files.value));
    }
  }

  /** The reduce with whole-line tokenisation. */
  function ReduceLinesTotals(files: seq<seq<char>>): (d: seq<int>)
    ensures |d| == Letters
  {
    seq(Letters, k => LinesSum(files, k))
  }

  /** The reduce as it is meant to work: the same outcomes, with the
      totals taken over whole lines. */
  function ReduceLinesSpec(files: Option<seq<seq<char>>>, count: int): Outcome
    requires files.Some? && count > 0 ==> |files.value| == count
  {
    if files.None? || count <= 0 then Outcome(-1, [])
    else Outcome(0, FormatCounts(ReduceLinesTotals(files.value)))
  }

  /** The same outcomes as the reduce as written, and on success an output
      that reads back as every positive whole-line total. */
  lemma ReduceLinesSpecParses(files: Option<seq<seq<char>>>, count: int)
    requires files.Some? && count > 0 ==> |files.value| == count
    ensures var r := ReduceLinesSpec(files, count);
            && r.status == ReduceSpec(files, count).status
            && (r.status == -1 ==> r.written == [])
            && (r.status == 0 ==> forall k :: 0 <= k < Letters ==>
                  TokenSum(Tokens(r.written), k) == if LinesSum(files.value, k) > 0 then LinesSum(files.value, k) else 0)
  {
    if files.Some? && count > 0 {
      FormatCountsParseAll(ReduceLinesTotals(files.value));
    }
  }

  /** When every intermediate file fits one read, the reduce as written and
      the whole-line reduce agree. */
  lemma ReduceAgreesOnShortFiles(files: seq<seq<char>>, count: int)
    requires count > 0 && |files| == count
    requires forall i :: 0 <= i < |files| ==> |files[i]| <= ReduceReadSize
    ensures ReduceSpec(Some(files), count) == ReduceLinesSpec(Some(files), count)
  {
    forall k | 0 <= k < Letters ensures FilesSum(files, k) == LinesSum(files, k) {
      SingleReadAgrees(files, k);
    }
    assert ReduceTotals(files) == ReduceLinesTotals(files);
  }

  // A line across a read boundary

  /** Every letter counted `n` times. */
  function Uniform(n: nat): (d: seq<int>)
    ensures |d| == Letters && forall k :: 0 <= k < Letters ==> d[k] == n
  {
    seq(Letters, _ => n)
  }

  /** With eight-digit counts every line is 11 bytes long. */
  lemma {:induction false} UniformFormatLength(n: nat, m: nat)
    requires 10000000 <= n < 100000000 && m <= Letters
    ensures |FormatUpTo(Uniform(n), m)| == 11 * m
  {
    if m > 0 {
      UniformFormatLength(n, m - 1);
      EntryLength(m - 1, n);
      assert FormatUpTo(Uniform(n), m) == FormatUpTo(Uniform(n), m - 1) + Entry(m - 1, n);
    }
  }

  lemma EntryLength(k: nat, n: nat)
    requires k < Letters && 10000000 <= n < 100000000
    ensures |Entry(k, n)| == 11 && |Decimal(n)| == 8
  {
    assert Pow10(7) == 10000000 by {
      assert Pow10(1) == 10;
      assert Pow10(2) == 100;
      assert Pow10(3) == 1000;
      assert Pow10(4) == 10000;
      assert Pow10(5) == 100000;
      assert Pow10(6) == 1000000;
    }
    assert Pow10(8) == 100000000;
    DecimalLengthExact(n, 8);
  }

  /** A non-empty text without a newline is a single token. */
  lemma TokensOfText(s: seq<char>)
    requires s != [] && forall j :: 0 <= j < |s| ==> s[j] != '\n'
    ensures Tokens(s) == [s]
  {
    LineEndAll(s, 0);
    assert s[..|s|] == s;
    assert s[|s|..] == [];
  }

  /** The 286-byte map output of eight-digit counts, cut where the first
      255-byte read ends: 23 whole lines and the "X " of the 24th. */
  lemma UniformOutputCut(n: nat)
    requires 10000000 <= n < 100000000
    ensures var f := FormatCounts(Uniform(n));
            |f| == 286
            && f[..255] == FormatUpTo(Uniform(n), 23) + ['X', ' ']
            && f[255..] == (Decimal(n) + ['\n']) + (Entry(24, n) + Entry(25, n))
  {
    var first := FormatUpTo(Uniform(n), 23) + ['X', ' '];
    var rest := (Decimal(n) + ['\n']) + (Entry(24, n) + Entry(25, n));
    UniformOutputShape(n);
    UniformFormatLength(n, 23);
    EntryLength(24, n);
    EntryLength(25, n);
    assert |first| == 255;
    assert |rest| == 31;
    ConcatCut(first, rest);
  }

  lemma UniformOutputShape(n: nat)
    requires 10000000 <= n < 100000000
    ensures FormatCounts(Uniform(n))
            == (FormatUpTo(Uniform(n), 23) + ['X', ' '])
               + ((Decimal(n) + ['\n']) + (Entry(24, n) + Entry(25, n)))
  {
    UniformOutputEntries(n);
    assert Entry(23, n) == ['X', ' '] + (Decimal(n) + ['\n']);
    Regroup(FormatUpTo(Uniform(n), 23), ['X', ' '], Decimal(n) + ['\n'], Entry(24, n), Entry(25, n));
  }

  lemma UniformOutputEntries(n: nat)
    requires 10000000 <= n < 100000000
    ensures FormatCounts(Uniform(n))
            == ((FormatUpTo(Uniform(n), 23) + Entry(23, n)) + Entry(24, n)) + Entry(25, n)
  {
    var d := Uniform(n);
    assert d[23] == n && d[24] == n && d[25] == n;
    assert FormatUpTo(d, 24) == FormatUpTo(d, 23) + Entry(23, n);
    assert FormatUpTo(d, 25) == FormatUpTo(d, 24) + Entry(24, n);
    assert FormatUpTo(d, 26) == FormatUpTo(d, 25) + Entry(25, n);
  }

  lemma Regroup(h: seq<char>, a: seq<char>, b: seq<char>, x: seq<char>, y: seq<char>)
    ensures ((h + (a + b)) + x) + y == (h + a) + (b + (x + y))
  {
  }

  lemma ConcatCut(x: seq<char>, y: seq<char>)
    ensures (x + y)[..|x|] == x && (x + y)[|x|..] == y
  {
  }

  /** The first block: its last token "X " has no number after the letter. */
  lemma FirstBlockLosesX(n: nat)
    requires 10000000 <= n < 100000000
    ensures TokenSum(Tokens(FormatUpTo(Uniform(n), 23) + ['X', ' ']), 23) == 0
  {
    var head := FormatUpTo(Uniform(n), 23);
    FormatEndsWithNewline(Uniform(n), 23);
    TokensAppend(head, ['X', ' ']);
    FormatUpToParses(Uniform(n), 23, 23);
    LetterWithoutCount();
    TokenSumAppend(Tokens(head), Tokens(['X', ' ']), 23);
  }

  /** "X " alone is one token, and sscanf finds no number in it. */
  lemma LetterWithoutCount()
    ensures TokenSum(Tokens(['X', ' ']), 23) == 0
  {
    TokensOfText(['X', ' ']);
    assert ['X', ' '][1..] == [' '];
    assert SkipSpaces([' ']) == [];
    assert ScanEntry(['X', ' ']) == None;
    assert TokenSum([['X', ' ']], 23) == Contribution(['X', ' '], 23) + TokenSum([], 23);
  }

  /** The second block: its first token is the digits of X's count, which
      is not a letter line, and then come the lines of Y and Z. */
  lemma SecondBlockLosesX(n: nat)
    requires 10000000 <= n < 100000000
    ensures TokenSum(Tokens((Decimal(n) + ['\n']) + (Entry(24, n) + Entry(25, n))), 23) == 0
  {
    var digits := Decimal(n);
    var tail := Entry(24, n) + Entry(25, n);
    TokensAppend(digits + ['\n'], tail);
    TokensOfLine(digits);
    assert Contribution(digits, 23) == 0 by {
      assert IsDigit(digits[0]);
    }
    assert TokenSum([digits], 23) == Contribution(digits, 23) + TokenSum([], 23);
    TokensAppend(Entry(24, n), Entry(25, n));
    TokenSumAppend(Tokens(Entry(24, n)), Tokens(Entry(25, n)), 23);
    EntryTokenSum(24, n, 23);
    EntryTokenSum(25, n, 23);
    TokenSumAppend([digits], Tokens(tail), 23);
  }

  /** The map output of a text in which every letter occurs n times, for
      an eight-digit n, is 286 bytes long; the reduce reads it in a block
      of 255 bytes and one of 31, the line of X is cut in two, and X's
      count is lost, while whole-line parsing recovers it. */
  lemma StraddlingLineIsLost(n: nat)
    requires 10000000 <= n < 100000000
    ensures ReduceTotals([FormatCounts(Uniform(n))])[23] == 0
    ensures ReduceLinesTotals([FormatCounts(Uniform(n))])[23] == n
  {
    var f := FormatCounts(Uniform(n));
    UniformOutputCut(n);
    FirstBlockLosesX(n);
    SecondBlockLosesX(n);
    assert f[0..255] == f[..255];
    assert f[255..286] == f[255..];
    assert BlockSumFrom(f, 286, 23) == 0;
    assert BlockSumFrom(f, 255, 23) == 0;
    assert BlockSumFrom(f, 0, 23) == 0;
    assert FilesSum([f], 23) == BlockSumFrom(f, 0, 23) + FilesSum([], 23);
    FormatCountsParses(Uniform(n), 23);
    assert LinesSum([f], 23) == TokenSum(Tokens(f), 23) + LinesSum([], 23);
  }

  /** The map outputs of some texts, one per text. */
  function MapOutputs(texts: seq<seq<char>>): (outs: seq<seq<char>>)
    ensures |outs| == |texts|
  {
    if texts == [] then [] else [FormatCounts(Counts(texts[0]))] + MapOutputs(texts[1..])
  }

  lemma {:induction false} MapOutputsAt(texts: seq<seq<char>>, i: nat)
    requires i < |texts|
    ensures MapOutputs(texts)[i] == FormatCounts(Counts(texts[i]))
  {
    if i > 0 {
      MapOutputsAt(texts[1..], i - 1);
    }
  }

  /** The count lines hold letters, a space, digits and newlines only, so
      the reduce's C string functions see all of them. */
  lemma {:induction false} FormatUpToNoNul(d: seq<int>, m: nat)
    requires m <= |d| <= Letters
    ensures NoNul(FormatUpTo(d, m))
  {
    if m > 0 {
      FormatUpToNoNul(d, m - 1);
      if d[m - 1] > 0 {
        var e := Entry(m - 1, d[m - 1]);
        forall i | 0 <= i < |e| ensures e[i] != '\0' {
          if 2 <= i < |e| - 1 {
            assert e[i] == Decimal(d[m - 1])[i - 2];
          }
        }
      }
    }
  }

  /** Letter counting composes: reducing the map outputs of several texts
      gives, per letter, its count in the texts put together. */
  lemma {:induction false} MapOutputsSum(texts: seq<seq<char>>, k: nat)
    requires k < Letters
    ensures LinesSum(MapOutputs(texts), k) == CountOf(Flatten(texts), k)
  {
    if texts != [] {
      MapOutputsSum(texts[1..], k);
      FormatCountsParses(Counts(texts[0]), k);
      CountOfAppend(texts[0], Flatten(texts[1..]), k);
    }
  }

  /** End to end for the letter counter: the whole-line reduce of the map
      outputs prints the letter counts of all texts put together. */
  lemma LetterCountComposes(texts: seq<seq<char>>)
    requires |texts| > 0
    ensures ReduceLinesSpec(Some(MapOutputs(texts)), |texts|)
            == Outcome(0, FormatCounts(Counts(Flatten(texts))))
  {
    var outs := MapOutputs(texts);
    forall k | 0 <= k < Letters ensures LinesSum(outs, k) == CountOf(Flatten(texts), k) {
      MapOutputsSum(texts, k);
    }
    assert ReduceLinesTotals(outs) == Counts(Flatten(texts));
  }

  // ---------------------------------------------------------------------
  // The job functions as the source runs them

  /** The output loop shared by both functions: one snprintf line per
      letter with a positive count, in alphabetical order. */
  method WriteCounts(counts: array<int>) returns (written: seq<char>)
    requires counts.Length == Letters
    ensures written == FormatCounts(counts[..])
  {
    ghost var d := counts[..];
    written := [];
    for k := 0 to Letters
      invariant written == FormatUpTo(d, k)
    {
      assert counts[k] == d[k];
      if counts[k] > 0 {
        written := written + Entry(k, counts[k]);
      }
      assert written == FormatUpTo(d, k + 1);
    }
  }

  /** letter_counter_map: the input is read in 1024-byte blocks and every
      byte of a block is classified. */
  method LetterCounterMap(split: Option<DataSplit>, input: seq<char>) returns (status: int, written: seq<char>)
    ensures Outcome(status, written) == MapSpec(split, input)
  {
    if split.None? || split.value.fd < 0 {
      return -1, [];
    }
    var frequencies := new int[Letters](_ => 0);
    var pos := 0;
    while pos < |input|
      invariant pos <= |input|
      invariant forall k :: 0 <= k < Letters ==> frequencies[k] == CountOf(input[..pos], k)
    {
      var bytesRead := Min(MapReadSize, |input| - pos);
      var block := input[pos..pos + bytesRead];
      for idx := 0 to bytesRead
        invariant forall k :: 0 <= k < Letters ==> frequencies[k] == CountOf(input[..pos + idx], k)
      {
        var c := block[idx];
        assert input[..pos + idx + 1] == input[..pos + idx] + [c];
        CountStep(input[..pos + idx], c);
        if 'A' <= c <= 'Z' {
          frequencies[c as int - 'A' as int] := frequencies[c as int - 'A' as int] + 1;
        } else if 'a' <= c <= 'z' {
          frequencies[c as int - 'a' as int] := frequencies[c as int - 'a' as int] + 1;
        }
      }
      pos := pos + bytesRead;
    }
    assert input[..pos] == input;
    assert frequencies[..] == Counts(input);
    written := WriteCounts(frequencies);
    status := 0;
  }

  lemma CountStep(s: seq<char>, c: char)
    ensures forall k :: CountOf(s + [c], k) == CountOf(s, k) + (if Bucket(c) == k then 1 else 0)
  {
    assert (s + [c])[..|s|] == s;
  }

  /** letter_counter_reduce: each file is read from its start in 255-byte
      blocks, each block is parsed, and the totals are then printed. */
  method LetterCounterReduce(files: Option<seq<seq<char>>>, count: int) returns (status: int, written: seq<char>)
    requires files.Some? && count > 0 ==> |files.value| == count
    requires files.Some? ==> forall i :: 0 <= i < |files.value| ==> NoNul(files.value[i])
    ensures Outcome(status, written) == ReduceSpec(files, count)
  {
    if files.None? || count <= 0 {
      return -1, [];
    }
    var inputs := files.value;
    var aggregated := new int[Letters](_ => 0);
    for f := 0 to count
      invariant forall k :: 0 <= k < Letters ==>
                  aggregated[k] + FilesSum(inputs[f..], k) == FilesSum(inputs, k)
    {
      var file := inputs[f];
      assert inputs[f..][1..] == inputs[f + 1..];
      var pos := 0;
      while pos < |file|
        invariant pos <= |file|
        invariant forall k :: 0 <= k < Letters ==>
                    aggregated[k] + BlockSumFrom(file, pos, k) + FilesSum(inputs[f + 1..], k)
                    == FilesSum(inputs, k)
        decreases |file| - pos
      {
        var bytesRead := Min(ReduceReadSize, |file| - pos);
        ParseBlock(aggregated, file[pos..pos + bytesRead]);
        pos := pos + bytesRead;
      }
    }
    assert aggregated[..] == ReduceTotals(inputs);
    written := WriteCounts(aggregated);
    status := 0;
  }

  /** The strtok loop over one block: every token that sscanf parses as
      "%c %d" with an upper-case letter adds its count to that letter. */
  method ParseBlock(aggregated: array<int>, block: seq<char>)
    requires aggregated.Length == Letters
    modifies aggregated
    ensures forall k :: 0 <= k < Letters ==>
              aggregated[k] == old(aggregated[k]) + TokenSum(Tokens(block), k)
  {
    var tokens := Tokens(block);
    for t := 0 to |tokens|
      invariant forall k :: 0 <= k < Letters ==>
                  aggregated[k] + TokenSum(tokens[t..], k) == old(aggregated[k]) + TokenSum(tokens, k)
    {
      assert tokens[t..][1..] == tokens[t + 1..];
      ParseToken(aggregated, tokens[t]);
    }
  }

  /** One token of the strtok loop: sscanf, and the count added to its
      upper-case letter. */
  method ParseToken(aggregated: array<int>, token: seq<char>)
    requires aggregated.Length == Letters
    modifies aggregated
    ensures forall k :: 0 <= k < Letters ==> aggregated[k] == old(aggregated[k]) + Contribution(token, k)
  {
    var parsed := ScanEntry(token);
    if parsed.Some? && 'A' <= parsed.value.letter <= 'Z' {
      var i := parsed.value.letter as int - 'A' as int;
      aggregated[i] := aggregated[i] + parsed.value.count;
    }
  }
}

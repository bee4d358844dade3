/** The per-index file names of mapreduce(): the split files written in
    phase 1, the intermediate files the map workers write and the reduce
    worker reads, and the result file. */
module FileNames {
  import opened DecimalFormat

  /** The size of the buffers the names are printed into with snprintf. */
  const NameBufferSize: nat := 20

  function SplitName(i: nat): seq<char>
  {
    "split-" + Decimal(i)
  }

  function IntermediateName(i: nat): seq<char>
  {
    "mr-" + Decimal(i) + ".itm"
  }

  /** The result file the reduce worker creates. */
  const ResultName: seq<char> := "mr.rst"

  /** Names are told apart by index, and the three kinds never collide. */
  lemma FileNamesDistinct(i: nat, j: nat)
    ensures SplitName(i) == SplitName(j) <==> i == j
    ensures IntermediateName(i) == IntermediateName(j) <==> i == j
    ensures SplitName(i) != IntermediateName(j)
    ensures SplitName(i) != ResultName && IntermediateName(i) != ResultName
  {
    DecimalInjective(i, j);
    if SplitName(i) == SplitName(j) {
      assert Decimal(i) == SplitName(i)[6..] && Decimal(j) == SplitName(j)[6..];
    }
    if IntermediateName(i) == IntermediateName(j) {
      var a, b := IntermediateName(i), IntermediateName(j);
      assert Decimal(i) == a[3..|a| - 4] && Decimal(j) == b[3..|b| - 4];
    }
    assert SplitName(i)[0] == 's' && IntermediateName(j)[0] == 'm';
    assert IntermediateName(i)[2] == '-' && ResultName[2] == '.';
  }

  /** For every index a C int can hold, the name and its terminating NUL
      fit the 20-byte buffer, so snprintf never truncates a name. */
  lemma FileNamesFit(i: nat)
    requires i <= IntMax
    ensures |SplitName(i)| + 1 <= NameBufferSize
    ensures |IntermediateName(i)| + 1 <= NameBufferSize
  {
    IntDecimalWidth(i);
  }

  /** The names of the first `n` split files, in index order. */
  function SplitNames(n: nat): (names: seq<seq<char>>)
    ensures |names| == n
  {
    if n == 0 then [] else SplitNames(n - 1) + [SplitName(n - 1)]
  }

  /** The names of the first `n` intermediate files, in index order. */
  function IntermediateNames(n: nat): (names: seq<seq<char>>)
    ensures |names| == n
  {
    if n == 0 then [] else IntermediateNames(n - 1) + [IntermediateName(n - 1)]
  }

  /** Entry `i` of either table is the name for index `i`. */
  lemma {:induction false} NameTablesAt(n: nat, i: nat)
    requires i < n
    ensures SplitNames(n)[i] == SplitName(i) && IntermediateNames(n)[i] == IntermediateName(i)
  {
    if i < n - 1 {
      NameTablesAt(n - 1, i);
    }
  }
}

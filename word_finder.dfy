/** The "word finder" job (usr_functions.c): the map function assembles the
    lines of its split and writes, once each, the lines in which the target
    word (the job's user data) occurs as a whole word; the reduce function
    concatenates the intermediate files in index order. */
module WordFinder {
  import opened Basics

  /** `read(split->fd, read_buffer, 1024)` and the reduce's 1024-byte reads. */
  const ReadSize: nat := 1024
  /** `sizeof(current_line) - 1`: a line is cut when it reaches this length. */
  const LineCapacity: nat := 1023

  // ---------------------------------------------------------------------
  // Line assembly

  /** The lines handed to the search so far, and the line being built. */
  datatype Assembly = Assembly(lines: seq<seq<char>>, current: seq<char>)

  /** One byte of input: a newline, or a byte arriving when the line is
      full, ends the current line; in the second case the byte itself is
      dropped. Any other byte is appended. */
  function Step(a: Assembly, c: char): Assembly
  {
    if c == '\n' || |a.current| == LineCapacity then Assembly(a.lines + [a.current], [])
    else Assembly(a.lines, a.current + [c])
  }

  /** A step emits at most the line being built and keeps every earlier
      line; a newline always ends the line; and the line being built stays
      within the buffer and free of newlines. */
  lemma StepShape(a: Assembly, c: char)
    ensures var r := Step(a, c);
            && (r.lines == a.lines || r.lines == a.lines + [a.current])
            && (c == '\n' ==> r.lines == a.lines + [a.current] && r.current == [])
            && (r.lines == a.lines ==> r.current == a.current + [c])
            && (|a.current| <= LineCapacity ==> |r.current| <= LineCapacity)
            && (NewlineFree(a.current) ==> NewlineFree(r.current))
  {
    if !(c == '\n' || |a.current| == LineCapacity) {
      assert Step(a, c).lines == a.lines;
    }
  }

  /** The assembly after the bytes of `s`, one after another. */
  function Assemble(s: seq<char>): (a: Assembly)
    ensures |a.current| <= LineCapacity
  {
    if s == [] then Assembly([], []) else Step(Assemble(s[..|s| - 1]), s[|s| - 1])
  }

  predicate NewlineFree(s: seq<char>)
  {
    forall j :: 0 <= j < |s| ==> s[j] != '\n'
  }

  /** Every assembled line, and the line still being built, holds no
      newline and at most 1023 bytes. */
  lemma {:induction false} AssembledLinesAreShort(s: seq<char>)
    ensures var a := Assemble(s);
            NewlineFree(a.current)
            && forall i :: 0 <= i < |a.lines| ==> |a.lines[i]| <= LineCapacity && NewlineFree(a.lines[i])
  {
    if s != [] {
      AssembledLinesAreShort(s[..|s| - 1]);
    }
  }

  /** Lines written back, each followed by a newline. */
  function Joined(lines: seq<seq<char>>): seq<char>
  {
    if lines == [] then [] else Joined(lines[..|lines| - 1]) + lines[|lines| - 1] + ['\n']
  }

  lemma {:induction false} JoinedAppend(a: seq<seq<char>>, b: seq<seq<char>>)
    ensures Joined(a + b) == Joined(a) + Joined(b)
    decreases |b|
  {
    if b == [] {
      assert a + b == a;
    } else {
      var last := b[|b| - 1];
      assert (a + b)[..|a + b| - 1] == a + b[..|b| - 1];
      JoinedAppend(a, b[..|b| - 1]);
    }
  }

  lemma JoinedSnoc(lines: seq<seq<char>>, line: seq<char>)
    ensures Joined(lines + [line]) == Joined(lines) + line + ['\n']
  {
    assert (lines + [line])[..|lines|] == lines;
  }

  /** Every window of 1024 bytes holds a newline: no line is cut. */
  predicate LinesFitBuffer(s: seq<char>)
  {
    forall i :: 0 <= i <= |s| - ReadSize ==> HasNewlineIn(s, i)
  }

  predicate HasNewlineIn(s: seq<char>, i: nat)
    requires i + ReadSize <= |s|
  {
    exists j :: i <= j < i + ReadSize && s[j] == '\n'
  }

  /** When no line is longer than 1023 bytes, assembly loses nothing: the
      lines, each put back with its newline, followed by the line being
      built, give back the input. */
  lemma {:induction false} AssembleRoundTrip(s: seq<char>)
    requires LinesFitBuffer(s)
    ensures var a := Assemble(s); Joined(a.lines) + a.current == s
  {
    if s != [] {
      var init := s[..|s| - 1];
      LinesFitPrefix(s);
      AssembleRoundTrip(init);
      AssembledLinesAreShort(init);
      LineHasRoom(s, Joined(Assemble(init).lines), Assemble(init).current);
      RoundTripStep(s);
    }
  }

  /** One more byte, when it does not overflow the line, keeps the round
      trip. */
  lemma RoundTripStep(s: seq<char>)
    requires s != []
    requires var a := Assemble(s[..|s| - 1]); Joined(a.lines) + a.current == s[..|s| - 1]
    requires s[|s| - 1] == '\n' || |Assemble(s[..|s| - 1]).current| < LineCapacity
    ensures var b := Assemble(s); Joined(b.lines) + b.current == s
  {
    var init := s[..|s| - 1];
    var c := s[|s| - 1];
    var a := Assemble(init);
    var done := Joined(a.lines);
    assert s == init + [c];
    if c == '\n' {
      JoinedSnoc(a.lines, a.current);
      assert Assemble(s) == Assembly(a.lines + [a.current], []);
    } else {
      assert Assemble(s) == Assembly(a.lines, a.current + [c]);
      assert done + (a.current + [c]) == (done + a.current) + [c];
    }
  }

  lemma LinesFitPrefix(s: seq<char>)
    requires s != [] && LinesFitBuffer(s)
    ensures LinesFitBuffer(s[..|s| - 1])
  {
    var init := s[..|s| - 1];
    forall i | 0 <= i <= |init| - ReadSize ensures HasNewlineIn(init, i) {
      assert HasNewlineIn(s, i);
      var j :| i <= j < i + ReadSize && s[j] == '\n';
      assert init[j] == '\n';
    }
  }

  /** When lines fit, a full line is always followed by its newline. */
  lemma LineHasRoom(s: seq<char>, done: seq<char>, current: seq<char>)
    requires |s| > 0 && done + current == s[..|s| - 1] && LinesFitBuffer(s)
    requires |current| <= LineCapacity && NewlineFree(current)
    ensures s[|s| - 1] == '\n' || |current| < LineCapacity
  {
    if |current| == LineCapacity {
      var i := |done|;
      assert HasNewlineIn(s, i);
      forall k | i <= k < |s| - 1 ensures s[k] != '\n' {
        assert s[k] == current[k - i];
      }
    }
  }

  /** A text of at most 1023 bytes without a newline is all still being
      built. */
  lemma {:induction false} AssembleOpenLine(s: seq<char>)
    requires |s| <= LineCapacity && NewlineFree(s)
    ensures Assemble(s) == Assembly([], s)
  {
    if s != [] {
      assert s[..|s| - 1] + [s[|s| - 1]] == s;
      AssembleOpenLine(s[..|s| - 1]);
    }
  }

  /** On overflow the byte that arrives when the line is full is dropped. */
  lemma OverflowDropsByte(line: seq<char>, c: char)
    requires |line| == LineCapacity && NewlineFree(line) && c != '\n'
    ensures Assemble(line + [c]) == Assembly([line], [])
  {
    AssembleOpenLine(line);
    assert (line + [c])[..|line|] == line;
  }

  /** Assembly restarts cleanly after a completed line: the assembly of
      `a + b` is that of `a` followed by that of `b`. */
  lemma {:induction false} AssembleAppend(a: seq<char>, b: seq<char>)
    requires Assemble(a).current == []
    ensures Assemble(a + b) == Assembly(Assemble(a).lines + Assemble(b).lines, Assemble(b).current)
    decreases |b|
  {
    if b == [] {
      assert a + b == a;
    } else {
      var init := b[..|b| - 1];
      assert (a + b)[..|a + b| - 1] == a + init;
      AssembleAppend(a, init);
      var x := Assemble(a).lines;
      var y := Assemble(init).lines;
      assert (x + y) + [Assemble(init).current] == x + (y + [Assemble(init).current]);
    }
  }

  /** A text that is empty or ends with a newline leaves no line open. */
  lemma EndsClosed(s: seq<char>)
    requires s == [] || s[|s| - 1] == '\n'
    ensures Assemble(s).current == []
  {
  }

  // ---------------------------------------------------------------------
  // The search for the target word

  /** `target` occurs in `line` at `p`. */
  predicate IsAt(line: seq<char>, target: seq<char>, p: nat)
    requires p + |target| <= |line|
  {
    forall j :: 0 <= j < |target| ==> line[p + j] == target[j]
  }

  /** strstr(line + from, target): the first occurrence at or after `from`. */
  function FirstOccurrence(line: seq<char>, target: seq<char>, from: nat): (r: Option<nat>)
    requires from <= |line|
    ensures r.Some? ==> from <= r.value && r.value + |target| <= |line| && IsAt(line, target, r.value)
    decreases |line| - from
  {
    if from + |target| > |line| then None
    else if IsAt(line, target, from) then Some(from)
    else FirstOccurrence(line, target, from + 1)
  }

  /** strstr finds the first occurrence: none lies before the one it
      returns, and none at all when it returns NULL. */
  lemma {:induction false} FirstOccurrenceIsFirst(line: seq<char>, target: seq<char>, from: nat)
    requires from <= |line|
    ensures var r := FirstOccurrence(line, target, from);
            forall q :: from <= q && q + |target| <= |line| && IsAt(line, target, q) ==>
              r.Some? && r.value <= q
    decreases |line| - from
  {
    if from + |target| <= |line| && !IsAt(line, target, from) {
      FirstOccurrenceIsFirst(line, target, from + 1);
    }
  }

  predicate IsWordEnd(c: char)
  {
    c == ',' || c == '.' || c == ' '
  }

  /** The match test: the occurrence at `p` starts the line or follows a
      space, and ends the line or is followed by ',', '.' or a space. */
  predicate BoundedAt(line: seq<char>, target: seq<char>, p: nat)
    requires p + |target| <= |line|
  {
    (p == 0 || line[p - 1] == ' ')
    && (p + |target| == |line| || IsWordEnd(line[p + |target|]))
  }

  /** An occurrence of `target` at `p` as a whole word. */
  predicate WholeWordAt(line: seq<char>, target: seq<char>, p: nat)
  {
    p + |target| <= |line| && IsAt(line, target, p) && BoundedAt(line, target, p)
  }

  predicate ContainsWord(line: seq<char>, target: seq<char>)
  {
    exists p: nat :: p <= |line| && WholeWordAt(line, target, p)
  }

  /** The skip-ahead scan from `from` on: take the next occurrence; stop
      on a match, otherwise go on from just past the occurrence. */
  predicate ScanFrom(line: seq<char>, target: seq<char>, from: nat)
    requires from <= |line| && |target| > 0
    decreases |line| - from
  {
    match FirstOccurrence(line, target, from)
    case None => false
    case Some(p) => BoundedAt(line, target, p) || ScanFrom(line, target, p + |target|)
  }

  /** Whether word_finder_map writes the line. */
  predicate Selected(line: seq<char>, target: seq<char>)
    requires |target| > 0
  {
    ScanFrom(line, target, 0)
  }

  /** Whatever the target, a line the scan selects holds the target as a
      whole word. */
  lemma {:induction false} ScanSound(line: seq<char>, target: seq<char>, from: nat)
    requires from <= |line| && |target| > 0 && ScanFrom(line, target, from)
    ensures exists p: nat :: from <= p && WholeWordAt(line, target, p)
    decreases |line| - from
  {
    var p := FirstOccurrence(line, target, from).value;
    if !BoundedAt(line, target, p) {
      ScanSound(line, target, p + |target|);
    } else {
      assert WholeWordAt(line, target, p);
    }
  }

  predicate NoSpace(target: seq<char>)
  {
    forall j :: 0 <= j < |target| ==> target[j] != ' '
  }

  /** Inside an occurrence of a target without a space there is no space,
      so no whole-word occurrence starts within it. */
  lemma InsideOccurrence(line: seq<char>, target: seq<char>, p: nat, q: nat)
    requires p + |target| <= |line| && IsAt(line, target, p) && NoSpace(target)
    requires p < q <= |line|
    ensures q < p + |target| ==> line[q - 1] != ' '
  {
    if q < p + |target| {
      var j := q - 1 - p;
      assert line[p + j] == target[j];
    }
  }

  /** For a target without a space, skipping past a rejected occurrence
      never skips a whole-word occurrence. */
  lemma {:induction false} ScanComplete(line: seq<char>, target: seq<char>, from: nat, q: nat)
    requires |target| > 0 && NoSpace(target)
    requires from <= q && WholeWordAt(line, target, q)
    ensures ScanFrom(line, target, from)
    decreases |line| - from
  {
    FirstOccurrenceIsFirst(line, target, from);
    var p := FirstOccurrence(line, target, from).value;
    if !BoundedAt(line, target, p) {
      InsideOccurrence(line, target, p, q);
      ScanComplete(line, target, p + |target|, q);
    }
  }

  /** For a target without a space the scan selects a line exactly when
      the target occurs in it as a whole word. */
  lemma SelectedIffWord(line: seq<char>, target: seq<char>)
    requires |target| > 0 && NoSpace(target)
    ensures Selected(line, target) <==> ContainsWord(line, target)
  {
    if Selected(line, target) {
      ScanSound(line, target, 0);
    }
    if ContainsWord(line, target) {
      var q: nat :| q <= |line| && WholeWordAt(line, target, q);
      ScanComplete(line, target, 0, q);
    }
  }

  /** With a space in the target the skip can jump over the only whole-word
      occurrence: in "yx x x" the occurrence of "x x" at 1 follows a 'y',
      and the scan resumes at 4, past the whole word at 3. */
  lemma SpacedTargetMissed()
    ensures ContainsWord("yx x x", "x x")
    ensures !Selected("yx x x", "x x")
  {
    var line := "yx x x";
    var target := "x x";
    assert WholeWordAt(line, target, 3);
    assert line[0] != target[0];
    assert IsAt(line, target, 1);
    assert FirstOccurrence(line, target, 0) == Some(1);
    assert FirstOccurrence(line, target, 4) == None;
  }

  // ---------------------------------------------------------------------
  // The job functions as specifications

  /** The selected lines, in input order. */
  function Matching(lines: seq<seq<char>>, target: seq<char>): seq<seq<char>>
    requires |target| > 0
  {
    if lines == [] then []
    else
      var last := lines[|lines| - 1];
      Matching(lines[..|lines| - 1], target) + (if Selected(last, target) then [last] else [])
  }

  /** Exactly the selected lines are kept. */
  lemma {:induction false} MatchingKeepsSelected(lines: seq<seq<char>>, target: seq<char>)
    requires |target| > 0
    ensures forall l :: l in Matching(lines, target) <==> l in lines && Selected(l, target)
  {
    if lines != [] {
      var init := lines[..|lines| - 1];
      MatchingKeepsSelected(init, target);
      assert lines == init + [lines[|lines| - 1]];
    }
  }

  /** Filtering commutes with putting lines one after another. */
  lemma {:induction false} MatchingAppend(a: seq<seq<char>>, b: seq<seq<char>>, target: seq<char>)
    requires |target| > 0
    ensures Matching(a + b, target) == Matching(a, target) + Matching(b, target)
    decreases |b|
  {
    if b == [] {
      assert a + b == a;
    } else {
      assert (a + b)[..|a + b| - 1] == a + b[..|b| - 1];
      MatchingAppend(a, b[..|b| - 1], target);
    }
  }

  /** What word_finder_map writes for a valid split: every selected line of
      the input with its newline. The line still open at the end of the
      input is never searched. */
  function MapOutput(input: seq<char>, target: seq<char>): seq<char>
    requires |target| > 0
  {
    Joined(Matching(Assemble(input).lines, target))
  }

  /** A valid call needs a non-empty target. */
  predicate ValidSplit(split: Option<DataSplit>)
  {
    split.Some? && split.value.usrData.Some? && split.value.fd >= 0
  }

  /** word_finder_map: -1 without a split, without user data, or with a
      negative descriptor; otherwise 0 and the selected lines. */
  function MapSpec(split: Option<DataSplit>, input: seq<char>): Outcome
    requires ValidSplit(split) ==> |split.value.usrData.value| > 0
  {
    if !ValidSplit(split) then Outcome(-1, [])
    else Outcome(0, MapOutput(input, split.value.usrData.value))
  }

  /** Every byte read either joins the open line or ends a line (a
      newline written back, or a byte of a full line replaced by one). */
  lemma {:induction false} AssembleLength(s: seq<char>)
    ensures |Joined(Assemble(s).lines)| + |Assemble(s).current| == |s|
  {
    if s != [] {
      var a := Assemble(s[..|s| - 1]);
      AssembleLength(s[..|s| - 1]);
      if Step(a, s[|s| - 1]).lines != a.lines {
        JoinedSnoc(a.lines, a.current);
      }
    }
  }

  lemma {:induction false} MatchingShorter(lines: seq<seq<char>>, target: seq<char>)
    requires |target| > 0
    ensures |Joined(Matching(lines, target))| <= |Joined(lines)|
  {
    if lines != [] {
      var init := lines[..|lines| - 1];
      var last := lines[|lines| - 1];
      MatchingShorter(init, target);
      if Selected(last, target) {
        JoinedSnoc(Matching(init, target), last);
      } else {
        assert Matching(lines, target) == Matching(init, target);
      }
    }
  }

  /** The map fails, writing nothing, exactly on an invalid split;
      otherwise it succeeds and writes whole lines, each ended by a
      newline, and never more bytes than the split holds. */
  lemma MapSpecShape(split: Option<DataSplit>, input: seq<char>)
    requires ValidSplit(split) ==> |split.value.usrData.value| > 0
    ensures var r := MapSpec(split, input);
            && (r.status == -1 <==> !ValidSplit(split))
            && (r.status == -1 || r.status == 0)
            && (r.status == -1 ==> r.written == [])
            && (r.status == 0 ==> r.written == [] || r.written[|r.written| - 1] == '\n')
            && |r.written| <= |input|
  {
    if ValidSplit(split) {
      var target := split.value.usrData.value;
      var lines := Matching(Assemble(input).lines, target);
      AssembleLength(input);
      MatchingShorter(Assemble(input).lines, target);
      if lines != [] {
        assert Joined(lines) == Joined(lines[..|lines| - 1]) + lines[|lines| - 1] + ['\n'];
      }
    }
  }

  /** Text after the last newline, when it is a line shorter than the
      buffer, changes nothing in the output. */
  lemma TrailingTextIgnored(s: seq<char>, rest: seq<char>, target: seq<char>)
    requires |target| > 0 && (s == [] || s[|s| - 1] == '\n')
    requires |rest| <= LineCapacity && NewlineFree(rest)
    ensures MapOutput(s + rest, target) == MapOutput(s, target)
  {
    EndsClosed(s);
    AssembleAppend(s, rest);
    AssembleOpenLine(rest);
    assert Assemble(s).lines + [] == Assemble(s).lines;
  }

  /** Map outputs compose: when the input is cut only after newlines, the
      outputs of the pieces, one after another, are the output of the
      whole. */
  lemma MapOutputAppend(a: seq<char>, b: seq<char>, target: seq<char>)
    requires |target| > 0 && (a == [] || a[|a| - 1] == '\n')
    ensures MapOutput(a + b, target) == MapOutput(a, target) + MapOutput(b, target)
  {
    EndsClosed(a);
    AssembleAppend(a, b);
    MatchingAppend(Assemble(a).lines, Assemble(b).lines, target);
    JoinedAppend(Matching(Assemble(a).lines, target), Matching(Assemble(b).lines, target));
  }

  /** The map outputs of some texts, one per text. */
  function MapOutputs(texts: seq<seq<char>>, target: seq<char>): (outs: seq<seq<char>>)
    requires |target| > 0
    ensures |outs| == |texts|
  {
    if texts == [] then [] else [MapOutput(texts[0], target)] + MapOutputs(texts[1..], target)
  }

  lemma {:induction false} MapOutputsAt(texts: seq<seq<char>>, target: seq<char>, i: nat)
    requires |target| > 0 && i < |texts|
    ensures MapOutputs(texts, target)[i] == MapOutput(texts[i], target)
  {
    if i > 0 {
      MapOutputsAt(texts[1..], target, i - 1);
    }
  }

  /** Every text is cut after a newline, or is empty, or only empty texts
      follow it. */
  predicate Seamless(texts: seq<seq<char>>)
  {
    forall i :: 0 <= i < |texts| ==>
      texts[i] == [] || texts[i][|texts[i]| - 1] == '\n' || Flatten(texts[i + 1..]) == []
  }

  /** Searching texts cut apart only at line ends, one after another, gives
      the output of searching them put together. */
  lemma {:induction false} MapOutputsJoin(texts: seq<seq<char>>, target: seq<char>)
    requires |target| > 0 && Seamless(texts)
    ensures Flatten(MapOutputs(texts, target)) == MapOutput(Flatten(texts), target)
  {
    if texts != [] {
      var x := texts[0];
      var rest := texts[1..];
      assert Seamless(rest) by {
        forall i | 0 <= i < |rest|
          ensures rest[i] == [] || rest[i][|rest[i]| - 1] == '\n' || Flatten(rest[i + 1..]) == []
        {
          assert rest[i] == texts[i + 1] && rest[i + 1..] == texts[i + 2..];
        }
      }
      MapOutputsJoin(rest, target);
      assert Flatten(MapOutputs(texts, target)) == MapOutput(x, target) + Flatten(MapOutputs(rest, target));
      assert Flatten(texts) == x + Flatten(rest);
      if x == [] || x[|x| - 1] == '\n' {
        MapOutputAppend(x, Flatten(rest), target);
      } else {
        assert Flatten(rest) == [];
        assert x + [] == x;
        assert Joined(Matching(Assemble([]).lines, target)) == [];
        assert MapOutput(x, target) + [] == MapOutput(x, target);
      }
    }
  }

  /** word_finder_reduce: -1 without the descriptor array or with a count
      that is not positive; otherwise 0 and the files one after another. */
  function ReduceSpec(files: Option<seq<seq<char>>>, count: int): Outcome
    requires files.Some? && count > 0 ==> |files.value| == count
  {
    if files.None? || count <= 0 then Outcome(-1, [])
    else Outcome(0, Flatten(files.value))
  }

  /** The reduce fails, writing nothing, exactly without the descriptor
      array or with a count that is not positive; otherwise it succeeds,
      and file i appears whole in its output, right after files
      0 .. i - 1. */
  lemma ReduceSpecKeepsFiles(files: Option<seq<seq<char>>>, count: int)
    requires files.Some? && count > 0 ==> |files.value| == count
    ensures var r := ReduceSpec(files, count);
            && (r.status == -1 <==> files.None? || count <= 0)
            && (r.status == -1 || r.status == 0)
            && (r.status == -1 ==> r.written == [])
            && (r.status == 0 ==> forall i :: 0 <= i < count ==>
                  var start := |Flatten(files.value[..i])|;
                  start + |files.value[i]| <= |r.written|
                  && r.written[start..start + |files.value[i]|] == files.value[i])
  {
    if files.Some? && count > 0 {
      forall i | 0 <= i < count
        ensures var start := |Flatten(files.value[..i])|;
                start + |files.value[i]| <= |Flatten(files.value)|
                && Flatten(files.value)[start..start + |files.value[i]|] == files.value[i]
      {
        FlattenAt(files.value, i);
      }
    }
  }

  // ---------------------------------------------------------------------
  // The job functions as the source runs them

  /** The strstr loop over one line: `searchFrom` plays search_ptr. */
  method FindWord(line: seq<char>, target: seq<char>) returns (found: bool)
    requires |target| > 0
    ensures found == Selected(line, target)
  {
    var searchFrom := 0;
    while true
      invariant searchFrom <= |line|
      invariant ScanFrom(line, target, searchFrom) == Selected(line, target)
      decreases |line| - searchFrom
    {
      var occurrence := FirstOccurrence(line, target, searchFrom);
      if occurrence.None? {
        return false;
      }
      var p := occurrence.value;
      var after := p + |target|;
      if (p == 0 || line[p - 1] == ' ')
         && (after == |line| || line[after] == ',' || line[after] == '.' || line[after] == ' ')
      {
        return true;
      }
      searchFrom := after;
    }
  }

  lemma MatchingSnoc(lines: seq<seq<char>>, line: seq<char>, target: seq<char>)
    requires |target| > 0
    ensures Matching(lines + [line], target)
            == Matching(lines, target) + (if Selected(line, target) then [line] else [])
  {
    assert (lines + [line])[..|lines|] == lines;
  }

  /** What one byte adds to the output: the line it ends, when that line
      is selected. */
  lemma StepOutput(a: Assembly, c: char, target: seq<char>)
    requires |target| > 0
    ensures var ends := c == '\n' || |a.current| == LineCapacity;
            Joined(Matching(Step(a, c).lines, target))
            == if ends && Selected(a.current, target)
               then Joined(Matching(a.lines, target)) + a.current + ['\n']
               else Joined(Matching(a.lines, target))
  {
    var before := Matching(a.lines, target);
    if c == '\n' || |a.current| == LineCapacity {
      assert Step(a, c).lines == a.lines + [a.current];
      MatchingSnoc(a.lines, a.current, target);
      if Selected(a.current, target) {
        JoinedSnoc(before, a.current);
        assert Matching(Step(a, c).lines, target) == before + [a.current];
      } else {
        assert Matching(Step(a, c).lines, target) == before;
      }
    } else {
      assert Step(a, c).lines == a.lines;
    }
  }

  lemma NextAssembly(input: seq<char>, k: nat)
    requires k < |input|
    ensures Assemble(input[..k + 1]) == Step(Assemble(input[..k]), input[k])
  {
    assert input[..k + 1][..k] == input[..k];
  }

  /** The loop body of word_finder_map for one byte `c`, the k-th of the
      input: a newline, or a byte arriving when the line is full, ends the
      line, which is searched and, when it matches, written with a newline;
      any other byte is appended to the line. */
  method TakeByte(currentLine: array<char>, currentLineLen: nat, written: seq<char>, c: char, target: seq<char>,
                  ghost input: seq<char>, ghost k: nat)
      returns (newLineLen: nat, newWritten: seq<char>)
    requires currentLine.Length == ReadSize && |target| > 0
    requires k < |input| && input[k] == c
    requires currentLineLen <= LineCapacity && currentLine[..currentLineLen] == Assemble(input[..k]).current
    requires written == Joined(Matching(Assemble(input[..k]).lines, target))
    modifies currentLine
    ensures newLineLen <= LineCapacity && currentLine[..newLineLen] == Assemble(input[..k + 1]).current
    ensures newWritten == Joined(Matching(Assemble(input[..k + 1]).lines, target))
  {
    ghost var a := Assemble(input[..k]);
    NextAssembly(input, k);
    StepOutput(a, c, target);
    newWritten := written;
    if c == '\n' || currentLineLen == LineCapacity {
      var line := currentLine[..currentLineLen];
      var found := FindWord(line, target);
      if found {
        newWritten := newWritten + line + ['\n'];
      }
      newLineLen := 0;
    } else {
      currentLine[currentLineLen] := c;
      newLineLen := currentLineLen + 1;
      assert currentLine[..newLineLen] == a.current + [c];
    }
  }

  /** One read of word_finder_map: the bytes of `block`, which stands at
      position `pos` of the input, go through TakeByte in order. */
  method TakeBlock(currentLine: array<char>, currentLineLen: nat, written: seq<char>, block: seq<char>,
                   target: seq<char>, ghost input: seq<char>, ghost pos: nat)
      returns (newLineLen: nat, newWritten: seq<char>)
    requires currentLine.Length == ReadSize && |target| > 0
    requires pos + |block| <= |input| && block == input[pos..pos + |block|]
    requires currentLineLen <= LineCapacity && currentLine[..currentLineLen] == Assemble(input[..pos]).current
    requires written == Joined(Matching(Assemble(input[..pos]).lines, target))
    modifies currentLine
    ensures newLineLen <= LineCapacity && currentLine[..newLineLen] == Assemble(input[..pos + |block|]).current
    ensures newWritten == Joined(Matching(Assemble(input[..pos + |block|]).lines, target))
  {
    newLineLen, newWritten := currentLineLen, written;
    for idx := 0 to |block|
      invariant newLineLen <= LineCapacity
      invariant currentLine[..newLineLen] == Assemble(input[..pos + idx]).current
      invariant newWritten == Joined(Matching(Assemble(input[..pos + idx]).lines, target))
    {
      newLineLen, newWritten := TakeByte(currentLine, newLineLen, newWritten, block[idx], target, input, pos + idx);
    }
  }

  /** word_finder_map: the input is read in 1024-byte blocks and every byte
      goes through the line buffer `currentLine`; each completed line is
      searched, and written with a newline when it matches. */
  method WordFinderMap(split: Option<DataSplit>, input: seq<char>) returns (status: int, written: seq<char>)
    requires ValidSplit(split) ==> |split.value.usrData.value| > 0 && NoNul(split.value.usrData.value)
    requires NoNul(input)
    ensures Outcome(status, written) == MapSpec(split, input)
  {
    if split.None? || split.value.usrData.None? || split.value.fd < 0 {
      return -1, [];
    }
    var target := split.value.usrData.value;
    var currentLine := new char[ReadSize];
    var currentLineLen: nat := 0;
    written := [];
    var pos := 0;
    while pos < |input|
      invariant pos <= |input| && currentLineLen <= LineCapacity
      invariant currentLine[..currentLineLen] == Assemble(input[..pos]).current
      invariant written == Joined(Matching(Assemble(input[..pos]).lines, target))
    {
      var bytesRead := Min(ReadSize, |input| - pos);
      var block := input[pos..pos + bytesRead];
      currentLineLen, written := TakeBlock(currentLine, currentLineLen, written, block, target, input, pos);
      pos := pos + bytesRead;
    }
    assert input[..pos] == input;
    status := 0;
  }

  /** word_finder_reduce: every file is read from its start in 1024-byte
      blocks and each block is written out as read. */
  method WordFinderReduce(files: Option<seq<seq<char>>>, count: int) returns (status: int, written: seq<char>)
    requires files.Some? && count > 0 ==> |files.value| == count
    ensures Outcome(status, written) == ReduceSpec(files, count)
  {
    if files.None? || count <= 0 {
      return -1, [];
    }
    var inputs := files.value;
    written := [];
    for f := 0 to count
      invariant written == Flatten(inputs[..f])
    {
      var file := inputs[f];
      var pos := 0;
      while pos < |file|
        invariant pos <= |file|
        invariant written == Flatten(inputs[..f]) + file[..pos]
        decreases |file| - pos
      {
        var bytesRead := Min(ReadSize, |file| - pos);
        written := written + file[pos..pos + bytesRead];
        assert file[..pos + bytesRead] == file[..pos] + file[pos..pos + bytesRead];
        pos := pos + bytesRead;
      }
      assert file[..pos] == file;
      assert inputs[..f + 1] == inputs[..f] + [file];
      FlattenAppend(inputs[..f], [file]);
      assert Flatten([file]) == file + Flatten([]);
    }
    assert inputs[..count] == inputs;
    status := 0;
  }
}

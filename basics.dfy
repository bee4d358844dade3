/** Types shared by the engine and the job functions: an optional value (a C
    pointer that may be NULL), the outcome of a pluggable function (its
    status and the bytes it wrote), and the handle a map function receives. */
module Basics {

  datatype Option<+T> = None | Some(value: T)

  /** What a map or reduce function leaves behind: its return status
      (0 on success, -1 on error) and the bytes it wrote to its output. */
  datatype Outcome = Outcome(status: int, written: seq<char>)

  /** DATA_SPLIT: the descriptor of the split file and the job's user data
      (a C string, or NULL). */
  datatype DataSplit = DataSplit(fd: int, usrData: Option<seq<char>>)

  /** The engine's C string functions (strlen, fputs, strcpy, strstr,
      strtok) see these bytes exactly when none of them is NUL. */
  predicate NoNul(s: seq<char>)
  {
    forall i :: 0 <= i < |s| ==> s[i] != '\0'
  }

  /** The byte count one `read` call returns: the buffer size, or what is
      left of the file when that is less. */
  function Min(a: nat, b: nat): nat
  {
    if a <= b then a else b
  }

  /** The bytes of several files, one after another, in index order. */
  function Flatten(ss: seq<seq<char>>): seq<char>
  {
    if ss == [] then [] else ss[0] + Flatten(ss[1..])
  }

  lemma {:induction false} FlattenAppend(a: seq<seq<char>>, b: seq<seq<char>>)
    ensures Flatten(a + b) == Flatten(a) + Flatten(b)
  {
    if a == [] {
      assert a + b == b;
    } else {
      assert (a + b)[0] == a[0] && (a + b)[1..] == a[1..] + b;
      FlattenAppend(a[1..], b);
    }
  }

  lemma {:induction false} FlattenEmpties(ss: seq<seq<char>>)
    requires forall i :: 0 <= i < |ss| ==> ss[i] == []
    ensures Flatten(ss) == []
  {
    if ss != [] {
      FlattenEmpties(ss[1..]);
    }
  }

  /** File i appears whole in the concatenation, right after the files
      before it. */
  lemma FlattenAt(ss: seq<seq<char>>, i: nat)
    requires i < |ss|
    ensures var start := |Flatten(ss[..i])|;
            start + |ss[i]| <= |Flatten(ss)| && Flatten(ss)[start..start + |ss[i]|] == ss[i]
  {
    var before := ss[..i];
    var after := ss[i + 1..];
    assert ss == before + ([ss[i]] + after);
    FlattenAppend(before, [ss[i]] + after);
    assert ([ss[i]] + after)[1..] == after;
    var rest := ss[i] + Flatten(after);
    assert Flatten(ss) == Flatten(before) + rest;
    assert rest[..|ss[i]|] == ss[i];
  }
}

/** Reading a text file line by line, as `file.readline()` does. */
module TextFile {
  import opened Strings

  /**
   * `f.readline()` with the file positioned at `pos`: the line runs up to and including the
   * first '\n' at or after `pos`, or to the end of the file; this is where it ends.
   */
  function LineEnd(s: string, pos: nat): (e: nat)
    requires pos <= |s|
    ensures pos <= e <= |s| && (e == pos <==> pos == |s|)
    ensures forall k :: pos <= k < e - 1 ==> s[k] != '\n'
    ensures e == |s| || s[e - 1] == '\n'
    decreases |s| - pos
  {
    if pos == |s| then pos else if s[pos] == '\n' then pos + 1 else LineEnd(s, pos + 1)
  }

  /** The successive results of `readline()` from `pos` on, before it returns "" at the end. */
  function LinesFrom(s: string, pos: nat): (ls: seq<string>)
    requires pos <= |s|
    ensures forall i :: 0 <= i < |ls| ==> ls[i] != []
    decreases |s| - pos
  {
    if pos == |s| then [] else var e := LineEnd(s, pos); [s[pos..e]] + LinesFrom(s, e)
  }

  /** The lines of a whole file. */
  function Lines(s: string): seq<string> {
    LinesFrom(s, 0)
  }

  /** Reading a file line by line loses nothing: the lines put together are the file. */
  lemma {:induction false} LinesConcat(s: string, pos: nat)
    requires pos <= |s|
    ensures Concat(LinesFrom(s, pos)) == s[pos..]
    decreases |s| - pos
  {
    if pos < |s| {
      var e := LineEnd(s, pos);
      var rest := LinesFrom(s, e);
      assert LinesFrom(s, pos) == [s[pos..e]] + rest;
      assert ([s[pos..e]] + rest)[1..] == rest;
      LinesConcat(s, e);
      assert s[pos..e] + s[e..] == s[pos..];
    }
  }

  /** A line holds no '\n' except as its last character. */
  predicate OneLine(l: string) {
    forall k :: 0 <= k < |l| - 1 ==> l[k] != '\n'
  }

  /** Every line but the last ends with '\n', and no line holds another '\n'. */
  predicate WellSplit(ls: seq<string>) {
    forall i :: 0 <= i < |ls| ==> ls[i] != [] && OneLine(ls[i]) && (i < |ls| - 1 ==> ls[i][|ls[i]| - 1] == '\n')
  }

  lemma {:induction false} LinesShape(s: string, pos: nat)
    requires pos <= |s|
    ensures WellSplit(LinesFrom(s, pos))
    decreases |s| - pos
  {
    if pos < |s| {
      var e := LineEnd(s, pos);
      var line := s[pos..e];
      var rest := LinesFrom(s, e);
      LinesShape(s, e);
      var ls := LinesFrom(s, pos);
      assert ls == [line] + rest;
      assert rest != [] ==> e < |s|;
      assert forall k :: 0 <= k < |line| ==> line[k] == s[pos + k];
      forall i | 1 <= i < |ls|
        ensures OneLine(ls[i]) && (i < |ls| - 1 ==> ls[i][|ls[i]| - 1] == '\n')
      {
        assert ls[i] == rest[i - 1];
      }
    }
  }
}

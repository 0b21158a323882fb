/**
 * fvwmdesk: read the list of desk names from ~/.fvwm/desks (one per line) and print it, first
 * as a numbered dump and then as the `*FvwmPager: Label` lines FvwmPager reads.
 */
module FvwmDesk {
  import opened Wrappers
  import opened Strings
  import opened TextFile

  /** The state file under the home directory (`$HOME` + "/.fvwm/desks"). */
  function ConfigFile(home: string): string {
    home + "/.fvwm/desks"
  }

  // ------------------------------------------------------------------
  // read_state_file

  /**
   * The desks `read_state_file` returns, `files` mapping each existing file to its contents
   * (None when it cannot be opened, which raises `IOError`).
   */
  function Desks(path: string, files: map<string, Option<string>>): Result<seq<string>> {
    if path !in files then Ok([])
    else if files[path].None? then Err("IOError")
    else Ok(StripAll(Lines(files[path].value)))
  }

  /**
   * `read_state_file`: no file means no desks; otherwise the lines of the file, each
   * stripped in place, in their order.
   */
  method ReadStateFile(path: string, files: map<string, Option<string>>) returns (r: Result<seq<string>>)
    ensures path !in files ==> r == Ok([])
    ensures path in files && files[path].None? ==> r == Err("IOError")
    ensures r == Desks(path, files)
  {
    if path !in files {
      return Ok([]);
    }
    if files[path].None? {
      return Err("IOError");
    }
    var lines := Lines(files[path].value);
    var desks := new string[|lines|](i requires 0 <= i < |lines| => lines[i]);
    assert desks[..] == lines;
    StripEach(desks);
    return Ok(desks[..]);
  }

  /** The loop of `read_state_file`: strips each entry of `desks` in place. */
  method StripEach(desks: array<string>)
    modifies desks
    ensures desks[..] == StripAll(old(desks[..]))
  {
    ghost var lines := desks[..];
    var i := 0;
    while i < desks.Length
      invariant i <= desks.Length == |lines|
      invariant forall j :: 0 <= j < i ==> desks[j] == Strip(lines[j])
      invariant forall j :: i <= j < desks.Length ==> desks[j] == lines[j]
    {
      desks[i] := Strip(desks[i]);
      i := i + 1;
    }
    ghost var stripped := StripAll(lines);
    assert forall j :: 0 <= j < |lines| ==> desks[..][j] == stripped[j];
  }

  /** A desk name as the file can hold it: one line, with no whitespace at either end. */
  predicate Stored(name: string) {
    '\n' !in name && (name == [] || (!IsSpace(name[0]) && !IsSpace(name[|name| - 1])))
  }

  /** The state file holding `names`, one per line. */
  function StateText(names: seq<string>): string {
    if names == [] then "" else StateText(names[..|names| - 1]) + names[|names| - 1] + "\n"
  }

  /** Reading back a state file written one name per line gives the names. */
  lemma {:induction false} ReadWritten(names: seq<string>)
    requires forall i :: 0 <= i < |names| ==> Stored(names[i])
    ensures StripAll(Lines(StateText(names))) == names
  {
    if names != [] {
      var init := names[..|names| - 1];
      ReadWritten(init);
      ReadWrittenStep(names);
    }
  }

  /** Writing one more name adds one more desk when the file is read back. */
  lemma {:induction false} ReadWrittenStep(names: seq<string>)
    requires names != [] && Stored(names[|names| - 1])
    ensures StripAll(Lines(StateText(names))) ==
      StripAll(Lines(StateText(names[..|names| - 1]))) + [names[|names| - 1]]
  {
    var last := names[|names| - 1];
    var ls := Lines(StateText(names[..|names| - 1]));
    LinesOfStateText(names);
    assert StripAll(ls + [last + "\n"]) == StripAll(ls) + [Strip(last + "\n")];
    StripNewline(last);
  }

  /** Writing one more name adds its line to the file's lines. */
  lemma {:induction false} LinesOfStateText(names: seq<string>)
    requires names != [] && Stored(names[|names| - 1])
    ensures Lines(StateText(names)) == Lines(StateText(names[..|names| - 1])) + [names[|names| - 1] + "\n"]
  {
    var last := names[|names| - 1];
    var text := StateText(names[..|names| - 1]);
    var line := last + "\n";
    assert StateText(names) == text + line;
    assert line[..|line| - 1] == last;
    StateTextEnd(names[..|names| - 1]);
    LinesSnoc(text, line);
  }

  lemma {:induction false} StateTextEnd(names: seq<string>)
    ensures StateText(names) == [] || StateText(names)[|StateText(names)| - 1] == '\n'
  {
  }

  /** Stripping removes the newline a stored name was written with. */
  lemma {:induction false} StripNewline(name: string)
    requires Stored(name)
    ensures Strip(name + "\n") == name
  {
    var s := name + "\n";
    assert IsSpace(s[|s| - 1]);
    assert s[..|s| - 1] == name;
    var l := LStrip(s);
    if name == [] {
      assert l == [];
    } else {
      assert l == s;
      assert RStrip(s) == RStrip(name);
    }
  }

  /** A file that ends with a newline reads as its lines followed by those of what comes after. */
  lemma {:induction false} LinesSnoc(text: string, line: string)
    requires text == [] || text[|text| - 1] == '\n'
    requires line != [] && line[|line| - 1] == '\n' && '\n' !in line[..|line| - 1]
    ensures Lines(text + line) == Lines(text) + [line]
  {
    LinesAppend(text + line, 0, |text|);
    assert (text + line)[..|text|] == text;
    LinesOfOne(text + line, |text|, line);
  }

  /** The lines from `pos` that end by `cut`, when `cut` ends a line, are those of the prefix. */
  lemma {:induction false} LinesAppend(s: string, pos: nat, cut: nat)
    requires pos <= cut <= |s| && (cut == 0 || s[cut - 1] == '\n')
    ensures LinesFrom(s, pos) == LinesFrom(s[..cut], pos) + LinesFrom(s, cut)
    decreases cut - pos
  {
    if pos < cut {
      var e := LineEnd(s, pos);
      assert e <= cut;
      LineEndPrefix(s, cut, pos);
      assert s[..cut][pos..e] == s[pos..e];
      LinesAppend(s, e, cut);
    }
  }

  /** A line that ends before `cut` ends at the same place in the prefix. */
  lemma {:induction false} LineEndPrefix(s: string, cut: nat, pos: nat)
    requires pos < cut <= |s| && s[cut - 1] == '\n'
    ensures LineEnd(s[..cut], pos) == LineEnd(s, pos)
    decreases cut - pos
  {
    if s[pos] != '\n' {
      LineEndPrefix(s, cut, pos + 1);
    }
  }

  /** A final line read from `pos` is the rest of the file. */
  lemma {:induction false} LinesOfOne(s: string, pos: nat, line: string)
    requires pos <= |s| && s[pos..] == line
    requires line != [] && line[|line| - 1] == '\n' && '\n' !in line[..|line| - 1]
    ensures LinesFrom(s, pos) == [line]
  {
    var body := line[..|line| - 1];
    forall k | pos <= k < |s| - 1 ensures s[k] != '\n' {
      assert s[k] == body[k - pos];
      assert body[k - pos] in body;
    }
    assert s[|s| - 1] == line[|line| - 1];
    LineEndIs(s, pos, |s|);
    assert LinesFrom(s, pos) == [s[pos..|s|]] + LinesFrom(s, |s|);
    assert LinesFrom(s, |s|) == [];
    assert s[pos..|s|] == line;
  }

  lemma {:induction false} LineEndIs(s: string, pos: nat, e: nat)
    requires pos < e <= |s| && s[e - 1] == '\n'
    requires forall k :: pos <= k < e - 1 ==> s[k] != '\n'
    ensures LineEnd(s, pos) == e
    decreases e - pos
  {
    if pos < e - 1 {
      LineEndIs(s, pos + 1, e);
    }
  }

  // ------------------------------------------------------------------
  // Output lines and their parsing

  /** A number printed at the head of a line, and the rest of the line. */
  datatype Numbered = Numbered(n: nat, rest: string)

  /** The length of the run of digits at the head of `s`. */
  function DigitRun(s: string): (k: nat)
    ensures k <= |s| && (forall j :: 0 <= j < k ==> IsDigit(s[j])) && (k == |s| || !IsDigit(s[k]))
  {
    if s == [] || !IsDigit(s[0]) then 0 else DigitRun(s[1..]) + 1
  }

  /** The number a line starts with, if it starts with a digit. */
  function ReadNumber(s: string): Option<Numbered> {
    var k := DigitRun(s);
    if k == 0 then None else Some(Numbered(DigitsValue(s[..k]), s[k..]))
  }

  /** A printed number is read back, up to the first character that is not a digit. */
  lemma {:induction false} ReadNumberOf(n: nat, t: string)
    requires t == [] || !IsDigit(t[0])
    ensures ReadNumber(NatToString(n) + t) == Some(Numbered(n, t))
  {
    var ds := NatToString(n);
    var s := ds + t;
    DigitRunIs(s, |ds|);
    assert s[..|ds|] == ds;
    DigitsValueOfNatToString(n);
  }

  lemma {:induction false} DigitRunIs(s: string, k: nat)
    requires k <= |s| && (forall j :: 0 <= j < k ==> IsDigit(s[j])) && (k == |s| || !IsDigit(s[k]))
    ensures DigitRun(s) == k
  {
    if k > 0 {
      DigitRunIs(s[1..], k - 1);
    }
  }

  const LabelPrefix := "*FvwmPager: Label "

  /** The FvwmPager configuration line that names desk `i`. */
  function LabelLine(i: nat, name: string): string {
    LabelPrefix + NatToString(i) + " " + name
  }

  /** The desk number and name of a label line. */
  function ParseLabel(line: string): Option<Numbered> {
    if |line| < |LabelPrefix| || line[..|LabelPrefix|] != LabelPrefix then None
    else
      var num := ReadNumber(line[|LabelPrefix|..]);
      if num.None? || num.value.rest == [] || num.value.rest[0] != ' ' then None
      else Some(Numbered(num.value.n, num.value.rest[1..]))
  }

  /** A label line gives back its desk's number and name. */
  lemma {:induction false} ParseLabelLine(i: nat, name: string)
    ensures ParseLabel(LabelLine(i, name)) == Some(Numbered(i, name))
  {
    var line := LabelLine(i, name);
    assert line == LabelPrefix + (NatToString(i) + (" " + name));
    assert line[..|LabelPrefix|] == LabelPrefix;
    assert line[|LabelPrefix|..] == NatToString(i) + (" " + name);
    ReadNumberOf(i, " " + name);
    assert (" " + name)[1..] == name;
  }

  /** The lines `fvwmpager_labels` prints, one per desk, numbered from 0. */
  function LabelLines(desks: seq<string>): seq<string> {
    seq(|desks|, i requires 0 <= i < |desks| => LabelLine(i, desks[i]))
  }

  /** The i-th label line names desk i, with its name. */
  lemma {:induction false} LabelLinesParse(desks: seq<string>)
    ensures |LabelLines(desks)| == |desks|
    ensures forall i :: 0 <= i < |desks| ==> ParseLabel(LabelLines(desks)[i]) == Some(Numbered(i, desks[i]))
  {
    forall i | 0 <= i < |desks|
      ensures ParseLabel(LabelLines(desks)[i]) == Some(Numbered(i, desks[i]))
    {
      ParseLabelLine(i, desks[i]);
    }
  }

  /** A dump line: the desk's number, a colon and its name. */
  function DumpLine(i: nat, name: string): string {
    NatToString(i) + ": " + name
  }

  /** The desk number and name of a dump line. */
  function ParseDump(line: string): Option<Numbered> {
    var num := ReadNumber(line);
    if num.None? || |num.value.rest| < 2 || num.value.rest[..2] != ": " then None
    else Some(Numbered(num.value.n, num.value.rest[2..]))
  }

  lemma {:induction false} ParseDumpLine(i: nat, name: string)
    ensures ParseDump(DumpLine(i, name)) == Some(Numbered(i, name))
  {
    assert DumpLine(i, name) == NatToString(i) + (": " + name);
    ReadNumberOf(i, ": " + name);
    assert (": " + name)[..2] == ": " && (": " + name)[2..] == name;
  }

  /** The header of the dump: how many desks there are. */
  function DumpHeader(desks: seq<string>): string {
    "Dump: " + NatToString(|desks|) + " enteries"
  }

  // ------------------------------------------------------------------
  // The printing loops

  /** `dump_state(desks)`: a header with the count, then one numbered line per desk. */
  method DumpState(desks: seq<string>) returns (out: seq<string>)
    ensures |out| == |desks| + 1 && out[0] == DumpHeader(desks)
    ensures forall i :: 0 <= i < |desks| ==> out[i + 1] == DumpLine(i, desks[i])
    ensures forall i :: 0 <= i < |desks| ==> ParseDump(out[i + 1]) == Some(Numbered(i, desks[i]))
    ensures DumpBody(out[1..], desks)
  {
    out := [DumpHeader(desks)];
    var i := 0;
    while i < |desks|
      invariant i <= |desks| && |out| == i + 1 && out[0] == DumpHeader(desks)
      invariant forall j :: 0 <= j < i ==> out[j + 1] == DumpLine(j, desks[j])
    {
      out := out + [DumpLine(i, desks[i])];
      i := i + 1;
    }
    forall j | 0 <= j < |desks|
      ensures ParseDump(out[j + 1]) == Some(Numbered(j, desks[j]))
    {
      ParseDumpLine(j, desks[j]);
    }
    assert forall j :: 0 <= j < |desks| ==> out[1..][j] == out[j + 1];
  }


  /**
   * `fvwmpager_labels(desks)`: its argument is ignored; it reads the state file again and
   * prints one label line per desk read.
   */
  method FvwmpagerLabels(desks: seq<string>, path: string, files: map<string, Option<string>>)
    returns (out: Result<seq<string>>)
    ensures Desks(path, files).Err? ==> out == Err(Desks(path, files).msg)
    ensures Desks(path, files).Ok? ==> out == Ok(LabelLines(Desks(path, files).value))
  {
    var read := ReadStateFile(path, files);
    if read.Err? {
      return Err(read.msg);
    }
    var current := read.value;
    var lines := [];
    var i := 0;
    while i < |current|
      invariant i <= |current| && |lines| == i
      invariant forall j :: 0 <= j < i ==> lines[j] == LabelLine(j, current[j])
    {
      lines := lines + [LabelLine(i, current[i])];
      i := i + 1;
    }
    assert lines == LabelLines(current);
    return Ok(lines);
  }

  /** Dump lines numbering `desks` from 0, each with its desk's name. */
  predicate DumpBody(lines: seq<string>, desks: seq<string>) {
    |lines| == |desks| && forall i :: 0 <= i < |desks| ==> ParseDump(lines[i]) == Some(Numbered(i, desks[i]))
  }

  /** Label lines numbering `desks` from 0, each with its desk's name. */
  predicate LabelBody(lines: seq<string>, desks: seq<string>) {
    |lines| == |desks| && forall i :: 0 <= i < |desks| ==> ParseLabel(lines[i]) == Some(Numbered(i, desks[i]))
  }

  /**
   * What the main code prints about `desks`: the count, then each desk numbered from 0 in a
   * dump line, then the same numbering and names in pager label lines.
   */
  predicate Reports(out: seq<string>, desks: seq<string>) {
    var n := |desks|;
    |out| == 2 * n + 1 && out[0] == DumpHeader(desks) &&
    DumpBody(out[1..n + 1], desks) && LabelBody(out[n + 1..], desks)
  }

  /** The dump followed by the labels is what the main code reports. */
  lemma {:induction false} DumpThenLabels(desks: seq<string>, dump: seq<string>, labels: seq<string>)
    requires |dump| == |desks| + 1 && dump[0] == DumpHeader(desks) && DumpBody(dump[1..], desks)
    requires labels == LabelLines(desks)
    ensures Reports(dump + labels, desks)
  {
    var lines := dump + labels;
    LabelLinesParse(desks);
    assert lines[1..|desks| + 1] == dump[1..];
    assert lines[|desks| + 1..] == labels;
  }

  /**
   * The main code with `$HOME` (None when unset, which raises `KeyError`): the lines printed,
   * a dump of the desks followed by their pager labels. It then exits with status 0.
   */
  method Run(home: Option<string>, files: map<string, Option<string>>) returns (r: Result<seq<string>>)
    ensures home.None? ==> r == Err("KeyError")
    ensures home.Some? ==> (r.Ok? <==> Desks(ConfigFile(home.value), files).Ok?)
    ensures r.Ok? ==> Reports(r.value, Desks(ConfigFile(home.value), files).value)
  {
    if home.None? {
      return Err("KeyError");
    }
    var path := ConfigFile(home.value);
    var desks := ReadStateFile(path, files);
    if desks.Err? {
      return Err(desks.msg);
    }
    var dump := DumpState(desks.value);
    var labels := FvwmpagerLabels(desks.value, path, files);
    var lines := dump + labels.value;
    DumpThenLabels(desks.value, dump, labels.value);
    assert Reports(lines, desks.value);
    return Ok(lines);
  }
}

/**
 * parse_photo: save the JPEG parts of a mailed-in message under fresh names in the photo
 * directory and insert the last of them into index.html at every marker line. The message
 * arrives parsed into its parts; the clock arrives as the two strings the script formats from
 * it; the photo directory is a set of existing file names.
 */
module ParsePhoto {
  import opened Wrappers
  import opened Strings

  // ------------------------------------------------------------------
  // choosing a file name

  /**
   * The name of the `n`th photo taken in the minute `stamp` (`time.strftime` of
   * "%Y-%m-%d-%H:%M"): `<stamp>-<n>.jpg`.
   */
  function FileName(stamp: string, n: nat): string {
    stamp + "-" + NatToString(n) + ".jpg"
  }

  /** Different numbers give different names. */
  lemma {:induction false} FileNameInjective(stamp: string, a: nat, b: nat)
    requires FileName(stamp, a) == FileName(stamp, b)
    ensures a == b
  {
    var x, y := NatToString(a), NatToString(b);
    var p := stamp + "-";
    assert FileName(stamp, a) == p + x + ".jpg";
    assert |x| == |y|;
    assert x == FileName(stamp, a)[|p|..|p| + |x|];
    assert y == FileName(stamp, b)[|p|..|p| + |y|];
    NatToStringInjective(a, b);
  }

  /** `n` is the smallest file number from 1 up whose name is not taken. */
  predicate SmallestFree(stamp: string, taken: set<string>, n: nat) {
    n >= 1 && FileName(stamp, n) !in taken && forall k :: 1 <= k < n ==> FileName(stamp, k) in taken
  }

  /** There is only one smallest free number. */
  lemma {:induction false} SmallestFreeUnique(stamp: string, taken: set<string>, n: nat, m: nat)
    requires SmallestFree(stamp, taken, n) && SmallestFree(stamp, taken, m)
    ensures n == m
  {
  }

  /** The `while True` loop: try 1, 2, ... until the name is not taken. */
  method NextFree(stamp: string, taken: set<string>) returns (n: nat)
    ensures SmallestFree(stamp, taken, n)
  {
    n := 1;
    ghost var unseen := taken;
    while FileName(stamp, n) in taken
      invariant n >= 1 && unseen <= taken
      invariant forall k :: 1 <= k < n ==> FileName(stamp, k) in taken
      invariant forall k :: k >= n && FileName(stamp, k) in taken ==> FileName(stamp, k) in unseen
      decreases |unseen|
    {
      var name := FileName(stamp, n);
      forall k | k >= n + 1 && FileName(stamp, k) in taken
        ensures FileName(stamp, k) in unseen - {name}
      {
        if FileName(stamp, k) == name {
          FileNameInjective(stamp, k, n);
        }
      }
      unseen := unseen - {name};
      n := n + 1;
    }
  }

  // ------------------------------------------------------------------
  // saving the pictures

  /** A part of a multipart message: its content type and its decoded payload. */
  datatype Part = Part(contentType: string, payload: seq<bv8>)

  /** A message: its main type, and its parts when that type is "multipart". */
  datatype Mail = Mail(mainType: string, parts: seq<Part>)

  function AsSet(names: seq<string>): set<string> {
    set i | 0 <= i < |names| :: names[i]
  }

  /** The JPEG parts of a message, in order. */
  function Jpegs(parts: seq<Part>): (r: seq<Part>)
    ensures |r| <= |parts|
  {
    if parts == [] then []
    else Jpegs(parts[..|parts| - 1])
         + (if parts[|parts| - 1].contentType == "image/jpeg" then [parts[|parts| - 1]] else [])
  }

  /** What the part loop has saved after the first `i` parts. */
  predicate Saved(parts: seq<Part>, i: nat, stamp: string, dir: set<string>,
                  names: seq<string>, nums: seq<nat>, files: map<string, seq<bv8>>)
    requires i <= |parts|
  {
    var jpegs := Jpegs(parts[..i]);
    |names| == |jpegs| == |nums|
    && (forall j :: 0 <= j < |names| ==>
          names[j] == FileName(stamp, nums[j]) && SmallestFree(stamp, dir + AsSet(names[..j]), nums[j]))
    && files.Keys == AsSet(names)
    && (forall j :: 0 <= j < |names| ==> files[names[j]] == jpegs[j].payload)
  }

  lemma {:induction false} SavedStart(parts: seq<Part>, stamp: string, dir: set<string>)
    ensures Saved(parts, 0, stamp, dir, [], [], map[])
  {
    assert parts[..0] == [];
    assert AsSet([]) == {};
  }

  lemma {:induction false} SavedSkip(parts: seq<Part>, i: nat, stamp: string, dir: set<string>,
                  names: seq<string>, nums: seq<nat>, files: map<string, seq<bv8>>)
    requires i < |parts| && parts[i].contentType != "image/jpeg"
    requires Saved(parts, i, stamp, dir, names, nums, files)
    ensures Saved(parts, i + 1, stamp, dir, names, nums, files)
  {
    assert parts[..i + 1][..i] == parts[..i];
    assert Jpegs(parts[..i + 1]) == Jpegs(parts[..i]) + [];
  }

  lemma {:induction false} SavedJpeg(parts: seq<Part>, i: nat, stamp: string, dir: set<string>,
                  names: seq<string>, nums: seq<nat>, files: map<string, seq<bv8>>, n: nat)
    requires i < |parts| && parts[i].contentType == "image/jpeg"
    requires Saved(parts, i, stamp, dir, names, nums, files)
    requires SmallestFree(stamp, dir + AsSet(names), n)
    ensures Saved(parts, i + 1, stamp, dir, names + [FileName(stamp, n)], nums + [n],
                  files[FileName(stamp, n) := parts[i].payload])
  {
    assert parts[..i + 1][..i] == parts[..i];
    var name := FileName(stamp, n);
    var names' := names + [name];
    assert names'[..|names|] == names;
    assert forall j :: 0 <= j < |names| ==> names'[..j] == names[..j];
    assert AsSet(names') == AsSet(names) + {name} by {
      assert forall j :: 0 <= j < |names| ==> names'[j] == names[j];
      assert names'[|names|] == name;
    }
    assert forall j :: 0 <= j < |names| ==> names[j] != name by {
      assert forall j :: 0 <= j < |names| ==> names[j] in AsSet(names);
    }
  }

  /** The last name of a list, if any. */
  function Last(names: seq<string>): Option<string> {
    if names == [] then None else Some(names[|names| - 1])
  }

  /**
   * One turn of the part loop: a JPEG part is written under the next free name, which becomes
   * the one the index refers to; any other part is passed over.
   */
  method SaveJpeg(parts: seq<Part>, i: nat, stamp: string, dir: set<string>,
                  names: seq<string>, nums: seq<nat>, files: map<string, seq<bv8>>, last: Option<string>)
    returns (names': seq<string>, nums': seq<nat>, files': map<string, seq<bv8>>, last': Option<string>)
    requires i < |parts| && Saved(parts, i, stamp, dir, names, nums, files) && last == Last(names)
    ensures Saved(parts, i + 1, stamp, dir, names', nums', files') && last' == Last(names')
  {
    if parts[i].contentType != "image/jpeg" {
      SavedSkip(parts, i, stamp, dir, names, nums, files);
      return names, nums, files, last;
    }
    var n := NextFree(stamp, dir + AsSet(names));
    SavedJpeg(parts, i, stamp, dir, names, nums, files, n);
    var name := FileName(stamp, n);
    names', nums', files', last' := names + [name], nums + [n], files[name := parts[i].payload], Some(name);
  }

  /**
   * The part loop: every JPEG part is written to the smallest free number given the directory
   * and the pictures saved before it; `last` is the name of the last one, if any.
   */
  method SaveJpegs(parts: seq<Part>, stamp: string, dir: set<string>)
    returns (names: seq<string>, nums: seq<nat>, files: map<string, seq<bv8>>, last: Option<string>)
    ensures Saved(parts, |parts|, stamp, dir, names, nums, files)
    ensures last == Last(names)
  {
    names, nums, files, last := [], [], map[], None;
    SavedStart(parts, stamp, dir);
    var i := 0;
    while i < |parts|
      invariant 0 <= i <= |parts|
      invariant Saved(parts, i, stamp, dir, names, nums, files) && last == Last(names)
    {
      names, nums, files, last := SaveJpeg(parts, i, stamp, dir, names, nums, files, last);
      i := i + 1;
    }
  }

  /** No picture saved overwrites a file of the directory, and no two pictures share a name. */
  lemma {:induction false} SavedFresh(parts: seq<Part>, stamp: string, dir: set<string>,
                   names: seq<string>, nums: seq<nat>, files: map<string, seq<bv8>>)
    requires Saved(parts, |parts|, stamp, dir, names, nums, files)
    ensures forall j :: 0 <= j < |names| ==> names[j] !in dir
    ensures forall j, k :: 0 <= j < k < |names| ==> names[j] != names[k]
  {
    forall j, k | 0 <= j < k < |names|
      ensures names[j] != names[k]
    {
      assert names[j] == names[..k][j];
    }
  }

  // ------------------------------------------------------------------
  // the index

  const Mark: string := "<!-- MARK -->"

  /** `line[0:13] == "<!-- MARK -->"`. */
  predicate IsMark(line: string) {
    |line| >= |Mark| && line[..|Mark|] == Mark
  }

  /** The two lines that replace a marker line: the marker with the picture, then a link to it. */
  function Entry(name: string, asctime: string): seq<string> {
    [Mark + "<img src=\"" + name + "\"><br>\n", "<a href=\"" + name + "\">" + asctime + "</a><br>\n"]
  }

  /** The new index: each marker line becomes the picture's entry, every other line stays. */
  function Rewrite(lines: seq<string>, name: string, asctime: string): seq<string> {
    if lines == [] then []
    else
      var last := lines[|lines| - 1];
      Rewrite(lines[..|lines| - 1], name, asctime) + (if IsMark(last) then Entry(name, asctime) else [last])
  }

  /** The copying loop over index.html. */
  method RewriteIndex(lines: seq<string>, name: string, asctime: string) returns (out: seq<string>)
    ensures out == Rewrite(lines, name, asctime)
  {
    out := [];
    var i := 0;
    while i < |lines|
      invariant 0 <= i <= |lines|
      invariant out == Rewrite(lines[..i], name, asctime)
    {
      assert lines[..i + 1][..i] == lines[..i];
      if IsMark(lines[i]) {
        out := out + Entry(name, asctime);
      } else {
        out := out + [lines[i]];
      }
      i := i + 1;
    }
    assert lines[..|lines|] == lines;
  }

  function MarkCount(lines: seq<string>): nat {
    if lines == [] then 0
    else MarkCount(lines[..|lines| - 1]) + (if IsMark(lines[|lines| - 1]) then 1 else 0)
  }

  lemma {:induction false} MarkCountAppend(a: seq<string>, b: seq<string>)
    ensures MarkCount(a + b) == MarkCount(a) + MarkCount(b)
    decreases |b|
  {
    if b == [] {
      assert a + b == a;
    } else {
      assert (a + b)[..|a + b| - 1] == a + b[..|b| - 1];
      MarkCountAppend(a, b[..|b| - 1]);
    }
  }

  /**
   * The marker stays at the head of its line and the link line is no marker, so the rewritten
   * index has as many marker lines as before, one line more per marker, and a later run inserts
   * again at the same places.
   */
  lemma {:induction false} RewriteKeepsMarks(lines: seq<string>, name: string, asctime: string)
    ensures MarkCount(Rewrite(lines, name, asctime)) == MarkCount(lines)
    ensures |Rewrite(lines, name, asctime)| == |lines| + MarkCount(lines)
  {
    if lines != [] {
      var init := lines[..|lines| - 1];
      var last := lines[|lines| - 1];
      RewriteKeepsMarks(init, name, asctime);
      var e := Entry(name, asctime);
      var added := if IsMark(last) then e else [last];
      MarkCountAppend(Rewrite(init, name, asctime), added);
      if IsMark(last) {
        assert e[0][..|Mark|] == Mark;
        assert e[1][1] == 'a' != Mark[1];
        assert !IsMark(e[1]);
        assert e[..1] == [e[0]];
        assert MarkCount(e) == MarkCount([e[0]]) + 0;
      } else {
        assert [last][..0] == [];
      }
    }
  }

  /** Without a marker line the index comes out unchanged. */
  lemma {:induction false} RewriteNoMark(lines: seq<string>, name: string, asctime: string)
    requires forall i :: 0 <= i < |lines| ==> !IsMark(lines[i])
    ensures Rewrite(lines, name, asctime) == lines
  {
    if lines != [] {
      RewriteNoMark(lines[..|lines| - 1], name, asctime);
      assert lines[..|lines| - 1] + [lines[|lines| - 1]] == lines;
    }
  }

  // ------------------------------------------------------------------
  // the script

  /** What a run leaves behind: the pictures written and the new index.html, if it got that far. */
  datatype Outcome = Outcome(files: map<string, seq<bv8>>, index: Option<seq<string>>)

  /**
   * A message that is not multipart ends the run with nothing written. Otherwise the JPEG parts
   * are saved and, when there was one, index.html is rewritten for the last of them. Without
   * any JPEG part the time of the picture was never taken, so the script fails with index-new.html
   * opened but still empty and index.html not yet replaced.
   */
  method Run(mail: Mail, stamp: string, asctime: string, dir: set<string>, index: seq<string>)
    returns (r: Result<Outcome>)
    ensures mail.mainType != "multipart" ==> r == Ok(Outcome(map[], None))
    ensures r.Err? <==> mail.mainType == "multipart" && Jpegs(mail.parts) == []
    ensures r.Ok? && mail.mainType == "multipart" ==>
      exists names, nums :: Saved(mail.parts, |mail.parts|, stamp, dir, names, nums, r.value.files) &&
        names != [] && r.value.index == Some(Rewrite(index, names[|names| - 1], asctime))
    ensures r.Ok? && r.value.index.Some? ==>
      exists name :: name in r.value.files && r.value.index == Some(Rewrite(index, name, asctime))
  {
    if mail.mainType != "multipart" {
      return Ok(Outcome(map[], None));
    }
    var names, nums, files, last := SaveJpegs(mail.parts, stamp, dir);
    assert mail.parts[..|mail.parts|] == mail.parts;
    if last.None? {
      return Err("NameError");
    }
    assert names[|names| - 1] in AsSet(names);
    var out := RewriteIndex(index, last.value, asctime);
    return Ok(Outcome(files, Some(out)));
  }
}

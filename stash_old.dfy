/**
 * stash-old: group versioned file names ("report-3.doc") by the text in front of the version
 * number, and in each group move every file whose version is below the group's highest one
 * into the archive directory.
 */
module StashOld {
  import opened Wrappers
  import opened Strings
  import opened Paths

  // ------------------------------------------------------------------
  // FILENAME_VERSION_RE = (.*?-)(\d+)(\.\w+)?$  used with `search`

  /** The three groups of a successful search: prefix up to the '-', the digits, the extension. */
  datatype VersionMatch = VersionMatch(prefix: string, digits: string, ext: Option<string>)

  predicate AllWordChars(s: string) { forall i :: 0 <= i < |s| ==> IsWordChar(s[i]) }

  /** `\.\w+`: a dot followed by at least one word character. */
  predicate IsExtGroup(e: string) { |e| >= 2 && e[0] == '.' && AllWordChars(e[1..]) }

  function ExtText(ext: Option<string>): string { if ext.Some? then ext.value else "" }

  /** The groups have the shapes the pattern gives them. */
  predicate GroupShapes(v: VersionMatch) {
    |v.prefix| >= 1 && v.prefix[|v.prefix| - 1] == '-' && '\n' !in v.prefix
    && v.digits != [] && AllDigits(v.digits)
    && (v.ext.None? || IsExtGroup(v.ext.value))
  }

  /** What the pattern matches after the prefix's '-', and what `$` may leave behind (one newline). */
  function TailText(ds: string, ext: Option<string>, t: string): string { ds + ExtText(ext) + t }

  /**
   * `f` is `head`, then the matched text, then what `$` may leave behind.
   * `.` does not match a newline, so the match starts at the beginning of `f` or right after a
   * newline; the lazy `.*?` search from the leftmost start gives exactly that start.
   */
  predicate Decomposes(f: string, head: string, v: VersionMatch, t: string) {
    GroupShapes(v)
    && (head == [] || head[|head| - 1] == '\n')
    && (t == "" || t == "\n")
    && f == head + v.prefix + TailText(v.digits, v.ext, t)
  }

  /** Length of the run of decimal digits at the start of `t`. */
  function DigitRun(t: string): (n: nat)
    ensures n <= |t| && AllDigits(t[..n]) && (n == |t| || !IsDigit(t[n]))
  {
    if t == [] || !IsDigit(t[0]) then 0
    else
      var k := DigitRun(t[1..]);
      assert t[..k + 1] == [t[0]] + t[1..][..k];
      k + 1
  }

  lemma {:induction false} DigitRunIs(t: string, n: nat)
    requires n <= |t| && AllDigits(t[..n]) && (n == |t| || !IsDigit(t[n]))
    ensures DigitRun(t) == n
  {
    var m := DigitRun(t);
    assert forall k :: 0 <= k < n ==> t[..n][k] == t[k];
    assert forall k :: 0 <= k < m ==> t[..m][k] == t[k];
  }

  /** `(\d+)(\.\w+)?$` against the text after the prefix's '-'. */
  function MatchTail(t: string): Option<(string, Option<string>)> {
    var u := if t != [] && t[|t| - 1] == '\n' then t[..|t| - 1] else t;
    var n := DigitRun(u);
    if n == 0 then None
    else if n == |u| then Some((u, None))
    else if IsExtGroup(u[n..]) then Some((u[..n], Some(u[n..])))
    else None
  }

  /** The part of the name before the match: up to and including the last newline before `j`. */
  function LineStart(f: string, j: nat): (s: nat)
    requires j <= |f|
    ensures s <= j && (s == 0 || f[s - 1] == '\n')
    ensures forall k :: s <= k < j ==> f[k] != '\n'
  {
    var i := RFind(f[..j], '\n');
    assert forall k :: i < k < j ==> f[..j][k] == f[k];
    i + 1
  }

  /**
   * `FILENAME_VERSION_RE.search(f)`. The digits and extension cannot hold a '-', so the
   * prefix's '-' is the last '-' of `f`.
   */
  function MatchVersion(f: string): Option<VersionMatch> {
    var j := RFind(f, '-');
    if j < 0 then None
    else match MatchTail(f[j + 1..])
      case None => None
      case Some(groups) =>
        var s := LineStart(f, j);
        Some(VersionMatch(f[s..j + 1], groups.0, groups.1))
  }

  lemma {:induction false} MatchTailSound(t: string)
    requires MatchTail(t).Some?
    ensures var (ds, ext) := MatchTail(t).value;
      ds != [] && AllDigits(ds) && (ext.None? || IsExtGroup(ext.value))
      && (t == TailText(ds, ext, "") || t == TailText(ds, ext, "\n"))
  {
    var u := if t != [] && t[|t| - 1] == '\n' then t[..|t| - 1] else t;
    assert t == u || t == u + "\n";
    var n := DigitRun(u);
    assert u == u[..n] + u[n..];
  }

  lemma {:induction false} DecomposesAt(f: string, s: nat, j: nat, v: VersionMatch, t: string)
    requires s <= j < |f| && (s == 0 || f[s - 1] == '\n')
    requires v.prefix == f[s..j + 1] && f[j] == '-' && forall k :: s <= k < j ==> f[k] != '\n'
    requires v.digits != [] && AllDigits(v.digits) && (v.ext.None? || IsExtGroup(v.ext.value))
    requires (t == "" || t == "\n") && f[j + 1..] == TailText(v.digits, v.ext, t)
    ensures Decomposes(f, f[..s], v, t)
  {
    assert '\n' !in v.prefix by {
      forall k | 0 <= k < |v.prefix| ensures v.prefix[k] != '\n' { assert v.prefix[k] == f[s + k]; }
    }
    assert f == f[..s] + v.prefix + f[j + 1..];
  }

  /** Whatever the search finds decomposes the name as the pattern describes. */
  lemma {:induction false} MatchVersionSound(f: string)
    requires MatchVersion(f).Some?
    ensures exists head, t :: Decomposes(f, head, MatchVersion(f).value, t)
  {
    var j, s := MatchVersionParts(f);
    var groups := MatchTail(f[j + 1..]).value;
    SoundAt(f, s, j, VersionMatch(f[s..j + 1], groups.0, groups.1));
  }

  /** The groups found after the '-' at `j`, with the prefix from the line start `s`, decompose `f`. */
  lemma {:induction false} SoundAt(f: string, s: nat, j: nat, v: VersionMatch)
    requires s <= j < |f| && f[j] == '-' && (s == 0 || f[s - 1] == '\n')
    requires forall k :: s <= k < j ==> f[k] != '\n'
    requires MatchTail(f[j + 1..]) == Some((v.digits, v.ext)) && v.prefix == f[s..j + 1]
    ensures exists head, t :: Decomposes(f, head, v, t)
  {
    MatchTailSound(f[j + 1..]);
    var t: string := if f[j + 1..] == TailText(v.digits, v.ext, "") then "" else "\n";
    DecomposesAt(f, s, j, v, t);
  }

  /** A successful search: the '-' at `j`, the line start `s`, and the tail groups after the '-'. */
  lemma {:induction false} MatchVersionParts(f: string) returns (j: nat, s: nat)
    requires MatchVersion(f).Some?
    ensures s <= j < |f| && f[j] == '-' && (s == 0 || f[s - 1] == '\n')
    ensures forall k :: s <= k < j ==> f[k] != '\n'
    ensures MatchTail(f[j + 1..]).Some?
    ensures MatchVersion(f).value ==
      VersionMatch(f[s..j + 1], MatchTail(f[j + 1..]).value.0, MatchTail(f[j + 1..]).value.1)
  {
    j := RFind(f, '-');
    s := LineStart(f, j);
  }

  /** Neither the digits, nor the extension, nor the trailing newline contain a '-'. */
  lemma {:induction false} TailHasNoDash(v: VersionMatch, t: string)
    requires GroupShapes(v) && (t == "" || t == "\n")
    ensures forall k :: 0 <= k < |TailText(v.digits, v.ext, t)| ==> TailText(v.digits, v.ext, t)[k] != '-'
  {
    var e := ExtText(v.ext);
    var r := TailText(v.digits, v.ext, t);
    forall k | 0 <= k < |r| ensures r[k] != '-' {
      if k < |v.digits| {
        assert r[k] == v.digits[k];
      } else if k < |v.digits| + |e| {
        assert r[k] == e[k - |v.digits|];
        if k > |v.digits| { assert e[k - |v.digits|] == e[1..][k - |v.digits| - 1]; }
      }
    }
  }

  /** The tail groups are recovered from their text. */
  lemma {:induction false} MatchTailComplete(v: VersionMatch, t: string)
    requires GroupShapes(v) && (t == "" || t == "\n")
    ensures MatchTail(TailText(v.digits, v.ext, t)) == Some((v.digits, v.ext))
  {
    var e := ExtText(v.ext);
    var rest := TailText(v.digits, v.ext, t);
    var u := v.digits + e;
    if t == "\n" {
      assert rest[|rest| - 1] == '\n' && rest[..|rest| - 1] == u;
    } else {
      assert rest == u;
      if e == [] {
        assert u[|u| - 1] == v.digits[|v.digits| - 1];
      } else {
        assert u[|u| - 1] == e[|e| - 1] == e[1..][|e| - 2];
      }
    }
    assert u[..|v.digits|] == v.digits;
    assert e != [] ==> u[|v.digits|] == '.';
    DigitRunIs(u, |v.digits|);
    assert u[|v.digits|..] == e;
    assert v.ext.None? <==> e == [];
    if e == [] { assert u == v.digits; }
  }

  /** Every decomposition is the one the search finds: matching is complete and unambiguous. */
  lemma {:induction false} MatchVersionComplete(f: string, head: string, v: VersionMatch, t: string)
    requires Decomposes(f, head, v, t)
    ensures MatchVersion(f) == Some(v)
  {
    var rest := TailText(v.digits, v.ext, t);
    var j := |head| + |v.prefix| - 1;
    assert f[j] == '-';
    assert f[j + 1..] == rest;
    TailHasNoDash(v, t);
    assert forall k :: j < k < |f| ==> f[k] == rest[k - j - 1];
    RFindIs(f, '-', j);
    MatchTailComplete(v, t);
    // the start of the match
    assert forall k :: |head| <= k < j ==> f[k] == v.prefix[k - |head|];
    assert head != [] ==> f[|head| - 1] == '\n';
    LineStartAt(f, j, |head|);
    assert f[|head|..j + 1] == v.prefix;
  }

  /** The line start before `j` is the position just after the last newline before it. */
  lemma {:induction false} LineStartAt(f: string, j: nat, s: nat)
    requires s <= j <= |f| && (s == 0 || f[s - 1] == '\n')
    requires forall k :: s <= k < j ==> f[k] != '\n'
    ensures LineStart(f, j) == s
  {
    var g := f[..j];
    assert forall k :: 0 <= k < j ==> g[k] == f[k];
    RFindIs(g, '\n', s - 1);
  }

  /** The search succeeds with groups `v` exactly when `f` decomposes around `v`. */
  lemma {:induction false} MatchVersionIff(f: string, v: VersionMatch)
    ensures MatchVersion(f) == Some(v) <==> exists head, t :: Decomposes(f, head, v, t)
  {
    if exists head, t :: Decomposes(f, head, v, t) {
      var head, t :| Decomposes(f, head, v, t);
      MatchVersionComplete(f, head, v, t);
    }
    if MatchVersion(f) == Some(v) {
      MatchVersionSound(f);
    }
  }

  /** A name without any '-' has no version. */
  lemma {:induction false} NoDashNoMatch(f: string)
    requires forall k :: 0 <= k < |f| ==> f[k] != '-'
    ensures MatchVersion(f) == None
  {
    RFindIs(f, '-', -1);
  }

  /** The regex test: "file-1.txt" splits into "file-", "1" and ".txt". */
  lemma {:induction false} RegexExample()
    ensures MatchVersion("file-1.txt") == Some(VersionMatch("file-", "1", Some(".txt")))
  {
    var v := VersionMatch("file-", "1", Some(".txt"));
    assert AllWordChars(".txt"[1..]);
    MatchVersionComplete("file-1.txt", "", v, "");
  }

  // ------------------------------------------------------------------
  // get_version

  /** `get_version(filename)`: the version of the name with its extension removed, or None. */
  function GetVersion(filename: string): Option<nat> {
    match MatchVersion(StripExt(filename))
    case None => None
    case Some(v) => Some(DigitsValue(v.digits))
  }

  lemma {:induction false} VersionOfRoot(f: string, root: string, v: VersionMatch)
    requires StripExt(f) == root && MatchVersion(root) == Some(v)
    ensures GetVersion(f) == Some(DigitsValue(v.digits))
  {
  }

  /** `<stem>-<n>` followed by an extension loses just the extension. */
  lemma {:induction false} StripVersionExt(stem: string, ds: string, ext: string)
    requires ds != [] && AllDigits(ds)
    requires ext == "" ==> forall k :: 0 <= k < |stem| ==> stem[k] != '.'
    requires ext != "" ==> IsExtGroup(ext)
    ensures StripExt(stem + "-" + ds + ext) == stem + "-" + ds
  {
    var root := stem + "-" + ds;
    var f := root + ext;
    if ext != [] {
      assert root[|root| - 1] == ds[|ds| - 1];
      forall k | |root| < k < |f| ensures f[k] != '.' && f[k] != '/' {
        assert f[k] == ext[1..][k - |root| - 1];
      }
      SplitExtAt(f, |root|);
      assert f[..|root|] == root;
    } else {
      assert f == root;
      forall k | 0 <= k < |root| ensures root[k] != '.' {
        if k > |stem| { assert root[k] == ds[k - |stem| - 1]; }
      }
      SplitExtNoDot(root);
    }
  }

  /** `<stem>-<digits>` matches with prefix `<stem>-`, when the stem has no newline. */
  lemma {:induction false} MatchVersionOfStem(stem: string, ds: string)
    requires ds != [] && AllDigits(ds)
    requires forall k :: 0 <= k < |stem| ==> stem[k] != '\n'
    ensures MatchVersion(stem + "-" + ds) == Some(VersionMatch(stem + "-", ds, None))
  {
    var v := VersionMatch(stem + "-", ds, None);
    assert '\n' !in v.prefix by {
      forall k | 0 <= k < |v.prefix| ensures v.prefix[k] != '\n' {
        if k < |stem| { assert v.prefix[k] == stem[k]; }
      }
    }
    assert stem + "-" + ds == [] + v.prefix + TailText(v.digits, v.ext, "");
    MatchVersionComplete(stem + "-" + ds, [], v, "");
  }

  /** A name `<stem>-<n>` or `<stem>-<n>.<ext>` has version `n`. */
  lemma {:induction false} GetVersionOf(stem: string, n: nat, ext: string)
    requires forall k :: 0 <= k < |stem| ==> stem[k] != '\n'
    requires ext == "" ==> forall k :: 0 <= k < |stem| ==> stem[k] != '.'
    requires ext != "" ==> IsExtGroup(ext)
    ensures GetVersion(stem + "-" + NatToString(n) + ext) == Some(n)
  {
    var ds := NatToString(n);
    StripVersionExt(stem, ds, ext);
    MatchVersionOfStem(stem, ds);
    VersionOfRoot(stem + "-" + ds + ext, stem + "-" + ds, VersionMatch(stem + "-", ds, None));
    DigitsValueOfNatToString(n);
  }

  /** A name whose extension-less part has no '-' has no version. */
  lemma {:induction false} GetVersionNone(f: string)
    requires forall k :: 0 <= k < |StripExt(f)| ==> StripExt(f)[k] != '-'
    ensures GetVersion(f) == None
  {
    NoDashNoMatch(StripExt(f));
  }

  lemma {:induction false} StripExtExample7() ensures StripExt("filename-7.ext") == "filename-7" {
    SplitExtAt("filename-7.ext", 10);
  }

  lemma {:induction false} StripExtExample4() ensures StripExt("filename-4") == "filename-4" {
    SplitExtNoDot("filename-4");
  }

  lemma {:induction false} StripExtExampleNone() ensures StripExt("filename.ext") == "filename" {
    SplitExtAt("filename.ext", 8);
  }

  lemma {:induction false} MatchExample7() ensures MatchVersion("filename-7") == Some(VersionMatch("filename-", "7", None)) {
    MatchVersionComplete("filename-7", "", VersionMatch("filename-", "7", None), "");
  }

  lemma {:induction false} MatchExample4() ensures MatchVersion("filename-4") == Some(VersionMatch("filename-", "4", None)) {
    MatchVersionComplete("filename-4", "", VersionMatch("filename-", "4", None), "");
  }

  lemma {:induction false} MatchExampleNone() ensures MatchVersion("filename") == None {
    RFindIs("filename", '-', -1);
  }

  /** The unit tests of get_version: "filename-7.ext" has version 7, ... */
  lemma {:induction false} GetVersionExample7() ensures GetVersion("filename-7.ext") == Some(7) {
    StripExtExample7();
    MatchExample7();
    VersionOfRoot("filename-7.ext", "filename-7", VersionMatch("filename-", "7", None));
  }

  /** ... "filename.ext" has none ... */
  lemma {:induction false} GetVersionExampleNone() ensures GetVersion("filename.ext") == None {
    StripExtExampleNone();
    MatchExampleNone();
  }

  /** ... and "filename-4" has version 4. */
  lemma {:induction false} GetVersionExample4() ensures GetVersion("filename-4") == Some(4) {
    StripExtExample4();
    MatchExample4();
    VersionOfRoot("filename-4", "filename-4", VersionMatch("filename-", "4", None));
  }

  // ------------------------------------------------------------------
  // group_files

  /** The group key of a name, if the name carries a version. */
  function PrefixOf(f: string): Option<string> {
    match MatchVersion(f)
    case None => None
    case Some(v) => Some(v.prefix)
  }

  /** The names of `files` whose group key is `p`, in input order. */
  function Members(files: seq<string>, key: string -> Option<string>, p: string): (r: seq<string>)
    ensures |r| <= |files|
  {
    if files == [] then []
    else
      var f := files[|files| - 1];
      Members(files[..|files| - 1], key, p) + (if key(f) == Some(p) then [f] else [])
  }

  /** A name is in the group `p` exactly when it is one of the files and its key is `p`. */
  lemma {:induction false} MembersIff(files: seq<string>, key: string -> Option<string>, p: string, f: string)
    ensures f in Members(files, key, p) <==> f in files && key(f) == Some(p)
  {
    if files != [] {
      var init := files[..|files| - 1];
      MembersIff(init, key, p, f);
      assert files == init + [files[|files| - 1]];
    }
  }

  /** `d` maps every group key among `files` to that group's members, and holds no other key. */
  ghost predicate Grouped(d: map<string, seq<string>>, files: seq<string>, key: string -> Option<string>) {
    && (forall p :: p in d <==> Members(files, key, p) != [])
    && (forall p :: p in d ==> d[p] == Members(files, key, p))
  }

  /** The dictionary after one more name: appended to its group's list, if it has a key. */
  function AddToGroup(d: map<string, seq<string>>, f: string, key: Option<string>): map<string, seq<string>> {
    if key.None? then d
    else d[key.value := (if key.value in d then d[key.value] else []) + [f]]
  }

  lemma {:induction false} GroupedStep(d: map<string, seq<string>>, files: seq<string>, key: string -> Option<string>, i: nat)
    requires i < |files| && Grouped(d, files[..i], key)
    ensures Grouped(AddToGroup(d, files[i], key(files[i])), files[..i + 1], key)
  {
    assert files[..i + 1][..i] == files[..i];
    assert files[..i + 1][i] == files[i];
  }

  /**
   * `group_files(files)`: names without a version are skipped; every other name is appended,
   * in input order, to the list of its prefix.
   */
  method GroupFiles(files: seq<string>) returns (d: map<string, seq<string>>)
    ensures forall p :: p in d <==> Members(files, PrefixOf, p) != []
    ensures forall p :: p in d ==> d[p] == Members(files, PrefixOf, p)
  {
    d := map[];
    var i := 0;
    assert files[..0] == [];
    while i < |files|
      invariant 0 <= i <= |files|
      invariant Grouped(d, files[..i], PrefixOf)
    {
      var f := files[i];
      var m := MatchVersion(f);
      GroupedStep(d, files, PrefixOf, i);
      if m.Some? {
        var p := m.value.prefix;
        var group := if p in d then d[p] else [];
        d := d[p := group + [f]];
      }
      i := i + 1;
    }
    assert files[..|files|] == files;
  }

  lemma {:induction false} MembersSnoc(files: seq<string>, f: string, key: string -> Option<string>, p: string)
    ensures Members(files + [f], key, p) == Members(files, key, p) + (if key(f) == Some(p) then [f] else [])
  {
    assert (files + [f])[..|files|] == files;
  }

  /** Seven names, grouped: the shape of the group_files unit test. */
  lemma {:induction false} MembersOfSeven(a: string, b: string, c: string, d: string, e: string, f: string, g: string,
                                          key: string -> Option<string>, pf: string, pt: string, p: string)
    requires pf != pt
    requires key(a) == Some(pf) && key(b) == Some(pf) && key(c) == Some(pt)
    requires key(d) == None && key(e) == Some(pt) && key(f) == None && key(g) == Some(pt)
    ensures Members([a, b, c, d, e, f, g], key, p)
         == if p == pf then [a, b] else if p == pt then [c, e, g] else []
  {
    var s0: seq<string> := [];
    var s1 := s0 + [a];
    var s2 := s1 + [b];
    var s3 := s2 + [c];
    var s4 := s3 + [d];
    var s5 := s4 + [e];
    var s6 := s5 + [f];
    var s7 := s6 + [g];
    assert s7 == [a, b, c, d, e, f, g];
    MembersSnoc(s0, a, key, p);
    MembersSnoc(s1, b, key, p);
    MembersSnoc(s2, c, key, p);
    MembersSnoc(s3, d, key, p);
    MembersSnoc(s4, e, key, p);
    MembersSnoc(s5, f, key, p);
    MembersSnoc(s6, g, key, p);
    var none: seq<string> := [];
    if p == pf {
      assert Members(s7, key, p) == none + [a] + [b] + none + none + none + none + none;
    } else if p == pt {
      assert Members(s7, key, p) == none + none + none + [c] + none + [e] + none + [g];
    } else {
      assert Members(s7, key, p) == none + none + none + none + none + none + none + none;
    }
  }

  lemma {:induction false} PrefixExample0() ensures PrefixOf("file-1.txt") == Some("file-") { RegexExample(); }

  lemma {:induction false} PrefixExample1() ensures PrefixOf("file-3") == Some("file-") {
    MatchVersionComplete("file-3", "", VersionMatch("file-", "3", None), "");
  }

  lemma {:induction false} PrefixExample2() ensures PrefixOf("test-9") == Some("test-") {
    MatchVersionComplete("test-9", "", VersionMatch("test-", "9", None), "");
  }

  lemma {:induction false} PrefixExample3() ensures PrefixOf("something") == None { RFindIs("something", '-', -1); }

  lemma {:induction false} PrefixExample4() ensures PrefixOf("test-1") == Some("test-") {
    MatchVersionComplete("test-1", "", VersionMatch("test-", "1", None), "");
  }

  lemma {:induction false} PrefixExample5() ensures PrefixOf("test") == None { RFindIs("test", '-', -1); }

  lemma {:induction false} PrefixExample6() ensures PrefixOf("test-3.ext") == Some("test-") {
    assert AllWordChars(".ext"[1..]);
    MatchVersionComplete("test-3.ext", "", VersionMatch("test-", "3", Some(".ext")), "");
  }

  /** The unit test of group_files: two "file-" names, three "test-" names, no "something" group. */
  lemma {:induction false} GroupFilesExample()
    ensures var files := ["file-1.txt", "file-3", "test-9", "something", "test-1", "test", "test-3.ext"];
      && Members(files, PrefixOf, "file-") == ["file-1.txt", "file-3"]
      && Members(files, PrefixOf, "test-") == ["test-9", "test-1", "test-3.ext"]
      && Members(files, PrefixOf, "something") == []
  {
    PrefixExample0(); PrefixExample1(); PrefixExample2(); PrefixExample3();
    PrefixExample4(); PrefixExample5(); PrefixExample6();
    var files := ["file-1.txt", "file-3", "test-9", "something", "test-1", "test", "test-3.ext"];
    assert "file-"[0] != "test-"[0];
    MembersOfSeven(files[0], files[1], files[2], files[3], files[4], files[5], files[6], PrefixOf, "file-", "test-", "file-");
    MembersOfSeven(files[0], files[1], files[2], files[3], files[4], files[5], files[6], PrefixOf, "file-", "test-", "test-");
    assert "something"[0] != "file-"[0] && "something"[0] != "test-"[0];
    MembersOfSeven(files[0], files[1], files[2], files[3], files[4], files[5], files[6], PrefixOf, "file-", "test-", "something");
  }

  // ------------------------------------------------------------------
  // process_files

  /** Python 2's `a < b` for values that are None or an integer: None is below every integer. */
  predicate Below(a: Option<nat>, b: Option<nat>) {
    (a.None? && b.Some?) || (a.Some? && b.Some? && a.value < b.value)
  }

  /** Descending by key: no element is below a later one. */
  predicate SortedDesc(s: seq<string>, key: string -> Option<nat>) {
    forall i, j :: 0 <= i < j < |s| ==> !Below(key(s[i]), key(s[j]))
  }

  /** Inserts `x` into a descending list after every element whose key is not below its own. */
  function Insert(x: string, s: seq<string>, key: string -> Option<nat>): seq<string> {
    if s == [] || Below(key(s[0]), key(x)) then [x] + s
    else [s[0]] + Insert(x, s[1..], key)
  }

  /** `sort(key=key, reverse=True)`: a stable sort into descending key order. */
  function SortDesc(s: seq<string>, key: string -> Option<nat>): seq<string> {
    if s == [] then [] else Insert(s[|s| - 1], SortDesc(s[..|s| - 1], key), key)
  }

  lemma {:induction false} InsertPerm(x: string, s: seq<string>, key: string -> Option<nat>)
    ensures multiset(Insert(x, s, key)) == multiset(s) + multiset{x}
  {
    if s != [] && !Below(key(s[0]), key(x)) {
      InsertPerm(x, s[1..], key);
      assert s == [s[0]] + s[1..];
    }
  }

  lemma {:induction false} InsertSorted(x: string, s: seq<string>, key: string -> Option<nat>)
    requires SortedDesc(s, key)
    ensures SortedDesc(Insert(x, s, key), key)
  {
    if s != [] && !Below(key(s[0]), key(x)) {
      InsertSorted(x, s[1..], key);
      InsertPerm(x, s[1..], key);
      var r := Insert(x, s, key);
      forall j | 1 <= j < |r| ensures !Below(key(r[0]), key(r[j])) {
        var y := r[j];
        assert y in multiset(Insert(x, s[1..], key));
        assert y == x || y in s[1..];
        if y != x {
          var k :| 0 <= k < |s[1..]| && s[1..][k] == y;
          assert s[k + 1] == y;
        }
      }
    }
  }

  /** The sorted list is a permutation of the input. */
  lemma {:induction false} SortDescPerm(s: seq<string>, key: string -> Option<nat>)
    ensures multiset(SortDesc(s, key)) == multiset(s)
  {
    if s != [] {
      SortDescPerm(s[..|s| - 1], key);
      InsertPerm(s[|s| - 1], SortDesc(s[..|s| - 1], key), key);
      assert s == s[..|s| - 1] + [s[|s| - 1]];
    }
  }

  /** The sorted list is in descending key order. */
  lemma {:induction false} SortDescSorted(s: seq<string>, key: string -> Option<nat>)
    ensures SortedDesc(SortDesc(s, key), key)
  {
    if s != [] {
      SortDescSorted(s[..|s| - 1], key);
      InsertSorted(s[|s| - 1], SortDesc(s[..|s| - 1], key), key);
    }
  }

  /** `os.rename(src, dst)`. */
  datatype Rename = Rename(src: string, dst: string)

  /** The renames of the loop: each file whose key is below `top`, into `oldPath`, in list order. */
  function Renames(files: seq<string>, key: string -> Option<nat>, top: Option<nat>, oldPath: string): seq<Rename> {
    if files == [] then []
    else
      var f := files[|files| - 1];
      Renames(files[..|files| - 1], key, top, oldPath)
        + (if Below(key(f), top) then [Rename(f, Join2(oldPath, f))] else [])
  }

  /** A rename is made exactly for a listed file whose key is below `top`, into `oldPath`. */
  lemma {:induction false} RenamesIff(files: seq<string>, key: string -> Option<nat>, top: Option<nat>,
                                      oldPath: string, r: Rename)
    ensures r in Renames(files, key, top, oldPath)
        <==> r.src in files && Below(key(r.src), top) && r.dst == Join2(oldPath, r.src)
  {
    if files != [] {
      RenamesIff(files[..|files| - 1], key, top, oldPath, r);
      assert files == files[..|files| - 1] + [files[|files| - 1]];
    }
  }

  /**
   * `process_files(files, old_path)`: sorts the caller's list in place by descending version
   * and renames into `old_path` every file whose version is below the first (highest) one.
   * An empty list fails on `files[0]`.
   */
  method ProcessFiles(files: array<string>, oldPath: string) returns (r: Result<seq<Rename>>)
    modifies files
    ensures files[..] == SortDesc(old(files[..]), GetVersion)
    ensures files.Length == 0 ==> r == Err("IndexError")
    ensures files.Length > 0 ==> r == Ok(Renames(files[..], GetVersion, GetVersion(files[0]), oldPath))
  {
    SortInPlace(files, GetVersion);
    if files.Length == 0 {
      return Err("IndexError");
    }
    var top := GetVersion(files[0]);
    var moves := MoveBelow(files, GetVersion, top, oldPath);
    r := Ok(moves);
  }

  /** `files.sort(key=key, reverse=True)`. */
  method SortInPlace(files: array<string>, key: string -> Option<nat>)
    modifies files
    ensures files[..] == SortDesc(old(files[..]), key)
  {
    var sorted := SortDesc(files[..], key);
    SortDescPerm(files[..], key);
    assert |sorted| == |multiset(sorted)| == |multiset(files[..])| == files.Length;
    forall i | 0 <= i < files.Length {
      files[i] := sorted[i];
    }
    assert files[..] == sorted;
  }

  /** The loop of `process_files`: every file whose key is below `top` is renamed into `oldPath`. */
  method MoveBelow(files: array<string>, key: string -> Option<nat>, top: Option<nat>, oldPath: string)
    returns (moves: seq<Rename>)
    ensures moves == Renames(files[..], key, top, oldPath)
  {
    moves := [];
    for i := 0 to files.Length
      invariant moves == Renames(files[..i], key, top, oldPath)
    {
      var f := files[i];
      assert files[..i + 1] == files[..i] + [f];
      if Below(key(f), top) {
        moves := moves + [Rename(f, Join2(oldPath, f))];
      }
    }
    assert files[..files.Length] == files[..];
  }

  /**
   * What process_files archives, stated on its input: after sorting, the first key is the
   * highest of the group, a file is moved exactly when its key is strictly below it (so every
   * file at the highest version stays), and it is moved into `oldPath` under its own name.
   */
  lemma {:induction false} ProcessFilesSelection(s: seq<string>, key: string -> Option<nat>, oldPath: string, r: Rename)
    requires s != []
    ensures var sorted := SortDesc(s, key);
      && multiset(sorted) == multiset(s)
      && (forall f :: f in s ==> !Below(key(sorted[0]), key(f)))
      && (r in Renames(sorted, key, key(sorted[0]), oldPath)
          <==> r.src in s && Below(key(r.src), key(sorted[0])) && r.dst == Join2(oldPath, r.src))
  {
    var sorted := SortDesc(s, key);
    SortDescPerm(s, key);
    SortDescSorted(s, key);
    assert |sorted| == |s| by { assert |multiset(sorted)| == |multiset(s)|; }
    forall f | f in s ensures !Below(key(sorted[0]), key(f)) {
      assert f in multiset(sorted);
      var k :| 0 <= k < |sorted| && sorted[k] == f;
      if k > 0 {
        assert !Below(key(sorted[0]), key(sorted[k]));
      }
    }
    RenamesIff(sorted, key, key(sorted[0]), oldPath, r);
    assert r.src in sorted <==> r.src in s by {
      assert r.src in multiset(sorted) <==> r.src in multiset(s);
    }
  }

  /** A file at the highest version is never moved: ties at the maximum all stay. */
  lemma {:induction false} TopVersionStays(s: seq<string>, key: string -> Option<nat>, oldPath: string, f: string)
    requires s != [] && f in s
    requires key(f) == key(SortDesc(s, key)[0])
    ensures forall r :: r in Renames(SortDesc(s, key), key, key(f), oldPath) ==> r.src != f
  {
    forall r | r in Renames(SortDesc(s, key), key, key(f), oldPath) ensures r.src != f {
      ProcessFilesSelection(s, key, oldPath, r);
    }
  }
}

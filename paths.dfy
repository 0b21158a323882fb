/**
 * POSIX path manipulation as Python's `posixpath` does it: join, basename, dirname and splitext.
 * Paths are plain strings with '/' as the separator.
 */
module Paths {
  import opened Strings

  /** `s.rfind(c)`: index of the last `c`, or -1. */
  function RFind(s: string, c: char): (i: int)
    ensures -1 <= i < |s|
    ensures i >= 0 ==> s[i] == c
    ensures forall k :: i < k < |s| ==> s[k] != c
  {
    if s == [] then -1
    else if s[|s| - 1] == c then |s| - 1
    else RFind(s[..|s| - 1], c)
  }

  /** The postcondition of `RFind` pins its result down: any index with those properties is it. */
  lemma {:induction false} RFindIs(s: string, c: char, i: int)
    requires -1 <= i < |s| && (i >= 0 ==> s[i] == c)
    requires forall k :: i < k < |s| ==> s[k] != c
    ensures RFind(s, c) == i
  {
  }

  /** The first index at or after `i` whose character is not `c` (or `|s|`). */
  function SkipRun(s: string, i: nat, c: char): (k: nat)
    requires i <= |s|
    ensures i <= k <= |s| && (k == |s| || s[k] != c)
    ensures forall j :: i <= j < k ==> s[j] == c
    decreases |s| - i
  {
    if i == |s| || s[i] != c then i else SkipRun(s, i + 1, c)
  }

  /** Whether `p` starts with '/'. */
  predicate Absolute(p: string) {
    p != [] && p[0] == '/'
  }

  /** `os.path.join(a, b)`. */
  function Join2(a: string, b: string): (r: string)
    ensures Absolute(b) ==> r == b
    ensures !Absolute(b) ==> |r| >= |b|
  {
    if Absolute(b) then b
    else if a == [] || a[|a| - 1] == '/' then a + b
    else a + "/" + b
  }

  /** A relative `b` ends the joined path. */
  lemma {:induction false} JoinEndsWith(a: string, b: string)
    requires !Absolute(b)
    ensures EndsWith(Join2(a, b), b)
  {
    var r := Join2(a, b);
    assert r[|r| - |b|..] == b;
  }

  /** `os.path.join(*parts)`: joins left to right. */
  function JoinAll(parts: seq<string>): string
    requires |parts| >= 1
  {
    if |parts| == 1 then parts[0] else Join2(JoinAll(parts[..|parts| - 1]), parts[|parts| - 1])
  }

  /** `os.path.basename(p)`: everything after the last '/'. */
  function Basename(p: string): (r: string)
    ensures '/' !in r
    ensures |r| <= |p| && p == p[..|p| - |r|] + r
  {
    var i := RFind(p, '/');
    BasenameSplit(p, i);
    p[i + 1..]
  }

  lemma {:induction false} BasenameSplit(p: string, i: int)
    requires -1 <= i < |p| && forall k :: i < k < |p| ==> p[k] != '/'
    ensures '/' !in p[i + 1..] && p == p[..i + 1] + p[i + 1..]
  {
    var r := p[i + 1..];
    forall j | 0 <= j < |r| ensures r[j] != '/' { assert r[j] == p[i + 1 + j]; }
  }

  /** `os.path.dirname(p)`: up to the last '/', without the trailing slashes unless it is all slashes. */
  function Dirname(p: string): (r: string)
    ensures |r| <= |p| && r == p[..|r|]
  {
    var head := p[..RFind(p, '/') + 1];
    if SkipRun(head, 0, '/') < |head| then StripTrailingSlashes(head)
    else head
  }

  function StripTrailingSlashes(s: string): (r: string)
    ensures |r| <= |s| && r == s[..|r|]
    ensures r == [] || r[|r| - 1] != '/'
  {
    if s != [] && s[|s| - 1] == '/' then StripTrailingSlashes(s[..|s| - 1]) else s
  }

  /** `s.lstrip('/')`. */
  function StripLeadingSlashes(s: string): (r: string)
    ensures !Absolute(r)
    ensures exists k :: 0 <= k <= |s| && r == s[k..] && forall j :: 0 <= j < k ==> s[j] == '/'
  {
    var k := SkipRun(s, 0, '/');
    s[k..]
  }

  /** Whether `p` starts with '~'. */
  predicate HomeRelative(p: string) {
    p != [] && p[0] == '~'
  }

  /**
   * `os.path.expanduser(p)`: a leading "~" or "~user" (up to the first '/') becomes that user's
   * home directory without its trailing slashes; `homes` maps user names to home directories,
   * with "" standing for the current user. Other paths, and unknown users, are left alone.
   */
  function ExpandUser(p: string, homes: map<string, string>): (r: string)
    ensures !HomeRelative(p) ==> r == p
    ensures p != [] ==> r != []
  {
    if !HomeRelative(p) then p
    else
      var rest := p[1..];
      var i := if '/' in rest then IndexOf(rest, '/') else |rest|;
      var user := rest[..i];
      if user in homes then
        var e := StripTrailingSlashes(homes[user]) + rest[i..];
        if e == "" then "/" else e
      else p
  }

  /** One component in `os.path.normpath`'s loop, given the components kept so far. */
  function NormStep(kept: seq<string>, comp: string, rooted: bool): seq<string> {
    if comp == "" || comp == "." then kept
    else if comp != ".." || (!rooted && kept == []) || (kept != [] && kept[|kept| - 1] == "..") then kept + [comp]
    else if kept != [] then kept[..|kept| - 1]
    else kept
  }

  /** The components `os.path.normpath` keeps, left to right. */
  function NormComps(comps: seq<string>, rooted: bool): seq<string> {
    if comps == [] then [] else NormStep(NormComps(comps[..|comps| - 1], rooted), comps[|comps| - 1], rooted)
  }

  /** No kept component is empty or "."; under a root, none is "..". */
  lemma {:induction false} NormCompsClean(comps: seq<string>, rooted: bool)
    ensures forall c :: c in NormComps(comps, rooted) ==> c != "" && c != "." && (rooted ==> c != "..")
  {
    if comps != [] {
      var kept := NormComps(comps[..|comps| - 1], rooted);
      var comp := comps[|comps| - 1];
      NormCompsClean(comps[..|comps| - 1], rooted);
      assert NormComps(comps, rooted) == NormStep(kept, comp, rooted);
      if comp == "" || comp == "." {
      } else if comp != ".." || (!rooted && kept == []) || (kept != [] && kept[|kept| - 1] == "..") {
        assert NormStep(kept, comp, rooted) == kept + [comp];
        assert kept != [] ==> kept[|kept| - 1] in kept;
        assert forall c :: c in kept + [comp] ==> c in kept || c == comp;
      } else if kept != [] {
        var r := kept[..|kept| - 1];
        assert NormComps(comps, rooted) == r;
        forall c | c in r
          ensures c != "" && c != "." && (rooted ==> c != "..")
        {
          var j :| 0 <= j < |r| && r[j] == c;
          assert kept[j] == c;
          assert c in kept;
        }
      } else {
        assert NormStep(kept, comp, rooted) == [];
      }
    }
  }

  /** A plain component: not empty, not "." or "..", and without a '/'. */
  predicate Plain(c: string) {
    c != "" && c != "." && c != ".." && '/' !in c
  }

  /** Plain components are all kept, in order. */
  lemma {:induction false} NormCompsPlain(comps: seq<string>, rooted: bool)
    requires forall i :: 0 <= i < |comps| ==> Plain(comps[i])
    ensures NormComps(comps, rooted) == comps
  {
    if comps != [] {
      NormCompsPlain(comps[..|comps| - 1], rooted);
      assert comps[..|comps| - 1] + [comps[|comps| - 1]] == comps;
    }
  }

  /** Empty components (from repeated or trailing slashes) are dropped. */
  lemma {:induction false} NormCompsEmpty(comps: seq<string>, rooted: bool)
    ensures NormComps(comps + [""], rooted) == NormComps(comps, rooted)
  {
    assert (comps + [""])[..|comps|] == comps;
  }

  /** How many slashes `os.path.normpath` keeps in front: two exactly, else one if any. */
  function InitialSlashes(p: string): nat {
    if |p| >= 2 && p[0] == '/' && p[1] == '/' && !(|p| >= 3 && p[2] == '/') then 2
    else if p != [] && p[0] == '/' then 1
    else 0
  }

  /** `os.path.normpath(p)`: drops empty and "." components, and resolves ".." where it can. */
  function NormPath(p: string): (r: string)
    ensures r != []
  {
    if p == [] then "."
    else
      var n := InitialSlashes(p);
      var joined := Join(NormComps(Split(p, '/'), n > 0), '/');
      var r := (if n == 2 then "//" else if n == 1 then "/" else "") + joined;
      if r == [] then "." else r
  }

  /** An absolute path of plain components normalises to itself, without its trailing slash. */
  lemma {:induction false} NormPathTrailingSlash(comps: seq<string>)
    requires |comps| >= 1 && forall i :: 0 <= i < |comps| ==> Plain(comps[i])
    ensures NormPath("/" + Join(comps, '/') + "/") == "/" + Join(comps, '/')
  {
    var parts := [""] + comps + [""];
    JoinPadded(comps);
    var p := "/" + Join(comps, '/') + "/";
    assert Join(parts, '/') == p;
    SplitJoin(parts, '/');
    assert InitialSlashes(p) == 1 by {
      assert comps[0] != "" && comps[0][0] != '/';
      JoinHead(comps);
      assert p[1] == comps[0][0];
    }
    assert parts == ([""] + comps) + [""];
    NormCompsEmpty([""] + comps, true);
    NormCompsLeadingEmpty(comps, true);
    NormCompsPlain(comps, true);
  }

  /** `os.path.abspath(p)`: a relative path is taken from the working directory `cwd`; then `normpath`. */
  function AbsPath(p: string, cwd: string): (r: string)
    ensures r != []
  {
    NormPath(if Absolute(p) then p else Join2(cwd, p))
  }

  /**
   * A plain name in a working directory of plain components becomes that directory's path with
   * the name appended.
   */
  lemma {:induction false} AbsPathOf(comps: seq<string>, name: string)
    requires |comps| >= 1 && forall i :: 0 <= i < |comps| ==> Plain(comps[i])
    requires Plain(name)
    ensures AbsPath(name, "/" + Join(comps, '/')) == "/" + Join(comps + [name], '/')
  {
    var cwd := "/" + Join(comps, '/');
    var all := comps + [name];
    assert !Absolute(name);
    JoinSnoc(comps, name, '/');
    assert cwd[|cwd| - 1] != '/' by {
      JoinLast(comps);
    }
    assert Join2(cwd, name) == "/" + Join(all, '/');
    NormPathRooted(all);
  }

  /** A rooted path of plain components is already normal. */
  lemma {:induction false} NormPathRooted(comps: seq<string>)
    requires |comps| >= 1 && forall i :: 0 <= i < |comps| ==> Plain(comps[i])
    ensures NormPath("/" + Join(comps, '/')) == "/" + Join(comps, '/')
  {
    var p := "/" + Join(comps, '/');
    JoinHead(comps);
    var parts := [""] + comps;
    assert Join(parts, '/') == p by {
      assert parts[1..] == comps;
    }
    SplitJoin(parts, '/');
    assert InitialSlashes(p) == 1 by {
      assert p[1] == comps[0][0];
    }
    NormCompsLeadingEmpty(comps, true);
    NormCompsPlain(comps, true);
  }

  /** The last character of a join is that of its last part, when that part is not empty. */
  lemma {:induction false} JoinLast(comps: seq<string>)
    requires |comps| >= 1 && forall i :: 0 <= i < |comps| ==> Plain(comps[i])
    ensures Join(comps, '/') != [] && Join(comps, '/')[|Join(comps, '/')| - 1] != '/'
  {
    if |comps| > 1 {
      JoinLast(comps[1..]);
    }
  }

  /** A leading empty component (from the root slash) is dropped. */
  lemma {:induction false} NormCompsLeadingEmpty(comps: seq<string>, rooted: bool)
    ensures NormComps([""] + comps, rooted) == NormComps(comps, rooted)
  {
    if comps != [] {
      var init := comps[..|comps| - 1];
      assert ([""] + comps)[..|comps|] == [""] + init;
      NormCompsLeadingEmpty(init, rooted);
    } else {
      assert [""][..0] == [];
    }
  }

  /** The first character of a join is that of its first part, when that part is not empty. */
  lemma {:induction false} JoinHead(comps: seq<string>)
    requires |comps| >= 1 && comps[0] != ""
    ensures Join(comps, '/') != [] && Join(comps, '/')[0] == comps[0][0]
  {
  }

  /** Padding the parts with empty ones adds a separator at each end. */
  lemma {:induction false} JoinPadded(comps: seq<string>)
    requires |comps| >= 1
    ensures Join([""] + comps + [""], '/') == "/" + Join(comps, '/') + "/"
  {
    var parts := [""] + (comps + [""]);
    assert [""] + comps + [""] == parts;
    assert parts[1..] == comps + [""];
    assert Join(parts, '/') == "" + ['/'] + Join(comps + [""], '/');
    JoinSnoc(comps, "", '/');
  }

  /** Joining one more part at the end adds a separator and that part. */
  lemma {:induction false} JoinSnoc(parts: seq<string>, last: string, sep: char)
    requires |parts| >= 1
    ensures Join(parts + [last], sep) == Join(parts, sep) + [sep] + last
  {
    var ps := parts + [last];
    if |parts| == 1 {
      assert ps[1..] == [last];
    } else {
      assert ps[1..] == parts[1..] + [last];
      JoinSnoc(parts[1..], last, sep);
      assert Join(ps, sep) == parts[0] + [sep] + Join(parts[1..] + [last], sep);
    }
  }

  /** A name joined under a directory splits back into that directory and that name. */
  lemma {:induction false} JoinSplits(dir: string, name: string)
    requires dir != [] && dir[|dir| - 1] != '/' && '/' !in name
    ensures Join2(dir, name) == dir + "/" + name
    ensures Basename(dir + "/" + name) == name
    ensures Dirname(dir + "/" + name) == dir
  {
    var p := dir + "/" + name;
    assert !Absolute(name) by {
      if name != [] { assert name[0] != '/'; }
    }
    assert !EndsWith(dir, "/");
    RFindIs(p, '/', |dir|);
    assert p[|dir| + 1..] == name;
    var head := p[..|dir| + 1];
    assert head == dir + "/";
    assert head[|dir| - 1] != '/';
    assert SkipRun(head, 0, '/') <= |dir| - 1;
    assert head[..|head| - 1] == dir;
    assert StripTrailingSlashes(head) == StripTrailingSlashes(dir) == dir;
  }

  /**
   * `os.path.splitext(p)`: the extension starts at the last '.', provided that dot lies in
   * the last path component and is preceded there by some character other than '.'.
   */
  function SplitExt(p: string): (r: (string, string))
    ensures r.0 + r.1 == p
    ensures r.1 == "" || r.1[0] == '.'
    ensures forall j :: 0 <= j < |r.1| ==> r.1[j] != '/'
    ensures forall j :: 1 <= j < |r.1| ==> r.1[j] != '.'
  {
    var sep := RFind(p, '/');
    var dot := RFind(p, '.');
    if dot > sep && SkipRun(p, sep + 1, '.') < dot then
      (p[..dot], p[dot..])
    else (p, "")
  }

  /** `os.path.splitext(p)[0]`. */
  function StripExt(p: string): string {
    SplitExt(p).0
  }

  /** Where the last component has a dot after a character other than '.', splitext splits there. */
  lemma {:induction false} SplitExtAt(p: string, dot: nat)
    requires 0 < dot < |p| && p[dot] == '.' && p[dot - 1] != '.' && p[dot - 1] != '/'
    requires forall k :: dot < k < |p| ==> p[k] != '.' && p[k] != '/'
    ensures SplitExt(p) == (p[..dot], p[dot..])
  {
    RFindIs(p, '.', dot);
    var sep := RFind(p, '/');
    assert sep < dot - 1;
    assert SkipRun(p, sep + 1, '.') <= dot - 1;
  }

  /** A path without a dot has no extension. */
  lemma {:induction false} SplitExtNoDot(p: string)
    requires forall k :: 0 <= k < |p| ==> p[k] != '.'
    ensures SplitExt(p) == (p, "")
  {
    RFindIs(p, '.', -1);
  }
}

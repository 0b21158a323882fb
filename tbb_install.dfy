/**
 * tbb-install: install or update the Tor Browser Bundle on a Mac. It compares the version on
 * the web site with the one recorded in the installation's VERSION file, downloads and checks
 * the bundle, unpacks it, moves the old installation aside and records the new version.
 */
module TbbInstall {
  import opened Wrappers
  import opened Strings
  import opened Paths

  // ------------------------------------------------------------------
  // distutils.version.StrictVersion

  /** A pre-release tag: "a" or "b" followed by a number. */
  datatype Pre = Alpha(n: nat) | Beta(n: nat)

  /** A parsed StrictVersion; a version written without a patch number has patch 0. */
  datatype Version = Version(major: nat, minor: nat, patch: nat, pre: Option<Pre>)

  /** A non-empty run of decimal digits (`\d+`). */
  predicate Numeral(s: string) {
    s != [] && AllDigits(s)
  }

  predicate PreLetter(c: char) {
    c == 'a' || c == 'b'
  }

  /** The first index at or after `i` holding 'a' or 'b' (or `|s|`). */
  function PreStart(s: string, i: nat): (k: nat)
    requires i <= |s|
    ensures i <= k <= |s| && (k < |s| ==> PreLetter(s[k]))
    ensures forall j :: i <= j < k ==> !PreLetter(s[j])
    decreases |s| - i
  {
    if i == |s| || PreLetter(s[i]) then i else PreStart(s, i + 1)
  }

  lemma {:induction false} PreStartIs(s: string, i: nat, k: nat)
    requires i <= k <= |s| && (k < |s| ==> PreLetter(s[k]))
    requires forall j :: i <= j < k ==> !PreLetter(s[j])
    ensures PreStart(s, i) == k
    decreases k - i
  {
    if i < k {
      PreStartIs(s, i + 1, k);
    }
  }

  /** The release numbers of a version string: two or three numerals separated by '.'. */
  predicate ReleaseNumbers(nums: seq<string>) {
    (|nums| == 2 || |nums| == 3) && forall i :: 0 <= i < |nums| ==> Numeral(nums[i])
  }

  /**
   * `StrictVersion(s)`: matches `^(\d+)\.(\d+)(\.(\d+))?([ab](\d+))?$`. Like any Python `$`,
   * the end may also sit just before a final newline. None stands for the `ValueError`.
   */
  function ParseVersion(s: string): (r: Option<Version>)
    ensures r.Some? ==> '.' in s
  {
    var body := if s != [] && s[|s| - 1] == '\n' then s[..|s| - 1] else s;
    var r := ParseBody(body);
    assert r.Some? ==> '.' in body;
    assert forall c :: c in body ==> c in s;
    r
  }

  /** The match against the pattern proper, once a final newline is set aside. */
  function ParseBody(body: string): (r: Option<Version>)
    ensures r.Some? ==> '.' in body
  {
    var k := PreStart(body, 0);
    var nums := Split(body[..k], '.');
    var tail := body[k..];
    if !ReleaseNumbers(nums) || (tail != [] && !Numeral(tail[1..])) then None
    else
      assert body[..k] == Join(nums, '.');
      assert nums[0] + ['.'] <= body[..k];
      assert body[..k][|nums[0]|] == '.';
      var pre := if tail == [] then None
        else if tail[0] == 'a' then Some(Alpha(DigitsValue(tail[1..])))
        else Some(Beta(DigitsValue(tail[1..])));
      Some(Version(DigitsValue(nums[0]), DigitsValue(nums[1]),
        if |nums| == 3 then DigitsValue(nums[2]) else 0, pre))
  }

  function PreString(p: Option<Pre>): string {
    match p
    case None => ""
    case Some(Alpha(n)) => "a" + NatToString(n)
    case Some(Beta(n)) => "b" + NatToString(n)
  }

  /** The release part of `str(v)`: a zero patch number is left out. */
  function ReleaseParts(v: Version): seq<string> {
    if v.patch == 0 then [NatToString(v.major), NatToString(v.minor)]
    else [NatToString(v.major), NatToString(v.minor), NatToString(v.patch)]
  }

  /** `str(v)`. */
  function VersionString(v: Version): string {
    Join(ReleaseParts(v), '.') + PreString(v.pre)
  }

  lemma {:induction false} DigitsWithout(s: string, c: char)
    requires AllDigits(s) && !IsDigit(c)
    ensures c !in s
  {
  }

  /** The release part prints with no letter, and splits back into its numerals. */
  lemma {:induction false} ReleaseJoin(v: Version)
    ensures ReleaseNumbers(ReleaseParts(v))
    ensures 'a' !in Join(ReleaseParts(v), '.') && 'b' !in Join(ReleaseParts(v), '.')
    ensures '\n' !in Join(ReleaseParts(v), '.')
    ensures Split(Join(ReleaseParts(v), '.'), '.') == ReleaseParts(v)
  {
    var parts := ReleaseParts(v);
    forall i | 0 <= i < |parts|
      ensures 'a' !in parts[i] && 'b' !in parts[i] && '\n' !in parts[i] && '.' !in parts[i]
    {
      DigitsWithout(parts[i], 'a');
      DigitsWithout(parts[i], 'b');
      DigitsWithout(parts[i], '\n');
      DigitsWithout(parts[i], '.');
    }
    JoinWithout(parts, '.', 'a');
    JoinWithout(parts, '.', 'b');
    JoinWithout(parts, '.', '\n');
    SplitJoin(parts, '.');
  }

  /**
   * `version()` reads back as `v` what `set_version(v)` writes (`str(v)` and a newline), and so
   * does `StrictVersion(str(v))`.
   */
  lemma {:induction false} ParseVersionString(v: Version)
    ensures ParseVersion(VersionString(v) + "\n") == Some(v)
    ensures ParseVersion(VersionString(v)) == Some(v)
  {
    var body := VersionString(v);
    var s := body + "\n";
    assert s[..|s| - 1] == body;
    ParseBodyString(v);
    VersionStringLast(v);
  }

  /** `str(v)` does not end in a newline. */
  lemma {:induction false} VersionStringLast(v: Version)
    ensures VersionString(v) == [] || VersionString(v)[|VersionString(v)| - 1] != '\n'
  {
    var rel := Join(ReleaseParts(v), '.');
    var tail := PreString(v.pre);
    ReleaseJoin(v);
    match v.pre {
      case None =>
        assert VersionString(v) == rel;
        NewlineNotLast(rel);
      case Some(p) =>
        var body := VersionString(v);
        assert body == rel + tail;
        assert tail[1..] == NatToString(p.n);
        assert body[|body| - 1] == tail[|tail| - 1];
        assert tail[|tail| - 1] == NatToString(p.n)[|tail| - 2];
    }
  }

  /** The pattern proper matches `str(v)` and gives back `v`. */
  lemma {:induction false} ParseBodyString(v: Version)
    ensures ParseBody(VersionString(v)) == Some(v)
  {
    var body := VersionString(v);
    var rel := Join(ReleaseParts(v), '.');
    var tail := PreString(v.pre);
    assert body == rel + tail;
    ReleaseJoin(v);
    forall j | 0 <= j < |rel| ensures !PreLetter(body[j]) {
      assert body[j] == rel[j];
      assert rel[j] in rel;
    }
    PreStartIs(body, 0, |rel|);
    assert body[..|rel|] == rel;
    assert body[|rel|..] == tail;
    DigitsValueOfNatToString(v.major);
    DigitsValueOfNatToString(v.minor);
    DigitsValueOfNatToString(v.patch);
    match v.pre {
      case None =>
      case Some(p) =>
        assert tail[1..] == NatToString(p.n);
        DigitsValueOfNatToString(p.n);
    }
  }

  lemma {:induction false} NewlineNotLast(s: string)
    requires '\n' !in s
    ensures s == [] || s[|s| - 1] != '\n'
  {
    if s != [] { assert s[|s| - 1] in s; }
  }

  /** Python 2's `cmp` on numbers. */
  function Cmp(x: int, y: int): int {
    if x < y then -1 else if x > y then 1 else 0
  }

  /** `cmp` of the release tuples (major, minor, patch). */
  function CmpRelease(a: Version, b: Version): int {
    if a.major != b.major then Cmp(a.major, b.major)
    else if a.minor != b.minor then Cmp(a.minor, b.minor)
    else Cmp(a.patch, b.patch)
  }

  /** `cmp` of the pre-release tuples ('a', n) and ('b', n): the letter first, then the number. */
  function CmpPre(p: Pre, q: Pre): int {
    if p.Alpha? && q.Beta? then -1
    else if p.Beta? && q.Alpha? then 1
    else Cmp(p.n, q.n)
  }

  /** `StrictVersion.__cmp__`: releases first; a pre-release sorts before its release. */
  function Compare(a: Version, b: Version): (c: int)
    ensures -1 <= c <= 1
  {
    var c := CmpRelease(a, b);
    if c != 0 then c
    else match (a.pre, b.pre)
      case (None, None) => 0
      case (Some(_), None) => -1
      case (None, Some(_)) => 1
      case (Some(p), Some(q)) => CmpPre(p, q)
  }

  /** Swapping the operands flips the sign. */
  lemma {:induction false} CompareAntisymmetric(a: Version, b: Version)
    ensures Compare(a, b) == -Compare(b, a)
  {
  }

  /** Two versions compare equal exactly when they are the same version. */
  lemma {:induction false} CompareZero(a: Version, b: Version)
    ensures Compare(a, b) == 0 <==> a == b
  {
    if Compare(a, b) == 0 {
      assert a.major == b.major && a.minor == b.minor && a.patch == b.patch;
      match (a.pre, b.pre)
      case (None, None) =>
      case (Some(p), Some(q)) => assert p == q;
      case (Some(_), None) =>
      case (None, Some(_)) =>
    }
  }

  /** "Newer than" is transitive. */
  lemma {:induction false} CompareTransitive(a: Version, b: Version, c: Version)
    requires Compare(a, b) > 0 && Compare(b, c) > 0
    ensures Compare(a, c) > 0
  {
  }

  /** A pre-release is older than the release with the same numbers. */
  lemma {:induction false} PreReleaseOlder(v: Version, p: Pre)
    ensures Compare(v.(pre := Some(p)), v.(pre := None)) < 0
  {
  }

  // ------------------------------------------------------------------
  // SystemConfiguration

  /** The platform parameters the tool needs. */
  datatype Params = Params(path: string, unpackedBundle: string)

  /** The application bundle's name, as unpacked and as installed under /Applications. */
  const BundleName := "TorBrowserBundle_en-US.app"

  const DarwinParams := Params("/Applications/" + BundleName + "/", BundleName)

  /**
   * `SystemConfiguration(platform)`: the parameters of `platform`, or of the running platform
   * when none is given; only "darwin" has any.
   */
  function Configure(platform: string, sysPlatform: string): (r: Result<Params>)
    ensures r.Ok? <==> (if platform != "" then platform else sysPlatform) == "darwin"
    ensures r.Ok? ==> r.value == DarwinParams
    ensures r.Err? ==> r.msg == "KeyError"
  {
    var name := if platform != "" then platform else sysPlatform;
    if name == "darwin" then Ok(DarwinParams) else Err("KeyError")
  }

  // ------------------------------------------------------------------
  // TBBInstallation

  /** The VERSION file of the installation at `path`. */
  function VersionFile(path: string): string {
    Join2(path, "VERSION")
  }

  /**
   * What `version()` gives for the installation at `path`: no version (None), a `StrictVersion`
   * left unparsed, or a parsed one.
   */
  datatype VersionRead = NoVersion | Unparsed | Read(version: Version)

  /**
   * `version()` of the installation at `path`, with `files` mapping each existing file to its
   * contents (None when it cannot be read): no version when the file is missing, unreadable or
   * does not hold a valid version. An empty file is not rejected: `StrictVersion("")` skips
   * parsing altogether and yields an object without a version number.
   */
  function VersionAt(path: string, files: map<string, Option<string>>): (r: VersionRead)
    ensures r.Unparsed? <==> VersionFile(path) in files && files[VersionFile(path)] == Some("")
    ensures r.Read? <==> (VersionFile(path) in files && files[VersionFile(path)].Some? &&
                          ParseVersion(files[VersionFile(path)].value).Some?)
    ensures r.Read? ==> Some(r.version) == ParseVersion(files[VersionFile(path)].value)
  {
    var f := VersionFile(path);
    if f !in files then NoVersion
    else if files[f].None? then NoVersion
    else if files[f].value == "" then Unparsed
    else
      match ParseVersion(files[f].value)
      case None => NoVersion
      case Some(v) => Read(v)
  }

  /** The file system after `set_version(v)` on the installation at `path`: one line, `str(v)`. */
  function SetVersionAt(path: string, files: map<string, Option<string>>, v: Version)
    : map<string, Option<string>>
  {
    files[VersionFile(path) := Some(VersionString(v) + "\n")]
  }

  /** After `set_version(v)`, `version()` gives `v`, and no other file changes. */
  lemma {:induction false} VersionAfterSetVersion(path: string, files: map<string, Option<string>>, v: Version)
    ensures VersionAt(path, SetVersionAt(path, files, v)) == Read(v)
    ensures forall f :: f in files && f != VersionFile(path) ==>
      f in SetVersionAt(path, files, v) && SetVersionAt(path, files, v)[f] == files[f]
  {
    ParseVersionString(v);
  }

  /** The local installation; `move_aside` changes where it is. */
  class Installation {
    var path: string

    /** `TBBInstallation(install_path)`: the given path, or the platform's default. */
    constructor (installPath: string, params: Params)
      ensures path == if installPath != "" then installPath else params.path
    {
      path := if installPath != "" then installPath else params.path;
    }

    /** `version()` of this installation. */
    function InstalledVersion(files: map<string, Option<string>>): VersionRead
      reads this
    {
      VersionAt(path, files)
    }

    /**
     * `move_aside()`: `sudo mv` to the normalised path with ".OLD" appended, `rc` being the exit
     * status of `mv`. A nonzero status raises `CalledProcessError` and leaves `path` as it was.
     */
    method MoveAside(rc: int) returns (r: Result<string>)
      modifies this
      ensures r.Ok? <==> rc == 0
      ensures r.Ok? ==> r.value == NormPath(old(path)) + ".OLD" && path == r.value
      ensures r.Err? ==> r.msg == "CalledProcessError" && path == old(path)
    {
      var newPath := NormPath(path) + ".OLD";
      if rc != 0 {
        return Err("CalledProcessError");
      }
      path := newPath;
      return Ok(newPath);
    }
  }

  /** The default installation is moved aside to its path without the trailing slash, plus ".OLD". */
  lemma {:induction false} DefaultMovedAside()
    ensures NormPath(DarwinParams.path) + ".OLD" == "/Applications/" + BundleName + ".OLD"
  {
    assert Plain(BundleName) by {
      assert forall i :: 0 <= i < |BundleName| ==> BundleName[i] != '/';
    }
    MovedAsideUnder(BundleName);
  }

  /** A bundle directly under /Applications, given with a trailing slash, is moved aside beside itself. */
  lemma {:induction false} MovedAsideUnder(name: string)
    requires Plain(name)
    ensures NormPath("/Applications/" + name + "/") + ".OLD" == "/Applications/" + name + ".OLD"
  {
    var comps := ["Applications", name];
    assert Plain("Applications");
    AppsJoin(name);
    NormPathTrailingSlash(comps);
    AppsPath(name);
  }

  lemma {:induction false} AppsJoin(name: string)
    ensures Join(["Applications", name], '/') == "Applications/" + name
  {
    assert ["Applications", name][1..] == [name];
  }

  lemma {:induction false} AppsPath(name: string)
    ensures "/" + ("Applications/" + name) == "/Applications/" + name
    ensures "/" + ("Applications/" + name) + "/" == "/Applications/" + name + "/"
  {
    assert "/" + "Applications/" == "/Applications/";
  }

  // ------------------------------------------------------------------
  // TBBInstaller

  datatype Unpacker = Unzip | Untar

  /** `unpack_bundle`'s choice of tool by file extension; any other raises `NotImplementedError`. */
  function UnpackerFor(bundle: string): (r: Result<Unpacker>)
    ensures r == Ok(Unzip) <==> EndsWith(bundle, ".zip")
    ensures r == Ok(Untar) <==> !EndsWith(bundle, ".zip") && EndsWith(bundle, ".tar.gz")
    ensures r.Err? ==> r.msg == "NotImplementedError"
  {
    if EndsWith(bundle, ".zip") then Ok(Unzip)
    else if EndsWith(bundle, ".tar.gz") then Ok(Untar)
    else Err("NotImplementedError")
  }

  /** The bundle names the web site offers are unzipped; other archive names are refused. */
  lemma {:induction false} UnpackerExamples()
    ensures UnpackerFor("TorBrowserBundle-3.5-osx32_en-US.zip") == Ok(Unzip)
    ensures UnpackerFor("tor-browser-linux64-3.5_en-US.tar.gz") == Ok(Untar)
    ensures UnpackerFor("TorBrowser-3.5-osx32_en-US.dmg").Err?
  {
    var t := "tor-browser-linux64-3.5_en-US.tar.gz";
    assert t[|t| - 4..] != ".zip" by { assert t[|t| - 1] != 'p'; }
    var d := "TorBrowser-3.5-osx32_en-US.dmg";
    assert d[|d| - 4..] != ".zip" by { assert d[|d| - 1] != 'p'; }
    assert d[|d| - 7..] != ".tar.gz" by { assert d[|d| - 1] != 'z'; }
  }

  /**
   * `unpack_bundle(bundle)`, the unpacking itself left to the tool: which tool, and the
   * unpacked directory, which must exist afterwards (`unpackedExists`) or `RuntimeError` is raised.
   */
  function UnpackBundle(params: Params, bundle: string, unpackedExists: bool): (r: Result<(Unpacker, string)>)
    ensures r.Ok? <==> UnpackerFor(bundle).Ok? && unpackedExists
    ensures r.Ok? ==> r.value == (UnpackerFor(bundle).value, params.unpackedBundle)
    ensures UnpackerFor(bundle).Ok? && !unpackedExists ==> r == Err("RuntimeError")
  {
    var u := UnpackerFor(bundle);
    if u.Err? then Err(u.msg)
    else if !unpackedExists then Err("RuntimeError")
    else Ok((u.value, params.unpackedBundle))
  }

  /** The sum of the sizes. */
  function Sum(sizes: seq<nat>): nat {
    if sizes == [] then 0 else Sum(sizes[..|sizes| - 1]) + sizes[|sizes| - 1]
  }

  /** A longer prefix never sums to less. */
  lemma {:induction false} SumPrefixMonotone(sizes: seq<nat>, i: nat, j: nat)
    requires i <= j <= |sizes|
    ensures Sum(sizes[..i]) <= Sum(sizes[..j])
    decreases j - i
  {
    if i < j {
      SumPrefixMonotone(sizes, i, j - 1);
      assert sizes[..j][..j - 1] == sizes[..j - 1];
    }
  }

  /**
   * `unzip_bundle`: the uncompressed size of the archive's members (`sizes`, in archive
   * order), the size extracted at the end, and the progress the bar is updated with after
   * each member.
   */
  method UnzipBundle(sizes: seq<nat>) returns (uncompressed: nat, extracted: nat, updates: seq<nat>)
    ensures uncompressed == Sum(sizes) && extracted == uncompressed
    ensures |updates| == |sizes| && forall i :: 0 <= i < |sizes| ==> updates[i] == Sum(sizes[..i + 1])
    ensures forall i, j :: 0 <= i <= j < |updates| ==> updates[i] <= updates[j] <= uncompressed
  {
    uncompressed := 0;
    var k := 0;
    while k < |sizes|
      invariant k <= |sizes| && uncompressed == Sum(sizes[..k])
    {
      assert sizes[..k + 1][..k] == sizes[..k];
      uncompressed := uncompressed + sizes[k];
      k := k + 1;
    }
    assert sizes[..k] == sizes;
    extracted := 0;
    updates := [];
    var i := 0;
    while i < |sizes|
      invariant i <= |sizes| && extracted == Sum(sizes[..i])
      invariant |updates| == i && forall m :: 0 <= m < i ==> updates[m] == Sum(sizes[..m + 1])
    {
      assert sizes[..i + 1][..i] == sizes[..i];
      extracted := extracted + sizes[i];
      updates := updates + [extracted];
      i := i + 1;
    }
    assert sizes[..i] == sizes;
    forall m, n | 0 <= m <= n < |updates|
      ensures updates[m] <= updates[n] <= uncompressed
    {
      SumPrefixMonotone(sizes, m + 1, n + 1);
      SumPrefixMonotone(sizes, n + 1, |sizes|);
    }
  }

  /**
   * `install_bundle(bundle)` into the default location: unpack, move any existing installation
   * aside (`asideRc`), then `sudo mv` the unpacked bundle into place (`moveRc`). Returns the
   * new installation's path and where the old one went.
   */
  method InstallBundle(params: Params, bundle: string, unpackedExists: bool, installed: bool,
                       asideRc: int, moveRc: int)
    returns (r: Result<string>, aside: Option<string>)
    ensures r.Ok? <==> (UnpackBundle(params, bundle, unpackedExists).Ok? &&
                        (!installed || asideRc == 0) && moveRc == 0)
    ensures r.Ok? ==> r.value == params.path
    ensures aside.Some? <==> UnpackBundle(params, bundle, unpackedExists).Ok? && installed && asideRc == 0
    ensures aside.Some? ==> aside.value == NormPath(params.path) + ".OLD"
  {
    aside := None;
    var unpacked := UnpackBundle(params, bundle, unpackedExists);
    if unpacked.Err? {
      return Err(unpacked.msg), aside;
    }
    var install := new Installation("", params);
    if installed {
      var moved := install.MoveAside(asideRc);
      if moved.Err? {
        return Err(moved.msg), aside;
      }
      aside := Some(moved.value);
      install := new Installation("", params);
    }
    if moveRc != 0 {
      return Err("CalledProcessError"), aside;
    }
    var installation := new Installation("", params);
    return Ok(installation.path), aside;
  }

  // ------------------------------------------------------------------
  // TBBInstallApp

  datatype Flags = Flags(debug: bool, force: bool, quiet: bool)

  /** `check_params`: debug and quiet together raise `RuntimeError`. */
  function CheckParams(flags: Flags): (r: Result<()>)
    ensures r.Err? <==> flags.debug && flags.quiet
  {
    if flags.debug && flags.quiet then Err("RuntimeError") else Ok(())
  }

  datatype Decision = UpToDate | Install

  /**
   * Whether `main` installs: an existing installation of known version that the latest does not
   * beat is left alone, unless forced.
   */
  function Decide(found: bool, installed: Option<Version>, latest: Version, force: bool): Decision {
    if found && installed.Some? && !(Compare(latest, installed.value) > 0) && !force then UpToDate
    else Install
  }

  /** The installed version is kept exactly when it is as new as the latest and not forced. */
  lemma {:induction false} DecideUpToDate(installed: Version, latest: Version, force: bool)
    ensures Decide(true, Some(installed), latest, force) == UpToDate <==>
      !force && (latest == installed || Compare(installed, latest) > 0)
  {
    CompareAntisymmetric(latest, installed);
    CompareZero(latest, installed);
  }

  /** Without a version to compare with, the bundle is always installed. */
  lemma {:induction false} DecideUnknownInstalls(found: bool, latest: Version, force: bool)
    ensures Decide(found, None, latest, force) == Install
    ensures Decide(false, Some(latest), latest, force) == Install
  {
  }

  /** The signature is fetched from the bundle's URL with ".asc" appended. */
  function SignatureUrl(url: string): (r: string)
    ensures |r| == |url| + 4 && r[..|url|] == url && r[|url|..] == ".asc"
  {
    url + ".asc"
  }

  /** `download_file`'s local name: `url.split('/')[-1]` inside the temporary directory. */
  function DownloadName(url: string): (r: string)
    ensures '/' !in r
  {
    var parts := Split(url, '/');
    parts[|parts| - 1]
  }

  /** The last piece of the split is the URL's basename. */
  lemma {:induction false} DownloadNameIsBasename(url: string)
    ensures DownloadName(url) == Basename(url)
  {
    var parts := Split(url, '/');
    var last := parts[|parts| - 1];
    if |parts| == 1 {
      assert url == last;
      RFindIs(url, '/', -1);
      assert url[0..] == url;
    } else {
      var init := parts[..|parts| - 1];
      assert parts == init + [last];
      JoinSnoc(init, last, '/');
      var head := Join(init, '/');
      assert url == head + ['/'] + last;
      RFindIs(url, '/', |head|);
      assert url[|head| + 1..] == last;
    }
  }

  /** The world `main` runs in: what the tools report and what exists on disk. */
  datatype Env = Env(
    sysPlatform: string,
    gpgFound: bool,             // whether `gpg` or `gpg2` is on the PATH
    keyRc: int,                 // exit status of `gpg --list-keys` for the signing key
    bundleUrl: string,          // the bundle link found on the web site
    latest: Version,            // the version in that link
    tmp: string,                // the temporary download directory
    present: set<string>,       // paths that exist
    files: map<string, Option<string>>,
    signatureRc: int,           // exit status of `gpg --verify`
    unpackedExists: bool,
    asideRc: int,
    moveRc: int)

  datatype Outcome = Current(version: Version) | Installed(path: string)

  /** `check_params`, `check_gpg` and the platform lookup all pass. */
  predicate ChecksPass(flags: Flags, env: Env) {
    CheckParams(flags).Ok? && env.gpgFound && env.keyRc == 0 && Configure("", env.sysPlatform).Ok?
  }

  /** The parsed version, if any. */
  function Parsed(read: VersionRead): Option<Version> {
    if read.Read? then Some(read.version) else None
  }

  /** The default installation exists and its VERSION file is empty. */
  predicate BlankVersion(env: Env) {
    DarwinParams.path in env.present && VersionAt(DarwinParams.path, env.files).Unparsed?
  }

  /** The decision `main` takes about the default installation. */
  function MainDecision(flags: Flags, env: Env): Decision {
    var found := DarwinParams.path in env.present;
    Decide(found, if found then Parsed(VersionAt(DarwinParams.path, env.files)) else None, env.latest, flags.force)
  }

  /** Where the bundle is downloaded to. */
  function BundlePath(env: Env): string {
    Join2(env.tmp, DownloadName(env.bundleUrl))
  }

  /**
   * `main`: the checks, the decision, the download and the install. Returns the outcome and
   * the files afterwards (the new VERSION file).
   */
  method Run(flags: Flags, env: Env) returns (r: Result<Outcome>, files: map<string, Option<string>>)
    ensures CheckParams(flags).Err? ==> r == Err("RuntimeError")
    ensures CheckParams(flags).Ok? && !env.gpgFound ==> r == Err("RuntimeError")
    ensures r.Ok? ==> ChecksPass(flags, env) && !BlankVersion(env)
    ensures ChecksPass(flags, env) && BlankVersion(env) ==> r == Err("AttributeError")
    ensures ChecksPass(flags, env) && !BlankVersion(env) && MainDecision(flags, env) == UpToDate ==>
      r.Ok? && r.value.Current? && VersionAt(DarwinParams.path, env.files) == Read(r.value.version)
    ensures ChecksPass(flags, env) && !BlankVersion(env) && MainDecision(flags, env) == Install ==>
      (r.Ok? <==> (env.signatureRc == 0 &&
                   UnpackBundle(DarwinParams, BundlePath(env), env.unpackedExists).Ok? &&
                   (DarwinParams.path !in env.present || env.asideRc == 0) && env.moveRc == 0))
    ensures r.Ok? && r.value.Installed? ==>
      MainDecision(flags, env) == Install && r.value.path == DarwinParams.path &&
      VersionAt(r.value.path, files) == Read(env.latest)
    ensures r.Err? ==> files == env.files
  {
    files := env.files;
    var checked := CheckParams(flags);
    if checked.Err? {
      return Err(checked.msg), files;
    }
    if !env.gpgFound {
      return Err("RuntimeError"), files;
    }
    if env.keyRc != 0 {
      return Err("ErrorReturnCode"), files;
    }
    var config := Configure("", env.sysPlatform);
    if config.Err? {
      return Err(config.msg), files;
    }
    var params := config.value;
    var installation := new Installation("", params);
    var found := installation.path in env.present;
    var read := if found then installation.InstalledVersion(env.files) else NoVersion;
    if read.Unparsed? {
      // formatting the unparsed version for the debug message fails
      return Err("AttributeError"), files;
    }
    var installed := Parsed(read);
    if Decide(found, installed, env.latest, flags.force) == UpToDate {
      return Ok(Current(installed.value)), files;
    }
    var bundlePath := BundlePath(env);
    var signaturePath := Join2(env.tmp, DownloadName(SignatureUrl(env.bundleUrl)));
    if env.signatureRc != 0 {
      return Err("ErrorReturnCode"), files;
    }
    var newPath, aside := InstallBundle(params, bundlePath, env.unpackedExists,
      params.path in env.present, env.asideRc, env.moveRc);
    if newPath.Err? {
      return Err(newPath.msg), files;
    }
    var newInstallation := new Installation("", params);
    files := SetVersionAt(newInstallation.path, files, env.latest);
    VersionAfterSetVersion(newInstallation.path, env.files, env.latest);
    return Ok(Installed(newInstallation.path)), files;
  }
}

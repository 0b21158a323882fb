/**
 * backup: back up each configured source directory to the first configured target volume that
 * exists, with one rsync run per source. The configuration file is given already read; the file
 * system is the set of paths that exist when the run starts; rsync is an oracle giving the exit
 * status of each argument vector.
 */
module Backup {
  import opened Wrappers
  import opened Strings
  import opened Paths
  import ConfigParser

  /**
   * What `main` takes from `backup.conf`: the [Options] ExcludesFile value (None when the section
   * or the option is missing), and the values of the [Target] and [Sources] sections in the order
   * `items` gives them (None when the section is missing).
   */
  datatype Config = Config(excludes: Option<string>, targets: Option<seq<string>>, sources: Option<seq<string>>)

  /** What the program does to the world, in order. */
  datatype Action =
    | MoveLog(from: string, to: string)
    | MakeDirs(path: string)
    | Rsync(argv: seq<string>)

  /** Everything one run depends on besides the configuration. */
  datatype Env = Env(quiet: bool, fs: set<string>, homes: map<string, string>, rsync: seq<string> -> int)

  // ------------------------------------------------------------------
  // The target volume

  /** The first of `targets` that exists, if any. */
  function FirstExisting(targets: seq<string>, fs: set<string>): (r: Option<string>)
    ensures r.None? <==> forall i :: 0 <= i < |targets| ==> targets[i] !in fs
    ensures r.Some? ==> exists i :: (0 <= i < |targets| && targets[i] == r.value &&
      r.value in fs && forall j :: 0 <= j < i ==> targets[j] !in fs)
  {
    if targets == [] then None
    else if targets[0] in fs then Some(targets[0])
    else
      var r := FirstExisting(targets[1..], fs);
      assert forall i :: 1 <= i < |targets| ==> targets[i] == targets[1..][i - 1];
      r
  }

  /**
   * The for/else search of the [Target] values: the first one that exists, or None, when the
   * `else` branch reports that no target volume was found.
   */
  method FindTarget(targets: seq<string>, fs: set<string>) returns (found: Option<string>)
    ensures found == FirstExisting(targets, fs)
  {
    for i := 0 to |targets|
      invariant FirstExisting(targets[i..], fs) == FirstExisting(targets, fs)
    {
      assert targets[i..][1..] == targets[i + 1..];
      if targets[i] in fs {
        return Some(targets[i]);
      }
    }
    return None;
  }

  // ------------------------------------------------------------------
  // One source

  /** Where a source is copied to: under the volume, at the source's directory made relative. */
  function TargetPath(volume: string, source: string): string {
    Join2(volume, StripLeadingSlashes(Dirname(source)))
  }

  /**
   * The target path lies under the volume: it is the volume, a '/' unless the volume already ends
   * in one, and the source's directory without its leading slashes.
   */
  lemma {:induction false} TargetPathUnder(volume: string, source: string)
    ensures var rel := StripLeadingSlashes(Dirname(source));
      TargetPath(volume, source) == if volume == [] || volume[|volume| - 1] == '/' then volume + rel else volume + "/" + rel
  {
    var rel := StripLeadingSlashes(Dirname(source));
    assert !Absolute(rel);
  }

  /** The rsync log, kept on the target volume. */
  function LogFile(volume: string): string {
    Join2(volume, "backup.log")
  }

  /** The rsync argument vector for one source, as the program assembles it. */
  function Argv(quiet: bool, excludes: Option<string>, log: string, source: string, target: string): seq<string> {
    ["rsync", "-auc"] + (if quiet then [] else ["-v"]) + ["--delete", "--delete-excluded"] +
    (if excludes.Some? then ["--exclude-from", excludes.value] else []) +
    ["--log-file=" + log, source, target]
  }

  /** The rsync argument vector for one source, built by successive appends. */
  method Arguments(quiet: bool, excludes: Option<string>, log: string, source: string, target: string)
    returns (arguments: seq<string>)
    ensures arguments == Argv(quiet, excludes, log, source, target)
  {
    arguments := ["rsync"];
    arguments := arguments + ["-auc"];
    if !quiet {
      arguments := arguments + ["-v"];
    }
    arguments := arguments + ["--delete"];
    arguments := arguments + ["--delete-excluded"];
    if excludes.Some? {
      arguments := arguments + ["--exclude-from"];
      arguments := arguments + [excludes.value];
    }
    arguments := arguments + ["--log-file=" + log];
    arguments := arguments + [source];
    arguments := arguments + [target];
  }

  /**
   * rsync is given the log option, the source and then the target as its last three arguments;
   * "-v" follows "-auc" exactly when not quiet, and the excludes file, when there is one, comes
   * right after "--exclude-from" and right before the log option.
   */
  lemma {:induction false} ArgvShape(quiet: bool, excludes: Option<string>, log: string, source: string, target: string)
    ensures var argv := Argv(quiet, excludes, log, source, target);
      |argv| == 7 + (if quiet then 0 else 1) + (if excludes.Some? then 2 else 0) &&
      argv[..2] == ["rsync", "-auc"] && (argv[2] == "-v" <==> !quiet) &&
      argv[|argv| - 3..] == ["--log-file=" + log, source, target] &&
      (excludes.Some? ==> argv[|argv| - 5..|argv| - 3] == ["--exclude-from", excludes.value]) &&
      (excludes.None? ==> argv[|argv| - 5..|argv| - 3] == ["--delete", "--delete-excluded"])
  {
  }

  /** The rsync argument vector for one existing source. */
  function SourceArgv(env: Env, volume: string, excludes: Option<string>, source: string): seq<string> {
    Argv(env.quiet, excludes, LogFile(volume), source, TargetPath(volume, source))
  }

  /** The directories `os.makedirs(p)` leaves behind: `p` and every directory above it. */
  function Created(p: string): set<string> {
    {p} + Above(p, |p|)
  }

  /** The directories named by the first `k` characters of `p` that are followed by a '/'. */
  function Above(p: string, k: nat): set<string>
    requires k <= |p|
  {
    if k <= 1 then {} else Above(p, k - 1) + (if p[k - 1] == '/' then {p[..k - 1]} else {})
  }

  /**
   * Where rsync puts the source directory itself, `target/basename(source)`: the target directory
   * the program would compute for a path directly inside the source.
   */
  function CopyRoot(volume: string, source: string): string {
    TargetPath(volume, source + "/")
  }

  /** Whether `p` is `source` or lies below it. */
  predicate Below(p: string, source: string) {
    p == source || source + "/" <= p
  }

  /** The copy rsync makes of `p`, a path at or below `source`. */
  function CopyOf(volume: string, source: string, p: string): string
    requires Below(p, source)
  {
    CopyRoot(volume, source) + p[|source|..]
  }

  /** What `rsync -a source target` adds: a copy of `source` and of every path below it. */
  function Copied(fs: set<string>, volume: string, source: string): set<string> {
    set p | p in fs && Below(p, source) :: CopyOf(volume, source, p)
  }

  /**
   * The file system after backing up one existing source: its target directory, if missing, is
   * made, and rsync copies the source's tree into it.
   */
  function AfterSource(fs: set<string>, volume: string, source: string): set<string> {
    var target := TargetPath(volume, source);
    (if target in fs then fs else fs + Created(target)) + Copied(fs, volume, source)
  }

  /**
   * Backing up only adds to the file system: the target directory then exists, and so does
   * the copy of each path at or below the source.
   */
  lemma {:induction false} AfterSourceGrows(fs: set<string>, volume: string, source: string)
    ensures fs <= AfterSource(fs, volume, source) && TargetPath(volume, source) in AfterSource(fs, volume, source)
    ensures forall p :: p in fs && Below(p, source) ==> CopyOf(volume, source, p) in AfterSource(fs, volume, source)
  {
    forall p | p in fs && Below(p, source) ensures CopyOf(volume, source, p) in Copied(fs, volume, source) {
    }
  }

  /** The target directory of a path directly inside `a` is where rsync puts `a`. */
  lemma {:induction false} ChildTarget(volume: string, a: string, name: string)
    requires '/' !in name
    ensures TargetPath(volume, a + "/" + name) == CopyRoot(volume, a)
  {
    var b := a + "/" + name;
    var c := a + "/";
    forall k | |a| < k < |b| ensures b[k] != '/' {
      assert b[k] == name[k - |a| - 1];
    }
    RFindIs(b, '/', |a|);
    RFindIs(c, '/', |a|);
    assert b[..|a| + 1] == c == c[..|a| + 1];
  }

  /**
   * A source directly inside an earlier one, such as /Users/u/Music after /Users/u: once the
   * earlier one is backed up, the later one's target directory is the earlier one's copy, which
   * `os.path.exists` then sees, so it is not made again.
   */
  lemma {:induction false} NestedSourceNotMade(env: Env, volume: string, a: string, name: string)
    requires '/' !in name && a in env.fs && a + "/" + name in env.fs && !HomeRelative(a)
    ensures var b := a + "/" + name;
      Loop(env, volume, None, [a, b]).actions ==
      SourceActions(env, env.fs, volume, None, a) + [Rsync(SourceArgv(env, volume, None, b))]
  {
    var b := a + "/" + name;
    assert !HomeRelative(b);
    assert [a, b][..1] == [a];
    assert ExpandUser(b, env.homes) == b;
    var first := Loop(env, volume, None, [a]);
    FirstSourceTurn(env, volume, a);
    assert Below(a, a) && CopyOf(volume, a, a) == CopyRoot(volume, a);
    AfterSourceGrows(env.fs, volume, a);
    ChildTarget(volume, a, name);
    assert b in first.fs && TargetPath(volume, b) in first.fs;
    assert Loop(env, volume, None, [a, b]) == LoopStep(env, volume, None, first, b);
    assert SourceActions(env, first.fs, volume, None, b) == [Rsync(SourceArgv(env, volume, None, b))];
  }

  /** The intended loop over one existing source takes that source's actions and leaves `AfterSource`. */
  lemma {:induction false} FirstSourceTurn(env: Env, volume: string, a: string)
    requires a in env.fs && !HomeRelative(a)
    ensures Loop(env, volume, None, [a]).actions == SourceActions(env, env.fs, volume, None, a)
    ensures Loop(env, volume, None, [a]).fs == AfterSource(env.fs, volume, a)
  {
    assert [a][..0] == [];
    assert ExpandUser(a, env.homes) == a;
    assert Loop(env, volume, None, []) == Report(0, [], [], env.fs);
    assert [] + SourceActions(env, env.fs, volume, None, a) == SourceActions(env, env.fs, volume, None, a);
  }


  /**
   * What backing up one existing source does, with `fs` the file system as it stands: create its
   * target directory if missing, then rsync.
   */
  function SourceActions(env: Env, fs: set<string>, volume: string, excludes: Option<string>, source: string): seq<Action> {
    var target := TargetPath(volume, source);
    (if target in fs then [] else [MakeDirs(target)]) + [Rsync(SourceArgv(env, volume, excludes, source))]
  }

  /** One or two actions: the target directory is made exactly when it is missing, and rsync runs last. */
  lemma {:induction false} SourceActionsShape(env: Env, fs: set<string>, volume: string, excludes: Option<string>, source: string)
    ensures var r := SourceActions(env, fs, volume, excludes, source);
      var target := TargetPath(volume, source);
      1 <= |r| <= 2 && r[|r| - 1] == Rsync(SourceArgv(env, volume, excludes, source)) &&
      (|r| == 2 <==> target !in fs) && (|r| == 2 ==> r[0] == MakeDirs(target))
  {
  }

  // ------------------------------------------------------------------
  // The loop over the sources

  /**
   * The file system as the loop finds it after `sources`: the target directories made so far
   * are added to what existed at the start.
   */
  function FsAfter(env: Env, volume: string, sources: seq<string>): set<string> {
    if sources == [] then env.fs
    else FsStep(FsAfter(env, volume, sources[..|sources| - 1]), volume, ExpandUser(sources[|sources| - 1], env.homes))
  }

  /** The file system after the loop reaches source `s`: changed only when `s` exists. */
  function FsStep(fs: set<string>, volume: string, s: string): set<string> {
    if s in fs then AfterSource(fs, volume, s) else fs
  }

  /** The file system only grows. */
  lemma {:induction false} FsGrows(env: Env, volume: string, sources: seq<string>)
    ensures env.fs <= FsAfter(env, volume, sources)
  {
    if sources != [] {
      FsGrows(env, volume, sources[..|sources| - 1]);
    }
  }

  /** The expanded sources that exist when the loop reaches them, in configuration order. */
  function Existing(env: Env, volume: string, sources: seq<string>): seq<string> {
    if sources == [] then []
    else
      var init := sources[..|sources| - 1];
      var s := ExpandUser(sources[|sources| - 1], env.homes);
      Existing(env, volume, init) + (if s in FsAfter(env, volume, init) then [s] else [])
  }

  /** Every path in `Existing` exists, and each came from a configured source. */
  lemma {:induction false} ExistingIn(env: Env, volume: string, sources: seq<string>)
    ensures |Existing(env, volume, sources)| <= |sources|
    ensures forall s :: s in Existing(env, volume, sources) ==> (s in FsAfter(env, volume, sources) &&
      exists i :: 0 <= i < |sources| && ExpandUser(sources[i], env.homes) == s)
  {
    if sources != [] {
      var init := sources[..|sources| - 1];
      ExistingIn(env, volume, init);
      forall s | s in Existing(env, volume, sources)
        ensures s in FsAfter(env, volume, sources)
        ensures exists i :: 0 <= i < |sources| && ExpandUser(sources[i], env.homes) == s
      {
        if s in Existing(env, volume, init) {
          var i :| 0 <= i < |init| && ExpandUser(init[i], env.homes) == s;
          assert sources[i] == init[i];
        } else {
          assert ExpandUser(sources[|sources| - 1], env.homes) == s;
        }
      }
    }
  }

  /** Every configured source whose expansion exists at the start is backed up. */
  lemma {:induction false} ExistingComplete(env: Env, volume: string, sources: seq<string>, i: nat)
    requires i < |sources| && ExpandUser(sources[i], env.homes) in env.fs
    ensures ExpandUser(sources[i], env.homes) in Existing(env, volume, sources)
  {
    var init := sources[..|sources| - 1];
    if i < |init| {
      assert init[i] == sources[i];
      ExistingComplete(env, volume, init, i);
    } else {
      FsGrows(env, volume, init);
    }
  }

  /** The argument vector of each rsync run among `actions`, in order. */
  function Rsyncs(actions: seq<Action>): seq<seq<string>> {
    if actions == [] then []
    else
      var a := actions[|actions| - 1];
      Rsyncs(actions[..|actions| - 1]) + (if a.Rsync? then [a.argv] else [])
  }

  lemma {:induction false} RsyncsAppend(a: seq<Action>, b: seq<Action>)
    ensures Rsyncs(a + b) == Rsyncs(a) + Rsyncs(b)
    decreases |b|
  {
    if b == [] {
      assert a + b == a;
    } else {
      var init := b[..|b| - 1];
      assert (a + b)[..|a + b| - 1] == a + init;
      RsyncsAppend(a, init);
    }
  }

  /** The rsync runs the loop should make: one per existing source, in order. */
  function Argvs(env: Env, volume: string, excludes: Option<string>, existing: seq<string>): (r: seq<seq<string>>)
    ensures |r| == |existing|
    ensures forall i :: 0 <= i < |existing| ==> r[i] == SourceArgv(env, volume, excludes, existing[i])
  {
    seq(|existing|, i requires 0 <= i < |existing| => SourceArgv(env, volume, excludes, existing[i]))
  }

  /** No directory is made twice. */
  predicate MakesOnce(actions: seq<Action>) {
    forall i, j :: 0 <= i < j < |actions| && actions[i].MakeDirs? && actions[j].MakeDirs? ==>
      actions[i].path != actions[j].path
  }

  /** Whether the rsync run for `source` exits nonzero. */
  predicate Fails(env: Env, volume: string, excludes: Option<string>, source: string) {
    env.rsync(SourceArgv(env, volume, excludes, source)) != 0
  }

  /**
   * Where the loop over the sources stands: the count so far or the exception, the actions taken
   * and the file system they left.
   */
  datatype Progress = Progress(count: Result<int>, actions: seq<Action>, fs: set<string>)

  /**
   * The loop as written: each existing source is counted and backed up; `check_call` raises
   * `CalledProcessError` at the first rsync that exits nonzero, which ends the run.
   */
  function LoopAsWritten(env: Env, volume: string, excludes: Option<string>, sources: seq<string>): Progress {
    if sources == [] then Progress(Ok(0), [], env.fs)
    else StepAsWritten(env, volume, excludes, LoopAsWritten(env, volume, excludes, sources[..|sources| - 1]),
                       sources[|sources| - 1])
  }

  /** One turn of the loop as written, from where it stands. */
  function StepAsWritten(env: Env, volume: string, excludes: Option<string>, prev: Progress, source: string): Progress {
    var s := ExpandUser(source, env.homes);
    if prev.count.Err? || s !in prev.fs then prev
    else
      var actions := prev.actions + SourceActions(env, prev.fs, volume, excludes, s);
      var fs := AfterSource(prev.fs, volume, s);
      if Fails(env, volume, excludes, s) then Progress(Err("CalledProcessError"), actions, fs)
      else Progress(Ok(prev.count.value + 1), actions, fs)
  }

  /** Whether every existing source's rsync exits with 0. */
  predicate AllSucceed(env: Env, volume: string, excludes: Option<string>, existing: seq<string>) {
    existing == [] ||
    (AllSucceed(env, volume, excludes, existing[..|existing| - 1]) &&
     !Fails(env, volume, excludes, existing[|existing| - 1]))
  }

  /**
   * What the intended loop reports: the count, the sources whose rsync failed, the actions taken
   * and the file system they left.
   */
  datatype Report = Report(count: int, failed: seq<string>, actions: seq<Action>, fs: set<string>)

  /**
   * The loop as the error message after `check_call` intends it: a failing rsync is reported and
   * the loop goes on.
   */
  function Loop(env: Env, volume: string, excludes: Option<string>, sources: seq<string>): Report {
    if sources == [] then Report(0, [], [], env.fs)
    else LoopStep(env, volume, excludes, Loop(env, volume, excludes, sources[..|sources| - 1]),
                  ExpandUser(sources[|sources| - 1], env.homes))
  }

  /** One turn of the intended loop, from where it stands, for the expanded source `s`. */
  function LoopStep(env: Env, volume: string, excludes: Option<string>, prev: Report, s: string): (r: Report)
    ensures r.fs == FsStep(prev.fs, volume, s)
  {
    if s !in prev.fs then prev
    else
      Report(prev.count + 1,
        prev.failed + (if Fails(env, volume, excludes, s) then [s] else []),
        prev.actions + SourceActions(env, prev.fs, volume, excludes, s),
        AfterSource(prev.fs, volume, s))
  }

  /** The intended loop after `sources` has counted the existing sources and left `FsAfter`. */
  ghost predicate Tracks(env: Env, volume: string, excludes: Option<string>, sources: seq<string>) {
    var r := Loop(env, volume, excludes, sources);
    r.count == |Existing(env, volume, sources)| && r.fs == FsAfter(env, volume, sources)
  }

  /** One rsync per existing source, in order, and the failures are exactly those that exit nonzero. */
  ghost predicate RsyncsAll(env: Env, volume: string, excludes: Option<string>, sources: seq<string>) {
    var r := Loop(env, volume, excludes, sources);
    var existing := Existing(env, volume, sources);
    && Rsyncs(r.actions) == Argvs(env, volume, excludes, existing)
    && (forall s :: s in r.failed <==> (s in existing && Fails(env, volume, excludes, s)))
  }

  /**
   * Every existing source's target directory exists, each directory made was missing at the
   * start, and none is made twice.
   */
  ghost predicate MakesAll(env: Env, volume: string, excludes: Option<string>, sources: seq<string>) {
    MadeOnce(env, volume, Existing(env, volume, sources), Loop(env, volume, excludes, sources))
  }

  /**
   * The report `r` has the target directory of every source in `existing`, and each directory it
   * made was missing at the start and is made once.
   */
  predicate MadeOnce(env: Env, volume: string, existing: seq<string>, r: Report) {
    && (forall s :: s in existing ==> TargetPath(volume, s) in r.fs)
    && (forall a :: a in r.actions && a.MakeDirs? ==> a.path in r.fs && a.path !in env.fs)
    && MakesOnce(r.actions)
  }

  /**
   * The intended loop backs up every existing source with one rsync each, in order, into a
   * target directory that exists by then; it counts exactly those sources, reports as failed
   * exactly those whose rsync exits nonzero, and makes each missing directory once.
   */
  lemma {:induction false} LoopRunsAll(env: Env, volume: string, excludes: Option<string>, sources: seq<string>)
    ensures Tracks(env, volume, excludes, sources)
    ensures RsyncsAll(env, volume, excludes, sources)
    ensures MakesAll(env, volume, excludes, sources)
  {
    if sources != [] {
      var init := sources[..|sources| - 1];
      LoopRunsAll(env, volume, excludes, init);
      TracksStep(env, volume, excludes, sources);
      RsyncsStep(env, volume, excludes, sources);
      MakesStep(env, volume, excludes, sources);
    }
  }

  lemma {:induction false} TracksStep(env: Env, volume: string, excludes: Option<string>, sources: seq<string>)
    requires sources != [] && Tracks(env, volume, excludes, sources[..|sources| - 1])
    ensures Tracks(env, volume, excludes, sources)
  {
    var init := sources[..|sources| - 1];
    var s := ExpandUser(sources[|sources| - 1], env.homes);
    var existing := Existing(env, volume, init);
    var prev := Loop(env, volume, excludes, init);
    assert Loop(env, volume, excludes, sources) == LoopStep(env, volume, excludes, prev, s);
    assert FsAfter(env, volume, sources) == FsStep(FsAfter(env, volume, init), volume, s);
    if s in prev.fs {
      assert Existing(env, volume, sources) == existing + [s];
    } else {
      assert Existing(env, volume, sources) == existing + [];
    }
  }

  /** The rsync runs of one source's actions: its own, whether or not a directory is made first. */
  lemma {:induction false} SourceRsyncs(env: Env, fs: set<string>, volume: string, excludes: Option<string>, s: string)
    ensures Rsyncs(SourceActions(env, fs, volume, excludes, s)) == [SourceArgv(env, volume, excludes, s)]
  {
    var acts := SourceActions(env, fs, volume, excludes, s);
    var target := TargetPath(volume, s);
    var argv := SourceArgv(env, volume, excludes, s);
    if target in fs {
      assert acts == [Rsync(argv)];
      assert Rsyncs(acts) == Rsyncs([]) + [argv];
    } else {
      assert acts == [MakeDirs(target), Rsync(argv)];
      assert acts[..1] == [MakeDirs(target)];
      assert Rsyncs(acts) == Rsyncs([MakeDirs(target)]) + [argv];
      assert [MakeDirs(target)][..0] == [];
      assert Rsyncs([MakeDirs(target)]) == Rsyncs([]) + [];
    }
  }

  lemma {:induction false} RsyncsStep(env: Env, volume: string, excludes: Option<string>, sources: seq<string>)
    requires sources != [] && Tracks(env, volume, excludes, sources[..|sources| - 1])
    requires RsyncsAll(env, volume, excludes, sources[..|sources| - 1])
    ensures RsyncsAll(env, volume, excludes, sources)
  {
    var init := sources[..|sources| - 1];
    var s := ExpandUser(sources[|sources| - 1], env.homes);
    var existing := Existing(env, volume, init);
    var prev := Loop(env, volume, excludes, init);
    var r := Loop(env, volume, excludes, sources);
    assert r == LoopStep(env, volume, excludes, prev, s);
    if s in prev.fs {
      var acts := SourceActions(env, prev.fs, volume, excludes, s);
      assert Existing(env, volume, sources) == existing + [s];
      assert r.actions == prev.actions + acts;
      RsyncsAppend(prev.actions, acts);
      SourceRsyncs(env, prev.fs, volume, excludes, s);
      ArgvsAppend(env, volume, excludes, existing, s);
      FailedStep(env, volume, excludes, prev.failed, existing, s);
    } else {
      assert Existing(env, volume, sources) == existing + [];
    }
  }

  lemma {:induction false} ArgvsAppend(env: Env, volume: string, excludes: Option<string>, existing: seq<string>, s: string)
    ensures Argvs(env, volume, excludes, existing + [s]) ==
      Argvs(env, volume, excludes, existing) + [SourceArgv(env, volume, excludes, s)]
  {
  }

  /** A source backed up is reported as failed exactly when its rsync exits nonzero. */
  lemma {:induction false} FailedStep(env: Env, volume: string, excludes: Option<string>, failed: seq<string>,
                                      existing: seq<string>, s: string)
    requires forall t :: t in failed <==> (t in existing && Fails(env, volume, excludes, t))
    ensures forall t :: t in failed + (if Fails(env, volume, excludes, s) then [s] else []) <==>
      (t in existing + [s] && Fails(env, volume, excludes, t))
  {
  }

  lemma {:induction false} MakesStep(env: Env, volume: string, excludes: Option<string>, sources: seq<string>)
    requires sources != [] && Tracks(env, volume, excludes, sources[..|sources| - 1])
    requires MakesAll(env, volume, excludes, sources[..|sources| - 1])
    ensures MakesAll(env, volume, excludes, sources)
  {
    var init := sources[..|sources| - 1];
    var s := ExpandUser(sources[|sources| - 1], env.homes);
    var existing := Existing(env, volume, init);
    var prev := Loop(env, volume, excludes, init);
    assert Loop(env, volume, excludes, sources) == LoopStep(env, volume, excludes, prev, s);
    if s in prev.fs {
      assert Existing(env, volume, sources) == existing + [s];
      FsGrows(env, volume, init);
      MadeOnceStep(env, volume, excludes, existing, prev, s);
    } else {
      assert Existing(env, volume, sources) == existing + [];
    }
  }

  /** Backing up one more existing source `s` keeps every directory made fresh and made once. */
  lemma {:induction false} MadeOnceStep(env: Env, volume: string, excludes: Option<string>, existing: seq<string>,
                                        prev: Report, s: string)
    requires s in prev.fs && env.fs <= prev.fs && MadeOnce(env, volume, existing, prev)
    ensures MadeOnce(env, volume, existing + [s], LoopStep(env, volume, excludes, prev, s))
  {
    var r := LoopStep(env, volume, excludes, prev, s);
    var acts := SourceActions(env, prev.fs, volume, excludes, s);
    assert r.actions == prev.actions + acts;
    assert r.fs == AfterSource(prev.fs, volume, s);
    AfterSourceGrows(prev.fs, volume, s);
    SourceActionsShape(env, prev.fs, volume, excludes, s);
    MakesStepActions(env, prev.fs, r.fs, prev.actions, acts, TargetPath(volume, s));
    forall x | x in existing + [s] ensures TargetPath(volume, x) in r.fs {
      if x != s {
        assert x in existing;
      }
    }
  }

  /**
   * Appending the actions `acts` of one source, which make at most its target directory `target`
   * and only when it is missing from `fs`, keeps every directory made fresh and made once.
   */
  lemma {:induction false} MakesStepActions(env: Env, fs: set<string>, fs': set<string>, actions: seq<Action>,
                                            acts: seq<Action>, target: string)
    requires env.fs <= fs <= fs' && target in fs'
    requires forall a :: a in actions && a.MakeDirs? ==> a.path in fs && a.path !in env.fs
    requires MakesOnce(actions)
    requires forall a :: a in acts && a.MakeDirs? ==> a == MakeDirs(target) && target !in fs
    requires |acts| <= 2 && (|acts| == 2 ==> !acts[1].MakeDirs?) && (|acts| == 1 ==> !acts[0].MakeDirs?)
    ensures forall a :: a in actions + acts && a.MakeDirs? ==> a.path in fs' && a.path !in env.fs
    ensures MakesOnce(actions + acts)
  {
    var all := actions + acts;
    forall i, j | 0 <= i < j < |all| && all[i].MakeDirs? && all[j].MakeDirs?
      ensures all[i].path != all[j].path
    {
      if j >= |actions| {
        assert all[j] in acts;
        assert all[i] in actions;
      }
    }
  }

  /**
   * The first example of the program's own documentation: two home directories under /Users
   * share the target directory `<volume>/Users`; when it is missing it is made once, before the
   * first rsync, and not again before the second.
   */
  lemma {:induction false} SharedTargetMadeOnce(env: Env, volume: string, a: string, b: string)
    requires a in env.fs && b in env.fs && !HomeRelative(a) && !HomeRelative(b)
    requires TargetPath(volume, a) == TargetPath(volume, b) && TargetPath(volume, a) !in env.fs
    ensures Loop(env, volume, None, [a, b]).actions ==
      [MakeDirs(TargetPath(volume, a)), Rsync(SourceArgv(env, volume, None, a)), Rsync(SourceArgv(env, volume, None, b))]
  {
    assert [a, b][..1] == [a];
    assert [a][..0] == [];
    assert ExpandUser(a, env.homes) == a && ExpandUser(b, env.homes) == b;
    var first := Loop(env, volume, None, [a]);
    assert Loop(env, volume, None, []) == Report(0, [], [], env.fs);
    assert first.actions == [] + SourceActions(env, env.fs, volume, None, a);
    assert b in first.fs && TargetPath(volume, b) in first.fs;
  }

  /** Whether the loop as written has so far done what the intended loop has, without a failure. */
  predicate Agree(env: Env, volume: string, excludes: Option<string>, sources: seq<string>) {
    var r := Loop(env, volume, excludes, sources);
    LoopAsWritten(env, volume, excludes, sources) == Progress(Ok(r.count), r.actions, r.fs) && r.failed == []
  }

  /** One more source keeps the two loops in step, provided its rsync (if it runs) succeeds. */
  lemma {:induction false} AgreeStep(env: Env, volume: string, excludes: Option<string>, sources: seq<string>)
    requires sources != [] && Agree(env, volume, excludes, sources[..|sources| - 1])
    requires var s := ExpandUser(sources[|sources| - 1], env.homes);
      s in Loop(env, volume, excludes, sources[..|sources| - 1]).fs ==> !Fails(env, volume, excludes, s)
    ensures Agree(env, volume, excludes, sources)
  {
    var init := sources[..|sources| - 1];
    var source := sources[|sources| - 1];
    var prev := Loop(env, volume, excludes, init);
    var w := LoopAsWritten(env, volume, excludes, init);
    assert LoopAsWritten(env, volume, excludes, sources) == StepAsWritten(env, volume, excludes, w, source);
    assert Loop(env, volume, excludes, sources) == LoopStep(env, volume, excludes, prev, ExpandUser(source, env.homes));
    AgreeOne(env, volume, excludes, w, prev, source);
  }

  /** A turn whose rsync, if it runs, succeeds takes both loops to the same place. */
  lemma {:induction false} AgreeOne(env: Env, volume: string, excludes: Option<string>, w: Progress, prev: Report,
                                    source: string)
    requires w == Progress(Ok(prev.count), prev.actions, prev.fs) && prev.failed == []
    requires var s := ExpandUser(source, env.homes); s in prev.fs ==> !Fails(env, volume, excludes, s)
    ensures var r := LoopStep(env, volume, excludes, prev, ExpandUser(source, env.homes));
      StepAsWritten(env, volume, excludes, w, source) == Progress(Ok(r.count), r.actions, r.fs) && r.failed == []
  {
    if ExpandUser(source, env.homes) in prev.fs {
      AgreeBackedUp(env, volume, excludes, w, prev, source);
    }
  }

  /** The turn of an existing source whose rsync succeeds. */
  lemma {:induction false} AgreeBackedUp(env: Env, volume: string, excludes: Option<string>, w: Progress, prev: Report,
                                         source: string)
    requires w == Progress(Ok(prev.count), prev.actions, prev.fs) && prev.failed == []
    requires var s := ExpandUser(source, env.homes); s in prev.fs && !Fails(env, volume, excludes, s)
    ensures var r := LoopStep(env, volume, excludes, prev, ExpandUser(source, env.homes));
      StepAsWritten(env, volume, excludes, w, source) == Progress(Ok(r.count), r.actions, r.fs) && r.failed == []
  {
    var s := ExpandUser(source, env.homes);
    var step := StepAsWritten(env, volume, excludes, w, source);
    var r := LoopStep(env, volume, excludes, prev, s);
    var none: seq<string> := [];
    assert r.failed == prev.failed + none;
    assert step.count == Ok(r.count);
    assert step.actions == r.actions;
    assert step.fs == r.fs;
  }

  /** As written and as intended agree whenever no rsync fails. */
  lemma {:induction false} LoopAgrees(env: Env, volume: string, excludes: Option<string>, sources: seq<string>)
    requires AllSucceed(env, volume, excludes, Existing(env, volume, sources))
    ensures Agree(env, volume, excludes, sources)
  {
    if sources != [] {
      var init := sources[..|sources| - 1];
      var s := ExpandUser(sources[|sources| - 1], env.homes);
      var existing := Existing(env, volume, init);
      LoopRunsAll(env, volume, excludes, init);
      if s in FsAfter(env, volume, init) {
        assert Existing(env, volume, sources) == existing + [s];
        assert (existing + [s])[..|existing|] == existing;
        assert (existing + [s])[|existing|] == s;
      } else {
        assert Existing(env, volume, sources) == existing + [];
        assert existing + [] == existing;
      }
      LoopAgrees(env, volume, excludes, init);
      AgreeStep(env, volume, excludes, sources);
    }
  }

  /**
   * As written, one failing rsync abandons the sources after it: with two existing sources whose
   * first rsync fails, the second is never backed up and the run raises, where the intended
   * loop backs up both.
   */
  lemma {:induction false} FailureAbandonsRest(env: Env, volume: string, a: string, b: string)
    requires a in env.fs && b in env.fs && !HomeRelative(a) && !HomeRelative(b)
    requires TargetPath(volume, a) in env.fs && TargetPath(volume, b) in env.fs
    requires Fails(env, volume, None, a)
    ensures LoopAsWritten(env, volume, None, [a, b]) ==
      Progress(Err("CalledProcessError"), [Rsync(SourceArgv(env, volume, None, a))], AfterSource(env.fs, volume, a))
    ensures Loop(env, volume, None, [a, b]).count == 2 && |Loop(env, volume, None, [a, b]).actions| == 2
  {
    assert [a, b][..1] == [a];
    assert [a][..0] == [];
    SourceActionsShape(env, env.fs, volume, None, a);
    SourceActionsShape(env, env.fs, volume, None, b);
    assert LoopAsWritten(env, volume, None, [a]) ==
      Progress(Err("CalledProcessError"), [Rsync(SourceArgv(env, volume, None, a))], AfterSource(env.fs, volume, a));
    assert Loop(env, volume, None, [a]).count == 1 && |Loop(env, volume, None, [a]).actions| == 1;
    AfterSourceGrows(env.fs, volume, a);
    assert Loop(env, volume, None, [a]).fs == AfterSource(env.fs, volume, a);
  }

  /** Once the loop has raised, the sources after the failing one change nothing. */
  lemma {:induction false} LoopAsWrittenErrSticks(env: Env, volume: string, excludes: Option<string>, sources: seq<string>, n: nat)
    requires n <= |sources| && LoopAsWritten(env, volume, excludes, sources[..n]).count.Err?
    ensures LoopAsWritten(env, volume, excludes, sources) == LoopAsWritten(env, volume, excludes, sources[..n])
    decreases |sources| - n
  {
    if n < |sources| {
      assert sources[..n + 1][..n] == sources[..n];
      LoopAsWrittenErrSticks(env, volume, excludes, sources, n + 1);
    } else {
      assert sources[..n] == sources;
    }
  }

  /**
   * When every rsync succeeds, the count `main` reports is the number of configured sources
   * that exist, and each of them is backed up by one rsync, in configuration order.
   */
  lemma {:induction false} CountIsExisting(env: Env, volume: string, excludes: Option<string>, sources: seq<string>)
    requires AllSucceed(env, volume, excludes, Existing(env, volume, sources))
    ensures var w := LoopAsWritten(env, volume, excludes, sources);
      w.count == Ok(|Existing(env, volume, sources)|) &&
      Rsyncs(w.actions) == Argvs(env, volume, excludes, Existing(env, volume, sources)) &&
      MakesOnce(w.actions)
  {
    assert Agree(env, volume, excludes, sources) by {
      LoopAgrees(env, volume, excludes, sources);
    }
    LoopRunsAll(env, volume, excludes, sources);
  }

  // ------------------------------------------------------------------
  // main

  /** The values of `items`' pairs, in order; the names are ignored. */
  function Values(items: seq<(string, string)>): (r: seq<string>)
    ensures |r| == |items| && forall i :: 0 <= i < |items| ==> r[i] == items[i].1
  {
    seq(|items|, i requires 0 <= i < |items| => items[i].1)
  }

  /** `items(section)`'s values, or None when the section is missing and `items` raises. */
  function SectionValues(cp: ConfigParser.Config, section: string): Option<seq<string>> {
    match ConfigParser.Items(cp, section)
    case Ok(items) => Some(Values(items))
    case Err(_) => None
  }

  /**
   * What `main` reads from the parsed file: `get("Options", "ExcludesFile")` inside a `try`, and
   * the values of `items("Target")` and `items("Sources")`.
   */
  function ReadConfig(cp: ConfigParser.Config): Config {
    Config(match ConfigParser.RawGet(cp, "Options", "ExcludesFile") case Ok(v) => Some(v) case Err(_) => None,
           SectionValues(cp, "Target"), SectionValues(cp, "Sources"))
  }

  /**
   * A section is read exactly when the file has it, and then each of its values is one a `get`
   * of the section finds under some lower-case name: its own option, or one it inherits from
   * DEFAULT. Every such option's value is among them.
   */
  lemma {:induction false} SectionValuesAreGets(cp: ConfigParser.Config, section: string)
    requires section != ConfigParser.DefaultSect
    ensures SectionValues(cp, section).Some? <==> section in cp.sections
    ensures SectionValues(cp, section).Some? ==>
      (forall v :: v in SectionValues(cp, section).value <==>
        exists name :: name != ConfigParser.NameOption && Lower(name) == name &&
                       ConfigParser.RawGet(cp, section, name) == Ok(v))
  {
    if section in cp.sections {
      ConfigParser.ItemsAreGets(cp, section);
      var items := ConfigParser.Items(cp, section).value;
      var vs := Values(items);
      forall v | v in vs
        ensures exists name :: name != ConfigParser.NameOption && Lower(name) == name &&
                               ConfigParser.RawGet(cp, section, name) == Ok(v)
      {
        var i :| 0 <= i < |vs| && vs[i] == v;
        assert items[i] in items;
      }
      forall v, name | name != ConfigParser.NameOption && Lower(name) == name &&
                       ConfigParser.RawGet(cp, section, name) == Ok(v)
        ensures v in vs
      {
        assert (name, v) in items;
        var i :| 0 <= i < |items| && items[i] == (name, v);
        assert vs[i] == v;
      }
    }
  }

  /** The excludes file, expanded, when one is configured. */
  function ExcludesFile(config: Config, env: Env): Option<string> {
    if config.excludes.Some? then Some(ExpandUser(config.excludes.value, env.homes)) else None
  }

  /** The backup.log of an earlier run, when there is one, is first moved aside to backup.log.bak. */
  function LogActions(env: Env, volume: string): (r: seq<Action>)
    ensures r != [] <==> LogFile(volume) in env.fs
    ensures r != [] ==> r == [MoveLog(LogFile(volume), LogFile(volume) + ".bak")]
  {
    if LogFile(volume) in env.fs then [MoveLog(LogFile(volume), LogFile(volume) + ".bak")] else []
  }

  /** The file system once the old log is moved aside: backup.log is gone and backup.log.bak exists. */
  function LogMoved(fs: set<string>, volume: string): (fs': set<string>)
    ensures LogFile(volume) in fs ==> LogFile(volume) !in fs' && LogFile(volume) + ".bak" in fs'
    ensures LogFile(volume) !in fs ==> fs' == fs
  {
    if LogFile(volume) in fs then fs - {LogFile(volume)} + {LogFile(volume) + ".bak"} else fs
  }

  /**
   * What `main` does after option parsing with `config` read from the file: the exit status it
   * returns (or the exception that ends it), the count of directories it reports as backed up,
   * and the actions it takes.
   */
  predicate MainOutcome(config: Config, env: Env, status: Result<int>, count: nat, actions: seq<Action>) {
    var ex := ExcludesFile(config, env);
    // a configured excludes file that does not exist stops the run before anything else
    (ex.Some? && ex.value !in env.fs ==> status == Ok(1) && actions == []) &&
    ((ex.None? || ex.value in env.fs) ==>
      // no [Target] section raises; no existing target volume returns 1
      (config.targets.None? ==> status == Err("NoSectionError") && actions == []) &&
      (config.targets.Some? && FirstExisting(config.targets.value, env.fs).None? ==> status == Ok(1) && actions == []) &&
      (config.targets.Some? && FirstExisting(config.targets.value, env.fs).Some? ==>
        var volume := FirstExisting(config.targets.value, env.fs).value;
        // no [Sources] section raises, an empty one returns 0 with nothing done
        (config.sources.None? ==> status == Err("NoSectionError") && actions == []) &&
        (config.sources == Some([]) ==> status == Ok(0) && count == 0 && actions == []) &&
        (config.sources.Some? && config.sources.value != [] ==>
          var r := LoopAsWritten(env.(fs := LogMoved(env.fs, volume)), volume, ex, config.sources.value);
          actions == LogActions(env, volume) + r.actions &&
          (r.count.Ok? ==> status == Ok(0) && count == r.count.value) &&
          (r.count.Err? ==> status == r.count))))
  }

  /** `main` on the parsed `backup.conf`. */
  method RunMain(cp: ConfigParser.Config, env: Env) returns (status: Result<int>, count: nat, actions: seq<Action>)
    ensures MainOutcome(ReadConfig(cp), env, status, count, actions)
  {
    status, count, actions := RunConfig(ReadConfig(cp), env);
  }

  /** `main` once the three settings are read. */
  method RunConfig(config: Config, env: Env) returns (status: Result<int>, count: nat, actions: seq<Action>)
    ensures MainOutcome(config, env, status, count, actions)
  {
    count := 0;
    actions := [];
    var excludesFile: Option<string> := None;
    if config.excludes.Some? {
      var e := ExpandUser(config.excludes.value, env.homes);
      excludesFile := Some(e);
      if e !in env.fs {
        return Ok(1), count, actions;
      }
    }
    if config.targets.None? {
      return Err("NoSectionError"), count, actions;
    }
    var targetVolume := FindTarget(config.targets.value, env.fs);
    if targetVolume.None? {
      return Ok(1), count, actions;
    }
    var volume := targetVolume.value;
    if config.sources.None? {
      return Err("NoSectionError"), count, actions;
    }
    var sourcePaths := config.sources.value;
    if |sourcePaths| == 0 {
      return Ok(0), count, actions;
    }
    var logFile := LogFile(volume);
    var fs := env.fs;
    if logFile in fs {
      actions := actions + [MoveLog(logFile, logFile + ".bak")];
      fs := fs - {logFile} + {logFile + ".bak"};
    }
    var acts;
    status, count, acts := BackUpSources(env.(fs := fs), volume, excludesFile, sourcePaths);
    actions := actions + acts;
  }

  /** The loop over the [Sources] values, once the target volume is known. */
  method BackUpSources(env: Env, volume: string, excludes: Option<string>, sources: seq<string>)
    returns (status: Result<int>, count: nat, actions: seq<Action>)
    ensures var r := LoopAsWritten(env, volume, excludes, sources);
      actions == r.actions &&
      (r.count.Ok? ==> status == Ok(0) && count == r.count.value) &&
      (r.count.Err? ==> status == r.count)
  {
    count := 0;
    actions := [];
    var fs := env.fs;
    assert sources[..0] == [];
    for i := 0 to |sources|
      invariant LoopAsWritten(env, volume, excludes, sources[..i]) == Progress(Ok(count), actions, fs)
    {
      var raised;
      count, actions, fs, raised := BackUpOne(env, volume, excludes, sources, i, count, actions, fs);
      if raised {
        LoopAsWrittenErrSticks(env, volume, excludes, sources, i + 1);
        return Err("CalledProcessError"), count, actions;
      }
    }
    assert sources[..|sources|] == sources;
    return Ok(0), count, actions;
  }

  /** One turn of the loop: expand the source and, when it exists, count it and back it up. */
  method BackUpOne(env: Env, volume: string, excludes: Option<string>, sources: seq<string>, i: nat,
                   count: nat, actions: seq<Action>, fs: set<string>)
    returns (count': nat, actions': seq<Action>, fs': set<string>, raised: bool)
    requires i < |sources| && LoopAsWritten(env, volume, excludes, sources[..i]) == Progress(Ok(count), actions, fs)
    ensures LoopAsWritten(env, volume, excludes, sources[..i + 1]) ==
      Progress(if raised then Err("CalledProcessError") else Ok(count'), actions', fs')
  {
    LoopAsWrittenNext(env, volume, excludes, sources, i);
    count', actions', fs', raised := count, actions, fs, false;
    var sourcePath := ExpandUser(sources[i], env.homes);
    if sourcePath !in fs {
      return;
    }
    count' := count + 1;
    var targetPath := TargetPath(volume, sourcePath);
    if targetPath !in fs {
      actions' := actions' + [MakeDirs(targetPath)];
    }
    fs' := AfterSource(fs, volume, sourcePath);
    var arguments := Arguments(env.quiet, excludes, LogFile(volume), sourcePath, targetPath);
    actions' := actions' + [Rsync(arguments)];
    raised := env.rsync(arguments) != 0;
    StepTaken(env, volume, excludes, count, actions, fs, sources[i], actions');
  }

  /** The loop as written, one existing source further, in terms of the actions the turn appended. */
  lemma {:induction false} StepTaken(env: Env, volume: string, excludes: Option<string>, count: nat,
                                     actions: seq<Action>, fs: set<string>, source: string, actions': seq<Action>)
    requires var s := ExpandUser(source, env.homes);
      s in fs && actions' == actions + (if TargetPath(volume, s) in fs then [] else [MakeDirs(TargetPath(volume, s))])
        + [Rsync(SourceArgv(env, volume, excludes, s))]
    ensures var s := ExpandUser(source, env.homes);
      StepAsWritten(env, volume, excludes, Progress(Ok(count), actions, fs), source) ==
      Progress(if Fails(env, volume, excludes, s) then Err("CalledProcessError") else Ok(count + 1), actions',
               AfterSource(fs, volume, s))
  {
    var s := ExpandUser(source, env.homes);
    var t := TargetPath(volume, s);
    var mk := if t in fs then [] else [MakeDirs(t)];
    var run := [Rsync(SourceArgv(env, volume, excludes, s))];
    assert SourceActions(env, fs, volume, excludes, s) == mk + run;
    AppendAssoc(actions, mk, run);
  }

  lemma AppendAssoc(a: seq<Action>, b: seq<Action>, c: seq<Action>)
    ensures a + b + c == a + (b + c)
  {
  }

  /** The loop as written, one source further. */
  lemma {:induction false} LoopAsWrittenNext(env: Env, volume: string, excludes: Option<string>, sources: seq<string>, i: nat)
    requires i < |sources|
    ensures LoopAsWritten(env, volume, excludes, sources[..i + 1]) ==
      StepAsWritten(env, volume, excludes, LoopAsWritten(env, volume, excludes, sources[..i]), sources[i])
  {
    var upto := sources[..i + 1];
    assert upto[..|upto| - 1] == sources[..i];
    assert upto[|upto| - 1] == sources[i];
  }
}

/**
 * vm-backup: back up every VMware virtual machine whose directory changed since its last backup.
 * The VM server, the file system and tar are inputs: a VM is its configuration file, the
 * listing of its directory with each entry's modification time, and whether tar succeeds.
 */
module VmBackup {
  import opened Wrappers
  import opened Strings
  import opened Paths

  /** The marker file whose modification time records the last backup. */
  const Marker: string := "vm-backup-last"

  // ------------------------------------------------------------------
  // VirtualMachine

  /** The VM's name: its configuration file's basename without extension. */
  function VmName(configFile: string): string {
    StripExt(Basename(configFile))
  }

  /** The marker file sits next to the configuration file. */
  function LastBackupFile(configFile: string): string {
    Join2(Dirname(configFile), Marker)
  }

  /** `splitext` of `<name>.<ext>` drops `.<ext>` when `name` does not end in a dot. */
  lemma {:induction false} StripExtOf(name: string, ext: string)
    requires name != [] && '/' !in name && name[|name| - 1] != '.'
    requires '/' !in ext && '.' !in ext
    ensures StripExt(name + "." + ext) == name
  {
    var base := name + "." + ext;
    assert base[|name|] == '.' && base[|name| - 1] == name[|name| - 1];
    assert forall k :: |name| < k < |base| ==> base[k] == ext[k - |name| - 1];
    SplitExtAt(base, |name|);
    assert base[..|name|] == name;
  }

  /** The marker of any configuration file `<dir>/<base>` is `<dir>/vm-backup-last`. */
  lemma {:induction false} MarkerFileOf(dir: string, base: string)
    requires dir != [] && dir[|dir| - 1] != '/' && '/' !in base
    ensures Basename(dir + "/" + base) == base
    ensures LastBackupFile(dir + "/" + base) == dir + "/" + Marker
  {
    JoinSplits(dir, base);
    assert '/' !in Marker;
    JoinSplits(dir, Marker);
  }

  /** A configuration file `<dir>/<name>.<ext>` names the VM `<name>` and its marker `<dir>/vm-backup-last`. */
  lemma {:induction false} VmNaming(dir: string, name: string, ext: string)
    requires dir != [] && dir[|dir| - 1] != '/'
    requires name != [] && '/' !in name && name[|name| - 1] != '.'
    requires '/' !in ext && '.' !in ext
    ensures VmName(dir + "/" + (name + "." + ext)) == name
    ensures LastBackupFile(dir + "/" + (name + "." + ext)) == dir + "/" + Marker
  {
    var base := name + "." + ext;
    assert '/' !in base by {
      forall k | 0 <= k < |base| ensures base[k] != '/' {
        if k > |name| { assert base[k] == ext[k - |name| - 1]; }
      }
    }
    MarkerFileOf(dir, base);
    StripExtOf(name, ext);
  }

  /** `_runVMWareCmd`: the output lines with trailing whitespace removed, or an error status. */
  function CmdOutput(lines: seq<string>, status: int): (r: Result<seq<string>>)
    ensures r.Ok? <==> status == 0
    ensures r.Ok? ==> |r.value| == |lines| && forall i :: 0 <= i < |lines| ==>
      r.value[i] <= lines[i] && AllSpace(lines[i][|r.value[i]|..])
      && (r.value[i] == [] || !IsSpace(r.value[i][|r.value[i]| - 1]))
  {
    if status != 0 then Err("VirtualMachineException")
    else
      var r := seq(|lines|, i requires 0 <= i < |lines| => RStrip(lines[i]));
      assert forall i :: 0 <= i < |lines| ==> r[i] <= lines[i] && AllSpace(lines[i][|r[i]|..]) by {
        forall i | 0 <= i < |lines| ensures r[i] <= lines[i] && AllSpace(lines[i][|r[i]|..]) {
          RStripSpan(lines[i]);
        }
      }
      Ok(r)
  }

  const StatePrefix: string := "getstate() = "

  /**
   * `getState`: the first output line must match `getstate\(\) = (\S+)`; the state is that
   * run of non-space characters. No output at all fails on the index.
   */
  function ParseState(output: seq<string>): (r: Result<string>)
    ensures r.Ok? ==> output != [] && StatePrefix + r.value <= output[0] && r.value != [] && NoSpace(r.value)
    ensures r.Ok? ==> |output[0]| == |StatePrefix| + |r.value| || IsSpace(output[0][|StatePrefix| + |r.value|])
  {
    if output == [] then Err("IndexError")
    else
      var line := output[0];
      if StatePrefix <= line && |line| > |StatePrefix| && !IsSpace(line[|StatePrefix|]) then
        var rest := line[|StatePrefix|..];
        var n := NonSpaceRun(rest);
        assert StatePrefix + rest[..n] == line[..|StatePrefix| + n];
        Ok(rest[..n])
      else Err("VirtualMachineException")
  }

  /** The state is read back from a well-formed first line; any other first line is an error. */
  lemma {:induction false} ParseStateOf(state: string, tail: string, more: seq<string>)
    requires state != [] && NoSpace(state) && (tail == [] || IsSpace(tail[0]))
    ensures ParseState([StatePrefix + state + tail] + more) == Ok(state)
  {
    var line := StatePrefix + state + tail;
    var rest := line[|StatePrefix|..];
    assert rest == state + tail;
    assert rest[..|state|] == state;
    NonSpaceRunIs(rest, |state|);
  }

  lemma {:induction false} ParseStateRejects(output: seq<string>)
    requires output != [] && !(StatePrefix <= output[0])
    ensures ParseState(output).Err?
  {
  }

  // ------------------------------------------------------------------
  // modification times

  /** A directory entry and its modification time. */
  datatype Entry = Entry(name: string, mtime: int)

  /** `max(...)`: `None` for an empty list, where Python raises ValueError. */
  function MaxTime(ts: seq<int>): Option<int> {
    if ts == [] then None
    else
      var m := MaxTime(ts[1..]);
      if m.Some? && m.value > ts[0] then m else Some(ts[0])
  }

  /** The maximum exists for a non-empty list, is one of its elements and bounds them all. */
  lemma {:induction false} MaxTimeIsMax(ts: seq<int>)
    ensures MaxTime(ts).Some? <==> ts != []
    ensures MaxTime(ts).Some? ==> MaxTime(ts).value in ts && forall i :: 0 <= i < |ts| ==> ts[i] <= MaxTime(ts).value
  {
    if ts != [] {
      MaxTimeIsMax(ts[1..]);
      assert forall i :: 1 <= i < |ts| ==> ts[i] == ts[1..][i - 1];
    }
  }

  function Times(es: seq<Entry>): seq<int> {
    seq(|es|, i requires 0 <= i < |es| => es[i].mtime)
  }

  /** A list comprehension `[e for e in es if keep(e)]`. */
  function Filter(es: seq<Entry>, keep: Entry -> bool): seq<Entry> {
    if es == [] then []
    else (if keep(es[0]) then [es[0]] else []) + Filter(es[1..], keep)
  }

  lemma {:induction false} FilterMembers(es: seq<Entry>, keep: Entry -> bool)
    ensures forall e :: e in Filter(es, keep) <==> e in es && keep(e)
  {
    if es != [] {
      FilterMembers(es[1..], keep);
      assert es == [es[0]] + es[1..];
    }
  }

  /** The first comprehension keeps the paths not matching "*.log". */
  function NotLogIn(dir: string): Entry -> bool {
    (e: Entry) => !EndsWith(Join2(dir, e.name), ".log")
  }

  /** The second comprehension as written keeps the paths other than "vm-backup-last". */
  function NotMarkerPathIn(dir: string): Entry -> bool {
    (e: Entry) => Join2(dir, e.name) != Marker
  }

  /** The second comprehension as intended keeps the entries not named "vm-backup-last". */
  function NotMarker(): Entry -> bool {
    (e: Entry) => e.name != Marker
  }

  function NoLogs(dir: string, es: seq<Entry>): seq<Entry> {
    Filter(es, NotLogIn(dir))
  }

  function NoMarkerPath(dir: string, es: seq<Entry>): seq<Entry> {
    Filter(es, NotMarkerPathIn(dir))
  }

  function NoMarker(es: seq<Entry>): seq<Entry> {
    Filter(es, NotMarker())
  }

  /** `getModTime` as written: the marker's own time takes part in the maximum. */
  function ModTimeAsWritten(dir: string, es: seq<Entry>): Option<int> {
    MaxTime(Times(NoMarkerPath(dir, NoLogs(dir, es))))
  }

  /** `getModTime` with the marker left out, as its comment intends. */
  function ModTime(dir: string, es: seq<Entry>): Option<int> {
    MaxTime(Times(NoMarker(NoLogs(dir, es))))
  }

  /** `getLastBackupTime`: the marker's time, if the marker exists. */
  function LastBackup(es: seq<Entry>): Option<int> {
    if es == [] then None
    else if es[0].name == Marker then Some(es[0].mtime)
    else LastBackup(es[1..])
  }

  /** There is a last backup time exactly when the marker is listed, and it is the marker's time. */
  lemma {:induction false} LastBackupFinds(es: seq<Entry>)
    ensures LastBackup(es).Some? <==> exists i :: 0 <= i < |es| && es[i].name == Marker
    ensures LastBackup(es).Some? ==> exists i :: 0 <= i < |es| && es[i].name == Marker && es[i].mtime == LastBackup(es).value
  {
    if es != [] && es[0].name != Marker {
      LastBackupFinds(es[1..]);
      assert forall i :: 1 <= i < |es| ==> es[i] == es[1..][i - 1];
    }
  }

  /** `main` skips a VM exactly when it has a last backup time later than its modification time. */
  predicate Skip(modTime: int, last: Option<int>) {
    last.Some? && modTime < last.value
  }

  lemma {:induction false} MaxBounds(es: seq<Entry>, e: Entry)
    requires e in es
    ensures MaxTime(Times(es)).Some? && e.mtime <= MaxTime(Times(es)).value
  {
    var i :| 0 <= i < |es| && es[i] == e;
    MaxTimeIsMax(Times(es));
    assert Times(es)[i] == e.mtime;
  }

  /** A relative name joined under a directory keeps its last character and gets longer. */
  lemma {:induction false} JoinedName(dir: string, name: string)
    requires dir != [] && name != [] && name[0] != '/'
    ensures |Join2(dir, name)| > |name|
    ensures Join2(dir, name)[|Join2(dir, name)| - 1] == name[|name| - 1]
  {
    assert !StartsWith(name, "/");
  }

  /** A path whose last character is not 'g' does not match "*.log". */
  lemma {:induction false} NotLog(p: string)
    requires p != [] && p[|p| - 1] != 'g'
    ensures !EndsWith(p, ".log")
  {
    if |p| >= 4 {
      assert p[|p| - 4..][3] == p[|p| - 1];
    }
  }

  /**
   * As written, the marker never leaves the maximum: its path always has the directory in
   * front, so it is never equal to the bare name. Since the marker's time is the last backup
   * time, the modification time is never below it and a backed-up VM is never skipped.
   */
  lemma {:induction false} AsWrittenNeverSkips(dir: string, es: seq<Entry>)
    requires dir != []
    requires LastBackup(es).Some?
    ensures ModTimeAsWritten(dir, es).Some?
    ensures !Skip(ModTimeAsWritten(dir, es).value, LastBackup(es))
  {
    LastBackupFinds(es);
    var i :| 0 <= i < |es| && es[i].name == Marker && es[i].mtime == LastBackup(es).value;
    var e := es[i];
    var path := Join2(dir, Marker);
    JoinedName(dir, Marker);
    assert path != Marker;
    NotLog(path);
    var logFree := NoLogs(dir, es);
    FilterMembers(es, NotLogIn(dir));
    assert e in logFree;
    FilterMembers(logFree, NotMarkerPathIn(dir));
    assert e in NoMarkerPath(dir, logFree);
    MaxBounds(NoMarkerPath(dir, logFree), e);
  }

  /**
   * With the marker left out, a VM is skipped exactly when it was backed up and no entry
   * other than a log file or the marker changed after that backup.
   */
  lemma {:induction false} SkipIff(dir: string, es: seq<Entry>)
    requires ModTime(dir, es).Some?
    ensures Skip(ModTime(dir, es).value, LastBackup(es)) <==>
      LastBackup(es).Some? && forall e :: e in es && e.name != Marker && !EndsWith(Join2(dir, e.name), ".log")
                                     ==> e.mtime < LastBackup(es).value
  {
    var logFree := NoLogs(dir, es);
    var kept := NoMarker(logFree);
    FilterMembers(es, NotLogIn(dir));
    FilterMembers(logFree, NotMarker());
    MaxTimeIsMax(Times(kept));
    var m := ModTime(dir, es).value;
    if LastBackup(es).Some? {
      var t := LastBackup(es).value;
      if m < t {
        forall e | e in es && e.name != Marker && !EndsWith(Join2(dir, e.name), ".log")
          ensures e.mtime < t
        {
          MaxBounds(kept, e);
        }
      } else {
        var j :| 0 <= j < |Times(kept)| && Times(kept)[j] == m;
        assert kept[j] in kept;
      }
    }
  }

  /** With the marker left out, the skip can happen: a disk written before the marker. */
  lemma {:induction false} SkipReachable(dir: string)
    requires dir != []
    ensures var es := [Entry("disk.vmdk", 5), Entry(Marker, 10)];
      ModTime(dir, es) == Some(5) && LastBackup(es) == Some(10) && Skip(5, LastBackup(es))
  {
    var disk := Entry("disk.vmdk", 5);
    var es := [disk, Entry(Marker, 10)];
    JoinedName(dir, disk.name);
    NotLog(Join2(dir, disk.name));
    assert disk in es && disk.name != Marker;
    var logFree := NoLogs(dir, es);
    var kept := NoMarker(logFree);
    FilterMembers(es, NotLogIn(dir));
    FilterMembers(logFree, NotMarker());
    MaxTimeIsMax(Times(kept));
    assert disk in kept;
    assert forall e :: e in kept ==> e == disk;
    var m := MaxTime(Times(kept)).value;
    var j :| 0 <= j < |Times(kept)| && Times(kept)[j] == m;
    assert kept[j] in kept;
  }

  // ------------------------------------------------------------------
  // backup

  /** What `backup` asks of the VM server and of tar, in order. */
  datatype Action = Suspend | Tar | Start

  /**
   * `backup`: a running VM is suspended first and restarted afterwards, whether or not tar
   * succeeded (the `finally` clause); a VM in any other state is left as it is. The state
   * query, the suspend, the tar run and the restart can each fail.
   */
  method Backup(state: Result<string>, suspendOk: bool, tarStatus: int, startOk: bool)
    returns (actions: seq<Action>, ok: bool)
    ensures Suspend in actions <==> state == Ok("on")
    ensures Tar in actions <==> state.Ok? && (state.value != "on" || suspendOk)
    ensures Start in actions <==> state == Ok("on") && suspendOk
    ensures Start in actions ==> actions == [Suspend, Tar, Start]
    ensures ok <==> Tar in actions && tarStatus == 0 && (Start in actions ==> startOk)
  {
    actions := [];
    ok := false;
    var restartVM := false;
    if state.Err? {
      return;
    }
    if state.value == "on" {
      actions := actions + [Suspend];
      if !suspendOk {
        return;
      }
      restartVM := true;
    }
    actions := actions + [Tar];
    var tarOk := tarStatus == 0;
    if restartVM {
      actions := actions + [Start];
      if !startOk {
        return;
      }
    }
    ok := tarOk;
  }

  /** The tar command: the tarball, then every file of the VM's directory by its full path. */
  function TarCommand(tarfile: string, dir: string, names: seq<string>): (r: seq<string>)
    ensures |r| == 3 + |names| && r[..3] == ["tar", "cfvz", tarfile]
    ensures forall i :: 0 <= i < |names| ==> r[3 + i] == Join2(dir, names[i])
  {
    ["tar", "cfvz", tarfile] + seq(|names|, i requires 0 <= i < |names| => Join2(dir, names[i]))
  }

  // ------------------------------------------------------------------
  // main

  /**
   * A VM as `main` sees it: its configuration file, its directory listing, how tar fares, and
   * whether there is a file at the tarball's path once tar has run.
   */
  datatype Vm = Vm(configFile: string, entries: seq<Entry>, backupOk: bool, leavesTarball: bool)

  function VmModTime(v: Vm): Option<int> {
    ModTime(Dirname(v.configFile), v.entries)
  }

  /** `max` over an empty listing raises out of `main`. */
  predicate Crashes(v: Vm) {
    VmModTime(v).None?
  }

  predicate Skipped(v: Vm) {
    VmModTime(v).Some? && Skip(VmModTime(v).value, LastBackup(v.entries))
  }

  /** The skip test of `main` with `getModTime` as written. */
  predicate SkippedAsWritten(v: Vm) {
    var t := ModTimeAsWritten(Dirname(v.configFile), v.entries);
    t.Some? && Skip(t.value, LastBackup(v.entries))
  }

  /** As written, no VM listed under a directory is ever skipped, whatever its files' times. */
  lemma {:induction false} NoVmSkippedAsWritten(v: Vm)
    requires Dirname(v.configFile) != []
    ensures !SkippedAsWritten(v)
  {
    if LastBackup(v.entries).Some? {
      AsWrittenNeverSkips(Dirname(v.configFile), v.entries);
    }
  }

  /**
   * The VMs `backup` was run on, in order: with `succeeded` those it tarred, without it those
   * where it failed.
   */
  function Attempted(vms: seq<Vm>, succeeded: bool): seq<Vm> {
    if vms == [] then []
    else TarredAs(vms[0], succeeded) + Attempted(vms[1..], succeeded)
  }

  /** Of the VMs tarred (or whose tar failed), those with a file at the tarball's path, in order. */
  function LeftBehind(vs: seq<Vm>): (r: seq<Vm>)
    ensures forall v :: v in r <==> v in vs && v.leavesTarball
  {
    if vs == [] then []
    else LeftBehind(vs[..|vs| - 1]) + (if vs[|vs| - 1].leavesTarball then [vs[|vs| - 1]] else [])
  }

  lemma LeftBehindSnoc(vs: seq<Vm>, v: Vm)
    ensures LeftBehind(vs + [v]) == LeftBehind(vs) + (if v.leavesTarball then [v] else [])
  {
    assert (vs + [v])[..|vs|] == vs;
  }

  /** The VM itself when it is tarred with the given outcome, else nothing. */
  function TarredAs(v: Vm, succeeded: bool): seq<Vm> {
    if !Skipped(v) && v.backupOk == succeeded then [v] else []
  }

  lemma {:induction false} AttemptedAppend(a: seq<Vm>, b: seq<Vm>, succeeded: bool)
    ensures Attempted(a + b, succeeded) == Attempted(a, succeeded) + Attempted(b, succeeded)
  {
    if a == [] {
      assert a + b == b;
    } else {
      AttemptedCons(a, b, succeeded);
      AttemptedAppend(a[1..], b, succeeded);
      SeqAssoc(TarredAs(a[0], succeeded), Attempted(a[1..], succeeded), Attempted(b, succeeded));
    }
  }

  lemma SeqAssoc<T>(x: seq<T>, y: seq<T>, z: seq<T>)
    ensures x + (y + z) == (x + y) + z
  {
  }

  lemma AttemptedCons(a: seq<Vm>, b: seq<Vm>, succeeded: bool)
    requires a != []
    ensures Attempted(a + b, succeeded) == TarredAs(a[0], succeeded) + Attempted(a[1..] + b, succeeded)
  {
    var ab := a + b;
    assert ab[0] == a[0] && ab[1..] == a[1..] + b;
  }

  /** A VM is tarred exactly when it was not skipped and its backup succeeded. */
  lemma {:induction false} AttemptedMembers(vms: seq<Vm>, succeeded: bool)
    ensures forall v :: v in Attempted(vms, succeeded) <==> v in vms && !Skipped(v) && v.backupOk == succeeded
  {
    if vms != [] {
      AttemptedMembers(vms[1..], succeeded);
      assert vms == [vms[0]] + vms[1..];
    }
  }

  /** Looking at one more VM extends each list by that VM, if it belongs there. */
  lemma {:induction false} AttemptedStep(vms: seq<Vm>, i: nat, succeeded: bool)
    requires i < |vms|
    ensures Attempted(vms[..i + 1], succeeded) == Attempted(vms[..i], succeeded)
      + TarredAs(vms[i], succeeded)
  {
    assert vms[..i + 1] == vms[..i] + [vms[i]];
    AttemptedAppend(vms[..i], [vms[i]], succeeded);
    AttemptedOne(vms[i], succeeded);
  }

  lemma {:induction false} AttemptedOne(v: Vm, succeeded: bool)
    ensures Attempted([v], succeeded) == TarredAs(v, succeeded)
  {
    assert [v][1..] == [];
    assert TarredAs(v, succeeded) + [] == TarredAs(v, succeeded);
  }

  /** How far `main` gets: the index of the first VM whose modification time cannot be computed, if any. */
  function CrashIndex(vms: seq<Vm>): (n: nat)
    ensures n <= |vms|
  {
    if vms == [] then 0
    else if Crashes(vms[0]) then 0
    else 1 + CrashIndex(vms[1..])
  }

  /** The VM at the crash index crashes. */
  lemma {:induction false} CrashIndexCrashes(vms: seq<Vm>)
    requires CrashIndex(vms) < |vms|
    ensures Crashes(vms[CrashIndex(vms)])
  {
    if !Crashes(vms[0]) {
      CrashIndexCrashes(vms[1..]);
    }
  }

  /** No VM before the crash index crashes. */
  lemma {:induction false} CrashIndexFirst(vms: seq<Vm>)
    ensures forall i :: 0 <= i < CrashIndex(vms) ==> !Crashes(vms[i])
  {
    if vms != [] && !Crashes(vms[0]) {
      CrashIndexFirst(vms[1..]);
      assert forall i :: 1 <= i < CrashIndex(vms) ==> vms[i] == vms[1..][i - 1];
    }
  }

  /** A VM that does not crash, reached before the crash index, is not at it. */
  lemma {:induction false} CrashIndexPast(vms: seq<Vm>, i: nat)
    requires i < |vms| && i <= CrashIndex(vms) && !Crashes(vms[i])
    ensures i < CrashIndex(vms)
  {
    if CrashIndex(vms) < |vms| {
      CrashIndexCrashes(vms);
    }
  }

  /** A VM that crashes, reached no later than the crash index, is at it. */
  lemma {:induction false} CrashIndexAt(vms: seq<Vm>, i: nat)
    requires i < |vms| && i <= CrashIndex(vms) && Crashes(vms[i])
    ensures i == CrashIndex(vms)
  {
    CrashIndexFirst(vms);
  }

  /** The tarball of a VM: `<workingDir>/<name>.tar.gz`. */
  function Tarfile(workingDir: string, v: Vm): string {
    Join2(workingDir, VmName(v.configFile) + ".tar.gz")
  }

  function Tarfiles(workingDir: string, vs: seq<Vm>): (r: seq<string>)
    ensures |r| == |vs| && forall i :: 0 <= i < |vs| ==> r[i] == Tarfile(workingDir, vs[i])
  {
    seq(|vs|, i requires 0 <= i < |vs| => Tarfile(workingDir, vs[i]))
  }

  lemma {:induction false} TarfilesAppend(workingDir: string, vs: seq<Vm>, v: Vm)
    ensures Tarfiles(workingDir, vs + [v]) == Tarfiles(workingDir, vs) + [Tarfile(workingDir, v)]
  {
  }

  /** The scp command run after each new tarball: every tarball so far goes again. */
  function ScpCommand(tarfiles: seq<string>, dest: string): seq<string> {
    ["scp", "-c", "blowfish", "-B"] + tarfiles + [dest]
  }

  /** One scp run per tarball made, each sending the tarballs made so far; none without a destination. */
  predicate ScpRuns(scps: seq<seq<string>>, tarfiles: seq<string>, dest: string) {
    if dest == "" then scps == []
    else |scps| == |tarfiles| && forall k :: 0 <= k < |scps| ==> scps[k] == ScpCommand(tarfiles[..k + 1], dest)
  }

  lemma {:induction false} ScpRunsStep(scps: seq<seq<string>>, tarfiles: seq<string>, t: string, dest: string)
    requires ScpRuns(scps, tarfiles, dest)
    ensures ScpRuns(scps + (if dest != "" then [ScpCommand(tarfiles + [t], dest)] else []), tarfiles + [t], dest)
  {
    if dest != "" {
      var ts := tarfiles + [t];
      var scps' := scps + [ScpCommand(ts, dest)];
      assert ts[..|ts|] == ts;
      forall k | 0 <= k < |scps'|
        ensures scps'[k] == ScpCommand(ts[..k + 1], dest)
      {
        if k < |scps| {
          assert ts[..k + 1] == tarfiles[..k + 1];
        }
      }
    }
  }

  /** A call registered with `atexit`. */
  datatype Cleanup = Remove(path: string) | Rmdir(path: string)

  /**
   * How `main` starts: in a working directory, with or without removing the tarballs at exit and
   * with the cleanups registered so far, or by exiting with a status.
   */
  datatype Setup = Working(dir: string, removeTarfiles: bool, registered: seq<Cleanup>) | Exit(status: int)

  /**
   * The option checks of `main` and its working directory. `destDir` and `scpDest` are "" when
   * not given, `destExists` is whether `destDir` exists, and `tempDir` is what `mkdtemp` returns.
   */
  function SetUp(destDir: string, scpDest: string, destExists: bool, tempDir: string): (r: Setup)
    ensures r.Exit? <==> (destDir == "" && scpDest == "") || (destDir != "" && !destExists)
    ensures r.Exit? ==> r.status == (if destDir == "" then 2 else 1)
    ensures r.Working? ==> (r.removeTarfiles <==> destDir == "")
    ensures r.Working? && destDir != "" ==> r.dir == destDir && r.registered == []
    ensures r.Working? && destDir == "" ==> r.dir == tempDir && r.registered == [Rmdir(tempDir)]
  {
    if destDir == "" && scpDest == "" then Exit(2)
    else if destDir != "" then
      if destExists then Working(destDir, false, []) else Exit(1)
    else Working(tempDir, true, [Rmdir(tempDir)])
  }

  /** The removal of each tarball, in order. */
  function Removals(tarfiles: seq<string>): (r: seq<Cleanup>)
    ensures |r| == |tarfiles| && forall k :: 0 <= k < |r| ==> r[k] == Remove(tarfiles[k])
  {
    seq(|tarfiles|, k requires 0 <= k < |tarfiles| => Remove(tarfiles[k]))
  }

  /** `atexit` runs the registered calls last registered first. */
  function ExitOrder(registered: seq<Cleanup>): (r: seq<Cleanup>)
    ensures |r| == |registered| && forall k :: 0 <= k < |r| ==> r[k] == registered[|registered| - 1 - k]
  {
    if registered == [] then [] else ExitOrder(registered[1..]) + [registered[0]]
  }

  datatype Outcome = Outcome(
    tarred: seq<Vm>, tarfiles: seq<string>, removed: seq<string>,
    scpCommands: seq<seq<string>>, marked: seq<Vm>, crashed: bool, atExit: seq<string>)

  /**
   * One turn of the loop over the VMs: a skipped VM changes nothing; a failed backup has its
   * tarball removed when there is one; a successful one adds the VM and its tarball, registers
   * the tarball's removal at exit when there is one and `removeTarfiles` is set, and then runs scp.
   */
  predicate Turn(v: Vm, workingDir: string, removeTarfiles: bool, scpDest: string, o: Outcome, o': Outcome) {
    if Skipped(v) then o' == o
    else if !v.backupOk then o' == o.(removed := o.removed + (if v.leavesTarball then [Tarfile(workingDir, v)] else []))
    else
      var tarfiles := o.tarfiles + [Tarfile(workingDir, v)];
      o' == o.(tarred := o.tarred + [v], tarfiles := tarfiles,
               atExit := o.atExit + (if v.leavesTarball && removeTarfiles then [Tarfile(workingDir, v)] else []),
               scpCommands := o.scpCommands + (if scpDest != "" then [ScpCommand(tarfiles, scpDest)] else []))
  }

  lemma SkippedWhen(v: Vm)
    requires !Crashes(v)
    ensures Skipped(v) <==> LastBackup(v.entries).Some? && VmModTime(v).value < LastBackup(v.entries).value
  {
  }

  /** The body of the loop over the VMs. */
  method BackupOne(v: Vm, workingDir: string, removeTarfiles: bool, scpDest: string, o: Outcome) returns (o': Outcome)
    requires !Crashes(v)
    ensures Turn(v, workingDir, removeTarfiles, scpDest, o, o')
  {
    var tarfile := Tarfile(workingDir, v);
    var modTime := VmModTime(v).value;
    var lastBackup := LastBackup(v.entries);
    SkippedWhen(v);
    if lastBackup.Some? && modTime < lastBackup.value {
      TurnSkipped(v, workingDir, removeTarfiles, scpDest, o);
      return o;
    }
    if !v.backupOk {
      TurnFailed(v, workingDir, removeTarfiles, scpDest, o);
      if v.leavesTarball {
        return o.(removed := o.removed + [tarfile]);
      }
      return o;
    }
    var tarfiles := o.tarfiles + [tarfile];
    var scps := o.scpCommands;
    if scpDest != "" && |tarfiles| > 0 {
      scps := scps + [ScpCommand(tarfiles, scpDest)];
    }
    assert scps == o.scpCommands + (if scpDest != "" then [ScpCommand(tarfiles, scpDest)] else []);
    var atExit := o.atExit;
    if v.leavesTarball && removeTarfiles {
      atExit := atExit + [tarfile];
    }
    assert atExit == o.atExit + (if v.leavesTarball && removeTarfiles then [tarfile] else []);
    o' := o.(tarred := o.tarred + [v], tarfiles := tarfiles, atExit := atExit, scpCommands := scps);
    TurnTarred(v, workingDir, removeTarfiles, scpDest, o, o');
  }

  lemma TurnSkipped(v: Vm, workingDir: string, removeTarfiles: bool, scpDest: string, o: Outcome)
    requires Skipped(v)
    ensures Turn(v, workingDir, removeTarfiles, scpDest, o, o)
  {
  }

  lemma TurnFailed(v: Vm, workingDir: string, removeTarfiles: bool, scpDest: string, o: Outcome)
    requires !Skipped(v) && !v.backupOk
    ensures Turn(v, workingDir, removeTarfiles, scpDest, o, o.(removed := o.removed + (if v.leavesTarball then [Tarfile(workingDir, v)] else [])))
  {
  }

  lemma TurnTarred(v: Vm, workingDir: string, removeTarfiles: bool, scpDest: string, o: Outcome, o': Outcome)
    requires !Skipped(v) && v.backupOk
    requires o'.tarfiles == o.tarfiles + [Tarfile(workingDir, v)]
    requires o' == o.(tarred := o.tarred + [v], tarfiles := o'.tarfiles,
                      atExit := o.atExit + (if v.leavesTarball && removeTarfiles then [Tarfile(workingDir, v)] else []),
                      scpCommands := o.scpCommands + (if scpDest != "" then [ScpCommand(o'.tarfiles, scpDest)] else []))
    ensures Turn(v, workingDir, removeTarfiles, scpDest, o, o')
  {
  }

  /** What the loop has done after looking at the first `i` VMs. */
  predicate Progress(vms: seq<Vm>, i: nat, workingDir: string, removeTarfiles: bool, scpDest: string, o: Outcome)
    requires i <= |vms|
  {
    o.tarred == Attempted(vms[..i], true) && !o.crashed && o.marked == []
    && o.tarfiles == Tarfiles(workingDir, o.tarred)
    && o.removed == Tarfiles(workingDir, LeftBehind(Attempted(vms[..i], false)))
    && o.atExit == (if removeTarfiles then Tarfiles(workingDir, LeftBehind(o.tarred)) else [])
    && ScpRuns(o.scpCommands, o.tarfiles, scpDest)
  }

  lemma {:induction false} ProgressStep(vms: seq<Vm>, i: nat, workingDir: string, removeTarfiles: bool, scpDest: string, o: Outcome, o': Outcome)
    requires i < |vms| && Progress(vms, i, workingDir, removeTarfiles, scpDest, o)
    requires Turn(vms[i], workingDir, removeTarfiles, scpDest, o, o')
    ensures Progress(vms, i + 1, workingDir, removeTarfiles, scpDest, o')
  {
    AttemptedStep(vms, i, true);
    AttemptedStep(vms, i, false);
    var v := vms[i];
    var tarred, failed := Attempted(vms[..i], true), Attempted(vms[..i], false);
    if Skipped(v) {
      assert o' == o;
      assert TarredAs(v, true) == [] && TarredAs(v, false) == [];
      assert tarred + [] == tarred && failed + [] == failed;
    } else if !v.backupOk {
      assert TarredAs(v, true) == [] && TarredAs(v, false) == [v];
      assert tarred + [] == tarred;
      FailedProgress(failed, v, workingDir, o.removed);
      assert o' == o.(removed := Tarfiles(workingDir, LeftBehind(failed + [v])));
    } else {
      assert TarredAs(v, true) == [v] && TarredAs(v, false) == [];
      assert failed + [] == failed;
      TarredStep(v, workingDir, removeTarfiles, scpDest, o, o');
    }
  }


  /** A successful turn keeps the record of the tarred VMs, their tarballs, the exit removals and scp. */
  lemma TarredStep(v: Vm, workingDir: string, removeTarfiles: bool, scpDest: string, o: Outcome, o': Outcome)
    requires !Skipped(v) && v.backupOk && Turn(v, workingDir, removeTarfiles, scpDest, o, o')
    requires o.tarfiles == Tarfiles(workingDir, o.tarred) && ScpRuns(o.scpCommands, o.tarfiles, scpDest)
    requires o.atExit == (if removeTarfiles then Tarfiles(workingDir, LeftBehind(o.tarred)) else [])
    ensures o'.tarred == o.tarred + [v] && o'.removed == o.removed && o'.marked == o.marked && o'.crashed == o.crashed
    ensures o'.tarfiles == Tarfiles(workingDir, o'.tarred) && ScpRuns(o'.scpCommands, o'.tarfiles, scpDest)
    ensures o'.atExit == (if removeTarfiles then Tarfiles(workingDir, LeftBehind(o'.tarred)) else [])
  {
    TarfilesAppend(workingDir, o.tarred, v);
    ScpRunsStep(o.scpCommands, o.tarfiles, Tarfile(workingDir, v), scpDest);
    TarredProgress(o.tarred, v, workingDir, removeTarfiles, o.atExit);
  }


  lemma FailedProgress(failed: seq<Vm>, v: Vm, workingDir: string, removed: seq<string>)
    requires removed == Tarfiles(workingDir, LeftBehind(failed))
    ensures removed + (if v.leavesTarball then [Tarfile(workingDir, v)] else [])
      == Tarfiles(workingDir, LeftBehind(failed + [v]))
  {
    LeftBehindSnoc(failed, v);
    if v.leavesTarball {
      TarfilesAppend(workingDir, LeftBehind(failed), v);
    } else {
      assert removed + [] == removed;
    }
  }

  lemma TarredProgress(tarred: seq<Vm>, v: Vm, workingDir: string, removeTarfiles: bool, atExit: seq<string>)
    requires atExit == (if removeTarfiles then Tarfiles(workingDir, LeftBehind(tarred)) else [])
    ensures atExit + (if v.leavesTarball && removeTarfiles then [Tarfile(workingDir, v)] else [])
      == (if removeTarfiles then Tarfiles(workingDir, LeftBehind(tarred + [v])) else [])
  {
    LeftBehindSnoc(tarred, v);
    if v.leavesTarball && removeTarfiles {
      TarfilesAppend(workingDir, LeftBehind(tarred), v);
    } else {
      assert atExit + [] == atExit;
    }
  }


  /**
   * The loop of `main` and the marking after it: only the VMs tarred are marked, and only when
   * the loop ran to its end; a tarball left by a failed tar is removed, and with `removeTarfiles`
   * the removal of every other tarball is registered for exit. `scpDest` is "" when no scp
   * destination was given.
   */
  method RunBackups(vms: seq<Vm>, workingDir: string, removeTarfiles: bool, scpDest: string) returns (o: Outcome)
    ensures o.crashed <==> CrashIndex(vms) < |vms|
    ensures o.tarred == Attempted(vms[..CrashIndex(vms)], true)
    ensures o.tarfiles == Tarfiles(workingDir, o.tarred)
    ensures o.removed == Tarfiles(workingDir, LeftBehind(Attempted(vms[..CrashIndex(vms)], false)))
    ensures o.atExit == (if removeTarfiles then Tarfiles(workingDir, LeftBehind(o.tarred)) else [])
    ensures ScpRuns(o.scpCommands, o.tarfiles, scpDest)
    ensures o.marked == if o.crashed then [] else o.tarred
  {
    var i;
    o, i := BackUpVms(vms, workingDir, removeTarfiles, scpDest);
    if i < |vms| {
      o := o.(crashed := true);
    } else {
      assert vms[..i] == vms;
      o := o.(marked := o.tarred);
    }
  }

  /** The loop over the VMs: it stops at the crash index, with the record of the VMs before it. */
  method BackUpVms(vms: seq<Vm>, workingDir: string, removeTarfiles: bool, scpDest: string) returns (o: Outcome, i: nat)
    ensures i == CrashIndex(vms) && Progress(vms, i, workingDir, removeTarfiles, scpDest, o)
  {
    o := Outcome([], [], [], [], [], false, []);
    i := 0;
    while i < |vms|
      invariant 0 <= i <= CrashIndex(vms)
      invariant Progress(vms, i, workingDir, removeTarfiles, scpDest, o)
    {
      if Crashes(vms[i]) {
        CrashIndexAt(vms, i);
        return;
      }
      CrashIndexPast(vms, i);
      var o' := BackupOne(vms[i], workingDir, removeTarfiles, scpDest, o);
      ProgressStep(vms, i, workingDir, removeTarfiles, scpDest, o, o');
      o, i := o', i + 1;
    }
  }

  /**
   * What runs at exit once the loop is over: nothing when the tarballs go to a given directory;
   * with a temporary one, the removal of every tarred VM's tarball that exists, last made first,
   * and then the removal of the directory itself.
   */
  lemma ExitCleanups(destDir: string, scpDest: string, destExists: bool, tempDir: string, o: Outcome)
    requires SetUp(destDir, scpDest, destExists, tempDir).Working?
    requires var setup := SetUp(destDir, scpDest, destExists, tempDir);
      o.atExit == (if setup.removeTarfiles then Tarfiles(setup.dir, LeftBehind(o.tarred)) else [])
    ensures var setup := SetUp(destDir, scpDest, destExists, tempDir);
      var run := ExitOrder(setup.registered + Removals(o.atExit));
      (destDir != "" ==> run == []) &&
      (destDir == "" ==> TemporaryCleanups(tempDir, o, run))
  {
    if destDir == "" {
      TemporaryExit(tempDir, o);
    } else {
      assert o.atExit == [];
      assert SetUp(destDir, scpDest, destExists, tempDir).registered + Removals(o.atExit) == [];
    }
  }

  /**
   * At exit from a run in the temporary directory `tempDir`: the tarballs registered are removed,
   * last made first, every tarred VM's tarball that exists among them, and the directory last.
   */
  predicate TemporaryCleanups(tempDir: string, o: Outcome, run: seq<Cleanup>) {
    |run| == |o.atExit| + 1 && run[|o.atExit|] == Rmdir(tempDir) &&
    (forall k :: 0 <= k < |o.atExit| ==> run[k] == Remove(o.atExit[|o.atExit| - 1 - k])) &&
    (forall v :: v in o.tarred && v.leavesTarball ==> Remove(Tarfile(tempDir, v)) in run)
  }

  lemma TemporaryExit(tempDir: string, o: Outcome)
    requires o.atExit == Tarfiles(tempDir, LeftBehind(o.tarred))
    ensures TemporaryCleanups(tempDir, o, ExitOrder([Rmdir(tempDir)] + Removals(o.atExit)))
  {
    ExitRunShape(tempDir, o.atExit);
    ExitRunCovers(tempDir, o.tarred);
  }

  /** The registered removals run newest first, then the directory's removal. */
  lemma ExitRunShape(tempDir: string, atExit: seq<string>)
    ensures var run := ExitOrder([Rmdir(tempDir)] + Removals(atExit));
      |run| == |atExit| + 1 && run[|atExit|] == Rmdir(tempDir) &&
      forall k :: 0 <= k < |atExit| ==> run[k] == Remove(atExit[|atExit| - 1 - k])
  {
    var rest := Removals(atExit);
    assert ([Rmdir(tempDir)] + rest)[1..] == rest;
    var later := ExitOrder(rest);
    assert ExitOrder([Rmdir(tempDir)] + rest) == later + [Rmdir(tempDir)];
    forall k | 0 <= k < |atExit|
      ensures later[k] == Remove(atExit[|atExit| - 1 - k])
    {
    }
  }


  /** Every tarred VM's tarball that exists is among the removals run at exit. */
  lemma ExitRunCovers(tempDir: string, tarred: seq<Vm>)
    ensures forall v :: v in tarred && v.leavesTarball ==>
      Remove(Tarfile(tempDir, v)) in ExitOrder([Rmdir(tempDir)] + Removals(Tarfiles(tempDir, LeftBehind(tarred))))
  {
    var left := LeftBehind(tarred);
    var atExit := Tarfiles(tempDir, left);
    forall v | v in tarred && v.leavesTarball
      ensures Remove(Tarfile(tempDir, v)) in ExitOrder([Rmdir(tempDir)] + Removals(atExit))
    {
      assert v in left;
      var j :| 0 <= j < |left| && left[j] == v;
      assert atExit[j] == Tarfile(tempDir, v);
      ExitRunHas(tempDir, atExit, j);
    }
  }

  /** A registered tarball's removal runs at exit. */
  lemma ExitRunHas(tempDir: string, atExit: seq<string>, j: nat)
    requires j < |atExit|
    ensures Remove(atExit[j]) in ExitOrder([Rmdir(tempDir)] + Removals(atExit))
  {
    var reg := [Rmdir(tempDir)] + Removals(atExit);
    assert reg[1 + j] == Remove(atExit[j]);
    assert ExitOrder(reg)[|reg| - 1 - (1 + j)] == reg[1 + j];
  }
}

/**
 * vbox-add-vm: register a VirtualBox VM and its hard disks, start it, wait until it is powered
 * off, and leave the unregistering to cleanups that run when the script exits. Every
 * `VBoxManage` call is an oracle: `rc(k)` is the return code of the `k`th one.
 */
module VBoxAddVm {
  import opened Wrappers
  import opened Strings
  import opened Regex
  import Paths

  // ------------------------------------------------------------------
  // VBoxManage

  /** The command line `VBoxManage(*args)` runs. */
  function Argv(args: seq<string>): (argv: seq<string>)
    ensures |argv| == |args| + 2 && argv[..2] == ["VBoxManage", "-q"] && argv[2..] == args
  {
    ["VBoxManage", "-q"] + args
  }

  /** `VBoxManage`: `None` when the call succeeds, else the `VBoxError` with its return code. */
  function VBoxManage(rc: int): (err: Option<int>)
    ensures err.None? <==> rc == 0
    ensures err.Some? ==> err.value == rc
  {
    if rc != 0 then Some(rc) else None
  }

  // ------------------------------------------------------------------
  // getVMState

  /** `State:\s*([\w ]+)\s*\(` */
  const StatePattern: Pattern := [
    Item(Lit("State:"), false), Item(Rep(Space, 0), false), Item(Rep(WordOrSpace, 1), true),
    Item(Rep(Space, 0), false), Item(Lit("("), false)]

  /** The pattern has one group, a run of `[\w ]`. */
  lemma {:induction false} StateGroups()
    ensures GroupAtoms(StatePattern) == [Rep(WordOrSpace, 1)]
  {
    var p := StatePattern;
    assert GroupAtomsFrom(p, 5) == [];
    assert GroupAtomsFrom(p, 4) == [];
    assert GroupAtomsFrom(p, 3) == [];
    assert GroupAtomsFrom(p, 2) == [Rep(WordOrSpace, 1)];
    assert GroupAtomsFrom(p, 1) == [Rep(WordOrSpace, 1)];
  }

  /**
   * `getVMState` over the output of `showvminfo`: the stripped group of the first match, or
   * "Unknown" when there is none.
   */
  function GetVMState(info: string): string {
    match Search(StatePattern, info)
    case None => "Unknown"
    case Some(caps) =>
      StateGroups();
      Strip(caps[0])
  }

  /** The state is "Unknown" without a match, and otherwise a stripped run of `[\w ]`. */
  lemma {:induction false} GetVMStateShape(info: string)
    ensures Search(StatePattern, info).None? ==> GetVMState(info) == "Unknown"
    ensures (Search(StatePattern, info).Some? ==>
      forall i :: 0 <= i < |GetVMState(info)| ==> InClass(GetVMState(info)[i], WordOrSpace))
    ensures GetVMState(info) == [] || (GetVMState(info)[0] != ' ' && GetVMState(info)[|GetVMState(info)| - 1] != ' ')
  {
    var state := GetVMState(info);
    if Search(StatePattern, info).Some? {
      var caps := Search(StatePattern, info).value;
      StateGroups();
      assert InLanguage(caps[0], Rep(WordOrSpace, 1));
      StripChars(caps[0]);
    }
  }

  lemma {:induction false} StripChars(t: string)
    ensures forall x :: 0 <= x < |Strip(t)| ==> exists y :: 0 <= y < |t| && Strip(t)[x] == t[y]
  {
    var r := Strip(t);
    var l := LStrip(t);
    var i := |t| - |l|;
    LStripSpan(t);
    RStripSpan(l);
    assert r == RStrip(l) && r == l[..|r|] && l == t[i..];
    forall x | 0 <= x < |r|
      ensures exists y :: 0 <= y < |t| && r[x] == t[y]
    {
      assert r[x] == t[i + x];
    }
  }

  lemma {:induction false} StripSpaceAfter(s: string)
    requires s != [] && !IsSpace(s[0]) && !IsSpace(s[|s| - 1])
    ensures Strip(s + " ") == s
  {
    var t := s + " ";
    assert t[..|t| - 1] == s;
    assert LStrip(t) == t;
    assert RStrip(t) == RStrip(s) == s;
  }

  /** What `showvminfo` prints for a state: the line gives the state name. */
  lemma {:induction false} GetVMStateOf(state: string, rest: string)
    requires state != [] && state[0] != ' ' && state[|state| - 1] != ' '
    requires forall i :: 0 <= i < |state| ==> InClass(state[i], WordOrSpace)
    ensures GetVMState("State: " + state + " (" + rest) == state
  {
    var s := "State: " + state + " (" + rest;
    var e := 7 + |state| + 1;
    assert s[e] == '(' && s[6] == ' ' && s[7] == state[0];
    assert s[7..e] == state + " ";
    assert AllIn(s, 7, e, WordOrSpace) by {
      forall x | 7 <= x < e
        ensures InClass(s[x], WordOrSpace)
      {
        if x < e - 1 {
          assert s[x] == state[x - 7];
        }
      }
    }
    StateAfterLabel(s, e);
    assert s[..6] == "State:";
    var p := StatePattern;
    LitStep(p, s, 0, [s[7..e]]);
    StripSpaceAfter(state);
  }

  /**
   * After "State:" at position 6, the spaces, the run of `[\w ]` up to `e` (the group) and the
   * '(' at `e` match the rest of the pattern.
   */
  lemma {:induction false} StateAfterLabel(s: string, e: nat)
    requires 7 < e < |s| && s[e] == '(' && s[6] == ' ' && s[7] != ' '
    requires AllIn(s, 7, e, WordOrSpace) && !IsSpace(s[7])
    ensures MatchAt(StatePattern[1..], s, 6) == Some([s[7..e]])
  {
    var p := StatePattern;
    assert p[4..][1..] == [] && p[3..][1..] == p[4..] && p[2..][1..] == p[3..] && p[1..][1..] == p[2..];
    assert s[e..e + 1] == "(";
    assert !p[4..][0].group && !p[3..][0].group && p[2..][0].group && !p[1..][0].group;
    var none: seq<string> := [];
    assert none + none == none && [s[7..e]] + none == [s[7..e]] && none + [s[7..e]] == [s[7..e]];
    LitStep(p[4..], s, e, []);
    RunStep(p[3..], s, e, e, []);
    RunStep(p[2..], s, 7, e, []);
    RunStep(p[1..], s, 6, 7, [s[7..e]]);
  }

  // ------------------------------------------------------------------
  // waitForVMShutdown

  /**
   * `waitForVMShutdown`, over the successive states `getVMState` reports (the `k`th is
   * `GetVMState` of the `k`th output of `showvminfo`): it polls until the state is "powered off".
   * `done` is false when the states run out first (the script is still waiting).
   */
  method WaitForVMShutdown(states: seq<string>) returns (polls: nat, done: bool)
    ensures polls <= |states|
    ensures forall k :: 0 <= k < polls - 1 ==> states[k] != "powered off"
    ensures done <==> polls >= 1 && states[polls - 1] == "powered off"
    ensures !done ==> polls == |states| && "powered off" !in states
  {
    polls := 0;
    while polls < |states|
      invariant polls <= |states|
      invariant forall k :: 0 <= k < polls ==> states[k] != "powered off"
    {
      var state := states[polls];
      polls := polls + 1;
      if state == "powered off" {
        return polls, true;
      }
    }
    return polls, false;
  }

  // ------------------------------------------------------------------
  // main

  const DriveLetters: seq<char> := ['a', 'b', 'd']

  /** A cleanup registered with `atexit`. */
  datatype Cleanup = UnregisterVM(vm: string) | UnregisterHDD(hdd: string) | UnmountHDD(vm: string, drive: char)

  /** How `main` ends: with a status, with an exception, or still waiting for the VM. */
  datatype Exit = Returned(status: int) | Raised(error: string) | Waiting

  /** The VM name: the settings file's basename without extension. */
  function VmName(settingsFile: string): (name: string)
    ensures '/' !in name
  {
    var base := Paths.Basename(settingsFile);
    var name := Paths.StripExt(base);
    assert base == name + Paths.SplitExt(base).1;
    assert forall i :: 0 <= i < |name| ==> name[i] == base[i];
    name
  }

  /** Each `-H` disk made absolute, as the loop over the disks does before using it. */
  function AbsPaths(hdds: seq<string>, cwd: string): (r: seq<string>)
    ensures |r| == |hdds| && forall i :: 0 <= i < |hdds| ==> r[i] == Paths.AbsPath(hdds[i], cwd)
  {
    seq(|hdds|, i requires 0 <= i < |hdds| => Paths.AbsPath(hdds[i], cwd))
  }

  /** The VBoxManage calls that register and mount the disks `hdds`, in order. */
  function HddCalls(vm: string, hdds: seq<string>): seq<seq<string>>
    requires |hdds| <= |DriveLetters|
  {
    if hdds == [] then []
    else
      var n := |hdds| - 1;
      HddCalls(vm, hdds[..n]) +
        [Argv(["registerimage", "disk", hdds[n]]), Argv(["modifyvm", vm, "-hd" + [DriveLetters[n]], hdds[n]])]
  }

  /** The cleanups registered for the disks `hdds`, in order. */
  function HddCleanups(vm: string, hdds: seq<string>): seq<Cleanup>
    requires |hdds| <= |DriveLetters|
  {
    if hdds == [] then []
    else
      var n := |hdds| - 1;
      HddCleanups(vm, hdds[..n]) + [UnregisterHDD(hdds[n]), UnmountHDD(vm, DriveLetters[n])]
  }

  /** The `i`th disk is registered, then mounted as drive `DriveLetters[i]`. */
  lemma {:induction false} HddCallsAt(vm: string, hdds: seq<string>)
    requires |hdds| <= |DriveLetters|
    ensures |HddCalls(vm, hdds)| == 2 * |hdds|
    ensures forall i :: 0 <= i < |hdds| ==>
      HddCalls(vm, hdds)[2 * i] == Argv(["registerimage", "disk", hdds[i]]) &&
      HddCalls(vm, hdds)[2 * i + 1] == Argv(["modifyvm", vm, "-hd" + [DriveLetters[i]], hdds[i]])
  {
    if hdds != [] {
      HddCallsAt(vm, hdds[..|hdds| - 1]);
    }
  }

  /** The `i`th disk's cleanups: unregister it, then unmount drive `DriveLetters[i]`. */
  lemma {:induction false} HddCleanupsAt(vm: string, hdds: seq<string>)
    requires |hdds| <= |DriveLetters|
    ensures |HddCleanups(vm, hdds)| == 2 * |hdds|
    ensures forall i :: 0 <= i < |hdds| ==>
      HddCleanups(vm, hdds)[2 * i] == UnregisterHDD(hdds[i]) &&
      HddCleanups(vm, hdds)[2 * i + 1] == UnmountHDD(vm, DriveLetters[i])
  {
    if hdds != [] {
      HddCleanupsAt(vm, hdds[..|hdds| - 1]);
    }
  }

  /** The cleanups of the `i`th disk: unregister it, then unmount drive `DriveLetters[i]`. */
  lemma {:induction false} HddCleanupAt(vm: string, hdds: seq<string>, i: nat)
    requires i < |hdds| <= |DriveLetters|
    ensures |HddCleanups(vm, hdds)| == 2 * |hdds|
    ensures HddCleanups(vm, hdds)[2 * i] == UnregisterHDD(hdds[i])
    ensures HddCleanups(vm, hdds)[2 * i + 1] == UnmountHDD(vm, DriveLetters[i])
    decreases |hdds|
  {
    var n := |hdds| - 1;
    if i < n {
      HddCleanupAt(vm, hdds[..n], i);
    } else if n > 0 {
      HddCleanupAt(vm, hdds[..n], 0);
    }
  }

  /** The order in which `atexit` runs what was registered: last registered first. */
  function Reverse<T>(s: seq<T>): (r: seq<T>)
    ensures |r| == |s|
  {
    if s == [] then [] else Reverse(s[1..]) + [s[0]]
  }

  /** Position `k` of the reversed sequence holds position `|s| - 1 - k` of `s`. */
  lemma {:induction false} ReverseAt<T>(s: seq<T>, k: nat)
    requires k < |s|
    ensures Reverse(s)[k] == s[|s| - 1 - k]
  {
    if k < |s| - 1 {
      ReverseAt(s[1..], k);
    }
  }

  /**
   * `atexit` runs the cleanups last-registered first: for every disk its unmount runs just
   * before its unregistering, and the VM is unregistered last.
   */
  lemma {:induction false} CleanupsRunLifo(vm: string, hdds: seq<string>)
    requires |hdds| <= |DriveLetters|
    ensures var run := Reverse([UnregisterVM(vm)] + HddCleanups(vm, hdds));
      |run| == 2 * |hdds| + 1 && run[2 * |hdds|] == UnregisterVM(vm) &&
      forall i :: 0 <= i < |hdds| ==>
        run[2 * (|hdds| - 1 - i)] == UnmountHDD(vm, DriveLetters[i]) &&
        run[2 * (|hdds| - 1 - i) + 1] == UnregisterHDD(hdds[i])
  {
    HddCleanupsAt(vm, hdds);
    var c := [UnregisterVM(vm)] + HddCleanups(vm, hdds);
    ReverseAt(c, 2 * |hdds|);
    forall i | 0 <= i < |hdds|
      ensures Reverse(c)[2 * (|hdds| - 1 - i)] == UnmountHDD(vm, DriveLetters[i])
      ensures Reverse(c)[2 * (|hdds| - 1 - i) + 1] == UnregisterHDD(hdds[i])
    {
      LifoAt(vm, hdds, i);
    }
  }

  /** The cleanups of disk `i` run in reverse at positions counted from the end. */
  lemma {:induction false} LifoAt(vm: string, hdds: seq<string>, i: nat)
    requires i < |hdds| <= |DriveLetters|
    ensures var c := [UnregisterVM(vm)] + HddCleanups(vm, hdds); var run := Reverse(c);
      |run| == 2 * |hdds| + 1 &&
      run[2 * (|hdds| - 1 - i)] == UnmountHDD(vm, DriveLetters[i]) &&
      run[2 * (|hdds| - 1 - i) + 1] == UnregisterHDD(hdds[i])
  {
    HddCleanupAt(vm, hdds, i);
    var c := [UnregisterVM(vm)] + HddCleanups(vm, hdds);
    var a := 2 * (|hdds| - 1 - i);
    ReverseAt(c, a);
    ReverseAt(c, a + 1);
    assert |c| - 1 - a == 2 * i + 2;
    assert c[2 * i + 2] == HddCleanups(vm, hdds)[2 * i + 1];
    assert c[2 * i + 1] == HddCleanups(vm, hdds)[2 * i];
  }

  /** The state of `main` after `i` disks have been registered and mounted. */
  predicate Mounted(settingsFile: string, hdds: seq<string>, rc: nat -> int, i: nat,
                    calls: seq<seq<string>>, cleanups: seq<Cleanup>)
  {
    i <= |hdds| <= |DriveLetters| &&
    calls == [Argv(["registervm", settingsFile])] + HddCalls(VmName(settingsFile), hdds[..i]) &&
    cleanups == [UnregisterVM(VmName(settingsFile))] + HddCleanups(VmName(settingsFile), hdds[..i]) &&
    forall k :: 0 <= k < |calls| ==> rc(k) == 0
  }

  /**
   * `main` gave up on the disks `disks` at a failing call: every call before it succeeded, and
   * the calls and cleanups so far are a prefix of those of a full run.
   */
  ghost predicate Abandoned(settingsFile: string, disks: seq<string>, rc: nat -> int,
                            calls: seq<seq<string>>, cleanups: seq<Cleanup>)
  {
    var vm := VmName(settingsFile);
    && |disks| <= |DriveLetters|
    && calls <= [Argv(["registervm", settingsFile])] + HddCalls(vm, disks) + [Argv(["startvm", vm])]
    && cleanups <= [UnregisterVM(vm)] + HddCleanups(vm, disks)
    && calls != [] && calls[0] == Argv(["registervm", settingsFile])
    && cleanups != [] && cleanups[0] == UnregisterVM(vm)
    && rc(|calls| - 1) != 0 && (forall k :: 0 <= k < |calls| - 1 ==> rc(k) == 0)
  }

  /** A call failing while disk `i` is registered or mounted abandons the run. */
  lemma {:induction false} AbandonedAt(settingsFile: string, disks: seq<string>, rc: nat -> int, i: nat,
                                       calls: seq<seq<string>>, cleanups: seq<Cleanup>)
    requires i < |disks| <= |DriveLetters|
    requires calls <= [Argv(["registervm", settingsFile])] + HddCalls(VmName(settingsFile), disks[..i + 1])
    requires cleanups <= [UnregisterVM(VmName(settingsFile))] + HddCleanups(VmName(settingsFile), disks[..i + 1])
    requires |calls| >= 2 && cleanups != [] && rc(|calls| - 1) != 0 && forall k :: 0 <= k < |calls| - 1 ==> rc(k) == 0
    ensures Abandoned(settingsFile, disks, rc, calls, cleanups)
  {
    var vm := VmName(settingsFile);
    PrefixGrows(calls, [Argv(["registervm", settingsFile])], HddCalls(vm, disks[..i + 1]),
                HddCalls(vm, disks), [Argv(["startvm", vm])], disks, i + 1, vm);
    HddCleanupsGrow(vm, disks, i + 1);
  }

  /** Registering and mounting disk `i` after `i` disks are mounted leaves `i + 1` mounted. */
  lemma MountedStep(settingsFile: string, disks: seq<string>, rc: nat -> int, i: nat,
                    calls: seq<seq<string>>, cleanups: seq<Cleanup>)
    requires i < |disks| && Mounted(settingsFile, disks, rc, i, calls, cleanups)
    requires rc(|calls|) == 0 && rc(|calls| + 1) == 0
    ensures Mounted(settingsFile, disks, rc, i + 1,
                    calls + [Argv(["registerimage", "disk", disks[i]]),
                             Argv(["modifyvm", VmName(settingsFile), "-hd" + [DriveLetters[i]], disks[i]])],
                    cleanups + [UnregisterHDD(disks[i]), UnmountHDD(VmName(settingsFile), DriveLetters[i])])
  {
    assert disks[..i + 1][..i] == disks[..i];
  }

  /** A failing `registerimage` for disk `i` abandons the run. */
  lemma RegisterFails(settingsFile: string, disks: seq<string>, rc: nat -> int, i: nat,
                      calls: seq<seq<string>>, cleanups: seq<Cleanup>)
    requires i < |disks| && Mounted(settingsFile, disks, rc, i, calls, cleanups)
    requires rc(|calls|) != 0
    ensures Abandoned(settingsFile, disks, rc, calls + [Argv(["registerimage", "disk", disks[i]])], cleanups)
  {
    assert disks[..i + 1][..i] == disks[..i];
    AbandonedAt(settingsFile, disks, rc, i, calls + [Argv(["registerimage", "disk", disks[i]])], cleanups);
  }

  /** A failing `modifyvm` for disk `i` abandons the run. */
  lemma MountFails(settingsFile: string, disks: seq<string>, rc: nat -> int, i: nat,
                   calls: seq<seq<string>>, cleanups: seq<Cleanup>)
    requires i < |disks| && Mounted(settingsFile, disks, rc, i, calls, cleanups)
    requires rc(|calls|) == 0 && rc(|calls| + 1) != 0
    ensures Abandoned(settingsFile, disks, rc,
                      calls + [Argv(["registerimage", "disk", disks[i]]),
                               Argv(["modifyvm", VmName(settingsFile), "-hd" + [DriveLetters[i]], disks[i]])],
                      cleanups + [UnregisterHDD(disks[i])])
  {
    assert disks[..i + 1][..i] == disks[..i];
    AbandonedAt(settingsFile, disks, rc, i,
                calls + [Argv(["registerimage", "disk", disks[i]]),
                         Argv(["modifyvm", VmName(settingsFile), "-hd" + [DriveLetters[i]], disks[i]])],
                cleanups + [UnregisterHDD(disks[i])]);
  }

  /**
   * One turn of the disk loop: register the disk `hdd` (the `i`th of `disks`, made absolute),
   * then mount it; a failing call ends `main`.
   */
  method MountOne(settingsFile: string, ghost disks: seq<string>, hdd: string, rc: nat -> int, i: nat,
                  calls: seq<seq<string>>, cleanups: seq<Cleanup>)
    returns (calls': seq<seq<string>>, cleanups': seq<Cleanup>, failed: bool)
    requires i < |disks| && hdd == disks[i] && Mounted(settingsFile, disks, rc, i, calls, cleanups)
    ensures cleanups <= cleanups'
    ensures !failed ==> Mounted(settingsFile, disks, rc, i + 1, calls', cleanups')
    ensures failed ==> Abandoned(settingsFile, disks, rc, calls', cleanups')
  {
    var vm := VmName(settingsFile);
    calls' := calls + [Argv(["registerimage", "disk", hdd])];
    if VBoxManage(rc(|calls|)).Some? {
      RegisterFails(settingsFile, disks, rc, i, calls, cleanups);
      return calls', cleanups, true;
    }
    cleanups' := cleanups + [UnregisterHDD(hdd)];
    var driveLetter := DriveLetters[i];
    calls' := calls' + [Argv(["modifyvm", vm, "-hd" + [driveLetter], hdd])];
    if VBoxManage(rc(|calls| + 1)).Some? {
      MountFails(settingsFile, disks, rc, i, calls, cleanups);
      return calls', cleanups', true;
    }
    MountedStep(settingsFile, disks, rc, i, calls, cleanups);
    cleanups' := cleanups' + [UnmountHDD(vm, driveLetter)];
    return calls', cleanups', false;
  }

  /**
   * What `main` has done once the settings file `settingsFile` exists, for the `-H` disks `disks`
   * made absolute (`None` without `-H`), with `states` the states `waitForVMShutdown` polls: the
   * VBoxManage calls it makes, the cleanups it leaves for exit, and how it ends.
   */
  ghost predicate Registered(settingsFile: string, disks: Option<seq<string>>, rc: nat -> int, states: seq<string>,
                             calls: seq<seq<string>>, cleanups: seq<Cleanup>, exit: Exit)
  {
    var vm := VmName(settingsFile);
    && calls != [] && calls[0] == Argv(["registervm", settingsFile])
    && (forall k :: 0 <= k < |calls| - 1 ==> rc(k) == 0)
    && (exit == Returned(1) <==> rc(|calls| - 1) != 0 || (disks.Some? && |disks.value| > |DriveLetters|))
    && (rc(0) != 0 ==> exit == Returned(1) && cleanups == [])
    && (rc(0) == 0 ==> cleanups != [] && cleanups[0] == UnregisterVM(vm))
    && (rc(0) == 0 && disks.None? ==> exit == Raised("TypeError") && |calls| == 1)
    && (rc(0) == 0 && disks.Some? && |disks.value| > |DriveLetters| ==>
         |calls| == 1 && cleanups == [UnregisterVM(vm)])
    && (disks.Some? && |disks.value| <= |DriveLetters| ==>
         calls <= [Argv(["registervm", settingsFile])] + HddCalls(vm, disks.value) + [Argv(["startvm", vm])] &&
         cleanups <= [UnregisterVM(vm)] + HddCleanups(vm, disks.value))
    && ((exit.Returned? && exit.status != 1) || exit.Waiting? ==>
         disks.Some? &&
         calls == [Argv(["registervm", settingsFile])] + HddCalls(vm, disks.value) + [Argv(["startvm", vm])] &&
         cleanups == [UnregisterVM(vm)] + HddCleanups(vm, disks.value))
    && (exit.Returned? && exit.status != 1 ==> exit.status == 0)
    && (exit == Returned(0) <==>
         rc(|calls| - 1) == 0 && |calls| >= 2 && calls[|calls| - 1] == Argv(["startvm", vm]) &&
         "powered off" in states)
  }

  /** The `-H` disks made absolute, if any were given. */
  function AbsHdds(hdds: Option<seq<string>>, cwd: string): Option<seq<string>> {
    if hdds.Some? then Some(AbsPaths(hdds.value, cwd)) else None
  }

  /**
   * `main` for the settings-file argument `settingsArg` and the `-H` disks `hdds`, run in the
   * working directory `cwd` with `fs` the paths that exist: a settings file that does not exist
   * is a usage error (`parser.error` exits with status 2) before anything is called; otherwise
   * the settings file and every disk are used by their absolute paths.
   */
  method RunMain(settingsArg: string, cwd: string, fs: set<string>, hdds: Option<seq<string>>,
                 rc: nat -> int, states: seq<string>)
    returns (calls: seq<seq<string>>, cleanups: seq<Cleanup>, exit: Exit)
    ensures Paths.AbsPath(settingsArg, cwd) !in fs ==> exit == Returned(2) && calls == [] && cleanups == []
    ensures (Paths.AbsPath(settingsArg, cwd) in fs ==>
      Registered(Paths.AbsPath(settingsArg, cwd), AbsHdds(hdds, cwd), rc, states, calls, cleanups, exit))
  {
    var settingsFile := Paths.AbsPath(settingsArg, cwd);
    if settingsFile !in fs {
      return [], [], Returned(2);
    }
    calls, cleanups, exit := Register(settingsFile, hdds, cwd, rc, states);
  }

  /** `main` from registering the existing settings file `settingsFile` on. */
  method Register(settingsFile: string, hdds: Option<seq<string>>, cwd: string, rc: nat -> int, states: seq<string>)
    returns (calls: seq<seq<string>>, cleanups: seq<Cleanup>, exit: Exit)
    ensures Registered(settingsFile, AbsHdds(hdds, cwd), rc, states, calls, cleanups, exit)
  {
    var vm := VmName(settingsFile);
    calls := [Argv(["registervm", settingsFile])];
    cleanups := [];
    if VBoxManage(rc(0)).Some? {
      return calls, cleanups, Returned(1);
    }
    cleanups := [UnregisterVM(vm)];
    if hdds.None? {
      return calls, cleanups, Raised("TypeError");
    }
    var raw := hdds.value;
    if |raw| > |DriveLetters| {
      return calls, cleanups, Returned(1);
    }
    ghost var disks := AbsPaths(raw, cwd);
    var failed;
    calls, cleanups, failed := MountDisks(settingsFile, raw, cwd, rc);
    if failed {
      AbandonedRegistered(settingsFile, disks, rc, states, calls, cleanups);
      return calls, cleanups, Returned(1);
    }
    assert disks[..|raw|] == disks;
    calls, cleanups, exit := StartAndWait(settingsFile, disks, rc, states, calls, cleanups);
  }

  /** A run abandoned while mounting the disks ends with status 1. */
  lemma {:induction false} AbandonedRegistered(settingsFile: string, disks: seq<string>, rc: nat -> int,
                                               states: seq<string>, calls: seq<seq<string>>, cleanups: seq<Cleanup>)
    requires rc(0) == 0 && Abandoned(settingsFile, disks, rc, calls, cleanups)
    ensures Registered(settingsFile, Some(disks), rc, states, calls, cleanups, Returned(1))
  {
  }

  /** With every disk mounted, `main` starts the VM and waits for it to power off. */
  method StartAndWait(settingsFile: string, ghost disks: seq<string>, rc: nat -> int, states: seq<string>,
                      calls: seq<seq<string>>, cleanups: seq<Cleanup>)
    returns (calls': seq<seq<string>>, cleanups': seq<Cleanup>, exit: Exit)
    requires Mounted(settingsFile, disks, rc, |disks|, calls, cleanups)
    ensures Registered(settingsFile, Some(disks), rc, states, calls', cleanups', exit)
  {
    var vm := VmName(settingsFile);
    assert disks[..|disks|] == disks;
    cleanups' := cleanups;
    calls' := calls + [Argv(["startvm", vm])];
    if VBoxManage(rc(|calls'| - 1)).Some? {
      return calls', cleanups', Returned(1);
    }
    var polls, done := WaitForVMShutdown(states);
    if !done {
      return calls', cleanups', Waiting;
    }
    return calls', cleanups', Returned(0);
  }

  /**
   * The loop over the `-H` disks `raw` once the VM is registered: each is made absolute,
   * registered and mounted in turn until a call fails.
   */
  method MountDisks(settingsFile: string, raw: seq<string>, cwd: string, rc: nat -> int)
    returns (calls: seq<seq<string>>, cleanups: seq<Cleanup>, failed: bool)
    requires |raw| <= |DriveLetters| && rc(0) == 0
    ensures !failed ==> Mounted(settingsFile, AbsPaths(raw, cwd), rc, |raw|, calls, cleanups)
    ensures failed ==> Abandoned(settingsFile, AbsPaths(raw, cwd), rc, calls, cleanups)
  {
    var vm := VmName(settingsFile);
    ghost var disks := AbsPaths(raw, cwd);
    calls := [Argv(["registervm", settingsFile])];
    cleanups := [UnregisterVM(vm)];
    var i := 0;
    assert disks[..0] == [];
    while i < |raw|
      invariant Mounted(settingsFile, disks, rc, i, calls, cleanups)
    {
      var hdd := Paths.AbsPath(raw[i], cwd);
      calls, cleanups, failed := MountOne(settingsFile, disks, hdd, rc, i, calls, cleanups);
      if failed {
        return;
      }
      i := i + 1;
    }
    assert disks[..i] == disks;
    failed := false;
  }

  /** The calls for the first disks come first among the calls for all of them. */
  lemma {:induction false} HddCallsGrow(vm: string, hdds: seq<string>, n: nat)
    requires n <= |hdds| <= |DriveLetters|
    ensures HddCalls(vm, hdds[..n]) <= HddCalls(vm, hdds)
    decreases |hdds| - n
  {
    if n < |hdds| {
      HddCallsGrow(vm, hdds, n + 1);
      assert hdds[..n + 1][..n] == hdds[..n];
    } else {
      assert hdds[..n] == hdds;
    }
  }

  lemma {:induction false} HddCleanupsGrow(vm: string, hdds: seq<string>, n: nat)
    requires n <= |hdds| <= |DriveLetters|
    ensures HddCleanups(vm, hdds[..n]) <= HddCleanups(vm, hdds)
    decreases |hdds| - n
  {
    if n < |hdds| {
      HddCleanupsGrow(vm, hdds, n + 1);
      assert hdds[..n + 1][..n] == hdds[..n];
    } else {
      assert hdds[..n] == hdds;
    }
  }

  lemma {:induction false} PrefixGrows(calls: seq<seq<string>>, head: seq<seq<string>>, part: seq<seq<string>>,
                    whole: seq<seq<string>>, tail: seq<seq<string>>, hdds: seq<string>, n: nat, vm: string)
    requires n <= |hdds| <= |DriveLetters| && part == HddCalls(vm, hdds[..n]) && whole == HddCalls(vm, hdds)
    requires calls <= head + part
    ensures calls <= head + whole + tail
  {
    HddCallsGrow(vm, hdds, n);
  }
}

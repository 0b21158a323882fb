/**
 * vm-do: run a command over ssh on every virtual machine listed in `~/.vms/config` that is
 * supposed to be up, and report per machine. Each section of the configuration is one machine;
 * the exit status and the output of the `k`th ssh call (a `run` command or `getOSVersion`) are
 * oracles.
 */
module VmDo {
  import opened Wrappers
  import opened Strings
  import opened ConfigParser

  // ------------------------------------------------------------------
  // VirtualMachine

  /** An option value: the types the defaults have. */
  datatype OptValue = BoolOpt(b: bool) | StrOpt(s: string)

  /** The options every machine starts with. */
  function Defaults(): (d: map<string, OptValue>)
    ensures d.Keys == {"up", "os", "sshCmd"}
  {
    map["up" := BoolOpt(true), "os" := StrOpt("unknown"), "sshCmd" := StrOpt("ssh")]
  }

  /** `ConfigParser.getboolean`: the accepted spellings, in any case. */
  function ParseBool(text: string): (r: Option<bool>)
    ensures r == Some(true) <==> Lower(text) in {"1", "yes", "true", "on"}
    ensures r == Some(false) <==> Lower(text) in {"0", "no", "false", "off"}
  {
    var v := Lower(text);
    if v in {"1", "yes", "true", "on"} then Some(true)
    else if v in {"0", "no", "false", "off"} then Some(false)
    else None
  }

  /** A configured text converted by the type of the option's default. */
  function Convert(default: OptValue, text: string): (r: Option<OptValue>)
    ensures r.Some? ==> r.value.BoolOpt? == default.BoolOpt?
    ensures default.StrOpt? ==> r == Some(StrOpt(text))
    ensures default.BoolOpt? ==> (r.None? <==> ParseBool(text).None?)
  {
    if default.BoolOpt? then
      match ParseBool(text)
      case Some(b) => Some(BoolOpt(b))
      case None => None
    else Some(StrOpt(text))
  }

  /**
   * What `config.options(section)` and `config.get(section, option)` see: the section's options
   * over those of the DEFAULT section, the section winning.
   */
  function Options(defaults: seq<(string, string)>, lines: seq<(string, string)>): (m: map<string, string>)
    ensures forall k :: k in m ==> Lower(k) == k
  {
    Dict(defaults) + Dict(lines)
  }

  /** Whether the section's "up" option is not a boolean (`getboolean` raises `ValueError`). */
  predicate BadUp(config: map<string, string>) {
    "up" in config && ParseBool(config["up"]).None?
  }

  /**
   * The options after reading a section as written: an option name the defaults have is
   * converted, any other is ignored. The names are compared as they are, so a default whose
   * name is not lower-case is never matched.
   */
  function Configured(config: map<string, string>): map<string, OptValue>
    requires !BadUp(config)
  {
    assert Lower("up") == "up";
    map k | k in Defaults() :: if k in config then Convert(Defaults()[k], config[k]).value else Defaults()[k]
  }

  /** Only the known options are there, each of its default's type, defaulted when unset. */
  lemma {:induction false} ConfiguredOptions(config: map<string, string>)
    requires !BadUp(config)
    ensures Configured(config).Keys == Defaults().Keys
    ensures forall k :: k in Defaults() ==> Configured(config)[k].BoolOpt? == Defaults()[k].BoolOpt?
    ensures forall k :: k in Defaults() && k !in config ==> Configured(config)[k] == Defaults()[k]
    ensures "up" in config ==> Configured(config)["up"] == BoolOpt(ParseBool(config["up"]).value)
    ensures "os" in config ==> Configured(config)["os"] == StrOpt(config["os"])
  {
  }

  /**
   * As written, the ssh command is never configurable: every option name `ConfigParser` gives
   * back is lower-case, and "sshCmd" is not, so the default "ssh" always stays.
   */
  lemma {:induction false} SshCmdNeverSet(defaults: seq<(string, string)>, lines: seq<(string, string)>)
    requires !BadUp(Options(defaults, lines))
    ensures Configured(Options(defaults, lines))["sshCmd"] == StrOpt("ssh")
  {
    assert Lower("sshCmd")[3] == 'c';
    assert "sshCmd" !in Options(defaults, lines);
  }

  /** "up" and "os" are matched in any case: a line "Up = no" turns the machine off. */
  lemma {:induction false} UpInAnyCase()
    ensures !BadUp(Options([], [("Up", "no")]))
    ensures Configured(Options([], [("Up", "no")]))["up"] == BoolOpt(false)
  {
    var lines := [("Up", "no")];
    assert lines[..0] == [];
    assert Lower("Up") == "up";
    assert Dict(lines) == map["up" := "no"];
    assert Lower("no") == "no";
    assert Options([], lines) == map["up" := "no"];
  }

  /**
   * The reading the defaults intend: each default is matched by its name lowercased, as
   * `optionxform` leaves the names in the configuration.
   */
  function ConfiguredIntended(config: map<string, string>): map<string, OptValue>
    requires !BadUp(config)
  {
    assert Lower("up") == "up";
    map k | k in Defaults() ::
      if Lower(k) in config then Convert(Defaults()[k], config[Lower(k)]).value else Defaults()[k]
  }

  /**
   * As intended, a "sshCmd" line in any case sets the ssh command, and "up" and "os" read as
   * they do as written.
   */
  lemma {:induction false} SshCmdConfigurable(config: map<string, string>)
    requires !BadUp(config)
    ensures "sshcmd" in config ==> ConfiguredIntended(config)["sshCmd"] == StrOpt(config["sshcmd"])
    ensures "sshcmd" !in config ==> ConfiguredIntended(config)["sshCmd"] == StrOpt("ssh")
    ensures ConfiguredIntended(config)["up"] == Configured(config)["up"]
    ensures ConfiguredIntended(config)["os"] == Configured(config)["os"]
  {
    LowerSshCmd();
    LowerUp();
    LowerOs();
  }

  lemma LowerSshCmd()
    ensures Lower("sshCmd") == "sshcmd"
  {
    assert Lower("sshCmd") == "ssh" + Lower("Cmd");
  }

  lemma LowerUp()
    ensures Lower("up") == "up"
  {
  }

  lemma LowerOs()
    ensures Lower("os") == "os"
  {
  }

  /**
   * The options once every option of `config` but those in `remaining` has been read: those
   * read are converted, the others keep their defaults.
   */
  function ReadSoFar(config: map<string, string>, remaining: set<string>): map<string, OptValue>
    requires "up" in remaining || !BadUp(config)
  {
    map k | k in Defaults() ::
      if k in config && k !in remaining then Convert(Defaults()[k], config[k]).value else Defaults()[k]
  }

  lemma {:induction false} ReadNone(config: map<string, string>)
    ensures ReadSoFar(config, config.Keys) == Defaults()
  {
  }

  /** Reading a known option converts it by its default's type. */
  lemma {:induction false} ReadStep(config: map<string, string>, remaining: set<string>, option: string)
    requires option in remaining && option in Defaults() && option in config
    requires "up" in remaining || !BadUp(config)
    requires Convert(ReadSoFar(config, remaining)[option], config[option]).Some?
    ensures "up" in remaining - {option} || !BadUp(config)
    ensures ReadSoFar(config, remaining - {option}) ==
      ReadSoFar(config, remaining)[option := Convert(ReadSoFar(config, remaining)[option], config[option]).value]
  {
  }

  /** An option the defaults do not have is ignored. */
  lemma {:induction false} ReadSkip(config: map<string, string>, remaining: set<string>, option: string)
    requires option in remaining && option !in Defaults()
    requires "up" in remaining || !BadUp(config)
    ensures "up" in remaining - {option} || !BadUp(config)
    ensures ReadSoFar(config, remaining - {option}) == ReadSoFar(config, remaining)
  {
  }

  /** Only a value of "up" that is not a boolean fails to convert. */
  lemma {:induction false} ReadFails(config: map<string, string>, remaining: set<string>, option: string)
    requires option in remaining && option in Defaults() && option in config
    requires "up" in remaining || !BadUp(config)
    requires Convert(ReadSoFar(config, remaining)[option], config[option]).None?
    ensures BadUp(config)
  {
  }

  /** What `runCmd` and `getOS` use of a machine. */
  datatype Host = Host(name: string, hostname: string, up: bool, sshCmd: string)

  class VirtualMachine {
    var name: string
    var hostname: string
    var options: map<string, OptValue>

    predicate Valid()
      reads this
    {
      options.Keys == Defaults().Keys &&
      options["up"].BoolOpt? && options["os"].StrOpt? && options["sshCmd"].StrOpt?
    }

    /** `__init__` up to reading the options: the name and the hostname are the section's. */
    constructor(section: string)
      ensures name == section && hostname == section && options == map[]
    {
      name := section;
      hostname := section;
      options := map[];
    }

    /**
     * `_readOptions`: start from the defaults, then convert each option `ConfigParser` gives for
     * the section (its own lines and those of the DEFAULT section).
     */
    method ReadOptions(defaults: seq<(string, string)>, lines: seq<(string, string)>) returns (err: Option<string>)
      modifies this
      ensures name == old(name) && hostname == old(hostname)
      ensures err.Some? <==> BadUp(Options(defaults, lines))
      ensures err.None? ==> options == Configured(Options(defaults, lines)) && Valid()
    {
      var config := Options(defaults, lines);
      options := Defaults();
      var remaining := config.Keys;
      ReadNone(config);
      while remaining != {}
        invariant remaining <= config.Keys && name == old(name) && hostname == old(hostname)
        invariant "up" in remaining || !BadUp(config)
        invariant options == ReadSoFar(config, remaining)
        decreases remaining
      {
        var option :| option in remaining;
        if option in options {
          var value := Convert(options[option], config[option]);
          if value.None? {
            ReadFails(config, remaining, option);
            return Some("ValueError");
          }
          ReadStep(config, remaining, option);
          options := options[option := value.value];
        } else {
          ReadSkip(config, remaining, option);
        }
        remaining := remaining - {option};
      }
      assert options == Configured(config);
      return None;
    }

    function Describe(): (h: Host)
      reads this
      requires Valid()
      ensures h.name == name && h.hostname == hostname
    {
      Host(name, hostname, options["up"].b, options["sshCmd"].s)
    }
  }

  /** A machine for each section of the configuration, or the error reading its options. */
  method NewVirtualMachine(section: string, defaults: seq<(string, string)>, lines: seq<(string, string)>)
    returns (r: Result<VirtualMachine>)
    ensures r.Err? <==> BadUp(Options(defaults, lines))
    ensures (r.Ok? ==>
      fresh(r.value) && r.value.Valid() && r.value.name == section && r.value.hostname == section &&
      r.value.options == Configured(Options(defaults, lines)))
  {
    var vm := new VirtualMachine(section);
    var err := vm.ReadOptions(defaults, lines);
    if err.Some? {
      return Err(err.value);
    }
    return Ok(vm);
  }

  // ------------------------------------------------------------------
  // runCmd and getOS

  /** The command line that runs `args` on a machine. */
  function SshArgv(h: Host, args: seq<string>): (argv: seq<string>)
    ensures |argv| == |args| + 4 && argv[..4] == [h.sshCmd, "-o", "BatchMode yes", h.hostname] && argv[4..] == args
  {
    [h.sshCmd, "-o", "BatchMode yes", h.hostname] + args
  }

  /** The machines that are supposed to be up, in order. */
  function UpHosts(hosts: seq<Host>): (r: seq<Host>)
    ensures |r| <= |hosts|
  {
    if hosts == [] then []
    else UpHosts(hosts[..|hosts| - 1]) + (if hosts[|hosts| - 1].up then [hosts[|hosts| - 1]] else [])
  }

  lemma {:induction false} UpHostsMembers(hosts: seq<Host>)
    ensures forall h :: h in UpHosts(hosts) <==> h in hosts && h.up
  {
    if hosts != [] {
      var init := hosts[..|hosts| - 1];
      UpHostsMembers(init);
      assert hosts == init + [hosts[|hosts| - 1]];
    }
  }

  lemma {:induction false} UpHostsPrefix(hosts: seq<Host>, n: nat)
    requires n <= |hosts|
    ensures UpHosts(hosts[..n]) <= UpHosts(hosts)
    decreases |hosts| - n
  {
    if n < |hosts| {
      UpHostsPrefix(hosts, n + 1);
      assert hosts[..n + 1][..n] == hosts[..n];
    } else {
      assert hosts[..n] == hosts;
    }
  }

  /** The options of `runCmd`: `-c`, `-C`, `-e`, and `-p` (on unless `-H` turns it off). */
  datatype Flags = Flags(check: bool, reverseCheck: bool, exitOnError: bool, printHostname: bool)

  /** Whether the machine's name is printed for an ssh status. */
  predicate Reports(status: int, flags: Flags) {
    (status == 0 && flags.check) || (status != 0 && flags.reverseCheck)
  }

  /** Whether an ssh status makes `runCmd` exit. */
  predicate Stops(status: int, flags: Flags) {
    status != 0 && !flags.reverseCheck && flags.exitOnError
  }

  /** The line break `print` ends a line with, and what `-p` puts after the name. */
  const Newline: string := "\n"
  const NameSep: string := ": "

  /** The line printed before `runCmd` exits on a machine whose command failed. */
  function FailureMessage(name: string, status: int): string {
    "Command failed on " + name + " (status = " + IntToString(status) + ")"
  }

  /**
   * What `runCmd` writes to standard output for one machine whose command printed `out` and
   * exited with `status`: the "name: " prefix under `-p`, the command's own output, the newline
   * of the bare `print`, then the name under `-c`/`-C` and the failure message under `-e`.
   */
  function TurnText(vm: Host, out: string, status: int, flags: Flags): string {
    HostPrefix(vm, flags) + out + Newline + TurnTail(vm, status, flags)
  }

  /** What a turn prints after the command's output: the name as `-c`/`-C` ask, or the failure message. */
  function TurnTail(vm: Host, status: int, flags: Flags): string {
    (if Reports(status, flags) then vm.name + Newline else "")
    + (if Stops(status, flags) then FailureMessage(vm.name, status) + Newline else "")
  }

  /** What `-p` prints before a machine's output. */
  function HostPrefix(vm: Host, flags: Flags): string {
    if flags.printHostname then vm.name + NameSep else ""
  }

  /**
   * Read back line by line, one machine's text is its (prefixed) output, the name when it is
   * reported, the failure message when it stops the run, and nothing after the last newline,
   * provided neither the name nor the output holds a newline.
   */
  lemma TurnLines(vm: Host, out: string, status: int, flags: Flags)
    requires '\n' !in vm.name && '\n' !in out
    ensures Split(TurnText(vm, out, status, flags), '\n') ==
      [HostPrefix(vm, flags) + out]
      + (if Reports(status, flags) then [vm.name] else [])
      + (if Stops(status, flags) then [FailureMessage(vm.name, status)] else [])
      + [""]
  {
    assert '\n' !in NameSep;
    if Reports(status, flags) {
      assert !Stops(status, flags);
      ReportedLines(vm, out, status, flags);
    } else if Stops(status, flags) {
      StoppedLines(vm, out, status, flags);
    } else {
      assert TurnText(vm, out, status, flags) == HostPrefix(vm, flags) + out + Newline + "";
      SplitLine(HostPrefix(vm, flags) + out, "");
    }
  }

  lemma ReportedLines(vm: Host, out: string, status: int, flags: Flags)
    requires '\n' !in vm.name && '\n' !in out && '\n' !in NameSep
    requires Reports(status, flags) && !Stops(status, flags)
    ensures Split(TurnText(vm, out, status, flags), '\n') == [HostPrefix(vm, flags) + out] + [vm.name] + [""]
  {
    var first := HostPrefix(vm, flags) + out;
    assert TurnText(vm, out, status, flags) == first + Newline + (vm.name + Newline + "");
    SplitLine(first, vm.name + Newline + "");
    SplitLine(vm.name, "");
  }

  lemma StoppedLines(vm: Host, out: string, status: int, flags: Flags)
    requires '\n' !in vm.name && '\n' !in out && '\n' !in NameSep
    requires Stops(status, flags)
    ensures Split(TurnText(vm, out, status, flags), '\n') == [HostPrefix(vm, flags) + out] + [FailureMessage(vm.name, status)] + [""]
  {
    var first := HostPrefix(vm, flags) + out;
    var msg := FailureMessage(vm.name, status);
    FailureMessageLine(vm.name, status);
    assert TurnText(vm, out, status, flags) == first + Newline + (msg + Newline + "");
    SplitLine(first, msg + Newline + "");
    SplitLine(msg, "");
  }

  /** A line followed by a line break is the first piece of a split. */
  lemma SplitLine(line: string, rest: string)
    requires '\n' !in line
    ensures Split(line + Newline + rest, '\n') == [line] + Split(rest, '\n')
  {
    assert line + Newline + rest == line + ['\n'] + rest;
    SplitCons(line, rest, '\n');
  }

  /** The failure message is one line when the name is. */
  lemma FailureMessageLine(name: string, status: int)
    requires '\n' !in name
    ensures '\n' !in FailureMessage(name, status)
  {
    IntToStringDigits(status);
  }

  /** The text printed for the first `|run|` machines run on (the `k`th printing `output(k)` and exiting with `status(k)`). */
  function Printed(run: seq<Host>, status: nat -> int, output: nat -> string, flags: Flags): string {
    if run == [] then ""
    else
      var k := |run| - 1;
      Printed(run[..k], status, output, flags) + TurnText(run[k], output(k), status(k), flags)
  }
  /** A run that `runCmd` exits from ends its output with the failure message of the last machine. */
  lemma PrintedEndsWithFailure(run: seq<Host>, status: nat -> int, output: nat -> string, flags: Flags)
    requires run != [] && Stops(status(|run| - 1), flags)
    ensures var k := |run| - 1; EndsWith(Printed(run, status, output, flags), FailureMessage(run[k].name, status(k)) + Newline)
  {
    var k := |run| - 1;
    var tail := FailureMessage(run[k].name, status(k)) + Newline;
    assert !Reports(status(k), flags);
    assert TurnTail(run[k], status(k), flags) == tail;
    var head := Printed(run[..k], status, output, flags) + (HostPrefix(run[k], flags) + output(k) + Newline);
    assert Printed(run, status, output, flags) == head + tail;
  }


  lemma PrintedSnoc(run: seq<Host>, vm: Host, status: nat -> int, output: nat -> string, flags: Flags)
    ensures Printed(run + [vm], status, output, flags) ==
      Printed(run, status, output, flags) + TurnText(vm, output(|run|), status(|run|), flags)
  {
    assert (run + [vm])[..|run|] == run;
  }


  function Argvs(run: seq<Host>, args: seq<string>): (r: seq<seq<string>>)
    ensures |r| == |run| && forall k :: 0 <= k < |run| ==> r[k] == SshArgv(run[k], args)
  {
    seq(|run|, k requires 0 <= k < |run| => SshArgv(run[k], args))
  }

  predicate Ran(hosts: seq<Host>, args: seq<string>, status: nat -> int, output: nat -> string, flags: Flags,
                i: nat, ran: seq<seq<string>>, printed: string)
    requires i <= |hosts|
  {
    var run := UpHosts(hosts[..i]);
    ran == Argvs(run, args) && printed == Printed(run, status, output, flags) &&
    forall k :: 0 <= k < |run| ==> !Stops(status(k), flags)
  }

  /**
   * What one turn of `runCmd` prints around the command's output `out` for a machine whose
   * command exits with `status`, and the status it then exits with, if it does.
   */
  method Report(vm: Host, out: string, status: int, flags: Flags) returns (text: string, stop: Option<int>)
    ensures text == TurnText(vm, out, status, flags)
    ensures stop.Some? <==> Stops(status, flags)
    ensures stop.Some? ==> stop.value == status
  {
    text := "";
    if flags.printHostname {
      text := vm.name + NameSep;
    }
    text := text + out + Newline;
    ghost var head := text;
    assert head == HostPrefix(vm, flags) + out + Newline;
    stop := None;
    if status == 0 {
      if flags.check {
        text := text + vm.name + Newline;
        assert TurnTail(vm, status, flags) == vm.name + Newline;
      } else {
        assert TurnTail(vm, status, flags) == "";
      }
    } else if flags.reverseCheck {
      text := text + vm.name + Newline;
      assert TurnTail(vm, status, flags) == vm.name + Newline;
    } else if flags.exitOnError {
      text := text + FailureMessage(vm.name, status) + Newline;
      stop := Some(status);
      assert TurnTail(vm, status, flags) == FailureMessage(vm.name, status) + Newline;
    } else {
      assert TurnTail(vm, status, flags) == "";
    }
    assert text == head + TurnTail(vm, status, flags);
  }


  /**
   * One turn of the `runCmd` loop, on machine `i`; `stop` is the status `runCmd` exits with.
   * The command's output is `output(k)` and its status `status(k)` for the `k`th machine run on.
   */
  method RunOne(hosts: seq<Host>, flags: Flags, args: seq<string>, status: nat -> int, output: nat -> string,
                i: nat, ran: seq<seq<string>>, printed: string)
    returns (ran': seq<seq<string>>, printed': string, stop: Option<int>)
    requires i < |hosts| && Ran(hosts, args, status, output, flags, i, ran, printed)
    ensures stop.None? ==> Ran(hosts, args, status, output, flags, i + 1, ran', printed')
    ensures (stop.Some? ==>
      var run := UpHosts(hosts[..i + 1]);
      ran' == Argvs(run, args) && printed' == Printed(run, status, output, flags) && |run| >= 1 &&
      (forall k :: 0 <= k < |run| - 1 ==> !Stops(status(k), flags)) &&
      Stops(status(|run| - 1), flags) && stop.value == status(|run| - 1))
  {
    assert hosts[..i + 1][..i] == hosts[..i];
    assert hosts[..i + 1][i] == hosts[i];
    var vm := hosts[i];
    var run := UpHosts(hosts[..i]);
    assert UpHosts(hosts[..i + 1]) == run + (if vm.up then [vm] else []);
    assert |ran| == |run|;
    ran', printed', stop := ran, printed, None;
    if vm.up {
      var k := |ran|;
      ran' := ran + [SshArgv(vm, args)];
      var text;
      text, stop := Report(vm, output(k), status(k), flags);
      printed' := printed + text;
      PrintedSnoc(run, vm, status, output, flags);
    } else {
      assert run + [] == run;
    }
  }

  /**
   * `runCmd`: the ssh command lines it runs, the text it prints, and the status it exits with
   * (`None` when it goes through every machine).
   */
  method RunCmd(hosts: seq<Host>, flags: Flags, args: seq<string>, status: nat -> int, output: nat -> string)
    returns (ran: seq<seq<string>>, printed: string, exit: Option<int>)
    ensures |ran| <= |UpHosts(hosts)|
    ensures ran == Argvs(UpHosts(hosts)[..|ran|], args)
    ensures printed == Printed(UpHosts(hosts)[..|ran|], status, output, flags)
    ensures forall k :: 0 <= k < |ran| - 1 ==> !Stops(status(k), flags)
    ensures exit.Some? <==> |ran| > 0 && Stops(status(|ran| - 1), flags)
    ensures exit.Some? ==> exit.value == status(|ran| - 1)
    ensures exit.None? ==> |ran| == |UpHosts(hosts)|
  {
    ran, printed := [], "";
    var i := 0;
    assert hosts[..0] == [];
    while i < |hosts|
      invariant i <= |hosts| && Ran(hosts, args, status, output, flags, i, ran, printed)
    {
      ran, printed, exit := RunOne(hosts, flags, args, status, output, i, ran, printed);
      if exit.Some? {
        UpHostsPrefix(hosts, i + 1);
        assert UpHosts(hosts)[..|ran|] == UpHosts(hosts[..i + 1]);
        return;
      }
      i := i + 1;
    }
    assert hosts[..i] == hosts;
    assert UpHosts(hosts)[..|ran|] == UpHosts(hosts);
    return ran, printed, None;
  }

  /** `getOS`: one line "name: version" per machine that is up, in order. */
  method GetOS(hosts: seq<Host>, output: nat -> string) returns (ran: seq<seq<string>>, lines: seq<string>)
    ensures ran == Argvs(UpHosts(hosts), ["cat", "/etc/fedora-release"])
    ensures |lines| == |UpHosts(hosts)|
    ensures forall k :: 0 <= k < |lines| ==> lines[k] == UpHosts(hosts)[k].name + ": " + output(k)
  {
    ran, lines := [], [];
    var i := 0;
    assert hosts[..0] == [];
    while i < |hosts|
      invariant i <= |hosts| && ran == Argvs(UpHosts(hosts[..i]), ["cat", "/etc/fedora-release"])
      invariant |lines| == |UpHosts(hosts[..i])|
      invariant forall k :: 0 <= k < |lines| ==> lines[k] == UpHosts(hosts[..i])[k].name + ": " + output(k)
    {
      assert hosts[..i + 1][..i] == hosts[..i];
      var vm := hosts[i];
      if vm.up {
        ran := ran + [SshArgv(vm, ["cat", "/etc/fedora-release"])];
        lines := lines + [vm.name + ": " + output(|lines|)];
      }
      i := i + 1;
    }
    assert hosts[..i] == hosts;
  }

  // ------------------------------------------------------------------
  // The command line

  datatype Command = Run(args: seq<string>) | GetOSVersion(args: seq<string>)

  /** The command named by the first argument; a missing or unknown one is a usage error. */
  function ParseCommand(args: seq<string>): (r: Result<Command>)
    ensures r.Err? <==> args == [] || args[0] !in {"run", "getOS"}
    ensures r.Ok? ==> (r.value.Run? <==> args[0] == "run") && r.value.args == args[1..]
  {
    if args == [] then Err("Missing command.")
    else if args[0] == "run" then Ok(Run(args[1..]))
    else if args[0] == "getOS" then Ok(GetOSVersion(args[1..]))
    else Err("Unknown command \"" + args[0] + "\".")
  }

  /**
   * The status a run over the machines `k` to `n - 1` (the `j`th getting `status(j)`) ends with:
   * that of the first one that makes `runCmd` stop, or 0 when none does.
   */
  function FirstStop(status: nat -> int, flags: Flags, k: nat, n: nat): int
    decreases n - k
  {
    if k >= n then 0
    else if Stops(status(k), flags) then status(k)
    else FirstStop(status, flags, k + 1, n)
  }

  /** Machines that do not stop the run can be skipped over. */
  lemma {:induction false} FirstStopSkips(status: nat -> int, flags: Flags, k: nat, m: nat, n: nat)
    requires k <= m <= n
    requires forall j :: k <= j < m ==> !Stops(status(j), flags)
    ensures FirstStop(status, flags, k, n) == FirstStop(status, flags, m, n)
    decreases m - k
  {
    if k < m {
      FirstStopSkips(status, flags, k + 1, m, n);
    }
  }

  /**
   * The main block once the machines are read: the exit status is 2 for a usage error, the
   * status of the first machine that makes `runCmd` stop, and 0 otherwise.
   */
  method RunMain(hosts: seq<Host>, flags: Flags, args: seq<string>, status: nat -> int, output: nat -> string)
    returns (exitStatus: int)
    ensures ParseCommand(args).Err? ==> exitStatus == 2
    ensures ParseCommand(args).Ok? && ParseCommand(args).value.GetOSVersion? ==> exitStatus == 0
    ensures (ParseCommand(args).Ok? && ParseCommand(args).value.Run? ==>
      exitStatus == FirstStop(status, flags, 0, |UpHosts(hosts)|))
  {
    var command := ParseCommand(args);
    if command.Err? {
      return 2;
    }
    match command.value
    case Run(cmdArgs) =>
      var ran, printed, exit := RunCmd(hosts, flags, cmdArgs, status, output);
      if exit.Some? {
        FirstStopSkips(status, flags, 0, |ran| - 1, |UpHosts(hosts)|);
        return exit.value;
      }
      FirstStopSkips(status, flags, 0, |ran|, |UpHosts(hosts)|);
      return 0;
    case GetOSVersion(cmdArgs) =>
      var ran, lines := GetOS(hosts, output);
      return 0;
  }
}

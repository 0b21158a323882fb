/**
 * networkwatcher: find the SSID the Mac is connected to (from the output of `airport -I`) and
 * run the actions configured for that network: a command, and a default printer.
 */
module NetworkWatcher {
  import opened Wrappers
  import opened Strings
  import ConfigParser

  // ------------------------------------------------------------------
  // getNetworkParams

  /** Whether the first whitespace field of `line` is `tag`. */
  predicate Tagged(line: string, tag: string) {
    var w := Words(line); w != [] && w[0] == tag
  }

  /** A line that makes the loop raise `IndexError`: no field at all, or a tag without a value. */
  predicate BadLine(line: string) {
    var w := Words(line);
    w == [] || ((w[0] == "SSID:" || w[0] == "BSSID:") && |w| < 2)
  }

  /** One turn of the `getNetworkParams` loop. */
  function Step(params: map<string, string>, line: string): (r: Result<map<string, string>>)
    ensures r.Err? <==> BadLine(line)
  {
    var w := Words(line);
    if w == [] then Err("IndexError")
    else if w[0] == "SSID:" then
      if |w| < 2 then Err("IndexError") else Ok(params["ssid" := w[1]])
    else if w[0] == "BSSID:" then
      if |w| < 2 then Err("IndexError") else Ok(params["bssid" := w[1]])
    else Ok(params)
  }

  /** The dictionary `getNetworkParams` builds from the first `|lines|` lines it reads. */
  function Params(lines: seq<string>): Result<map<string, string>> {
    if lines == [] then Ok(map[])
    else
      var p := Params(lines[..|lines| - 1]);
      if p.Err? then p else Step(p.value, lines[|lines| - 1])
  }

  /**
   * `getNetworkParams` over the lines `airport -I` prints (each read with its newline; the
   * empty read that ends the loop is the end of `lines`).
   */
  method GetNetworkParams(lines: seq<string>) returns (r: Result<map<string, string>>)
    ensures r == Params(lines)
  {
    var params: map<string, string> := map[];
    var i := 0;
    while i < |lines|
      invariant i <= |lines| && Params(lines[..i]) == Ok(params)
    {
      assert lines[..i + 1][..i] == lines[..i];
      var components := Words(lines[i]);
      if components == [] {
        ParamsErrSticks(lines, i + 1);
        return Err("IndexError");
      }
      if components[0] == "SSID:" {
        if |components| < 2 {
          ParamsErrSticks(lines, i + 1);
          return Err("IndexError");
        }
        params := params["ssid" := components[1]];
      } else if components[0] == "BSSID:" {
        if |components| < 2 {
          ParamsErrSticks(lines, i + 1);
          return Err("IndexError");
        }
        params := params["bssid" := components[1]];
      }
      i := i + 1;
    }
    assert lines[..i] == lines;
    return Ok(params);
  }

  /** Once a line has failed, the lines after it are not read. */
  lemma {:induction false} ParamsErrSticks(lines: seq<string>, n: nat)
    requires n <= |lines| && Params(lines[..n]).Err?
    ensures Params(lines) == Params(lines[..n])
    decreases |lines| - n
  {
    if n < |lines| {
      assert lines[..n + 1][..n] == lines[..n];
      ParamsErrSticks(lines, n + 1);
    } else {
      assert lines[..n] == lines;
    }
  }

  /** The loop fails exactly when one of the lines has no field or a tag without a value. */
  lemma {:induction false} ParamsErr(lines: seq<string>)
    ensures Params(lines).Err? <==> exists i :: 0 <= i < |lines| && BadLine(lines[i])
  {
    if lines != [] {
      var init := lines[..|lines| - 1];
      ParamsErr(init);
      assert forall i :: 0 <= i < |init| ==> init[i] == lines[i];
    }
  }

  /** Only the two keys are ever set. */
  lemma {:induction false} ParamsKeys(lines: seq<string>)
    requires Params(lines).Ok?
    ensures Params(lines).value.Keys <= {"ssid", "bssid"}
  {
    if lines != [] {
      ParamsKeys(lines[..|lines| - 1]);
    }
  }

  /**
   * "ssid" is set iff some line starts with "SSID:", and then it is the second field of the last
   * such line: later lines overwrite earlier ones, and only one field is kept.
   */
  lemma {:induction false} ParamsSsid(lines: seq<string>)
    requires Params(lines).Ok?
    ensures "ssid" in Params(lines).value <==> exists i :: 0 <= i < |lines| && Tagged(lines[i], "SSID:")
    ensures "ssid" in Params(lines).value ==>
      exists i :: 0 <= i < |lines| && Tagged(lines[i], "SSID:") && |Words(lines[i])| >= 2 &&
        Params(lines).value["ssid"] == Words(lines[i])[1] &&
        forall j :: i < j < |lines| ==> !Tagged(lines[j], "SSID:")
  {
    ParamsSsidSet(lines);
    if "ssid" in Params(lines).value {
      var _ := ParamsSsidLast(lines);
    }
  }

  /** "ssid" is set iff some line starts with "SSID:". */
  lemma {:induction false} ParamsSsidSet(lines: seq<string>)
    requires Params(lines).Ok?
    ensures "ssid" in Params(lines).value <==> exists i :: 0 <= i < |lines| && Tagged(lines[i], "SSID:")
  {
    if lines != [] {
      var init := lines[..|lines| - 1];
      ParamsSsidSet(init);
      assert forall i :: 0 <= i < |init| ==> init[i] == lines[i];
      assert Tagged(lines[|lines| - 1], "SSID:") ==> "ssid" in Params(lines).value;
    }
  }

  /** A set "ssid" is the second field of the last line that starts with "SSID:". */
  lemma {:induction false} ParamsSsidLast(lines: seq<string>) returns (i: nat)
    requires Params(lines).Ok? && "ssid" in Params(lines).value
    ensures i < |lines| && Tagged(lines[i], "SSID:") && |Words(lines[i])| >= 2 &&
      Params(lines).value["ssid"] == Words(lines[i])[1] &&
      forall j :: i < j < |lines| ==> !Tagged(lines[j], "SSID:")
  {
    var init := lines[..|lines| - 1];
    var last := lines[|lines| - 1];
    if Tagged(last, "SSID:") {
      i := |lines| - 1;
    } else {
      i := ParamsSsidLast(init);
      forall j | i < j < |lines|
        ensures !Tagged(lines[j], "SSID:")
      {
        if j < |init| {
          assert lines[j] == init[j];
        }
      }
    }
  }

  /** An SSID with a space in it is cut at the space. */
  lemma {:induction false} SsidTruncated(first: string, rest: string)
    requires first != [] && NoSpace(first)
    ensures Params(["SSID:" + (" " + (first + (" " + rest)))]) == Ok(map["ssid" := first])
  {
    var line := "SSID:" + (" " + (first + (" " + rest)));
    WordsCons("SSID:", first + (" " + rest));
    WordsCons(first, rest);
    assert [line][..0] == [];
  }

  // ------------------------------------------------------------------
  // The main block

  /** The printer name with every " " and then every "." turned into "_". */
  function Sanitize(printer: string): (r: string)
    ensures |r| == |printer| && ' ' !in r && '.' !in r
    ensures forall i :: 0 <= i < |printer| ==>
      r[i] == if printer[i] == ' ' || printer[i] == '.' then '_' else printer[i]
  {
    ReplaceChar(ReplaceChar(printer, ' ', '_'), '.', '_')
  }

  /** A SafeConfigParser `get` inside `try ... except: pass`, as a list of at most one value. */
  function Setting(config: ConfigParser.Config, section: string, name: string): seq<string> {
    match ConfigParser.SafeGet(config, section, name)
    case Ok(v) => [v]
    case Err(_) => []
  }

  /** The two options a network's section may set. */
  const CmdOption := "cmd"
  const PrinterOption := "printer"

  /**
   * The main block after reading the configuration: the shell commands it runs, in order, or
   * the error that ends it. The network's section must be one of the file's; its `cmd` and
   * `printer` are read with `get`, so they may come from DEFAULT, and one whose interpolation
   * raises is skipped like a missing one.
   */
  method Act(params: Result<map<string, string>>, config: ConfigParser.Config)
    returns (r: Result<seq<string>>)
    ensures r.Err? <==> params.Err? || "ssid" !in params.value
    ensures (r.Ok? && r.value != [] ==>
      params.value["ssid"] != [] && params.value["ssid"] in config.sections)
    ensures (r.Ok? && params.value["ssid"] != [] && params.value["ssid"] in config.sections ==>
      var ssid := params.value["ssid"];
      r.value == Setting(config, ssid, CmdOption) +
        (if Setting(config, ssid, PrinterOption) != [] then ["lpoptions -d " + Sanitize(Setting(config, ssid, PrinterOption)[0])] else []))
  {
    if params.Err? {
      return Err(params.msg);
    }
    if "ssid" !in params.value {
      return Err("KeyError");
    }
    var ssid := params.value["ssid"];
    if ssid == [] || ssid !in config.sections {
      return Ok([]);
    }
    var cmds := Setting(config, ssid, CmdOption);
    var printer := Setting(config, ssid, PrinterOption);
    if printer != [] {
      var name := Sanitize(printer[0]);
      cmds := cmds + ["lpoptions -d " + name];
    }
    return Ok(cmds);
  }

  /**
   * How `get` reads the `cmd` of a known network: a `cmd` under DEFAULT applies when the
   * network's section sets none, "%%" stands for '%', and a `cmd` with a lone '%' (such as
   * "date +%H") is not run at all.
   */
  lemma {:induction false} CmdAsRead(ssid: string, c: string, pre: string, post: string)
    requires '%' !in c && '%' !in pre && (post == [] || (post[0] != '%' && post[0] != '('))
    ensures Setting(ConfigParser.Config([("cmd", c)], map[ssid := []]), ssid, "cmd") == [c]
    ensures Setting(ConfigParser.Config([], map[ssid := [("cmd", ConfigParser.Escape(pre + "%" + post))]]), ssid, "cmd")
      == [pre + "%" + post]
    ensures Setting(ConfigParser.Config([], map[ssid := [("cmd", pre + "%" + post)]]), ssid, "cmd") == []
  {
    LowerCmd();
    var inherited := ConfigParser.Config([("cmd", c)], map[ssid := []]);
    ConfigParser.GetAnyCase(ssid, "cmd", "cmd", c, c);
    ConfigParser.SafeGetValue(inherited, ssid, "cmd");
    var text := pre + "%" + post;
    var escaped := ConfigParser.Config([], map[ssid := [("cmd", ConfigParser.Escape(text))]]);
    ConfigParser.GetAnyCase(ssid, "cmd", "cmd", ConfigParser.Escape(text), c);
    ConfigParser.SafeGetValue(escaped, ssid, "cmd");
    var lone := ConfigParser.Config([], map[ssid := [("cmd", text)]]);
    ConfigParser.GetAnyCase(ssid, "cmd", "cmd", text, c);
    assert text[..|pre|] == pre;
    ConfigParser.SafeGetLonePercent(lone, ssid, "cmd", |pre|);
  }

  lemma LowerCmd()
    ensures Lower("cmd") == "cmd"
  {
  }
}

/**
 * majordomo-approver: the per-list configuration lookups and the list object that queues
 * majordomo commands and assembles them into the body of the mail sent to the server.
 */
module Majordomo {
  import opened Wrappers
  import opened Strings
  import ConfigParser

  // ------------------------------------------------------------------
  // MajordomoConfig

  /**
   * A SafeConfigParser `get` inside `try ... except: pass`: the value, or None when it raised
   * (an unknown section, a missing option, or a value whose interpolation fails).
   */
  function Lookup(cfg: ConfigParser.Config, section: string, option: string): Option<string> {
    match ConfigParser.SafeGet(cfg, section, option)
    case Ok(v) => Some(v)
    case Err(_) => None
  }

  /** `(listName, domainName) = listAddr.split("@")`: a ValueError unless there is exactly one '@'. */
  function SplitAddr(listAddr: string): Result<(string, string)> {
    var parts := Split(listAddr, '@');
    if |parts| == 2 then Ok((parts[0], parts[1])) else Err("ValueError")
  }

  function ListName(listAddr: string): Result<string> {
    match SplitAddr(listAddr)
    case Ok(p) => Ok(p.0)
    case Err(e) => Err(e)
  }

  function ListDomain(listAddr: string): Result<string> {
    match SplitAddr(listAddr)
    case Ok(p) => Ok(p.1)
    case Err(e) => Err(e)
  }

  function MajordomoAddr(listAddr: string): Result<string> {
    match ListDomain(listAddr)
    case Ok(d) => Ok("majordomo@" + d)
    case Err(e) => Err(e)
  }

  /**
   * The list address splits into a name and a domain exactly when it holds one '@'; then it is
   * name + "@" + domain, and the majordomo address is "majordomo@" + domain.
   */
  lemma {:induction false} ListAddrParts(listAddr: string)
    ensures SplitAddr(listAddr).Ok? <==> Count(listAddr, '@') == 1
    ensures SplitAddr(listAddr).Ok? ==>
      var (name, domain) := SplitAddr(listAddr).value;
      listAddr == name + "@" + domain && '@' !in name && '@' !in domain
      && ListName(listAddr) == Ok(name) && ListDomain(listAddr) == Ok(domain)
      && MajordomoAddr(listAddr) == Ok("majordomo@" + domain)
  {
    SplitCount(listAddr, '@');
    var parts := Split(listAddr, '@');
    if |parts| == 2 {
      assert Join(parts, '@') == parts[0] + "@" + Join(parts[1..], '@');
    }
  }

  /** Joining a name and a domain that hold no '@' and splitting again gives them back. */
  lemma {:induction false} ListAddrRoundTrip(name: string, domain: string)
    requires '@' !in name && '@' !in domain
    ensures ListName(name + "@" + domain) == Ok(name)
    ensures ListDomain(name + "@" + domain) == Ok(domain)
    ensures MajordomoAddr(name + "@" + domain) == Ok("majordomo@" + domain)
  {
    var parts := [name, domain];
    assert Join(parts, '@') == name + "@" + domain;
    SplitJoin(parts, '@');
  }

  /**
   * `MajordomoConfig.get(attribute, default)`: the value in the list's majordomo-address section,
   * else in the "default" section, else `default`. A list address without exactly one '@'
   * makes the first lookup fail quietly.
   */
  function Get(cfg: ConfigParser.Config, listAddr: string, attribute: string, default: Option<string>): (r: Option<string>)
    ensures r.Some? ==> r == default || exists s :: ConfigParser.SafeGet(cfg, s, attribute) == Ok(r.value)
  {
    var first := match MajordomoAddr(listAddr)
      case Ok(a) => Lookup(cfg, a, attribute)
      case Err(_) => None;
    if first.Some? then first
    else
      var second := Lookup(cfg, "default", attribute);
      if second.Some? then second else default
  }

  /** The three places `get` looks, in order of precedence. */
  lemma {:induction false} GetPrecedence(cfg: ConfigParser.Config, name: string, domain: string, attribute: string,
                                         default: Option<string>)
    requires '@' !in name && '@' !in domain
    ensures var sec := "majordomo@" + domain; var r := Get(cfg, name + "@" + domain, attribute, default);
      (Lookup(cfg, sec, attribute).Some? ==> r == Lookup(cfg, sec, attribute))
      && (Lookup(cfg, sec, attribute).None? && Lookup(cfg, "default", attribute).Some? ==>
          r == Lookup(cfg, "default", attribute))
      && (Lookup(cfg, sec, attribute).None? && Lookup(cfg, "default", attribute).None? ==> r == default)
  {
    ListAddrRoundTrip(name, domain);
  }

  /**
   * `getListPassword()`: the option named after the list in the list's majordomo-address
   * section, else that section's "default" option, else `None`. The majordomo address is
   * computed outside any `try`, so a malformed list address raises.
   */
  function ListPassword(cfg: ConfigParser.Config, listAddr: string): (r: Result<Option<string>>)
    ensures r.Err? <==> MajordomoAddr(listAddr).Err?
  {
    match MajordomoAddr(listAddr)
    case Err(e) => Err(e)
    case Ok(a) =>
      var byName := match ListName(listAddr)
        case Ok(n) => Lookup(cfg, a, n)
        case Err(_) => None;
      if byName.Some? then Ok(byName) else Ok(Lookup(cfg, a, "default"))
  }

  /** Which password a list gets: its own entry wins over the section's "default" entry. */
  lemma {:induction false} ListPasswordChoice(cfg: ConfigParser.Config, name: string, domain: string)
    requires '@' !in name && '@' !in domain
    ensures var sec := "majordomo@" + domain; var r := ListPassword(cfg, name + "@" + domain);
      r.Ok?
      && (Lookup(cfg, sec, name).Some? ==> r.value == Lookup(cfg, sec, name))
      && (Lookup(cfg, sec, name).None? ==> r.value == Lookup(cfg, sec, "default"))
      && (r.value.None? <==> Lookup(cfg, sec, name).None? && Lookup(cfg, sec, "default").None?)
  {
    ListAddrRoundTrip(name, domain);
  }

  /**
   * The list's own line is found whatever the case of its name: a line "Grid-Announce = pw" in
   * the section of majordomo@domain gives the list Grid-Announce@domain the password pw, as it
   * gives grid-announce@domain. A password set under DEFAULT applies to every list whose
   * section names neither the list nor "default".
   */
  lemma {:induction false} ListPasswordAnyCase(written: string, name: string, domain: string, pw: string)
    requires '@' !in name && '@' !in domain && '%' !in pw
    requires Lower(written) == Lower(name) && Lower(name) != ConfigParser.NameOption
    ensures ListPassword(ConfigParser.Config([], map["majordomo@" + domain := [(written, pw)]]), name + "@" + domain)
      == Ok(Some(pw))
    ensures ListPassword(ConfigParser.Config([(written, pw)], map["majordomo@" + domain := []]), name + "@" + domain)
      == Ok(Some(pw))
  {
    var sec := "majordomo@" + domain;
    ListAddrRoundTrip(name, domain);
    var own := ConfigParser.Config([], map[sec := [(written, pw)]]);
    var inherited := ConfigParser.Config([(written, pw)], map[sec := []]);
    ConfigParser.GetAnyCase(sec, written, name, pw, pw);
    ConfigParser.SafeGetValue(own, sec, name);
    ConfigParser.SafeGetValue(inherited, sec, name);
  }

  // ------------------------------------------------------------------
  // MajordomoList

  /** `approve <password> <cmd> <listAddr>[ <addr>]` */
  function ApproveCommand(password: string, cmd: string, listAddr: string, addr: Option<string>): string {
    "approve " + (password + (" " + (cmd + (" " + (listAddr + (if addr.Some? then " " + addr.value else ""))))))
  }

  /** `processAddresses` accepts one address or a list of them. */
  datatype Addresses = One(addr: string) | Many(addrs: seq<string>)

  function AsList(a: Addresses): (r: seq<string>)
    ensures a.One? ==> r == [a.addr]
    ensures a.Many? ==> r == a.addrs
  {
    match a
    case One(x) => [x]
    case Many(xs) => xs
  }

  /** The commands the queue ends with: each command followed by "\n". */
  function CommandLines(cmds: seq<string>): string {
    if cmds == [] then "" else cmds[0] + "\n" + CommandLines(cmds[1..])
  }

  /**
   * The text `execute` hands to the mail library: the queued commands, one per line, then the
   * new configuration if one was read (a non-empty body), else an empty line and "end".
   */
  function MessageText(cmds: seq<string>, body: Option<string>): string {
    CommandLines(cmds) + (if body.Some? && body.value != "" then body.value else "\nend\n")
  }

  /** The outgoing mail, without the SMTP exchange. */
  datatype Message = Message(to: string, subject: string, cc: Option<string>, from: Option<string>, text: string)

  class MajordomoList {
    const config: ConfigParser.Config
    const listAddr: string
    const password: string
    var cmds: seq<string>
    var body: Option<string>

    /** The list address is well formed, as the password lookup in the constructor showed. */
    predicate Valid() {
      MajordomoAddr(listAddr).Ok?
    }

    constructor (config: ConfigParser.Config, listAddr: string, password: string)
      requires MajordomoAddr(listAddr).Ok?
      ensures Valid()
      ensures this.config == config && this.listAddr == listAddr && this.password == password
      ensures cmds == [] && body == None
    {
      this.config := config;
      this.listAddr := listAddr;
      this.password := password;
      cmds := [];
      body := None;
    }

    /** `addCmd(cmd)` */
    method AddCmd(cmd: string)
      modifies this
      ensures cmds == old(cmds) + [cmd] && body == old(body)
    {
      cmds := cmds + [cmd];
    }

    /** `approve(cmd, addr)`: queues exactly one approve command. */
    method Approve(cmd: string, addr: Option<string>)
      modifies this
      ensures cmds == old(cmds) + [ApproveCommand(password, cmd, listAddr, addr)] && body == old(body)
    {
      var suffix := "";
      if addr.Some? {
        suffix := " " + addr.value;
      }
      AddCmd("approve " + (password + (" " + (cmd + (" " + (listAddr + suffix))))));
    }

    /** `processAddresses(cmd, addrs)`: one approve command per address, in order. */
    method ProcessAddresses(cmd: string, addrs: Addresses)
      modifies this
      ensures |cmds| == |old(cmds)| + |AsList(addrs)| && cmds[..|old(cmds)|] == old(cmds)
      ensures forall i :: 0 <= i < |AsList(addrs)| ==>
        cmds[|old(cmds)| + i] == ApproveCommand(password, cmd, listAddr, Some(AsList(addrs)[i]))
      ensures body == old(body)
    {
      var list := AsList(addrs);
      var i := 0;
      while i < |list|
        invariant 0 <= i <= |list|
        invariant |cmds| == |old(cmds)| + i && cmds[..|old(cmds)|] == old(cmds)
        invariant forall j :: 0 <= j < i ==>
          cmds[|old(cmds)| + j] == ApproveCommand(password, cmd, listAddr, Some(list[j]))
        invariant body == old(body)
      {
        Approve(cmd, Some(list[i]));
        i := i + 1;
      }
    }

    method Subscribe(addrs: Addresses)
      modifies this
      ensures |cmds| == |old(cmds)| + |AsList(addrs)| && cmds[..|old(cmds)|] == old(cmds)
      ensures forall i :: 0 <= i < |AsList(addrs)| ==>
        cmds[|old(cmds)| + i] == ApproveCommand(password, "subscribe", listAddr, Some(AsList(addrs)[i]))
      ensures body == old(body)
    {
      ProcessAddresses("subscribe", addrs);
    }

    method Unsubscribe(addrs: Addresses)
      modifies this
      ensures |cmds| == |old(cmds)| + |AsList(addrs)| && cmds[..|old(cmds)|] == old(cmds)
      ensures forall i :: 0 <= i < |AsList(addrs)| ==>
        cmds[|old(cmds)| + i] == ApproveCommand(password, "unsubscribe", listAddr, Some(AsList(addrs)[i]))
      ensures body == old(body)
    {
      ProcessAddresses("unsubscribe", addrs);
    }

    method Who()
      modifies this
      ensures cmds == old(cmds) + [ApproveCommand(password, "who", listAddr, None)] && body == old(body)
    {
      Approve("who", None);
    }

    /** `configure()`: "config <listAddr> <password>", the other order from approve. */
    method Configure()
      modifies this
      ensures cmds == old(cmds) + ["config " + listAddr + " " + password] && body == old(body)
    {
      AddCmd("config " + listAddr + " " + password);
    }

    /** `newconfig(file)` with the file's contents: they become the body, closed by "EOF". */
    method NewConfig(contents: string)
      modifies this
      ensures body == Some(contents + "\nEOF\n")
      ensures cmds == old(cmds) + ["newconfig " + listAddr + " " + password]
    {
      body := Some(contents + "\nEOF\n");
      AddCmd("newconfig " + listAddr + " " + password);
    }

    /** The mail `execute` sends to the majordomo server. */
    method Execute() returns (msg: Message)
      requires Valid()
      ensures msg.text == MessageText(cmds, body)
      ensures msg.to == MajordomoAddr(listAddr).value
      ensures msg.subject == "Majordomo commands to " + msg.to
      ensures msg.cc == Get(config, listAddr, "cc", None)
      ensures msg.from == Get(config, listAddr, "from", None)
    {
      var cmdStr := "";
      var i := 0;
      while i < |cmds|
        invariant 0 <= i <= |cmds|
        invariant cmdStr + CommandLines(cmds[i..]) == CommandLines(cmds)
      {
        assert cmds[i..][1..] == cmds[i + 1..];
        cmdStr := cmdStr + cmds[i] + "\n";
        i := i + 1;
      }
      assert cmds[i..] == [];
      if body.Some? && body.value != "" {
        cmdStr := cmdStr + body.value;
      } else {
        cmdStr := cmdStr + "\nend\n";
      }
      var to := MajordomoAddr(listAddr).value;
      msg := Message(to, "Majordomo commands to " + to,
                     Get(config, listAddr, "cc", None), Get(config, listAddr, "from", None), cmdStr);
    }
  }

  /** `MajordomoList(listAddr)`: refuses a list for which no password is configured. */
  method NewList(cfg: ConfigParser.Config, listAddr: string) returns (r: Result<MajordomoList>)
    ensures r.Err? <==> ListPassword(cfg, listAddr).Err? || ListPassword(cfg, listAddr).value.None?
    ensures r.Ok? ==> (fresh(r.value) && r.value.Valid() && r.value.listAddr == listAddr
                       && r.value.password == ListPassword(cfg, listAddr).value.value
                       && r.value.cmds == [] && r.value.body == None && r.value.config == cfg)
  {
    var pw := ListPassword(cfg, listAddr);
    if pw.Err? {
      return Err(pw.msg);
    }
    if pw.value.None? {
      return Err("Exception");
    }
    var l := new MajordomoList(cfg, listAddr, pw.value.value);
    return Ok(l);
  }

  // ------------------------------------------------------------------
  // reading the commands back

  /** The queued commands can be read back line by line when none of them holds a line break. */
  lemma {:induction false} CommandLinesSplit(cmds: seq<string>)
    requires forall i :: 0 <= i < |cmds| ==> '\n' !in cmds[i]
    ensures Split(CommandLines(cmds), '\n') == cmds + [""]
  {
    if cmds != [] {
      var rest := CommandLines(cmds[1..]);
      assert CommandLines(cmds) == cmds[0] + ['\n'] + rest;
      SplitCons(cmds[0], rest, '\n');
      CommandLinesSplit(cmds[1..]);
      assert [cmds[0]] + (cmds[1..] + [""]) == cmds + [""];
    }
  }

  lemma {:induction false} WordsAfterApprove(rest: string)
    ensures Words("approve " + rest) == ["approve"] + Words(rest)
  {
    assert "approve " + rest == "approve" + (" " + rest);
    WordsCons("approve", rest);
  }

  lemma {:induction false} WordsTwo(a: string, b: string, rest: string)
    requires a != [] && NoSpace(a) && b != [] && NoSpace(b)
    ensures Words(a + (" " + (b + (" " + rest)))) == [a, b] + Words(rest)
  {
    WordsCons(b, rest);
    WordsCons(a, b + (" " + rest));
  }

  lemma {:induction false} WordsLast(listAddr: string, addr: Option<string>)
    requires listAddr != [] && NoSpace(listAddr)
    requires addr.Some? ==> addr.value != [] && NoSpace(addr.value)
    ensures Words(listAddr + (if addr.Some? then " " + addr.value else ""))
         == [listAddr] + (if addr.Some? then [addr.value] else [])
  {
    if addr.Some? {
      WordsCons(listAddr, addr.value);
      WordsSingle(addr.value);
    } else {
      assert listAddr + "" == listAddr;
      WordsSingle(listAddr);
    }
  }

  /**
   * The words of an approve command give back its parts, when the password, command, list
   * address and address are single words.
   */
  lemma {:induction false} ApproveCommandWords(password: string, cmd: string, listAddr: string, addr: Option<string>)
    requires password != [] && NoSpace(password) && cmd != [] && NoSpace(cmd)
    requires listAddr != [] && NoSpace(listAddr)
    requires addr.Some? ==> addr.value != [] && NoSpace(addr.value)
    ensures Words(ApproveCommand(password, cmd, listAddr, addr))
         == ["approve", password, cmd, listAddr] + (if addr.Some? then [addr.value] else [])
  {
    var last := listAddr + (if addr.Some? then " " + addr.value else "");
    WordsLast(listAddr, addr);
    WordsTwo(password, cmd, last);
    WordsAfterApprove(password + (" " + (cmd + (" " + last))));
  }
}

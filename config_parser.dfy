/**
 * The part of Python 2's ConfigParser module the scripts rely on, over a configuration as `read`
 * leaves it. Option names go through `optionxform`, which lower-cases them. A later line for a
 * name replaces an earlier one. A section's options are looked up over those of the DEFAULT
 * section. SafeConfigParser's `get` expands "%%" and `%(name)s` in the value it returns.
 */
module ConfigParser {
  import opened Wrappers
  import opened Strings

  /** The (name, value) option lines of one section, in file order, as the reader split them. */
  type Lines = seq<(string, string)>

  /** A configuration once read: the lines of the DEFAULT section and those of every other section. */
  datatype Config = Config(defaults: Lines, sections: map<string, Lines>)

  /** The name of the section whose options every other section inherits. */
  const DefaultSect := "DEFAULT"

  /** The option every section's dictionary holds: the section's own name. */
  const NameOption := "__name__"

  // ------------------------------------------------------------------
  // Reading: a section's dictionary

  /**
   * The dictionary `read` keeps for a run of lines: each name lower-cased by `optionxform`, a
   * later line for the same name replacing an earlier one.
   */
  function Dict(lines: Lines): (m: map<string, string>)
    ensures forall k :: k in m ==> Lower(k) == k
  {
    if lines == [] then map[]
    else
      var key := lines[|lines| - 1].0;
      LowerIdempotent(key);
      Dict(lines[..|lines| - 1])[Lower(key) := lines[|lines| - 1].1]
  }

  /** A name is in the dictionary exactly when some line names it, in any case. */
  lemma {:induction false} DictKeys(lines: Lines)
    ensures forall k :: k in Dict(lines) <==> exists i :: 0 <= i < |lines| && Lower(lines[i].0) == k
  {
    if lines != [] {
      var init := lines[..|lines| - 1];
      DictKeys(init);
      forall k | k in Dict(lines) ensures exists i :: 0 <= i < |lines| && Lower(lines[i].0) == k {
        if k in Dict(init) {
          var i :| 0 <= i < |init| && Lower(init[i].0) == k;
          assert lines[i] == init[i];
        }
      }
      forall k, i | 0 <= i < |lines| && Lower(lines[i].0) == k ensures k in Dict(lines) {
        if i < |init| {
          assert init[i] == lines[i];
        }
      }
    }
  }

  /** A name holds the value of the last line that names it, in any case. */
  lemma {:induction false} DictLast(lines: Lines, i: nat)
    requires i < |lines|
    requires forall j :: i < j < |lines| ==> Lower(lines[j].0) != Lower(lines[i].0)
    ensures Lower(lines[i].0) in Dict(lines) && Dict(lines)[Lower(lines[i].0)] == lines[i].1
  {
    var init := lines[..|lines| - 1];
    if i < |init| {
      assert init[i] == lines[i];
      forall j | i < j < |init| ensures Lower(init[j].0) != Lower(init[i].0) {
        assert init[j] == lines[j];
      }
      DictLast(init, i);
    }
  }

  /** Reading two runs of lines into one dictionary: the later run's names win. */
  lemma {:induction false} DictAppend(a: Lines, b: Lines)
    ensures Dict(a + b) == Dict(a) + Dict(b)
    decreases |b|
  {
    if b == [] {
      assert a + b == a;
    } else {
      var init := b[..|b| - 1];
      var ab := a + b;
      assert ab[..|ab| - 1] == a + init;
      assert ab[|ab| - 1] == b[|b| - 1];
      DictAppend(a, init);
      DictSnoc(ab);
      DictSnoc(b);
      MapUpdateUnion(Dict(a), Dict(init), Lower(b[|b| - 1].0), b[|b| - 1].1);
    }
  }

  /** The last line's name, lower-cased, takes the last line's value over the others'. */
  lemma DictSnoc(lines: Lines)
    requires lines != []
    ensures Dict(lines) == Dict(lines[..|lines| - 1])[Lower(lines[|lines| - 1].0) := lines[|lines| - 1].1]
  {
  }

  lemma MapUpdateUnion(m1: map<string, string>, m2: map<string, string>, k: string, v: string)
    ensures (m1 + m2)[k := v] == m1 + m2[k := v]
  {
  }

  /** The names of `Dict(lines)`, each once, in the order of the line that first names it. */
  function Names(lines: Lines): seq<string> {
    if lines == [] then []
    else
      var init := Names(lines[..|lines| - 1]);
      var k := Lower(lines[|lines| - 1].0);
      if k in init then init else init + [k]
  }

  /** The names are exactly the dictionary's keys, and none is listed twice. */
  lemma {:induction false} NamesAreKeys(lines: Lines)
    ensures forall k :: k in Names(lines) <==> k in Dict(lines)
    ensures forall i, j :: 0 <= i < j < |Names(lines)| ==> Names(lines)[i] != Names(lines)[j]
  {
    if lines != [] {
      var init := lines[..|lines| - 1];
      NamesAreKeys(init);
    }
  }

  // ------------------------------------------------------------------
  // get

  /**
   * What a `get` on `section` looks names up in: the section's own dictionary, which starts with
   * `__name__` set to the section's name, over that of DEFAULT.
   */
  function Vars(cfg: Config, section: string): map<string, string> {
    if section in cfg.sections then Dict(cfg.defaults) + (map[NameOption := section] + Dict(cfg.sections[section]))
    else Dict(cfg.defaults)
  }

  /** `get(section, option, raw=True)`: the value as read. */
  function RawGet(cfg: Config, section: string, option: string): Result<string> {
    if section !in cfg.sections && section != DefaultSect then Err("NoSectionError")
    else
      var vars := Vars(cfg, section);
      if Lower(option) in vars then Ok(vars[Lower(option)]) else Err("NoOptionError")
  }

  /**
   * Where `get` finds an option: an unknown section raises; otherwise the section's own line
   * for the name in any case wins, then DEFAULT's, and with neither the option is missing.
   */
  lemma {:induction false} RawGetLookup(cfg: Config, section: string, option: string)
    requires Lower(option) != NameOption
    ensures section !in cfg.sections && section != DefaultSect ==> RawGet(cfg, section, option) == Err("NoSectionError")
    ensures section in cfg.sections && Lower(option) in Dict(cfg.sections[section]) ==>
      RawGet(cfg, section, option) == Ok(Dict(cfg.sections[section])[Lower(option)])
    ensures ((section in cfg.sections || section == DefaultSect) &&
             (section in cfg.sections ==> Lower(option) !in Dict(cfg.sections[section]))) ==>
      RawGet(cfg, section, option) ==
        (if Lower(option) in Dict(cfg.defaults) then Ok(Dict(cfg.defaults)[Lower(option)]) else Err("NoOptionError"))
  {
  }

  /**
   * The example of a mixed-case name: a line "Grid-Announce = v" is found by a `get` of any
   * spelling of the name that lower-cases alike, and a DEFAULT line applies to every section
   * that does not set the name itself.
   */
  lemma {:induction false} GetAnyCase(section: string, written: string, asked: string, v: string, d: string)
    requires Lower(written) == Lower(asked) && Lower(asked) != NameOption
    ensures RawGet(Config([], map[section := [(written, v)]]), section, asked) == Ok(v)
    ensures RawGet(Config([(written, d)], map[section := []]), section, asked) == Ok(d)
  {
    var lines := [(written, v)];
    assert lines[..0] == [];
    assert Dict(lines) == map[Lower(written) := v];
    assert Dict([]) == map[];
    RawGetLookup(Config([], map[section := lines]), section, asked);
    RawGetLookup(Config([(written, d)], map[section := []]), section, asked);
  }

  // ------------------------------------------------------------------
  // SafeConfigParser interpolation

  /** How deep references may nest before `get` gives up. */
  const MaxDepth := 10

  /**
   * A reference `%(name)s` at the start of `s`: the name, one or more characters other than
   * ')', and the length of the whole reference.
   */
  function VarRef(s: string): (r: Option<(string, nat)>)
    ensures r.Some? ==> var (name, n) := r.value;
      4 <= n <= |s| && name != [] && ')' !in name && s[..n] == "%(" + name + ")s"
  {
    if |s| < 2 || s[0] != '%' || s[1] != '(' || ')' !in s[2..] then None
    else
      var close := 2 + IndexOf(s[2..], ')');
      if close == 2 || close + 1 >= |s| || s[close + 1] != 's' then None
      else
        assert s[2..][..close - 2] == s[2..close];
        assert s[..close + 2] == "%(" + s[2..close] + ")s";
        Some((s[2..close], close + 2))
  }

  /** A reference to a name written out is recognised as that name. */
  lemma {:induction false} VarRefOf(name: string, rest: string)
    requires name != [] && ')' !in name
    ensures VarRef("%(" + name + ")s" + rest) == Some((name, |name| + 4))
  {
    var s := "%(" + name + ")s" + rest;
    assert s[2..] == name + ")s" + rest;
    assert s[2..][|name|] == ')';
    var i := IndexOf(s[2..], ')');
    var t := s[2..];
    assert forall j :: 0 <= j < |name| ==> t[j] == name[j];
    assert forall j {:trigger t[j]} :: 0 <= j < i ==> t[..i][j] == t[j];
    assert i == |name|;
    assert s[2..2 + |name|] == name;
    assert s[|name| + 3] == 's';
  }

  /** `s + r`, unless `r` is the exception. */
  function Prepend(s: string, r: Result<string>): Result<string> {
    if r.Err? then r else Ok(s + r.value)
  }

  /**
   * SafeConfigParser's `_interpolate_some` at nesting `depth`: "%%" gives '%', `%(name)s` gives
   * the value of the option the name lower-cases to, itself expanded one level deeper when it
   * holds a '%', and any other '%' raises, as do a missing option and nesting past `MaxDepth`.
   */
  function Interpolate(rest: string, vars: map<string, string>, depth: nat): Result<string>
    decreases MaxDepth + 1 - depth, |rest|
  {
    if depth > MaxDepth then Err("InterpolationDepthError")
    else if rest == [] then Ok([])
    else if rest[0] != '%' then Prepend([rest[0]], Interpolate(rest[1..], vars, depth))
    else if |rest| >= 2 && rest[1] == '%' then Prepend("%", Interpolate(rest[2..], vars, depth))
    else if |rest| >= 2 && rest[1] == '(' then
      match VarRef(rest)
      case None => Err("InterpolationSyntaxError")
      case Some((name, n)) =>
        var key := Lower(name);
        if key !in vars then Err("InterpolationMissingOptionError")
        else
          var v := vars[key];
          var head := if '%' in v then Interpolate(v, vars, depth + 1) else Ok(v);
          if head.Err? then head else Prepend(head.value, Interpolate(rest[n..], vars, depth))
    else Err("InterpolationSyntaxError")
  }

  /** A value without '%' is returned as it is. */
  lemma {:induction false} InterpolatePlain(s: string, vars: map<string, string>, depth: nat)
    requires '%' !in s && depth <= MaxDepth
    ensures Interpolate(s, vars, depth) == Ok(s)
    decreases |s|
  {
    if s != [] {
      assert s[0] != '%';
      InterpolatePlain(s[1..], vars, depth);
      assert [s[0]] + s[1..] == s;
    }
  }

  /** Each '%' of `s` doubled: how a literal '%' is written in a value. */
  function Escape(s: string): (r: string)
    ensures |r| >= |s|
  {
    if s == [] then [] else (if s[0] == '%' then "%%" else [s[0]]) + Escape(s[1..])
  }

  /** The round trip: a value written with every '%' doubled reads back as the text itself. */
  lemma {:induction false} InterpolateEscape(s: string, vars: map<string, string>, depth: nat)
    requires depth <= MaxDepth
    ensures Interpolate(Escape(s), vars, depth) == Ok(s)
    decreases |s|
  {
    if s != [] {
      var e := Escape(s);
      InterpolateEscape(s[1..], vars, depth);
      if s[0] == '%' {
        assert e[2..] == Escape(s[1..]);
        assert "%" + s[1..] == s;
      } else {
        assert e[1..] == Escape(s[1..]);
        assert [s[0]] + s[1..] == s;
      }
    }
  }

  /** A '%' followed by neither '%' nor '(', or ending the value, raises. */
  lemma {:induction false} InterpolateLonePercent(pre: string, post: string, vars: map<string, string>, depth: nat)
    requires '%' !in pre && depth <= MaxDepth
    requires post == [] || (post[0] != '%' && post[0] != '(')
    ensures Interpolate(pre + "%" + post, vars, depth).Err?
    decreases |pre|
  {
    var s := pre + "%" + post;
    if pre == [] {
      assert s == "%" + post;
      if post != [] {
        assert s[1] == post[0];
      }
    } else {
      assert s[0] == pre[0];
      assert s[1..] == pre[1..] + "%" + post;
      InterpolateLonePercent(pre[1..], post, vars, depth);
    }
  }

  /**
   * A reference to an option whose value has no '%' is replaced by that value; a reference to a
   * missing option raises.
   */
  lemma {:induction false} InterpolateReference(name: string, post: string, vars: map<string, string>, depth: nat)
    requires name != [] && ')' !in name && '%' !in post && depth <= MaxDepth
    ensures Lower(name) in vars && '%' !in vars[Lower(name)] ==>
      Interpolate("%(" + name + ")s" + post, vars, depth) == Ok(vars[Lower(name)] + post)
    ensures Lower(name) !in vars ==> Interpolate("%(" + name + ")s" + post, vars, depth).Err?
  {
    var s := "%(" + name + ")s" + post;
    VarRefOf(name, post);
    assert s[|name| + 4..] == post;
    InterpolatePlain(post, vars, depth);
  }

  /** SafeConfigParser's `get(section, option)`: the value as read, then expanded. */
  function SafeGet(cfg: Config, section: string, option: string): Result<string> {
    match RawGet(cfg, section, option)
    case Err(e) => Err(e)
    case Ok(v) => Interpolate(v, Vars(cfg, section), 1)
  }

  /** `get` returns a value without '%' as read, and a value with every '%' doubled as the text it escapes. */
  lemma {:induction false} SafeGetValue(cfg: Config, section: string, option: string)
    requires RawGet(cfg, section, option).Ok?
    ensures var v := RawGet(cfg, section, option).value;
      ('%' !in v ==> SafeGet(cfg, section, option) == Ok(v)) &&
      (forall s :: v == Escape(s) ==> SafeGet(cfg, section, option) == Ok(s))
  {
    var v := RawGet(cfg, section, option).value;
    var vars := Vars(cfg, section);
    if '%' !in v {
      InterpolatePlain(v, vars, 1);
    }
    forall s | v == Escape(s) ensures SafeGet(cfg, section, option) == Ok(s) {
      InterpolateEscape(s, vars, 1);
    }
  }

  /** `get` raises on a value whose first '%' is followed by neither '%' nor '(', or ends it. */
  lemma {:induction false} SafeGetLonePercent(cfg: Config, section: string, option: string, i: nat)
    requires RawGet(cfg, section, option).Ok?
    requires var v := RawGet(cfg, section, option).value;
      i < |v| && v[i] == '%' && '%' !in v[..i] && (i + 1 == |v| || (v[i + 1] != '%' && v[i + 1] != '('))
    ensures SafeGet(cfg, section, option).Err?
  {
    var v := RawGet(cfg, section, option).value;
    var pre, post := v[..i], v[i + 1..];
    assert v == pre + "%" + post;
    assert post == [] || post[0] == v[i + 1];
    InterpolateLonePercent(pre, post, Vars(cfg, section), 1);
  }

  // ------------------------------------------------------------------
  // items

  /** The pairs of `names` with their values in `d`, leaving out `__name__`. */
  function Pairs(names: seq<string>, d: map<string, string>): (r: seq<(string, string)>)
    requires forall k :: k in names ==> k in d
    ensures forall p :: p in r <==> p.0 in names && p.0 != NameOption && p.0 in d && p.1 == d[p.0]
  {
    if names == [] then []
    else (if names[0] == NameOption then [] else [(names[0], d[names[0]])]) + Pairs(names[1..], d)
  }

  /**
   * `items(section, raw=True)`: every option the section sees with its value, DEFAULT's names
   * first in their order and then the section's other names in theirs, leaving out `__name__`.
   */
  function Items(cfg: Config, section: string): Result<seq<(string, string)>> {
    if section !in cfg.sections && section != DefaultSect then Err("NoSectionError")
    else
      var all := cfg.defaults + (if section in cfg.sections then cfg.sections[section] else []);
      NamesAreKeys(all);
      Ok(Pairs(Names(all), Dict(all)))
  }

  /**
   * The pairs `items` gives are exactly the options a `get` of the section finds: each name once,
   * with the section's value over DEFAULT's.
   */
  lemma {:induction false} ItemsAreGets(cfg: Config, section: string)
    requires section in cfg.sections || section == DefaultSect
    ensures Items(cfg, section).Ok?
    ensures forall p :: p in Items(cfg, section).value <==>
      p.0 != NameOption && Lower(p.0) == p.0 && RawGet(cfg, section, p.0) == Ok(p.1)
  {
    var own := if section in cfg.sections then cfg.sections[section] else [];
    var all := cfg.defaults + own;
    NamesAreKeys(all);
    DictAppend(cfg.defaults, own);
    if section !in cfg.sections {
      assert all == cfg.defaults;
    }
  }
}

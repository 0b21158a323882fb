/**
 * bulk-mail: a template with "[name]" placeholders is turned into a Python format string
 * ("%(name)s", with every literal '%' doubled), then filled in once per line of a
 * comma-separated list of recipients.
 */
module BulkMail {
  import opened Wrappers
  import opened Strings
  import opened TextFile

  // ------------------------------------------------------------------
  // convert_template

  /** `[_A-Za-z]` */
  predicate IsIdentStart(c: char) { c == '_' || IsAsciiLetter(c) }

  /** `[_A-Za-z0-9]` */
  predicate IsIdentChar(c: char) { c == '_' || IsAsciiLetter(c) || IsDigit(c) }

  /** Length of the run of identifier characters at the start of `s`. */
  function IdentRun(s: string): (n: nat)
    ensures n <= |s| && (n == |s| || !IsIdentChar(s[n]))
  {
    if s == [] || !IsIdentChar(s[0]) then 0 else 1 + IdentRun(s[1..])
  }

  /** The run is made of identifier characters. */
  lemma {:induction false} IdentRunChars(s: string)
    ensures forall k :: 0 <= k < IdentRun(s) ==> IsIdentChar(s[k])
  {
    if s != [] && IsIdentChar(s[0]) {
      IdentRunChars(s[1..]);
      assert forall k :: 1 <= k < IdentRun(s) ==> s[k] == s[1..][k - 1];
    }
  }

  lemma {:induction false} IdentRunIs(s: string, n: nat)
    requires n <= |s| && (n == |s| || !IsIdentChar(s[n]))
    requires forall k :: 0 <= k < n ==> IsIdentChar(s[k])
    ensures IdentRun(s) == n
  {
    if n > 0 {
      assert forall k :: 0 <= k < n - 1 ==> s[1..][k] == s[k + 1];
      IdentRunIs(s[1..], n - 1);
    }
  }

  /**
   * `\[([_A-Za-z][_A-Za-z0-9]*)\]` at the start of `s`: the length of the identifier, if the
   * text starts with a placeholder. The identifier's characters exclude ']', so the greedy run
   * is the only candidate.
   */
  function Placeholder(s: string): (r: Option<nat>)
    ensures r.Some? ==> 1 <= r.value && r.value + 2 <= |s| && s[0] == '[' && s[r.value + 1] == ']'
    ensures r.Some? ==> IsIdentStart(s[1])
  {
    if |s| >= 2 && s[0] == '[' && IsIdentStart(s[1]) then
      var n := IdentRun(s[1..]);
      assert forall k :: 1 <= k <= n ==> s[k] == s[1..][k - 1];
      if 1 + n < |s| && s[1 + n] == ']' then Some(n) else None
    else None
  }

  /** The name inside a placeholder is made of identifier characters. */
  lemma {:induction false} PlaceholderName(s: string, n: nat)
    requires Placeholder(s) == Some(n)
    ensures forall k :: 1 <= k <= n ==> IsIdentChar(s[k])
  {
    IdentRunChars(s[1..]);
    assert forall k :: 1 <= k <= n ==> s[k] == s[1..][k - 1];
  }

  /** `template.replace('%', '%%')`. */
  function DoublePercent(t: string): string {
    if t == [] then []
    else (if t[0] == '%' then "%%" else [t[0]]) + DoublePercent(t[1..])
  }

  /** `re.sub(pattern, r'%(\1)s', s)`: placeholders rewritten left to right, without overlap. */
  function SubPlaceholders(s: string): string
    decreases |s|
  {
    if s == [] then []
    else match Placeholder(s)
      case Some(n) => "%(" + s[1..n + 1] + ")s" + SubPlaceholders(s[n + 2..])
      case None => [s[0]] + SubPlaceholders(s[1..])
  }

  /** `convert_template(template)` with the default opener '[' and closer ']'. */
  function Convert(template: string): string {
    SubPlaceholders(DoublePercent(template))
  }

  // ------------------------------------------------------------------
  // the `%` operator with a dict, and what the substitution means

  /** Outcome of `fmt % vars`. */
  datatype Formatted = Text(text: string) | MissingKey(key: string) | BadFormat

  function Prepend(s: string, r: Formatted): Formatted {
    if r.Text? then Text(s + r.text) else r
  }

  /**
   * `fmt % vars` for a dict of strings, for the directives a converted template contains:
   * "%%" gives '%', "%(key)s" gives `vars[key]` or raises KeyError; any other directive is a
   * format error. Errors are raised at the first offending directive from the left.
   */
  function Format(fmt: string, vars: map<string, string>): Formatted
    decreases |fmt|
  {
    if fmt == [] then Text([])
    else if fmt[0] != '%' then Prepend([fmt[0]], Format(fmt[1..], vars))
    else if |fmt| >= 2 && fmt[1] == '%' then Prepend("%", Format(fmt[2..], vars))
    else if |fmt| >= 2 && fmt[1] == '(' && ')' in fmt[2..] then
      var j := 2 + IndexOf(fmt[2..], ')');
      var key := fmt[2..j];
      if j + 1 < |fmt| && fmt[j + 1] == 's' then
        if key in vars then Prepend(vars[key], Format(fmt[j + 2..], vars)) else MissingKey(key)
      else BadFormat
    else BadFormat
  }

  /**
   * What the converted template means, stated on the template itself: every placeholder
   * "[name]" replaced by `vars[name]`, all other text kept as it is; the leftmost placeholder
   * whose name is not in `vars` is reported instead.
   */
  function Expand(t: string, vars: map<string, string>): Formatted
    decreases |t|
  {
    if t == [] then Text([])
    else match Placeholder(t)
      case Some(n) =>
        var key := t[1..n + 1];
        if key in vars then Prepend(vars[key], Expand(t[n + 2..], vars)) else MissingKey(key)
      case None => Prepend([t[0]], Expand(t[1..], vars))
  }

  lemma {:induction false} DoublePercentAppend(a: string, b: string)
    requires forall k :: 0 <= k < |a| ==> a[k] != '%'
    ensures DoublePercent(a + b) == a + DoublePercent(b)
    decreases |a|
  {
    if a != [] {
      assert (a + b)[1..] == a[1..] + b;
      DoublePercentAppend(a[1..], b);
    } else {
      assert a + b == b;
    }
  }

  /** Doubling '%' neither creates nor destroys a placeholder at the front. */
  lemma {:induction false} PlaceholderOfDoublePercent(t: string)
    ensures Placeholder(DoublePercent(t)) == Placeholder(t)
  {
    if |t| >= 2 && t[0] == '[' && IsIdentStart(t[1]) {
      PlaceholderOfDoublePercentBracket(t);
    } else if t != [] && t[0] == '%' {
      assert DoublePercent(t)[0] == '%';
    } else if |t| == 1 {
      assert DoublePercent(t) == t;
    } else if t != [] {
      assert DoublePercent(t) == [t[0]] + DoublePercent(t[1..]);
      assert t[1] == '%' ==> DoublePercent(t)[1] == '%';
      assert t[1] != '%' ==> DoublePercent(t)[1] == t[1];
    }
  }

  /** Text that opens like a placeholder keeps its identifier run, and what follows it, when '%' is doubled. */
  lemma {:induction false} PlaceholderOfDoublePercentBracket(t: string)
    requires |t| >= 2 && t[0] == '[' && IsIdentStart(t[1])
    ensures Placeholder(DoublePercent(t)) == Placeholder(t)
  {
    var n := IdentRun(t[1..]);
    IdentRunChars(t[1..]);
    var m := 1 + n;
    var a := t[..m];
    assert forall k :: 1 <= k < m ==> t[k] == t[1..][k - 1];
    assert t == a + t[m..];
    DoublePercentAppend(a, t[m..]);
    var d := DoublePercent(t);
    assert d == a + DoublePercent(t[m..]);
    if m < |t| {
      assert DoublePercent(t[m..])[0] == if t[m] == '%' then '%' else t[m];
      assert d[m] == DoublePercent(t[m..])[0];
      assert !IsIdentChar(d[m]) && (d[m] == ']' <==> t[m] == ']');
    } else {
      assert d == a;
    }
    assert forall k :: 0 <= k < n ==> d[1..][k] == d[k + 1] == a[k + 1];
    IdentRunIs(d[1..], n);
  }

  /** Doubling '%' leaves a placeholder at the front of the text as it was. */
  lemma {:induction false} DoublePercentPlaceholder(t: string, n: nat)
    requires Placeholder(t) == Some(n)
    ensures DoublePercent(t) == t[..n + 2] + DoublePercent(t[n + 2..])
  {
    var a := t[..n + 2];
    PlaceholderName(t, n);
    assert forall k :: 0 <= k < |a| ==> a[k] != '%' by {
      assert forall k :: 1 <= k <= n ==> IsIdentChar(a[k]);
    }
    assert t == a + t[n + 2..];
    DoublePercentAppend(a, t[n + 2..]);
  }

  lemma {:induction false} ConvertPlaceholderStep(t: string, n: nat)
    requires Placeholder(t) == Some(n)
    ensures Convert(t) == "%(" + t[1..n + 1] + ")s" + Convert(t[n + 2..])
  {
    var d := DoublePercent(t);
    DoublePercentPlaceholder(t, n);
    PlaceholderOfDoublePercent(t);
    assert d[n + 2..] == DoublePercent(t[n + 2..]);
    assert d[1..n + 1] == t[1..n + 1];
    SubPlaceholdersStep(d, n);
  }

  lemma SubPlaceholdersStep(s: string, n: nat)
    requires Placeholder(s) == Some(n)
    ensures SubPlaceholders(s) == "%(" + s[1..n + 1] + ")s" + SubPlaceholders(s[n + 2..])
  {
    assert s != [];
  }

  /** A '%' can never open a placeholder, so the rewriting passes over it. */
  lemma {:induction false} SubPlaceholdersPercent(x: string)
    ensures SubPlaceholders("%" + x) == "%" + SubPlaceholders(x)
  {
    assert ("%" + x)[1..] == x;
  }

  lemma {:induction false} DoublePercentPercent(t: string)
    requires t != [] && t[0] == '%'
    ensures DoublePercent(t) == "%" + ("%" + DoublePercent(t[1..]))
  {
  }

  lemma {:induction false} ConvertPercentStep(t: string)
    requires t != [] && t[0] == '%'
    ensures Convert(t) == "%%" + Convert(t[1..])
  {
    var x := DoublePercent(t[1..]);
    DoublePercentPercent(t);
    SubPlaceholdersPercent("%" + x);
    SubPlaceholdersPercent(x);
    PercentPair(SubPlaceholders(x));
  }

  lemma PercentPair(s: string)
    ensures "%" + ("%" + s) == "%%" + s
  {
  }

  lemma {:induction false} ConvertPlainStep(t: string)
    requires t != [] && t[0] != '%' && Placeholder(t) == None
    ensures Convert(t) == [t[0]] + Convert(t[1..])
  {
    var d := DoublePercent(t);
    PlaceholderOfDoublePercent(t);
    assert d == [t[0]] + DoublePercent(t[1..]);
  }

  lemma {:induction false} FormatDirectiveStep(key: string, r: string, vars: map<string, string>)
    requires key != [] && ')' !in key
    ensures Format("%(" + key + ")s" + r, vars)
         == if key in vars then Prepend(vars[key], Format(r, vars)) else MissingKey(key)
  {
    var f := "%(" + key + ")s" + r;
    var n := |key|;
    assert f[2..] == key + ")s" + r;
    assert f[2..][..n] == key;
    assert f[2..][n] == ')';
    assert f[2..n + 2] == key && f[n + 3] == 's' && f[n + 4..] == r;
  }

  lemma {:induction false} FormatPercentStep(r: string, vars: map<string, string>)
    ensures Format("%%" + r, vars) == Prepend("%", Format(r, vars))
  {
    assert ("%%" + r)[2..] == r;
  }

  lemma {:induction false} FormatPlainStep(c: char, r: string, vars: map<string, string>)
    requires c != '%'
    ensures Format([c] + r, vars) == Prepend([c], Format(r, vars))
  {
    assert ([c] + r)[1..] == r;
  }

  /**
   * Round trip: formatting the converted template with `vars` gives the template with every
   * placeholder replaced by its value, and every '%' of the template comes back as it was.
   * If a placeholder's name is missing, both report the same (leftmost) name.
   */
  lemma {:induction false} FormatConvert(t: string, vars: map<string, string>)
    ensures Format(Convert(t), vars) == Expand(t, vars)
    decreases |t|
  {
    if t != [] {
      match Placeholder(t)
      case Some(n) =>
        FormatConvert(t[n + 2..], vars);
        FormatConvertPlaceholder(t, n, vars);
      case None =>
        FormatConvert(t[1..], vars);
        if t[0] == '%' {
          ConvertPercentStep(t);
          FormatPercentStep(Convert(t[1..]), vars);
        } else {
          ConvertPlainStep(t);
          FormatPlainStep(t[0], Convert(t[1..]), vars);
        }
    }
  }

  /** A placeholder at the front of the template becomes a directive that `%` fills in. */
  lemma {:induction false} FormatConvertPlaceholder(t: string, n: nat, vars: map<string, string>)
    requires Placeholder(t) == Some(n)
    requires Format(Convert(t[n + 2..]), vars) == Expand(t[n + 2..], vars)
    ensures Format(Convert(t), vars) == Expand(t, vars)
  {
    ConvertPlaceholderStep(t, n);
    var key := t[1..n + 1];
    PlaceholderName(t, n);
    assert ')' !in key by {
      forall k | 0 <= k < n ensures key[k] != ')' { assert key[k] == t[1 + k]; }
    }
    FormatDirectiveStep(key, Convert(t[n + 2..]), vars);
    ExpandPlaceholderStep(t, n, vars);
  }

  lemma ExpandPlaceholderStep(t: string, n: nat, vars: map<string, string>)
    requires Placeholder(t) == Some(n)
    ensures Expand(t, vars) == if t[1..n + 1] in vars then Prepend(vars[t[1..n + 1]], Expand(t[n + 2..], vars))
                               else MissingKey(t[1..n + 1])
  {
    assert t != [];
  }

  /** `fmt % vars` on a converted template never fails with a bad directive. */
  lemma {:induction false} ExpandNeverBadFormat(t: string, vars: map<string, string>)
    ensures Expand(t, vars) != BadFormat
    decreases |t|
  {
    if t != [] {
      match Placeholder(t)
      case Some(n) => ExpandNeverBadFormat(t[n + 2..], vars);
      case None => ExpandNeverBadFormat(t[1..], vars);
    }
  }

  /** A template without '[' comes out of the substitution exactly as it went in. */
  lemma {:induction false} ExpandNoBrackets(t: string, vars: map<string, string>)
    requires forall k :: 0 <= k < |t| ==> t[k] != '['
    ensures Expand(t, vars) == Text(t)
    decreases |t|
  {
    if t != [] {
      assert Placeholder(t) == None;
      ExpandNoBrackets(t[1..], vars);
      assert [t[0]] + t[1..] == t;
    }
  }

  /** Brackets around something that is not an identifier are kept: "[1x]". */
  lemma {:induction false} ConvertKeepsDigitStart()
    ensures Convert("[1x]") == "[1x]"
  {
    var t := "[1x]";
    forall i | 0 <= i < |t| ensures t[i] != '%' && Placeholder(t[i..]) == None {
      if i == 0 {
        assert t[0..] == t;
      }
    }
    ConvertNoPlaceholder(t);
  }

  /** Text that holds neither '%' nor any placeholder is left as it is by the conversion. */
  lemma {:induction false} ConvertNoPlaceholder(t: string)
    requires forall i :: 0 <= i < |t| ==> t[i] != '%' && Placeholder(t[i..]) == None
    ensures Convert(t) == t
    decreases |t|
  {
    if t != [] {
      assert t[0..] == t;
      ConvertPlainStep(t);
      assert forall i :: 1 <= i < |t| ==> t[1..][i - 1..] == t[i..];
      ConvertNoPlaceholder(t[1..]);
    }
  }

  /** A space inside the brackets is not part of an identifier: "[a b]" is kept. */
  lemma {:induction false} ConvertKeepsSpaced()
    ensures Convert("[a b]") == "[a b]"
  {
    var t := "[a b]";
    IdentRunIs(t[1..], 1);
    forall i | 0 <= i < |t| ensures t[i] != '%' && Placeholder(t[i..]) == None {
      if i == 0 {
        assert t[0..] == t;
      }
    }
    ConvertNoPlaceholder(t);
  }

  /** "[name]" becomes "%(name)s" for every identifier `name`. */
  lemma {:induction false} ConvertIdentifier(name: string)
    requires name != [] && IsIdentStart(name[0])
    requires forall k :: 0 <= k < |name| ==> IsIdentChar(name[k])
    ensures Convert("[" + name + "]") == "%(" + name + ")s"
  {
    var t := "[" + name + "]";
    var n := |name|;
    assert t[1..] == name + "]";
    IdentRunIs(t[1..], n);
    assert Placeholder(t) == Some(n);
    ConvertPlaceholderStep(t, n);
    assert t[1..n + 1] == name && t[n + 2..] == [];
  }

  /** A literal '%' is doubled: "5%" becomes "5%%". */
  lemma {:induction false} ConvertPercentExample()
    ensures Convert("5%") == "5%%"
  {
    assert DoublePercent("5%") == "5%%";
    assert Placeholder("5%%") == None;
    assert Placeholder("%%") == None;
    assert Placeholder("%") == None;
  }

  // ------------------------------------------------------------------
  // the recipient list

  /** What happens to one line of the list. */
  datatype Outcome =
    | Malformed(lineNumber: nat)
    | Undefined(lineNumber: nat, key: string)
    | Send(name: string, email: string, text: string, cc: Option<string>)

  /** The `vars` dict of a line: the first three comma-separated fields, stripped. */
  function LineVars(parts: seq<string>): (vars: map<string, string>)
    requires |parts| >= 3
    ensures vars.Keys == {"name", "department", "email"}
    ensures vars["name"] == Strip(parts[0]) && vars["department"] == Strip(parts[1])
    ensures vars["email"] == Strip(parts[2])
  {
    LineVarsFields(parts);
    map["name" := Strip(parts[0]), "department" := Strip(parts[1]), "email" := Strip(parts[2])]
  }

  /** The three keys of a line's dict are distinct, so each keeps its own field. */
  lemma LineVarsFields(parts: seq<string>)
    requires |parts| >= 3
    ensures var vars := map["name" := Strip(parts[0]), "department" := Strip(parts[1]), "email" := Strip(parts[2])];
      vars.Keys == {"name", "department", "email"} &&
      vars["name"] == Strip(parts[0]) && vars["department"] == Strip(parts[1]) && vars["email"] == Strip(parts[2])
  {
    assert "name"[0] == 'n' && "department"[0] == 'd' && "email"[0] == 'e';
  }

  /**
   * Line `n` of the list: fewer than three fields is malformed; otherwise the template is
   * filled in with the line's fields, and a placeholder naming anything else is undefined.
   */
  function LineOutcome(template: string, line: string, n: nat, cc: Option<string>): Outcome {
    var parts := Split(line, ',');
    if |parts| < 3 then Malformed(n)
    else
      var vars := LineVars(parts);
      match Expand(template, vars)
      case Text(text) => Send(vars["name"], vars["email"], text, cc)
      case MissingKey(key) => Undefined(n, key)
      case BadFormat => ExpandNeverBadFormat(template, vars); assert false; Malformed(n)
  }

  /** The outcomes of `lines`, numbered from `n`. */
  function Outcomes(template: string, lines: seq<string>, n: nat, cc: Option<string>): (r: seq<Outcome>)
    ensures |r| == |lines|
    ensures |r| > 0 ==> r[0] == LineOutcome(template, lines[0], n, cc)
  {
    if lines == [] then [] else [LineOutcome(template, lines[0], n, cc)] + Outcomes(template, lines[1..], n + 1, cc)
  }

  lemma {:induction false} OutcomesStep(template: string, l: string, ls: seq<string>, n: nat, cc: Option<string>)
    ensures Outcomes(template, [l] + ls, n, cc) == [LineOutcome(template, l, n, cc)] + Outcomes(template, ls, n + 1, cc)
  {
    assert ([l] + ls)[1..] == ls;
  }

  /** Handling the line at `pos` moves the loop one line further through the list. */
  lemma {:induction false} ProcessListStep(template: string, list: string, pos: nat, n: nat, events: seq<Outcome>, cc: Option<string>)
    requires pos < |list|
    requires events + Outcomes(template, LinesFrom(list, pos), n, cc) == Outcomes(template, Lines(list), 1, cc)
    ensures var e := LineEnd(list, pos);
      (events + [LineOutcome(template, list[pos..e], n, cc)]) + Outcomes(template, LinesFrom(list, e), n + 1, cc)
      == Outcomes(template, Lines(list), 1, cc)
  {
    var e := LineEnd(list, pos);
    var o := LineOutcome(template, list[pos..e], n, cc);
    var later := Outcomes(template, LinesFrom(list, e), n + 1, cc);
    OutcomesStep(template, list[pos..e], LinesFrom(list, e), n, cc);
    assert events + ([o] + later) == (events + [o]) + later;
  }

  /** The body of the loop for one line read from the list. */
  method HandleLine(template: string, line: string, linenumber: nat, cc: Option<string>) returns (o: Outcome)
    ensures o == LineOutcome(template, line, linenumber, cc)
  {
    var parts := Split(line, ',');
    if |parts| < 3 {
      return Malformed(linenumber);
    }
    var vars := map[];
    vars := vars["name" := Strip(parts[0])];
    vars := vars["department" := Strip(parts[1])];
    vars := vars["email" := Strip(parts[2])];
    assert vars == LineVars(parts);
    FormatConvert(template, vars);
    ExpandNeverBadFormat(template, vars);
    match Format(Convert(template), vars)
    case MissingKey(key) =>
      o := Undefined(linenumber, key);
    case Text(text) =>
      o := Send(vars["name"], vars["email"], text, cc);
  }

  /**
   * The main loop of bulk-mail over the contents `list` of the list file: one outcome per line,
   * in order, line numbers counted from 1.
   */
  method ProcessList(template: string, list: string, cc: Option<string>) returns (events: seq<Outcome>)
    ensures events == Outcomes(template, Lines(list), 1, cc)
  {
    events := [];
    var pos := 0;
    var linenumber := 0;
    while true
      invariant pos <= |list|
      invariant events + Outcomes(template, LinesFrom(list, pos), linenumber + 1, cc)
             == Outcomes(template, Lines(list), 1, cc)
      decreases |list| - pos
    {
      var e := LineEnd(list, pos);
      var line := list[pos..e];
      linenumber := linenumber + 1;
      if |line| == 0 {
        assert events + [] == events;
        break;
      }
      var o := HandleLine(template, line, linenumber, cc);
      ProcessListStep(template, list, pos, linenumber, events, cc);
      pos := e;
      events := events + [o];
    }
  }
}

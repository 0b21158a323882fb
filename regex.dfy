/**
 * The fragment of Python's `re` that the scripts' patterns use: a pattern is a concatenation of
 * literal text, alternations of literal words, and greedy repetitions (`+`, `*`) of a character
 * class, some of them wrapped in a capturing group. Matching follows the backtracking engine:
 * alternatives are tried left to right, a repetition tries its longest run first and gives back
 * one character at a time, and `search` tries every start position from the left.
 */
module Regex {
  import opened Wrappers

  /** `\s`, `\S`, `\d`, `.` (no DOTALL), `[\s\\]` and `[\w ]`, on byte strings without LOCALE. */
  datatype Class = Space | NonSpace | Digit | AnyButNewline | SpaceOrBackslash | WordOrSpace

  predicate IsReSpace(c: char) {
    c == ' ' || c == '\t' || c == '\n' || c == '\r' || c == '\U{000B}' || c == '\U{000C}'
  }

  predicate InClass(c: char, k: Class) {
    match k
    case Space => IsReSpace(c)
    case NonSpace => !IsReSpace(c)
    case Digit => '0' <= c <= '9'
    case AnyButNewline => c != '\n'
    case SpaceOrBackslash => IsReSpace(c) || c == '\\'
    case WordOrSpace => 'a' <= c <= 'z' || 'A' <= c <= 'Z' || '0' <= c <= '9' || c == '_' || c == ' '
  }

  /** One element of a pattern; `Rep(k, min)` is `k+` when `min` is 1 and `k*` when it is 0. */
  datatype Atom = Lit(text: string) | Alt(words: seq<string>) | Rep(cls: Class, min: nat)

  /** An element, and whether it is a capturing group `( … )`. */
  datatype Item = Item(atom: Atom, group: bool)

  type Pattern = seq<Item>

  predicate LitAt(s: string, pos: nat, t: string) {
    pos + |t| <= |s| && s[pos..pos + |t|] == t
  }

  predicate AllIn(s: string, i: nat, j: nat, k: Class)
    requires i <= j <= |s|
  {
    forall x :: i <= x < j ==> InClass(s[x], k)
  }

  /** End of the longest run of class `k` starting at `pos`. */
  function ClassRun(s: string, pos: nat, k: Class): (e: nat)
    requires pos <= |s|
    ensures pos <= e <= |s| && AllIn(s, pos, e, k) && (e == |s| || !InClass(s[e], k))
    decreases |s| - pos
  {
    if pos == |s| || !InClass(s[pos], k) then pos else ClassRun(s, pos + 1, k)
  }

  // ------------------------------------------------------------------
  // what a match is

  /**
   * `caps` are the groups of a way for pattern `p` to match text starting at `pos`: each literal
   * is there, each alternation takes one of its words, each repetition a run of at least `min`
   * characters of its class.
   */
  predicate Matches(p: Pattern, s: string, pos: nat, caps: seq<string>)
    requires pos <= |s|
    decreases |p|, 1
  {
    if p == [] then caps == []
    else match p[0].atom
      case Lit(t) => LitAt(s, pos, t) && Then(p, s, pos + |t|, t, caps)
      case Alt(ws) =>
        exists i :: 0 <= i < |ws| && LitAt(s, pos, ws[i]) && Then(p, s, pos + |ws[i]|, ws[i], caps)
      case Rep(k, m) =>
        exists e :: pos + m <= e <= |s| && AllIn(s, pos, e, k) && Then(p, s, e, s[pos..e], caps)
  }

  /** The first element matched `text` and the rest of the pattern matches from `next`. */
  predicate Then(p: Pattern, s: string, next: nat, text: string, caps: seq<string>)
    requires p != [] && next <= |s|
    decreases |p|, 0
  {
    if p[0].group then caps != [] && caps[0] == text && Matches(p[1..], s, next, caps[1..])
    else Matches(p[1..], s, next, caps)
  }

  // ------------------------------------------------------------------
  // the backtracking engine

  function Capture(it: Item, text: string, rest: Option<seq<string>>): Option<seq<string>> {
    if rest.None? then None else Some((if it.group then [text] else []) + rest.value)
  }

  /** `pattern.match(s, pos)`: the groups of the first match the engine finds at `pos`. */
  function MatchAt(p: Pattern, s: string, pos: nat): Option<seq<string>>
    requires pos <= |s|
    decreases |p|, 1, 0
  {
    if p == [] then Some([])
    else match p[0].atom
      case Lit(t) =>
        if LitAt(s, pos, t) then Capture(p[0], t, MatchAt(p[1..], s, pos + |t|)) else None
      case Alt(ws) => TryWords(p, s, pos, 0)
      case Rep(k, m) => TryRuns(p, s, pos, ClassRun(s, pos, k))
  }

  /** Alternatives `i`, `i + 1`, … of the leading alternation, in order. */
  function TryWords(p: Pattern, s: string, pos: nat, i: nat): Option<seq<string>>
    requires p != [] && p[0].atom.Alt? && pos <= |s|
    decreases |p|, 0, |p[0].atom.words| - i
  {
    var ws := p[0].atom.words;
    if i >= |ws| then None
    else
      var r := if LitAt(s, pos, ws[i]) then Capture(p[0], ws[i], MatchAt(p[1..], s, pos + |ws[i]|)) else None;
      if r.Some? then r else TryWords(p, s, pos, i + 1)
  }

  /** The leading repetition ending at `e`, then at `e - 1`, … down to its minimum length. */
  function TryRuns(p: Pattern, s: string, pos: nat, e: nat): Option<seq<string>>
    requires p != [] && p[0].atom.Rep? && pos <= e <= |s|
    decreases |p|, 0, e
  {
    if e < pos + p[0].atom.min then None
    else
      var r := Capture(p[0], s[pos..e], MatchAt(p[1..], s, e));
      if r.Some? || e == pos then r else TryRuns(p, s, pos, e - 1)
  }

  /** `pattern.search(s)`: the first start position, from `pos` on, where the engine finds a match. */
  function SearchFrom(p: Pattern, s: string, pos: nat): (r: Option<(nat, seq<string>)>)
    requires pos <= |s|
    ensures r.Some? ==> pos <= r.value.0 <= |s| && MatchAt(p, s, r.value.0) == Some(r.value.1)
    ensures r.Some? ==> forall q :: pos <= q < r.value.0 ==> MatchAt(p, s, q).None?
    ensures r.None? ==> forall q :: pos <= q <= |s| ==> MatchAt(p, s, q).None?
    decreases |s| - pos
  {
    match MatchAt(p, s, pos)
    case Some(caps) => Some((pos, caps))
    case None => if pos == |s| then None else SearchFrom(p, s, pos + 1)
  }

  /** The elements inside the capturing groups, in order. */
  function GroupAtoms(p: Pattern): seq<Atom> {
    GroupAtomsFrom(p, 0)
  }

  function GroupAtomsFrom(p: Pattern, i: nat): seq<Atom>
    requires i <= |p|
    decreases |p| - i
  {
    if i == |p| then [] else (if p[i].group then [p[i].atom] else []) + GroupAtomsFrom(p, i + 1)
  }

  lemma {:induction false} GroupAtomsShift(p: Pattern, i: nat)
    requires 1 <= i <= |p|
    ensures GroupAtomsFrom(p, i) == GroupAtomsFrom(p[1..], i - 1)
    decreases |p| - i
  {
    if i < |p| {
      GroupAtomsShift(p, i + 1);
      assert p[1..][i - 1] == p[i];
    }
  }

  /** The texts an element can match on its own. */
  predicate InLanguage(t: string, a: Atom) {
    match a
    case Lit(l) => t == l
    case Alt(ws) => t in ws
    case Rep(k, m) => |t| >= m && forall x :: 0 <= x < |t| ==> InClass(t[x], k)
  }

  predicate GroupsFit(p: Pattern, caps: seq<string>) {
    var g := GroupAtoms(p);
    |caps| == |g| && forall j :: 0 <= j < |caps| ==> InLanguage(caps[j], g[j])
  }

  /** `pattern.search(s)`, reduced to its groups: one text per group, each of that group's kind. */
  function Search(p: Pattern, s: string): (r: Option<seq<string>>)
    ensures r.Some? ==> GroupsFit(p, r.value)
  {
    match SearchFrom(p, s, 0)
    case Some(m) =>
      MatchAtSound(p, s, m.0);
      MatchesGroupsFit(p, s, m.0, m.1);
      Some(m.1)
    case None => None
  }

  // ------------------------------------------------------------------
  // the engine agrees with the definition

  lemma {:induction false} MatchAtSound(p: Pattern, s: string, pos: nat)
    requires pos <= |s|
    ensures MatchAt(p, s, pos).Some? ==> Matches(p, s, pos, MatchAt(p, s, pos).value)
    decreases |p|, 1, 0
  {
    if p != [] {
      match p[0].atom
      case Lit(t) =>
        if LitAt(s, pos, t) {
          ThenSound(p, s, pos + |t|, t);
        }
      case Alt(ws) => TryWordsSound(p, s, pos, 0);
      case Rep(k, m) => TryRunsSound(p, s, pos, ClassRun(s, pos, k));
    }
  }

  /** What the engine builds from a match of the rest of the pattern satisfies `Then`. */
  lemma {:induction false} ThenSound(p: Pattern, s: string, next: nat, text: string)
    requires p != [] && next <= |s|
    ensures var r := Capture(p[0], text, MatchAt(p[1..], s, next));
      r.Some? ==> Then(p, s, next, text, r.value)
    decreases |p|, 0, 0
  {
    MatchAtSound(p[1..], s, next);
    var r := Capture(p[0], text, MatchAt(p[1..], s, next));
    if r.Some? {
      if p[0].group {
        assert r.value[1..] == MatchAt(p[1..], s, next).value;
      } else {
        assert r.value == MatchAt(p[1..], s, next).value;
      }
    }
  }

  lemma {:induction false} TryWordsSound(p: Pattern, s: string, pos: nat, i: nat)
    requires p != [] && p[0].atom.Alt? && pos <= |s|
    ensures TryWords(p, s, pos, i).Some? ==> Matches(p, s, pos, TryWords(p, s, pos, i).value)
    decreases |p|, 0, |p[0].atom.words| - i
  {
    var ws := p[0].atom.words;
    if i < |ws| {
      if LitAt(s, pos, ws[i]) {
        ThenSound(p, s, pos + |ws[i]|, ws[i]);
        var r := Capture(p[0], ws[i], MatchAt(p[1..], s, pos + |ws[i]|));
        if r.Some? {
          assert LitAt(s, pos, ws[i]) && Then(p, s, pos + |ws[i]|, ws[i], r.value);
          return;
        }
      }
      TryWordsSound(p, s, pos, i + 1);
    }
  }

  lemma {:induction false} TryRunsSound(p: Pattern, s: string, pos: nat, e: nat)
    requires p != [] && p[0].atom.Rep? && pos <= e <= |s| && AllIn(s, pos, e, p[0].atom.cls)
    ensures TryRuns(p, s, pos, e).Some? ==> Matches(p, s, pos, TryRuns(p, s, pos, e).value)
    decreases |p|, 0, e + 1
  {
    if e >= pos + p[0].atom.min {
      ThenSound(p, s, e, s[pos..e]);
      var r := Capture(p[0], s[pos..e], MatchAt(p[1..], s, e));
      if r.Some? {
        assert AllIn(s, pos, e, p[0].atom.cls) && Then(p, s, e, s[pos..e], r.value);
        return;
      }
      if e > pos {
        TryRunsSound(p, s, pos, e - 1);
      }
    }
  }

  /** Each group of a match holds text its element can match. */
  lemma {:induction false} MatchesGroupsFit(p: Pattern, s: string, pos: nat, caps: seq<string>)
    requires pos <= |s| && Matches(p, s, pos, caps)
    ensures GroupsFit(p, caps)
    decreases |p|, 1
  {
    if p != [] {
      match p[0].atom
      case Lit(t) => ThenGroupsFit(p, s, pos + |t|, t, caps);
      case Alt(ws) =>
        var i :| 0 <= i < |ws| && LitAt(s, pos, ws[i]) && Then(p, s, pos + |ws[i]|, ws[i], caps);
        ThenGroupsFit(p, s, pos + |ws[i]|, ws[i], caps);
      case Rep(k, m) =>
        var e :| pos + m <= e <= |s| && AllIn(s, pos, e, k) && Then(p, s, e, s[pos..e], caps);
        assert forall x :: 0 <= x < e - pos ==> s[pos..e][x] == s[pos + x];
        ThenGroupsFit(p, s, e, s[pos..e], caps);
    }
  }

  lemma {:induction false} ThenGroupsFit(p: Pattern, s: string, next: nat, text: string, caps: seq<string>)
    requires p != [] && next <= |s| && Then(p, s, next, text, caps)
    requires InLanguage(text, p[0].atom)
    ensures GroupsFit(p, caps)
    decreases |p|, 0
  {
    if p[0].group {
      MatchesGroupsFit(p[1..], s, next, caps[1..]);
      GroupAtomsShift(p, 1);
      assert GroupAtoms(p) == [p[0].atom] + GroupAtoms(p[1..]);
      assert caps == [text] + caps[1..];
    } else {
      MatchesGroupsFit(p[1..], s, next, caps);
      GroupAtomsShift(p, 1);
    }
  }

  lemma {:induction false} MatchAtComplete(p: Pattern, s: string, pos: nat, caps: seq<string>)
    requires pos <= |s| && Matches(p, s, pos, caps)
    ensures MatchAt(p, s, pos).Some?
    decreases |p|
  {
    if p != [] {
      match p[0].atom
      case Lit(t) =>
        ThenComplete(p, s, pos + |t|, t, caps);
      case Alt(ws) =>
        var i :| 0 <= i < |ws| && LitAt(s, pos, ws[i]) && Then(p, s, pos + |ws[i]|, ws[i], caps);
        ThenComplete(p, s, pos + |ws[i]|, ws[i], caps);
        TryWordsReaches(p, s, pos, 0, i);
      case Rep(k, m) =>
        var e :| pos + m <= e <= |s| && AllIn(s, pos, e, k) && Then(p, s, e, s[pos..e], caps);
        ThenComplete(p, s, e, s[pos..e], caps);
        TryRunsReaches(p, s, pos, ClassRun(s, pos, k), e);
    }
  }

  lemma {:induction false} ThenComplete(p: Pattern, s: string, next: nat, text: string, caps: seq<string>)
    requires p != [] && next <= |s| && Then(p, s, next, text, caps)
    ensures MatchAt(p[1..], s, next).Some?
    decreases |p|, 0
  {
    if p[0].group {
      MatchAtComplete(p[1..], s, next, caps[1..]);
    } else {
      MatchAtComplete(p[1..], s, next, caps);
    }
  }

  /** If word `j` can lead to a match, trying the words from `i <= j` on finds one. */
  lemma {:induction false} TryWordsReaches(p: Pattern, s: string, pos: nat, i: nat, j: nat)
    requires p != [] && p[0].atom.Alt? && pos <= |s|
    requires i <= j < |p[0].atom.words| && LitAt(s, pos, p[0].atom.words[j])
    requires MatchAt(p[1..], s, pos + |p[0].atom.words[j]|).Some?
    ensures TryWords(p, s, pos, i).Some?
    decreases j - i
  {
    if i < j {
      TryWordsReaches(p, s, pos, i + 1, j);
    }
  }

  /** If a run ending at `f` can lead to a match, trying the runs from `e >= f` down finds one. */
  lemma {:induction false} TryRunsReaches(p: Pattern, s: string, pos: nat, e: nat, f: nat)
    requires p != [] && p[0].atom.Rep? && pos + p[0].atom.min <= f <= e <= |s|
    requires MatchAt(p[1..], s, f).Some?
    ensures TryRuns(p, s, pos, e).Some?
    decreases e - f
  {
    if e > f {
      TryRunsReaches(p, s, pos, e - 1, f);
    }
  }

  /** The engine finds a match at `pos` exactly when the pattern can match there. */
  lemma {:induction false} MatchAtIff(p: Pattern, s: string, pos: nat)
    requires pos <= |s|
    ensures MatchAt(p, s, pos).Some? <==> exists caps :: Matches(p, s, pos, caps)
  {
    MatchAtSound(p, s, pos);
    if MatchAt(p, s, pos).Some? {
      assert Matches(p, s, pos, MatchAt(p, s, pos).value);
    }
    if exists caps :: Matches(p, s, pos, caps) {
      var caps :| Matches(p, s, pos, caps);
      MatchAtComplete(p, s, pos, caps);
    }
  }

  /**
   * `search` reports a match that the pattern allows, at the leftmost position where the pattern
   * can match at all, and reports none exactly when it can match nowhere.
   */
  lemma {:induction false} SearchLeftmost(p: Pattern, s: string)
    ensures var r := SearchFrom(p, s, 0);
      (r.Some? ==> Matches(p, s, r.value.0, r.value.1)
                   && forall q, caps :: 0 <= q < r.value.0 ==> !Matches(p, s, q, caps))
      && (r.None? ==> forall q, caps :: 0 <= q <= |s| ==> !Matches(p, s, q, caps))
  {
    var r := SearchFrom(p, s, 0);
    if r.Some? {
      MatchAtSound(p, s, r.value.0);
    }
    forall q, caps | 0 <= q <= |s| && Matches(p, s, q, caps) ensures r.Some? && r.value.0 <= q {
      MatchAtComplete(p, s, q, caps);
    }
  }

  // ------------------------------------------------------------------
  // one step of the engine, for working out a particular match

  lemma {:induction false} ClassRunIs(s: string, pos: nat, k: Class, e: nat)
    requires pos <= e <= |s| && AllIn(s, pos, e, k) && (e == |s| || !InClass(s[e], k))
    ensures ClassRun(s, pos, k) == e
    decreases e - pos
  {
    if pos < e {
      ClassRunIs(s, pos + 1, k, e);
    }
  }

  /** A literal that is there is taken. */
  lemma {:induction false} LitStep(p: Pattern, s: string, pos: nat, rest: seq<string>)
    requires p != [] && p[0].atom.Lit? && LitAt(s, pos, p[0].atom.text)
    requires MatchAt(p[1..], s, pos + |p[0].atom.text|) == Some(rest)
    ensures MatchAt(p, s, pos) == Some((if p[0].group then [p[0].atom.text] else []) + rest)
  {
  }

  /** A repetition over the whole run of its class, when the rest matches after it, is taken. */
  lemma {:induction false} RunStep(p: Pattern, s: string, pos: nat, e: nat, rest: seq<string>)
    requires p != [] && p[0].atom.Rep? && pos + p[0].atom.min <= e <= |s|
    requires AllIn(s, pos, e, p[0].atom.cls) && (e == |s| || !InClass(s[e], p[0].atom.cls))
    requires MatchAt(p[1..], s, e) == Some(rest)
    ensures MatchAt(p, s, pos) == Some((if p[0].group then [s[pos..e]] else []) + rest)
  {
    ClassRunIs(s, pos, p[0].atom.cls, e);
  }

  /** The first word of an alternation that is there is taken, when the rest matches after it. */
  lemma {:induction false} WordStep(p: Pattern, s: string, pos: nat, i: nat, rest: seq<string>)
    requires p != [] && p[0].atom.Alt? && pos <= |s| && i < |p[0].atom.words|
    requires forall j :: 0 <= j < i ==> !LitAt(s, pos, p[0].atom.words[j])
    requires LitAt(s, pos, p[0].atom.words[i])
    requires MatchAt(p[1..], s, pos + |p[0].atom.words[i]|) == Some(rest)
    ensures MatchAt(p, s, pos) == Some((if p[0].group then [p[0].atom.words[i]] else []) + rest)
  {
    TryWordsSkip(p, s, pos, 0, i);
  }

  lemma {:induction false} TryWordsSkip(p: Pattern, s: string, pos: nat, j: nat, i: nat)
    requires p != [] && p[0].atom.Alt? && pos <= |s| && j <= i < |p[0].atom.words|
    requires forall x :: j <= x < i ==> !LitAt(s, pos, p[0].atom.words[x])
    ensures TryWords(p, s, pos, j) == TryWords(p, s, pos, i)
    decreases i - j
  {
    if j < i {
      TryWordsSkip(p, s, pos, j + 1, i);
    }
  }
}

/**
 * The pieces of Python 2 `str` behaviour the scripts rely on: whitespace stripping, splitting
 * on a separator or on whitespace, joining, and decimal conversion of natural numbers.
 */
module Strings {

  /** Python 2 `str.isspace()` for one character: space, \t, \n, \r, \v, \f. */
  predicate IsSpace(c: char) {
    c == ' ' || c == '\t' || c == '\n' || c == '\r' || c == '\U{000B}' || c == '\U{000C}'
  }

  predicate IsDigit(c: char) { '0' <= c <= '9' }

  predicate IsAsciiLetter(c: char) { 'a' <= c <= 'z' || 'A' <= c <= 'Z' }

  /** `\w` of Python's `re` on a byte string without LOCALE: [A-Za-z0-9_]. */
  predicate IsWordChar(c: char) { IsAsciiLetter(c) || IsDigit(c) || c == '_' }

  predicate AllDigits(s: string) { forall i :: 0 <= i < |s| ==> IsDigit(s[i]) }

  predicate AllSpace(s: string) { forall i :: 0 <= i < |s| ==> IsSpace(s[i]) }

  predicate NoSpace(s: string) { forall i :: 0 <= i < |s| ==> !IsSpace(s[i]) }

  predicate StartsWith(s: string, prefix: string) { prefix <= s }

  predicate EndsWith(s: string, suffix: string) {
    |suffix| <= |s| && s[|s| - |suffix|..] == suffix
  }

  // ------------------------------------------------------------------
  // strip / lstrip / rstrip

  /** `s.lstrip()`: drops the leading whitespace. */
  function LStrip(s: string): (r: string)
    ensures |r| <= |s|
    ensures r == [] || !IsSpace(r[0])
  {
    if s != [] && IsSpace(s[0]) then LStrip(s[1..]) else s
  }

  /** What `lstrip` drops is a whitespace prefix, and what it keeps is the rest of `s`. */
  lemma {:induction false} LStripSpan(s: string)
    ensures LStrip(s) == s[|s| - |LStrip(s)|..] && AllSpace(s[..|s| - |LStrip(s)|])
  {
    if s != [] && IsSpace(s[0]) {
      var r := LStrip(s[1..]);
      LStripSpan(s[1..]);
      assert s[1..][..|s[1..]| - |r|] == s[1..|s| - |r|];
    }
  }

  /** `s.rstrip()`: drops the trailing whitespace. */
  function RStrip(s: string): (r: string)
    ensures |r| <= |s|
    ensures r == [] || !IsSpace(r[|r| - 1])
  {
    if s != [] && IsSpace(s[|s| - 1]) then RStrip(s[..|s| - 1]) else s
  }

  /** What `rstrip` drops is a whitespace suffix, and what it keeps is the start of `s`. */
  lemma {:induction false} RStripSpan(s: string)
    ensures RStrip(s) == s[..|RStrip(s)|] && AllSpace(s[|RStrip(s)|..])
  {
    if s != [] && IsSpace(s[|s| - 1]) {
      var r := RStrip(s[..|s| - 1]);
      RStripSpan(s[..|s| - 1]);
      assert s[..|s| - 1][|r|..] + [s[|s| - 1]] == s[|r|..];
    }
  }

  /** `s.strip()`: the part of `s` between its leading and its trailing whitespace. */
  function Strip(s: string): (r: string)
    ensures |r| <= |s|
    ensures r == [] || (!IsSpace(r[0]) && !IsSpace(r[|r| - 1]))
  {
    var l := LStrip(s);
    RStripSpan(l);
    RStrip(l)
  }

  /** The stripped text lies in `s` after the leading and before the trailing whitespace. */
  lemma {:induction false} StripSpan(s: string) returns (i: nat)
    ensures i + |Strip(s)| <= |s| && Strip(s) == s[i..i + |Strip(s)|]
    ensures AllSpace(s[..i]) && AllSpace(s[i + |Strip(s)|..])
  {
    var l := LStrip(s);
    var r := RStrip(l);
    LStripSpan(s);
    RStripSpan(l);
    i := |s| - |l|;
    assert Strip(s) == r && l == s[i..] && r == l[..|r|];
    assert s[i..][..|r|] == s[i..i + |r|];
    assert s[i + |r|..] == l[|r|..];
  }

  /** Each string stripped, in order. */
  function StripAll(lines: seq<string>): (r: seq<string>)
    ensures |r| == |lines| && forall i :: 0 <= i < |lines| ==> r[i] == Strip(lines[i])
  {
    seq(|lines|, i requires 0 <= i < |lines| => Strip(lines[i]))
  }

  /** Stripping a string that has no whitespace at either end changes nothing. */
  lemma {:induction false} StripNoOp(s: string)
    requires s == [] || (!IsSpace(s[0]) && !IsSpace(s[|s| - 1]))
    ensures Strip(s) == s
  {
  }

  // ------------------------------------------------------------------
  // split on one character / join

  function IndexOf(s: string, c: char): (i: nat)
    requires c in s
    ensures i < |s| && s[i] == c && c !in s[..i]
  {
    if s[0] == c then 0
    else
      var j := IndexOf(s[1..], c);
      assert s[1..][..j] == s[1..j + 1];
      j + 1
  }

  /** `sep.join(parts)` for a one-character separator. */
  function Join(parts: seq<string>, sep: char): string {
    if |parts| == 0 then ""
    else if |parts| == 1 then parts[0]
    else parts[0] + [sep] + Join(parts[1..], sep)
  }

  /** A character that is neither the separator nor in any part is not in the joined string. */
  lemma {:induction false} JoinWithout(parts: seq<string>, sep: char, c: char)
    requires c != sep && forall i :: 0 <= i < |parts| ==> c !in parts[i]
    ensures c !in Join(parts, sep)
  {
    if |parts| > 1 {
      JoinWithout(parts[1..], sep, c);
    }
  }

  /** `s.split(sep)` for a one-character separator: the pieces between separators. */
  function Split(s: string, sep: char): (r: seq<string>)
    ensures |r| >= 1
    ensures forall i :: 0 <= i < |r| ==> sep !in r[i]
    ensures Join(r, sep) == s
    decreases |s|
  {
    if sep !in s then [s]
    else
      var i := IndexOf(s, sep);
      var rest := Split(s[i + 1..], sep);
      assert s == s[..i] + [sep] + s[i + 1..];
      [s[..i]] + rest
  }

  /** `s.count(c)` */
  function Count(s: string, c: char): nat {
    if s == [] then 0 else (if s[0] == c then 1 else 0) + Count(s[1..], c)
  }

  lemma {:induction false} CountAppend(a: string, b: string, c: char)
    ensures Count(a + b, c) == Count(a, c) + Count(b, c)
  {
    if a == [] {
      assert a + b == b;
    } else {
      assert (a + b)[1..] == a[1..] + b;
      CountAppend(a[1..], b, c);
    }
  }

  lemma {:induction false} CountAbsent(s: string, c: char)
    requires c !in s
    ensures Count(s, c) == 0
  {
    if s != [] {
      CountAbsent(s[1..], c);
    }
  }

  /** A string splits into one more piece than it holds separators. */
  lemma {:induction false} SplitCount(s: string, sep: char)
    ensures |Split(s, sep)| == 1 + Count(s, sep)
    decreases |s|
  {
    if sep !in s {
      CountAbsent(s, sep);
    } else {
      var i := IndexOf(s, sep);
      assert s == s[..i] + ([sep] + s[i + 1..]);
      CountAppend(s[..i], [sep] + s[i + 1..], sep);
      CountAbsent(s[..i], sep);
      assert ([sep] + s[i + 1..])[1..] == s[i + 1..];
      SplitCount(s[i + 1..], sep);
    }
  }

  /** Splitting a join gives the parts back, when no part holds the separator. */
  lemma {:induction false} SplitJoin(parts: seq<string>, sep: char)
    requires |parts| >= 1
    requires forall i :: 0 <= i < |parts| ==> sep !in parts[i]
    ensures Split(Join(parts, sep), sep) == parts
  {
    if |parts| > 1 {
      SplitCons(parts[0], Join(parts[1..], sep), sep);
      SplitJoin(parts[1..], sep);
    }
  }

  /** Text up to the first separator is the first piece; the rest is split on its own. */
  lemma {:induction false} SplitCons(c: string, rest: string, sep: char)
    requires sep !in c
    ensures Split(c + [sep] + rest, sep) == [c] + Split(rest, sep)
  {
    var s := c + [sep] + rest;
    assert s[|c|] == sep && s[..|c|] == c;
    assert IndexOf(s, sep) == |c|;
    assert s[|c| + 1..] == rest;
  }

  // ------------------------------------------------------------------
  // split() on whitespace

  function NonSpaceRun(s: string): (n: nat)
    ensures n <= |s| && NoSpace(s[..n]) && (n == |s| || IsSpace(s[n]))
  {
    if s == [] || IsSpace(s[0]) then 0
    else
      var k := NonSpaceRun(s[1..]);
      assert s[..k + 1] == [s[0]] + s[1..][..k];
      k + 1
  }

  /** `s.split()`: the maximal runs of non-whitespace characters, in order. */
  function Words(s: string): (r: seq<string>)
    ensures forall i :: 0 <= i < |r| ==> r[i] != [] && NoSpace(r[i])
    ensures r == [] <==> AllSpace(s)
    decreases |s|
  {
    if s == [] then []
    else if IsSpace(s[0]) then Words(s[1..])
    else
      var n := NonSpaceRun(s);
      [s[..n]] + Words(s[n..])
  }

  /** The first word of a string that starts with a non-space character is its first run. */
  lemma {:induction false} WordsHead(s: string)
    requires s != [] && !IsSpace(s[0])
    ensures Words(s) != [] && Words(s)[0] == s[..NonSpaceRun(s)]
  {
  }

  /** Whitespace in front of a string does not change its words. */
  lemma {:induction false} WordsSkipSpace(pad: string, s: string)
    requires AllSpace(pad)
    ensures Words(pad + s) == Words(s)
  {
    if pad != [] {
      assert (pad + s)[0] == pad[0] && IsSpace(pad[0]);
      assert (pad + s)[1..] == pad[1..] + s;
      assert Words(pad + s) == Words(pad[1..] + s);
      WordsSkipSpace(pad[1..], s);
    } else {
      assert pad + s == s;
    }
  }

  /** A run that ends at the end of the string or at a whitespace character is the first run. */
  lemma {:induction false} NonSpaceRunIs(s: string, n: nat)
    requires n <= |s| && NoSpace(s[..n]) && (n == |s| || IsSpace(s[n]))
    ensures NonSpaceRun(s) == n
  {
    if n > 0 {
      assert s[0] == s[..n][0];
      assert s[1..][..n - 1] == s[..n][1..];
      NonSpaceRunIs(s[1..], n - 1);
    }
  }

  /** A single word is its own only word. */
  lemma {:induction false} WordsSingle(w: string)
    requires w != [] && NoSpace(w)
    ensures Words(w) == [w]
  {
    assert w[..|w|] == w;
    NonSpaceRunIs(w, |w|);
    assert w[|w|..] == [];
  }

  /** A word followed by a space and more text is the first of the words. */
  lemma {:induction false} WordsCons(w: string, rest: string)
    requires w != [] && NoSpace(w)
    ensures Words(w + (" " + rest)) == [w] + Words(rest)
  {
    var s := w + (" " + rest);
    assert s[..|w|] == w && s[|w|] == ' ';
    NonSpaceRunIs(s, |w|);
    assert s[|w|..] == " " + rest;
    WordsSkipSpace(" ", rest);
  }

  // ------------------------------------------------------------------
  // character-level edits

  /** `s.translate(None, [c])`: every `c` deleted. */
  function DeleteChar(s: string, c: char): (r: string)
    ensures c !in r && |r| <= |s|
  {
    if s == [] then []
    else (if s[0] == c then [] else [s[0]]) + DeleteChar(s[1..], c)
  }

  /** `s.replace(a, b)` for single characters. */
  function ReplaceChar(s: string, a: char, b: char): (r: string)
    ensures |r| == |s|
    ensures forall i :: 0 <= i < |s| ==> r[i] == if s[i] == a then b else s[i]
  {
    if s == [] then []
    else [if s[0] == a then b else s[0]] + ReplaceChar(s[1..], a, b)
  }

  lemma {:induction false} DeleteCharAbsent(s: string, c: char)
    requires c !in s
    ensures DeleteChar(s, c) == s
  {
    if s != [] {
      DeleteCharAbsent(s[1..], c);
    }
  }

  lemma {:induction false} ReplaceCharAbsent(s: string, a: char, b: char)
    requires a !in s
    ensures ReplaceChar(s, a, b) == s
  {
  }

  lemma {:induction false} ReplaceCharAppend(s: string, t: string, a: char, b: char)
    ensures ReplaceChar(s + t, a, b) == ReplaceChar(s, a, b) + ReplaceChar(t, a, b)
  {
    var l := ReplaceChar(s + t, a, b);
    var r := ReplaceChar(s, a, b) + ReplaceChar(t, a, b);
    assert |l| == |r|;
    forall i | 0 <= i < |l|
      ensures l[i] == r[i]
    {
      if i < |s| {
        assert (s + t)[i] == s[i];
      } else {
        assert (s + t)[i] == t[i - |s|];
      }
    }
  }

  /** `s.lower()` for ASCII letters. */
  function Lower(s: string): (r: string)
    ensures |r| == |s|
    ensures forall i :: 0 <= i < |s| ==> r[i] == if 'A' <= s[i] <= 'Z' then (s[i] as int + 32) as char else s[i]
  {
    if s == [] then []
    else [if 'A' <= s[0] <= 'Z' then (s[0] as int + 32) as char else s[0]] + Lower(s[1..])
  }

  /** `s.lower()` changes nothing on a string that is already lower-case. */
  lemma {:induction false} LowerIdempotent(s: string)
    ensures Lower(Lower(s)) == Lower(s)
  {
    var l := Lower(s);
    forall i | 0 <= i < |l| ensures Lower(l)[i] == l[i] {
    }
  }

  /** Concatenation of a sequence of strings (`"".join(parts)`). */
  function Concat(parts: seq<string>): string {
    if parts == [] then "" else parts[0] + Concat(parts[1..])
  }

  lemma {:induction false} ConcatAppend(a: seq<string>, b: seq<string>)
    ensures Concat(a + b) == Concat(a) + Concat(b)
  {
    if a != [] {
      assert (a + b)[1..] == a[1..] + b;
      assert Concat(a + b) == a[0] + Concat(a[1..] + b);
      ConcatAppend(a[1..], b);
    } else {
      assert a + b == b;
    }
  }

  // ------------------------------------------------------------------
  // decimal numbers

  function DigitChar(d: nat): (c: char)
    requires d < 10
    ensures IsDigit(c)
  {
    ['0', '1', '2', '3', '4', '5', '6', '7', '8', '9'][d]
  }

  function DigitValue(c: char): (d: nat)
    requires IsDigit(c)
    ensures d < 10
  {
    (c as int - '0' as int) as nat
  }

  /** `str(n)` (also `"%d" % n` and backquotes) for a natural number. */
  function NatToString(n: nat): (r: string)
    ensures |r| >= 1 && AllDigits(r)
    ensures r[0] != '0' || n == 0
  {
    if n < 10 then [DigitChar(n)] else NatToString(n / 10) + [DigitChar(n % 10)]
  }

  /** `"%d" % i` for any integer: a minus sign before the digits of a negative one. */
  function IntToString(i: int): (r: string)
    ensures |r| >= 1
  {
    if i < 0 then "-" + NatToString(-i) else NatToString(i)
  }

  /** A printed integer is a minus sign at most, then digits. */
  lemma IntToStringDigits(i: int)
    ensures forall k :: 0 <= k < |IntToString(i)| ==> IntToString(i)[k] == '-' || IsDigit(IntToString(i)[k])
    ensures IntToString(i)[0] == '-' <==> i < 0
  {
  }

  /** `int(ds)` for a string of decimal digits. */
  function DigitsValue(ds: string): nat
    requires AllDigits(ds)
  {
    if ds == [] then 0 else DigitsValue(ds[..|ds| - 1]) * 10 + DigitValue(ds[|ds| - 1])
  }

  /** `int(str(n)) == n`. */
  lemma {:induction false} DigitsValueOfNatToString(n: nat)
    ensures DigitsValue(NatToString(n)) == n
  {
    var s := NatToString(n);
    if n >= 10 {
      DigitsValueOfNatToString(n / 10);
      assert s[..|s| - 1] == NatToString(n / 10);
    }
  }

  /** Distinct numbers print differently. */
  lemma {:induction false} NatToStringInjective(a: nat, b: nat)
    requires NatToString(a) == NatToString(b)
    ensures a == b
  {
    DigitsValueOfNatToString(a);
    DigitsValueOfNatToString(b);
  }
}

/**
 * genpass: generate a password, a pass phrase or a PIN and write it to standard output or the
 * paste buffer. Randomness is a parameter: `randint(a, b)` is `a + pick % (b - a + 1)` for a
 * given `pick`, and the `i`th `random.choice(items)` is `items[picks(i) % |items|]`.
 */
module GenPass {
  import opened Wrappers
  import opened Strings

  // ------------------------------------------------------------------
  // alphabets

  /** The `n` characters from code point `lo` on. */
  function Span(lo: int, n: nat): (r: string)
    requires 0 <= lo && lo + n <= 0xD800
    ensures |r| == n && forall i :: 0 <= i < n ==> r[i] == (lo + i) as char
  {
    if n == 0 then [] else Span(lo, n - 1) + [(lo + n - 1) as char]
  }

  /** `string.letters` (in the C locale, the lower-case letters first) and `string.digits`. */
  const Letters: string := Span('a' as int, 26) + Span('A' as int, 26)
  const Digits: string := Span('0' as int, 10)
  /** `string.punctuation`. */
  const Punctuation: string := "!\"#$%&'()*+,-./:;<=>?@[\\]^_`{|}~"
  /** The characters removed unless look-alikes are allowed. */
  const Lookalikes: string := "0O1l"

  /** The `--charset` choices. */
  datatype Charset = AlphaNum | AlphaNumPunct

  /** `alphabets[charset]`. */
  function Alphabet(charset: Charset): (a: string)
    ensures a != []
  {
    match charset
    case AlphaNum => Letters + Digits
    case AlphaNumPunct => Letters + Digits + Punctuation
  }

  lemma {:induction false} LettersAndDigits(c: char)
    ensures c in Letters <==> IsAsciiLetter(c)
    ensures c in Digits <==> IsDigit(c)
  {
    if 'a' <= c <= 'z' {
      assert Letters[c as int - 'a' as int] == c;
    } else if 'A' <= c <= 'Z' {
      assert Letters[26 + c as int - 'A' as int] == c;
    }
    if IsDigit(c) {
      assert Digits[c as int - '0' as int] == c;
    }
  }

  /** "alphanum" is the letters and digits; "alphanumpunct" adds the punctuation. */
  lemma {:induction false} AlphabetContents(c: char)
    ensures c in Alphabet(AlphaNum) <==> IsAsciiLetter(c) || IsDigit(c)
    ensures c in Alphabet(AlphaNumPunct) <==> IsAsciiLetter(c) || IsDigit(c) || c in Punctuation
  {
    LettersAndDigits(c);
  }

  /** `s.translate(None, chars)`: `s` without the characters in `chars`, in order. */
  function DeleteChars(s: string, chars: string): (r: string)
    ensures forall c :: c in r <==> c in s && c !in chars
    ensures |r| <= |s|
  {
    if s == [] then []
    else (if s[0] in chars then [] else [s[0]]) + DeleteChars(s[1..], chars)
  }

  // ------------------------------------------------------------------
  // random choices

  /** `random.randint(a, b)`: an error when the range is empty. */
  function RandInt(a: int, b: int, pick: nat): (r: Result<int>)
    ensures r.Err? <==> a > b
    ensures r.Ok? ==> a <= r.value <= b
  {
    if a > b then Err("ValueError") else Ok(a + pick % (b - a + 1))
  }

  /** `n` calls of `random.choice(items)`; no call at all when `n` is not positive. */
  function Choose<T>(items: seq<T>, n: int, picks: nat -> nat): (r: Result<seq<T>>)
    ensures r.Err? <==> items == [] && n > 0
    ensures r.Ok? ==> |r.value| == (if n < 0 then 0 else n)
    ensures r.Ok? ==> forall i :: 0 <= i < |r.value| ==> r.value[i] in items
  {
    if n <= 0 then Ok([])
    else if items == [] then Err("IndexError")
    else Ok(seq(n, i requires 0 <= i < n => items[picks(i) % |items|]))
  }

  /** `args.min if args.min else d`. */
  function OrDefault(v: int, d: int): (r: int)
    ensures v != 0 ==> r == v
    ensures v == 0 ==> r == d
  {
    if v != 0 then v else d
  }

  /** The command-line parameters the generators read. */
  datatype Params = Params(charset: Charset, lookalikes: bool, min: int, max: int)

  // ------------------------------------------------------------------
  // pass_word, pass_phrase, pass_pin

  /** The characters `pass_word` draws from. */
  function WordAlphabet(p: Params): (a: string)
    ensures forall c :: c in a <==> c in Alphabet(p.charset) && (p.lookalikes || c !in Lookalikes)
  {
    if p.lookalikes then Alphabet(p.charset) else DeleteChars(Alphabet(p.charset), Lookalikes)
  }

  function PassWord(p: Params, lengthPick: nat, picks: nat -> nat): Result<string> {
    match RandInt(OrDefault(p.min, 12), OrDefault(p.max, 24), lengthPick)
    case Err(e) => Err(e)
    case Ok(length) => Choose(WordAlphabet(p), length, picks)
  }

  /**
   * A password has a length between the (defaulted) minimum and maximum, or is empty when that
   * length is negative; every character comes from the chosen alphabet, and no look-alike is
   * in it unless they are allowed. It fails only on an empty length range.
   */
  lemma {:induction false} PassWordShape(p: Params, lengthPick: nat, picks: nat -> nat)
    ensures var r := PassWord(p, lengthPick, picks);
      (r.Err? <==> OrDefault(p.min, 12) > OrDefault(p.max, 24)) &&
      (r.Ok? ==>
        (|r.value| == 0 || OrDefault(p.min, 12) <= |r.value| <= OrDefault(p.max, 24)) &&
        (OrDefault(p.min, 12) >= 0 ==> OrDefault(p.min, 12) <= |r.value|) &&
        forall i :: 0 <= i < |r.value| ==>
          r.value[i] in Alphabet(p.charset) && (p.lookalikes || r.value[i] !in Lookalikes))
  {
    var alphabet := WordAlphabet(p);
    assert '2' in Alphabet(p.charset) && '2' !in Lookalikes by {
      LettersAndDigits('2');
    }
    assert alphabet != [];
  }

  /** With no `--min` and `--max`, a password has 12 to 24 characters. */
  lemma {:induction false} PassWordDefaultLength(charset: Charset, lookalikes: bool, lengthPick: nat, picks: nat -> nat)
    ensures var r := PassWord(Params(charset, lookalikes, 0, 0), lengthPick, picks);
      r.Ok? && 12 <= |r.value| <= 24
  {
    PassWordShape(Params(charset, lookalikes, 0, 0), lengthPick, picks);
  }

  /** `pass_pin`: digits only. */
  function PassPin(p: Params, lengthPick: nat, picks: nat -> nat): (r: Result<string>)
    ensures r.Err? <==> OrDefault(p.min, 4) > OrDefault(p.max, 4)
    ensures r.Ok? ==> forall i :: 0 <= i < |r.value| ==> IsDigit(r.value[i])
    ensures (r.Ok? && OrDefault(p.min, 4) >= 0 ==>
      OrDefault(p.min, 4) <= |r.value| <= OrDefault(p.max, 4))
  {
    match RandInt(OrDefault(p.min, 4), OrDefault(p.max, 4), lengthPick)
    case Err(e) => Err(e)
    case Ok(length) =>
      var r := Choose(Digits, length, picks);
      assert forall c :: c in Digits ==> IsDigit(c);
      r
  }

  /** With no `--min` and `--max`, a PIN has exactly 4 digits. */
  lemma {:induction false} PassPinDefault(charset: Charset, lookalikes: bool, lengthPick: nat, picks: nat -> nat)
    ensures var r := PassPin(Params(charset, lookalikes, 0, 0), lengthPick, picks);
      r.Ok? && |r.value| == 4
  {
  }

  /** `" ".join(...)` of the words. */
  function JoinWords(words: seq<string>): string {
    if words == [] then "" else Join(words, ' ')
  }

  /**
   * `pass_phrase` over the lines of the dictionary file (`None` when it cannot be opened): the
   * chosen lines, stripped, joined with single spaces.
   */
  function PassPhrase(p: Params, dict: Option<seq<string>>, lengthPick: nat, picks: nat -> nat): Result<string> {
    if dict.None? then Err("IOError")
    else
      match RandInt(OrDefault(p.min, 4), OrDefault(p.max, 6), lengthPick)
      case Err(e) => Err(e)
      case Ok(length) =>
        match Choose(dict.value, length, picks)
        case Err(e) => Err(e)
        case Ok(lines) => Ok(JoinWords(StripAll(lines)))
  }

  /**
   * Splitting a pass phrase on spaces gives back its words: as many as the length drawn
   * (4 to 6 by default), each a stripped line of the dictionary, when no dictionary word has a
   * space inside it.
   */
  lemma {:induction false} PassPhraseWords(p: Params, dict: seq<string>, lengthPick: nat, picks: nat -> nat)
    requires forall i :: 0 <= i < |dict| ==> ' ' !in Strip(dict[i])
    requires dict != [] && 1 <= OrDefault(p.min, 4) <= OrDefault(p.max, 6)
    ensures var r := PassPhrase(p, Some(dict), lengthPick, picks);
      r.Ok? && OrDefault(p.min, 4) <= |Split(r.value, ' ')| <= OrDefault(p.max, 6) &&
      forall i :: 0 <= i < |Split(r.value, ' ')| ==>
        exists j :: 0 <= j < |dict| && Split(r.value, ' ')[i] == Strip(dict[j])
  {
    var length := RandInt(OrDefault(p.min, 4), OrDefault(p.max, 6), lengthPick).value;
    var lines := Choose(dict, length, picks).value;
    var words := StripAll(lines);
    forall i | 0 <= i < |words|
      ensures ' ' !in words[i] && exists j :: 0 <= j < |dict| && words[i] == Strip(dict[j])
    {
      var j :| 0 <= j < |dict| && lines[i] == dict[j];
    }
    SplitJoin(words, ' ');
  }

  // ------------------------------------------------------------------
  // main

  datatype Algorithm = Word | Phrase | Pin

  /** The output: standard output, or the paste buffer. */
  datatype Output = Stdout | Clipboard

  /** The password `main` generates with the chosen algorithm. */
  function Generate(algorithm: Algorithm, p: Params, dict: Option<seq<string>>, lengthPick: nat,
                    picks: nat -> nat): Result<string>
  {
    match algorithm
    case Word => PassWord(p, lengthPick, picks)
    case Phrase => PassPhrase(p, dict, lengthPick, picks)
    case Pin => PassPin(p, lengthPick, picks)
  }

  /**
   * `output_clipboard`'s status: 1 when the copy program exits with a positive status, else 0;
   * `copy` is that exit status, or the exception running it raised.
   */
  function ClipboardStatus(copy: int): (status: int)
    ensures status == 1 <==> copy > 0
    ensures status == 0 <==> copy <= 0
  {
    if copy > 0 then 1 else 0
  }

  /** `main` as written: the status `output_clipboard` returns is dropped. */
  function RunMainAsWritten(generated: Result<string>, out: Output, copy: Result<int>): (status: int)
    ensures status == 1 <==> generated.Err? || (out == Clipboard && copy.Err?)
  {
    if generated.Err? then 1
    else if out == Clipboard && copy.Err? then 1
    else 0
  }

  /** A copy program that fails still gives status 0. */
  lemma {:induction false} ClipboardFailureIgnored()
    ensures ClipboardStatus(1) == 1 && RunMainAsWritten(Ok("pw"), Clipboard, Ok(1)) == 0
  {
  }

  /**
   * `main` with the output's status passed on: 1 when generating fails, when writing raises,
   * or when the copy program reports an error; 0 otherwise.
   */
  function RunMain(generated: Result<string>, out: Output, copy: Result<int>): (status: int)
    ensures (status == 1 <==>
      generated.Err? || (out == Clipboard && (copy.Err? || ClipboardStatus(copy.value) == 1)))
    ensures status == 0 || status == 1
  {
    if generated.Err? then 1
    else if out == Clipboard && copy.Err? then 1
    else if out == Clipboard then ClipboardStatus(copy.value)
    else 0
  }

  /** The two agree except when the copy program fails. */
  lemma {:induction false} MainAgrees(generated: Result<string>, out: Output, copy: Result<int>)
    ensures (RunMain(generated, out, copy) == RunMainAsWritten(generated, out, copy) <==>
      !(generated.Ok? && out == Clipboard && copy.Ok? && copy.value > 0))
  {
  }
}

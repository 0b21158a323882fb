/**
 * majordomo-approver: reading the messages Apple Mail saves into one text file. The file is
 * read line by line; each line has its NULs deleted and its carriage returns turned into line
 * feeds, and is split at the line feeds. Messages follow the first "-*-*..." delimiter line;
 * each is a block of header lines, a separating line, and body lines up to the next delimiter.
 */
module AppleMail {
  import opened Wrappers
  import opened Strings
  import opened TextFile

  // ------------------------------------------------------------------
  // reading the lines

  /** `line.translate(table, "\x00")` with `table` mapping '\r' to '\n'. */
  function Translate(l: string): (r: string)
    ensures '\0' !in r && '\r' !in r
  {
    ReplaceChar(DeleteChar(l, '\0'), '\r', '\n')
  }

  /**
   * The list the reader builds from file position `pos` on: each line read, translated and
   * split at '\n', until a line translates to "" (the end of the file, or a last line made of
   * NULs only).
   */
  function LinesRead(data: string, pos: nat): seq<string>
    requires pos <= |data|
    decreases |data| - pos
  {
    if pos == |data| then []
    else
      var e := LineEnd(data, pos);
      var line := Translate(data[pos..e]);
      if line == [] then [] else Split(line, '\n') + LinesRead(data, e)
  }

  /** The first loop of `readAppleMailMsg`: read, translate and split every line. */
  method ReadLines(data: string) returns (lines: seq<string>)
    ensures lines == LinesRead(data, 0)
  {
    lines := [];
    var pos := 0;
    var e := LineEnd(data, pos);
    var line := Translate(data[pos..e]);
    while line != []
      invariant pos <= e <= |data| && e == LineEnd(data, pos) && line == Translate(data[pos..e])
      invariant lines + LinesRead(data, pos) == LinesRead(data, 0)
      decreases |data| - pos
    {
      assert LinesRead(data, pos) == Split(line, '\n') + LinesRead(data, e);
      lines := lines + Split(line, '\n');
      pos := e;
      e := LineEnd(data, pos);
      line := Translate(data[pos..e]);
    }
    assert LinesRead(data, pos) == [];
  }

  /**
   * A file with classic Mac line ends holds no '\n', so it is read as one line: the list is the
   * whole translated file split at its (former) carriage returns.
   */
  lemma {:induction false} LinesReadMac(data: string)
    requires '\n' !in data
    ensures LinesRead(data, 0) == if Translate(data) == [] then [] else Split(Translate(data), '\n')
  {
    if data != [] {
      var e := LineEnd(data, 0);
      assert e == |data|;
      assert data[0..e] == data;
    }
  }

  /** Turning every '\r' into '\n' turns a '\r'-join into a '\n'-join. */
  lemma {:induction false} ReplaceJoin(ls: seq<string>)
    requires forall i :: 0 <= i < |ls| ==> '\r' !in ls[i]
    ensures ReplaceChar(Join(ls, '\r'), '\r', '\n') == Join(ls, '\n')
  {
    if |ls| == 1 {
      ReplaceCharAbsent(ls[0], '\r', '\n');
    } else if |ls| > 1 {
      ReplaceCharAppend(ls[0] + "\r", Join(ls[1..], '\r'), '\r', '\n');
      ReplaceCharAppend(ls[0], "\r", '\r', '\n');
      ReplaceCharAbsent(ls[0], '\r', '\n');
      ReplaceJoin(ls[1..]);
    }
  }

  /** The list read from lines joined by carriage returns is those lines. */
  lemma {:induction false} LinesReadMacJoin(ls: seq<string>)
    requires |ls| >= 1 && ls[0] != []
    requires forall i :: 0 <= i < |ls| ==> '\r' !in ls[i] && '\n' !in ls[i] && '\0' !in ls[i]
    ensures LinesRead(Join(ls, '\r'), 0) == ls
  {
    var data := Join(ls, '\r');
    JoinWithout(ls, '\r', '\n');
    JoinWithout(ls, '\r', '\0');
    DeleteCharAbsent(data, '\0');
    ReplaceJoin(ls);
    assert Translate(data) == Join(ls, '\n');
    assert |ls| > 1 ==> Join(ls, '\n') == ls[0] + "\n" + Join(ls[1..], '\n');
    assert Join(ls, '\n') != [];
    LinesReadMac(data);
    SplitJoin(ls, '\n');
  }

  // ------------------------------------------------------------------
  // line classes

  /** `delimRE.match(line)` for `^(-\*)+$`: one or more "-*" pairs, then the end or a last '\n'. */
  predicate IsDelimRun(l: string) {
    |l| >= 2 && |l| % 2 == 0 && forall i :: 0 <= i < |l| ==> l[i] == (if i % 2 == 0 then '-' else '*')
  }

  predicate IsDelim(l: string) {
    IsDelimRun(l) || (|l| >= 1 && l[|l| - 1] == '\n' && IsDelimRun(l[..|l| - 1]))
  }

  /** `whitespaceRE.match(line)` for `^\s*$`. */
  predicate Blank(l: string) {
    AllSpace(l)
  }

  /** The text `.*` captures: up to the first '\n'. */
  function RestOfLine(s: string): (r: string)
    ensures '\n' !in r && r <= s
    ensures '\n' !in s ==> r == s
  {
    if '\n' in s then s[..IndexOf(s, '\n')] else s
  }

  /** The names `headerRE` tries, in the order of its alternation. */
  const HeaderNames: seq<string> := ["DATE", "SENDER", "SUBJECT", "RECIPIENT"]

  /**
   * `headerRE.match(line)` for `(DATE|SENDER|SUBJECT|RECIPIENT): (.*)`: the first name of the
   * alternation that, followed by ": ", starts the line, and the rest of that line.
   */
  function MatchHeader(l: string): (r: Option<(string, string)>)
    ensures r.Some? ==> r.value.0 in HeaderNames && r.value.0 + ": " <= l
                        && r.value.1 == RestOfLine(l[|r.value.0| + 2..])
    ensures r.None? ==> forall n :: n in HeaderNames ==> !(n + ": " <= l)
  {
    if "DATE: " <= l then Some(("DATE", RestOfLine(l[6..])))
    else if "SENDER: " <= l then Some(("SENDER", RestOfLine(l[8..])))
    else if "SUBJECT: " <= l then Some(("SUBJECT", RestOfLine(l[9..])))
    else if "RECIPIENT: " <= l then Some(("RECIPIENT", RestOfLine(l[11..])))
    else None
  }

  /** The dictionary key a header is stored under. */
  function Key(name: string): string {
    if name == "SENDER" then "from" else if name == "RECIPIENT" then "to" else Lower(name)
  }

  // ------------------------------------------------------------------
  // the messages, as functions of the line list

  /** A message as `readAppleMailMsg` builds it: a dictionary from field name to text. */
  type Message = map<string, string>

  /** "Find start of first message": everything after the first delimiter line. */
  function SkipToStart(ls: seq<string>): (r: seq<string>)
    ensures |r| <= |ls|
  {
    if ls == [] then [] else if IsDelim(ls[0]) then ls[1..] else SkipToStart(ls[1..])
  }

  function SkipBlank(ls: seq<string>): (r: seq<string>)
    ensures |r| <= |ls| && (r == [] || !Blank(r[0]))
  {
    if ls != [] && Blank(ls[0]) then SkipBlank(ls[1..]) else ls
  }

  /** The header loop: header lines update `m`; the first other line is consumed and ends it. */
  function Headers(ls: seq<string>, m: Message): (r: (Message, seq<string>))
    ensures |r.1| <= |ls| && (ls != [] ==> |r.1| < |ls|)
  {
    if ls == [] then (m, [])
    else match MatchHeader(ls[0])
      case None => (m, ls[1..])
      case Some(hv) => Headers(ls[1..], m[Key(hv.0) := hv.1])
  }

  /** The body loop: stripped lines, each ended by "\n", up to and consuming the next delimiter. */
  function Body(ls: seq<string>): (r: (string, seq<string>))
    ensures |r.1| <= |ls|
  {
    if ls == [] then ("", [])
    else if IsDelim(ls[0]) then ("", ls[1..])
    else
      var r := Body(ls[1..]);
      (Strip(ls[0]) + "\n" + r.0, r.1)
  }

  /** One pass of the message loop: the message read and the lines left. */
  function ParseOne(ls: seq<string>): (r: (Message, seq<string>))
    requires ls != []
    ensures |r.1| < |ls|
  {
    var start := SkipBlank(ls);
    var h := Headers(start, map[]);
    var b := Body(SkipBlank(h.1));
    (h.0["body" := b.0], b.1)
  }

  function Messages(ls: seq<string>): seq<Message>
    decreases |ls|
  {
    if ls == [] then [] else var p := ParseOne(ls); [p.0] + Messages(p.1)
  }

  /** What `readAppleMailMsg` returns for a file's contents. */
  function ReadAppleMail(data: string): seq<Message> {
    Messages(SkipToStart(LinesRead(data, 0)))
  }

  // ------------------------------------------------------------------
  // the reader, popping lines off the front of the list

  method FindStart(ls: seq<string>) returns (lines: seq<string>)
    ensures lines == SkipToStart(ls)
  {
    lines := ls;
    while lines != []
      invariant SkipToStart(lines) == SkipToStart(ls)
    {
      var line := lines[0];
      lines := lines[1..];
      if IsDelim(line) {
        break;
      }
    }
  }

  method SkipBlankLines(ls: seq<string>) returns (lines: seq<string>)
    ensures lines == SkipBlank(ls)
  {
    lines := ls;
    while lines != [] && Blank(lines[0])
      invariant SkipBlank(lines) == SkipBlank(ls)
    {
      lines := lines[1..];
    }
  }

  /** The header loop of `readAppleMailMsg`, starting from an empty message. */
  method ReadHeaders(ls: seq<string>) returns (msg: Message, lines: seq<string>)
    ensures (msg, lines) == Headers(ls, map[])
  {
    lines := ls;
    msg := map[];
    while lines != []
      invariant Headers(lines, msg) == Headers(ls, map[])
    {
      var line := lines[0];
      lines := lines[1..];
      var hv := MatchHeader(line);
      if hv.None? {
        break;
      }
      msg := msg[Key(hv.value.0) := hv.value.1];
    }
  }

  /** The body loop of `readAppleMailMsg`. */
  method ReadBody(ls: seq<string>) returns (body: string, lines: seq<string>)
    ensures (body, lines) == Body(ls)
  {
    lines := ls;
    body := "";
    while lines != []
      invariant body + Body(lines).0 == Body(ls).0 && Body(lines).1 == Body(ls).1
    {
      var line := lines[0];
      ghost var before := lines;
      lines := lines[1..];
      if IsDelim(line) {
        assert Body(before) == ("", lines) && body + "" == body;
        break;
      }
      var text := Strip(line) + "\n";
      assert (body + text) + Body(lines).0 == body + (text + Body(lines).0);
      body := body + text;
    }
    assert lines == [] ==> body + Body(lines).0 == body;
  }

  /** One pass of the message loop of `readAppleMailMsg`. */
  method ReadMessage(ls: seq<string>) returns (msg: Message, lines: seq<string>)
    requires ls != []
    ensures (msg, lines) == ParseOne(ls)
  {
    lines := SkipBlankLines(ls);
    msg, lines := ReadHeaders(lines);
    lines := SkipBlankLines(lines);
    var body;
    body, lines := ReadBody(lines);
    msg := msg["body" := body];
  }

  /** The message loop of `readAppleMailMsg`, after the start of the first message. */
  method ReadMessages(ls: seq<string>) returns (msgs: seq<Message>)
    ensures msgs == Messages(ls)
  {
    var lines := ls;
    msgs := [];
    while lines != []
      invariant msgs + Messages(lines) == Messages(ls)
      decreases |lines|
    {
      var msg;
      msg, lines := ReadMessage(lines);
      msgs := msgs + [msg];
    }
    assert msgs + [] == msgs;
  }

  /** `readAppleMailMsg(stream)`, with the stream's contents as `data`. */
  method ReadAppleMailMsg(data: string) returns (msgs: seq<Message>)
    ensures msgs == ReadAppleMail(data)
  {
    var lines := ReadLines(data);
    lines := FindStart(lines);
    msgs := ReadMessages(lines);
  }

  // ------------------------------------------------------------------
  // properties

  /** Every message has a body, and its other fields are among "from", "to", "date" and "subject". */
  lemma {:induction false} MessageKeys(ls: seq<string>)
    ensures forall i :: 0 <= i < |Messages(ls)| ==>
      "body" in Messages(ls)[i] && Messages(ls)[i].Keys <= {"from", "to", "date", "subject", "body"}
    decreases |ls|
  {
    if ls != [] {
      var p := ParseOne(ls);
      HeaderKeys(SkipBlank(ls), map[]);
      MessageKeys(p.1);
    }
  }

  lemma {:induction false} KeyOfHeader(name: string)
    requires name in HeaderNames
    ensures Key(name) in {"from", "to", "date", "subject"}
  {
    if name == "DATE" {
      LowerDate();
    } else if name == "SUBJECT" {
      LowerSubject();
    }
  }

  lemma LowerDate()
    ensures Lower("DATE") == "date"
  {
  }

  lemma LowerSubject()
    ensures Lower("SUBJECT") == "subject"
  {
  }

  lemma {:induction false} HeaderKeys(ls: seq<string>, m: Message)
    requires m.Keys <= {"from", "to", "date", "subject"}
    ensures Headers(ls, m).0.Keys <= {"from", "to", "date", "subject"}
    decreases |ls|
  {
    if ls != [] {
      var hv := MatchHeader(ls[0]);
      if hv.Some? {
        KeyOfHeader(hv.value.0);
        HeaderKeys(ls[1..], m[Key(hv.value.0) := hv.value.1]);
      }
    }
  }

  /** No more messages than lines. */
  lemma {:induction false} MessagesCount(ls: seq<string>)
    ensures |Messages(ls)| <= |ls|
    decreases |ls|
  {
    if ls != [] {
      MessagesCount(ParseOne(ls).1);
    }
  }

  // ------------------------------------------------------------------
  // round trip: messages written in the export format are read back

  /** A message as it is written to the export: header fields in order, then body lines. */
  datatype Mail = Mail(headers: seq<(string, string)>, body: seq<string>)

  function HeaderLines(hs: seq<(string, string)>): seq<string> {
    if hs == [] then [] else [hs[0].0 + ": " + hs[0].1] + HeaderLines(hs[1..])
  }

  /** Header lines, an empty separating line, the body lines and a delimiter. */
  function RenderOne(m: Mail): seq<string> {
    HeaderLines(m.headers) + ([""] + (m.body + ["-*"]))
  }

  function RenderAll(ms: seq<Mail>): seq<string> {
    if ms == [] then [] else RenderOne(ms[0]) + RenderAll(ms[1..])
  }

  /** An export with classic Mac line ends: a leading delimiter, then the messages. */
  function MacText(ms: seq<Mail>): string {
    Join(["-*"] + RenderAll(ms), '\r')
  }

  /** The dictionary a message's headers give: later fields overwrite earlier ones. */
  function HeaderMap(hs: seq<(string, string)>, m: Message): Message {
    if hs == [] then m else HeaderMap(hs[1..], m[Key(hs[0].0) := hs[0].1])
  }

  function BodyText(body: seq<string>): string {
    if body == [] then "" else Strip(body[0]) + "\n" + BodyText(body[1..])
  }

  function AsMessage(m: Mail): Message {
    HeaderMap(m.headers, map[])["body" := BodyText(m.body)]
  }

  function AsMessages(ms: seq<Mail>): (r: seq<Message>)
    ensures |r| == |ms|
  {
    if ms == [] then [] else [AsMessage(ms[0])] + AsMessages(ms[1..])
  }

  /**
   * What the reader can read back: at least one header, every header a known one with a
   * single-line value, a body that does not open with a blank line and holds no delimiter.
   */
  predicate WellFormed(m: Mail) {
    |m.headers| >= 1
    && (forall i :: 0 <= i < |m.headers| ==> m.headers[i].0 in HeaderNames && '\n' !in m.headers[i].1)
    && (m.body != [] ==> !Blank(m.body[0]))
    && (forall i :: 0 <= i < |m.body| ==> !IsDelim(m.body[i]))
  }

  /** No line break, carriage return or NUL inside a line. */
  predicate PlainLine(l: string) {
    '\r' !in l && '\n' !in l && '\0' !in l
  }

  predicate Plain(m: Mail) {
    (forall i :: 0 <= i < |m.headers| ==> PlainLine(m.headers[i].1))
    && (forall i :: 0 <= i < |m.body| ==> PlainLine(m.body[i]))
  }

  /** A written header line is matched as that header with that value. */
  lemma {:induction false} MatchHeaderLine(name: string, value: string)
    requires name in HeaderNames && '\n' !in value
    ensures MatchHeader(name + ": " + value) == Some((name, value))
  {
    var l := name + ": " + value;
    assert l[|name| + 2..] == value;
    assert name + ": " <= l;
    if name == "DATE" {
      MatchDateLine(l, value);
    } else if name == "SENDER" {
      MatchSenderLine(l, value);
    } else if name == "SUBJECT" {
      MatchSubjectLine(l, value);
    } else {
      MatchRecipientLine(l, value);
    }
  }

  lemma {:induction false} MatchDateLine(l: string, value: string)
    requires "DATE: " <= l && l[6..] == value && '\n' !in value
    ensures MatchHeader(l) == Some(("DATE", value))
  {
  }

  lemma {:induction false} MatchSenderLine(l: string, value: string)
    requires "SENDER: " <= l && l[8..] == value && '\n' !in value
    ensures MatchHeader(l) == Some(("SENDER", value))
  {
    assert l[0] == 'S';
    assert !("DATE: " <= l);
  }

  lemma {:induction false} MatchSubjectLine(l: string, value: string)
    requires "SUBJECT: " <= l && l[9..] == value && '\n' !in value
    ensures MatchHeader(l) == Some(("SUBJECT", value))
  {
    assert l[0] == 'S' && l[1] == 'U';
    assert !("DATE: " <= l) && !("SENDER: " <= l);
  }

  lemma {:induction false} MatchRecipientLine(l: string, value: string)
    requires "RECIPIENT: " <= l && l[11..] == value && '\n' !in value
    ensures MatchHeader(l) == Some(("RECIPIENT", value))
  {
    assert l[0] == 'R';
    assert !("DATE: " <= l) && !("SENDER: " <= l) && !("SUBJECT: " <= l);
  }

  /** A header line is not blank: it starts with the header's name. */
  lemma {:induction false} HeaderLineNotBlank(name: string, value: string)
    requires name in HeaderNames
    ensures !Blank(name + ": " + value)
  {
    var l := name + ": " + value;
    assert l[0] == name[0];
    assert !IsSpace(l[0]);
  }

  lemma {:induction false} HeadersRender(hs: seq<(string, string)>, rest: seq<string>, m: Message)
    requires forall i :: 0 <= i < |hs| ==> hs[i].0 in HeaderNames && '\n' !in hs[i].1
    ensures Headers(HeaderLines(hs) + ([""] + rest), m) == (HeaderMap(hs, m), rest)
  {
    if hs == [] {
      assert HeaderLines(hs) + ([""] + rest) == [""] + rest;
      HeadersEnd(rest, m);
    } else {
      var tail := HeaderLines(hs[1..]) + ([""] + rest);
      assert HeaderLines(hs) + ([""] + rest) == [hs[0].0 + ": " + hs[0].1] + tail;
      HeaderLineStep(hs[0].0, hs[0].1, tail, m);
      HeadersRender(hs[1..], rest, m[Key(hs[0].0) := hs[0].1]);
    }
  }

  /** A header line updates the dictionary and the header loop goes on with the next line. */
  lemma {:induction false} HeaderLineStep(name: string, value: string, tail: seq<string>, m: Message)
    requires name in HeaderNames && '\n' !in value
    ensures Headers([name + ": " + value] + tail, m) == Headers(tail, m[Key(name) := value])
  {
    var ls := [name + ": " + value] + tail;
    MatchHeaderLine(name, value);
    assert ls[0] == name + ": " + value && ls[1..] == tail;
  }

  /** The empty line after the headers ends the header block and is consumed. */
  lemma {:induction false} HeadersEnd(rest: seq<string>, m: Message)
    ensures Headers([""] + rest, m) == (m, rest)
  {
    assert MatchHeader("") == None;
    assert ([""] + rest)[1..] == rest;
  }

  lemma {:induction false} BodyRender(body: seq<string>, rest: seq<string>)
    requires forall i :: 0 <= i < |body| ==> !IsDelim(body[i])
    ensures Body(body + (["-*"] + rest)) == (BodyText(body), rest)
  {
    var ls := body + (["-*"] + rest);
    if body == [] {
      assert ls == ["-*"] + rest;
      assert IsDelimRun("-*");
    } else {
      assert ls[0] == body[0];
      assert ls[1..] == body[1..] + (["-*"] + rest);
      BodyRender(body[1..], rest);
    }
  }

  lemma {:induction false} RenderOneShape(m: Mail, rest: seq<string>)
    requires |m.headers| >= 1
    ensures RenderOne(m) + rest == HeaderLines(m.headers) + ([""] + (m.body + (["-*"] + rest)))
    ensures (RenderOne(m) + rest)[0] == m.headers[0].0 + ": " + m.headers[0].1
  {
    assert HeaderLines(m.headers)[0] == m.headers[0].0 + ": " + m.headers[0].1;
  }

  lemma {:induction false} ParseOneRender(m: Mail, rest: seq<string>)
    requires WellFormed(m)
    ensures ParseOne(RenderOne(m) + rest) == (AsMessage(m), rest)
  {
    var hs := m.headers;
    var after := m.body + (["-*"] + rest);
    var ls := RenderOne(m) + rest;
    RenderOneShape(m, rest);
    HeaderLineNotBlank(hs[0].0, hs[0].1);
    assert SkipBlank(ls) == ls;
    HeadersRender(hs, after, map[]);
    assert SkipBlank(after) == after by {
      if m.body == [] {
        assert after[0] == "-*";
        assert after[0][0] == '-';
      } else {
        assert after[0] == m.body[0];
      }
    }
    BodyRender(m.body, rest);
  }

  /** Reading the lines of well-formed messages gives back their dictionaries, in order. */
  lemma {:induction false} MessagesRender(ms: seq<Mail>)
    requires forall i :: 0 <= i < |ms| ==> WellFormed(ms[i])
    ensures Messages(RenderAll(ms)) == AsMessages(ms)
  {
    if ms != [] {
      var ls := RenderAll(ms);
      ParseOneRender(ms[0], RenderAll(ms[1..]));
      assert ls != [] by {
        assert |RenderOne(ms[0])| > 0;
      }
      MessagesRender(ms[1..]);
    }
  }

  lemma {:induction false} RenderAllPlain(ms: seq<Mail>)
    requires forall i :: 0 <= i < |ms| ==> WellFormed(ms[i]) && Plain(ms[i])
    ensures forall i :: 0 <= i < |RenderAll(ms)| ==> PlainLine(RenderAll(ms)[i])
  {
    if ms != [] {
      RenderAllPlain(ms[1..]);
      HeaderLinesPlain(ms[0].headers);
      var one := RenderOne(ms[0]);
      assert forall i :: 0 <= i < |one| ==> PlainLine(one[i]);
    }
  }

  lemma {:induction false} HeaderLinesPlain(hs: seq<(string, string)>)
    requires forall i :: 0 <= i < |hs| ==> hs[i].0 in HeaderNames && PlainLine(hs[i].1)
    ensures forall i :: 0 <= i < |HeaderLines(hs)| ==> PlainLine(HeaderLines(hs)[i])
  {
    if hs != [] {
      HeaderLinesPlain(hs[1..]);
      HeaderLinePlain(hs[0].0, hs[0].1);
      assert HeaderLines(hs) == [hs[0].0 + ": " + hs[0].1] + HeaderLines(hs[1..]);
    }
  }

  lemma {:induction false} HeaderLinePlain(name: string, value: string)
    requires name in HeaderNames && PlainLine(value)
    ensures PlainLine(name + ": " + value)
  {
    var l := name + ": " + value;
    assert PlainLine(name);
    assert forall k :: 0 <= k < |l| ==> l[k] in name || l[k] in ": " || l[k] in value;
  }

  /**
   * The whole reader inverts the writer: an export of well-formed messages with classic Mac
   * line ends is read back as those messages' dictionaries.
   */
  lemma {:induction false} ExportPlain(ms: seq<Mail>)
    requires forall i :: 0 <= i < |ms| ==> WellFormed(ms[i]) && Plain(ms[i])
    ensures forall i :: 0 <= i < |["-*"] + RenderAll(ms)| ==> PlainLine((["-*"] + RenderAll(ms))[i])
  {
    var ls := ["-*"] + RenderAll(ms);
    RenderAllPlain(ms);
    assert PlainLine(ls[0]);
    assert forall i :: 1 <= i < |ls| ==> ls[i] == RenderAll(ms)[i - 1];
  }

  lemma {:induction false} MacTextLines(ms: seq<Mail>)
    requires forall i :: 0 <= i < |ms| ==> WellFormed(ms[i]) && Plain(ms[i])
    ensures LinesRead(MacText(ms), 0) == ["-*"] + RenderAll(ms)
  {
    var ls := ["-*"] + RenderAll(ms);
    ExportPlain(ms);
    assert ls[0] != [];
    assert forall i :: 0 <= i < |ls| ==> '\r' !in ls[i] && '\n' !in ls[i] && '\0' !in ls[i];
    LinesReadMacJoin(ls);
    assert MacText(ms) == Join(ls, '\r');
  }

  /** A file whose line list opens with a delimiter holds the messages of the lines after it. */
  lemma {:induction false} ReadAfterDelim(data: string, rest: seq<string>)
    requires LinesRead(data, 0) == ["-*"] + rest
    ensures ReadAppleMail(data) == Messages(rest)
  {
    SkipDelim(LinesRead(data, 0), rest);
  }

  lemma {:induction false} SkipDelim(ls: seq<string>, rest: seq<string>)
    requires ls == ["-*"] + rest
    ensures SkipToStart(ls) == rest
  {
    assert IsDelim(ls[0]) by {
      assert IsDelimRun("-*");
    }
    assert ls[1..] == rest;
  }

  lemma {:induction false} ReadAppleMailRoundTrip(ms: seq<Mail>)
    requires forall i :: 0 <= i < |ms| ==> WellFormed(ms[i]) && Plain(ms[i])
    ensures ReadAppleMail(MacText(ms)) == AsMessages(ms)
  {
    MacTextLines(ms);
    ReadAfterDelim(MacText(ms), RenderAll(ms));
    MessagesRender(ms);
  }
}

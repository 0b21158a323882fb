/**
 * majordomo-approver: recognising what a message from majordomo asks for. Three patterns are
 * searched for in the message body, in order: an approval request, a confirmation request, and
 * a "User unknown" bounce, which is answered by unsubscribing the address.
 */
module MajordomoRequest {
  import opened Wrappers
  import opened Regex

  /** `[\s\\]+`: whitespace that may include escaped line breaks. */
  const Sep: Item := Item(Rep(SpaceOrBackslash, 1), false)

  const Actions: seq<string> := ["subscribe", "unsubscribe"]

  /** `approve PASSWORD<sep>(subscribe|unsubscribe)<sep>(\S+)<sep>(.+)` */
  const ApprovePattern: Pattern := [
    Item(Lit("approve PASSWORD"), false), Sep,
    Item(Alt(Actions), true), Sep,
    Item(Rep(NonSpace, 1), true), Sep,
    Item(Rep(AnyButNewline, 1), true)
  ]

  /** `auth<sep>(\S+)<sep>(subscribe|unsubscribe)<sep>(\S+)<sep>(.*)` */
  const ConfirmPattern: Pattern := [
    Item(Lit("auth"), false), Sep,
    Item(Rep(NonSpace, 1), true), Sep,
    Item(Alt(Actions), true), Sep,
    Item(Rep(NonSpace, 1), true), Sep,
    Item(Rep(AnyButNewline, 0), true)
  ]

  /** `(\S+): line \d+:<sep>.*<(\S+)>\.\.\. User unknown` */
  const BouncePattern: Pattern := [
    Item(Rep(NonSpace, 1), true),
    Item(Lit(": line "), false),
    Item(Rep(Digit, 1), false),
    Item(Lit(":"), false), Sep,
    Item(Rep(AnyButNewline, 0), false),
    Item(Lit("<"), false),
    Item(Rep(NonSpace, 1), true),
    Item(Lit(">... User unknown"), false)
  ]

  /** The request dict: "cmd", "action", "list", "addr", and "code" for a confirmation. */
  datatype Request = Request(cmd: string, action: string, list: string, addr: string, code: Option<string>)

  /** `parseMajordomoRequest(msg)` on `msg["body"]`. */
  function ParseRequest(body: string): Option<Request> {
    match Search(ApprovePattern, body)
    case Some(c) =>
      ApproveGroups(c);
      Some(Request("approve", c[0], c[1], c[2], None))
    case None =>
      match Search(ConfirmPattern, body)
      case Some(c) =>
        ConfirmGroups(c);
        Some(Request("confirm", c[1], c[2], c[3], Some(c[0])))
      case None =>
        match Search(BouncePattern, body)
        case Some(c) =>
          BounceGroups(c);
          Some(Request("approve", "unsubscribe", c[0], c[1], None))
        case None => None
  }

  /** Non-empty text without whitespace (`\S+`). */
  predicate Word(t: string) {
    |t| >= 1 && forall x :: 0 <= x < |t| ==> InClass(t[x], NonSpace)
  }

  /** Text within one line (`.+` or `.*`). */
  predicate InLine(t: string) {
    forall x :: 0 <= x < |t| ==> InClass(t[x], AnyButNewline)
  }

  lemma {:induction false} ApproveGroups(c: seq<string>)
    requires GroupsFit(ApprovePattern, c)
    ensures |c| == 3 && c[0] in Actions && Word(c[1]) && c[2] != [] && InLine(c[2])
  {
    var p := ApprovePattern;
    assert GroupAtomsFrom(p, 6) == [Rep(AnyButNewline, 1)];
    assert GroupAtomsFrom(p, 4) == [Rep(NonSpace, 1), Rep(AnyButNewline, 1)];
    assert GroupAtomsFrom(p, 2) == [Alt(Actions), Rep(NonSpace, 1), Rep(AnyButNewline, 1)];
    assert GroupAtomsFrom(p, 1) == GroupAtomsFrom(p, 2);
    assert GroupAtoms(p) == GroupAtomsFrom(p, 1);
    assert InLanguage(c[0], Alt(Actions)) && InLanguage(c[1], Rep(NonSpace, 1));
    assert InLanguage(c[2], Rep(AnyButNewline, 1));
  }

  lemma {:induction false} ConfirmGroups(c: seq<string>)
    requires GroupsFit(ConfirmPattern, c)
    ensures |c| == 4 && Word(c[0]) && c[1] in Actions && Word(c[2]) && InLine(c[3])
  {
    ConfirmAtoms();
    assert InLanguage(c[0], Rep(NonSpace, 1)) && InLanguage(c[1], Alt(Actions));
    assert InLanguage(c[2], Rep(NonSpace, 1)) && InLanguage(c[3], Rep(AnyButNewline, 0));
  }

  lemma {:induction false} ConfirmAtoms()
    ensures GroupAtoms(ConfirmPattern) ==
      [Rep(NonSpace, 1), Alt(Actions), Rep(NonSpace, 1), Rep(AnyButNewline, 0)]
  {
    var p := ConfirmPattern;
    assert GroupAtomsFrom(p, 8) == [Rep(AnyButNewline, 0)];
    assert GroupAtomsFrom(p, 6) == [Rep(NonSpace, 1), Rep(AnyButNewline, 0)];
    assert GroupAtomsFrom(p, 4) == [Alt(Actions), Rep(NonSpace, 1), Rep(AnyButNewline, 0)];
    assert GroupAtomsFrom(p, 2) == [Rep(NonSpace, 1), Alt(Actions), Rep(NonSpace, 1), Rep(AnyButNewline, 0)];
    assert GroupAtomsFrom(p, 1) == GroupAtomsFrom(p, 2);
  }

  lemma {:induction false} BounceGroups(c: seq<string>)
    requires GroupsFit(BouncePattern, c)
    ensures |c| == 2 && Word(c[0]) && Word(c[1])
  {
    var p := BouncePattern;
    assert GroupAtomsFrom(p, 9) == [];
    assert GroupAtomsFrom(p, 8) == [];
    assert GroupAtomsFrom(p, 7) == [Rep(NonSpace, 1)];
    assert GroupAtomsFrom(p, 6) == [Rep(NonSpace, 1)];
    assert GroupAtomsFrom(p, 5) == [Rep(NonSpace, 1)];
    assert GroupAtomsFrom(p, 4) == [Rep(NonSpace, 1)];
    assert GroupAtomsFrom(p, 3) == [Rep(NonSpace, 1)];
    assert GroupAtomsFrom(p, 2) == [Rep(NonSpace, 1)];
    assert GroupAtomsFrom(p, 1) == [Rep(NonSpace, 1)];
    assert GroupAtoms(p) == [Rep(NonSpace, 1), Rep(NonSpace, 1)];
    assert InLanguage(c[0], Rep(NonSpace, 1)) && InLanguage(c[1], Rep(NonSpace, 1));
  }

  /** Somewhere in `body` the pattern can match. */
  ghost predicate Occurs(p: Pattern, body: string) {
    exists q, caps :: 0 <= q <= |body| && Matches(p, body, q, caps)
  }

  lemma {:induction false} SearchIff(p: Pattern, body: string)
    ensures Search(p, body).Some? <==> Occurs(p, body)
  {
    SearchLeftmost(p, body);
    var r := SearchFrom(p, body, 0);
    if r.Some? {
      assert Matches(p, body, r.value.0, r.value.1);
    }
  }

  /**
   * What a recognised request looks like: the command is "approve" or "confirm", only a
   * confirmation carries a code, the action is subscribe or unsubscribe, and the list name
   * (and a code) is a single non-empty word.
   */
  lemma {:induction false} ParseRequestShape(body: string)
    requires ParseRequest(body).Some?
    ensures var r := ParseRequest(body).value;
      (r.cmd == "approve" || r.cmd == "confirm") && (r.code.Some? <==> r.cmd == "confirm")
      && r.action in Actions && Word(r.list) && (r.code.Some? ==> Word(r.code.value))
  {
    var a := Search(ApprovePattern, body);
    var c := Search(ConfirmPattern, body);
    var b := Search(BouncePattern, body);
    if a.Some? {
      ApproveGroups(a.value);
    } else if c.Some? {
      ConfirmGroups(c.value);
    } else {
      BounceGroups(b.value);
    }
  }

  /**
   * The patterns are tried in order and the first that occurs anywhere in the body decides:
   * an approval wins over everything, a confirmation over a bounce, and a bounce becomes an
   * approved unsubscribe. Nothing is recognised exactly when none of them occurs.
   */
  lemma {:induction false} ParseRequestPriority(body: string)
    ensures Occurs(ApprovePattern, body) ==>
      ParseRequest(body).Some? && ParseRequest(body).value.cmd == "approve" && ParseRequest(body).value.code.None?
    ensures !Occurs(ApprovePattern, body) && Occurs(ConfirmPattern, body) ==>
      ParseRequest(body).Some? && ParseRequest(body).value.cmd == "confirm"
    ensures !Occurs(ApprovePattern, body) && !Occurs(ConfirmPattern, body) && Occurs(BouncePattern, body) ==>
      ParseRequest(body).Some? && ParseRequest(body).value.cmd == "approve"
      && ParseRequest(body).value.action == "unsubscribe"
    ensures ParseRequest(body).None? <==>
      !Occurs(ApprovePattern, body) && !Occurs(ConfirmPattern, body) && !Occurs(BouncePattern, body)
  {
    SearchIff(ApprovePattern, body);
    SearchIff(ConfirmPattern, body);
    SearchIff(BouncePattern, body);
  }

  /** The line `approve` would send for a request: "approve PASSWORD <action> <list> <addr>". */
  function ApproveLine(action: string, list: string, addr: string): string {
    "approve PASSWORD " + action + " " + list + " " + addr
  }

  /** The tail "<addr>" of an approval line is taken by the last group. */
  lemma {:induction false} ApproveTail(s: string, c: nat, addr: string)
    requires c < |s| && s[c] == ' ' && s[c + 1..] == addr
    requires addr != [] && InLine(addr) && !InClass(addr[0], SpaceOrBackslash)
    ensures MatchAt(ApprovePattern[5..], s, c) == Some([addr])
  {
    var p := ApprovePattern[5..];
    assert p[1..] == ApprovePattern[6..];
    assert ApprovePattern[6..][1..] == [];
    assert forall x :: c + 1 <= x < |s| ==> s[x] == addr[x - c - 1];
    RunStep(ApprovePattern[6..], s, c + 1, |s|, []);
    assert s[c + 1..|s|] == addr && [addr] + [] == [addr];
    assert MatchAt(p[1..], s, c + 1) == Some([addr]);
    assert s[c + 1] == addr[0];
    RunStep(p, s, c, c + 1, [addr]);
    assert p[0].group == false && [] + [addr] == [addr];
  }

  /** " <list> <addr>" after the action is taken by the list group and the address group. */
  lemma {:induction false} ApproveListTail(s: string, b: nat, list: string, addr: string)
    requires b + 1 + |list| < |s| && s[b] == ' ' && s[b + 1..b + 1 + |list|] == list
    requires s[b + 1 + |list|] == ' ' && s[b + 2 + |list|..] == addr
    requires Word(list) && !InClass(list[0], SpaceOrBackslash)
    requires addr != [] && InLine(addr) && !InClass(addr[0], SpaceOrBackslash)
    ensures MatchAt(ApprovePattern[3..], s, b) == Some([list, addr])
  {
    var c := b + 1 + |list|;
    ApproveTail(s, c, addr);
    assert ApprovePattern[4..][1..] == ApprovePattern[5..];
    assert forall x :: b + 1 <= x < c ==> s[x] == list[x - b - 1];
    RunStep(ApprovePattern[4..], s, b + 1, c, [addr]);
    assert s[b + 1..c] == list && [list] + [addr] == [list, addr];
    assert ApprovePattern[3..][1..] == ApprovePattern[4..];
    assert s[b + 1] == list[0];
    RunStep(ApprovePattern[3..], s, b, b + 1, [list, addr]);
    assert ApprovePattern[3..][0].group == false && [] + [list, addr] == [list, addr];
  }

  lemma {:induction false} ApproveLineParts(action: string, list: string, addr: string)
    ensures var s := ApproveLine(action, list, addr); var b := 17 + |action|;
      |s| == b + 2 + |list| + |addr| && LitAt(s, 0, "approve PASSWORD") && s[16] == ' '
      && s[17..b] == action && s[b] == ' ' && s[b + 1..b + 1 + |list|] == list
      && s[b + 1 + |list|] == ' ' && s[b + 2 + |list|..] == addr
  {
    var h := "approve PASSWORD ";
    var s := ApproveLine(action, list, addr);
    var b := 17 + |action|;
    var c := b + 1 + |list|;
    assert |h| == 17;
    var t := h + action;
    var u := t + " " + list;
    assert s == u + " " + addr;
    assert s[..c] == u && s[c + 1..] == addr;
    assert u[..b] == t && u[b + 1..] == list;
    assert t[..17] == h && t[17..] == action;
    assert h[..16] == "approve PASSWORD";
  }

  /** The action word at 17 is taken by the action group, when the rest matches after it. */
  lemma {:induction false} ApproveAction(s: string, action: string, rest: seq<string>)
    requires action in Actions && 17 + |action| <= |s| && s[17..17 + |action|] == action
    requires MatchAt(ApprovePattern[3..], s, 17 + |action|) == Some(rest)
    ensures MatchAt(ApprovePattern[2..], s, 17) == Some([action] + rest)
  {
    var p := ApprovePattern[2..];
    var i := if action == "subscribe" then 0 else 1;
    assert action == Actions[i];
    assert LitAt(s, 17, Actions[i]);
    assert i == 1 ==> s[17] == action[0] == 'u';
    assert p[1..] == ApprovePattern[3..];
    WordStep(p, s, 17, i, rest);
  }

  /** "approve PASSWORD" and the separator after it are skipped before the action. */
  lemma {:induction false} ApproveHead(s: string, groups: seq<string>)
    requires 17 < |s| && LitAt(s, 0, "approve PASSWORD") && s[16] == ' ' && (s[17] == 's' || s[17] == 'u')
    requires MatchAt(ApprovePattern[2..], s, 17) == Some(groups)
    ensures MatchAt(ApprovePattern, s, 0) == Some(groups)
  {
    var p := ApprovePattern;
    assert p[1..][1..] == p[2..];
    RunStep(p[1..], s, 16, 17, groups);
    assert [] + groups == groups;
    LitStep(p, s, 0, groups);
  }

  /**
   * Round trip: the approval line for an action, a list name and an address is recognised as
   * exactly that approval request, when the list name is one word and neither it nor the
   * address starts with a backslash (which the separator would swallow).
   */
  lemma {:induction false} ApproveRoundTrip(action: string, list: string, addr: string)
    requires action in Actions
    requires Word(list) && list[0] != '\\'
    requires addr != [] && InLine(addr) && !InClass(addr[0], SpaceOrBackslash)
    ensures ParseRequest(ApproveLine(action, list, addr)) == Some(Request("approve", action, list, addr, None))
  {
    var s := ApproveLine(action, list, addr);
    var b := 17 + |action|;
    ApproveLineParts(action, list, addr);
    ApproveListTail(s, b, list, addr);
    ApproveAction(s, action, [list, addr]);
    assert [action] + [list, addr] == [action, list, addr];
    assert s[17] == action[0];
    ApproveHead(s, [action, list, addr]);
    assert SearchFrom(ApprovePattern, s, 0) == Some((0, [action, list, addr]));
  }
}

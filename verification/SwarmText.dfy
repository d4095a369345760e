/** The swarm messages as texts, letter by letter. */
module SwarmText {
  import opened CText
  import opened Json
  import opened StringPrinter
  import opened Swarm

  /** A member on a line of its own. */
  function Line(name: string, value: string): string {
    "\n\t\"" + name + "\":\t" + value
  }

  function JoinLines(lines: seq<string>): string
    requires lines != []
  {
    lines[0] + if |lines| == 1 then "" else "," + JoinLines(lines[1..])
  }

  function TypeText(k: Action): string {
    match k
    case GotoXYZ => "\"goto_xyz\""
    case ReachXYZ => "\"reach_xyz\""
    case ReachXYZAck => "\"reach_xyz_ack\""
    case QueryXYZ => "\"query_xyz\""
    case ActionEnd => "\"action_end\""
  }

  /** The lines of each message. */
  function LinesOf(k: Action, account: string, port: int, f: Fields): (lines: seq<string>)
    ensures lines != []
  {
    [Line("cmd", "\"swarm\""), Line("account", Quote(account)), Line("type", TypeText(k))]
    + match k
      case GotoXYZ =>
        [Line("id", IntText(f.id)), Line("x", IntText(f.x)), Line("y", IntText(f.y)), Line("z", IntText(f.z)),
         Line("z", IntText(f.z)), Line("order", IntText(f.order)), Line("sequence", IntText(f.seqNo))]
      case ActionEnd => [Line("port", IntText(port)), Line("sequence", IntText(f.seqNo)), Line("id", IntText(f.id))]
      case _ => [Line("id", IntText(f.id)), Line("port", IntText(port)), Line("sequence", IntText(f.seqNo))]
  }

  /** Every message is these lines between braces, whatever the account and the numbers. */
  lemma MessageWritten(k: Action, account: string, port: int, f: Fields)
    ensures MessageText(k, account, port, f) == "{" + JoinLines(LinesOf(k, account, port, f)) + "\n}"
  {
    hide Line, LinesOf, MembersOf, RenderMembers, MemberLine, JoinLines, Render;
    var ms := MembersOf(k, account, port, f);
    SameLines(k, account, port, f);
    RenderedLines(ms);
    Assoc("{", JoinLines(LinesOf(k, account, port, f)), "\n}");
    ObjectLines(ms);
  }

  lemma ObjectLines(ms: seq<Member>)
    requires ms != []
    ensures Render(Obj(ms), 0, true) == "{" + ("\n" + RenderMembers(ms, 1, true))
  {
    Assoc("{", "\n", RenderMembers(ms, 1, true));
  }

  /** The line of a member as it is printed at the first level. */
  function MemberLine(m: Member): string {
    "\n" + RenderMember(m, 1, true)
  }

  lemma {:induction false} RenderedLines(ms: seq<Member>)
    requires ms != []
    ensures "\n" + RenderMembers(ms, 1, true) == JoinLines(seq(|ms|, i requires 0 <= i < |ms| => MemberLine(ms[i]))) + "\n}"
  {
    hide RenderMember;
    var lines, r := seq(|ms|, i requires 0 <= i < |ms| => MemberLine(ms[i])), RenderMember(ms[0], 1, true);
    if |ms| == 1 {
      Assoc("\n", r, "\n}");
      assert lines[0] + "" == lines[0];
    } else {
      var more := ms[1..];
      RenderedLines(more);
      assert lines[1..] == seq(|more|, i requires 0 <= i < |more| => MemberLine(more[i]));
      var t := RenderMembers(more, 1, true);
      Assoc(",", "\n", t);
      Assoc("\n", r, "," + ("\n" + t));
      Assoc(lines[0], "," + JoinLines(lines[1..]), "\n}");
      Assoc(",", JoinLines(lines[1..]), "\n}");
    }
  }

  predicate NotEscaped(s: string) {
    forall i | 0 <= i < |s| :: !NeedsEscape(s[i])
  }

  lemma LineOfMember(m: Member)
    requires NotEscaped(m.key)
    ensures MemberLine(m) == Line(m.key, Render(m.value, 1, true))
  {
    hide Render;
    NothingEscaped(m.key);
    assert Tabs(1) == "\t";
    var k, v := m.key, Render(m.value, 1, true);
    assert "\t" + ("\"" + k + "\"") + ":" + "\t" == "\t\"" + k + "\":\t";
    Assoc("\n", "\t" + ("\"" + k + "\"") + ":" + "\t", v);
    assert "\n" + ("\t\"" + k + "\":\t") == "\n\t\"" + k + "\":\t";
  }

  lemma TextLine(name: string, s: string)
    requires NotEscaped(name)
    ensures MemberLine(Member(name, Str(s))) == Line(name, Quote(s))
  {
    hide Line, Quote;
    LineOfMember(Member(name, Str(s)));
  }

  lemma PlainLine(name: string, s: string)
    requires NotEscaped(name) && NotEscaped(s)
    ensures MemberLine(Member(name, Str(s))) == Line(name, "\"" + s + "\"")
  {
    hide Line;
    TextLine(name, s);
    NothingEscaped(s);
  }

  lemma NumberLine(name: string, n: int)
    requires NotEscaped(name)
    ensures MemberLine(Whole(name, n)) == Line(name, IntText(n))
  {
    hide Line, IntText;
    LineOfMember(Whole(name, n));
  }

  lemma SameLines(k: Action, account: string, port: int, f: Fields)
    ensures var ms := MembersOf(k, account, port, f);
      ms != [] && LinesOf(k, account, port, f) == seq(|ms|, i requires 0 <= i < |ms| => MemberLine(ms[i]))
  {
    hide Line, MemberLine, IntText, Quote, NotEscaped, Tag, TypeText;
    NamesBare();
    FixedLines(k);
    TextLine("account", account);
    NumberLine("id", f.id);
    NumberLine("port", port);
    NumberLine("sequence", f.seqNo);
    NumberLine("x", f.x);
    NumberLine("y", f.y);
    NumberLine("z", f.z);
    NumberLine("order", f.order);
  }

  lemma NamesBare()
    ensures NotEscaped("cmd") && NotEscaped("account") && NotEscaped("type") && NotEscaped("id")
    ensures NotEscaped("port") && NotEscaped("sequence")
    ensures NotEscaped("x") && NotEscaped("y") && NotEscaped("z") && NotEscaped("order")
  {
  }

  /** The lines that are the same in every message of a kind. */
  lemma FixedLines(k: Action)
    ensures MemberLine(Member("cmd", Str("swarm"))) == Line("cmd", "\"swarm\"")
    ensures MemberLine(Member("type", Str(Tag(k)))) == Line("type", TypeText(k))
  {
    hide Line, MemberLine, Tag, TypeText;
    PlainLine("cmd", "swarm");
    assert "\"" + "swarm" + "\"" == "\"swarm\"";
    TagBare(k);
    TagQuoted(k);
    PlainLine("type", Tag(k));
  }

  lemma TagBare(k: Action)
    ensures NotEscaped(Tag(k))
  {
  }

  lemma TagQuoted(k: Action)
    ensures "\"" + Tag(k) + "\"" == TypeText(k)
  {
  }
}

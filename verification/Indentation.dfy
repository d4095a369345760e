/**
 The white space of printed texts, told from the lexemes alone: what stands before a lexeme depends on the lexeme before
 it, on whether it is a name, and on how many brackets are open.
 */
module Indentation {
  import opened Json
  import opened Lexemes

  // ---------- white space by rule ----------

  /** A line break and this many tab characters. */
  ghost function NewLine(tabs: int): string {
    ['\n'] + seq(if tabs > 0 then tabs else 0, _ => '\t')
  }

  lemma {:induction false} TabsAreTabs(n: int)
    ensures "\n" + Tabs(n) == NewLine(n)
    ensures forall i | 0 <= i < n :: Tabs(n)[i] == '\t'
  {
    if n > 0 {
      TabsAreTabs(n - 1);
      assert NewLine(n - 1)[1..] == Tabs(n - 1) by {
        assert ("\n" + Tabs(n - 1))[1..] == Tabs(n - 1);
      }
      assert Tabs(n) == ['\t'] + Tabs(n - 1);
      assert "\n" + Tabs(n) == NewLine(n);
    }
  }

  ghost function Bracket(l: Lexeme): int {
    if l == Mark('{') || l == Mark('[') then 1 else if l == Mark('}') || l == Mark(']') then -1 else 0
  }

  /** How many brackets are open in front of lexeme `m`. */
  ghost function Open(ps: seq<Piece>, m: nat): int
    requires m <= |ps|
  {
    if m == 0 then 0 else Open(ps, m - 1) + Bracket(ps[m - 1].lexeme)
  }

  /**
   In a formatted text: a name is on a line of its own, behind a tab for every open bracket; a closing brace is on a
   line of its own, behind as many tabs less one, and less two if nothing is between the braces; a tab comes behind a
   colon, a space behind the comma between elements, and nothing else is spaced.
   */
  ghost function Spacing(prev: Lexeme, l: Lexeme, name: bool, open: int): string {
    if name then NewLine(open)
    else if l == Mark('}') then NewLine(if prev == Mark('{') then open - 2 else open - 1)
    else if prev == Mark(':') then "\t"
    else if prev == Mark(',') then " "
    else ""
  }

  /** A name is what stands in front of a colon. */
  ghost predicate IsName(ps: seq<Piece>, m: nat) {
    m + 1 < |ps| && ps[m + 1].lexeme == Mark(':')
  }

  ghost function Previous(ps: seq<Piece>, m: nat, prev: Lexeme): Lexeme
    requires m < |ps|
  {
    if m == 0 then prev else ps[m - 1].lexeme
  }

  ghost predicate SpacedAt(ps: seq<Piece>, m: nat, prev: Lexeme, open: int)
    requires m < |ps|
  {
    ps[m].gap == Spacing(Previous(ps, m, prev), ps[m].lexeme, IsName(ps, m), open + Open(ps, m))
  }

  /** A row spaced by the rule, behind `prev` and inside `open` brackets. */
  ghost predicate ByRule(ps: seq<Piece>, prev: Lexeme, open: int) {
    forall m: nat | m < |ps| :: SpacedAt(ps, m, prev, open)
  }

  lemma {:induction false} OpenAppend(ps: seq<Piece>, qs: seq<Piece>, m: nat)
    requires m <= |ps| + |qs|
    ensures Open(ps + qs, m) == if m <= |ps| then Open(ps, m) else Open(ps, |ps|) + Open(qs, m - |ps|)
  {
    hide Bracket;
    if m > 0 {
      OpenAppend(ps, qs, m - 1);
      assert (ps + qs)[m - 1] == if m <= |ps| then ps[m - 1] else qs[m - 1 - |ps|];
    }
  }

  lemma SpacedAppend(ps: seq<Piece>, qs: seq<Piece>, prev: Lexeme, open: int)
    requires ps != [] && qs != [] && qs[0].lexeme != Mark(':')
    requires ByRule(ps, prev, open) && ByRule(qs, ps[|ps| - 1].lexeme, open + Open(ps, |ps|))
    ensures ByRule(ps + qs, prev, open)
  {
    hide SpacedAt;
    forall m: nat | m < |ps + qs|
      ensures SpacedAt(ps + qs, m, prev, open)
    {
      if m < |ps| {
        FrontSpaced(ps, qs, m, prev, open);
      } else {
        BackSpaced(ps, qs, m - |ps|, prev, open);
      }
    }
  }

  lemma FrontSpaced(ps: seq<Piece>, qs: seq<Piece>, m: nat, prev: Lexeme, open: int)
    requires m < |ps| && qs != [] && qs[0].lexeme != Mark(':') && SpacedAt(ps, m, prev, open)
    ensures SpacedAt(ps + qs, m, prev, open)
  {
    hide Spacing, Open;
    var rs := ps + qs;
    OpenAppend(ps, qs, m);
    assert rs[m] == ps[m] && Previous(rs, m, prev) == Previous(ps, m, prev);
    assert m + 1 < |ps| ==> rs[m + 1] == ps[m + 1];
    assert m + 1 == |ps| ==> rs[m + 1] == qs[0];
  }

  lemma BackSpaced(ps: seq<Piece>, qs: seq<Piece>, j: nat, prev: Lexeme, open: int)
    requires ps != [] && j < |qs| && SpacedAt(qs, j, ps[|ps| - 1].lexeme, open + Open(ps, |ps|))
    ensures SpacedAt(ps + qs, |ps| + j, prev, open)
  {
    hide Spacing, Open;
    var rs, m := ps + qs, |ps| + j;
    OpenAppend(ps, qs, m);
    OpenNone(qs);
    assert rs[m] == qs[j];
    assert Previous(rs, m, prev) == Previous(qs, j, ps[|ps| - 1].lexeme);
    assert j + 1 < |qs| ==> rs[m + 1] == qs[j + 1];
    assert open + Open(rs, m) == open + Open(ps, |ps|) + Open(qs, j) by {
      if j == 0 {
        assert m == |ps|;
      }
    }
  }

  lemma OpenNone(ps: seq<Piece>)
    ensures Open(ps, 0) == 0
  {
  }

  // ---------- the formatted text follows the rule ----------

  /** What a value may end with: no comma, no colon and no opening brace. */
  ghost predicate EndsValue(l: Lexeme) {
    l != Mark(',') && l != Mark(':') && l != Mark('{')
  }

  /** A row spaced by the rule that closes `more` brackets besides those that it opens. */
  ghost predicate Fine(ps: seq<Piece>, prev: Lexeme, open: int, more: int) {
    && ps != [] && ps[0].lexeme != Mark(':')
    && ByRule(ps, prev, open) && Open(ps, |ps|) == -more && (more >= 0 ==> EndsValue(ps[|ps| - 1].lexeme))
  }

  lemma FineAppend(ps: seq<Piece>, qs: seq<Piece>, prev: Lexeme, open: int, a: int, b: int)
    requires Fine(ps, prev, open, a) && Fine(qs, ps[|ps| - 1].lexeme, open - a, b) && b >= 0
    ensures Fine(ps + qs, prev, open, a + b)
  {
    hide ByRule, Open, EndsValue;
    SpacedAppend(ps, qs, prev, open);
    OpenAppend(ps, qs, |ps| + |qs|);
    OpenNone(qs);
    assert (ps + qs)[|ps| + |qs| - 1] == qs[|qs| - 1] && (ps + qs)[0] == ps[0];
  }

  lemma OneFine(p: Piece, prev: Lexeme, open: int)
    requires p.gap == Spacing(prev, p.lexeme, false, open) && p.lexeme != Mark(':')
    requires EndsValue(p.lexeme) || p.lexeme == Mark('{')
    ensures Fine([p], prev, open, -Bracket(p.lexeme))
  {
    assert Open([p], 1) == Open([p], 0) + Bracket(p.lexeme);
  }

  /** A value behind `prev`, with the white space that belongs there. */
  lemma {:induction false} ValueFine(v: Json, depth: nat, prev: Lexeme, gap: string)
    requires gap == Spacing(prev, Mark('['), false, depth)
    ensures Fine(Pieces(v, depth, true, gap), prev, depth, 0)
    decreases v, 0
  {
    hide Fine, Tabs, ItemPieces, MemberPieces, NewLine;
    match v
    case Arr(items) =>
      var open, close := Piece(gap, Mark('[')), Piece("", Mark(']'));
      OneFine(open, prev, depth);
      if items == [] {
        OneFine(close, Mark('['), depth + 1);
        FineAppend([open], [close], prev, depth, -1, 1);
      } else {
        ItemsFine(items, depth + 1, Mark('['), "");
        FineAppend([open], ItemPieces(items, depth + 1, true, ""), prev, depth, -1, 1);
      }
    case Obj(members) =>
      var open, close := Piece(gap, Mark('{')), Piece("\n" + Tabs(depth - 1), Mark('}'));
      OneFine(open, prev, depth);
      if members == [] {
        TabsAreTabs(depth - 1);
        OneFine(close, Mark('{'), depth + 1);
        FineAppend([open], [close], prev, depth, -1, 1);
      } else {
        MembersFine(members, depth + 1, Mark('{'));
        FineAppend([open], MemberPieces(members, depth + 1, true), prev, depth, -1, 1);
      }
    case _ => OneFine(Pieces(v, depth, true, gap)[0], prev, depth);
  }

  lemma {:induction false} ItemsFine(items: seq<Json>, depth: nat, prev: Lexeme, gap: string)
    requires items != [] && gap == Spacing(prev, Mark('['), false, depth)
    ensures Fine(ItemPieces(items, depth, true, gap), prev, depth, 1)
    decreases items, 0
  {
    hide Pieces, Spacing, ByRule, MoreItemPieces;
    var first, more := Pieces(items[0], depth, true, gap), MoreItemPieces(items[1..], depth, true);
    ValueFine(items[0], depth, prev, gap);
    MoreItemsFine(items[1..], depth, first[|first| - 1].lexeme);
    FineAppend(first, more, prev, depth, 0, 1);
  }

  lemma {:induction false} MoreItemsFine(items: seq<Json>, depth: nat, prev: Lexeme)
    requires EndsValue(prev)
    ensures Fine(MoreItemPieces(items, depth, true), prev, depth, 1)
    decreases items, 1
  {
    hide ItemPieces, ByRule;
    if items == [] {
      OneFine(Piece("", Mark(']')), prev, depth);
    } else {
      CommaFine(prev, depth);
      ItemsFine(items, depth, Mark(','), " ");
      CommaThen(ItemPieces(items, depth, true, " "), prev, depth);
    }
  }

  /** A comma behind a value. */
  lemma CommaFine(prev: Lexeme, open: int)
    requires EndsValue(prev)
    ensures ByRule([Piece("", Mark(','))], prev, open) && Open([Piece("", Mark(','))], 1) == 0
  {
    var p := Piece("", Mark(','));
    assert Open([p], 1) == Open([p], 0) + Bracket(p.lexeme);
  }

  lemma CommaThen(qs: seq<Piece>, prev: Lexeme, open: int)
    requires EndsValue(prev) && Fine(qs, Mark(','), open, 1)
    ensures Fine([Piece("", Mark(','))] + qs, prev, open, 1)
  {
    hide ByRule, Open, EndsValue;
    var comma := [Piece("", Mark(','))];
    CommaFine(prev, open);
    SpacedAppend(comma, qs, prev, open);
    OpenAppend(comma, qs, 1 + |qs|);
    OpenNone(qs);
    assert (comma + qs)[|qs|] == qs[|qs| - 1];
  }

  lemma {:induction false} MembersFine(members: seq<Member>, depth: nat, prev: Lexeme)
    requires members != [] && (prev == Mark('{') || prev == Mark(','))
    ensures Fine(MemberPieces(members, depth, true), prev, depth, 1)
    decreases members, 0
  {
    hide OnePieces, Spacing, ByRule, MoreMemberPieces;
    var first, more := OnePieces(members[0], depth, true), MoreMemberPieces(members[1..], depth, true);
    MemberFine(members[0], depth, prev);
    MoreMembersFine(members[1..], depth, first[|first| - 1].lexeme);
    FineAppend(first, more, prev, depth, 0, 1);
  }

  lemma {:induction false} MoreMembersFine(members: seq<Member>, depth: nat, prev: Lexeme)
    requires EndsValue(prev)
    ensures Fine(MoreMemberPieces(members, depth, true), prev, depth, 1)
    decreases members, 1
  {
    hide MemberPieces, ByRule, Tabs, NewLine;
    if members == [] {
      TabsAreTabs(depth - 1);
      OneFine(Piece("\n" + Tabs(depth - 1), Mark('}')), prev, depth);
    } else {
      MembersFine(members, depth, Mark(','));
      CommaThen(MemberPieces(members, depth, true), prev, depth);
    }
  }

  lemma {:induction false} MemberFine(m: Member, depth: nat, prev: Lexeme)
    ensures Fine(OnePieces(m, depth, true), prev, depth, 0)
    decreases m, 1
  {
    hide Pieces, ByRule, Tabs, NewLine, Spacing;
    var head := [Piece("\n" + Tabs(depth), Quoted(m.key)), Piece("", Mark(':'))];
    NameSpaced(m.key, depth, prev);
    assert Spacing(Mark(':'), Mark('['), false, depth) == "\t" by {
      AfterColon(depth);
    }
    ValueFine(m.value, depth, Mark(':'), "\t");
    var value := Pieces(m.value, depth, true, "\t");
    SpacedAppend(head, value, prev, depth);
    OpenAppend(head, value, 2 + |value|);
    OpenNone(value);
    assert (head + value)[1 + |value|] == value[|value| - 1];
  }

  lemma AfterColon(open: int)
    ensures Spacing(Mark(':'), Mark('['), false, open) == "\t"
  {
  }

  lemma NameSpaced(key: string, depth: nat, prev: Lexeme)
    ensures var head := [Piece("\n" + Tabs(depth), Quoted(key)), Piece("", Mark(':'))];
      ByRule(head, prev, depth) && Open(head, 2) == 0
  {
    hide NewLine, Tabs;
    TabsAreTabs(depth);
    var head := [Piece("\n" + Tabs(depth), Quoted(key)), Piece("", Mark(':'))];
    assert Open(head, 0) == 0 && Open(head, 1) == 0 && Open(head, 2) == 0;
  }

  /** Nothing stands before a text. */
  const START := Word("")

  /**
   The formatted text of every value, as both printers write it, is spaced by the rule, and the unformatted text is not
   spaced at all.
   */
  lemma FormattedText(v: Json)
    ensures var ps := Pieces(v, 0, true, "");
      Render(v, 0, true) == Glue(ps) && ByRule(ps, START, 0) && Open(ps, |ps|) == 0
  {
    hide Pieces, ByRule, Open, Render, Glue;
    GlueText(v, 0, true, "");
    assert "" + Render(v, 0, true) == Render(v, 0, true);
    ValueFine(v, 0, START, "");
  }

  // ---------- the unformatted text has no white space ----------

  ghost predicate Tight(ps: seq<Piece>) {
    forall m | 0 <= m < |ps| :: ps[m].gap == ""
  }

  lemma UnformattedText(v: Json)
    ensures var ps := Pieces(v, 0, false, "");
      Render(v, 0, false) == Glue(ps) && Tight(ps)
  {
    hide Render;
    GlueText(v, 0, false, "");
    assert "" + Render(v, 0, false) == Render(v, 0, false);
    ValueTight(v, 0);
  }

  lemma {:induction false} ValueTight(v: Json, depth: nat)
    ensures Tight(Pieces(v, depth, false, ""))
    decreases v, 0
  {
    match v
    case Arr(items) =>
      if items != [] {
        ItemsTight(items, depth + 1);
      }
    case Obj(members) =>
      if members != [] {
        MembersTight(members, depth + 1);
      }
    case _ =>
  }

  lemma {:induction false} ItemsTight(items: seq<Json>, depth: nat)
    requires items != []
    ensures Tight(ItemPieces(items, depth, false, ""))
    decreases items, 0
  {
    hide Pieces;
    ValueTight(items[0], depth);
    if |items| > 1 {
      ItemsTight(items[1..], depth);
    }
  }

  lemma {:induction false} MembersTight(members: seq<Member>, depth: nat)
    requires members != []
    ensures Tight(MemberPieces(members, depth, false))
    decreases members, 0
  {
    hide Pieces;
    ValueTight(members[0].value, depth);
    if |members| > 1 {
      MembersTight(members[1..], depth);
    }
  }
}

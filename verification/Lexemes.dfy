/**
 Texts as rows of lexemes. Whatever text the parser accepts, the lexemes it reads are those of the value it returns,
 and a printed text is its lexemes with the white space of the layout before each.
 */
module Lexemes {
  import opened Options
  import opened CText
  import opened Json
  import opened Numbers
  import opened Parser
  import opened Grammar
  import opened Completeness
  import opened RoundTrip

  datatype Lexeme = Mark(c: char) | Word(w: string) | Figure(n: real) | Quoted(s: string)

  /** A lexeme, and the white space printed before it. */
  datatype Piece = Piece(gap: string, lexeme: Lexeme)

  // ---------- the lexemes of a value ----------

  function Pieces(v: Json, depth: nat, fmt: bool, gap: string): (ps: seq<Piece>)
    ensures ps != []
    decreases v, 0
  {
    match v
    case Null => [Piece(gap, Word("null"))]
    case False => [Piece(gap, Word("false"))]
    case True => [Piece(gap, Word("true"))]
    case Num(n) => [Piece(gap, Figure(n))]
    case Str(s) => [Piece(gap, Quoted(s))]
    case Arr(items) =>
      [Piece(gap, Mark('['))]
      + if items == [] then [Piece("", Mark(']'))] else ItemPieces(items, depth + 1, fmt, "")
    case Obj(members) =>
      [Piece(gap, Mark('{'))]
      + if members == [] then [Piece(When(fmt, "\n" + Tabs(depth - 1)), Mark('}'))]
        else MemberPieces(members, depth + 1, fmt)
  }

  function ItemPieces(items: seq<Json>, depth: nat, fmt: bool, gap: string): (ps: seq<Piece>)
    requires items != []
    ensures ps != []
    decreases items, 0
  {
    Pieces(items[0], depth, fmt, gap) + MoreItemPieces(items[1..], depth, fmt)
  }

  function MoreItemPieces(items: seq<Json>, depth: nat, fmt: bool): (ps: seq<Piece>)
    ensures ps != [] && ps[0].lexeme.Mark?
    decreases items, 1
  {
    if items == [] then [Piece("", Mark(']'))]
    else [Piece("", Mark(','))] + ItemPieces(items, depth, fmt, When(fmt, " "))
  }

  function MemberPieces(members: seq<Member>, depth: nat, fmt: bool): (ps: seq<Piece>)
    requires members != []
    ensures ps != []
    decreases members, 0
  {
    OnePieces(members[0], depth, fmt) + MoreMemberPieces(members[1..], depth, fmt)
  }

  function MoreMemberPieces(members: seq<Member>, depth: nat, fmt: bool): (ps: seq<Piece>)
    ensures ps != [] && ps[0].lexeme.Mark?
    decreases members, 1
  {
    if members == [] then [Piece(When(fmt, "\n" + Tabs(depth - 1)), Mark('}'))]
    else [Piece("", Mark(','))] + MemberPieces(members, depth, fmt)
  }

  function OnePieces(m: Member, depth: nat, fmt: bool): seq<Piece>
    decreases m, 1
  {
    [Piece(When(fmt, "\n" + Tabs(depth)), Quoted(m.key)), Piece("", Mark(':'))]
    + Pieces(m.value, depth, fmt, When(fmt, "\t"))
  }

  // ---------- the printed text ----------

  function RawText(l: Lexeme): string {
    match l
    case Mark(c) => [c]
    case Word(w) => w
    case Figure(n) => IntText(n.Floor)
    case Quoted(s) => Quote(s)
  }

  function Glue(ps: seq<Piece>): string {
    if ps == [] then "" else ps[0].gap + RawText(ps[0].lexeme) + Glue(ps[1..])
  }

  lemma {:induction false} GlueAppend(ps: seq<Piece>, qs: seq<Piece>)
    ensures Glue(ps + qs) == Glue(ps) + Glue(qs)
  {
    hide RawText;
    if ps == [] {
      assert ps + qs == qs && "" + Glue(qs) == Glue(qs);
    } else {
      assert (ps + qs)[1..] == ps[1..] + qs;
      GlueAppend(ps[1..], qs);
      Assoc(ps[0].gap + RawText(ps[0].lexeme), Glue(ps[1..]), Glue(qs));
    }
  }

  lemma GlueOne(p: Piece)
    ensures Glue([p]) == p.gap + RawText(p.lexeme)
  {
    assert [p][1..] == [];
    assert Glue([p]) == p.gap + RawText(p.lexeme) + "";
  }

  lemma {:induction false} GlueText(v: Json, depth: nat, fmt: bool, gap: string)
    ensures Glue(Pieces(v, depth, fmt, gap)) == gap + Render(v, depth, fmt)
    decreases v, 0
  {
    hide IntText, Quote, Tabs, Glue, ItemPieces, MemberPieces, RenderItems, RenderMembers;
    match v
    case Arr(items) =>
      var open, close := Piece(gap, Mark('[')), Piece("", Mark(']'));
      GlueOne(open);
      if items == [] {
        GlueOne(close);
        GlueAppend([open], [close]);
        assert gap + "[" + ("" + "]") == gap + "[]";
      } else {
        GlueItems(items, depth + 1, fmt, "");
        GlueAppend([open], ItemPieces(items, depth + 1, fmt, ""));
        var t := RenderItems(items, depth + 1, fmt);
        assert "" + t == t;
        Assoc(gap, "[", t);
      }
    case Obj(members) =>
      var open, end := Piece(gap, Mark('{')), When(fmt, "\n" + Tabs(depth - 1));
      var close := Piece(end, Mark('}'));
      GlueOne(open);
      if members == [] {
        GlueOne(close);
        GlueAppend([open], [close]);
        Assoc(gap, "{", end + "}");
        Assoc("{", end, "}");
      } else {
        GlueMembers(members, depth + 1, fmt);
        GlueAppend([open], MemberPieces(members, depth + 1, fmt));
        var nl, t := When(fmt, "\n"), RenderMembers(members, depth + 1, fmt);
        Assoc(gap, "{", nl + t);
        Assoc("{", nl, t);
      }
    case _ => GlueOne(Pieces(v, depth, fmt, gap)[0]);
  }

  lemma {:induction false} GlueItems(items: seq<Json>, depth: nat, fmt: bool, gap: string)
    requires items != []
    ensures Glue(ItemPieces(items, depth, fmt, gap)) == gap + RenderItems(items, depth, fmt)
    decreases items, 0
  {
    hide Render, Pieces, Glue;
    GlueText(items[0], depth, fmt, gap);
    var x, more := Render(items[0], depth, fmt), MoreItemPieces(items[1..], depth, fmt);
    GlueAppend(Pieces(items[0], depth, fmt, gap), more);
    if |items| == 1 {
      GlueOne(more[0]);
      assert "" + "]" == "]";
      Assoc(gap, x, "]");
    } else {
      var comma, sp := Piece("", Mark(',')), When(fmt, " ");
      GlueOne(comma);
      GlueItems(items[1..], depth, fmt, sp);
      GlueAppend([comma], ItemPieces(items[1..], depth, fmt, sp));
      var t := RenderItems(items[1..], depth, fmt);
      assert "" + "," == ",";
      Assoc(",", sp, t);
      Assoc(gap, x, "," + sp + t);
    }
  }

  lemma {:induction false} GlueMember(m: Member, depth: nat, fmt: bool)
    ensures Glue(OnePieces(m, depth, fmt)) == When(fmt, "\n") + RenderMember(m, depth, fmt)
    decreases m, 0
  {
    hide Render, Pieces, Glue, Quote, Tabs;
    var nl, tabs, k, gap, x := When(fmt, "\n"), When(fmt, Tabs(depth)), Quote(m.key), When(fmt, "\t"), Render(m.value, depth, fmt);
    var key, colon := Piece(When(fmt, "\n" + Tabs(depth)), Quoted(m.key)), Piece("", Mark(':'));
    GlueOne(key);
    GlueOne(colon);
    GlueAppend([key], [colon]);
    assert [key] + [colon] == [key, colon];
    GlueText(m.value, depth, fmt, gap);
    GlueAppend([key, colon], Pieces(m.value, depth, fmt, gap));
    assert When(fmt, "\n" + Tabs(depth)) == nl + tabs;
    assert "" + ":" == ":";
    Assoc(nl + tabs + k + ":", gap, x);
    Regroup(nl, tabs, k, gap, x);
  }

  lemma {:induction false} GlueMembers(members: seq<Member>, depth: nat, fmt: bool)
    requires members != []
    ensures Glue(MemberPieces(members, depth, fmt)) == When(fmt, "\n") + RenderMembers(members, depth, fmt)
    decreases members, 0
  {
    hide RenderMember, OnePieces, Glue, Tabs;
    GlueMember(members[0], depth, fmt);
    var nl, x, more := When(fmt, "\n"), RenderMember(members[0], depth, fmt), MoreMemberPieces(members[1..], depth, fmt);
    GlueAppend(OnePieces(members[0], depth, fmt), more);
    if |members| == 1 {
      GlueOne(more[0]);
      Assoc(nl, x, When(fmt, "\n" + Tabs(depth - 1)) + "}");
    } else {
      var comma := Piece("", Mark(','));
      GlueOne(comma);
      GlueMembers(members[1..], depth, fmt);
      GlueAppend([comma], MemberPieces(members[1..], depth, fmt));
      var t := RenderMembers(members[1..], depth, fmt);
      assert "" + "," == ",";
      Assoc(",", nl, t);
      Assoc(nl, x, "," + nl + t);
    }
  }

  // ---------- reading ----------

  const MARKS := "[]{},:"

  /** The lexeme at the start of a text. */
  function Lex(s: string): Option<(Lexeme, string)> {
    if "null" <= s then Some((Word("null"), s[4..]))
    else if "false" <= s then Some((Word("false"), s[5..]))
    else if "true" <= s then Some((Word("true"), s[4..]))
    else if At(s, 0) == '"' then
      match ParseString(s) case Parsed(x, r) => Some((Quoted(x), r)) case _ => None
    else if At(s, 0) == '-' || IsDigit(At(s, 0)) then
      var (n, r) := ParseNumber(s);
      Some((Figure(n.Value()), r))
    else if At(s, 0) in MARKS then Some((Mark(s[0]), s[1..]))
    else None
  }

  /** These lexemes are read one after another, white space between them left out, up to `rest`. */
  ghost predicate Reads(s: string, ps: seq<Piece>, rest: string)
    decreases |ps|
  {
    if ps == [] then s == rest
    else
      match Lex(Skip(s))
      case Some(p) => p.0 == ps[0].lexeme && Reads(p.1, ps[1..], rest)
      case None => false
  }

  lemma {:induction false} ReadsAppend(s: string, ps: seq<Piece>, t: string, qs: seq<Piece>, rest: string)
    requires Reads(s, ps, t) && Reads(t, qs, rest)
    ensures Reads(s, ps + qs, rest)
    decreases |ps|
  {
    hide Lex, Skip;
    if ps == [] {
      assert ps + qs == qs;
    } else {
      assert (ps + qs)[1..] == ps[1..] + qs;
      ReadsAppend(Lex(Skip(s)).value.1, ps[1..], t, qs, rest);
    }
  }

  lemma ReadsOne(s: string, p: Piece, rest: string)
    requires Lex(Skip(s)) == Some((p.lexeme, rest))
    ensures Reads(s, [p], rest)
  {
    hide Lex, Skip;
    assert [p][1..] == [];
  }

  lemma ReadsSkipped(s: string, ps: seq<Piece>, rest: string)
    requires ps != []
    ensures Reads(Skip(s), ps, rest) <==> Reads(s, ps, rest)
  {
    hide Lex;
    SkipTwice(s);
  }

  lemma MarkReads(s: string, p: Piece)
    requires p.lexeme.Mark? && p.lexeme.c in MARKS && At(s, 0) == p.lexeme.c
    ensures Reads(s, [p], s[1..])
  {
    SkipStops(s);
    hide ParseString, ParseNumber;
    ReadsOne(s, p, s[1..]);
  }

  /** What the parser makes a value of is the lexemes of that value. */
  lemma {:induction false} ValueReads(s: string, depth: nat, fmt: bool, gap: string)
    requires ParseValue(s).Parsed?
    ensures Reads(s, Pieces(ParseValue(s).value, depth, fmt, gap), ParseValue(s).rest)
    decreases |s|, 1
  {
    hide ParseString, ParseNumber, ParseItems, ParseMembers, ItemPieces, MemberPieces, Skip;
    var v, rest := ParseValue(s).value, ParseValue(s).rest;
    var ps := Pieces(v, depth, fmt, gap);
    SkipStops(s);
    match v
    case Arr(items) => ArrayReads(s, depth, fmt, gap);
    case Obj(members) => ObjectReads(s, depth, fmt, gap);
    case _ => ReadsOne(s, ps[0], rest);
  }

  lemma {:induction false} ArrayReads(s: string, depth: nat, fmt: bool, gap: string)
    requires ParseValue(s).Parsed? && ParseValue(s).value.Arr?
    ensures Reads(s, Pieces(ParseValue(s).value, depth, fmt, gap), ParseValue(s).rest)
    decreases |s|, 0
  {
    hide ParseValue, ParseItems, ItemPieces, Skip, Reads;
    ArrayParsed(s);
    var v, rest := ParseValue(s).value, ParseValue(s).rest;
    var open := Piece(gap, Mark('['));
    var t := Skip(s[1..]);
    MarkReads(s, open);
    if v.items == [] {
      MarkReads(t, Piece("", Mark(']')));
      ReadsSkipped(s[1..], [Piece("", Mark(']'))], rest);
      ReadsAppend(s, [open], s[1..], [Piece("", Mark(']'))], rest);
    } else {
      ItemsRead(t, depth + 1, fmt, "");
      ReadsSkipped(s[1..], ItemPieces(v.items, depth + 1, fmt, ""), rest);
      ReadsAppend(s, [open], s[1..], ItemPieces(v.items, depth + 1, fmt, ""), rest);
    }
  }

  lemma ArrayParsed(s: string)
    requires ParseValue(s).Parsed? && ParseValue(s).value.Arr?
    ensures At(s, 0) == '['
    ensures var t, items := Skip(s[1..]), ParseValue(s).value.items;
      if items == [] then At(t, 0) == ']' && t[1..] == ParseValue(s).rest
      else ParseItems(t) == Parsed(items, ParseValue(s).rest)
  {
    hide ParseString, ParseNumber, Skip, MoreItems;
  }

  lemma {:induction false} ItemsRead(s: string, depth: nat, fmt: bool, gap: string)
    requires ParseItems(s).Parsed?
    ensures ParseItems(s).value != []
    ensures Reads(s, ItemPieces(ParseItems(s).value, depth, fmt, gap), ParseItems(s).rest)
    decreases |s|, 3
  {
    hide ParseValue, Reads, Pieces, MoreItems, Skip;
    var items, rest := ParseItems(s).value, ParseItems(s).rest;
    var t := ParseValue(Skip(s)).rest;
    ValueReads(Skip(s), depth, fmt, gap);
    ReadsSkipped(s, Pieces(items[0], depth, fmt, gap), t);
    MoreItemsRead(Skip(t), depth, fmt);
    assert items[1..] == MoreItems(Skip(t)).value;
    ReadsSkipped(t, MoreItemPieces(items[1..], depth, fmt), rest);
    ReadsAppend(s, Pieces(items[0], depth, fmt, gap), t, MoreItemPieces(items[1..], depth, fmt), rest);
  }

  lemma {:induction false} MoreItemsRead(s: string, depth: nat, fmt: bool)
    requires MoreItems(s).Parsed?
    ensures Reads(s, MoreItemPieces(MoreItems(s).value, depth, fmt), MoreItems(s).rest)
    decreases |s|, 2
  {
    hide ParseItems, Reads, ItemPieces;
    var items, rest := MoreItems(s).value, MoreItems(s).rest;
    if At(s, 0) == ',' {
      var comma := Piece("", Mark(','));
      MarkReads(s, comma);
      ItemsRead(s[1..], depth, fmt, When(fmt, " "));
      ReadsAppend(s, [comma], s[1..], ItemPieces(items, depth, fmt, When(fmt, " ")), rest);
    } else {
      MarkReads(s, Piece("", Mark(']')));
    }
  }

  lemma {:induction false} ObjectReads(s: string, depth: nat, fmt: bool, gap: string)
    requires ParseValue(s).Parsed? && ParseValue(s).value.Obj?
    ensures Reads(s, Pieces(ParseValue(s).value, depth, fmt, gap), ParseValue(s).rest)
    decreases |s|, 0
  {
    hide ParseValue, ParseMembers, MemberPieces, Skip, Reads, Tabs;
    ObjectParsed(s);
    var v, rest := ParseValue(s).value, ParseValue(s).rest;
    var open, close := Piece(gap, Mark('{')), Piece(When(fmt, "\n" + Tabs(depth - 1)), Mark('}'));
    var t := Skip(s[1..]);
    MarkReads(s, open);
    if v.members == [] {
      MarkReads(t, close);
      ReadsSkipped(s[1..], [close], rest);
      ReadsAppend(s, [open], s[1..], [close], rest);
    } else {
      MembersRead(t, depth + 1, fmt);
      ReadsSkipped(s[1..], MemberPieces(v.members, depth + 1, fmt), rest);
      ReadsAppend(s, [open], s[1..], MemberPieces(v.members, depth + 1, fmt), rest);
    }
  }

  lemma ObjectParsed(s: string)
    requires ParseValue(s).Parsed? && ParseValue(s).value.Obj?
    ensures At(s, 0) == '{'
    ensures var t, members := Skip(s[1..]), ParseValue(s).value.members;
      if members == [] then At(t, 0) == '}' && t[1..] == ParseValue(s).rest
      else ParseMembers(t) == Parsed(members, ParseValue(s).rest)
  {
    hide ParseString, ParseNumber, Skip, MoreMembers, ParseMember;
  }

  lemma {:induction false} MembersRead(s: string, depth: nat, fmt: bool)
    requires ParseMembers(s).Parsed?
    ensures ParseMembers(s).value != []
    ensures Reads(s, MemberPieces(ParseMembers(s).value, depth, fmt), ParseMembers(s).rest)
    decreases |s|, 4
  {
    hide ParseMember, Reads, OnePieces, MoreMembers, Skip;
    var members, rest := ParseMembers(s).value, ParseMembers(s).rest;
    var t := ParseMember(s).rest;
    MemberReads(s, depth, fmt);
    MoreMembersRead(Skip(t), depth, fmt);
    assert members[1..] == MoreMembers(Skip(t)).value;
    ReadsSkipped(t, MoreMemberPieces(members[1..], depth, fmt), rest);
    ReadsAppend(s, OnePieces(members[0], depth, fmt), t, MoreMemberPieces(members[1..], depth, fmt), rest);
  }

  lemma {:induction false} MemberReads(s: string, depth: nat, fmt: bool)
    requires ParseMember(s).Parsed?
    ensures Reads(s, OnePieces(ParseMember(s).value, depth, fmt), ParseMember(s).rest)
    decreases |s|, 2
  {
    hide ParseValue, ParseString, Reads, Pieces, Skip, Tabs;
    var m, rest := ParseMember(s).value, ParseMember(s).rest;
    var t := ParseString(Skip(s)).rest;
    var key, colon := Piece(When(fmt, "\n" + Tabs(depth)), Quoted(m.key)), Piece("", Mark(':'));
    var u := Skip(t);
    QuotedReads(s, key, t);
    MarkReads(u, colon);
    ReadsSkipped(t, [colon], u[1..]);
    ReadsAppend(s, [key], t, [colon], u[1..]);
    assert [key] + [colon] == [key, colon];
    ValueReads(Skip(u[1..]), depth, fmt, When(fmt, "\t"));
    ReadsSkipped(u[1..], Pieces(m.value, depth, fmt, When(fmt, "\t")), rest);
    ReadsAppend(s, [key, colon], u[1..], Pieces(m.value, depth, fmt, When(fmt, "\t")), rest);
  }

  lemma QuotedReads(s: string, p: Piece, rest: string)
    requires p.lexeme.Quoted? && ParseString(Skip(s)) == Parsed(p.lexeme.s, rest)
    ensures Reads(s, [p], rest)
  {
    hide Skip;
    assert At(Skip(s), 0) == '"';
    hide ParseString, ParseNumber;
    ReadsOne(s, p, rest);
  }

  lemma MoreMembersRead(s: string, depth: nat, fmt: bool)
    requires MoreMembers(s).Parsed?
    ensures Reads(s, MoreMemberPieces(MoreMembers(s).value, depth, fmt), MoreMembers(s).rest)
    decreases |s|, 3
  {
    hide ParseMembers, Reads, MemberPieces, Tabs;
    var members, rest := MoreMembers(s).value, MoreMembers(s).rest;
    if At(s, 0) == ',' {
      var comma := Piece("", Mark(','));
      MarkReads(s, comma);
      MembersRead(s[1..], depth, fmt);
      ReadsAppend(s, [comma], s[1..], MemberPieces(members, depth, fmt), rest);
    } else {
      MarkReads(s, Piece(When(fmt, "\n" + Tabs(depth - 1)), Mark('}')));
    }
  }

  // ---------- how lexemes are spaced ----------

  ghost predicate Fits(p: Piece) {
    && White(p.gap)
    && match p.lexeme
       case Mark(c) => c in MARKS
       case Word(w) => w in ["null", "false", "true"]
       case Figure(n) => n == n.Floor as real && |p.gap| <= 1
       case Quoted(s) => NulFree(s)
  }

  /** Behind a number or a string comes a mark. */
  ghost predicate Paced(ps: seq<Piece>) {
    && (forall m | 0 <= m < |ps| :: Fits(ps[m]))
    && (forall m | 0 < m < |ps| :: ps[m - 1].lexeme.Figure? || ps[m - 1].lexeme.Quoted? ==> ps[m].lexeme.Mark?)
  }

  lemma PacedAppend(ps: seq<Piece>, qs: seq<Piece>)
    requires Paced(ps) && Paced(qs)
    requires ps != [] && qs != [] ==> ps[|ps| - 1].lexeme.Mark? || qs[0].lexeme.Mark?
    ensures Paced(ps + qs)
  {
    hide Fits;
    var rs := ps + qs;
    forall m | 0 <= m < |rs|
      ensures Fits(rs[m])
    {
      assert rs[m] == if m < |ps| then ps[m] else qs[m - |ps|];
    }
    forall m | 0 < m < |rs|
      ensures rs[m - 1].lexeme.Figure? || rs[m - 1].lexeme.Quoted? ==> rs[m].lexeme.Mark?
    {
      assert m < |ps| ==> rs[m - 1] == ps[m - 1] && rs[m] == ps[m];
      assert m > |ps| ==> rs[m - 1] == qs[m - 1 - |ps|] && rs[m] == qs[m - |ps|];
    }
  }

  lemma {:induction false} ValuePaced(v: Json, depth: nat, fmt: bool, gap: string)
    requires Printable(v) && White(gap) && |gap| <= 1
    ensures Paced(Pieces(v, depth, fmt, gap))
    decreases v, 0
  {
    hide White, ItemPieces, MemberPieces, Tabs;
    match v
    case Arr(items) =>
      var rest := if items == [] then [Piece("", Mark(']'))] else ItemPieces(items, depth + 1, fmt, "");
      NoGap();
      if items != [] {
        ItemsPaced(items, depth + 1, fmt, "");
      }
      PacedAppend([Piece(gap, Mark('['))], rest);
    case Obj(members) =>
      var close := Piece(When(fmt, "\n" + Tabs(depth - 1)), Mark('}'));
      var rest := if members == [] then [close] else MemberPieces(members, depth + 1, fmt);
      NoGap();
      TabsAreWhite(depth - 1);
      if members != [] {
        MembersPaced(members, depth + 1, fmt);
      }
      PacedAppend([Piece(gap, Mark('{'))], rest);
    case _ =>
  }

  lemma NoGap()
    ensures White("") && White(" ") && White("\t")
  {
  }

  lemma {:induction false} ItemsPaced(items: seq<Json>, depth: nat, fmt: bool, gap: string)
    requires items != [] && PrintableItems(items) && White(gap) && |gap| <= 1
    ensures Paced(ItemPieces(items, depth, fmt, gap))
    decreases items, 0
  {
    hide White, Pieces, Printable;
    ValuePaced(items[0], depth, fmt, gap);
    MoreItemsPaced(items[1..], depth, fmt);
    PacedAppend(Pieces(items[0], depth, fmt, gap), MoreItemPieces(items[1..], depth, fmt));
  }

  lemma {:induction false} MoreItemsPaced(items: seq<Json>, depth: nat, fmt: bool)
    requires PrintableItems(items)
    ensures Paced(MoreItemPieces(items, depth, fmt))
    decreases items, 1
  {
    hide White, ItemPieces;
    NoGap();
    if items != [] {
      ItemsPaced(items, depth, fmt, When(fmt, " "));
      PacedAppend([Piece("", Mark(','))], ItemPieces(items, depth, fmt, When(fmt, " ")));
    }
  }

  lemma {:induction false} MembersPaced(members: seq<Member>, depth: nat, fmt: bool)
    requires members != [] && PrintableMembers(members)
    ensures Paced(MemberPieces(members, depth, fmt))
    decreases members, 0
  {
    hide White, OnePieces, PrintableMember;
    MemberPaced(members[0], depth, fmt);
    MoreMembersPaced(members[1..], depth, fmt);
    PacedAppend(OnePieces(members[0], depth, fmt), MoreMemberPieces(members[1..], depth, fmt));
  }

  lemma {:induction false} MemberPaced(m: Member, depth: nat, fmt: bool)
    requires PrintableMember(m)
    ensures Paced(OnePieces(m, depth, fmt))
    decreases m, 1
  {
    hide White, Pieces, Tabs, Printable;
    NoGap();
    TabsAreWhite(depth);
    ValuePaced(m.value, depth, fmt, When(fmt, "\t"));
    PacedAppend([Piece(When(fmt, "\n" + Tabs(depth)), Quoted(m.key)), Piece("", Mark(':'))],
                Pieces(m.value, depth, fmt, When(fmt, "\t")));
  }

  lemma {:induction false} MoreMembersPaced(members: seq<Member>, depth: nat, fmt: bool)
    requires PrintableMembers(members)
    ensures Paced(MoreMemberPieces(members, depth, fmt))
    decreases members, 1
  {
    hide White, MemberPieces, Tabs;
    NoGap();
    TabsAreWhite(depth - 1);
    if members != [] {
      MembersPaced(members, depth, fmt);
      PacedAppend([Piece("", Mark(','))], MemberPieces(members, depth, fmt));
    }
  }

  // ---------- printed lexemes are read back ----------

  /** A lexeme behind white space is the lexeme that is read, provided that what follows does not go on with a number. */
  lemma LexemeReads(p: Piece, rest: string)
    requires Fits(p) && (p.lexeme.Figure? ==> NumberEnds(rest))
    ensures Lex(Skip(p.gap + RawText(p.lexeme) + rest)) == Some((p.lexeme, rest))
  {
    hide White, RawText, Lex, Skip, NulFree;
    var raw := RawText(p.lexeme);
    RawStarts(p.lexeme, rest);
    NoGap();
    RawReads(p.lexeme, rest);
    Assoc(p.gap, raw, rest);
    WhiteSkips(p.gap, raw + rest);
  }

  lemma RawReads(l: Lexeme, rest: string)
    requires Fits(Piece("", l)) && (l.Figure? ==> NumberEnds(rest))
    ensures Lex(RawText(l) + rest) == Some((l, rest))
  {
    hide White, IntText, ParseString, ParseNumber, Quote, NumberEnds, NulFree;
    var raw := RawText(l);
    RawStarts(l, rest);
    match l
    case Mark(c) => assert (raw + rest)[1..] == rest;
    case Word(w) => assert (raw + rest)[|w|..] == rest;
    case Figure(n) => FigureReads(n, rest);
    case Quoted(s) => QuoteReads(s, rest);
  }

  lemma FigureReads(n: real, rest: string)
    requires n == n.Floor as real && NumberEnds(rest)
    ensures ParseNumber(IntText(n.Floor) + rest).1 == rest && ParseNumber(IntText(n.Floor) + rest).0.Value() == n
  {
    hide IntText, ParseNumber, LayoutNumber, NumberEnds, NumberText, ValidNumber, NumberValue;
    LayoutNumberText(n.Floor);
    LayoutNumberValid(n.Floor);
    ParseNumberComplete(LayoutNumber(n.Floor), rest);
  }

  lemma QuoteReads(s: string, rest: string)
    requires NulFree(s)
    ensures ParseString(Quote(s) + rest) == Parsed(s, rest)
  {
    hide ParseString, NulFree;
    LayoutStringText(s);
    LayoutStringValid(s);
    ParseStringComplete(LayoutString(s), rest);
  }

  lemma RawStarts(l: Lexeme, rest: string)
    requires l.Word? ==> l.w in ["null", "false", "true"]
    requires l.Mark? ==> l.c in MARKS
    ensures RawText(l) != "" && At(RawText(l) + rest, 0) == RawText(l)[0]
    ensures match l
      case Mark(c) => RawText(l)[0] in MARKS
      case Word(w) => RawText(l)[0] == w[0]
      case Figure(_) => RawText(l)[0] == '-' || IsDigit(RawText(l)[0])
      case Quoted(_) => RawText(l)[0] == '"'
    ensures RawText(l)[0] > ' '
  {
  }
}

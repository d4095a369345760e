/**
 The port rewriting where the first `port` of a message is not the name of the member meant: inside another name or
 string, it spoils the message.
 */
module Misplaced {
  import opened Options
  import opened CText
  import opened Json
  import opened Keys
  import opened Numbers
  import opened Parser
  import opened Grammar
  import opened Completeness
  import opened RoundTrip
  import opened PrintText
  import opened StringPrinter
  import opened Lexemes
  import opened Port
  import opened CutStrings

  // ---------- reading a row of printed lexemes ----------

  lemma MarkEndsNumber(p: Piece, rest: string)
    requires Fits(p) && p.lexeme.Mark?
    ensures NumberEnds(p.gap + RawText(p.lexeme) + rest)
  {
    var s := p.gap + RawText(p.lexeme) + rest;
    assert At(s, 0) == if p.gap == "" then p.lexeme.c else p.gap[0];
  }

  lemma PacedTail(ps: seq<Piece>)
    requires Paced(ps) && ps != []
    ensures Fits(ps[0]) && Paced(ps[1..])
    ensures |ps| > 1 && (ps[0].lexeme.Figure? || ps[0].lexeme.Quoted?) ==> ps[1].lexeme.Mark? && Fits(ps[1])
  {
    hide Fits;
    var qs := ps[1..];
    forall m | 0 < m < |qs|
      ensures qs[m - 1].lexeme.Figure? || qs[m - 1].lexeme.Quoted? ==> qs[m].lexeme.Mark?
    {
      assert qs[m] == ps[m + 1] && qs[m - 1] == ps[m];
    }
  }

  /** The first lexeme of a row is the first one read. */
  lemma FirstRead(ps: seq<Piece>, y: string, ls: seq<Piece>, rest: string)
    requires Paced(ps) && ps != [] && ls != [] && Reads(Glue(ps) + y, ls, rest)
    requires |ps| == 1 && ps[0].lexeme.Figure? ==> NumberEnds(y)
    ensures ls[0].lexeme == ps[0].lexeme && Reads(Glue(ps[1..]) + y, ls[1..], rest)
  {
    hide Fits, RawText, NumberEnds, Lex, Skip;
    PacedTail(ps);
    var more := Glue(ps[1..]) + y;
    Assoc(ps[0].gap + RawText(ps[0].lexeme), Glue(ps[1..]), y);
    if ps[0].lexeme.Figure? {
      if |ps| > 1 {
        var p, z := ps[1], Glue(ps[2..]);
        assert ps[1..][1..] == ps[2..];
        MarkEndsNumber(p, z + y);
        Assoc(p.gap + RawText(p.lexeme), z, y);
      } else {
        assert more == y;
      }
    }
    LexemeReads(ps[0], more);
  }

  /** A row in front of a text: its lexemes are read one by one, and then the text. */
  lemma {:induction false} RowRead(ps: seq<Piece>, y: string, ls: seq<Piece>, rest: string)
    requires Paced(ps) && |ps| <= |ls| && Reads(Glue(ps) + y, ls, rest)
    requires ps != [] && ps[|ps| - 1].lexeme.Figure? ==> NumberEnds(y)
    ensures forall m | 0 <= m < |ps| :: ls[m].lexeme == ps[m].lexeme
    ensures Reads(y, ls[|ps|..], rest)
  {
    hide Fits, RawText, NumberEnds, Lex, Skip, Reads;
    if ps == [] {
      assert Glue(ps) + y == y && ls[0..] == ls;
    } else {
      FirstRead(ps, y, ls, rest);
      PacedTail(ps);
      RowRead(ps[1..], y, ls[1..], rest);
      assert ls[1..][|ps| - 1..] == ls[|ps|..];
      forall m | 0 <= m < |ps|
        ensures ls[m].lexeme == ps[m].lexeme
      {
        if m > 0 {
          assert ls[1..][m - 1].lexeme == ps[1..][m - 1].lexeme;
        }
      }
    }
  }

  lemma PacedPart(ps: seq<Piece>, a: nat, b: nat)
    requires Paced(ps) && a <= b <= |ps|
    ensures Paced(ps[a..b])
  {
    hide Fits;
    var qs := ps[a..b];
    forall m | 0 < m < |qs|
      ensures qs[m - 1].lexeme.Figure? || qs[m - 1].lexeme.Quoted? ==> qs[m].lexeme.Mark?
    {
      assert qs[m] == ps[a + m] && qs[m - 1] == ps[a + m - 1];
    }
  }

  // ---------- where a `p` can stand ----------

  lemma GlueAround(ps: seq<Piece>, j: nat)
    requires j < |ps|
    ensures Glue(ps) == Glue(ps[..j]) + (ps[j].gap + RawText(ps[j].lexeme) + Glue(ps[j + 1..]))
  {
    hide RawText;
    assert ps == ps[..j] + ps[j..] && ps[j..][1..] == ps[j + 1..];
    GlueAppend(ps[..j], ps[j..]);
  }

  /** Only a string has a `p` in its text. */
  lemma OnlyInString(p: Piece, i: nat)
    requires Fits(p) && i < |p.gap + RawText(p.lexeme)| && (p.gap + RawText(p.lexeme))[i] == 'p'
    ensures p.lexeme.Quoted? && |p.gap| < i < |p.gap + RawText(p.lexeme)| - 1
  {
    var raw := RawText(p.lexeme);
    NotBlank(p.gap);
    assert i >= |p.gap|;
    assert raw[i - |p.gap|] == 'p';
    if p.lexeme.Figure? {
      NoLetter(p.lexeme.n.Floor);
    }
  }

  lemma NotBlank(ws: string)
    requires White(ws)
    ensures forall i | 0 <= i < |ws| :: ws[i] != 'p'
  {
  }

  lemma NoLetter(n: int)
    ensures forall i | 0 <= i < |IntText(n)| :: IntText(n)[i] != 'p'
  {
    var ds := Decimal(if n < 0 then -n else n);
    assert forall i | 0 <= i < |ds| :: IsDigit(ds[i]);
  }

  /** The lexeme in whose text a `p` stands. */
  lemma {:induction false} Locate(ps: seq<Piece>, i: nat) returns (j: nat)
    requires (forall m | 0 <= m < |ps| :: Fits(ps[m])) && i < |Glue(ps)| && Glue(ps)[i] == 'p'
    ensures j < |ps| && ps[j].lexeme.Quoted?
    ensures var a := |Glue(ps[..j])| + |ps[j].gap|;
      a < i < a + |RawText(ps[j].lexeme)| - 1
  {
    hide Fits, RawText;
    var head := ps[0].gap + RawText(ps[0].lexeme);
    if i < |head| {
      OnlyInString(ps[0], i);
      j := 0;
    } else {
      j := Locate(ps[1..], i - |head|);
      assert ps[..j + 1][1..] == ps[1..][..j];
      j := j + 1;
    }
  }

  // ---------- a row that was cut ----------

  /** A string whose printed text starts with that of `out`. */
  lemma StringRead(gap: string, out: string, y: string, ls: seq<Piece>, rest: string) returns (len: nat)
    requires White(gap) && NulFree(out) && ls != []
    requires Reads(gap + ("\"" + (EscapeText(out) + y)), ls, rest)
    ensures Unescape(y, out, len).Parsed?
    ensures ls[0].lexeme == Quoted(Unescape(y, out, len).value)
    ensures Reads(Unescape(y, out, len).rest, ls[1..], rest)
  {
    hide Unescape, ScanLength, EscapeText, White, ParseNumber;
    var t := EscapeText(out) + y;
    WhiteSkips(gap, "\"" + t);
    assert ("\"" + t)[1..] == t;
    assert ParseString("\"" + t).Parsed?;
    len := ScanLength(t).value;
    UnescapePast(out, y, "", len);
    assert "" + out == out;
  }

  /** The new port, read as a number. */
  lemma NumberRead(ws: string, port: int, q: string, ls: seq<Piece>, rest: string)
    requires White(ws) && port >= 1000 && ls != []
    requires Reads(ws + ((" " + IntText(port)) + q), ls, rest)
    ensures ls[0].lexeme.Figure?
    ensures NumberEnds(q) ==> ls[0].lexeme == Figure(port as real) && Reads(q, ls[1..], rest)
  {
    hide IntText, ParseNumber, ParseString, NumberEnds;
    var t := IntText(port) + q;
    PortDigits(port);
    Assoc(" ", IntText(port), q);
    Assoc(ws, " ", t);
    WhiteSkips(ws + " ", t);
    assert IsDigit(At(t, 0));
    if NumberEnds(q) {
      FigureReads(port as real, q);
    }
  }

  lemma MarkRead(c: char, y: string, ls: seq<Piece>, rest: string)
    requires c in MARKS && ls != [] && Reads([c] + y, ls, rest)
    ensures Reads(y, ls[1..], rest)
  {
    hide ParseNumber, ParseString;
    var s := [c] + y;
    SkipStops(s);
    assert s[1..] == y && At(s, 0) == c;
  }

  /** The rows agree but for place `k`. */
  ghost predicate Alike(ps: seq<Piece>, ls: seq<Piece>, k: nat) {
    && |ls| == |ps| && k < |ps| && Paced(ps)
    && forall m | 0 <= m < |ps| && m != k :: ls[m].lexeme == ps[m].lexeme
  }

  /** What is left of the old row is read as what it is. */
  lemma OldRow(ps: seq<Piece>, ls: seq<Piece>, k: nat, m: nat, rest: string)
    requires Alike(ps, ls, k) && m <= k && Reads(Glue(ps[m..]), ls[m..], rest)
    ensures ls[k].lexeme == ps[k].lexeme
  {
    hide Fits, Reads, Glue;
    PacedPart(ps, m, |ps|);
    assert ps[m..|ps|] == ps[m..] && Glue(ps[m..]) + "" == Glue(ps[m..]);
    RowRead(ps[m..], "", ls[m..], rest);
    assert ls[m..][k - m].lexeme == ps[m..][k - m].lexeme;
  }

  lemma NotEmpty(ps: seq<Piece>, m: nat)
    requires Paced(ps) && m < |ps|
    ensures Glue(ps[m..]) != ""
  {
    hide RawText;
    RawStarts(ps[m].lexeme, "");
  }

  /** The number that the new port replaces when it stands right behind the mark after the string. */
  lemma NextNumber(p: Piece, z: string, port: int)
    requires Fits(p) && p.lexeme.Figure? && NumberEnds(z)
    ensures var z2 := p.gap + RawText(p.lexeme) + z;
      && z2 != "" && NumberEnds(SkipDigits(z2[1..]))
      && (p.lexeme.n == port as real && port >= 0 ==> SkipDigits(z2[1..]) == z)
  {
    hide IntText, SkipDigits;
    var n := p.lexeme.n.Floor;
    var x := IntText(n);
    IntTextShape(n);
    if p.gap == "" {
      assert p.gap + x + z == x + z && (x + z)[1..] == x[1..] + z;
      DigitsSkipped(x[1..], z);
    } else {
      assert (p.gap + x + z)[1..] == x + z;
      if n >= 0 {
        DigitsSkipped(x, z);
      } else {
        MinusStays(x + z);
      }
    }
  }

  lemma IntTextShape(n: int)
    ensures var x := IntText(n);
      x != "" && AllDigits(x[1..]) && (if n >= 0 then AllDigits(x) else x[0] == '-')
  {
    if n < 0 {
      assert IntText(n)[1..] == Decimal(-n);
    }
  }

  lemma MinusStays(s: string)
    requires At(s, 0) == '-'
    ensures SkipDigits(s) == s && NumberEnds(s)
  {
  }

  /** Behind the string comes a mark, and in front of it the number of the port may not be read. */
  lemma ClosedBefore(ps: seq<Piece>, ls: seq<Piece>, j: nat, k: nat, port: int, rest: string)
    requires Alike(ps, ls, k) && j + 2 < k && port >= 1000 && ps[j].lexeme.Quoted?
    requires var z := Glue(ps[j + 1..]);
      |z| > 1 && Reads(z[..1] + ((" " + IntText(port)) + SkipDigits(z[2..])), ls[j + 1..], rest)
    ensures ls[k].lexeme == ps[k].lexeme
  {
    hide Fits, Reads, IntText, SkipDigits, NumberEnds, RawText;
    var p, p2, z, z2 := ps[j + 1], ps[j + 2], Glue(ps[j + 1..]), Glue(ps[j + 2..]);
    assert ps[j + 1..][1..] == ps[j + 2..] && ps[j + 1..][0] == p;
    assert p.lexeme.Mark? && Fits(p) && Fits(p2) && ls[j + 1..][0].lexeme == p.lexeme;
    NotEmpty(ps, j + 2);
    MarkFirst(p, z2);
    if p.gap != "" {
      NumberRead(z[..1], port, SkipDigits(z[2..]), ls[j + 1..], rest);
    } else {
      var c := p.lexeme.c;
      var y := (" " + IntText(port)) + SkipDigits(z2[1..]);
      MarkRead(c, y, ls[j + 1..], rest);
      assert ls[j + 1..][1..] == ls[j + 2..] && "" + y == y && White("");
      NumberRead("", port, SkipDigits(z2[1..]), ls[j + 2..], rest);
      assert p2.lexeme.Figure? && ps[j + 3].lexeme.Mark? && Fits(ps[j + 3]);
      var z3 := Glue(ps[j + 3..]);
      assert ps[j + 2..][1..] == ps[j + 3..] && ps[j + 3..][0] == ps[j + 3];
      MarkEndsNumber(ps[j + 3], Glue(ps[j + 3..][1..]));
      NextNumber(p2, z3, port);
      assert ls[j + 2..][1..] == ls[j + 3..];
      OldRow(ps, ls, k, j + 3, rest);
    }
  }

  lemma MarkFirst(p: Piece, z2: string)
    requires Fits(p) && p.lexeme.Mark?
    ensures var z := p.gap + RawText(p.lexeme) + z2;
      && p.lexeme.c in MARKS && z != ""
      && (p.gap != "" ==> White(z[..1]))
      && (p.gap == "" ==> z[..1] == [p.lexeme.c] && (|z| > 1 ==> z[2..] == z2[1..]))
  {
    var z := p.gap + RawText(p.lexeme) + z2;
    if p.gap == "" {
      assert z == [p.lexeme.c] + z2;
    } else {
      assert z[..1] == p.gap[..1];
    }
  }

  /** However a row whose string `j` was cut behind its `port` is read, a number further on is still the old one. */
  lemma CutRow(ps: seq<Piece>, ls: seq<Piece>, j: nat, k: nat, port: int, d0: string, x: string, rest: string)
    requires Alike(ps, ls, k) && j + 2 < k && port >= 1000
    requires ps[j].lexeme == Quoted(d0 + PORT + x) && NulFree(d0 + PORT) && NulFree(x)
    requires var u := EscapeText(x) + ("\"" + Glue(ps[j + 1..]));
      |u| > 2 && Reads(Glue(ps[..j]) + (ps[j].gap + ("\"" + (EscapeText(d0 + PORT) + Behind(u, port)))), ls, rest)
    ensures ls[k].lexeme == ps[k].lexeme
  {
    hide Reads, IntText, SkipDigits, NumberEnds, RawText, Unescape, Behind, Glue, EscapeText, NulFree;
    var z, out := Glue(ps[j + 1..]), d0 + PORT;
    var u := EscapeText(x) + ("\"" + z);
    var y := ps[j].gap + ("\"" + (EscapeText(out) + Behind(u, port)));
    PacedPart(ps, 0, j);
    assert ps[0..j] == ps[..j];
    RowRead(ps[..j], y, ls, rest);
    var len := StringRead(ps[j].gap, out, Behind(u, port), ls[j..], rest);
    StringCut(x, z, out, len, port);
    assert ls[j..][0] == ls[j] && ls[j..][1..] == ls[j + 1..];
    var after := Unescape(Behind(u, port), out, len).rest;
    if |EscapeText(x)| >= 2 {
      OldRow(ps, ls, k, j + 1, rest);
    } else if x == "" {
      ClosedBefore(ps, ls, j, k, port, rest);
    } else {
      assert White("") && "" + after == after;
      assert ls[j + 1..][0].lexeme == ps[j + 1].lexeme;
      NumberRead("", port, SkipDigits(z[1..]), ls[j + 1..], rest);
    }
  }

  // ---------- the row of an object ----------

  /** The place of the name of member `k` in the row of the members. */
  function KeyIndex(ms: seq<Member>, k: nat, depth: nat, fmt: bool): nat
    requires k < |ms|
  {
    if k == 0 then 0 else |OnePieces(ms[0], depth, fmt)| + 1 + KeyIndex(ms[1..], k - 1, depth, fmt)
  }

  /** The rows agree but for the number two places behind the name at `a`. */
  ghost predicate Spot(ps: seq<Piece>, ls: seq<Piece>, a: nat, gap: string, n: real, port: real) {
    && |ls| == |ps| && a + 2 < |ps|
    && ps[a] == Piece(gap, Quoted(PORT)) && ps[a + 2].lexeme == Figure(n) && ls[a + 2].lexeme == Figure(port)
    && forall m | 0 <= m < |ps| && m != a + 2 :: ls[m].lexeme == ps[m].lexeme
  }

  lemma SpotShift(front: seq<Piece>, ps: seq<Piece>, ls: seq<Piece>, a: nat, gap: string, n: real, port: real)
    requires Spot(ps, ls, a, gap, n, port)
    ensures Spot(front + ps, front + ls, |front| + a, gap, n, port)
  {
    var f := |front|;
    forall m | 0 <= m < |front + ps| && m != f + a + 2
      ensures (front + ls)[m].lexeme == (front + ps)[m].lexeme
    {
      assert m >= f ==> (front + ls)[m] == ls[m - f] && (front + ps)[m] == ps[m - f];
    }
  }

  lemma {:induction false} KeyPieces(ms: seq<Member>, k: nat, depth: nat, fmt: bool, n: real, port: real)
    requires k < |ms| && ms[k] == Member(PORT, Num(n))
    ensures Spot(MemberPieces(ms, depth, fmt), MemberPieces(ms[k := Member(PORT, Num(port))], depth, fmt),
                 KeyIndex(ms, k, depth, fmt), When(fmt, "\n" + Tabs(depth)), n, port)
  {
    hide Tabs, Spot, OnePieces, MemberPieces, When;
    var m', ms' := Member(PORT, Num(port)), ms[k := Member(PORT, Num(port))];
    if k == 0 {
      assert ms'[1..] == ms[1..];
      MembersSplit(ms, depth, fmt);
      MembersSplit(ms', depth, fmt);
      NumberSpot(MoreMemberPieces(ms[1..], depth, fmt), depth, fmt, n, port);
    } else {
      assert ms'[1..] == ms[1..][k - 1 := m'] && ms'[0] == ms[0];
      KeyPieces(ms[1..], k - 1, depth, fmt, n, port);
      MembersAfterFirst(ms, depth, fmt);
      MembersAfterFirst(ms', depth, fmt);
      SpotShift(OnePieces(ms[0], depth, fmt) + [Piece("", Mark(','))], MemberPieces(ms[1..], depth, fmt),
                MemberPieces(ms'[1..], depth, fmt), KeyIndex(ms[1..], k - 1, depth, fmt), When(fmt, "\n" + Tabs(depth)), n, port);
    }
  }

  lemma MembersSplit(ms: seq<Member>, depth: nat, fmt: bool)
    requires ms != []
    ensures MemberPieces(ms, depth, fmt) == OnePieces(ms[0], depth, fmt) + MoreMemberPieces(ms[1..], depth, fmt)
  {
  }

  lemma MembersAfterFirst(ms: seq<Member>, depth: nat, fmt: bool)
    requires |ms| > 1
    ensures MemberPieces(ms, depth, fmt)
         == OnePieces(ms[0], depth, fmt) + [Piece("", Mark(','))] + MemberPieces(ms[1..], depth, fmt)
  {
    hide OnePieces;
    var one, comma, more := OnePieces(ms[0], depth, fmt), [Piece("", Mark(','))], MemberPieces(ms[1..], depth, fmt);
    assert one + (comma + more) == one + comma + more;
  }

  lemma NumberSpot(more: seq<Piece>, depth: nat, fmt: bool, n: real, port: real)
    ensures Spot(OnePieces(Member(PORT, Num(n)), depth, fmt) + more, OnePieces(Member(PORT, Num(port)), depth, fmt) + more,
                 0, When(fmt, "\n" + Tabs(depth)), n, port)
  {
    hide Tabs;
  }

  lemma {:induction false} KeyPlace(ms: seq<Member>, k: nat, depth: nat, fmt: bool)
    requires k < |ms|
    ensures KeyIndex(ms, k, depth, fmt) <= |MemberPieces(ms, depth, fmt)|
    ensures |Glue(MemberPieces(ms, depth, fmt)[..KeyIndex(ms, k, depth, fmt)])|
         == |Listed(LayoutMembers(ms, depth, fmt)[..k])|
  {
    hide OnePieces, Tabs, EntryText, LayoutMember, RenderMember;
    if k > 0 {
      var es, one := LayoutMembers(ms, depth, fmt), OnePieces(ms[0], depth, fmt);
      var more, a := MemberPieces(ms[1..], depth, fmt), KeyIndex(ms[1..], k - 1, depth, fmt);
      KeyPlace(ms[1..], k - 1, depth, fmt);
      var comma := Piece("", Mark(','));
      assert MemberPieces(ms, depth, fmt)[..KeyIndex(ms, k, depth, fmt)] == one + ([comma] + more[..a]);
      GlueAppend(one, [comma] + more[..a]);
      GlueAppend([comma], more[..a]);
      GlueOne(comma);
      GlueMember(ms[0], depth, fmt);
      LayoutMemberText(ms[0], depth, fmt, "");
      assert es[0] == LayoutMember(ms[0], depth, fmt, "");
      AfterIs(ms[0], depth, fmt);
      assert es[..k][0] == es[0] && es[..k][1..] == LayoutMembers(ms[1..], depth, fmt)[..k - 1];
    }
  }

  lemma AfterIs(m: Member, depth: nat, fmt: bool)
    ensures LayoutMember(m, depth, fmt, "").after == "" && LayoutMember(m, depth, fmt, "").before == When(fmt, "\n" + Tabs(depth))
  {
  }

  // ---------- the first `port` of a row ----------

  lemma GlueGrows(ps: seq<Piece>, a: nat, b: nat)
    requires a <= b <= |ps|
    ensures |Glue(ps[..a])| <= |Glue(ps[..b])|
  {
    hide Glue;
    assert ps[..b] == ps[..a] + ps[a..b];
    GlueAppend(ps[..a], ps[a..b]);
  }

  /** A `port` in a row: it is in string `j`, behind `before` and in front of `behind`. */
  datatype PortPlace = PortPlace(j: nat, before: string, behind: string)

  /** The text up to and with that `port`, and the text behind it. */
  function UpTo(ps: seq<Piece>, w: PortPlace): string
    requires w.j < |ps|
  {
    Glue(ps[..w.j]) + (ps[w.j].gap + ("\"" + EscapeText(w.before + PORT)))
  }

  function From(ps: seq<Piece>, w: PortPlace): string
    requires w.j < |ps|
  {
    EscapeText(w.behind) + ("\"" + Glue(ps[w.j + 1..]))
  }

  ghost predicate Stands(ps: seq<Piece>, i: nat, w: PortPlace) {
    && w.j < |ps| && ps[w.j].lexeme == Quoted(w.before + PORT + w.behind)
    && NulFree(w.before + PORT) && NulFree(w.behind)
    && Glue(ps) == UpTo(ps, w) + From(ps, w) && |UpTo(ps, w)| == i + 4
    && |Glue(ps[..w.j])| < i && (w.before == "" ==> i == |Glue(ps[..w.j])| + |ps[w.j].gap| + 1)
  }

  lemma PlaceOfPort(ps: seq<Piece>, i: nat) returns (w: PortPlace)
    requires Paced(ps) && i < |Glue(ps)| && PORT <= Glue(ps)[i..]
    ensures Stands(ps, i, w)
  {
    hide Glue, EscapeText, Fits;
    assert Glue(ps)[i..][0] == Glue(ps)[i] == 'p';
    var j := Locate(ps, i);
    GlueAround(ps, j);
    var before, behind := Divided(Glue(ps[..j]), ps[j].gap, ps[j].lexeme.s, Glue(ps[j + 1..]), i, Glue(ps));
    w := PortPlace(j, before, behind);
    Around(Glue(ps[..j]), ps[j].gap, before, behind, Glue(ps[j + 1..]));
    StringFree(ps, j);
    FreeParts(before, behind);
  }

  lemma StringFree(ps: seq<Piece>, j: nat)
    requires Paced(ps) && j < |ps| && ps[j].lexeme.Quoted?
    ensures NulFree(ps[j].lexeme.s)
  {
    assert Fits(ps[j]);
  }

  lemma FreeParts(before: string, behind: string)
    requires NulFree(before + PORT + behind)
    ensures NulFree(before + PORT) && NulFree(behind)
  {
    var s := before + PORT + behind;
    assert before + PORT == s[..|before| + 4] && behind == s[|before| + 4..];
  }

  lemma Divided(a: string, g: string, d: string, z: string, i: nat, t: string) returns (before: string, behind: string)
    requires t == a + (g + Quote(d) + z) && |a| + |g| < i < |a| + |g| + |Quote(d)| - 1 && PORT <= t[i..]
    ensures d == before + PORT + behind && i == |a| + |g| + 1 + |EscapeText(before)|
  {
    hide EscapeText;
    var e, off := EscapeText(d), |a| + |g| + 1;
    Opened(a, g, e, z);
    assert t[i..] == (e + ("\"" + z))[i - off..];
    var x := PlaceInString(d, z, i - off);
    before, behind := d[..x], d[x + 4..];
    assert d[x..][..4] == PORT && d == d[..x] + d[x..] && d[x..] == d[x..][..4] + d[x + 4..];
    assert d == before + (PORT + behind);
    Assoc(before, PORT, behind);
  }

  lemma Opened(a: string, g: string, e: string, z: string)
    ensures a + (g + ("\"" + e + "\"") + z) == (a + (g + "\"")) + (e + ("\"" + z))
  {
    Assoc("\"", e, "\"");
    Assoc(g, "\"", e + "\"");
    Assoc(g + "\"", e + "\"", z);
    Assoc(e, "\"", z);
    Assoc(a, g + "\"", e + ("\"" + z));
  }

  lemma Around(a: string, g: string, before: string, behind: string, z: string)
    ensures var e, out := EscapeText(before + PORT + behind), EscapeText(before + PORT);
      && a + (g + ("\"" + e + "\"") + z) == (a + (g + ("\"" + out))) + (EscapeText(behind) + ("\"" + z))
      && |out| == |EscapeText(before)| + 4 && (before == "" ==> |EscapeText(before)| == 0)
  {
    var e, out, b := EscapeText(before + PORT + behind), EscapeText(before + PORT), EscapeText(behind);
    EscapeAppend(before + PORT, behind);
    EscapeAppend(before, PORT);
    NothingEscaped(PORT);
    hide EscapeText;
    Opened(a, g, e, z);
    Assoc(out, b, "\"" + z);
    Assoc(a + (g + "\""), out, b + ("\"" + z));
    Assoc(a, g + "\"", out);
    Assoc(g, "\"", out);
  }

  lemma SentText(t: string, front: string, u: string, i: nat, port: int)
    requires t == front + u && |front| == i + 4 && FirstAt(t, PORT) == Some(i)
    ensures Splice(t, port) == if |u| > 2 then Some(front + Behind(u, port)) else None
  {
    hide FirstAt, IntText, SkipDigits;
    if |u| > 2 {
      assert t[..i + 6] == front + u[..2] && t[i + 7..] == u[3..];
      var d, q := " " + IntText(port), SkipDigits(u[3..]);
      Assoc(front + u[..2], d, q);
      Assoc(front, u[..2], d + q);
    }
  }

  /** The lexemes of an accepted text are those of its value. */
  lemma TextReads(s: string, v: Json, fmt: bool, requireNul: bool, rest: string) returns (r: string)
    requires ParseText(s, requireNul) == Parsed(v, rest)
    ensures Reads(s, Pieces(v, 0, fmt, ""), r)
  {
    hide ParseValue, Pieces, Reads;
    r := ParseValue(Skip(s)).rest;
    ValueReads(Skip(s), 0, fmt, "");
    ReadsSkipped(s, Pieces(v, 0, fmt, ""), r);
  }

  lemma PrintedRow(v: Json, fmt: bool)
    requires Printable(v)
    ensures Glue(Pieces(v, 0, fmt, "")) == Render(v, 0, fmt) && Paced(Pieces(v, 0, fmt, ""))
  {
    hide Pieces, Glue, Render;
    GlueText(v, 0, fmt, "");
    NoGap();
    ValuePaced(v, 0, fmt, "");
    assert "" + Render(v, 0, fmt) == Render(v, 0, fmt);
  }

  lemma LongRest(ps: seq<Piece>, w: PortPlace)
    requires Paced(ps) && w.j + 2 < |ps|
    ensures |From(ps, w)| > 2
  {
    hide RawText, EscapeText;
    NotEmpty(ps, w.j + 2);
    RawStarts(ps[w.j + 1].lexeme, "");
    assert ps[w.j + 1..][1..] == ps[w.j + 2..] && ps[w.j + 1..][0] == ps[w.j + 1];
  }

  /** The name of member `k`, where its entry has it. */
  lemma NamePlace(ms: seq<Member>, k: nat, fmt: bool, ps: seq<Piece>, a: nat)
    requires k < |ms| && ms[k].key == PORT
    requires ps == Pieces(Obj(ms), 0, fmt, "") && a == 1 + KeyIndex(ms, k, 1, fmt)
    requires a < |ps| && ps[a] == Piece(When(fmt, "\n" + Tabs(1)), Quoted(PORT))
    ensures var at := NameAt(ms, k, fmt);
      && at == |Glue(ps[..a])| + |ps[a].gap| + 1 && at < |Glue(ps)| && PORT <= Glue(ps)[at..]
      && at < |Glue(ps[..a + 1])|
  {
    hide Tabs, MemberPieces, Listed, Glue, LayoutMembers, LayoutMember, When;
    var open, more := Piece("", Mark('{')), MemberPieces(ms, 1, fmt);
    KeyPlace(ms, k, 1, fmt);
    assert ps[..a] == [open] + more[..a - 1];
    GlueAppend([open], more[..a - 1]);
    GlueOne(open);
    var after := PrintedEntry(ms, k, 1, fmt);
    BeforeIs(ms[k], 1, fmt, after);
    hide Pieces, KeyIndex, NameAt;
    PortInRow(ps, a);
  }

  lemma PortInRow(ps: seq<Piece>, a: nat)
    requires a < |ps| && ps[a].lexeme == Quoted(PORT)
    ensures var at := |Glue(ps[..a])| + |ps[a].gap| + 1;
      at < |Glue(ps)| && PORT <= Glue(ps)[at..] && at < |Glue(ps[..a + 1])|
  {
    hide Glue, EscapeText;
    GlueAround(ps, a);
    var x, g, z := Glue(ps[..a]), ps[a].gap, Glue(ps[a + 1..]);
    NothingEscaped(PORT);
    Opened(x, g, PORT, z);
    assert ps[..a + 1] == ps[..a] + [ps[a]];
    GlueAppend(ps[..a], [ps[a]]);
    GlueOne(ps[a]);
    var t := PORT + ("\"" + z);
    assert (x + (g + "\"") + t)[|x| + |g| + 1..] == t;
  }

  lemma BeforeIs(m: Member, depth: nat, fmt: bool, after: string)
    ensures LayoutMember(m, depth, fmt, after).before == When(fmt, "\n" + Tabs(depth))
  {
  }

  lemma ObjectSpot(ms: seq<Member>, k: nat, fmt: bool, n: real, port: real)
    requires k < |ms| && ms[k] == Member(PORT, Num(n))
    ensures Spot(Pieces(Obj(ms), 0, fmt, ""), Pieces(Obj(ms[k := Member(PORT, Num(port))]), 0, fmt, ""),
                 1 + KeyIndex(ms, k, 1, fmt), When(fmt, "\n" + Tabs(1)), n, port)
  {
    hide Tabs, MemberPieces, Spot;
    KeyPieces(ms, k, 1, fmt, n, port);
    SpotShift([Piece("", Mark('{'))], MemberPieces(ms, 1, fmt), MemberPieces(ms[k := Member(PORT, Num(port))], 1, fmt),
              KeyIndex(ms, k, 1, fmt), When(fmt, "\n" + Tabs(1)), n, port);
  }

  /**
   A printed message with an integer member `port` whose name is not the first `port` in the text: the text sent never
   parses to the same object with that member changed. The ports used have four digits.
   */
  lemma MisplacedPort(ms: seq<Member>, k: nat, fmt: bool, n: int, port: int, requireNul: bool, rest: string)
    requires PrintableMembers(ms) && k < |ms| && ms[k] == Member(PORT, Num(n as real)) && port >= 1000 && port != n
    requires FirstAt(Render(Obj(ms), 0, fmt), PORT) != Some(NameAt(ms, k, fmt))
    ensures Splice(Render(Obj(ms), 0, fmt), port).Some?
    ensures ParseText(Splice(Render(Obj(ms), 0, fmt), port).value, requireNul)
         != Parsed(Obj(ms[k := Member(PORT, Num(port as real))]), rest)
  {
    hide Pieces, Render, Glue, FirstAt, Splice, ParseText, NameAt, KeyIndex, Paced, UpTo, From, Behind, Reads, Tabs;
    hide EscapeText, NulFree;
    var to := Obj(ms[k := Member(PORT, Num(port as real))]);
    var ps, ls := Pieces(Obj(ms), 0, fmt, ""), Pieces(to, 0, fmt, "");
    var a, text := 1 + KeyIndex(ms, k, 1, fmt), Render(Obj(ms), 0, fmt);
    PrintedRow(Obj(ms), fmt);
    ObjectSpot(ms, k, fmt, n as real, port as real);
    NamePlace(ms, k, fmt, ps, a);
    FindFirst(text, PORT);
    var i := FirstAt(text, PORT).value;
    var w := PlaceOfPort(ps, i);
    EarlierString(ps, a, i, NameAt(ms, k, fmt), w);
    LongRest(ps, w);
    SentText(text, UpTo(ps, w), From(ps, w), i, port);
    if ParseText(Splice(text, port).value, requireNul) == Parsed(to, rest) {
      var r := TextReads(Splice(text, port).value, to, fmt, requireNul, rest);
      NumberKept(ps, ls, w, a + 2, port, r);
    }
  }

  lemma EarlierString(ps: seq<Piece>, a: nat, i: nat, at: nat, w: PortPlace)
    requires Stands(ps, i, w) && i < at && a < |ps| && ps[a].lexeme == Quoted(PORT)
    requires at == |Glue(ps[..a])| + |ps[a].gap| + 1 && at < |Glue(ps[..a + 1])|
    ensures w.j < a
  {
    hide Glue, NulFree;
    assert w.j == a ==> |w.before + PORT + w.behind| == |PORT|;
    if w.j > a {
      GlueGrows(ps, a + 1, w.j);
    }
  }

  lemma NumberKept(ps: seq<Piece>, ls: seq<Piece>, w: PortPlace, k: nat, port: int, rest: string)
    requires Alike(ps, ls, k) && w.j + 2 < k && port >= 1000
    requires ps[w.j].lexeme == Quoted(w.before + PORT + w.behind) && NulFree(w.before + PORT) && NulFree(w.behind)
    requires |From(ps, w)| > 2 && Reads(UpTo(ps, w) + Behind(From(ps, w), port), ls, rest)
    ensures ls[k].lexeme == ps[k].lexeme
  {
    hide Glue, Reads, Behind, Paced, NulFree, EscapeText;
    var a, g, out, y := Glue(ps[..w.j]), ps[w.j].gap, EscapeText(w.before + PORT), Behind(From(ps, w), port);
    Assoc(a, g + ("\"" + out), y);
    Assoc(g, "\"" + out, y);
    Assoc("\"", out, y);
    CutRow(ps, ls, w.j, k, port, w.before, w.behind, rest);
  }

  /**
   Exactly when the rewriting does what it is for in a message with an integer member `port`, if the port changes at
   all: when that name is the first `port` in the text, and no tab hides a minus sign.
   */
  lemma PortReplacedExactly(ms: seq<Member>, k: nat, fmt: bool, n: int, port: int, requireNul: bool)
    requires PrintableMembers(ms) && k < |ms| && ms[k] == Member(PORT, Num(n as real)) && port >= 1000 && port != n
    ensures Splice(Render(Obj(ms), 0, fmt), port).Some?
    ensures ParseText(Splice(Render(Obj(ms), 0, fmt), port).value, requireNul)
            == Parsed(Obj(ms[k := Member(PORT, Num(port as real))]), "")
         <==> FirstAt(Render(Obj(ms), 0, fmt), PORT) == Some(NameAt(ms, k, fmt)) && !(fmt && n < 0)
  {
    hide Render, FirstAt, Splice, ParseText, NameAt;
    if FirstAt(Render(Obj(ms), 0, fmt), PORT) == Some(NameAt(ms, k, fmt)) {
      PortReplaced(ms, k, fmt, n, port, requireNul);
    } else {
      MisplacedPort(ms, k, fmt, n, port, requireNul, "");
    }
  }

  // ---------- messages without the member ----------

  /** A row that was cut in its first string or later is not read as a row that begins with the name `port`. */
  lemma CutFirst(ps: seq<Piece>, ls: seq<Piece>, w: PortPlace, i: nat, port: int, rest: string)
    requires Paced(ps) && Stands(ps, i, w) && port >= 1000 && |From(ps, w)| > 2
    requires w.j >= 1 && ps[1].lexeme.Quoted? && ps[1].lexeme.s != PORT
    requires |ls| >= 2 && ls[1].lexeme == Quoted(PORT)
    requires Reads(UpTo(ps, w) + Behind(From(ps, w), port), ls, rest)
    ensures w.j == 1 && |EscapeText(w.behind)| < 2 && PORT == w.before + PORT + w.behind
  {
    hide Glue, Reads, Behind, Paced, NulFree, EscapeText, Unescape;
    var out, y := EscapeText(w.before + PORT), Behind(From(ps, w), port);
    var g, j := ps[w.j].gap, w.j;
    Assoc(Glue(ps[..j]), g + ("\"" + out), y);
    Assoc(g, "\"" + out, y);
    Assoc("\"", out, y);
    var t := g + ("\"" + (out + y));
    if j > 1 {
      PacedPart(ps, 0, 2);
      assert ps[0..2] == ps[..2] && ps[..j] == ps[..2] + ps[2..j];
      GlueAppend(ps[..2], ps[2..j]);
      Assoc(Glue(ps[..2]), Glue(ps[2..j]), t);
      assert ps[..2][1] == ps[1];
      RowRead(ps[..2], Glue(ps[2..j]) + t, ls, rest);
    } else {
      PacedPart(ps, 0, 1);
      assert ps[0..1] == ps[..1];
      BeforeString(ps);
      RowRead(ps[..1], t, ls, rest);
      WhiteGap(ps, 1);
      var len := StringRead(g, w.before + PORT, y, ls[1..], rest);
      StringCut(w.behind, Glue(ps[2..]), w.before + PORT, len, port);
    }
  }

  lemma BeforeString(ps: seq<Piece>)
    requires Paced(ps) && |ps| > 1 && ps[1].lexeme.Quoted?
    ensures !ps[0].lexeme.Figure?
  {
  }

  lemma WhiteGap(ps: seq<Piece>, j: nat)
    requires Paced(ps) && j < |ps|
    ensures White(ps[j].gap)
  {
    assert Fits(ps[j]);
  }

  lemma ObjectStarts(ms: seq<Member>, fmt: bool)
    ensures var ps := Pieces(Obj(ms), 0, fmt, "");
      && |ps| >= 2 && ps[0].lexeme.Mark? && (if ms == [] then |ps| == 2 && ps[1].lexeme.Mark? else ps[1].lexeme == Quoted(ms[0].key))
  {
    hide Tabs, When;
    if ms != [] {
      MembersSplit(ms, 1, fmt);
    }
  }

  lemma SpoiledMessage(ms: seq<Member>, fmt: bool, port: int, requireNul: bool)
    requires PrintableMembers(ms) && port >= 1000 && (ms != [] ==> ms[0].key != PORT)
    requires FirstAt(Render(Obj(ms), 0, fmt), PORT) != None && Splice(Render(Obj(ms), 0, fmt), port).Some?
    ensures ParseText(Splice(Render(Obj(ms), 0, fmt), port).value, requireNul)
         != Parsed(Obj([Member(PORT, Num(port as real))] + ms), "")
  {
    hide Pieces, Render, Glue, FirstAt, Splice, ParseText, Paced, UpTo, From, Behind, Reads, EscapeText, NulFree;
    var to := Obj([Member(PORT, Num(port as real))] + ms);
    var text, ps, ls := Render(Obj(ms), 0, fmt), Pieces(Obj(ms), 0, fmt, ""), Pieces(to, 0, fmt, "");
    PrintedRow(Obj(ms), fmt);
    FindFirst(text, PORT);
    var i := FirstAt(text, PORT).value;
    OccursInside(text, i);
    var w := PlaceOfPort(ps, i);
    SentText(text, UpTo(ps, w), From(ps, w), i, port);
    ObjectStarts(ms, fmt);
    ObjectStarts(to.members, fmt);
    if ParseText(Splice(text, port).value, requireNul) == Parsed(to, "") {
      var r := TextReads(Splice(text, port).value, to, fmt, requireNul, "");
      CutFirst(ps, ls, w, i, port, r);
    }
  }

  lemma OccursInside(text: string, i: nat)
    requires i <= |text| && PORT <= text[i..]
    ensures i < |text|
  {
  }

  /**
   Exactly when the rewriting does what it is for in a message without a member `port`: when the object is not empty
   and `port` is nowhere in its text.
   */
  lemma PortInsertedExactly(ms: seq<Member>, fmt: bool, port: int, requireNul: bool)
    requires PrintableMembers(ms) && port >= 1000 && forall k | 0 <= k < |ms| :: ms[k].key != PORT
    ensures (match Splice(Render(Obj(ms), 0, fmt), port)
             case Some(s) => ParseText(s, requireNul) == Parsed(Obj([Member(PORT, Num(port as real))] + ms), "")
             case None => false)
         <==> ms != [] && FirstAt(Render(Obj(ms), 0, fmt), PORT) == None
  {
    hide Render, FirstAt, Splice, ParseText;
    if FirstAt(Render(Obj(ms), 0, fmt), PORT) == None {
      PortInserted(ms, fmt, port, requireNul);
    } else if Splice(Render(Obj(ms), 0, fmt), port).Some? {
      SpoiledMessage(ms, fmt, port, requireNul);
    }
  }

  // ---------- an example ----------

  /** A port that is looked for behind the comma after a member: a number then stands where a name must. */
  lemma NumberForName(ms: seq<Member>, m: nat, fmt: bool, i: nat, port: int, requireNul: bool)
    requires PrintableMembers(ms) && m + 1 < |ms| && port >= 1000
    requires FirstAt(Render(Obj(ms), 0, fmt), PORT) == Some(i)
    requires i + SKIP == 1 + |Listed(LayoutMembers(ms, 1, fmt)[..m + 1])|
    ensures Splice(Render(Obj(ms), 0, fmt), port).Some?
    ensures ParseText(Splice(Render(Obj(ms), 0, fmt), port).value, requireNul) == Rejected
  {
    hide Render, FirstAt, Splice, ParseText, LayoutMembers, Listed, EntryText, IntText, SkipDigits, ParseMembers, Skip;
    hide ValidEntry, ValidEntries, MembersClose, PrintableMembers;
    var es, text := LayoutMembers(ms, 1, fmt), Render(Obj(ms), 0, fmt);
    var before := es[..m + 1];
    LayoutText(Obj(ms), 0, fmt);
    LayoutMembersValid(ms, 1, fmt);
    ListedValid(es, m + 1);
    SplitAt(es, m + 1);
    var more := EntryText(es[m + 1]) + (es[m + 1].after + MembersClose(es[m + 1..], ""));
    assert text == "{" + (Listed(before) + more);
    NotNothing(es[m + 1]);
    var bad := (" " + IntText(port)) + SkipDigits(more[1..]);
    Assoc("{", Listed(before), more);
    SpliceAt(text, "{" + Listed(before), more, i, port);
    Assoc("{", Listed(before), bad);
    NumberNoMember(port, SkipDigits(more[1..]));
    RejectedLater(before, bad);
    BeforeStarts(before, bad);
    ObjectRejected(Listed(before) + bad, requireNul);
  }

  lemma SpliceAt(t: string, front: string, more: string, i: nat, port: int)
    requires t == front + more && more != "" && |front| == i + SKIP && FirstAt(t, PORT) == Some(i)
    ensures Splice(t, port) == Some(front + ((" " + IntText(port)) + SkipDigits(more[1..])))
  {
    hide FirstAt, IntText, SkipDigits;
    assert t[..i + SKIP] == front && t[i + SKIP + 1..] == more[1..];
    Assoc(front, " " + IntText(port), SkipDigits(more[1..]));
  }

  lemma NotNothing(e: Entry)
    ensures EntryText(e) != ""
  {
  }

  lemma NumberNoMember(port: int, q: string)
    requires port >= 1000
    ensures ParseMembers((" " + IntText(port)) + q) == Rejected
  {
    hide IntText;
    PortDigits(port);
    Assoc(" ", IntText(port), q);
    WhiteSkips(" ", IntText(port) + q);
  }

  lemma BeforeStarts(es: seq<Entry>, bad: string)
    requires es != [] && ValidEntries(es)
    ensures At(Skip(Listed(es) + bad), 0) == '"'
  {
    hide EntryText, ValidEntry, Skip;
    var x, a, more := EntryText(es[0]), es[0].after, Listed(es[1..]) + bad;
    Assoc(x + a + ",", Listed(es[1..]), bad);
    Assoc(x + a, ",", more);
    Assoc(x, a, "," + more);
    EntryStarts(es[0], a + ("," + more));
  }

  lemma FindAt(s: string, pat: string, i: nat)
    requires pat != "" && i <= |s| && pat <= s[i..] && forall j | 0 <= j < i :: s[j] != pat[0]
    ensures FirstAt(s, pat) == Some(i)
  {
    FindFirst(s, pat);
    forall j | 0 <= j < i
      ensures !(pat <= s[j..])
    {
      assert s[j..][0] == s[j];
    }
  }

  predicate NoP(s: string) {
    forall i | 0 <= i < |s| :: s[i] != 'p'
  }

  lemma {:induction false} EscapeNoP(s: string)
    requires NoP(s)
    ensures NoP(EscapeText(s))
  {
    hide EscapeChar;
    if s != "" {
      EscapeNoP(s[1..]);
      LetterFirst(s[0]);
      assert NoP(EscapeChar(s[0]));
    }
  }

  /** The text of a first member whose string value ends in `port`, with the comma behind it. */
  lemma ValueText(key: string, s: string, fmt: bool) returns (front: string)
    requires NoP(key) && NoP(s)
    ensures NoP(front)
    ensures EntryText(LayoutMember(Member(key, Str(s + PORT)), 1, fmt, "")) == front + (PORT + "\"")
  {
    hide EscapeText, EntryText, LayoutMember, NoP, Tabs, Quote;
    var m, e := Member(key, Str(s + PORT)), EscapeText(s);
    var nl, y := When(fmt, "\n"), When(fmt, Tabs(1)) + Quote(key) + ":" + When(fmt, "\t");
    LayoutMemberText(m, 1, fmt, "");
    NoPInName(key, fmt);
    NoPInString(s);
    front := nl + y + ("\"" + e);
    NoPBoth(nl, y);
    NoPBoth(nl + y, "\"" + e);
    QuotedEnd(s);
    Assoc(nl, y, ("\"" + e) + (PORT + "\""));
    Assoc(nl + y, "\"" + e, PORT + "\"");
  }

  lemma QuotedEnd(s: string)
    ensures Quote(s + PORT) == ("\"" + EscapeText(s)) + (PORT + "\"")
  {
    hide EscapeText, EscapeChar;
    EscapeAppend(s, PORT);
    NothingEscaped(PORT);
    Assoc("\"" + EscapeText(s), PORT, "\"");
    Assoc("\"", EscapeText(s), PORT);
  }

  lemma NoPBoth(s: string, t: string)
    requires NoP(s) && NoP(t)
    ensures NoP(s + t)
  {
  }

  lemma NoPInString(s: string)
    requires NoP(s)
    ensures NoP("\"" + EscapeText(s)) && NoP(Quote(s))
  {
    EscapeNoP(s);
    hide EscapeText;
  }

  lemma NoPInName(key: string, fmt: bool)
    requires NoP(key)
    ensures NoP(When(fmt, Tabs(1)) + Quote(key) + ":" + When(fmt, "\t")) && NoP(When(fmt, "\n"))
  {
    NoPInString(key);
    assert Tabs(1) == "\t";
    hide Quote;
  }

  /** A string value that ends in the first `port`, in front of other members: the message that is sent is no JSON text. */
  lemma PortEndsValue(key: string, s: string, ms: seq<Member>, fmt: bool, port: int, requireNul: bool)
    requires NoP(key) && NoP(s) && ms != [] && PrintableMembers([Member(key, Str(s + PORT))] + ms) && port >= 1000
    ensures var text := Render(Obj([Member(key, Str(s + PORT))] + ms), 0, fmt);
      Splice(text, port).Some? && ParseText(Splice(text, port).value, requireNul) == Rejected
  {
    hide Render, FirstAt, Splice, ParseText, LayoutMember, EntryText, NoP, PrintableMembers;
    var all := [Member(key, Str(s + PORT))] + ms;
    var es, text := LayoutMembers(all, 1, fmt), Render(Obj(all), 0, fmt);
    var front := ValueText(key, s, fmt);
    assert es[0] == LayoutMember(all[0], 1, fmt, "");
    AfterIs(all[0], 1, fmt);
    SplitAt(es, 1);
    LayoutText(Obj(all), 0, fmt);
    assert es[..1] == [es[0]] && [es[0]][1..] == [];
    var more := EntryText(es[1]) + (es[1].after + MembersClose(es[1..], ""));
    hide LayoutMembers, MembersClose;
    OneListed(es[0], front);
    assert Listed(es[..1]) == front + (PORT + "\",");
    PortBehind(text, front, more);
    NumberForName(all, 0, fmt, |front| + 1, port, requireNul);
  }

  lemma OneListed(e: Entry, front: string)
    requires e.after == "" && EntryText(e) == front + (PORT + "\"")
    ensures Listed([e]) == front + (PORT + "\",")
  {
    assert [e][1..] == [];
    assert Listed([e]) == EntryText(e) + "" + "," + "";
    assert EntryText(e) + "" + "," + "" == EntryText(e) + ",";
    Assoc(front, PORT + "\"", ",");
    assert PORT + "\"" + "," == PORT + "\",";
  }

  lemma PortBehind(text: string, front: string, more: string)
    requires NoP(front) && text == "{" + ((front + (PORT + "\",")) + more)
    ensures FirstAt(text, PORT) == Some(|front| + 1)
  {
    Assoc(front, PORT + "\",", more);
    Assoc("{", front, PORT + "\"," + more);
    Assoc(PORT, "\",", more);
    var t := PORT + ("\"," + more);
    assert text == ("{" + front) + t;
    assert text[|front| + 1..] == t;
    FindAt(text, PORT, |front| + 1);
  }

  /** For example an account called `airport`. */
  lemma Airport(port: int, requireNul: bool)
    requires port >= 1000
    ensures var text := Render(Obj([Member(ACCOUNT, Str("airport")), Member(PORT, Num(5.0))]), 0, true);
      Splice(text, port).Some? && ParseText(Splice(text, port).value, requireNul) == Rejected
  {
    hide Render, Splice, ParseText;
    var account, m := Member(ACCOUNT, Str("airport")), Member(PORT, Num(5.0));
    assert PrintableMember(account) && PrintableMember(m);
    AllMembers([account, m]);
    assert "air" + PORT == "airport" && [account] + [m] == [account, m];
    PortEndsValue(ACCOUNT, "air", [m], true, port, requireNul);
  }
}

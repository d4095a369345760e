/**
 What the printers write is a text of the grammar that denotes the value printed, so that parsing it gives the
 value back. `Layout` is the syntax tree of the printed text.
 */
module RoundTrip {
  import opened CText
  import opened HexDigits
  import opened Json
  import opened Numbers
  import opened Unicode
  import opened Parser
  import opened Grammar
  import opened Completeness

  function LayoutChar(c: char): Token
  {
    if !NeedsEscape(c) then Raw(c)
    else if c == '\\' || c == '"' then Short(c)
    else if c == '\U{8}' then Short('b')
    else if c == '\U{C}' then Short('f')
    else if c == '\n' then Short('n')
    else if c == '\r' then Short('r')
    else if c == '\t' then Short('t')
    else Hex("00" + [LOWER[c as int / 16], LOWER[c as int % 16]])
  }

  function LayoutString(s: string): (ts: seq<Token>) {
    if s == "" then [] else [LayoutChar(s[0])] + LayoutString(s[1..])
  }

  function LayoutNumber(n: int): Number {
    Number(n < 0, Decimal(if n < 0 then -n else n), "", NoExponent)
  }

  function Layout(v: Json, depth: nat, fmt: bool): Cst
    decreases v, 0
  {
    match v
    case Null => CNull
    case False => CFalse
    case True => CTrue
    case Num(n) => CNum(LayoutNumber(n.Floor))
    case Str(s) => CStr(LayoutString(s))
    case Arr(items) =>
      if items == [] then CNoItems("") else CArr(LayoutItems(items, depth + 1, fmt, ""))
    case Obj(members) =>
      if members == [] then CNoMembers(When(fmt, "\n" + Tabs(depth - 1)))
      else CObj(LayoutMembers(members, depth + 1, fmt))
  }

  /** `gap` is the white space before the first of the elements. */
  function LayoutItems(items: seq<Json>, depth: nat, fmt: bool, gap: string): (es: seq<Element>)
    ensures |es| == |items|
    decreases items, 0
  {
    if items == [] then []
    else [Element(gap, Layout(items[0], depth, fmt), "")] + LayoutItems(items[1..], depth, fmt, When(fmt, " "))
  }

  function LayoutMember(m: Member, depth: nat, fmt: bool, after: string): Entry
    decreases m, 1
  {
    Entry(When(fmt, "\n" + Tabs(depth)), LayoutString(m.key), "", When(fmt, "\t"), Layout(m.value, depth, fmt), after)
  }

  function LayoutMembers(members: seq<Member>, depth: nat, fmt: bool): (es: seq<Entry>)
    ensures |es| == |members|
    decreases members, 0
  {
    if members == [] then []
    else
      [LayoutMember(members[0], depth, fmt, When(fmt && |members| == 1, "\n" + Tabs(depth - 1)))]
      + LayoutMembers(members[1..], depth, fmt)
  }

  // ---------- the layout has the printed text ----------

  lemma {:induction false} LayoutStringText(s: string)
    ensures TokensText(LayoutString(s)) == EscapeText(s)
  {
    if s != "" {
      LayoutStringText(s[1..]);
      LayoutCharText(s[0]);
    }
  }

  lemma LayoutCharText(c: char)
    ensures TokenText(LayoutChar(c)) == EscapeChar(c)
  {
  }

  lemma LayoutNumberText(n: int)
    ensures NumberText(LayoutNumber(n)) == IntText(n)
  {
  }

  lemma {:induction false} LayoutText(v: Json, depth: nat, fmt: bool)
    ensures Text(Layout(v, depth, fmt)) == Render(v, depth, fmt)
    decreases v, 0
  {
    hide Tabs, IntText, EscapeText, LayoutString, LayoutNumber, NumberText, TokensText, LayoutItems, LayoutMembers;
    hide ElementsText, EntriesText, RenderItems, RenderMembers;
    match v
    case Num(n) => LayoutNumberText(n.Floor);
    case Str(s) => LayoutStringText(s);
    case Arr(items) =>
      if items != [] {
        LayoutItemsText(items, depth + 1, fmt, "");
        assert "" + RenderItems(items, depth + 1, fmt) == RenderItems(items, depth + 1, fmt);
      }
    case Obj(members) =>
      if members != [] {
        LayoutMembersText(members, depth + 1, fmt);
        Assoc("{", When(fmt, "\n"), RenderMembers(members, depth + 1, fmt));
      } else {
        Assoc("{", When(fmt, "\n" + Tabs(depth - 1)), "}");
      }
    case _ =>
  }

  lemma {:induction false} LayoutItemsText(items: seq<Json>, depth: nat, fmt: bool, gap: string)
    requires items != []
    ensures ElementsText(LayoutItems(items, depth, fmt, gap)) == gap + RenderItems(items, depth, fmt)
    decreases items, 0
  {
    LayoutText(items[0], depth, fmt);
    var es := LayoutItems(items, depth, fmt, gap);
    assert es[1..] == LayoutItems(items[1..], depth, fmt, When(fmt, " "));
    var x := Render(items[0], depth, fmt);
    assert gap + x + "" == gap + x;
    if |items| > 1 {
      LayoutItemsText(items[1..], depth, fmt, When(fmt, " "));
      var tail := RenderItems(items[1..], depth, fmt);
      Assoc(",", When(fmt, " "), tail);
      Assoc(gap, x, "," + When(fmt, " ") + tail);
    } else {
      Assoc(gap, x, "]");
    }
  }

  lemma {:induction false} LayoutMemberText(m: Member, depth: nat, fmt: bool, after: string)
    ensures EntryText(LayoutMember(m, depth, fmt, after)) == When(fmt, "\n") + RenderMember(m, depth, fmt)
    decreases m, 0
  {
    LayoutText(m.value, depth, fmt);
    LayoutStringText(m.key);
    var nl, tabs, k, gap, x := When(fmt, "\n"), When(fmt, Tabs(depth)), Quote(m.key), When(fmt, "\t"), Render(m.value, depth, fmt);
    assert When(fmt, "\n" + Tabs(depth)) == nl + tabs;
    assert nl + tabs + k + "" == nl + tabs + k;
    Regroup(nl, tabs, k, gap, x);
  }

  lemma Regroup(nl: string, tabs: string, k: string, gap: string, x: string)
    ensures nl + tabs + k + ":" + gap + x == nl + (tabs + k + ":" + gap + x)
  {
    Assoc(nl, tabs, k);
    Assoc(nl, tabs + k, ":");
    Assoc(nl, tabs + k + ":", gap);
    Assoc(nl, tabs + k + ":" + gap, x);
  }

  lemma {:induction false} LayoutMembersText(members: seq<Member>, depth: nat, fmt: bool)
    requires members != []
    ensures EntriesText(LayoutMembers(members, depth, fmt)) == When(fmt, "\n") + RenderMembers(members, depth, fmt)
    decreases members, 0
  {
    var es := LayoutMembers(members, depth, fmt);
    assert es[1..] == LayoutMembers(members[1..], depth, fmt);
    LayoutMemberText(members[0], depth, fmt, es[0].after);
    var nl, x := When(fmt, "\n"), RenderMember(members[0], depth, fmt);
    if |members| > 1 {
      LayoutMembersText(members[1..], depth, fmt);
      var tail := RenderMembers(members[1..], depth, fmt);
      assert nl + x + "" == nl + x;
      Assoc(",", nl, tail);
      Assoc(nl, x, "," + nl + tail);
    } else {
      var end := When(fmt, "\n" + Tabs(depth - 1));
      Assoc(nl + x, end, "}");
      Assoc(nl, x, end + "}");
    }
  }

  // ---------- the layout denotes the value printed ----------

  lemma LayoutCharValid(c: char)
    requires c != '\0'
    ensures ValidToken(LayoutChar(c)) && TokenBytes(LayoutChar(c)) == [c]
  {
    var t := LayoutChar(c);
    if t.Hex? {
      SmallHex(c as int);
    }
  }

  /** The four digits of a small number, by which it is printed and by which it is read. */
  lemma SmallHex(n: nat)
    requires n < 256
    ensures var h := "00" + [LOWER[n / 16], LOWER[n % 16]];
      IsHex4(h) && HexMagnitude(h) == n
  {
    var h := "00" + [LOWER[n / 16], LOWER[n % 16]];
    assert h == ['0', '0', LOWER[n / 16], LOWER[n % 16]];
    PlaceIs(h[0], 0);
    PlaceIs(h[1], 0);
    PlaceIs(h[2], n / 16);
    PlaceIs(h[3], n % 16);
    FourDigits(h);
  }

  lemma {:induction false} LayoutStringValid(s: string)
    requires NulFree(s)
    ensures ValidTokens(LayoutString(s)) && TokensBytes(LayoutString(s)) == s
  {
    hide ValidToken, TokenBytes, LayoutChar;
    if s != "" {
      LayoutCharValid(s[0]);
      LayoutStringValid(s[1..]);
      assert LayoutString(s)[1..] == LayoutString(s[1..]);
    }
  }

  lemma LayoutNumberValid(n: int)
    ensures ValidNumber(LayoutNumber(n)) && NumberValue(LayoutNumber(n)) == n as real
  {
    var m := if n < 0 then -n else n;
    DecimalMagnitude(m);
    assert Magnitude("") == 0 && Pow10(0) == 1.0;
    if m == 0 {
      assert Decimal(0) == [Digit(0)];
    }
  }

  lemma {:induction false} LayoutValid(v: Json, depth: nat, fmt: bool)
    requires Printable(v)
    ensures Valid(Layout(v, depth, fmt)) && Denote(Layout(v, depth, fmt)) == v
    decreases v, 0
  {
    match v
    case Num(n) => LayoutNumberValid(n.Floor);
    case Str(s) => LayoutStringValid(s);
    case Arr(items) =>
      if items != [] {
        LayoutItemsValid(items, depth + 1, fmt, "");
      }
    case Obj(members) =>
      if members != [] {
        LayoutMembersValid(members, depth + 1, fmt);
      } else {
        TabsAreWhite(depth - 1);
      }
    case _ =>
  }

  lemma {:induction false} TabsAreWhite(n: int)
    ensures White(Tabs(n)) && White("\n" + Tabs(n))
  {
    if n > 0 {
      TabsAreWhite(n - 1);
    }
  }

  lemma {:induction false} LayoutItemsValid(items: seq<Json>, depth: nat, fmt: bool, gap: string)
    requires PrintableItems(items) && White(gap)
    ensures ValidElements(LayoutItems(items, depth, fmt, gap))
    ensures DenoteElements(LayoutItems(items, depth, fmt, gap)) == items
    decreases items, 0
  {
    if items != [] {
      LayoutValid(items[0], depth, fmt);
      LayoutItemsValid(items[1..], depth, fmt, When(fmt, " "));
      assert LayoutItems(items, depth, fmt, gap)[1..] == LayoutItems(items[1..], depth, fmt, When(fmt, " "));
    }
  }

  lemma {:induction false} LayoutMemberValid(m: Member, depth: nat, fmt: bool, after: string)
    requires PrintableMember(m) && White(after)
    ensures ValidEntry(LayoutMember(m, depth, fmt, after))
    ensures DenoteEntry(LayoutMember(m, depth, fmt, after)) == m
    decreases m, 0
  {
    LayoutValid(m.value, depth, fmt);
    LayoutStringValid(m.key);
    TabsAreWhite(depth);
  }

  lemma {:induction false} LayoutMembersValid(members: seq<Member>, depth: nat, fmt: bool)
    requires PrintableMembers(members)
    ensures ValidEntries(LayoutMembers(members, depth, fmt))
    ensures DenoteEntries(LayoutMembers(members, depth, fmt)) == members
    decreases members, 0
  {
    if members != [] {
      TabsAreWhite(depth - 1);
      LayoutMemberValid(members[0], depth, fmt, When(fmt && |members| == 1, "\n" + Tabs(depth - 1)));
      LayoutMembersValid(members[1..], depth, fmt);
      assert LayoutMembers(members, depth, fmt)[1..] == LayoutMembers(members[1..], depth, fmt);
    }
  }

  // ---------- the printed literal is the shortest ----------

  lemma {:induction false} EscapeAppend(s: string, t: string)
    ensures EscapeText(s + t) == EscapeText(s) + EscapeText(t)
  {
    hide EscapeChar;
    if s == "" {
      assert s + t == t && "" + EscapeText(t) == EscapeText(t);
    } else {
      assert (s + t)[1..] == s[1..] + t;
      EscapeAppend(s[1..], t);
      Assoc(EscapeChar(s[0]), EscapeText(s[1..]), EscapeText(t));
    }
  }

  /** No literal of the grammar that denotes a string is shorter than the one printed for it. */
  lemma {:induction false} ShortestLiteral(ts: seq<Token>)
    requires ValidTokens(ts)
    ensures |Quote(TokensBytes(ts))| <= |StringText(ts)|
  {
    hide TokenBytes, TokenText, ValidToken, EscapeChar;
    if ts != [] {
      ShortestLiteral(ts[1..]);
      ShortestToken(ts[0]);
      EscapeAppend(TokenBytes(ts[0]), TokensBytes(ts[1..]));
    }
  }

  lemma ShortestToken(t: Token)
    requires ValidToken(t)
    ensures |EscapeText(TokenBytes(t))| <= |TokenText(t)|
  {
    hide HexMagnitude, AllHexDigits, FromSurrogates;
    match t
    case Raw(c) => EscapeOne(c);
    case Short(c) => EscapeOne(ShortMeaning(c));
    case Hex(h) => Utf8Escaped(HexMagnitude(h));
    case Surrogates(hi, lo) => Utf8Escaped(FromSurrogates(HexMagnitude(hi), HexMagnitude(lo)));
  }

  lemma EscapeOne(c: char)
    ensures EscapeText([c]) == EscapeChar(c)
  {
    assert [c][1..] == "";
    assert EscapeChar(c) + "" == EscapeChar(c);
  }

  lemma Utf8Escaped(cp: nat)
    requires cp < 0x11_0000
    ensures |EscapeText(Utf8(cp))| <= 6
  {
    if cp < 0x80 {
      EscapeOne(Byte(cp));
    } else {
      HighBytes(Utf8(cp));
    }
  }

  lemma {:induction false} HighBytes(s: string)
    requires forall i | 0 <= i < |s| :: s[i] as int >= 0x80
    ensures |EscapeText(s)| == |s|
  {
    if s != "" {
      HighBytes(s[1..]);
    }
  }

  /** Escapes are written in small letters and digits. */
  lemma SmallEscapes(c: char)
    requires NeedsEscape(c)
    ensures EscapeChar(c)[0] == '\\' && forall i | 0 <= i < |EscapeChar(c)| :: !('A' <= EscapeChar(c)[i] <= 'Z')
  {
    if c < ' ' {
      Digits(c as int / 16);
      Digits(c as int % 16);
    }
  }

  // ---------- printing and parsing ----------

  /** Parsing a printed value in front of any text gives the value back and stops where the value ends. */
  lemma PrintThenParse(v: Json, depth: nat, fmt: bool, rest: string)
    requires Printable(v)
    requires v.Num? ==> NumberEnds(rest)
    ensures ParseValue(Render(v, depth, fmt) + rest) == Parsed(v, rest)
  {
    LayoutText(v, depth, fmt);
    LayoutValid(v, depth, fmt);
    ParseValueComplete(Layout(v, depth, fmt), rest);
  }

  /** `cJSON_Parse` after `cJSON_Print` or `cJSON_PrintUnformatted`: the same value, the whole text read. */
  lemma PrintParseText(v: Json, fmt: bool, requireNul: bool)
    requires Printable(v)
    ensures ParseText(Render(v, 0, fmt), requireNul) == Parsed(v, "")
  {
    LayoutText(v, 0, fmt);
    LayoutValid(v, 0, fmt);
    ParseTextComplete("", Layout(v, 0, fmt), "", requireNul);
    assert "" + Render(v, 0, fmt) + "" == Render(v, 0, fmt);
  }

  /** Printing tells values apart. */
  lemma RenderInjective(v: Json, w: Json, fmt: bool, fmt': bool)
    requires Printable(v) && Printable(w)
    requires Render(v, 0, fmt) == Render(w, 0, fmt')
    ensures v == w
  {
    PrintParseText(v, fmt, true);
    PrintParseText(w, fmt', true);
  }
}

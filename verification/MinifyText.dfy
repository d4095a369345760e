/**
 What minifying does to a text of the grammar: it takes out exactly the white space between the tokens. So the
 meaning stays, and minifying the formatted print of a value gives its unformatted print.
 */
module MinifyText {
  import opened Options
  import opened CText
  import opened Json
  import opened Parser
  import opened Grammar
  import opened Completeness
  import opened RoundTrip
  import opened Minify

  /** The same tree without any white space. */
  function Strip(c: Cst): Cst
    decreases c, 0
  {
    match c
    case CNoItems(_) => CNoItems("")
    case CArr(es) => CArr(StripElements(es))
    case CNoMembers(_) => CNoMembers("")
    case CObj(es) => CObj(StripEntries(es))
    case _ => c
  }

  function StripElements(es: seq<Element>): (r: seq<Element>)
    ensures |r| == |es|
    decreases es, 0
  {
    if es == [] then [] else [Element("", Strip(es[0].value), "")] + StripElements(es[1..])
  }

  function StripEntry(e: Entry): Entry
    decreases e, 1
  {
    Entry("", e.key, "", "", Strip(e.value), "")
  }

  function StripEntries(es: seq<Entry>): (r: seq<Entry>)
    ensures |r| == |es|
    decreases es, 0
  {
    if es == [] then [] else [StripEntry(es[0])] + StripEntries(es[1..])
  }

  lemma {:induction false} StripDenotes(c: Cst)
    requires Valid(c)
    ensures Valid(Strip(c)) && Denote(Strip(c)) == Denote(c)
    decreases c, 0
  {
    match c
    case CArr(es) => StripElementsDenotes(es);
    case CObj(es) => StripEntriesDenotes(es);
    case _ =>
  }

  lemma {:induction false} StripElementsDenotes(es: seq<Element>)
    requires ValidElements(es)
    ensures ValidElements(StripElements(es)) && DenoteElements(StripElements(es)) == DenoteElements(es)
    decreases es, 0
  {
    if es != [] {
      StripDenotes(es[0].value);
      StripElementsDenotes(es[1..]);
      assert StripElements(es)[1..] == StripElements(es[1..]);
    }
  }

  lemma {:induction false} StripEntryDenotes(e: Entry)
    requires ValidEntry(e)
    ensures ValidEntry(StripEntry(e)) && DenoteEntry(StripEntry(e)) == DenoteEntry(e)
    decreases e, 1
  {
    StripDenotes(e.value);
  }

  lemma {:induction false} StripEntriesDenotes(es: seq<Entry>)
    requires ValidEntries(es)
    ensures ValidEntries(StripEntries(es)) && DenoteEntries(StripEntries(es)) == DenoteEntries(es)
    decreases es, 0
  {
    if es != [] {
      StripEntryDenotes(es[0]);
      StripEntriesDenotes(es[1..]);
      assert StripEntries(es)[1..] == StripEntries(es[1..]);
    }
  }

  // ---------- pieces of text ----------

  /** `out` is what minifying makes of the text `s`, whatever text comes after it. */
  ghost predicate Turns(s: string, out: string) {
    forall rest :: Minified(s + rest) == Prepend(out, Minified(rest))
  }

  lemma TurnsAt(s: string, out: string, rest: string)
    requires Turns(s, out)
    ensures Minified(s + rest) == Prepend(out, Minified(rest))
  {
  }

  lemma TurnsNothing()
    ensures Turns("", "")
  {
    forall rest: string
      ensures Minified("" + rest) == Prepend("", Minified(rest))
    {
      assert "" + rest == rest;
      if Minified(rest).Some? {
        assert "" + Minified(rest).value == Minified(rest).value;
      }
    }
  }

  lemma TurnsBoth(s: string, out: string, s': string, out': string)
    requires Turns(s, out) && Turns(s', out')
    ensures Turns(s + s', out + out')
  {
    forall rest: string
      ensures Minified(s + s' + rest) == Prepend(out + out', Minified(rest))
    {
      Assoc(s, s', rest);
      TurnsAt(s, out, s' + rest);
      TurnsAt(s', out', rest);
      PrependPrepend(out, out', Minified(rest));
    }
  }

  predicate Plain(c: char) {
    c !in " \t\r\n/\""
  }

  lemma TurnsChar(c: char)
    requires Plain(c)
    ensures Turns([c], [c])
  {
    forall rest: string
      ensures Minified([c] + rest) == Prepend([c], Minified(rest))
    {
      assert ([c] + rest)[1..] == rest;
    }
  }

  lemma {:induction false} TurnsPlain(s: string)
    requires forall i | 0 <= i < |s| :: Plain(s[i])
    ensures Turns(s, s)
  {
    if s == "" {
      TurnsNothing();
    } else {
      TurnsChar(s[0]);
      TurnsPlain(s[1..]);
      TurnsBoth([s[0]], [s[0]], s[1..], s[1..]);
      assert [s[0]] + s[1..] == s;
    }
  }

  lemma {:induction false} TurnsWhite(ws: string)
    requires White(ws)
    ensures Turns(ws, "")
  {
    TurnsNothing();
    if ws != "" {
      TurnsWhite(ws[1..]);
      TurnsSpace(ws[0]);
      TurnsBoth([ws[0]], "", ws[1..], "");
      assert [ws[0]] + ws[1..] == ws && "" + "" == "";
    }
  }

  lemma TurnsSpace(c: char)
    requires c in " \t\r\n"
    ensures Turns([c], "")
  {
    forall rest: string
      ensures Minified([c] + rest) == Prepend("", Minified(rest))
    {
      assert ([c] + rest)[1..] == rest;
      TurnsNothing();
      TurnsAt("", "", rest);
      assert "" + rest == rest;
    }
  }

  // ---------- tokens ----------

  lemma LiteralChar(c: char, rest: string)
    requires c != '"' && c != '\\'
    ensures Literal([c] + rest) == After([c], Literal(rest))
  {
    var s := [c] + rest;
    assert s[1..] == rest && s[..1] == [c];
  }

  lemma LiteralPair(c: char, rest: string)
    ensures Literal(['\\', c] + rest) == After(['\\', c], Literal(rest))
  {
    var s := ['\\', c] + rest;
    assert s[2..] == rest && s[..2] == ['\\', c];
  }

  lemma AfterAfter(a: string, b: string, o: Option<(string, string)>)
    ensures After(a, After(b, o)) == After(a + b, o)
  {
    if o.Some? {
      Assoc(a, b, o.value.0);
    }
  }

  lemma LiteralHex(h: string, rest: string)
    requires IsHex4(h)
    ensures Literal("\\u" + h + rest) == After("\\u" + h, Literal(rest))
  {
    hide Literal, After;
    var a, b, c, d := [h[0]], [h[1]], [h[2]], [h[3]];
    assert h == a + (b + (c + d));
    Assoc("\\u", h, rest);
    Assoc(a, b + (c + d), rest);
    Assoc(b, c + d, rest);
    Assoc(c, d, rest);
    LiteralPair('u', a + (b + (c + (d + rest))));
    LiteralChar(h[0], b + (c + (d + rest)));
    LiteralChar(h[1], c + (d + rest));
    LiteralChar(h[2], d + rest);
    LiteralChar(h[3], rest);
    AfterAfter(c, d, Literal(rest));
    AfterAfter(b, c + d, Literal(rest));
    AfterAfter(a, b + (c + d), Literal(rest));
    AfterAfter("\\u", a + (b + (c + d)), Literal(rest));
  }

  lemma LiteralToken(t: Token, rest: string)
    requires ValidToken(t)
    ensures Literal(TokenText(t) + rest) == After(TokenText(t), Literal(rest))
  {
    match t
    case Raw(c) => LiteralChar(c, rest);
    case Short(c) => LiteralPair(c, rest);
    case Hex(h) => LiteralHex(h, rest);
    case Surrogates(hi, lo) =>
      var a, b := "\\u" + hi, "\\u" + lo;
      assert TokenText(t) == a + b;
      Assoc(a, b, rest);
      LiteralHex(hi, b + rest);
      LiteralHex(lo, rest);
      AfterAfter(a, b, Literal(rest));
  }

  /** Escaped quotes and backslashes included, a literal is taken up to its closing quote. */
  lemma {:induction false} LiteralTokens(ts: seq<Token>, rest: string)
    requires ValidTokens(ts)
    ensures Literal(TokensText(ts) + ("\"" + rest)) == Some((TokensText(ts) + "\"", rest))
  {
    if ts == [] {
      var s := "\"" + rest;
      assert "" + s == s && s[1..] == rest && "" + "\"" == "\"";
    } else {
      var x, y := TokenText(ts[0]), TokensText(ts[1..]);
      Assoc(x, y, "\"" + rest);
      LiteralTokens(ts[1..], rest);
      LiteralToken(ts[0], y + ("\"" + rest));
      Assoc(x, y, "\"");
    }
  }

  lemma TurnsString(ts: seq<Token>)
    requires ValidTokens(ts)
    ensures Turns(StringText(ts), StringText(ts))
  {
    forall rest: string
      ensures Minified(StringText(ts) + rest) == Prepend(StringText(ts), Minified(rest))
    {
      var t := TokensText(ts) + ("\"" + rest);
      LiteralTokens(ts, rest);
      hide Literal, TokensText;
      Assoc("\"" + TokensText(ts), "\"", rest);
      Assoc("\"", TokensText(ts), "\"" + rest);
      assert StringText(ts) + rest == "\"" + t;
      QuotedText(t);
      Assoc("\"", TokensText(ts), "\"");
    }
  }

  lemma QuotedText(t: string)
    requires Literal(t).Some?
    ensures Minified("\"" + t) == Prepend("\"" + Literal(t).value.0, Minified(Literal(t).value.1))
  {
    hide Literal;
    assert ("\"" + t)[1..] == t;
  }

  lemma TurnsNumber(n: Number)
    requires ValidNumber(n)
    ensures Turns(NumberText(n), NumberText(n))
  {
    forall i | 0 <= i < |NumberText(n)|
      ensures Plain(NumberText(n)[i])
    {
      PlainNumber(n, i);
    }
    TurnsPlain(NumberText(n));
  }

  lemma PlainNumber(n: Number, i: nat)
    requires ValidNumber(n) && i < |NumberText(n)|
    ensures Plain(NumberText(n)[i])
  {
    var m, w, f, x := When(n.minus, "-"), n.whole, When(n.frac != "", "." + n.frac), ExponentText(n.exp);
    if i < |m + w| {
      assert NumberText(n)[i] == (m + w)[i];
    } else if i < |m + w + f| {
      assert NumberText(n)[i] == f[i - |m + w|];
    } else {
      PlainExponent(n.exp, i - |m + w + f|);
    }
  }

  lemma PlainExponent(e: Exponent, i: nat)
    requires ValidExponent(e) && i < |ExponentText(e)|
    ensures Plain(ExponentText(e)[i])
  {
    assert e.sign != "" ==> e.sign[0] in "+-";
  }

  // ---------- values ----------

  lemma {:induction false} TurnsValue(c: Cst)
    requires Valid(c)
    ensures Turns(Text(c), Text(Strip(c)))
    decreases c, 0
  {
    hide Turns;
    match c
    case CNull => TurnsPlain("null");
    case CFalse => TurnsPlain("false");
    case CTrue => TurnsPlain("true");
    case CNum(n) => TurnsNumber(n);
    case CStr(ts) => TurnsString(ts);
    case CNoItems(ws) => TurnsEnclosed('[', ws, ']');
    case CNoMembers(ws) => TurnsEnclosed('{', ws, '}');
    case CArr(es) =>
      TurnsElements(es);
      TurnsChar('[');
      TurnsBoth("[", "[", ElementsText(es), ElementsText(StripElements(es)));
    case CObj(es) =>
      TurnsEntries(es);
      TurnsChar('{');
      TurnsBoth("{", "{", EntriesText(es), EntriesText(StripEntries(es)));
  }

  lemma TurnsEnclosed(open: char, ws: string, close: char)
    requires Plain(open) && White(ws) && Plain(close)
    ensures Turns([open] + ws + [close], [open] + "" + [close])
  {
    hide Turns;
    TurnsChar(open);
    TurnsWhite(ws);
    TurnsChar(close);
    TurnsBoth([open], [open], ws, "");
    TurnsBoth([open] + ws, [open] + "", [close], [close]);
  }

  lemma {:induction false} TurnsElements(es: seq<Element>)
    requires es != [] && ValidElements(es)
    ensures Turns(ElementsText(es), ElementsText(StripElements(es)))
    decreases es, 1
  {
    hide Turns;
    var e, s := es[0], Strip(es[0].value);
    TurnsWhite(e.before);
    TurnsValue(e.value);
    TurnsWhite(e.after);
    TurnsBoth(e.before, "", Text(e.value), Text(s));
    TurnsBoth(e.before + Text(e.value), "" + Text(s), e.after, "");
    var last := if |es| == 1 then "]" else "," + ElementsText(es[1..]);
    var last' := if |es| == 1 then "]" else "," + ElementsText(StripElements(es[1..]));
    assert Turns(last, last') by {
      if |es| == 1 {
        TurnsChar(']');
      } else {
        TurnsElements(es[1..]);
        TurnsChar(',');
        TurnsBoth(",", ",", ElementsText(es[1..]), ElementsText(StripElements(es[1..])));
      }
    }
    TurnsBoth(e.before + Text(e.value) + e.after, "" + Text(s) + "", last, last');
    assert StripElements(es)[1..] == StripElements(es[1..]);
    assert ElementsText(StripElements(es)) == "" + Text(s) + "" + last';
  }

  lemma {:induction false} TurnsEntry(e: Entry)
    requires ValidEntry(e)
    ensures Turns(EntryText(e), EntryText(StripEntry(e)))
    decreases e, 1
  {
    hide Turns;
    var k, v, v' := StringText(e.key), Text(e.value), Text(Strip(e.value));
    TurnsWhite(e.before);
    TurnsString(e.key);
    TurnsWhite(e.beforeColon);
    TurnsChar(':');
    TurnsWhite(e.afterColon);
    TurnsValue(e.value);
    TurnsBoth(e.before, "", k, k);
    TurnsBoth(e.before + k, "" + k, e.beforeColon, "");
    TurnsBoth(e.before + k + e.beforeColon, "" + k + "", ":", ":");
    TurnsBoth(e.before + k + e.beforeColon + ":", "" + k + "" + ":", e.afterColon, "");
    TurnsBoth(e.before + k + e.beforeColon + ":" + e.afterColon, "" + k + "" + ":" + "", v, v');
  }

  lemma {:induction false} TurnsEntries(es: seq<Entry>)
    requires es != [] && ValidEntries(es)
    ensures Turns(EntriesText(es), EntriesText(StripEntries(es)))
    decreases es, 1
  {
    hide Turns;
    var e := es[0];
    TurnsEntry(e);
    TurnsWhite(e.after);
    var x, x' := EntryText(e), EntryText(StripEntry(e));
    TurnsBoth(x, x', e.after, "");
    var last := if |es| == 1 then "}" else "," + EntriesText(es[1..]);
    var last' := if |es| == 1 then "}" else "," + EntriesText(StripEntries(es[1..]));
    assert Turns(last, last') by {
      if |es| == 1 {
        TurnsChar('}');
      } else {
        TurnsEntries(es[1..]);
        TurnsChar(',');
        TurnsBoth(",", ",", EntriesText(es[1..]), EntriesText(StripEntries(es[1..])));
      }
    }
    TurnsBoth(x + e.after, x' + "", last, last');
    assert StripEntries(es)[1..] == StripEntries(es[1..]);
    assert EntriesText(StripEntries(es)) == x' + "" + last';
  }

  // ---------- main results ----------

  /** Minifying a JSON text takes out the white space between its tokens and nothing else. */
  lemma MinifiesText(before: string, c: Cst, after: string)
    requires White(before) && Valid(c) && White(after)
    ensures Minified(before + Text(c) + after) == Some(Text(Strip(c)))
  {
    var s := before + Text(c) + after;
    TurnsWhite(before);
    TurnsValue(c);
    TurnsWhite(after);
    TurnsBoth(before, "", Text(c), Text(Strip(c)));
    TurnsBoth(before + Text(c), "" + Text(Strip(c)), after, "");
    TurnsAt(s, "" + Text(Strip(c)) + "", "");
    assert s + "" == s && "" + Text(Strip(c)) + "" + "" == Text(Strip(c));
  }

  /** So it does not change what the text means. */
  lemma MinifiedMeansTheSame(before: string, c: Cst, after: string)
    requires White(before) && Valid(c) && White(after)
    ensures Minified(before + Text(c) + after).Some?
    ensures ParseText(Minified(before + Text(c) + after).value, true) == Parsed(Denote(c), "")
  {
    MinifiesText(before, c, after);
    StripDenotes(c);
    ParseTextComplete("", Strip(c), "", true);
    assert "" + Text(Strip(c)) + "" == Text(Strip(c));
  }

  /** Texts that differ only in the white space between their tokens parse to the same value. */
  lemma WhiteSpaceIrrelevant(before: string, c: Cst, after: string, before': string, d: Cst, after': string)
    requires White(before) && Valid(c) && White(after) && White(before') && Valid(d) && White(after')
    requires Strip(c) == Strip(d)
    ensures ParseText(before + Text(c) + after, true) == ParseText(before' + Text(d) + after', true)
    ensures ParseText(before + Text(c) + after, true).Parsed?
  {
    hide ParseText;
    StripDenotes(c);
    StripDenotes(d);
    ParseTextComplete(before, c, after, true);
    ParseTextComplete(before', d, after', true);
  }

  lemma {:induction false} StripLayout(v: Json, depth: nat, depth': nat)
    ensures Strip(Layout(v, depth, true)) == Layout(v, depth', false)
    decreases v, 0
  {
    match v
    case Arr(items) => StripLayoutItems(items, depth + 1, depth' + 1, "");
    case Obj(members) => StripLayoutMembers(members, depth + 1, depth' + 1);
    case _ =>
  }

  lemma {:induction false} StripLayoutItems(items: seq<Json>, depth: nat, depth': nat, gap: string)
    ensures StripElements(LayoutItems(items, depth, true, gap)) == LayoutItems(items, depth', false, "")
    decreases items, 0
  {
    if items != [] {
      StripLayout(items[0], depth, depth');
      StripLayoutItems(items[1..], depth, depth', " ");
      assert LayoutItems(items, depth, true, gap)[1..] == LayoutItems(items[1..], depth, true, " ");
    }
  }

  lemma {:induction false} StripLayoutMembers(members: seq<Member>, depth: nat, depth': nat)
    ensures StripEntries(LayoutMembers(members, depth, true)) == LayoutMembers(members, depth', false)
    decreases members, 0
  {
    if members != [] {
      StripLayout(members[0].value, depth, depth');
      StripLayoutMembers(members[1..], depth, depth');
      assert LayoutMembers(members, depth, true)[1..] == LayoutMembers(members[1..], depth, true);
    }
  }

  /** Minifying is unformatting: `cJSON_Minify` turns the text of `cJSON_Print` into that of `cJSON_PrintUnformatted`. */
  lemma MinifyIsUnformatting(v: Json)
    requires Printable(v)
    ensures Minified(Render(v, 0, true)) == Some(Render(v, 0, false))
  {
    LayoutText(v, 0, true);
    LayoutText(v, 0, false);
    LayoutValid(v, 0, true);
    StripLayout(v, 0, 0);
    MinifiesText("", Layout(v, 0, true), "");
    assert "" + Render(v, 0, true) + "" == Render(v, 0, true);
  }

  /** What is minified already stays as it is. */
  lemma MinifyTwice(before: string, c: Cst, after: string)
    requires White(before) && Valid(c) && White(after)
    ensures Minified(before + Text(c) + after).Some?
    ensures var m := Minified(before + Text(c) + after).value; Minified(m) == Some(m)
  {
    MinifiesText(before, c, after);
    StripDenotes(c);
    MinifiesText("", Strip(c), "");
    StripStrip(c);
    assert "" + Text(Strip(c)) + "" == Text(Strip(c));
  }

  lemma {:induction false} StripStrip(c: Cst)
    ensures Strip(Strip(c)) == Strip(c)
    decreases c, 0
  {
    match c
    case CArr(es) => StripStripElements(es);
    case CObj(es) => StripStripEntries(es);
    case _ =>
  }

  lemma {:induction false} StripStripElements(es: seq<Element>)
    ensures StripElements(StripElements(es)) == StripElements(es)
    decreases es, 0
  {
    if es != [] {
      StripStrip(es[0].value);
      StripStripElements(es[1..]);
      assert StripElements(es)[1..] == StripElements(es[1..]);
    }
  }

  lemma {:induction false} StripStripEntries(es: seq<Entry>)
    ensures StripEntries(StripEntries(es)) == StripEntries(es)
    decreases es, 0
  {
    if es != [] {
      StripStrip(es[0].value);
      StripStripEntries(es[1..]);
      assert StripEntries(es)[1..] == StripEntries(es[1..]);
    }
  }

  // ---------- comments ----------

  /** A comment up to the end of its line goes, and the line break with it. */
  lemma LineCommentGoes(c: string, rest: string)
    requires forall i | 0 <= i < |c| :: c[i] != '\n'
    ensures Minified("//" + c + ("\n" + rest)) == Minified(rest)
  {
    var after := "\n" + rest;
    var s := "//" + c + after;
    LineSkipped("//" + c, after);
    assert s[0] == '/' && At(s, 1) == '/' && after[1..] == rest;
    assert Minified(after) == Minified(after[1..]);
  }

  lemma {:induction false} LineSkipped(c: string, after: string)
    requires (forall i | 0 <= i < |c| :: c[i] != '\n') && At(after, 0) == '\n'
    ensures SkipLine(c + after) == after
  {
    if c == "" {
      assert c + after == after;
    } else {
      assert (c + after)[1..] == c[1..] + after;
      LineSkipped(c[1..], after);
    }
  }

  /** A row of characters in which no asterisk is followed by a slash. */
  predicate StaysOpen(b: string) {
    forall i | 0 < i < |b| :: !(b[i - 1] == '*' && b[i] == '/')
  }

  /** A comment goes, up to the first asterisk and slash; the asterisk that opens it counts. */
  lemma BlockCommentGoes(c: string, rest: string)
    requires StaysOpen("*" + c)
    ensures Minified("/" + ("*" + c + ("*/" + rest))) == Minified(rest)
  {
    var b := "*" + c;
    var t := b + ("*/" + rest);
    var s := "/" + t;
    BlockSkipped(b, rest);
    assert s[0] == '/' && At(s, 1) == '*' && s[1..] == t;
    assert SkipBlock(s) == SkipBlock(t);
  }

  lemma {:induction false} BlockSkipped(b: string, rest: string)
    requires StaysOpen(b)
    ensures SkipBlock(b + ("*/" + rest)) == Some(rest)
  {
    var t := b + ("*/" + rest);
    if b == "" {
      assert t == "*/" + rest && t[2..] == rest;
    } else {
      assert t[1..] == b[1..] + ("*/" + rest);
      assert At(t, 1) == if |b| > 1 then b[1] else '*';
      assert forall i | 0 < i < |b[1..]| :: b[1..][i] == b[i + 1] && b[1..][i - 1] == b[i];
      BlockSkipped(b[1..], rest);
    }
  }

  /** So an asterisk between two slashes is a whole comment. */
  lemma ShortComment(rest: string)
    ensures Minified("/*/" + rest) == Minified(rest)
  {
    var s, t := "/*/" + rest, "*/" + rest;
    assert s[0] == '/' && At(s, 1) == '*' && s[1..] == t;
    assert t[0] == '*' && At(t, 1) == '/' && t[2..] == rest;
    assert SkipBlock(t) == Some(rest) && SkipBlock(s) == SkipBlock(t);
  }
}

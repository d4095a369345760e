/** The parser accepts every text of the grammar and returns the value that the text denotes. */
module Completeness {
  import opened Options
  import opened CText
  import opened HexDigits
  import opened Json
  import opened Numbers
  import opened Unicode
  import opened Parser
  import opened Grammar

  // ---------- strings ----------

  /** One token is one step of the second pass. */
  lemma EscapeReads(t: Token, rest: string)
    requires ValidToken(t) && !t.Raw?
    ensures Escape(TokenText(t) + rest) == (TokenBytes(t), |TokenText(t)|)
  {
    hide HexMagnitude, AllHexDigits, Utf8, FromSurrogates, IsScalar, ParseHex4;
    match t
    case Short(c) => assert At(TokenText(t) + rest, 1) == c;
    case Hex(h) => HexReads(h, rest);
    case Surrogates(hi, lo) => SurrogatesRead(hi, lo, rest);
  }

  lemma HexReads(h: string, rest: string)
    requires ValidToken(Hex(h))
    ensures Escape("\\u" + h + rest) == (Utf8(HexMagnitude(h)), 6)
  {
    hide HexMagnitude, AllHexDigits, Utf8, FromSurrogates, ParseHex4;
    var s := "\\u" + h + rest;
    assert At(s, 1) == 'u' && s[2..6] == h;
    ParseHex4IsMagnitude(s, 2);
  }

  lemma SurrogatesRead(hi: string, lo: string, rest: string)
    requires ValidToken(Surrogates(hi, lo))
    ensures Escape("\\u" + hi + "\\u" + lo + rest)
         == (Utf8(FromSurrogates(HexMagnitude(hi), HexMagnitude(lo))), 12)
  {
    hide HexMagnitude, AllHexDigits, Utf8, FromSurrogates, ParseHex4;
    var s := "\\u" + hi + "\\u" + lo + rest;
    assert At(s, 1) == 'u' && At(s, 6) == '\\' && At(s, 7) == 'u';
    assert s[2..6] == hi && s[8..12] == lo;
    ParseHex4IsMagnitude(s, 2);
    ParseHex4IsMagnitude(s, 8);
  }

  lemma TokenStarts(t: Token, rest: string)
    requires ValidToken(t)
    ensures |TokenText(t)| > 0
    ensures (TokenText(t) + rest)[0] == if t.Raw? then t.c else '\\'
    ensures t.Raw? ==> TokenText(t) + rest != "" && TokenText(t)[0] !in "\0\"\\"
  {
  }

  /** The first pass allows at least as many bytes as the second pass writes, whatever the tokens. */
  lemma {:induction false} ScanSuffices(ts: seq<Token>, rest: string)
    requires ValidTokens(ts)
    ensures ScanLength(TokensText(ts) + "\"" + rest).Some?
    ensures ScanLength(TokensText(ts) + "\"" + rest).value >= |TokensBytes(ts)|
  {
    if ts == [] {
      assert TokensText(ts) + "\"" + rest == "\"" + rest;
    } else {
      var tail := TokensText(ts[1..]) + "\"" + rest;
      assert TokensText(ts) + "\"" + rest == TokenText(ts[0]) + tail;
      ScanSuffices(ts[1..], rest);
      ScanToken(ts[0], tail);
    }
  }

  lemma ScanToken(t: Token, tail: string)
    requires ValidToken(t) && ScanLength(tail).Some?
    ensures ScanLength(TokenText(t) + tail).Some?
    ensures ScanLength(TokenText(t) + tail).value >= |TokenBytes(t)| + ScanLength(tail).value
  {
    match t
    case Raw(c) =>
      assert ([c] + tail)[1..] == tail;
    case Short(c) => ScanEscape(c, tail);
    case Hex(h) =>
      ScanUnicode(h, tail);
    case Surrogates(hi, lo) =>
      ScanUnicode(lo, tail);
      ScanUnicode(hi, "\\u" + lo + tail);
      Assoc("\\u" + hi, "\\u" + lo, tail);
      Assoc("\\u" + hi, "\\u", lo);
  }

  lemma ScanEscape(c: char, tail: string)
    requires ScanLength(tail).Some?
    ensures ScanLength(['\\', c] + tail) == Some(ScanLength(tail).value + 1)
  {
    assert (['\\', c] + tail)[2..] == tail;
  }

  lemma ScanUnicode(h: string, tail: string)
    requires IsHex4(h) && ScanLength(tail).Some?
    ensures ScanLength("\\u" + h + tail) == Some(ScanLength(tail).value + 5)
  {
    hide ScanLength;
    ScanHex4(h + tail, h, tail);
    ScanEscape('u', h + tail);
    assert "\\u" + h + tail == ['\\', 'u'] + (h + tail);
  }

  lemma ScanHexDigit(c: char, tail: string)
    requires IsHexDigit(c) && ScanLength(tail).Some?
    ensures ScanLength([c] + tail) == Some(ScanLength(tail).value + 1)
  {
    Digits(Place(c));
    assert ([c] + tail)[1..] == tail;
  }

  lemma ScanHex4(s: string, h: string, tail: string)
    requires IsHex4(h) && s == h + tail && ScanLength(tail).Some?
    ensures ScanLength(s) == Some(ScanLength(tail).value + 4)
  {
    hide ScanLength, IsHexDigit;
    var s3 := [h[3]] + tail;
    var s2 := [h[2]] + s3;
    var s1 := [h[1]] + s2;
    ScanHexDigit(h[3], tail);
    ScanHexDigit(h[2], s3);
    ScanHexDigit(h[1], s2);
    ScanHexDigit(h[0], s1);
    assert s == [h[0]] + s1;
  }

  lemma UnescapeToken(t: Token, tail: string, out: string, len: nat)
    requires ValidToken(t) && |out| <= len
    ensures Unescape(TokenText(t) + tail, out, len) == Unescape(tail, out + TokenBytes(t), len)
  {
    var s := TokenText(t) + tail;
    TokenStarts(t, tail);
    assert s[|TokenText(t)|..] == tail;
    if !t.Raw? {
      EscapeReads(t, tail);
    }
  }

  lemma {:induction false} UnescapeReads(ts: seq<Token>, rest: string, out: string, len: nat)
    requires ValidTokens(ts) && |out| + |TokensBytes(ts)| <= len
    ensures Unescape(TokensText(ts) + "\"" + rest, out, len) == Parsed(out + TokensBytes(ts), rest)
    decreases |ts|
  {
    if ts == [] {
      var s := "\"" + rest;
      assert TokensText(ts) + "\"" + rest == s && s[1..] == rest;
      assert out + TokensBytes(ts) == out;
    } else {
      var tail := TokensText(ts[1..]) + "\"" + rest;
      assert TokensText(ts) + "\"" + rest == TokenText(ts[0]) + tail;
      UnescapeToken(ts[0], tail, out, len);
      UnescapeReads(ts[1..], rest, out + TokenBytes(ts[0]), len);
      Assoc(out, TokenBytes(ts[0]), TokensBytes(ts[1..]));
    }
  }

  lemma ParseStringComplete(ts: seq<Token>, rest: string)
    requires ValidTokens(ts)
    ensures ParseString(StringText(ts) + rest) == Parsed(TokensBytes(ts), rest)
  {
    var s := StringText(ts) + rest;
    assert s[1..] == TokensText(ts) + "\"" + rest;
    ScanSuffices(ts, rest);
    UnescapeReads(ts, rest, "", ScanLength(s[1..]).value);
    assert "" + TokensBytes(ts) == TokensBytes(ts);
  }

  // ---------- numbers ----------

  /** The text after a number token must not continue it. */
  predicate NumberEnds(rest: string) {
    !IsDigit(At(rest, 0)) && At(rest, 0) !in ".eE"
  }

  lemma ZeroMagnitude()
    ensures Magnitude("0") == 0
  {
    assert "0"[..0] == "";
  }

  lemma WholeReads(whole: string, rest: string)
    requires whole != "" && AllDigits(whole) && (whole[0] == '0' ==> |whole| == 1)
    requires !IsDigit(At(rest, 0))
    ensures var s := whole + rest;
      var t := if At(s, 0) == '0' then s[1..] else s;
      (if '1' <= At(t, 0) <= '9' then Accumulate(0, t) else (0, t)) == (Magnitude(whole), rest)
  {
    hide Magnitude, Accumulate, Exp10, AllDigits;
    DigitAt(whole);
    var s := whole + rest;
    assert At(s, 0) == whole[0];
    if whole[0] == '0' {
      assert s[1..] == rest;
      assert whole == "0";
      ZeroMagnitude();
    } else {
      AccumulateReads(0, whole, rest);
    }
  }

  lemma IntegerReads(whole: string, rest: string)
    requires whole != "" && AllDigits(whole) && (whole[0] == '0' ==> |whole| == 1)
    requires !IsDigit(At(rest, 0)) && At(rest, 0) != '.'
    ensures ParseMantissa(whole + rest) == (Magnitude(whole), 0, rest)
  {
    hide Magnitude, Accumulate, AllDigits;
    WholeReads(whole, rest);
  }

  lemma FractionReads(whole: string, frac: string, rest: string)
    requires whole != "" && AllDigits(whole) && (whole[0] == '0' ==> |whole| == 1)
    requires frac != "" && AllDigits(frac) && !IsDigit(At(rest, 0))
    ensures ParseMantissa(whole + ("." + (frac + rest)))
         == (Magnitude(whole) * Exp10(|frac|) + Magnitude(frac), -|frac|, rest)
  {
    hide Magnitude, Exp10, Accumulate;
    var v := frac + rest;
    var u := "." + v;
    assert u[1..] == v;
    assert At(u, 1) == frac[0];
    WholeReads(whole, u);
    AccumulateReads(Magnitude(whole), frac, rest);
  }

  lemma MantissaReads(n: Number, rest: string)
    requires ValidNumber(n) && !IsDigit(At(rest, 0)) && At(rest, 0) != '.'
    ensures ParseMantissa(n.whole + When(n.frac != "", "." + n.frac) + rest)
         == (Magnitude(n.whole) * Exp10(|n.frac|) + Magnitude(n.frac), -|n.frac|, rest)
  {
    hide ParseMantissa;
    if n.frac == "" {
      assert n.whole + "" + rest == n.whole + rest;
      IntegerReads(n.whole, rest);
    } else {
      hide Exp10, Magnitude;
      assert n.whole + ("." + n.frac) + rest == n.whole + ("." + (n.frac + rest));
      FractionReads(n.whole, n.frac, rest);
    }
  }

  lemma SignReads(sign: string, ds: string, rest: string)
    requires sign in ["", "+", "-"] && ds != "" && AllDigits(ds)
    ensures var t := sign + (ds + rest);
      && (At(t, 0) == '-' <==> sign == "-")
      && (if At(t, 0) == '-' || At(t, 0) == '+' then t[1..] else t) == ds + rest
  {
    var t := sign + (ds + rest);
    if sign == "" {
      assert t == ds + rest && At(t, 0) == ds[0];
    } else {
      assert t[1..] == ds + rest;
    }
  }

  lemma ExponentReads(e: Exponent, rest: string)
    requires ValidExponent(e) && NumberEnds(rest)
    ensures ParseExponent(ExponentText(e) + rest) == (ExponentValue(e), rest)
  {
    hide Magnitude, Exp10, Accumulate;
    if e.NoExponent? {
      assert ExponentText(e) + rest == rest;
    } else {
      var t := e.sign + (e.digits + rest);
      var s := [e.letter] + t;
      assert ExponentText(e) + rest == s && s[1..] == t;
      SignReads(e.sign, e.digits, rest);
      AccumulateReads(0, e.digits, rest);
    }
  }

  lemma ScaledIdentity(sign: real, w: real, f: real, p: real, q: real, r: real)
    requires p * q == 1.0
    ensures sign * (w * q + f) * (p * r) == sign * (w + f * p) * r
  {
    assert (w * q + f) * p == w * (p * q) + f * p;
    assert sign * (w * q + f) * (p * r) == sign * ((w * q + f) * p) * r;
  }

  lemma AsReals(w: nat, q: nat, f: nat)
    ensures (w * q + f) as real == w as real * q as real + f as real
  {
  }

  lemma ScaledValue(sign: real, whole: nat, frac: nat, k: nat, e: int)
    ensures sign * (whole * Exp10(k) + frac) as real * Pow10(e - k)
         == sign * (whole as real + frac as real * Pow10(-(k as int))) * Pow10(e)
  {
    var down := -(k as int);
    Inverse(down, k);
    hide Pow10, Exp10;
    Pow10Add(down, e);
    assert e - k == down + e;
    AsReals(whole, Exp10(k), frac);
    ScaledIdentity(sign, whole as real, frac as real, Pow10(down), Exp10(k) as real, Pow10(e));
  }

  lemma Inverse(down: int, k: nat)
    requires down == -(k as int)
    ensures Pow10(down) * Exp10(k) as real == 1.0
  {
    Pow10Add(down, k);
    Exp10IsPow10(k);
  }

  lemma ParseNumberComplete(n: Number, rest: string)
    requires ValidNumber(n) && NumberEnds(rest)
    ensures ParseNumber(NumberText(n) + rest).1 == rest
    ensures ParseNumber(NumberText(n) + rest).0.Value() == NumberValue(n)
  {
    hide Magnitude, Exp10, Pow10, ParseMantissa, ParseExponent, Accumulate, ExponentValue, ExponentText;
    var s := NumberText(n) + rest;
    var tail := ExponentText(n.exp) + rest;
    SplitSign(n, tail, rest);
    TailStarts(n.exp, rest);
    MantissaReads(n, tail);
    ExponentReads(n.exp, rest);
    ScaledValue(if n.minus then -1.0 else 1.0, Magnitude(n.whole), Magnitude(n.frac), |n.frac|, ExponentValue(n.exp));
  }

  lemma SplitSign(n: Number, tail: string, rest: string)
    requires ValidNumber(n) && tail == ExponentText(n.exp) + rest
    ensures var s := NumberText(n) + rest;
      && (At(s, 0) == '-' <==> n.minus)
      && (if n.minus then s[1..] else s) == n.whole + When(n.frac != "", "." + n.frac) + tail
  {
    hide ExponentText, AllDigits;
    var m, w, f, x := When(n.minus, "-"), n.whole, When(n.frac != "", "." + n.frac), ExponentText(n.exp);
    Assoc(m + w + f, x, rest);
    Assoc(m + w, f, tail);
    Assoc(m, w, f + tail);
    Assoc(w, f, tail);
    DigitAt(n.whole);
    HeadOf(n.minus, w, f + tail);
  }

  lemma HeadOf(minus: bool, w: string, t: string)
    requires w != "" && IsDigit(w[0])
    ensures var s := When(minus, "-") + (w + t);
      (At(s, 0) == '-' <==> minus) && (if minus then s[1..] else s) == w + t
  {
    assert At(w + t, 0) == w[0];
    assert When(minus, "-") + (w + t) == if minus then "-" + (w + t) else w + t;
  }

  lemma DigitAt(s: string)
    requires s != "" && AllDigits(s)
    ensures IsDigit(s[0])
  {
  }

  lemma TailStarts(e: Exponent, rest: string)
    requires ValidExponent(e) && NumberEnds(rest)
    ensures var tail := ExponentText(e) + rest;
      !IsDigit(At(tail, 0)) && At(tail, 0) != '.'
  {
    assert At(ExponentText(e) + rest, 0) == if e.NoExponent? then At(rest, 0) else e.letter;
  }

  // ---------- values ----------

  lemma WhiteSkips(ws: string, s: string)
    requires White(ws) && !('\0' < At(s, 0) <= ' ')
    ensures Skip(ws + s) == s
  {
    SkipWhite(ws, s);
  }

  /** Every value starts with a character of its own kind, and no white space. */
  lemma TextStarts(c: Cst, rest: string)
    requires Valid(c)
    ensures Text(c) != "" && Text(c)[0] == At(Text(c) + rest, 0)
    ensures var h := Text(c)[0];
      match c
      case CNull => h == 'n'
      case CFalse => h == 'f'
      case CTrue => h == 't'
      case CNum(_) => h == '-' || IsDigit(h)
      case CStr(_) => h == '"'
      case CNoItems(_) => h == '['
      case CArr(_) => h == '['
      case CNoMembers(_) => h == '{'
      case CObj(_) => h == '{'
  {
    if c.CNum? {
      var n := c.num;
      assert n.whole[0] == n.whole[0];
      assert NumberText(n)[0] == if n.minus then '-' else n.whole[0];
    }
  }

  lemma LiteralLeaf(c: Cst, rest: string)
    requires c.CNull? || c.CFalse? || c.CTrue?
    ensures ParseValue(Text(c) + rest) == Parsed(Denote(c), rest)
  {
    var s := Text(c) + rest;
    assert s[|Text(c)|..] == rest && s[0] == Text(c)[0];
  }

  lemma NumberLeaf(n: Number, rest: string)
    requires ValidNumber(n) && NumberEnds(rest)
    ensures ParseValue(NumberText(n) + rest) == Parsed(Num(NumberValue(n)), rest)
  {
    TextStarts(CNum(n), rest);
    ParseNumberComplete(n, rest);
    hide ParseNumber, NumberText, NumberValue, ValidNumber;
  }

  lemma StringLeaf(ts: seq<Token>, rest: string)
    requires ValidTokens(ts)
    ensures ParseValue(StringText(ts) + rest) == Parsed(Str(TokensBytes(ts)), rest)
  {
    TextStarts(CStr(ts), rest);
    ParseStringComplete(ts, rest);
    hide ParseString, StringText, TokensBytes, ValidTokens;
  }

  lemma EmptyArray(ws: string, rest: string)
    requires White(ws)
    ensures ParseValue("[" + ws + "]" + rest) == Parsed(Arr([]), rest)
  {
    var s := "[" + ws + "]" + rest;
    assert s[0] == '[' && s[1..] == ws + ("]" + rest);
    WhiteSkips(ws, "]" + rest);
    hide Skip, ParseItems, White;
  }

  lemma EmptyObject(ws: string, rest: string)
    requires White(ws)
    ensures ParseValue("{" + ws + "}" + rest) == Parsed(Obj([]), rest)
  {
    var s := "{" + ws + "}" + rest;
    assert s[0] == '{' && s[1..] == ws + ("}" + rest);
    WhiteSkips(ws, "}" + rest);
    hide Skip, ParseMembers, White;
  }

  /** A value in front of `rest` is read in full and nothing after it: sections 2 to 7 of RFC 8259. */
  lemma {:induction false} ParseValueComplete(c: Cst, rest: string)
    requires Valid(c)
    requires c.CNum? ==> NumberEnds(rest)
    ensures ParseValue(Text(c) + rest) == Parsed(Denote(c), rest)
    decreases c, 0
  {
    match c
    case CNum(n) => NumberLeaf(n, rest);
    case CStr(ts) => StringLeaf(ts, rest);
    case CNoItems(ws) => EmptyArray(ws, rest);
    case CNoMembers(ws) => EmptyObject(ws, rest);
    case CArr(es) => ParseArrayComplete(es, rest);
    case CObj(es) => ParseObjectComplete(es, rest);
    case _ => LiteralLeaf(c, rest);
  }

  lemma {:induction false} ParseArrayComplete(es: seq<Element>, rest: string)
    requires es != [] && ValidElements(es)
    ensures ParseValue(Text(CArr(es)) + rest) == Parsed(Arr(DenoteElements(es)), rest)
    decreases es, 2
  {
    hide ElementsText, ItemsClose, ParseItems, ParseValue, Skip, DenoteElements;
    var t := ElementsText(es) + rest;
    Assoc("[", ElementsText(es), rest);
    ElementsSplit(es, rest);
    ParseItemsComplete(es, rest, Skip(t));
    ArrayStep(t, DenoteElements(es), rest);
  }

  // One step of each list function.

  lemma ItemsStep(t: string, v: Json, rest: string, vs: seq<Json>, end: string)
    requires ParseValue(Skip(t)) == Parsed(v, rest)
    requires MoreItems(Skip(rest)) == Parsed(vs, end)
    ensures ParseItems(t) == Parsed([v] + vs, end)
  {
    hide ParseValue, MoreItems, Skip;
  }

  lemma ArrayStep(t: string, vs: seq<Json>, end: string)
    requires At(Skip(t), 0) != ']' && ParseItems(Skip(t)) == Parsed(vs, end)
    ensures ParseValue("[" + t) == Parsed(Arr(vs), end)
  {
    hide ParseItems, ParseMembers, Skip;
    var s := "[" + t;
    assert s[1..] == t && s[0] == '[';
  }

  lemma ObjectStep(t: string, ms: seq<Member>, end: string)
    requires At(Skip(t), 0) != '}' && ParseMembers(Skip(t)) == Parsed(ms, end)
    ensures ParseValue("{" + t) == Parsed(Obj(ms), end)
  {
    hide ParseItems, ParseMembers, Skip;
    var s := "{" + t;
    assert s[1..] == t && s[0] == '{';
  }

  lemma MembersStep(t: string, m: Member, rest: string, ms: seq<Member>, end: string)
    requires ParseMember(t) == Parsed(m, rest)
    requires MoreMembers(Skip(rest)) == Parsed(ms, end)
    ensures ParseMembers(t) == Parsed([m] + ms, end)
  {
    hide ParseMember, MoreMembers, Skip;
  }

  lemma MemberStep(t: string, key: string, r1: string, colon: string, v: Json, end: string)
    requires ParseString(Skip(t)) == Parsed(key, r1)
    requires Skip(r1) == ":" + colon
    requires ParseValue(Skip(colon)) == Parsed(v, end)
    ensures ParseMember(t) == Parsed(Member(key, v), end)
  {
    assert (":" + colon)[1..] == colon;
    hide ParseString, ParseValue, Skip;
  }

  /** The text from the end of an element's value on. */
  function ItemsClose(es: seq<Element>, rest: string): string
    requires es != []
  {
    if |es| == 1 then "]" + rest else "," + (ElementsText(es[1..]) + rest)
  }

  lemma ElementsSplit(es: seq<Element>, rest: string)
    requires es != [] && ValidElements(es)
    ensures ElementsText(es) + rest
         == es[0].before + (Text(es[0].value) + (es[0].after + ItemsClose(es, rest)))
    ensures Skip(ElementsText(es) + rest) == Text(es[0].value) + (es[0].after + ItemsClose(es, rest))
    ensures Skip(Skip(ElementsText(es) + rest)) == Skip(ElementsText(es) + rest)
    ensures At(Skip(ElementsText(es) + rest), 0) != ']'
    ensures NumberEnds(es[0].after + ItemsClose(es, rest))
    ensures Skip(es[0].after + ItemsClose(es, rest)) == ItemsClose(es, rest)
  {
    hide Valid, Text, Skip;
    var e, close := es[0], ItemsClose(es, rest);
    var last := if |es| == 1 then "]" else "," + ElementsText(es[1..]);
    var u := Text(e.value) + (e.after + close);
    assert last + rest == close by {
      if |es| > 1 {
        Assoc(",", ElementsText(es[1..]), rest);
      }
    }
    Assoc(e.before + Text(e.value) + e.after, last, rest);
    Assoc(e.before + Text(e.value), e.after, close);
    Assoc(e.before, Text(e.value), e.after + close);
    TextStarts(e.value, e.after + close);
    WhiteSkips(e.before, u);
    SkipStops(u);
    AfterValue(e.after, close);
    WhiteSkips(e.after, close);
  }

  lemma {:induction false} ParseItemsComplete(es: seq<Element>, rest: string, t: string)
    requires es != [] && ValidElements(es)
    requires t == ElementsText(es) + rest || t == Skip(ElementsText(es) + rest)
    ensures ParseItems(t) == Parsed(DenoteElements(es), rest)
    decreases es, 1
  {
    var e, close := es[0], ItemsClose(es, rest);
    ElementsSplit(es, rest);
    ParseValueComplete(e.value, e.after + close);
    MoreItemsComplete(es, rest);
    assert DenoteElements(es) == [Denote(e.value)] + DenoteElements(es[1..]);
    hide Valid, Text, Skip, ElementsText, ItemsClose, MoreItems, ParseItems, ParseValue, Denote, DenoteElements;
    ItemsStep(t, Denote(e.value), e.after + close, DenoteElements(es[1..]), rest);
  }

  lemma {:induction false} MoreItemsComplete(es: seq<Element>, rest: string)
    requires es != [] && ValidElements(es)
    ensures MoreItems(ItemsClose(es, rest)) == Parsed(DenoteElements(es[1..]), rest)
    decreases es, 0
  {
    var close := ItemsClose(es, rest);
    if |es| > 1 {
      assert close[1..] == ElementsText(es[1..]) + rest;
      ParseItemsComplete(es[1..], rest, close[1..]);
    } else {
      assert close[1..] == rest;
    }
  }

  lemma AfterValue(ws: string, close: string)
    requires White(ws) && At(close, 0) in ",]}"
    ensures NumberEnds(ws + close)
  {
    assert At(ws + close, 0) == if ws == "" then At(close, 0) else ws[0];
  }

  lemma {:induction false} ParseObjectComplete(es: seq<Entry>, rest: string)
    requires es != [] && ValidEntries(es)
    ensures ParseValue(Text(CObj(es)) + rest) == Parsed(Obj(DenoteEntries(es)), rest)
    decreases es, 2
  {
    hide EntriesText, EntryText, MembersClose, ParseMembers, ParseValue, Skip, DenoteEntries, ValidEntry;
    var t := EntriesText(es) + rest;
    Assoc("{", EntriesText(es), rest);
    EntriesSplit(es, rest);
    ParseMembersComplete(es, rest, Skip(t));
    ObjectStep(t, DenoteEntries(es), rest);
  }

  lemma EntryStarts(e: Entry, tail: string)
    requires ValidEntry(e)
    ensures var u := Skip(EntryText(e) + tail);
      && At(u, 0) == '"' && Skip(u) == u
      && u == StringText(e.key) + (e.beforeColon + (":" + (e.afterColon + (Text(e.value) + tail))))
  {
    hide Valid, ValidTokens, Text, TokensText, Skip;
    var b, k, m, a, v := e.before, StringText(e.key), e.beforeColon, e.afterColon, Text(e.value);
    Assoc(b + k + m + ":" + a, v, tail);
    Assoc(b + k + m + ":", a, v + tail);
    Assoc(b + k + m, ":", a + (v + tail));
    Assoc(b + k, m, ":" + (a + (v + tail)));
    Assoc(b, k, m + (":" + (a + (v + tail))));
    var u := k + (m + (":" + (a + (v + tail))));
    assert At(u, 0) == '"';
    WhiteSkips(b, u);
    SkipStops(u);
  }

  lemma {:induction false} ParseMemberComplete(e: Entry, tail: string, t: string)
    requires ValidEntry(e) && NumberEnds(tail)
    requires t == EntryText(e) + tail || t == Skip(EntryText(e) + tail)
    ensures ParseMember(t) == Parsed(DenoteEntry(e), tail)
    decreases e, 1
  {
    EntryStarts(e, tail);
    var value := Text(e.value) + tail;
    var colon := ":" + (e.afterColon + value);
    ParseStringComplete(e.key, e.beforeColon + colon);
    WhiteSkips(e.beforeColon, colon);
    TextStarts(e.value, tail);
    WhiteSkips(e.afterColon, value);
    ParseValueComplete(e.value, tail);
    hide Valid, ValidTokens, Text, StringText, Skip, ParseValue, ParseString, Denote, TokensBytes, EntryText;
    MemberStep(t, TokensBytes(e.key), e.beforeColon + colon, e.afterColon + value, Denote(e.value), tail);
  }

  /** The text from the end of a member's value on. */
  function MembersClose(es: seq<Entry>, rest: string): string
    requires es != []
  {
    if |es| == 1 then "}" + rest else "," + (EntriesText(es[1..]) + rest)
  }

  lemma EntriesSplit(es: seq<Entry>, rest: string)
    requires es != [] && ValidEntries(es)
    ensures EntriesText(es) + rest == EntryText(es[0]) + (es[0].after + MembersClose(es, rest))
    ensures At(Skip(EntriesText(es) + rest), 0) == '"'
    ensures NumberEnds(es[0].after + MembersClose(es, rest))
    ensures Skip(es[0].after + MembersClose(es, rest)) == MembersClose(es, rest)
  {
    hide Valid, ValidTokens, EntryText, Skip;
    var e, close := es[0], MembersClose(es, rest);
    var last := if |es| == 1 then "}" else "," + EntriesText(es[1..]);
    assert last + rest == close by {
      if |es| > 1 {
        Assoc(",", EntriesText(es[1..]), rest);
      }
    }
    Assoc(EntryText(e) + e.after, last, rest);
    Assoc(EntryText(e), e.after, close);
    EntryStarts(e, e.after + close);
    AfterValue(e.after, close);
    WhiteSkips(e.after, close);
  }

  lemma {:induction false} ParseMembersComplete(es: seq<Entry>, rest: string, t: string)
    requires es != [] && ValidEntries(es)
    requires t == EntriesText(es) + rest || t == Skip(EntriesText(es) + rest)
    ensures ParseMembers(t) == Parsed(DenoteEntries(es), rest)
    decreases es, 1
  {
    var e, close := es[0], MembersClose(es, rest);
    EntriesSplit(es, rest);
    ParseMemberComplete(e, e.after + close, t);
    MoreMembersComplete(es, rest);
    assert DenoteEntries(es) == [DenoteEntry(e)] + DenoteEntries(es[1..]);
    hide ValidEntry, EntryText, Skip, EntriesText, MembersClose, MoreMembers, ParseMembers, ParseMember, DenoteEntry, DenoteEntries;
    MembersStep(t, DenoteEntry(e), e.after + close, DenoteEntries(es[1..]), rest);
  }

  lemma {:induction false} MoreMembersComplete(es: seq<Entry>, rest: string)
    requires es != [] && ValidEntries(es)
    ensures MoreMembers(MembersClose(es, rest)) == Parsed(DenoteEntries(es[1..]), rest)
    decreases es, 0
  {
    var close := MembersClose(es, rest);
    if |es| > 1 {
      assert close[1..] == EntriesText(es[1..]) + rest;
      ParseMembersComplete(es[1..], rest, close[1..]);
    } else {
      assert close[1..] == rest;
    }
  }

  /** A JSON text, section 2: one value between white space, and nothing else. */
  lemma ParseTextComplete(before: string, c: Cst, after: string, requireNul: bool)
    requires White(before) && Valid(c) && White(after)
    ensures ParseText(before + Text(c) + after, requireNul).Parsed?
    ensures ParseText(before + Text(c) + after, requireNul).value == Denote(c)
    ensures ParseText(before + Text(c) + after, requireNul).rest == if requireNul then "" else after
  {
    var s := Text(c) + after;
    assert before + Text(c) + after == before + s;
    TextStarts(c, after);
    WhiteSkips(before, s);
    assert NumberEnds(after) by {
      assert At(after, 0) == if after == "" then '\0' else after[0];
    }
    ParseValueComplete(c, after);
    assert after == after + "";
    WhiteSkips(after, "");
  }
}

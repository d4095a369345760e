/** A printed string in which the port rewriting has cut: what the parser may still make of it. */
module CutStrings {
  import opened CText
  import opened Json
  import opened Keys
  import opened Unicode
  import opened Parser
  import opened Completeness
  import opened RoundTrip
  import opened StringPrinter
  import opened Port

  // ---------- the place inside a string ----------

  predicate Letters(s: string) {
    forall i | 0 <= i < |s| :: 'a' <= s[i] <= 'z'
  }

  lemma LetterFirst(c: char)
    ensures EscapeChar(c) != "" && EscapeChar(c)[0] == if NeedsEscape(c) then '\\' else c
    ensures !NeedsEscape(c) ==> EscapeChar(c) == [c]
    ensures |EscapeChar(c)| > 1 ==> 'p' !in EscapeChar(c)
  {
  }

  lemma OneLeft(x: string)
    requires x != ""
    ensures |EscapeText(x)| >= 1 && EscapeText(x) == EscapeChar(x[0]) + EscapeText(x[1..])
  {
    LetterFirst(x[0]);
  }

  lemma NoText(z: string)
    ensures EscapeText("") + ("\"" + z) == "\"" + z
  {
  }

  /** Letters at the start of an escaped string are letters of the string. */
  lemma {:induction false} LettersRaw(pat: string, s: string, z: string)
    requires Letters(pat) && pat <= EscapeText(s) + ("\"" + z)
    ensures pat <= s
  {
    hide EscapeChar, NeedsEscape, EscapeText;
    var t := EscapeText(s) + ("\"" + z);
    if pat != "" {
      assert t[0] == pat[0];
      NoText(z);
      OneLeft(s);
      LetterFirst(s[0]);
      assert s[0] == pat[0] && EscapeChar(s[0]) == [s[0]];
      var more := EscapeText(s[1..]) + ("\"" + z);
      assert t == [s[0]] + more;
      assert pat[1..] == t[1..|pat|] == more[..|pat| - 1];
      LettersRaw(pat[1..], s[1..], z);
      assert pat == [pat[0]] + pat[1..];
    }
  }

  /** Where `port` stands in an escaped string, it stands in the string. */
  lemma {:induction false} PlaceInString(s: string, z: string, i: nat) returns (x: nat)
    requires i < |EscapeText(s)| && PORT <= (EscapeText(s) + ("\"" + z))[i..]
    ensures x <= |s| && |EscapeText(s[..x])| == i && PORT <= s[x..]
    decreases |s|
  {
    hide EscapeChar, NeedsEscape;
    var e, more := EscapeChar(s[0]), EscapeText(s[1..]) + ("\"" + z);
    LetterFirst(s[0]);
    Assoc(e, EscapeText(s[1..]), "\"" + z);
    assert EscapeText(s) + ("\"" + z) == e + more;
    if i < |e| {
      assert (e + more)[i..][0] == e[i] == 'p' && e[i] in e;
      assert i == 0;
      x := 0;
      assert s[..0] == "" && s[0..] == s && (e + more)[0..] == e + more;
      LettersRaw(PORT, s, z);
    } else {
      assert (e + more)[i..] == more[i - |e|..];
      x := PlaceInString(s[1..], z, i - |e|);
      assert s[..x + 1] == [s[0]] + s[1..][..x] && s[..x + 1][1..] == s[1..][..x] && s[x + 1..] == s[1..][x..];
      x := x + 1;
    }
  }

  // ---------- reading a string that was cut ----------

  lemma {:induction false} UnescapeGrows(t: string, out: string, len: nat)
    requires Unescape(t, out, len).Parsed?
    ensures out <= Unescape(t, out, len).value
    decreases |t|
  {
    hide Escape;
    if t != "" && t[0] != '\0' && t[0] != '"' {
      var r := if t[0] == '\\' then Escape(t) else ([t[0]], 1);
      UnescapeGrows(t[r.1..], out + r.0, len);
    }
  }

  /** Text that was printed for a string is read as that string. */
  lemma {:induction false} UnescapePast(s: string, y: string, out: string, len: nat)
    requires NulFree(s) && Unescape(EscapeText(s) + y, out, len).Parsed?
    ensures Unescape(EscapeText(s) + y, out, len) == Unescape(y, out + s, len)
    decreases |s|
  {
    hide EscapeChar;
    if s == "" {
      assert EscapeText(s) + y == y && out + s == out;
    } else {
      var tail := EscapeText(s[1..]) + y;
      LayoutCharText(s[0]);
      LayoutCharValid(s[0]);
      Assoc(EscapeChar(s[0]), EscapeText(s[1..]), y);
      assert |out| <= len;
      UnescapeToken(LayoutChar(s[0]), tail, out, len);
      UnescapePast(s[1..], y, out + [s[0]], len);
      Assoc(out, [s[0]], s[1..]);
      assert s == [s[0]] + s[1..];
    }
  }

  /** What is sent from behind the name on: two characters, the new port, and what is left behind the old digits. */
  function Behind(u: string, port: int): string
    requires |u| > 2
  {
    u[..2] + ((" " + IntText(port)) + SkipDigits(u[3..]))
  }

  lemma PortDigits(port: int)
    requires port >= 1000
    ensures var ds := IntText(port);
      |ds| >= 4 && AllDigits(ds) && EscapeText(" " + ds) == " " + ds && NulFree(" " + ds)
  {
    hide Decimal;
    FourOrMore(port);
    NothingEscaped(" " + IntText(port));
  }

  lemma FourOrMore(n: nat)
    requires n >= 1000
    ensures |Decimal(n)| >= 4
  {
    assert |Decimal(n / 1000)| >= 1;
    assert |Decimal(n / 100)| >= 2 && |Decimal(n / 10)| >= 3 by {
      assert n / 100 / 10 == n / 1000 && n / 10 / 10 == n / 100;
    }
  }

  lemma {:induction false} SkipMore(ds: string, t: string)
    requires AllDigits(ds)
    ensures SkipDigits(ds + t) == SkipDigits(t)
  {
    if ds == "" {
      assert ds + t == t;
    } else {
      assert (ds + t)[1..] == ds[1..] + t;
      SkipMore(ds[1..], t);
    }
  }

  /** Skipping digits inside a string stops inside it or at its closing quote. */
  lemma {:induction false} SkipInString(s: string, z: string) returns (w: string)
    requires NulFree(s)
    ensures SkipDigits(EscapeText(s) + ("\"" + z)) == EscapeText(w) + ("\"" + z) && NulFree(w)
  {
    hide EscapeChar;
    w := s;
    if s == "" {
      assert EscapeText(s) + ("\"" + z) == "\"" + z;
    } else {
      LetterFirst(s[0]);
      if IsDigit(s[0]) {
        assert (EscapeText(s) + ("\"" + z))[1..] == EscapeText(s[1..]) + ("\"" + z);
        w := SkipInString(s[1..], z);
      }
    }
  }

  /** The cut comes behind two characters that stand for `k`. */
  lemma CutBehind(k: string, w: string, z: string, out: string, len: nat, port: int)
    requires NulFree(k) && NulFree(w) && port >= 1000
    requires var u := EscapeText(w) + ("\"" + z);
      Unescape(EscapeText(k) + ((" " + IntText(port)) + SkipDigits(u[1..])), out, len).Parsed?
    ensures var u := EscapeText(w) + ("\"" + z);
      var r := Unescape(EscapeText(k) + ((" " + IntText(port)) + SkipDigits(u[1..])), out, len);
      |r.value| > |out| && (r.value == out + (k + w) ==> r.rest == z)
  {
    hide EscapeText, IntText, SkipDigits, Unescape;
    var ds, u := " " + IntText(port), EscapeText(w) + ("\"" + z);
    var q := SkipDigits(u[1..]);
    PortDigits(port);
    UnescapePast(k, ds + q, out, len);
    UnescapePast(ds, q, out + k, len);
    UnescapeGrows(q, out + k + ds, len);
    var v := Unescape(q, out + k + ds, len).value;
    if v == out + (k + w) {
      Assoc(out, k, w);
      SamePrefix(out + k, ds, w, v);
      SameRest(ds, w, z, out + k + ds, len, port);
    }
  }

  lemma SamePrefix(a: string, b: string, w: string, v: string)
    requires v == a + w && a + b <= v
    ensures b <= w
  {
    assert v[|a|..] == w && v[|a|..|a| + |b|] == w[..|b|];
  }

  /** When the string goes on with just the new port, reading it comes to the same end. */
  lemma SameRest(ds: string, w: string, z: string, out: string, len: nat, port: int)
    requires NulFree(w) && port >= 1000 && ds == " " + IntText(port) && ds <= w
    requires var u := EscapeText(w) + ("\"" + z);
      Unescape(SkipDigits(u[1..]), out, len).Parsed?
    ensures var u := EscapeText(w) + ("\"" + z);
      Unescape(SkipDigits(u[1..]), out, len).rest == z
  {
    hide EscapeText, IntText, SkipDigits, Unescape;
    var w2, u := w[|ds|..], EscapeText(w) + ("\"" + z);
    assert w == ds + w2;
    PortDigits(port);
    EscapeAppend(ds, w2);
    var t := EscapeText(w2) + ("\"" + z);
    Assoc(ds, EscapeText(w2), "\"" + z);
    assert u[1..] == IntText(port) + t;
    SkipMore(IntText(port), t);
    var w3 := SkipInString(w2, z);
    UnescapePast(w3, "\"" + z, out, len);
    QuoteEnds(z, out + w3, len);
  }

  lemma QuoteEnds(z: string, out: string, len: nat)
    requires Unescape("\"" + z, out, len).Parsed?
    ensures Unescape("\"" + z, out, len) == Parsed(out, z)
  {
    assert ("\"" + z)[1..] == z;
  }

  /** The cut comes behind the backslash of an escape: the space is taken as escaped. */
  lemma CutInShort(k: string, w: string, q: string, out: string, len: nat)
    requires NulFree(k) && w != "" && NeedsEscape(w[0])
    requires Unescape(EscapeText(k) + ("\\" + (" " + q)), out, len).Parsed?
    ensures var v := Unescape(EscapeText(k) + ("\\" + (" " + q)), out, len).value;
      |v| > |out| && v != out + (k + w)
  {
    hide EscapeText;
    var t := "\\" + (" " + q);
    UnescapePast(k, t, out, len);
    assert Escape(t) == (" ", 2) && t[2..] == q;
    UnescapeGrows(q, out + k + " ", len);
    Assoc(out, k, w);
    assert (out + k + w)[|out + k|] == w[0] && (out + k + " ")[|out + k|] == ' ';
  }

  /** The cut comes behind the `u` of an escape: nothing is read for it, and the last digits of the port remain. */
  lemma CutInHex(x: string, q: string, out: string, len: nat, port: int)
    requires x != "" && NeedsEscape(x[0]) && port >= 1000
    requires Unescape("\\u" + ((" " + IntText(port)) + q), out, len).Parsed?
    ensures var v := Unescape("\\u" + ((" " + IntText(port)) + q), out, len).value;
      |v| > |out| && v != out + x
  {
    hide IntText, Unescape;
    var ds := IntText(port);
    PortDigits(port);
    BrokenHex(ds, q, out, len);
    var more := ds[3..] + q;
    assert more[0] == ds[3];
    DigitReads(more, out, len);
    UnescapeGrows(more[1..], out + [ds[3]], len);
    assert (out + x)[|out|] == x[0];
  }

  lemma BrokenHex(ds: string, q: string, out: string, len: nat)
    requires |ds| >= 4 && Unescape("\\u" + ((" " + ds) + q), out, len).Parsed?
    ensures |out| <= len && Unescape("\\u" + ((" " + ds) + q), out, len) == Unescape(ds[3..] + q, out, len)
  {
    var t := "\\u" + ((" " + ds) + q);
    assert Escape(t) == ("", 6) by {
      assert At(t, 1) == 'u' && At(t, 2) == ' ';
    }
    hide Escape;
    assert t[6..] == ds[3..] + q && out + "" == out;
  }

  lemma DigitReads(s: string, out: string, len: nat)
    requires s != "" && IsDigit(s[0]) && |out| <= len
    ensures Unescape(s, out, len) == Unescape(s[1..], out + [s[0]], len)
  {
    hide Escape;
  }

  /** What the parser may make of the rest of the string in which `port` stood first; `x` is that rest. */
  ghost predicate CutRead(x: string, z: string, out: string, port: int, v: string, rest: string) {
    if |EscapeText(x)| >= 2 then |v| > |out| && (v == out + x ==> rest == z)
    else
      && v == out + x
      && (x == "" ==> |z| > 1 && rest == z[..1] + ((" " + IntText(port)) + SkipDigits(z[2..])))
      && (x != "" ==> z != "" && rest == (" " + IntText(port)) + SkipDigits(z[1..]))
  }

  lemma StringCut(x: string, z: string, out: string, len: nat, port: int)
    requires NulFree(x) && port >= 1000
    requires var u := EscapeText(x) + ("\"" + z);
      |u| > 2 && Unescape(Behind(u, port), out, len).Parsed?
    ensures var u := EscapeText(x) + ("\"" + z);
      var r := Unescape(Behind(u, port), out, len);
      CutRead(x, z, out, port, r.value, r.rest)
  {
    hide EscapeChar, IntText, SkipDigits, Unescape, NulFree, NeedsEscape;
    var u, ds := EscapeText(x) + ("\"" + z), " " + IntText(port);
    if |EscapeText(x)| >= 2 {
      LongCut(x, z, out, len, port);
    } else if x == "" {
      assert u == "\"" + z && u[..2] == "\"" + z[..1] && u[3..] == z[2..];
      Assoc("\"", z[..1], ds + SkipDigits(z[2..]));
      QuoteEnds(z[..1] + (ds + SkipDigits(z[2..])), out, len);
      assert out + x == out;
    } else {
      OneLeft(x);
      assert u == EscapeText(x) + ("\"" + z) && u[..2] == EscapeText(x) + "\"" && u[3..] == z[1..];
      Assoc(EscapeText(x), "\"", ds + SkipDigits(z[1..]));
      UnescapePast(x, "\"" + (ds + SkipDigits(z[1..])), out, len);
      QuoteEnds(ds + SkipDigits(z[1..]), out + x, len);
    }
  }

  lemma LongCut(x: string, z: string, out: string, len: nat, port: int)
    requires NulFree(x) && port >= 1000 && |EscapeText(x)| >= 2
    requires Unescape(Behind(EscapeText(x) + ("\"" + z), port), out, len).Parsed?
    ensures var r := Unescape(Behind(EscapeText(x) + ("\"" + z), port), out, len);
      |r.value| > |out| && (r.value == out + x ==> r.rest == z)
  {
    hide EscapeChar, IntText, SkipDigits, Unescape, NeedsEscape, EscapeText;
    var u, ds := EscapeText(x) + ("\"" + z), " " + IntText(port);
    var q := SkipDigits(u[3..]);
    var k, w := CutWhere(x);
    if k != x[..|k|] || |EscapeText(k)| != 2 {
      if k == "" {
        assert u[..2] == "\\u";
        CutInHex(x, q, out, len, port);
      } else {
        assert u[..2] == EscapeText(k) + "\\";
        Assoc(EscapeText(k), "\\", ds + q);
        Assoc(" ", IntText(port), q);
        CutInShort(k, w, IntText(port) + q, out, len);
      }
    } else {
      Assoc(EscapeText(k), EscapeText(w), "\"" + z);
      assert u[..2] == EscapeText(k) && u[3..] == (EscapeText(w) + ("\"" + z))[1..];
      CutBehind(k, w, z, out, len, port);
    }
  }

  /** Where the second character ends in an escaped string: behind `k`, or inside the escape that follows it. */
  lemma CutWhere(x: string) returns (k: string, w: string)
    requires NulFree(x) && |EscapeText(x)| >= 2
    ensures x == k + w && NulFree(k) && NulFree(w)
    ensures EscapeText(x) == EscapeText(k) + EscapeText(w)
    ensures |EscapeText(k)| == 2
         || (w != "" && NeedsEscape(w[0]) && k == "" && EscapeText(x)[..2] == "\\u")
         || (w != "" && NeedsEscape(w[0]) && |k| == 1 && EscapeText(x)[..2] == EscapeText(k) + "\\")
  {
    hide EscapeChar, NeedsEscape;
    OneLeft(x);
    LetterFirst(x[0]);
    EscapeOne(x[0]);
    LongEscape(x[0]);
    if |EscapeChar(x[0])| == 2 {
      k, w := x[..1], x[1..];
    } else if |EscapeChar(x[0])| > 2 {
      k, w := "", x;
    } else {
      assert x[1..] != "";
      OneLeft(x[1..]);
      LetterFirst(x[1]);
      EscapeOne(x[1]);
      if NeedsEscape(x[1]) {
        k, w := x[..1], x[1..];
      } else {
        k, w := x[..2], x[2..];
        EscapeAppend(x[..1], [x[1]]);
        assert x[..2] == x[..1] + [x[1]] && x[1..][1..] == x[2..];
        Assoc(EscapeText(x[..1]), EscapeText([x[1]]), EscapeText(w));
      }
    }
    assert x == k + w;
    EscapeAppend(k, w);
  }

  lemma LongEscape(c: char)
    ensures |EscapeChar(c)| > 2 ==> EscapeChar(c)[..2] == "\\u" && NeedsEscape(c)
  {
  }
}

/** `print_string_ptr`: a string is measured and then composed, quoted and escaped, in as many bytes. */
module StringPrinter {
  import opened CText
  import opened Json

  /** The flag of the first loop: is there anything to escape? */
  method AnyEscape(s: string) returns (flag: bool)
    ensures flag <==> exists i :: 0 <= i < |s| && NeedsEscape(s[i])
  {
    flag := false;
    for i := 0 to |s|
      invariant flag <==> exists j :: 0 <= j < i && NeedsEscape(s[j])
    {
      flag := flag || NeedsEscape(s[i]);
    }
  }

  lemma {:induction false} NothingEscaped(s: string)
    requires forall i | 0 <= i < |s| :: !NeedsEscape(s[i])
    ensures EscapeText(s) == s
  {
    if s != "" {
      NothingEscaped(s[1..]);
      assert [s[0]] + s[1..] == s;
    }
  }

  lemma {:induction false} EscapeSnoc(s: string, c: char)
    ensures EscapeText(s + [c]) == EscapeText(s) + EscapeChar(c)
  {
    if s == "" {
      assert s + [c] == [c] && [c][1..] == "";
    } else {
      assert (s + [c])[1..] == s[1..] + [c];
      EscapeSnoc(s[1..], c);
      Assoc(EscapeChar(s[0]), EscapeText(s[1..]), EscapeChar(c));
    }
  }

  /** The measuring loop: one byte for a character, one more for a short escape, five more for any other. */
  method Measure(s: string) returns (len: nat)
    ensures len == |EscapeText(s)|
  {
    len := 0;
    for i := 0 to |s|
      invariant len == |EscapeText(s[..i])|
    {
      var token := s[i];
      len := len + 1;
      if token in "\"\\\U{8}\U{C}\n\r\t" {
        len := len + 1;
      } else if token < ' ' {
        len := len + 5;
      }
      assert s[..i + 1] == s[..i] + [s[i]];
      EscapeSnoc(s[..i], s[i]);
    }
    assert s[..|s|] == s;
  }

  /** The size `print_string_ptr` asks for, on either of its two ways. */
  method QuotedSize(s: string) returns (flag: bool, size: nat)
    ensures size == |Quote(s)| + 1 && (!flag ==> Quote(s) == "\"" + s + "\"")
  {
    flag := AnyEscape(s);
    if !flag {
      NothingEscaped(s);
      size := |s| + 3;
    } else {
      var len := Measure(s);
      size := len + 3;
    }
  }

  /** The escaping loop. */
  method ComposeEscaped(a: array<char>, at: nat, s: string) returns (end: nat)
    requires at + |EscapeText(s)| <= a.Length
    modifies a
    ensures end == at + |EscapeText(s)| && a[..end] == old(a[..at]) + EscapeText(s)
  {
    ghost var pre := a[..at];
    end := at;
    assert EscapeText(s[..0]) == "" && pre + "" == pre;
    hide EscapeText, EscapeChar;
    for i := 0 to |s|
      invariant end == at + |EscapeText(s[..i])| <= a.Length
      invariant a[..end] == pre + EscapeText(s[..i])
    {
      assert s[..i + 1] == s[..i] + [s[i]];
      EscapeSnoc(s[..i], s[i]);
      EscapePrefix(s, i + 1);
      Assoc(pre, EscapeText(s[..i]), EscapeChar(s[i]));
      end := PutText(a, end, EscapeChar(s[i]));
    }
    assert s[..|s|] == s;
  }

  /** The composing loops: the bytes measured, and a NUL behind them. */
  method Compose(a: array<char>, at: nat, s: string, flag: bool)
    requires at + |Quote(s)| < a.Length && (!flag ==> Quote(s) == "\"" + s + "\"")
    modifies a
    ensures a[..at + |Quote(s)|] == old(a[..at]) + Quote(s) && a[at + |Quote(s)|] == '\0'
  {
    hide EscapeText;
    ghost var pre, body := a[..at], if flag then EscapeText(s) else s;
    var end := PutText(a, at, "\"");
    if !flag {
      end := PutText(a, end, s);
    } else {
      end := ComposeEscaped(a, end, s);
    }
    Assoc(pre, "\"", body);
    Assoc(pre, "\"" + body, "\"");
    end := PutText(a, end, "\"");
    a[end] := '\0';
  }

  lemma {:induction false} EscapePrefix(s: string, i: nat)
    requires i <= |s|
    ensures |EscapeText(s[..i])| <= |EscapeText(s)|
    decreases |s| - i
  {
    if i == |s| {
      assert s[..i] == s;
    } else {
      assert s[..i + 1] == s[..i] + [s[i]];
      EscapeSnoc(s[..i], s[i]);
      EscapePrefix(s, i + 1);
    }
  }
}

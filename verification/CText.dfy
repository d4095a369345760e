/**
 C strings. A text is the sequence of its characters, one `char` for one byte; the terminating NUL is
 implicit: reading at the length of the text, or beyond it, yields NUL.
 */
module CText {

  function At(s: string, i: nat): char {
    if i < |s| then s[i] else '\0'
  }

  predicate NulFree(s: string) {
    forall i | 0 <= i < |s| :: s[i] != '\0'
  }

  predicate IsDigit(c: char) {
    '0' <= c <= '9'
  }

  predicate AllDigits(s: string) {
    forall i | 0 <= i < |s| :: IsDigit(s[i])
  }

  /** The character with the given code; every use is a byte. */
  function Byte(n: nat): (c: char)
    requires n < 256
    ensures c as int == n
  {
    n as char
  }

  /** `skip` drops every leading character from 1 to 32. */
  function Skip(s: string): (t: string)
    ensures |t| <= |s|
  {
    if s != "" && s[0] != '\0' && s[0] <= ' ' then Skip(s[1..]) else s
  }

  lemma SkipStops(s: string)
    requires !('\0' < At(s, 0) <= ' ')
    ensures Skip(s) == s
  {
  }

  lemma {:induction false} SkipWhite(ws: string, s: string)
    requires forall i | 0 <= i < |ws| :: '\0' < ws[i] <= ' '
    requires !('\0' < At(s, 0) <= ' ')
    ensures Skip(ws + s) == s
  {
    if ws == "" {
      assert ws + s == s;
    } else {
      assert (ws + s)[1..] == ws[1..] + s;
      SkipWhite(ws[1..], s);
    }
  }

  lemma SkipTwice(s: string)
    ensures Skip(Skip(s)) == Skip(s)
  {
    SkipStart(s);
    SkipStops(Skip(s));
  }

  lemma {:induction false} SkipStart(s: string)
    ensures !('\0' < At(Skip(s), 0) <= ' ')
  {
    if s != "" && s[0] != '\0' && s[0] <= ' ' {
      SkipStart(s[1..]);
    }
  }

  lemma Assoc(a: string, b: string, c: string)
    ensures (a + b) + c == a + (b + c)
  {
  }

  // ---------- writing texts ----------

  /** Characters put one after the other from a place on. */
  method PutText(a: array<char>, at: nat, s: string) returns (end: nat)
    requires at + |s| <= a.Length
    modifies a
    ensures end == at + |s| && a[..end] == old(a[..at]) + s
  {
    end := at + |s|;
    for k := 0 to |s|
      invariant a[..at + k] == old(a[..at]) + s[..k]
    {
      a[at + k] := s[k];
      assert a[..at + k + 1] == old(a[..at]) + s[..k] + [s[k]];
      assert s[..k + 1] == s[..k] + [s[k]];
    }
    assert s[..|s|] == s;
  }

  /** `memcpy` of a text to a place. */
  method CopyTo(to: array<char>, at: nat, from: array<char>, n: nat)
    requires at + n <= to.Length && n <= from.Length && to != from
    modifies to
    ensures to[..at + n] == old(to[..at]) + from[..n]
  {
    for k := 0 to n
      invariant to[..at + k] == old(to[..at]) + from[..k]
    {
      to[at + k] := from[k];
      assert to[..at + k + 1] == old(to[..at]) + from[..k] + [from[k]];
      assert from[..k + 1] == from[..k] + [from[k]];
    }
  }
}

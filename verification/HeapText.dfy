/** The loops of the parser over one token: white space, numbers and strings. */
module HeapText {
  import opened Options
  import opened CText
  import opened Numbers
  import opened Unicode
  import opened Parser
  import opened Nodes

  // ---------- cursors and suffixes ----------

  lemma AtSuffix(s: string, i: nat, k: nat)
    requires i <= |s|
    ensures At(s[i..], k) == At(s, i + k)
    ensures i + k <= |s| ==> s[i..][k..] == s[i + k..]
  {
  }

  /** `skip`. */
  method SkipSpace(s: string, i: nat) returns (j: nat)
    requires i <= |s|
    ensures i <= j <= |s| && s[j..] == Skip(s[i..])
  {
    j := i;
    while At(s, j) != '\0' && At(s, j) <= ' '
      invariant i <= j <= |s| && Skip(s[j..]) == Skip(s[i..])
      decreases |s| - j
    {
      AtSuffix(s, j, 1);
      j := j + 1;
    }
  }

  // ---------- numbers ----------

  /** `n = n * 10 + digit` while there are digits. */
  method ScanDigits(s: string, i: nat, n0: nat) returns (n: nat, j: nat)
    requires i <= |s|
    ensures i <= j <= |s| && Accumulate(n0, s[i..]) == (n, s[j..])
  {
    n, j := n0, i;
    while IsDigit(At(s, j))
      invariant i <= j <= |s| && Accumulate(n, s[j..]) == Accumulate(n0, s[i..])
      decreases |s| - j
    {
      AtSuffix(s, j, 1);
      n, j := n * 10 + DigitValue(At(s, j)), j + 1;
    }
  }

  method ScanMantissa(s: string, i: nat) returns (n: nat, scale: int, j: nat)
    requires i <= |s|
    ensures i <= j <= |s| && ParseMantissa(s[i..]) == (n, scale, s[j..])
  {
    hide Accumulate, IsDigit;
    n, scale, j := 0, 0, i;
    AtSuffix(s, i, 0);
    AtSuffix(s, i, 1);
    if At(s, j) == '0' {
      j := j + 1;
    }
    AtSuffix(s, j, 0);
    if '1' <= At(s, j) <= '9' {
      n, j := ScanDigits(s, j, 0);
    }
    AtSuffix(s, j, 0);
    AtSuffix(s, j, 1);
    if At(s, j) == '.' && IsDigit(At(s, j + 1)) {
      var k := j + 1;
      n, j := ScanDigits(s, k, n);
      scale := k - j;
    }
  }

  method ScanExponent(s: string, i: nat) returns (e: int, j: nat)
    requires i <= |s|
    ensures i <= j <= |s| && ParseExponent(s[i..]) == (e, s[j..])
  {
    hide Accumulate;
    e, j := 0, i;
    AtSuffix(s, i, 0);
    AtSuffix(s, i, 1);
    if At(s, i) == 'e' || At(s, i) == 'E' {
      j := i + 1;
      AtSuffix(s, j, 0);
      AtSuffix(s, j, 1);
      var minus := At(s, j) == '-';
      if minus || At(s, j) == '+' {
        j := j + 1;
      }
      e, j := ScanDigits(s, j, 0);
      if minus {
        e := -e;
      }
    }
  }

  /** `(int) n`: truncation toward zero. */
  function Truncate(r: real): int {
    if r < 0.0 then -(-r).Floor else r.Floor
  }

  /** The integer of largest magnitude between 0 and the number. */
  lemma TruncateIsNearest(r: real)
    ensures r >= 0.0 ==> 0.0 <= Truncate(r) as real <= r < Truncate(r) as real + 1.0
    ensures r <= 0.0 ==> Truncate(r) as real - 1.0 < r <= Truncate(r) as real <= 0.0
    ensures Truncate(-r) == -Truncate(r)
  {
  }

  lemma TruncateWhole(n: int)
    ensures Truncate(n as real) == n
  {
  }

  /** `parse_number`. */
  method ScanNumber(item: Node, s: string, i: nat) returns (j: nat)
    requires i <= |s|
    modifies item`kind, item`valueint, item`valuedouble
    ensures i <= j <= |s|
    ensures ParseNumber(s[i..]).1 == s[j..] && item.valuedouble == ParseNumber(s[i..]).0.Value()
    ensures item.kind == KNumber && item.valueint == Truncate(item.valuedouble)
  {
    j := i;
    AtSuffix(s, i, 0);
    AtSuffix(s, i, 1);
    var minus := At(s, i) == '-';
    if minus {
      j := j + 1;
    }
    var n, scale, e;
    n, scale, j := ScanMantissa(s, j);
    e, j := ScanExponent(s, j);
    item.valuedouble := Scanned(minus, n, scale + e).Value();
    item.valueint := Truncate(item.valuedouble);
    item.kind := KNumber;
  }

  // ---------- strings ----------

  /** What a parsing function returns: the cursor after what it read, NULL (`Nowhere`), or no defined result. */
  datatype Cursor = Next(end: nat) | Nowhere | Stray

  /** The first pass of `parse_string`, from after the opening quote. */
  method CountLength(s: string, i: nat) returns (ok: bool, len: nat)
    requires i <= |s|
    ensures ScanLength(s[i..]) == if ok then Some(len) else None
  {
    ok, len := true, 0;
    var p := i;
    while At(s, p) != '"' && At(s, p) != '\0'
      invariant i <= p <= |s|
      invariant ScanLength(s[i..]) == match ScanLength(s[p..]) case None => None case Some(n) => Some(len + n)
      decreases |s| - p
    {
      AtSuffix(s, p, 1);
      AtSuffix(s, p, 2);
      len := len + 1;
      if At(s, p) == '\\' {
        p := p + 1;
        if p == |s| {
          return false, len;
        }
      }
      p := p + 1;
    }
  }

  /**
   The second pass: characters are copied and escapes decoded into a buffer of `len + 1` bytes. Every write is inside
   the buffer; `Stray` where the C code would leave it, or leave the text.
   */
  method DecodeInto(s: string, i: nat, out: array<char>, len: nat) returns (n: nat, c: Cursor)
    requires i <= |s| && out.Length == len + 1
    modifies out
    ensures c != Nowhere
    ensures c.Stray? ==> Unescape(s[i..], "", len) == Undefined
    ensures c.Next? ==>
      && i <= c.end <= |s| && n <= len && out[n] == '\0'
      && Unescape(s[i..], "", len) == Parsed(out[..n], s[c.end..])
  {
    hide Unescape, Escape;
    n := 0;
    var p := i;
    assert out[..0] == "";
    while At(s, p) != '"' && At(s, p) != '\0'
      invariant i <= p <= |s| && n <= len
      invariant Unescape(s[i..], "", len) == Unescape(s[p..], out[..n], len)
      decreases |s| - p
    {
      UnescapeStep(s, p, out[..n], len);
      var bytes, read := [At(s, p)], 1;
      if At(s, p) == '\\' {
        var r := Escape(s[p..]);
        bytes, read := r.0, r.1;
      }
      if p + read > |s| || n + |bytes| > len {
        return n, Stray;
      }
      n := PutText(out, n, bytes);
      p := p + read;
    }
    UnescapeEnds(s, p, out[..n], len);
    ghost var text := out[..n];
    out[n] := '\0';
    assert out[..n] == text;
    c := Next(if At(s, p) == '"' then p + 1 else p);
  }

  lemma UnescapeStep(s: string, p: nat, out: string, len: nat)
    requires p < |s| && s[p] != '"' && s[p] != '\0' && |out| <= len
    ensures var r := if s[p] == '\\' then Escape(s[p..]) else ([s[p]], 1);
      Unescape(s[p..], out, len)
      == if p + r.1 > |s| || |out| + |r.0| > len then Undefined else Unescape(s[p + r.1..], out + r.0, len)
  {
    hide Escape;
    var r := if s[p] == '\\' then Escape(s[p..]) else ([s[p]], 1);
    if p + r.1 <= |s| {
      AtSuffix(s, p, r.1);
    }
  }

  lemma UnescapeEnds(s: string, p: nat, out: string, len: nat)
    requires p <= |s| && |out| <= len && (At(s, p) == '"' || At(s, p) == '\0')
    ensures Unescape(s[p..], out, len) == Parsed(out, if At(s, p) == '"' then s[p + 1..] else s[p..])
  {
    AtSuffix(s, p, 1);
  }

  /** `parse_string`: the string is written into a block of its own, which becomes the item's value. */
  method ScanString(item: Node, s: string, i: nat, h: Heap) returns (c: Cursor)
    requires i <= |s|
    modifies h, item`kind, item`valuestring
    ensures !c.Next? ==> item.valuestring == old(item.valuestring) && item.kind == old(item.kind)
    ensures c.Nowhere? ==> h.live == old(h.live)
    ensures c.Nowhere? ==> h.failures > old(h.failures) || ParseString(s[i..]) == Rejected
    ensures c.Stray? ==> ParseString(s[i..]) == Undefined
    ensures c.Next? ==>
      && i < c.end <= |s| && item.kind == KString && item.valuestring != null && fresh(item.valuestring)
      && ParseString(s[i..]) == Parsed(item.valuestring.text, s[c.end..])
      && h.live == old(h.live) + {item.valuestring} && h.failures == old(h.failures)
    ensures old(h.failures) <= h.failures
  {
    hide Unescape, ScanLength;
    AtSuffix(s, i, 0);
    if At(s, i) != '"' {
      return Nowhere;
    }
    AtSuffix(s, i, 1);
    var ok, len := CountLength(s, i + 1);
    if !ok {
      return Stray;
    }
    var out := h.Malloc(len + 1);
    if out == null {
      return Nowhere;
    }
    var n;
    n, c := DecodeInto(s, i + 1, out, len);
    if c.Next? {
      item.valuestring := h.Seal(out, n);
      item.kind := KString;
    }
  }
}

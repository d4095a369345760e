/** Escaped code points: hexadecimal digits, UTF-16 surrogate pairs and UTF-8. */
module Unicode {
  import opened CText
  import opened HexDigits

  predicate IsHex(c: char) {
    IsDigit(c) || 'A' <= c <= 'F' || 'a' <= c <= 'f'
  }

  function HexValue(c: char): (v: nat)
    requires IsHex(c)
    ensures v < 16
  {
    if IsDigit(c) then c as int - '0' as int
    else if 'A' <= c <= 'F' then 10 + c as int - 'A' as int
    else 10 + c as int - 'a' as int
  }

  /** `parse_hex4`: four hexadecimal digits at `s[i..]`, or 0 at the first character that is not one. */
  function ParseHex4(s: string, i: nat): (v: nat)
    ensures v < 0x1_0000
  {
    if !IsHex(At(s, i)) || !IsHex(At(s, i + 1)) || !IsHex(At(s, i + 2)) || !IsHex(At(s, i + 3)) then 0
    else ((HexValue(At(s, i)) * 16 + HexValue(At(s, i + 1))) * 16 + HexValue(At(s, i + 2))) * 16 + HexValue(At(s, i + 3))
  }

  /** The arithmetic on character codes finds the place of a digit. */
  lemma HexValueIsPlace(c: char)
    ensures IsHex(c) <==> IsHexDigit(c)
    ensures IsHex(c) ==> HexValue(c) == Place(c)
  {
    if IsHex(c) {
      Digits(HexValue(c));
      PlaceIs(c, HexValue(c));
    }
    if IsHexDigit(c) {
      Digits(Place(c));
    }
  }

  /** `parse_hex4` computes the number that four hexadecimal digits denote. */
  lemma ParseHex4IsMagnitude(s: string, i: nat)
    requires i + 4 <= |s|
    ensures ParseHex4(s, i) == if AllHexDigits(s[i..i + 4]) then HexMagnitude(s[i..i + 4]) else 0
  {
    hide IsHex, HexValue;
    var h := s[i..i + 4];
    assert At(s, i) == h[0] && At(s, i + 1) == h[1] && At(s, i + 2) == h[2] && At(s, i + 3) == h[3];
    HexValueIsPlace(h[0]);
    HexValueIsPlace(h[1]);
    HexValueIsPlace(h[2]);
    HexValueIsPlace(h[3]);
    if AllHexDigits(h) {
      FourDigits(h);
    }
  }

  /** Unicode scalar values: section 3.9 of the Unicode Standard. */
  predicate IsScalar(cp: nat) {
    cp < 0xD800 || 0xE000 <= cp < 0x11_0000
  }

  /** The number of bytes `parse_string` writes for a code point. */
  function Utf8Length(cp: nat): (n: nat)
    ensures 1 <= n <= 4
  {
    if cp < 0x80 then 1 else if cp < 0x800 then 2 else if cp < 0x1_0000 then 3 else 4
  }

  /** The bytes `parse_string` writes, lowest six bits last: `(uc | 0x80) & 0xBF` is `0x80 + uc % 64`. */
  function Utf8(cp: nat): (s: string)
    requires cp < 0x11_0000
    ensures |s| == Utf8Length(cp)
  {
    if cp < 0x80 then [Byte(cp)]
    else if cp < 0x800 then [Byte(0xC0 + cp / 0x40), Tail(cp)]
    else if cp < 0x1_0000 then [Byte(0xE0 + cp / 0x1000), Tail(cp / 0x40), Tail(cp)]
    else [Byte(0xF0 + cp / 0x4_0000), Tail(cp / 0x1000), Tail(cp / 0x40), Tail(cp)]
  }

  function Tail(n: nat): char {
    Byte(0x80 + n % 0x40)
  }

  predicate IsTail(c: char) {
    0x80 <= c as int < 0xC0
  }

  /** A UTF-8 decoder after the table in section 3 of RFC 3629: the code point and its length, 0 for none. */
  function Utf8Decode(s: string): (nat, nat) {
    var b := At(s, 0) as int;
    if s == "" then (0, 0)
    else if b < 0x80 then (b, 1)
    else if 0xC0 <= b < 0xE0 && IsTail(At(s, 1)) then
      ((b - 0xC0) * 0x40 + Payload(At(s, 1)), 2)
    else if 0xE0 <= b < 0xF0 && IsTail(At(s, 1)) && IsTail(At(s, 2)) then
      (((b - 0xE0) * 0x40 + Payload(At(s, 1))) * 0x40 + Payload(At(s, 2)), 3)
    else if 0xF0 <= b < 0xF8 && IsTail(At(s, 1)) && IsTail(At(s, 2)) && IsTail(At(s, 3)) then
      ((((b - 0xF0) * 0x40 + Payload(At(s, 1))) * 0x40 + Payload(At(s, 2))) * 0x40 + Payload(At(s, 3)), 4)
    else (0, 0)
  }

  function Payload(c: char): nat
    requires IsTail(c)
  {
    c as int - 0x80
  }

  /** What is written for a code point decodes to that code point, whatever follows it. */
  lemma Utf8RoundTrip(cp: nat, rest: string)
    requires cp < 0x11_0000
    ensures Utf8Decode(Utf8(cp) + rest) == (cp, Utf8Length(cp))
  {
    var s := Utf8(cp) + rest;
    assert At(s, 0) == Utf8(cp)[0];
    if cp >= 0x80 {
      assert At(s, 1) == Utf8(cp)[1];
      assert Payload(Tail(cp)) == cp % 0x40;
    }
    if cp >= 0x800 {
      assert At(s, 2) == Utf8(cp)[2];
      assert Payload(Tail(cp / 0x40)) == cp / 0x40 % 0x40;
      assert cp / 0x1000 == cp / 0x40 / 0x40;
    }
    if cp >= 0x1_0000 {
      assert At(s, 3) == Utf8(cp)[3];
      assert Payload(Tail(cp / 0x1000)) == cp / 0x1000 % 0x40;
      assert cp / 0x4_0000 == cp / 0x1000 / 0x40;
    }
  }

  /** A surrogate pair by the formula of section 2.1 of RFC 2781. */
  function FromSurrogates(hi: nat, lo: nat): (cp: nat)
    requires 0xD800 <= hi <= 0xDBFF && 0xDC00 <= lo <= 0xDFFF
    ensures 0x1_0000 <= cp < 0x11_0000
  {
    0x1_0000 + (hi % 0x400) * 0x400 + lo % 0x400
  }

  /** Encoding by section 2.1 of RFC 2781: the pair for a code point above the basic plane. */
  function ToSurrogates(cp: nat): (p: (nat, nat))
    requires 0x1_0000 <= cp < 0x11_0000
    ensures 0xD800 <= p.0 <= 0xDBFF && 0xDC00 <= p.1 <= 0xDFFF
  {
    (0xD800 + (cp - 0x1_0000) / 0x400, 0xDC00 + (cp - 0x1_0000) % 0x400)
  }

  lemma SurrogateRoundTrip(cp: nat, hi: nat, lo: nat)
    requires 0x1_0000 <= cp < 0x11_0000
    requires 0xD800 <= hi <= 0xDBFF && 0xDC00 <= lo <= 0xDFFF
    ensures FromSurrogates(hi, lo) == cp <==> ToSurrogates(cp) == (hi, lo)
  {
    assert (hi % 0x400) == hi - 0xD800 && lo % 0x400 == lo - 0xDC00;
  }

  /** `\uXXXX` or a surrogate pair at the start of `t`: the bytes written and the characters read. */
  function Transcode(t: string): (r: (string, nat))
    ensures 6 <= r.1 <= 12
  {
    var uc := ParseHex4(t, 2);
    if 0xDC00 <= uc <= 0xDFFF || uc == 0 then ("", 6)
    else if 0xD800 <= uc <= 0xDBFF then
      if At(t, 6) != '\\' || At(t, 7) != 'u' then ("", 6)
      else
        var uc2 := ParseHex4(t, 8);
        if !(0xDC00 <= uc2 <= 0xDFFF) then ("", 12) else (Utf8(FromSurrogates(uc, uc2)), 12)
    else (Utf8(uc), 6)
  }

  /** One escape sequence, at the backslash that starts `t`: the bytes written and the characters read. */
  function Escape(t: string): (r: (string, nat))
    ensures 2 <= r.1 <= 12 && |r.0| <= 4
  {
    var c := At(t, 1);
    if c == 'b' then ("\U{8}", 2)
    else if c == 'f' then ("\U{C}", 2)
    else if c == 'n' then ("\n", 2)
    else if c == 'r' then ("\r", 2)
    else if c == 't' then ("\t", 2)
    else if c == 'u' then Transcode(t)
    else ([c], 2)
  }

  // ---------- escapes that stand for no character ----------

  /** Zero, half a surrogate pair, and digits that are none write nothing; a broken pair is read with its second half. */
  lemma NothingTranscoded(t: string)
    requires 6 <= |t|
    ensures var h := t[2..6];
      !AllHexDigits(h) || HexMagnitude(h) == 0 || 0xDC00 <= HexMagnitude(h) <= 0xDFFF ==> Transcode(t) == ("", 6)
    ensures var h := t[2..6];
      AllHexDigits(h) && 0xD800 <= HexMagnitude(h) <= 0xDBFF ==>
        if At(t, 6) != '\\' || At(t, 7) != 'u' then Transcode(t) == ("", 6)
        else |t| >= 12 && !(AllHexDigits(t[8..12]) && 0xDC00 <= HexMagnitude(t[8..12]) <= 0xDFFF) ==>
          Transcode(t) == ("", 12)
  {
    hide ParseHex4, HexMagnitude, AllHexDigits, Utf8;
    ParseHex4IsMagnitude(t, 2);
    if |t| >= 12 {
      ParseHex4IsMagnitude(t, 8);
    }
  }

  /** A backslash in front of a character with no meaning of its own is dropped. */
  lemma OtherEscape(t: string)
    requires |t| >= 2 && t[1] !in "bfnrtu"
    ensures Escape(t) == ([t[1]], 2)
  {
  }
}

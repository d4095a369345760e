/** Decimal arithmetic: powers of ten over integer exponents, and the value of a digit string. */
module Numbers {
  import opened CText
  import opened Json

  function DigitValue(c: char): nat
    requires IsDigit(c)
  {
    c as int - '0' as int
  }

  function Pow10(e: int): real
    decreases if e < 0 then -e else e
  {
    if e == 0 then 1.0 else if e > 0 then 10.0 * Pow10(e - 1) else Pow10(e + 1) / 10.0
  }

  lemma Pow10Step(e: int)
    ensures Pow10(e + 1) == 10.0 * Pow10(e)
  {
    if e < 0 {
      TenTimesTenth(Pow10(e + 1));
    }
  }

  lemma TenTimesTenth(x: real)
    ensures 10.0 * (x / 10.0) == x
  {
  }

  lemma TimesAssoc(x: real, y: real, z: real)
    requires z == 10.0 * x
    ensures 10.0 * (x * y) == z * y
  {
  }

  lemma {:induction false} Pow10AddUp(a: nat, b: int)
    ensures Pow10(a + b) == Pow10(a) * Pow10(b)
  {
    if a > 0 {
      Pow10AddUp(a - 1, b);
      Pow10Step(a - 1 + b);
      Pow10Step(a - 1);
      TimesAssoc(Pow10(a - 1), Pow10(b), Pow10(a));
      assert Pow10(a + b) == 10.0 * Pow10(a - 1 + b);
    }
  }

  lemma Pow10Add(a: int, b: int)
    ensures Pow10(a + b) == Pow10(a) * Pow10(b)
  {
    if a >= 0 {
      Pow10AddUp(a, b);
    } else {
      Pow10AddUp(-a, a + b);
      Pow10AddUp(-a, a);
      Cancel(Pow10(-a), Pow10(a), Pow10(b), Pow10(a + b));
    }
  }

  lemma Cancel(x: real, y: real, z: real, w: real)
    requires z == x * w && x * y == 1.0
    ensures w == y * z
  {
    assert y * (x * w) == (x * y) * w;
  }

  /** The number a digit string denotes in base ten; the last digit is the units. */
  ghost function Magnitude(ds: string): nat
    requires AllDigits(ds)
  {
    if ds == "" then 0 else 10 * Magnitude(ds[..|ds| - 1]) + DigitValue(ds[|ds| - 1])
  }

  /** The digit loops of `parse_number`: `n = n * 10 + digit` while there are digits. */
  function Accumulate(n: nat, s: string): (r: (nat, string))
    ensures |r.1| <= |s|
    decreases |s|
  {
    if s != "" && IsDigit(s[0]) then Accumulate(10 * n + DigitValue(s[0]), s[1..]) else (n, s)
  }

  ghost function Exp10(k: nat): nat {
    if k == 0 then 1 else 10 * Exp10(k - 1)
  }

  lemma {:induction false} Exp10IsPow10(k: nat)
    ensures Exp10(k) as real == Pow10(k)
  {
    if k > 0 {
      Exp10IsPow10(k - 1);
    }
  }

  lemma {:induction false} MagnitudeFromFront(d: char, ds: string)
    requires IsDigit(d) && AllDigits(ds)
    ensures AllDigits([d] + ds)
    ensures Magnitude([d] + ds) == DigitValue(d) * Exp10(|ds|) + Magnitude(ds)
  {
    var all := [d] + ds;
    if ds == "" {
      assert all[..0] == "";
      assert Magnitude(all[..|all| - 1]) == 0;
    } else {
      assert all[..|all| - 1] == [d] + ds[..|ds| - 1];
      MagnitudeFromFront(d, ds[..|ds| - 1]);
      assert 10 * (DigitValue(d) * Exp10(|ds| - 1)) == DigitValue(d) * Exp10(|ds|);
    }
  }

  lemma Distributed(n: nat, d: nat, e: nat)
    ensures (10 * n + d) * e == n * (10 * e) + d * e
  {
  }

  /** The loops compute positional value: they read `ds`, all of it and nothing after it. */
  lemma {:induction false} AccumulateReads(n: nat, ds: string, rest: string)
    requires AllDigits(ds) && !IsDigit(At(rest, 0))
    ensures Accumulate(n, ds + rest) == (n * Exp10(|ds|) + Magnitude(ds), rest)
    decreases |ds|
  {
    if ds == "" {
      assert ds + rest == rest;
    } else {
      var t := ds[1..];
      assert (ds + rest)[1..] == t + rest;
      assert ds == [ds[0]] + t;
      AccumulateReads(10 * n + DigitValue(ds[0]), t, rest);
      MagnitudeFromFront(ds[0], t);
      Distributed(n, DigitValue(ds[0]), Exp10(|t|));
    }
  }

  lemma {:induction false} DecimalMagnitude(n: nat)
    ensures Magnitude(Decimal(n)) == n
  {
    if n >= 10 {
      var s := Decimal(n);
      assert s[..|s| - 1] == Decimal(n / 10);
      DecimalMagnitude(n / 10);
    } else {
      var s := Decimal(n);
      assert s == [Digit(n)] && s[..|s| - 1] == "";
      assert Magnitude(s) == 10 * Magnitude(s[..|s| - 1]) + DigitValue(s[|s| - 1]);
    }
  }

  /** What the loops of `parse_number` leave in `sign`, `n` and the exponent of ten. */
  datatype Scanned = Scanned(minus: bool, digits: nat, exponent: int) {
    /** `sign * n * pow(10, scale + subscale * signsubscale)`, without rounding. */
    function Value(): real {
      (if minus then -1.0 else 1.0) * digits as real * Pow10(exponent)
    }
  }

  /** `parse_number`, on the text that starts at the number: what it reads and the text after it. */
  function ParseNumber(s: string): (r: (Scanned, string))
    ensures |r.1| <= |s|
    ensures At(s, 0) == '-' || IsDigit(At(s, 0)) ==> |r.1| < |s|
  {
    var minus := At(s, 0) == '-';
    var (n, scale, t) := ParseMantissa(if minus then s[1..] else s);
    var (e, rest) := ParseExponent(t);
    (Scanned(minus, n, scale + e), rest)
  }

  function ParseMantissa(s: string): (r: (nat, int, string))
    ensures |r.2| <= |s|
    ensures IsDigit(At(s, 0)) ==> |r.2| < |s|
  {
    var t := if At(s, 0) == '0' then s[1..] else s;
    var (n, u) := if '1' <= At(t, 0) <= '9' then Accumulate(0, t) else (0, t);
    if At(u, 0) == '.' && IsDigit(At(u, 1)) then
      var (m, rest) := Accumulate(n, u[1..]);
      (m, |rest| - |u[1..]|, rest)
    else (n, 0, u)
  }

  function ParseExponent(s: string): (r: (int, string))
    ensures |r.1| <= |s|
  {
    if At(s, 0) != 'e' && At(s, 0) != 'E' then (0, s)
    else
      var t := s[1..];
      var minus := At(t, 0) == '-';
      var (k, rest) := Accumulate(0, if minus || At(t, 0) == '+' then t[1..] else t);
      (if minus then -(k as int) else k, rest)
  }
}

/** Hexadecimal digits by their places in the two rows of digits, and the number a row of them denotes. */
module HexDigits {
  const LOWER := "0123456789abcdef"
  const UPPER := "0123456789ABCDEF"

  ghost predicate StandsFor(c: char, k: int) {
    0 <= k < 16 && (c == LOWER[k] || c == UPPER[k])
  }

  ghost predicate IsHexDigit(c: char) {
    exists k: nat :: StandsFor(c, k)
  }

  /** The value of a digit: its place in one of the rows. */
  ghost function Place(c: char): (k: nat)
    requires IsHexDigit(c)
    ensures StandsFor(c, k)
  {
    var k: nat :| StandsFor(c, k);
    k
  }

  /** The code of the digit in a place. */
  lemma Digits(k: nat)
    requires k < 16
    ensures LOWER[k] as int == if k < 10 then '0' as int + k else 'a' as int + k - 10
    ensures UPPER[k] as int == if k < 10 then '0' as int + k else 'A' as int + k - 10
  {
  }

  /** No character stands for two values. */
  lemma PlaceIs(c: char, k: nat)
    requires StandsFor(c, k)
    ensures IsHexDigit(c) && Place(c) == k
  {
    Digits(k);
    Digits(Place(c));
  }

  ghost predicate AllHexDigits(h: string) {
    forall i | 0 <= i < |h| :: IsHexDigit(h[i])
  }

  /** The number that hexadecimal digits denote; the last digit is the units. */
  ghost function HexMagnitude(h: string): nat
    requires AllHexDigits(h)
  {
    if h == "" then 0 else 16 * HexMagnitude(h[..|h| - 1]) + Place(h[|h| - 1])
  }

  lemma HexMagnitudeMore(h: string, c: char)
    requires AllHexDigits(h) && IsHexDigit(c)
    ensures AllHexDigits(h + [c]) && HexMagnitude(h + [c]) == 16 * HexMagnitude(h) + Place(c)
  {
    assert (h + [c])[..|h|] == h;
  }

  lemma TwoDigits(c: char, d: char)
    requires IsHexDigit(c) && IsHexDigit(d)
    ensures AllHexDigits([c, d]) && HexMagnitude([c, d]) == 16 * Place(c) + Place(d)
  {
    HexMagnitudeMore("", c);
    HexMagnitudeMore("" + [c], d);
    assert "" + [c] + [d] == [c, d];
  }

  lemma FourDigits(h: string)
    requires |h| == 4 && AllHexDigits(h)
    ensures HexMagnitude(h) == ((Place(h[0]) * 16 + Place(h[1])) * 16 + Place(h[2])) * 16 + Place(h[3])
  {
    TwoDigits(h[0], h[1]);
    HexMagnitudeMore([h[0], h[1]], h[2]);
    HexMagnitudeMore([h[0], h[1]] + [h[2]], h[3]);
    assert [h[0], h[1]] + [h[2]] + [h[3]] == h;
  }
}

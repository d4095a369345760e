/** Bytes as numbers, and the arithmetic of fixed-size records in a row of bytes. */
module Bytes {
  type byte = x: int | 0 <= x < 256

  function Zeros(n: nat): (z: seq<byte>)
    ensures |z| == n && forall i | 0 <= i < n :: z[i] == 0
  {
    seq(n, _ => 0)
  }

  lemma NotNegative(a: nat, b: nat)
    ensures a * b >= 0
  {
  }

  lemma Distribute(x: int, y: int, s: int)
    ensures (x + y) * s == x * s + y * s
  {
  }

  lemma TimesAtLeast(d: int, max: nat)
    ensures d >= 1 ==> d * max >= max
    ensures d <= -1 ==> d * max + max <= 0
  {
    if d >= 1 {
      NotNegative(d - 1, max);
      Distribute(d - 1, 1, max);
    } else if d <= -1 {
      NotNegative(-d - 1, max);
      Distribute(-d - 1, 1, max);
      Opposite(d, max);
    }
  }

  lemma Opposite(d: int, max: int)
    ensures (-d) * max == -(d * max)
  {
  }

  lemma DivMod(x: int, q: int, r: int, m: int)
    requires m > 0 && x == q * m + r && 0 <= r < m
    ensures x / m == q && x % m == r
  {
    var q', r' := x / m, x % m;
    assert x == q' * m + r';
    TimesAtLeast(q - q', m);
    Distribute(q - q', q', m);
    assert (q - q') * m == r' - r;
  }
}

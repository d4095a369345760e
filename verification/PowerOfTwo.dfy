/** `pow2gt`: rounding a size up to a power of two by smearing the highest bit over all lower ones. */
module PowerOfTwo {

  function Exp2(k: nat): (p: nat)
    ensures p > 0
  {
    if k == 0 then 1 else 2 * Exp2(k - 1)
  }

  /** `x >> k` on a non-negative number. */
  function Shr(x: nat, k: nat): nat {
    if k == 0 then x else Shr(x, k - 1) / 2
  }

  /** `x | y` on non-negative numbers, from the lowest bit up. */
  function Or(x: nat, y: nat): nat {
    if x == 0 then y
    else if y == 0 then x
    else 2 * Or(x / 2, y / 2) + (if x % 2 == 1 || y % 2 == 1 then 1 else 0)
  }

  /** `pow2gt`. */
  function Pow2gt(x: nat): (p: nat)
    requires x > 0
    ensures p > 0
  {
    var a := x - 1;
    var b := Or(a, Shr(a, 1));
    var c := Or(b, Shr(b, 2));
    var d := Or(c, Shr(c, 4));
    var e := Or(d, Shr(d, 8));
    Or(e, Shr(e, 16)) + 1
  }

  /** `(x >> i) & 1` on a non-negative number. */
  predicate Bit(x: nat, i: nat) {
    Shr(x, i) % 2 == 1
  }

  lemma {:induction false} ShrHalf(x: nat, k: nat)
    ensures Shr(x / 2, k) == Shr(x, k + 1)
  {
    if k > 0 {
      ShrHalf(x, k - 1);
    }
  }

  lemma {:induction false} ShrShr(x: nat, j: nat, k: nat)
    ensures Shr(Shr(x, j), k) == Shr(x, j + k)
  {
    if k > 0 {
      ShrShr(x, j, k - 1);
    }
  }

  lemma {:induction false} ShrZero(k: nat)
    ensures Shr(0, k) == 0
  {
    if k > 0 {
      ShrZero(k - 1);
    }
  }

  lemma LowBit(x: nat)
    ensures Bit(x, 0) <==> x % 2 == 1
  {
  }

  lemma HigherBit(x: nat, i: nat)
    requires i > 0
    ensures Bit(x, i) <==> Bit(x / 2, i - 1)
  {
    ShrHalf(x, i - 1);
  }

  lemma OrStep(x: nat, y: nat)
    requires x > 0 && y > 0
    ensures Or(x, y) / 2 == Or(x / 2, y / 2) && (Or(x, y) % 2 == 1 <==> x % 2 == 1 || y % 2 == 1)
  {
  }

  lemma NoBit(i: nat)
    ensures !Bit(0, i)
  {
    ShrZero(i);
  }

  lemma {:induction false} OrBit(x: nat, y: nat, i: nat)
    ensures Bit(Or(x, y), i) <==> Bit(x, i) || Bit(y, i)
    decreases i
  {
    hide Bit;
    if x == 0 || y == 0 {
      NoBit(i);
    } else {
      hide Or;
      OrStep(x, y);
      if i == 0 {
        LowBit(x);
        LowBit(y);
        LowBit(Or(x, y));
      } else {
        OrBit(x / 2, y / 2, i - 1);
        HigherBit(x, i);
        HigherBit(y, i);
        HigherBit(Or(x, y), i);
      }
    }
  }

  /** Bit `i` of `y` is set just when `x` has a bit set among the `w` from `i` on. */
  ghost predicate Window(y: nat, x: nat, w: nat) {
    forall i: nat :: Bit(y, i) <==> exists j :: i <= j < i + w && Bit(x, j)
  }

  lemma Smear(y: nat, x: nat, w: nat)
    requires Window(y, x, w)
    ensures Window(Or(y, Shr(y, w)), x, w + w)
  {
    forall i: nat
      ensures Bit(Or(y, Shr(y, w)), i) <==> exists j :: i <= j < i + w + w && Bit(x, j)
    {
      OrBit(y, Shr(y, w), i);
      ShrShr(y, w, i);
      assert Bit(Shr(y, w), i) <==> Bit(y, i + w);
      if j :| i <= j < i + w + w && Bit(x, j) {
        assert j < i + w || i + w <= j < i + w + w;
      }
    }
  }

  lemma SmallBits(x: nat, n: nat, i: nat)
    requires x < Exp2(n) && i >= n
    ensures !Bit(x, i) && Shr(x, i) == 0
  {
    ShrBound(x, n);
    ShrShr(x, n, i - n);
    ShrZero(i - n);
  }

  lemma {:induction false} ShrBound(x: nat, n: nat)
    requires x < Exp2(n)
    ensures Shr(x, n) == 0
    decreases n
  {
    if n > 0 {
      ShrBound(x / 2, n - 1);
      ShrHalf(x, n - 1);
    }
  }

  /** A number whose bits are exactly those below `n` is all ones. */
  lemma {:induction false} Ones(y: nat, n: nat)
    requires forall i: nat :: Bit(y, i) <==> i < n
    ensures y + 1 == Exp2(n)
    decreases n
  {
    if n == 0 {
      if y > 0 {
        var i := HighBit(y);
      }
    } else {
      assert Bit(y, 0);
      forall i: nat
        ensures Bit(y / 2, i) <==> i < n - 1
      {
        ShrHalf(y, i);
        assert Bit(y, i + 1) <==> i + 1 < n;
      }
      Ones(y / 2, n - 1);
    }
  }

  /** The highest bit of a number. */
  lemma {:induction false} HighBit(x: nat) returns (i: nat)
    requires x > 0
    ensures Bit(x, i) && Exp2(i) <= x < Exp2(i + 1)
    decreases x
  {
    if x == 1 {
      i := 0;
    } else {
      i := HighBit(x / 2);
      ShrHalf(x, i);
      i := i + 1;
    }
  }

  lemma Smeared(x: nat)
    requires x > 0
    ensures Window(Pow2gt(x) - 1, x - 1, 32)
  {
    hide Or, Shr, Window;
    var a := x - 1;
    var b := Or(a, Shr(a, 1));
    var c := Or(b, Shr(b, 2));
    var d := Or(c, Shr(c, 4));
    var e := Or(d, Shr(d, 8));
    FirstWindow(a);
    Smear(a, a, 1);
    Smear(b, a, 2);
    Smear(c, a, 4);
    Smear(d, a, 8);
    Smear(e, a, 16);
  }

  lemma Exp2Of30()
    ensures Exp2(30) == 0x4000_0000
  {
    assert Exp2(10) == 1024;
    assert Exp2(20) == 0x10_0000;
  }

  /**
   `pow2gt` gives the least power of two that is not below its argument, for every argument up to 2^30; above that
   the result does not fit an `int`.
   */
  lemma Pow2gtRoundsUp(x: nat) returns (k: nat)
    requires 0 < x <= 0x4000_0000
    ensures Pow2gt(x) == Exp2(k) && x <= Exp2(k) && (k > 0 ==> Exp2(k - 1) < x)
  {
    hide Window, Bit, Pow2gt;
    var a, y := x - 1, Pow2gt(x) - 1;
    Smeared(x);
    Exp2Of30();
    k := 0;
    if a > 0 {
      var m := HighBit(a);
      k := m + 1;
    }
    forall i: nat
      ensures Bit(y, i) <==> i < k
    {
      WindowBit(y, a, k, i);
    }
    Ones(y, k);
  }

  lemma FirstWindow(a: nat)
    ensures Window(a, a, 1)
  {
  }

  lemma {:induction false} Exp2Monotone(i: nat, j: nat)
    requires i <= j
    ensures Exp2(i) <= Exp2(j)
    decreases j - i
  {
    if i < j {
      Exp2Monotone(i, j - 1);
    }
  }

  lemma WindowBit(y: nat, a: nat, k: nat, i: nat)
    requires Window(y, a, 32) && a < Exp2(30)
    requires a == 0 ==> k == 0
    requires a > 0 ==> k > 0 && Bit(a, k - 1) && Exp2(k - 1) <= a < Exp2(k)
    ensures Bit(y, i) <==> i < k
  {
    if a == 0 {
      forall j: nat
        ensures !Bit(a, j)
      {
        ShrZero(j);
      }
    } else {
      if k > 30 {
        Exp2Monotone(30, k - 1);
      }
      forall j: nat | j >= k
        ensures !Bit(a, j)
      {
        SmallBits(a, k, j);
      }
      if i < k {
        assert i <= k - 1 < i + 32 && Bit(a, k - 1);
      }
    }
  }
}

/** Bitwise operations on natural numbers, bit by bit.

    The fixed-width words of the sources are natural numbers here, and a width is a bound `Pow2(n)`
    stated where it matters. Each operation is defined by recursion on halves: the lowest bit, and the
    operation on what is left. The laws that the sources rely on are then inductions on the number of
    bits: masking with the complement of `2^k - 1` rounds down to a multiple of `2^k`, masking with
    `2^k - 1` takes the remainder, xor cancels, and a xor with its own right shift can be undone. */
module Bits {

  function Pow2(n: nat): (r: nat)
    ensures 0 < r
  {
    if n == 0 then 1 else 2 * Pow2(n - 1)
  }

  /** The low `n` bits of `x & y`. */
  function And(x: nat, y: nat, n: nat): nat {
    if n == 0 then 0 else (x % 2) * (y % 2) + 2 * And(x / 2, y / 2, n - 1)
  }

  function Xor(x: nat, y: nat): nat
    decreases x + y
  {
    if x == 0 && y == 0 then 0 else (x + y) % 2 + 2 * Xor(x / 2, y / 2)
  }

  function Shr(x: nat, s: nat): nat
    decreases s
  {
    if s == 0 then x else Shr(x / 2, s - 1)
  }

  lemma {:induction false} Pow2Sum(m: nat, n: nat)
    ensures Pow2(m + n) == Pow2(m) * Pow2(n)
  {
    if m > 0 {
      Pow2Sum(m - 1, n);
    }
  }

  lemma DoubleMod(x: nat, m: nat)
    requires 0 < m
    ensures x % (2 * m) == x % 2 + 2 * ((x / 2) % m)
  {
    var q, r := (x / 2) / m, (x / 2) % m;
    assert x == (2 * m) * q + (2 * r + x % 2) by {
      assert x / 2 == m * q + r;
    }
    DivModUnique(x, 2 * m, q, 2 * r + x % 2);
  }

  lemma DivModUnique(x: int, d: int, q: int, r: int)
    requires 0 < d && 0 <= r < d && x == d * q + r
    ensures x / d == q && x % d == r
  {
    var q', r' := x / d, x % d;
    assert x == d * q' + r' && 0 <= r' < d;
    assert d * (q - q') == r' - r by {
      assert d * q - d * q' == d * (q - q');
    }
    assert q - q' >= 1 ==> d * (q - q') >= d;
    assert q - q' <= -1 ==> d * (q - q') <= -d;
  }

  lemma Halves(a: nat, b: nat)
    requires b <= a
    ensures (2 * a - 2 * b) / 2 == a - b && (2 * a - 2 * b) % 2 == 0
    ensures 0 < a ==> (2 * a - 1) / 2 == a - 1 && (2 * a - 1) % 2 == 1
  {}

  /** Masking with all ones keeps the value. */
  lemma {:induction false} AndOnes(x: nat, n: nat)
    requires x < Pow2(n)
    ensures And(x, Pow2(n) - 1, n) == x
  {
    if n > 0 {
      Halves(Pow2(n - 1), 0);
      AndOnes(x / 2, n - 1);
    }
  }

  /** Masking with the low k bits is the remainder. */
  lemma {:induction false} AndLowBits(x: nat, k: nat, n: nat)
    requires k <= n
    ensures And(x, Pow2(k) - 1, n) == x % Pow2(k)
  {
    if k == 0 {
      AndZero(x, n);
    } else {
      var m := Pow2(k - 1);
      assert Pow2(k) == 2 * m;
      AndLowBits(x / 2, k - 1, n - 1);
      AndLowStep(x, m, n);
    }
  }

  lemma AndLowStep(x: nat, m: nat, n: nat)
    requires 0 < n && 0 < m && And(x / 2, m - 1, n - 1) == (x / 2) % m
    ensures And(x, 2 * m - 1, n) == x % (2 * m)
  {
    Halves(m, 0);
    AndOdd(x, 2 * m - 1, n);
    DoubleMod(x, m);
  }

  lemma {:induction false} AndZero(x: nat, n: nat)
    ensures And(x, 0, n) == 0
  {
    if n > 0 {
      AndZero(x / 2, n - 1);
    }
  }

  lemma AndOdd(x: nat, y: nat, n: nat)
    requires 0 < n && y % 2 == 1
    ensures And(x, y, n) == x % 2 + 2 * And(x / 2, y / 2, n - 1)
  {}

  /** Masking with the complement of the low k bits rounds down to a multiple of 2^k. */
  lemma {:induction false} AndHighBits(x: nat, k: nat, n: nat)
    requires k <= n && x < Pow2(n)
    ensures Pow2(k) <= Pow2(n)
    ensures And(x, Pow2(n) - Pow2(k), n) == x - x % Pow2(k)
  {
    if k == 0 {
      AndOnes(x, n);
      assert x % 1 == 0;
    } else {
      var p, m := Pow2(n - 1), Pow2(k - 1);
      assert Pow2(n) == 2 * p && Pow2(k) == 2 * m;
      AndHighBits(x / 2, k - 1, n - 1);
      AndHighStep(x, p, m, n);
    }
  }

  lemma AndHighStep(x: nat, p: nat, m: nat, n: nat)
    requires 0 < n && 0 < m <= p && And(x / 2, p - m, n - 1) == x / 2 - (x / 2) % m
    ensures And(x, 2 * p - 2 * m, n) == x - x % (2 * m)
  {
    Halves(p, m);
    AndStep(x, 2 * p - 2 * m, n);
    DoubleMod(x, m);
  }

  lemma AndStep(x: nat, y: nat, n: nat)
    requires 0 < n && y % 2 == 0
    ensures And(x, y, n) == 2 * And(x / 2, y / 2, n - 1)
  {}

  // ----- exclusive or ------------------------------------------------------------------------

  lemma {:induction false} XorParts(x: nat, y: nat)
    ensures Xor(x, y) % 2 == (x + y) % 2 && Xor(x, y) / 2 == Xor(x / 2, y / 2)
  {
    var b, h := (x + y) % 2, Xor(x / 2, y / 2);
    assert Xor(x, y) == b + 2 * h;
  }

  lemma {:induction false} XorZero(x: nat)
    ensures Xor(x, 0) == x && Xor(0, x) == x
  {
    if x > 0 {
      XorZero(x / 2);
    }
  }

  lemma {:induction false} XorSelf(x: nat)
    ensures Xor(x, x) == 0
  {
    if x > 0 {
      XorSelf(x / 2);
    }
  }

  lemma {:induction false} XorAssociative(x: nat, y: nat, z: nat)
    ensures Xor(Xor(x, y), z) == Xor(x, Xor(y, z))
    decreases x + y + z
  {
    if x + y + z > 0 {
      XorAssociative(x / 2, y / 2, z / 2);
      XorStep(x, y, z);
    }
  }

  lemma XorStep(x: nat, y: nat, z: nat)
    requires Xor(Xor(x / 2, y / 2), z / 2) == Xor(x / 2, Xor(y / 2, z / 2))
    ensures Xor(Xor(x, y), z) == Xor(x, Xor(y, z))
  {
    var u, v := Xor(x, y), Xor(y, z);
    XorParts(x, y);
    XorParts(y, z);
    XorParts(u, z);
    XorParts(x, v);
    ParityOfSum(x, y, z, u, v);
    SameHalves(Xor(u, z), Xor(x, v));
  }

  lemma ParityOfSum(x: nat, y: nat, z: nat, u: nat, v: nat)
    requires u % 2 == (x + y) % 2 && v % 2 == (y + z) % 2
    ensures (u + z) % 2 == (x + v) % 2
  {}

  lemma SameHalves(a: nat, b: nat)
    requires a % 2 == b % 2 && a / 2 == b / 2
    ensures a == b
  {}

  lemma {:induction false} XorBound(x: nat, y: nat, n: nat)
    requires x < Pow2(n) && y < Pow2(n)
    ensures Xor(x, y) < Pow2(n)
  {
    if n > 0 && x + y > 0 {
      XorBound(x / 2, y / 2, n - 1);
    }
  }

  /** Exclusive or with the same value can be cancelled. */
  lemma XorCancel(x: nat, y: nat, z: nat)
    requires Xor(x, y) == Xor(x, z)
    ensures y == z
  {
    XorTwice(x, y);
    XorTwice(x, z);
  }

  lemma XorTwice(x: nat, y: nat)
    ensures Xor(x, Xor(x, y)) == y
  {
    XorAssociative(x, x, y);
    XorSelf(x);
    XorZero(y);
  }

  lemma {:induction false} XorCommutes(x: nat, y: nat)
    ensures Xor(x, y) == Xor(y, x)
    decreases x + y
  {
    if x + y > 0 {
      XorCommutes(x / 2, y / 2);
    }
  }

  // ----- shifts --------------------------------------------------------------------------------

  lemma {:induction false} ShrXor(x: nat, y: nat, s: nat)
    ensures Shr(Xor(x, y), s) == Xor(Shr(x, s), Shr(y, s))
    decreases s
  {
    if s > 0 {
      XorParts(x, y);
      ShrXor(x / 2, y / 2, s - 1);
    }
  }

  lemma {:induction false} ShrBound(x: nat, s: nat)
    ensures Shr(x, s) <= x && (0 < s && 0 < x ==> Shr(x, s) < x)
    decreases s
  {
    if s > 0 {
      ShrBound(x / 2, s - 1);
    }
  }

  /** `x ^ (x >> s)` */
  function XorShift(x: nat, s: nat): nat {
    Xor(x, Shr(x, s))
  }

  function UnXorShift(y: nat, s: nat): nat
    requires 0 < s
    decreases y
  {
    if y == 0 then 0 else
      ShrBound(y, s);
      Xor(y, UnXorShift(Shr(y, s), s))
  }

  lemma {:induction false} UnXorShiftRight(y: nat, s: nat)
    requires 0 < s
    ensures XorShift(UnXorShift(y, s), s) == y
    decreases y
  {
    if y == 0 {
      ShrBound(0, s);
    } else {
      ShrBound(y, s);
      var y' := Shr(y, s);
      var u' := UnXorShift(y', s);
      UnXorShiftRight(y', s);
      // u >> s == (y >> s) ^ (u' >> s) == u' ^ (u' >> s) ^ (u' >> s) == u'
      ShrXor(y, u', s);
      XorAssociative(u', Shr(u', s), Shr(u', s));
      XorSelf(Shr(u', s));
      XorZero(u');
      XorAssociative(y, u', u');
      XorSelf(u');
      XorZero(y);
    }
  }

  /** Only 0 is its own shift, so a shifted exclusive or determines its argument. */
  lemma XorShiftInjective(x: nat, y: nat, s: nat)
    requires 0 < s && XorShift(x, s) == XorShift(y, s)
    ensures x == y
  {
    var d := Xor(x, y);
    var sx, sy := Shr(x, s), Shr(y, s);
    ShrXor(x, y, s);
    // (x ^ sx) ^ (y ^ sy) == 0 rearranges to d ^ (sx ^ sy) == 0
    XorSelf(XorShift(x, s));
    XorRearrange(x, sx, y, sy);
    XorSelf(d);
    XorCancel(d, Shr(d, s), d);
    ShrBound(d, s);
    XorSelf(x);
    XorCancel(x, y, x);
  }

  lemma XorRearrange(a: nat, b: nat, c: nat, d: nat)
    ensures Xor(Xor(a, b), Xor(c, d)) == Xor(Xor(a, c), Xor(b, d))
  {
    XorAssociative(a, b, Xor(c, d));
    XorAssociative(b, c, d);
    XorCommutes(b, c);
    XorAssociative(c, b, d);
    XorAssociative(a, c, Xor(b, d));
  }

  lemma UnXorShiftLeft(x: nat, s: nat)
    requires 0 < s
    ensures UnXorShift(XorShift(x, s), s) == x
  {
    UnXorShiftRight(XorShift(x, s), s);
    XorShiftInjective(UnXorShift(XorShift(x, s), s), x, s);
  }

  lemma {:induction false} UnXorShiftBound(y: nat, s: nat, n: nat)
    requires 0 < s && y < Pow2(n)
    ensures UnXorShift(y, s) < Pow2(n)
    decreases y
  {
    if y > 0 {
      ShrBound(y, s);
      UnXorShiftBound(Shr(y, s), s, n);
      XorBound(y, UnXorShift(Shr(y, s), s), n);
    }
  }

  lemma XorShiftBound(x: nat, s: nat, n: nat)
    requires x < Pow2(n)
    ensures XorShift(x, s) < Pow2(n)
  {
    ShrBound(x, s);
    XorBound(x, Shr(x, s), n);
  }
}

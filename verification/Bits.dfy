/**
 Unsigned machine arithmetic over unbounded naturals: powers of two, shifts, the bitwise
 operators of C on non-negative values, and the lemmas that relate masks and shifts to
 quotients and remainders.
 */
module Bits {

  function Pow2(n: nat): (r: nat)
    ensures r > 0
  {
    if n == 0 then 1 else 2 * Pow2(n - 1)
  }

  /** `x >> n`: the quotient by `2^n` (see `ShrLow`). */
  function Shr(x: nat, n: nat): nat {
    if n == 0 then x else Shr(x / 2, n - 1)
  }

  /** The low `n` bits of `x`: the remainder modulo `2^n` (see `ShrLow`). */
  function Low(x: nat, n: nat): nat {
    if n == 0 then 0 else 2 * Low(x / 2, n - 1) + x % 2
  }

  /** `x & y` */
  function And(x: nat, y: nat): nat {
    if x == 0 || y == 0 then 0
    else 2 * And(x / 2, y / 2) + (if x % 2 == 1 && y % 2 == 1 then 1 else 0)
  }

  /** `x | y` */
  function Or(x: nat, y: nat): nat {
    if x == 0 then y
    else if y == 0 then x
    else 2 * Or(x / 2, y / 2) + (if x % 2 == 1 || y % 2 == 1 then 1 else 0)
  }

  /** `x ^ y` */
  function Xor(x: nat, y: nat): nat {
    if x == 0 then y
    else if y == 0 then x
    else 2 * Xor(x / 2, y / 2) + (if x % 2 != y % 2 then 1 else 0)
  }

  /** `x << n` in a `w`-bit unsigned type. */
  function Shl(x: nat, n: nat, w: nat): nat {
    Low(x * Pow2(n), w)
  }

  /** `x - y` in a `w`-bit unsigned type, for `x` and `y` of that type. */
  function Sub(x: nat, y: nat, w: nat): nat
    requires x < Pow2(w) && y < Pow2(w)
  {
    if x >= y then x - y else x + Pow2(w) - y
  }

  // ---------------------------------------------------------------- products and powers

  lemma MulMono(a: nat, b: nat, c: nat)
    requires a <= b
    ensures a * c <= b * c
  {
  }

  lemma MulLess(a: nat, b: nat, c: nat)
    requires a < b && c > 0
    ensures a * c < b * c && a * c + c <= b * c
  {
    MulMono(a + 1, b, c);
  }

  lemma Associate(a: nat, b: nat, c: nat)
    ensures a * (b * c) == a * b * c
  {
  }

  lemma Expand(a: int, b: int, c: int)
    ensures (a + b) * c == a * c + b * c
  {
  }

  lemma Distribute(a: int, b: int)
    ensures (a + 1) * b == a * b + b
  {
  }

  lemma {:induction false} Pow2Add(a: nat, b: nat)
    ensures Pow2(a + b) == Pow2(a) * Pow2(b)
    decreases a
  {
    if a > 0 {
      Pow2Add(a - 1, b);
      assert Pow2(a + b) == 2 * Pow2(a - 1 + b);
    }
  }

  lemma {:induction false} Pow2Mono(a: nat, b: nat)
    requires a <= b
    ensures Pow2(a) <= Pow2(b)
    ensures a < b ==> 2 * Pow2(a) <= Pow2(b)
  {
    if a < b {
      Pow2Mono(a, b - 1);
    }
  }


  // ---------------------------------------------------------------- shifts as division

  /** `Shr` and `Low` are the quotient and remainder of division by `2^n`. */
  lemma {:induction false} ShrLow(x: nat, n: nat)
    ensures x == Shr(x, n) * Pow2(n) + Low(x, n)
    ensures Low(x, n) < Pow2(n)
    decreases n
  {
    if n > 0 {
      ShrLow(x / 2, n - 1);
      Double(Shr(x, n), Pow2(n - 1));
    }
  }

  lemma Double(a: nat, b: nat)
    ensures 2 * (a * b) == a * (2 * b)
  {
  }

  /** The decomposition is the only one. */
  lemma {:induction false} ShrLowUnique(x: nat, n: nat, q: nat, r: nat)
    requires r < Pow2(n) && x == q * Pow2(n) + r
    ensures Shr(x, n) == q && Low(x, n) == r
    decreases n
  {
    if n > 0 {
      Double(q, Pow2(n - 1));
      ShrLowUnique(x / 2, n - 1, q, r / 2);
    }
  }

  lemma ShrLowSmall(x: nat, n: nat)
    requires x < Pow2(n)
    ensures Shr(x, n) == 0 && Low(x, n) == x
  {
    ShrLowUnique(x, n, 0, x);
  }

  /** Shifting twice is shifting once, and the bits lost add up. */
  lemma {:induction false} ShrAdd(x: nat, a: nat, b: nat)
    ensures Shr(Shr(x, a), b) == Shr(x, a + b)
    ensures Low(x, a + b) == Low(Shr(x, a), b) * Pow2(a) + Low(x, a)
    decreases a
  {
    if a > 0 {
      ShrAdd(x / 2, a - 1, b);
      assert a + b - 1 == a - 1 + b;
      Double(Low(Shr(x, a), b), Pow2(a - 1));
    }
  }

  /** Scaling a number by a power of two shifts its parts. */
  lemma {:induction false} ShrLowScaled(x: nat, a: nat, w: nat)
    requires a <= w
    ensures Low(x * Pow2(a), w) == Low(x, w - a) * Pow2(a)
  {
    if a > 0 {
      ShrLowScaled(x, a - 1, w - 1);
      ScaledStep(x, w, Low(x, w - a), Pow2(a - 1));
    }
  }

  lemma ScaledStep(x: nat, w: nat, low: nat, p: nat)
    requires w > 0 && Low(x * p, w - 1) == low * p
    ensures Low(x * (2 * p), w) == low * (2 * p)
  {
    hide Low;
    LowDouble(x * p, w);
    Double(x, p);
    Double(low, p);
  }

  lemma LowDouble(y: nat, w: nat)
    requires w > 0
    ensures Low(2 * y, w) == 2 * Low(y, w - 1)
  {
    assert 2 * y / 2 == y && 2 * y % 2 == 0;
  }

  /** Truncating twice is truncating to the smaller width. */
  lemma {:induction false} LowLow(x: nat, a: nat, b: nat)
    requires a <= b
    ensures Low(Low(x, b), a) == Low(x, a)
  {
    if a > 0 {
      LowLow(x / 2, a - 1, b - 1);
    }
  }

  /** A multiple of `2^n` only adds to the quotient. */
  lemma {:induction false} ShrPlusMultiple(a: nat, x: nat, n: nat)
    ensures Shr(a * Pow2(n) + x, n) == a + Shr(x, n)
  {
    ShrLow(x, n);
    Expand(a, Shr(x, n), Pow2(n));
    ShrLowUnique(a * Pow2(n) + x, n, a + Shr(x, n), Low(x, n));
  }


  // ---------------------------------------------------------------- bit operators

  /** Masking with `2^n - 1` keeps the low `n` bits. */
  lemma {:induction false} AndLowMask(x: nat, n: nat)
    ensures And(x, Pow2(n) - 1) == Low(x, n)
  {
    if n == 0 || x == 0 {
      ShrLowSmall(0, n);
    } else {
      AndLowMask(x / 2, n - 1);
      var m := Pow2(n) - 1;
      OddMask(m, Pow2(n - 1));
      assert And(x, m) == 2 * And(x / 2, m / 2) + x % 2;
    }
  }

  lemma OddMask(m: nat, p: nat)
    requires m == 2 * p - 1
    ensures m / 2 == p - 1 && m % 2 == 1
  {
  }

  /** Masking with `2^n` isolates bit `n`. */
  lemma {:induction false} AndBit(x: nat, n: nat)
    ensures And(x, Pow2(n)) == (Shr(x, n) % 2) * Pow2(n)
  {
    if x == 0 {
      ShrLowSmall(0, n);
    } else if n == 0 {
      assert And(x / 2, 0) == 0;
    } else {
      AndBit(x / 2, n - 1);
    }
  }

  /** Fields that do not overlap are joined by addition. */
  lemma {:induction false} OrDisjoint(hi: nat, lo: nat, n: nat)
    requires lo < Pow2(n)
    ensures Or(hi * Pow2(n), lo) == hi * Pow2(n) + lo
    ensures Or(lo, hi * Pow2(n)) == hi * Pow2(n) + lo
    decreases n
  {
    if n > 0 && hi * Pow2(n) != 0 && lo != 0 {
      Double(hi, Pow2(n - 1));
      OrDisjoint(hi, lo / 2, n - 1);
    }
  }

  /** Flipping the leading bit of a number clears it. */
  lemma {:induction false} XorLeadingBit(x: nat, n: nat)
    requires Pow2(n) <= x < 2 * Pow2(n)
    ensures Xor(x, Pow2(n)) == x - Pow2(n)
  {
    if n > 0 {
      XorLeadingBit(x / 2, n - 1);
    }
  }
}

/**
 The literals on which building a JSON value throws are those that round to an infinite double
 in the sense of `FloatFormat`, and `1e400` is one of them.
 */
module JsonOverflow {
  import opened Prelude
  import opened Bits
  import opened FloatFormat
  import opened NarrowingExact
  import JsonCursor
  import opened JsonGrammar
  import opened JsonContexts

  type Text = JsonCursor.Text

  /** Half way from the greatest finite number to the power of two that would come next. */
  function Threshold(f: Format): nat
    requires f.Valid() && f.Bias() > f.sig
  {
    Pow2Mono(f.Bias() - f.sig - 1, f.Bias() + 1);
    Pow2(f.Bias() + 1) - Pow2(f.Bias() - f.sig - 1)
  }

  /** The two encodings around the threshold, counted in least subnormals. */
  lemma {:induction false} AroundThreshold(f: Format)
    requires f.Valid() && f.Bias() > f.sig
    ensures f.Infinity() >= 1
    ensures f.Magnitude(f.Infinity() - 1) + f.Magnitude(f.Infinity()) == 2 * (Threshold(f) * Pow2(f.LeastExp()))
  {
    var b := f.Bias();
    BiasValue(f);
    TopMagnitudes(f);
    Pow2Add(b + 1, f.LeastExp());
    Pow2Add(b - f.sig - 1, f.LeastExp());
    Minus(Pow2(b + 1), Pow2(b - f.sig - 1), Pow2(f.LeastExp()));
    assert Pow2(2 * b - 1) == 2 * Pow2(2 * b - 2);
  }

  lemma {:induction false} TopMagnitudes(f: Format)
    requires f.Valid() && f.Bias() > f.sig
    ensures f.Infinity() >= 1
    ensures f.Magnitude(f.Infinity()) == Pow2(2 * f.Bias() + f.sig)
    ensures f.Magnitude(f.Infinity() - 1) == Pow2(2 * f.Bias() + f.sig) - Pow2(2 * f.Bias() - 1)
  {
    BiasValue(f);
    var (e, p) := (f.InfExp(), Pow2(f.sig));
    LastFinite(e, p);
    MagnitudeOfFields(f, e, 0);
    MagnitudeOfFields(f, e - 1, p - 1);
    MagnitudeSucc(f, e * p - 1);
    Pow2Add(f.sig, e - 1);
  }

  lemma LastFinite(e: nat, p: nat)
    requires e > 0 && p > 0
    ensures (e - 1) * p + (p - 1) == e * p - 1
  {
  }

  lemma Minus(a: int, b: int, c: int)
    ensures (a - b) * c == a * c - b * c
  {
  }

  // ---------------------------------------------------------------- decimal numbers

  lemma {:induction false} Scale10Product(m: nat, k: nat)
    ensures Scale10(m, k) == m * Scale10(1, k)
    decreases k
  {
    if k > 0 {
      Scale10Product(10 * m, k - 1);
      Scale10Product(10, k - 1);
      TimesTen(m, Scale10(1, k - 1));
    }
  }

  lemma TimesTen(m: nat, x: nat)
    ensures 10 * m * x == m * (10 * x)
  {
  }

  lemma {:induction false} Scale10Positive(k: nat)
    ensures Scale10(1, k) > 0
  {
    if k > 0 {
      Scale10Product(10, k - 1);
      Scale10Positive(k - 1);
    }
  }

  /** A decimal number as a fraction. */
  function Numerator(x: Decimals): nat {
    if x.scale >= 0 then Scale10(x.digits, x.scale) else x.digits
  }

  function Denominator(x: Decimals): (r: nat)
    ensures r > 0
  {
    if x.scale >= 0 then 1 else Scale10Positive(-x.scale); Scale10(1, -x.scale)
  }

  lemma AtLeastIsFraction(x: Decimals, n: nat)
    ensures x.AtLeast(n) <==> Numerator(x) >= n * Denominator(x)
  {
    if x.scale < 0 {
      Scale10Product(n, -x.scale);
    }
  }

  lemma CancelFactor(a: nat, b: nat, p: nat)
    requires p > 0
    ensures a * p >= b * p <==> a >= b
  {
    if a >= b {
      MulMono(b, a, p);
    } else {
      MulLess(a, b, p);
    }
  }

  lemma Reorder(t: nat, p: nat, u: nat)
    ensures 2 * (t * p) * u == 2 * (t * u * p)
  {
  }

  /**
   In any format: a decimal number is at least the threshold exactly when its rounding, as
   section 4.3.1 of IEEE 754-2019 defines it, is infinity.
   */
  lemma {:induction false} InfiniteIffAtLeast(f: Format, x: Decimals, r: nat)
    requires f.Valid() && f.Bias() > f.sig
    requires RoundsTo(f, Numerator(x) * Pow2(f.LeastExp()), Denominator(x), r)
    ensures r == f.Infinity() <==> x.AtLeast(Threshold(f))
  {
    hide RoundsTo, Numerator, Denominator, Threshold;
    var (n, u, p, t) := (Numerator(x), Denominator(x), Pow2(f.LeastExp()), Threshold(f));
    InfiniteIff(f, n * p, u, r);
    AroundThreshold(f);
    Expand(f.Magnitude(f.Infinity() - 1), f.Magnitude(f.Infinity()), u);
    Reorder(t, p, u);
    CancelFactor(n, t * u, p);
    AtLeastIsFraction(x, t);
  }

  // ---------------------------------------------------------------- doubles

  lemma {:induction false} DoubleLimit(f: Format)
    requires f == BINARY64
    ensures f.Valid() && f.Bias() > f.sig && DOUBLE_LIMIT == Threshold(f)
  {
    Powers();
    assert f.Bias() == 1023;
    BigPowers(970, 54, 1024);
  }

  /** `2^(2n)` and `2^(2n+1)` from `2^n`. */
  lemma Doubled(n: nat, m: nat, v: nat)
    requires Pow2(n) == v && 2 * n <= m <= 2 * n + 1
    ensures Pow2(m) == if m == 2 * n then v * v else 2 * (v * v)
  {
    Pow2Add(n, n);
  }

  lemma {:induction false} BigPowers(a: nat, b: nat, c: nat)
    requires a == 970 && b == 54 && c == 1024
    ensures Pow2(c) - Pow2(a) == DOUBLE_LIMIT
  {
    hide Pow2;
    var (p7, p15, p30, p60, p121, p242, p485) := (7, 15, 30, 60, 121, 242, 485);
    Powers();
    Doubled(p7, p15, 0x80);
    Doubled(p15, p30, 0x8000);
    Doubled(p30, p60, 0x4000_0000);
    Doubled(p60, p121, 0x1000000000000000);
    Doubled(p121, p242, 0x2000000000000000000000000000000);
    Doubled(p242, p485, 0x4000000000000000000000000000000000000000000000000000000000000);
    Doubled(p485, a, 0x20000000000000000000000000000000000000000000000000000000000000000000000000000000000000000000000000000000000000000000000000);
    Doubled(13, 27, 0x2000) by {
      Doubled(6, 13, 0x40);
    }
    Doubled(27, b, 0x800_0000);
    Pow2Add(a, b);
  }

  /** The literals that overflow are those whose exact value rounds to an infinite double. */
  lemma OverflowsIffInfinite(s: Text, f: Format, r: nat)
    requires f == BINARY64
    requires f.Valid()
    requires RoundsTo(f, Numerator(Exact(s)) * Pow2(f.LeastExp()), Denominator(Exact(s)), r)
    ensures Overflows(s) <==> r == f.Infinity()
  {
    hide Exact, RoundsTo;
    DoubleLimit(f);
    InfiniteIffAtLeast(f, Exact(s), r);
  }

  // ---------------------------------------------------------------- a literal that overflows

  lemma {:induction false} TenIsMoreThanEight(k: nat)
    ensures Scale10(1, k) >= Pow2(3 * k)
  {
    if k > 0 {
      TenIsMoreThanEight(k - 1);
      Scale10Product(10, k - 1);
      assert Pow2(3 * k) == 2 * Pow2(3 * k - 1) == 4 * Pow2(3 * k - 2) == 8 * Pow2(3 * (k - 1));
    }
  }

  lemma LargeExponent(x: Decimals)
    requires x.digits >= 1 && x.scale >= 342
    ensures x.AtLeast(DOUBLE_LIMIT)
  {
    hide Pow2, Scale10;
    var c := 1024;
    BigPowers(970, 54, c);
    TenIsMoreThanEight(x.scale);
    Pow2Mono(c, 3 * x.scale);
    Scale10Product(x.digits, x.scale);
    MulMono(1, x.digits, Scale10(1, x.scale));
  }

  /** The five characters of `1e400`. */
  const ONE_E_400: Text := ['1' as int, 'e' as int, '4' as int, '0' as int, '0' as int]

  lemma NotAnInteger(s: Text, i: nat)
    requires i < |s| && IsDigit(s[0]) && !IsDigit(s[i])
    ensures ToInt64(s) == None
  {
    assert !AllDigits(s);
  }

  lemma LiteralShape(t: Text)
    requires t == ONE_E_400
    ensures ToInt64(t) == None && IsDouble(t) && Exact(t) == Decimals(1, 400)
  {
    NotAnInteger(t, 1);
    assert SignEnd(t, 0) == 0 && SignEnd(t, 2) == 2;
    assert DigitsEnd(t, 0) == DigitsEnd(t, 1) == 1;
    assert DigitsEnd(t, 2) == DigitsEnd(t, 3) == DigitsEnd(t, 4) == DigitsEnd(t, 5) == 5;
    assert t[0..1] + [] == ['1' as int] && t[2..] == ['4' as int, '0' as int, '0' as int];
    DecimalOne('1' as int);
    DecimalThree('4' as int, '0' as int, '0' as int);
  }

  lemma DecimalOne(a: int)
    requires 0 <= a < 256
    ensures Decimal([a], 0) == DigitValue(a)
  {
    assert [a][1..] == [];
  }

  lemma DecimalThree(a: int, b: int, c: int)
    requires 0 <= a < 256 && 0 <= b < 256 && 0 <= c < 256
    ensures Decimal([a, b, c], 0) == 100 * DigitValue(a) + 10 * DigitValue(b) + DigitValue(c)
  {
    assert [a, b, c][1..] == [b, c] && [b, c][1..] == [c] && [c][1..] == [];
    var x := DigitValue(a);
    assert Decimal([a, b, c], 0) == Decimal([b, c], x);
    assert Decimal([b, c], x) == Decimal([c], 10 * x + DigitValue(b));
    assert Decimal([c], 10 * x + DigitValue(b)) == Decimal([], 10 * (10 * x + DigitValue(b)) + DigitValue(c));
  }

  lemma WholeLiteral(t: Text)
    requires t == ONE_E_400
    ensures NumberEnd(t, 0) == 5 && t[0..5] == t
  {
    assert NumberEnd(t, 0) == NumberEnd(t, 1) == NumberEnd(t, 2) == NumberEnd(t, 3) == NumberEnd(t, 4) == NumberEnd(t, 5) == 5;
  }

  /** The checking parser accepts `1e400`, and the building parser throws. */
  lemma ContextsDiffer(t: Text)
    requires t == ONE_E_400
    ensures Parse(Validating, t, 0) == Ok(Null, 5)
    ensures Parse(Building, t, 0) == Thrown(5)
  {
    assert JsonCursor.SkipWs(t, 0) == 0;
    LiteralShape(t);
    LargeExponent(Exact(t));
    assert Overflows(t);
    hide ToInt64, IsDouble, Exact, Overflows;
    WholeLiteral(t);
    hide NumberEnd;
    assert NumberValue(t) == Some(Double(t));
  }
}

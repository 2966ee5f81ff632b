/**
 Counting leading zeros and the widening conversion as they are written. The conversion is
 proved equal to the arithmetic of `Widening`.
 */
module WidenCode {
  import opened Bits
  import opened FloatFormat
  import opened Narrowing
  import opened NarrowingExact
  import opened NarrowCode
  import opened Widening

  // ---------------------------------------------------------------- leading zeros

  lemma {:induction false} BitLenShr(x: nat, n: nat)
    requires Shr(x, n) > 0
    ensures BitLen(x) == n + BitLen(Shr(x, n))
  {
    if n > 0 {
      if x == 0 {
        ShrLowSmall(0, n);
      }
      BitLenShr(x / 2, n - 1);
    }
  }

  lemma {:induction false} BitLenFits(x: nat, n: nat)
    requires x < Pow2(n)
    ensures BitLen(x) <= n
  {
    if x > 0 {
      PositiveFits(x, n);
    }
  }

  lemma PositiveFits(x: nat, n: nat)
    requires 0 < x < Pow2(n)
    ensures BitLen(x) <= n
  {
    hide BitLen, Pow2;
    BitLenBounds(x);
    if BitLen(x) > n {
      Pow2Mono(n, BitLen(x) - 1);
    }
  }

  /** One step of the search: look at the bits from `n` up. */
  lemma {:induction false} ClzStep(x: nat, n: nat)
    requires x < Pow2(n) * Pow2(n)
    ensures Shr(x, n) < Pow2(n)
    ensures Shr(x, n) == 0 ==> x < Pow2(n)
    ensures Shr(x, n) != 0 ==> BitLen(x) == n + BitLen(Shr(x, n))
  {
    ShrLow(x, n);
    if Shr(x, n) >= Pow2(n) {
      MulMono(Pow2(n), Shr(x, n), Pow2(n));
    }
    if Shr(x, n) != 0 {
      BitLenShr(x, n);
    }
  }

  lemma {:induction false} Squares()
    ensures Pow2(2) == 4 && Pow2(4) == 16 && Pow2(8) == 256 && Pow2(16) == 65536
    ensures Pow2(32) == Pow2(16) * Pow2(16) && Pow2(16) == Pow2(8) * Pow2(8)
    ensures Pow2(8) == Pow2(4) * Pow2(4) && Pow2(4) == Pow2(2) * Pow2(2)
  {
    assert Pow2(2) == 4;
    Pow2Add(2, 2);
    Pow2Add(4, 4);
    Pow2Add(8, 8);
    Pow2Add(16, 16);
  }

  /** The number of leading zeros of a 32-bit value. */
  method Clz(x0: nat) returns (r: nat)
    requires x0 < Pow2(32)
    ensures BitLen(x0) <= 32 && r == 32 - BitLen(x0)
  {
    Squares();
    BitLenFits(x0, 32);
    var n, x := 32, x0;
    n, x := ClzHalve(n, x, 16);
    n, x := ClzHalve(n, x, 8);
    n, x := ClzHalve(n, x, 4);
    n, x := ClzHalve(n, x, 2);
    var y := x / 2;
    if y != 0 {
      return n - 2;
    }
    return n - x;
  }

  /** Halve the search: drop the low `k` bits when any higher bit is set. */
  method ClzHalve(n: nat, x: nat, k: nat) returns (n': nat, x': nat)
    requires x < Pow2(k) * Pow2(k) && BitLen(x) <= n
    ensures x' < Pow2(k) && n - BitLen(x) == n' - BitLen(x')
  {
    n', x' := n, x;
    ClzStep(x, k);
    var y := Shr(x, k);
    if y != 0 {
      n', x' := n - k, y;
    }
  }

  // ---------------------------------------------------------------- the paths of the conversion

  method WidenNormal(s: Format, d: Format, aAbs: nat) returns (absResult: nat)
    requires Widens(s, d)
    requires s.MinNormal() <= aAbs < s.Infinity()
    ensures absResult == WidenAbs(s, d, aAbs)
  {
    GapIsNatural(d, s);
    var k, dw, gap := d.sig - s.sig, d.Bits(), d.Bias() - s.Bias();
    NormalSum(s, d, aAbs);
    absResult := Shl(aAbs, k, dw);
    absResult := Low(absResult + Shl(gap, d.sig, dw), dw);
  }

  lemma {:induction false} NormalSum(s: Format, d: Format, x: nat)
    requires Widens(s, d)
    requires s.MinNormal() <= x < s.Infinity()
    ensures var (k, dw, g) := (Dropped(d, s), d.Bits(), Gap(d, s));
            Low(Shl(x, k, dw) + Shl(g, d.sig, dw), dw) == WidenAbs(s, d, x)
  {
    hide Shr, Low, Shl;
    var k, dw, g := Dropped(d, s), d.Bits(), Gap(d, s);
    ShrLow(x, s.sig);
    ExponentInRange(s.Exponent(x), s.Fraction(x), Pow2(s.sig), 1, s.InfExp());
    NormalRegroup(s, d, x);
    NormalFields(s, d, s.Exponent(x), s.Fraction(x));
    InfinityFits(d);
    assert Pow2(dw) == 2 * d.SignMask();
    hide Pow2;
    ShlSum(x, k, g, d.sig, dw);
  }

  lemma {:induction false} ShlSum(x: nat, k: nat, g: nat, n: nat, w: nat)
    requires x * Pow2(k) + g * Pow2(n) < Pow2(w)
    ensures Low(Shl(x, k, w) + Shl(g, n, w), w) == x * Pow2(k) + g * Pow2(n)
  {
    hide Pow2, Low;
    SumFits(x * Pow2(k), g * Pow2(n), w);
  }

  lemma {:induction false} SumFits(a: nat, b: nat, w: nat)
    requires a + b < Pow2(w)
    ensures Low(Low(a, w) + Low(b, w), w) == a + b
  {
    ShrLowSmall(a, w);
    ShrLowSmall(b, w);
    ShrLowSmall(a + b, w);
  }

  method WidenSpecial(s: Format, d: Format, aAbs: nat) returns (absResult: nat)
    requires Widens(s, d)
    requires s.Infinity() <= aAbs
    ensures absResult == WidenAbs(s, d, aAbs)
  {
    var k, dw := d.sig - s.sig, d.Bits();
    var srcQNaN := Pow2(s.sig - 1);
    SpecialFields(s, d, aAbs);
    absResult := d.Infinity();
    absResult := Or(absResult, Shl(And(aAbs, srcQNaN), k, dw));
    absResult := Or(absResult, Shl(And(aAbs, srcQNaN - 1), k, dw));
  }

  /** Infinity, the shifted quiet bit and the shifted payload occupy separate fields. */
  lemma {:induction false} SpecialFields(s: Format, d: Format, x: nat)
    requires Widens(s, d)
    ensures var (k, dw, q) := (Dropped(d, s), d.Bits(), Pow2(s.sig - 1));
            Or(Or(d.Infinity(), Shl(And(x, q), k, dw)), Shl(And(x, q - 1), k, dw)) ==
            d.Infinity() + s.Fraction(x) * Pow2(k)
  {
    var k, n, b, c := Dropped(d, s), s.sig - 1, Shr(x, s.sig - 1) % 2, Low(x, s.sig - 1);
    QuietBitUp(s, d, x);
    PayloadUp(s, d, x);
    hide Pow2, Low, Shr, Or, And, Shl;
    LowTopBit(x, n);
    Expand(c, b * Pow2(n), Pow2(k));
    Pow2Add(n, k);
    Associate(b, Pow2(n), Pow2(k));
    JoinSpecial(d.InfExp(), d.sig, b, c * Pow2(k));
  }

  lemma {:induction false} QuietBitUp(s: Format, d: Format, x: nat)
    requires Widens(s, d)
    ensures Shl(And(x, Pow2(s.sig - 1)), Dropped(d, s), d.Bits()) == Shr(x, s.sig - 1) % 2 * Pow2(d.sig - 1)
  {
    var k, n, b := Dropped(d, s), s.sig - 1, Shr(x, s.sig - 1) % 2;
    assert Pow2(s.sig) == 2 * Pow2(n);
    AndBit(x, n);
    hide Pow2, Shr, And, Shl;
    ShlSmallField(b * Pow2(n), s.sig, k, d);
    Pow2Add(n, k);
    Associate(b, Pow2(n), Pow2(k));
  }

  lemma {:induction false} PayloadUp(s: Format, d: Format, x: nat)
    requires Widens(s, d)
    ensures Shl(And(x, Pow2(s.sig - 1) - 1), Dropped(d, s), d.Bits()) == Low(x, s.sig - 1) * Pow2(Dropped(d, s))
    ensures Low(x, s.sig - 1) * Pow2(Dropped(d, s)) < Pow2(d.sig - 1)
  {
    var k, n := Dropped(d, s), s.sig - 1;
    hide Pow2, Low, Shr, And, Shl;
    AndLowMask(x, n);
    ShrLow(x, n);
    ShlSmallField(Low(x, n), n, k, d);
    Pow2Add(n, k);
    MulLess(Low(x, n), Pow2(n), Pow2(k));
  }

  lemma {:induction false} ShlSmallField(x: nat, n: nat, k: nat, d: Format)
    requires x < Pow2(n) && n + k <= d.sig
    ensures Shl(x, k, d.Bits()) == x * Pow2(k)
  {
    Pow2Mono(n, d.Bits() - k);
    ShlFits(x, k, d.Bits());
  }

  lemma {:induction false} JoinNoQuiet(i: nat, n: nat, lo: nat)
    requires n >= 1 && lo < Pow2(n - 1)
    ensures Or(Or(i * Pow2(n), 0), lo) == i * Pow2(n) + lo
  {
    assert Pow2(n) == 2 * Pow2(n - 1);
    OrZero(i * Pow2(n));
    hide Or, Pow2;
    OrDisjoint(i, lo, n);
  }

  lemma OrZero(x: nat)
    ensures Or(x, 0) == x
  {
  }

  lemma {:induction false} JoinSpecial(i: nat, n: nat, b: nat, lo: nat)
    requires n >= 1 && b <= 1 && lo < Pow2(n - 1)
    ensures Or(Or(i * Pow2(n), b * Pow2(n - 1)), lo) == i * Pow2(n) + b * Pow2(n - 1) + lo
  {
    hide Or, Pow2;
    if b == 0 {
      JoinNoQuiet(i, n, lo);
    } else {
      QuietJoin(i, n, lo);
    }
  }

  /** How far the leading one lies below the implicit position. */
  method CountScale(s: Format, aAbs: nat) returns (scale: int)
    requires s.sig < 32 && aAbs < s.MinNormal()
    ensures scale == Scale(s, aAbs)
  {
    Pow2Mono(s.sig, 32);
    BitLenUnique(s.MinNormal(), s.sig + 1);
    var z := Clz(aAbs);
    var z' := Clz(s.MinNormal());
    scale := z as int - z' as int;
  }

  method WidenDenormal(s: Format, d: Format, aAbs: nat) returns (absResult: nat)
    requires Widens(s, d)
    requires 0 < aAbs < s.MinNormal()
    ensures absResult == WidenSubnormal(s, d, aAbs)
  {
    GapIsNatural(d, s);
    var k, gap := d.sig - s.sig, d.Bias() - s.Bias();
    var scale := CountScale(s, aAbs);
    SubnormalShift(s, d, aAbs);
    absResult := Renormalise(d, aAbs, k + scale, gap - scale + 1);
  }

  /** Shift the leading one into place, clear it and insert the exponent. */
  method Renormalise(d: Format, aAbs: nat, shift: nat, resultExponent: int) returns (absResult: nat)
    requires Pow2(d.sig) <= aAbs * Pow2(shift) < 2 * Pow2(d.sig)
    ensures absResult == aAbs * Pow2(shift) - Pow2(d.sig) + ExponentField(d, resultExponent)
  {
    var dw := d.Bits();
    Pow2Mono(d.sig + 1, dw);
    ShrLowSmall(aAbs * Pow2(shift), dw);
    absResult := Shl(aAbs, shift, dw);
    XorLeadingBit(absResult, d.sig);
    absResult := Xor(absResult, Pow2(d.sig));
    var unsigned: nat := if resultExponent < 0 then resultExponent % Pow2(dw) else resultExponent;
    ShrLowScaled(unsigned, d.sig, dw);
    OrDisjoint(Low(unsigned, d.exp + 1), absResult, d.sig);
    absResult := Or(absResult, Shl(unsigned, d.sig, dw));
  }

  // ---------------------------------------------------------------- the whole conversion

  lemma {:induction false} WidenConstants(s: Format)
    requires s.Valid()
    ensures Shl(1, s.sig + s.exp, s.Bits()) == s.SignMask()
    ensures Shl(s.InfExp(), s.sig, s.Bits()) == s.Infinity()
    ensures s.MinNormal() < s.Infinity() < s.SignMask() < Pow2(s.Bits())
  {
    assert Pow2(s.exp + 1) == 2 * Pow2(s.exp);
    ShlFits(1, s.sig + s.exp, s.Bits());
    ShlFits(s.InfExp(), s.sig, s.Bits());
    InfinityFits(s);
    Pow2Mono(2, s.exp);
    assert Pow2(2) == 4;
    MulLess(1, s.InfExp(), Pow2(s.sig));
  }

  /** Moving the sign bit up. */
  lemma {:induction false} SignUp(s: Format, d: Format, negative: bool)
    requires Widens(s, d)
    ensures Shl(if negative then s.SignMask() else 0, d.Bits() - s.Bits(), d.Bits()) == if negative then d.SignMask() else 0
  {
    var n := d.Bits() - s.Bits();
    if negative {
      Pow2Add(s.sig + s.exp, n);
      ShrLowSmall(d.SignMask(), d.Bits());
    } else {
      ShrLowSmall(0, d.Bits());
    }
  }

  /**
   The conversion. Its result is `WidenRep` in every pair of formats; where the bias gap covers
   the source's subnormals, which by `ExactIffGapCovers` is where it is exact, that is `Extend`.
   */
  method Widen(s: Format, d: Format, aRep: nat) returns (result: nat)
    requires Widens(s, d)
    requires aRep < Pow2(s.Bits())
    ensures result == WidenRep(s, d, aRep)
    ensures Gap(d, s) >= s.sig ==> result == Extend(s, d, aRep)
  {
    WidenConstants(s);
    SplitSign(s, aRep);
    var w := s.Bits();
    var srcMinNormal, srcInfinity := s.MinNormal(), Shl(s.InfExp(), s.sig, w);
    var srcSignMask := Shl(1, s.sig + s.exp, w);
    var aAbs := And(aRep, srcSignMask - 1);
    var sign := And(aRep, srcSignMask);
    var absResult: nat;
    if Sub(aAbs, srcMinNormal, w) < srcInfinity - srcMinNormal {
      absResult := WidenNormal(s, d, aAbs);
    } else if aAbs >= srcInfinity {
      absResult := WidenSpecial(s, d, aAbs);
    } else if aAbs != 0 {
      absResult := WidenDenormal(s, d, aAbs);
    } else {
      absResult := 0;
    }
    SignUp(s, d, Negative(s, aRep));
    result := Or(absResult, Shl(sign, d.Bits() - w, d.Bits()));
    if Gap(d, s) >= s.sig {
      WidenRepIsExtend(s, d, aRep);
    }
  }
}

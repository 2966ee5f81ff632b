/**
 The narrowing conversion as it is written: fixed-width unsigned variables, masks, shifts
 and a wrap-around range test. Proved equal to the arithmetic of `Narrowing`.
 */
module NarrowCode {
  import opened Bits
  import opened FloatFormat
  import opened Narrowing
  import opened NarrowingExact

  // ---------------------------------------------------------------- facts about the constants

  lemma {:induction false} ShlFits(x: nat, n: nat, w: nat)
    requires n <= w && x < Pow2(w - n)
    ensures Shl(x, n, w) == x * Pow2(n)
  {
    ShrLowScaled(x, n, w);
    ShrLowSmall(x, w - n);
  }

  lemma {:induction false} Constants(s: Format, d: Format)
    requires Narrows(s, d)
    ensures Shl(1, s.sig + s.exp, s.Bits()) == s.SignMask()
    ensures Shl(s.InfExp(), s.sig, s.Bits()) == s.Infinity()
    ensures Shl(Gap(s, d) + 1, s.sig, s.Bits()) == Underflow(s, d)
    ensures Shl(Gap(s, d) + d.InfExp(), s.sig, s.Bits()) == Overflow(s, d)
    ensures Underflow(s, d) < Overflow(s, d) <= s.Infinity() < s.SignMask() < Pow2(s.Bits())
  {
    var w := s.Bits();
    assert Pow2(s.exp + 1) == 2 * Pow2(s.exp);
    ShlFits(1, s.sig + s.exp, w);
    ShlFits(s.InfExp(), s.sig, w);
    BelowInfinity(s, d);
    BiasValue(s);
    BiasValue(d);
    ShlFits(Gap(s, d) + 1, s.sig, w);
    ShlFits(Gap(s, d) + d.InfExp(), s.sig, w);
    InfinityFits(s);
  }

  /** One unsigned comparison of two wrapped differences tests membership of `[u, o)`. */
  lemma RangeTest(x: nat, u: nat, o: nat, w: nat)
    requires x < Pow2(w) && u <= o < Pow2(w)
    ensures Sub(x, u, w) < Sub(x, o, w) <==> u <= x < o
  {
  }

  /** Splitting an encoding with the sign mask and its complement. */
  lemma {:induction false} SplitSign(f: Format, rep: nat)
    requires rep < Pow2(f.Bits())
    ensures And(rep, f.SignMask() - 1) == Abs(f, rep)
    ensures And(rep, f.SignMask()) == if Negative(f, rep) then f.SignMask() else 0
    ensures Abs(f, rep) < f.SignMask()
  {
    var n := f.sig + f.exp;
    AndLowMask(rep, n);
    AndBit(rep, n);
    ShrLowUnique(rep, n, if Negative(f, rep) then 1 else 0, Abs(f, rep));
  }

  /** Joining the sign and the sign-less result. */
  lemma {:induction false} JoinSign(s: Format, d: Format, negative: bool, x: nat)
    requires Narrows(s, d) && x < d.SignMask()
    ensures Or(x, Shr(if negative then s.SignMask() else 0, s.Bits() - d.Bits())) == Signed(d, negative, x)
  {
    var n, h := s.Bits() - d.Bits(), d.sig + d.exp;
    if negative {
      ShrPow2(s.sig + s.exp, n);
      OrDisjoint(1, x, h);
    } else {
      ShrLowSmall(0, n);
    }
  }

  // ---------------------------------------------------------------- the rounding step

  /**
   Round to nearest, ties to even, as both paths of the code do it: `absResult` is `n >> k`,
   and `m` is any number that shares the dropped bits of `n`.
   */
  method RoundNearest(ghost n: nat, m: nat, absResult: nat, k: nat, dw: nat) returns (r: nat)
    requires k >= 1 && absResult + 1 < Pow2(dw)
    requires absResult == Shr(n, k) && Low(m, k) == Low(n, k)
    ensures r == RoundShift(n, k)
  {
    var roundMask, halfway := Pow2(k) - 1, Pow2(k - 1);
    var roundBits := And(m, roundMask);
    AndLowMask(m, k);
    AndLowMask(absResult, 1);
    ShrLowSmall(absResult + 1, dw);
    ShrLowSmall(absResult, dw);
    r := absResult;
    if roundBits > halfway {
      r := Low(r + 1, dw);
    } else if roundBits == halfway {
      r := Low(r + And(r, 1), dw);
    }
  }

  // ---------------------------------------------------------------- in range

  /** Unsigned subtraction of truncated values is exact when the true difference fits. */
  lemma {:induction false} SubOfLow(a: nat, b: nat, w: nat)
    requires b <= a < b + Pow2(w)
    ensures Low(a, w) < Pow2(w) && Low(b, w) < Pow2(w)
    ensures Sub(Low(a, w), Low(b, w), w) == a - b
  {
    ShrLow(a, w);
    ShrLow(b, w);
    QuotientsClose(Shr(a, w), Low(a, w), Shr(b, w), Low(b, w), Pow2(w));
  }

  lemma QuotientsClose(q: nat, r: nat, q': nat, r': nat, m: nat)
    requires r < m && r' < m
    requires q' * m + r' <= q * m + r < q' * m + r' + m
    ensures q * m == q' * m || q * m == q' * m + m
  {
    Distribute(q', m);
    if q < q' {
      MulLess(q, q', m);
    } else if q > q' + 1 {
      MulLess(q' + 1, q, m);
    }
  }

  /** Dropping the bias gap before or after the shift gives the same encoding. */
  lemma {:induction false} RebiasCommutes(s: Format, d: Format, x: nat)
    requires Narrows(s, d) && x >= Underflow(s, d)
    ensures var (g, k) := (Gap(s, d), Dropped(s, d));
            && g * Pow2(d.sig) <= Shr(x, k)
            && x >= g * Pow2(s.sig)
            && Shr(x - g * Pow2(s.sig), k) == Shr(x, k) - g * Pow2(d.sig)
            && Low(x - g * Pow2(s.sig), k) == Low(x, k)
  {
    hide Pow2, Shr, Low, Gap;
    var g, k := Gap(s, d), Dropped(s, d);
    UnderflowCoversGap(s, d);
    ShrLow(x, k);
    Pow2Add(d.sig, k);
    QuotientShift(Shr(x, k), g * Pow2(d.sig), Pow2(k), Low(x, k));
    Associate(g, Pow2(d.sig), Pow2(k));
    ShrLowUnique(x - g * Pow2(s.sig), k, Shr(x, k) - g * Pow2(d.sig), Low(x, k));
  }

  lemma QuotientShift(a: nat, b: nat, p: nat, c: nat)
    requires c < p && a * p + c >= b * p
    ensures a >= b && (a - b) * p + c == a * p + c - b * p
  {
    if a < b {
      MulLess(a, b, p);
    }
  }

  lemma {:induction false} InRangeBound(s: Format, d: Format, x: nat)
    requires Narrows(s, d) && Underflow(s, d) <= x < Overflow(s, d)
    ensures x >= Gap(s, d) * Pow2(s.sig)
    ensures Shr(x - Gap(s, d) * Pow2(s.sig), Dropped(s, d)) + 1 < Pow2(d.Bits())
  {
    NormalRounds(s, d, x);
    UnderflowCoversGap(s, d);
    InfinityFits(d);
    assert Pow2(d.Bits()) == 2 * d.SignMask();
  }

  method NarrowInRange(s: Format, d: Format, aAbs: nat) returns (absResult: nat)
    requires Narrows(s, d)
    requires Underflow(s, d) <= aAbs < Overflow(s, d)
    ensures absResult == NarrowNormal(s, d, aAbs)
  {
    GapIsNatural(s, d);
    var k, dw, gap := s.sig - d.sig, d.Bits(), s.Bias() - d.Bias();
    absResult := Low(Shr(aAbs, k), dw);
    var rebias := Shl(Low(gap, dw), d.sig, dw);
    RebiasCommutes(s, d, aAbs);
    InRangeBound(s, d, aAbs);
    ShrLowScaled(Low(gap, dw), d.sig, dw);
    ShrLowScaled(gap, d.sig, dw);
    LowLow(gap, dw - d.sig, dw);
    SubOfLow(Shr(aAbs, k), gap * Pow2(d.sig), dw);
    absResult := Sub(absResult, rebias, dw);
    ghost var y := aAbs - gap * Pow2(s.sig);
    absResult := RoundNearest(y, aAbs, absResult, k, dw);
  }

  // ---------------------------------------------------------------- below the normal range

  /** The bits lost by `>> t` are those a left shift by `w - t` keeps. */
  lemma {:induction false} StickyTest(n: nat, t: nat, w: nat)
    requires t <= w
    ensures Shl(n, w - t, w) != 0 <==> Low(n, t) != 0
  {
    ShrLowScaled(n, w - t, w);
  }

  lemma {:induction false} TinyBounds(s: Format, d: Format, x: nat, t: nat)
    requires Narrows(s, d) && 1 <= t
    ensures var n := Pow2(s.sig) + s.Fraction(x);
            && Shr(Jam(Shr(n, t), Low(n, t) != 0), Dropped(s, d)) < Pow2(d.sig)
            && StickyRound(n, t, Dropped(s, d)) < d.SignMask()
            && Pow2(d.sig) + 1 < Pow2(d.Bits())
  {
    var n, k := Pow2(s.sig) + s.Fraction(x), Dropped(s, d);
    ShrLow(x, s.sig);
    SmallQuotient(n, s.sig + 1, t, s.sig);
    JamKeepsQuotient(Shr(n, t), k, Low(n, t) != 0);
    SmallQuotient(Shr(n, t), s.sig, k, d.sig);
    Pow2Mono(d.sig + 1, d.sig + d.exp);
    Pow2Mono(1, d.sig);
    assert Pow2(d.Bits()) == 2 * d.SignMask();
  }

  lemma OrOne(n: nat)
    ensures Or(n, 0) == n && Or(n, 1) == Jam(n, true)
  {
    assert Or(n / 2, 0) == n / 2;
  }

  method ShiftWithSticky(significand: nat, shift: nat, w: nat) returns (denormalized: nat)
    requires shift <= w
    ensures denormalized == Jam(Shr(significand, shift), Low(significand, shift) != 0)
  {
    var sticky := Shl(significand, w - shift, w) != 0;
    StickyTest(significand, shift, w);
    OrOne(Shr(significand, shift));
    denormalized := Or(Shr(significand, shift), if sticky then 1 else 0);
  }

  method NarrowDenormal(s: Format, d: Format, aRep: nat, aAbs: nat) returns (absResult: nat)
    requires Narrows(s, d)
    requires aAbs < Underflow(s, d) && s.Fraction(aRep) == s.Fraction(aAbs)
    ensures absResult == NarrowTiny(s, d, aAbs)
  {
    hide Pow2, Low, Or, And, RoundShift;
    GapIsNatural(s, d);
    var w, k, dw := s.Bits(), s.sig - d.sig, d.Bits();
    var aExp := Shr(aAbs, s.sig);
    var shift := s.Bias() - d.Bias() - aExp + 1;
    ShrLow(aAbs, s.sig);
    ExponentInRange(aExp, s.Fraction(aAbs), Pow2(s.sig), 0, Gap(s, d) + 1);
    var significand := Or(And(aRep, Pow2(s.sig) - 1), Pow2(s.sig));
    AndLowMask(aRep, s.sig);
    OrDisjoint(1, s.Fraction(aAbs), s.sig);
    if shift > s.sig {
      absResult := 0;
    } else {
      var denormalized := ShiftWithSticky(significand, shift, w);
      TinyBounds(s, d, aAbs, shift);
      ShrLowSmall(Shr(denormalized, k), dw);
      absResult := Low(Shr(denormalized, k), dw);
      absResult := RoundNearest(denormalized, denormalized, absResult, k, dw);
    }
  }

  // ---------------------------------------------------------------- not a number

  lemma {:induction false} PayloadBound(s: Format, d: Format, x: nat)
    requires Narrows(s, d)
    ensures Shr(Low(x, s.sig - 1), Dropped(s, d)) < Pow2(d.sig - 1)
  {
    ShrLow(x, s.sig - 1);
    SmallQuotient(Low(x, s.sig - 1), s.sig - 1, Dropped(s, d), d.sig - 1);
  }

  /** Infinity, the quiet bit and a payload do not overlap. */
  lemma {:induction false} QuietJoin(i: nat, n: nat, payload: nat)
    requires n >= 1 && payload < Pow2(n - 1)
    ensures Or(i * Pow2(n), Pow2(n - 1)) == i * Pow2(n) + Pow2(n - 1)
    ensures Or(i * Pow2(n) + Pow2(n - 1), payload) == i * Pow2(n) + Pow2(n - 1) + payload
  {
    OrDisjoint(i, Pow2(n - 1), n);
    QuietField(i, n);
    OrDisjoint(2 * i + 1, payload, n - 1);
  }

  lemma {:induction false} QuietField(i: nat, n: nat)
    requires n >= 1
    ensures i * Pow2(n) + Pow2(n - 1) == (2 * i + 1) * Pow2(n - 1)
  {
    Double(i, Pow2(n - 1));
    Distribute(2 * i, Pow2(n - 1));
  }

  method NarrowQuiet(s: Format, d: Format, aAbs: nat) returns (absResult: nat)
    requires Narrows(s, d)
    ensures absResult == NarrowNaN(s, d, aAbs)
  {
    hide Pow2, Low, Shr, Or, And;
    var dstQNaN, srcNaNCode := Pow2(d.sig - 1), Pow2(s.sig - 1) - 1;
    AndLowMask(aAbs, s.sig - 1);
    PayloadBound(s, d, aAbs);
    var payload := Shr(And(aAbs, srcNaNCode), s.sig - d.sig);
    AndLowMask(payload, d.sig - 1);
    ShrLowSmall(payload, d.sig - 1);
    QuietJoin(d.InfExp(), d.sig, payload);
    absResult := d.Infinity();
    absResult := Or(absResult, dstQNaN);
    absResult := Or(absResult, And(payload, dstQNaN - 1));
  }

  // ---------------------------------------------------------------- the whole conversion

  lemma {:induction false} ResultFits(s: Format, d: Format, x: nat)
    requires Narrows(s, d)
    ensures NarrowAbs(s, d, x) < d.SignMask()
  {
    InfinityFits(d);
    BelowInfinity(s, d);
    if x > s.Infinity() {
      PayloadBound(s, d, x);
    } else if x >= Underflow(s, d) {
      NormalSourcesAlwaysRound(s, d, x);
    } else {
      ShrLow(x, s.sig);
      ExponentInRange(s.Exponent(x), s.Fraction(x), Pow2(s.sig), 0, Gap(s, d) + 1);
      TinyBounds(s, d, x, Shift(s, d, x));
    }
  }

  /**
   The conversion, for a source representation no narrower than `int`, so that the
   subtractions of the range test are unsigned. Its meaning is `Convert`: the sign is kept
   and the rest is `NarrowAbs`, which `NarrowingRounds` shows to be correct rounding.
   */
  method Narrow(s: Format, d: Format, aRep: nat) returns (result: nat)
    requires Narrows(s, d) && s.Bits() >= 32
    requires aRep < Pow2(s.Bits())
    ensures result == Convert(s, d, aRep)
    ensures result < Pow2(d.Bits())
  {
    GapIsNatural(s, d);
    Constants(s, d);
    SplitSign(s, aRep);
    var w, gap := s.Bits(), s.Bias() - d.Bias();
    var srcInfinity := Shl(s.InfExp(), s.sig, w);
    var srcSignMask := Shl(1, s.sig + s.exp, w);
    var underflow := Shl(gap + 1, s.sig, w);
    var overflow := Shl(gap + d.InfExp(), s.sig, w);
    var aAbs := And(aRep, srcSignMask - 1);
    var sign := And(aRep, srcSignMask);
    var absResult: nat;
    RangeTest(aAbs, underflow, overflow, w);
    if Sub(aAbs, underflow, w) < Sub(aAbs, overflow, w) {
      absResult := NarrowInRange(s, d, aAbs);
    } else if aAbs > srcInfinity {
      absResult := NarrowQuiet(s, d, aAbs);
    } else if aAbs >= overflow {
      absResult := d.Infinity();
    } else {
      SameFraction(s, aRep);
      absResult := NarrowDenormal(s, d, aRep, aAbs);
    }
    ResultFits(s, d, aAbs);
    JoinSign(s, d, Negative(s, aRep), absResult);
    result := Or(absResult, Shr(sign, w - d.Bits()));
  }

  /** The sign does not touch the fraction. */
  lemma {:induction false} SameFraction(s: Format, rep: nat)
    requires rep < Pow2(s.Bits())
    ensures s.Fraction(Abs(s, rep)) == s.Fraction(rep)
  {
    SplitSign(s, rep);
    AndLowMask(rep, s.sig + s.exp);
    LowLow(rep, s.sig, s.sig + s.exp);
  }
}

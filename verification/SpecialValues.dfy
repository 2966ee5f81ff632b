/**
 Infinities, NaNs and signs through both conversions, said in terms of the encodings alone:
 section 6.2 of IEEE 754-2019 for NaNs.
 */
module SpecialValues {
  import opened Bits
  import opened FloatFormat
  import opened Narrowing
  import opened NarrowingExact
  import opened NarrowCode
  import opened Widening

  /** The bit that marks a NaN as quiet. */
  ghost predicate IsQuiet(f: Format, x: nat)
    requires f.Valid()
  {
    Shr(x, f.sig - 1) % 2 == 1
  }

  /** The bits of a NaN below its quiet bit. */
  ghost function Payload(f: Format, x: nat): nat
    requires f.Valid()
  {
    Low(x, f.sig - 1)
  }

  lemma Half(n: nat)
    requires n >= 1
    ensures Pow2(n) == 2 * Pow2(n - 1) && Pow2(n - 1) > 0
  {
  }

  /** Which fields an infinity with a quiet bit and a payload has. */
  lemma {:induction false} QuietFields(f: Format, payload: nat)
    requires f.Valid() && payload < Pow2(f.sig - 1)
    ensures var x := f.Infinity() + Pow2(f.sig - 1) + payload;
            f.Infinity() < x < f.SignMask() && IsQuiet(f, x) && Payload(f, x) == payload
  {
    hide Pow2, Shr, Low;
    var n := f.sig - 1;
    InfinityFits(f);
    QuietField(f.InfExp(), f.sig);
    Half(f.sig);
    ShrLowUnique(f.Infinity() + Pow2(n) + payload, n, 2 * f.InfExp() + 1, payload);
  }

  /**
   Every NaN narrows to a quiet NaN of the same sign, whose payload is the leading part of the
   payload it had.
   */
  lemma {:induction false} NaNNarrows(s: Format, d: Format, rep: nat)
    requires Narrows(s, d) && IsNaN(s, rep)
    ensures var (x, y) := (Abs(s, rep), Convert(s, d, rep));
            && IsNaN(d, y) && Abs(d, y) < d.SignMask()
            && Negative(d, y) == Negative(s, rep)
            && IsQuiet(d, Abs(d, y))
            && Payload(d, Abs(d, y)) * Pow2(s.sig - d.sig) <= Payload(s, x)
            && Payload(s, x) < (Payload(d, Abs(d, y)) + 1) * Pow2(s.sig - d.sig)
  {
    hide Pow2, Shr, Low;
    var (k, x) := (s.sig - d.sig, Abs(s, rep));
    var payload := Shr(Low(x, s.sig - 1), k);
    PayloadBound(s, d, x);
    QuietFields(d, payload);
    ShrLow(Low(x, s.sig - 1), k);
    Distribute(payload, Pow2(k));
  }

  /** Narrowing keeps the sign of everything. */
  lemma {:induction false} NarrowingKeepsSign(s: Format, d: Format, rep: nat)
    requires Narrows(s, d)
    ensures Negative(d, Convert(s, d, rep)) == Negative(s, rep)
    ensures Abs(d, Convert(s, d, rep)) == NarrowAbs(s, d, Abs(s, rep))
  {
    ResultFits(s, d, Abs(s, rep));
    hide NarrowAbs;
  }

  /** Narrowing makes a NaN of a NaN and of nothing else. */
  lemma {:induction false} NaNIffNarrows(s: Format, d: Format, rep: nat)
    requires Narrows(s, d) && Admissible(s, d)
    ensures IsNaN(d, Convert(s, d, rep)) <==> IsNaN(s, rep)
  {
    if IsNaN(s, rep) {
      NaNNarrows(s, d, rep);
    } else {
      ConvertFields(s, d, rep);
    }
  }

  // ---------------------------------------------------------------- widening

  /** What becomes of an infinity or a NaN in any pair of formats. */
  lemma {:induction false} SpecialWidens(s: Format, d: Format, rep: nat)
    requires Widens(s, d) && rep < Pow2(s.Bits()) && Abs(s, rep) >= s.Infinity()
    ensures var (x, y) := (Abs(s, rep), WidenRep(s, d, rep));
            && Negative(d, y) == Negative(s, rep)
            && d.Infinity() <= Abs(d, y) < d.SignMask()
            && d.Exponent(Abs(d, y)) == d.InfExp()
            && d.Fraction(Abs(d, y)) == s.Fraction(x) * Pow2(d.sig - s.sig)
            && (Abs(d, y) == d.Infinity() <==> x == s.Infinity())
            && (IsNaN(d, y) <==> IsNaN(s, rep))
  {
    hide Pow2, Shr, Low, Or;
    var (k, x) := (d.sig - s.sig, Abs(s, rep));
    SpecialBounds(s, rep);
    NaNFields(s, x);
    var y := WidenAbs(s, d, x);
    InfinityFits(d);
    var m := s.Fraction(x);
    Pow2Add(s.sig, k);
    MulLess(m, Pow2(s.sig), Pow2(k));
    Fields(d, d.InfExp(), m * Pow2(k));
    JoinTop(y, d.sig + d.exp);
    if m > 0 {
      MulMono(1, m, Pow2(k));
    }
  }

  lemma SpecialBounds(s: Format, rep: nat)
    requires s.Valid() && rep < Pow2(s.Bits()) && Abs(s, rep) >= s.Infinity()
    ensures s.Infinity() <= Abs(s, rep) < s.Infinity() + Pow2(s.sig)
    ensures s.Fraction(Abs(s, rep)) < Pow2(s.sig)
  {
    InfinityFits(s);
    ShrLow(Abs(s, rep), s.sig);
    assert Pow2(s.Bits()) == 2 * s.SignMask();
  }

  /**
   Where the gap covers the subnormals, widening makes an infinity of an infinity and a NaN of
   a NaN, and of nothing else; it keeps every sign.
   */
  lemma {:induction false} WideningClasses(s: Format, d: Format, rep: nat)
    requires Widens(s, d) && Gap(d, s) >= s.sig && rep < Pow2(s.Bits())
    ensures var y := WidenRep(s, d, rep);
            && Negative(d, y) == Negative(s, rep)
            && (Abs(d, y) == d.Infinity() <==> Abs(s, rep) == s.Infinity())
            && (IsNaN(d, y) <==> IsNaN(s, rep))
  {
    if Abs(s, rep) >= s.Infinity() {
      SpecialWidens(s, d, rep);
    } else {
      WidenRepIsExtend(s, d, rep);
      WideningExact(s, d, Abs(s, rep));
      hide WidenAbs, WidenRep;
    }
  }
}

/**
 Widening conversion between floating-point formats: exactness, the formats it is exact for,
 and narrowing as its left inverse.
 */
module Widening {
  import opened Bits
  import opened FloatFormat
  import opened Narrowing
  import opened NarrowingExact

  /** The pairs of formats the conversion is written for; counting leading zeros takes 32 bits. */
  ghost predicate Widens(s: Format, d: Format) {
    Narrows(d, s) && s.Bits() <= 32
  }

  /** Number of bits up to and including the leading one. */
  function BitLen(x: nat): nat {
    if x == 0 then 0 else 1 + BitLen(x / 2)
  }

  lemma {:induction false} BitLenBounds(x: nat)
    requires x > 0
    ensures BitLen(x) >= 1 && Pow2(BitLen(x) - 1) <= x < Pow2(BitLen(x))
  {
    if x > 1 {
      BitLenBounds(x / 2);
    }
  }

  lemma {:induction false} BitLenUnique(x: nat, n: nat)
    requires n >= 1 && Pow2(n - 1) <= x < Pow2(n)
    ensures BitLen(x) == n
  {
    if n > 1 {
      BitLenUnique(x / 2, n - 1);
    }
  }

  /** How far a subnormal significand must move left to become normal. */
  function Scale(s: Format, x: nat): int {
    s.sig + 1 - BitLen(x)
  }

  /** A possibly negative exponent, shifted into the exponent and sign position of `d`. */
  function ExponentField(d: Format, e: int): nat {
    Low(if e < 0 then e % Pow2(d.Bits()) else e, d.exp + 1) * Pow2(d.sig)
  }

  /** The sign-less result, in plain arithmetic. */
  function WidenAbs(s: Format, d: Format, x: nat): nat
    requires Widens(s, d)
  {
    var k, g := Dropped(d, s), Gap(d, s);
    if x >= s.Infinity() then d.Infinity() + s.Fraction(x) * Pow2(k)
    else if x >= s.MinNormal() then x * Pow2(k) + g * Pow2(d.sig)
    else if x > 0 then WidenSubnormal(s, d, x)
    else 0
  }

  function WidenSubnormal(s: Format, d: Format, x: nat): nat
    requires Widens(s, d)
    requires 0 < x < s.MinNormal()
  {
    SubnormalShift(s, d, x);
    x * Pow2(Dropped(d, s) + Scale(s, x)) - Pow2(d.sig) + ExponentField(d, Gap(d, s) - Scale(s, x) + 1)
  }

  /** After renormalisation the leading one sits at the implicit position. */
  lemma {:induction false} SubnormalShift(s: Format, d: Format, x: nat)
    requires Widens(s, d)
    requires 0 < x < s.MinNormal()
    ensures 1 <= Scale(s, x) <= s.sig
    ensures Pow2(d.sig) <= x * Pow2(Dropped(d, s) + Scale(s, x)) < 2 * Pow2(d.sig)
  {
    var n := BitLen(x);
    BitLenBounds(x);
    if n > s.sig {
      Pow2Mono(s.sig, n - 1);
    }
    var j := Dropped(d, s) + Scale(s, x);
    Pow2Add(n - 1, j);
    Pow2Add(n, j);
    assert n + j == d.sig + 1;
    MulMono(Pow2(n - 1), x, Pow2(j));
    MulLess(x, Pow2(n), Pow2(j));
  }

  // ---------------------------------------------------------------- exactness

  lemma {:induction false} ExponentFieldSmall(d: Format, e: nat)
    requires e < Pow2(d.exp + 1)
    ensures ExponentField(d, e) == e * Pow2(d.sig)
  {
    ShrLowSmall(e, d.exp + 1);
  }

  /** Widening a normal number moves its fields: the exponent is rebiased, the fraction padded. */
  lemma {:induction false} NormalRegroup(s: Format, d: Format, x: nat)
    requires Widens(s, d)
    ensures x * Pow2(Dropped(d, s)) + Gap(d, s) * Pow2(d.sig) ==
            (s.Exponent(x) + Gap(d, s)) * Pow2(d.sig) + s.Fraction(x) * Pow2(Dropped(d, s))
  {
    ShrLow(x, s.sig);
    Pow2Add(s.sig, Dropped(d, s));
    Collect(s.Exponent(x), Pow2(s.sig), s.Fraction(x), Pow2(Dropped(d, s)), Gap(d, s));
  }

  lemma {:induction false} NormalFields(s: Format, d: Format, e: nat, m: nat)
    requires Widens(s, d)
    requires 1 <= e < s.InfExp() && m < Pow2(s.sig)
    ensures m * Pow2(Dropped(d, s)) < Pow2(d.sig)
    ensures (e + Gap(d, s)) * Pow2(d.sig) + m * Pow2(Dropped(d, s)) < d.Infinity()
  {
    Pow2Add(s.sig, Dropped(d, s));
    MulLess(m, Pow2(s.sig), Pow2(Dropped(d, s)));
    BiasValue(s);
    BiasValue(d);
    MulLess(e + Gap(d, s), d.InfExp(), Pow2(d.sig));
  }

  lemma {:induction false} NormalMagnitude(s: Format, d: Format, e: nat, m: nat)
    requires Widens(s, d) && e >= 1
    requires m * Pow2(Dropped(d, s)) < Pow2(d.sig)
    ensures d.Magnitude((e + Gap(d, s)) * Pow2(d.sig) + m * Pow2(Dropped(d, s))) ==
            (Pow2(s.sig) + m) * Pow2(e - 1) * Unit(d, s)
  {
    var k, g := Dropped(d, s), Gap(d, s);
    MagnitudeOfFields(d, e + g, m * Pow2(k));
    Pow2Add(s.sig, k);
    Pow2Add(e - 1, g);
    Pow2Add(g, k);
    Rescale(Pow2(s.sig), m, Pow2(k), Pow2(e - 1), Pow2(g));
  }

  lemma Collect(e: nat, P: nat, m: nat, p: nat, g: nat)
    ensures (e * P + m) * p + g * (P * p) == (e + g) * (P * p) + m * p
  {
    Expand(e * P, m, p);
    Expand(e, g, P * p);
    assert e * P * p == e * (P * p);
  }

  lemma Rescale(P: nat, m: nat, p: nat, u: nat, G: nat)
    ensures (P * p + m * p) * (u * G) == (P + m) * u * (G * p)
  {
    Expand(P, m, p);
    assert (P + m) * p * (u * G) == (P + m) * (p * (u * G));
    assert p * (u * G) == u * (G * p);
    assert (P + m) * u * (G * p) == (P + m) * (u * (G * p));
  }

  lemma {:induction false} SubnormalExact(s: Format, d: Format, x: nat)
    requires Widens(s, d) && Gap(d, s) >= s.sig
    requires 0 < x < s.MinNormal()
    ensures WidenSubnormal(s, d, x) < d.Infinity()
    ensures d.Magnitude(WidenSubnormal(s, d, x)) == x * Unit(d, s)
  {
    var c, j := Scale(s, x), Dropped(d, s) + Scale(s, x);
    SubnormalShift(s, d, x);
    var e, f := Gap(d, s) - c + 1, x * Pow2(j) - Pow2(d.sig);
    BiasValue(d);
    ExponentFieldSmall(d, e);
    MagnitudeOfFields(d, e, f);
    Pow2Add(j, e - 1);
    assert j + (e - 1) == Gap(d, s) + Dropped(d, s);
    Associate(x, Pow2(j), Pow2(e - 1));
    BiasValue(s);
    Pow2Mono(1, s.exp - 1);
    MulLess(e, d.InfExp(), Pow2(d.sig));
  }

  /** Widening a finite value is exact, subnormals included, when the bias gap covers them. */
  lemma {:induction false} WideningExact(s: Format, d: Format, x: nat)
    requires Widens(s, d) && Gap(d, s) >= s.sig
    requires x < s.Infinity()
    ensures WidenAbs(s, d, x) < d.Infinity()
    ensures d.Magnitude(WidenAbs(s, d, x)) == Scaled(s, x, Unit(d, s))
  {
    ShrLow(x, s.sig);
    var e, m := s.Exponent(x), s.Fraction(x);
    if x >= s.MinNormal() {
      ExponentInRange(e, m, Pow2(s.sig), 1, s.InfExp());
      NormalRegroup(s, d, x);
      NormalFields(s, d, e, m);
      NormalMagnitude(s, d, e, m);
    } else {
      ShrLowSmall(x, s.sig);
      if x > 0 {
        SubnormalExact(s, d, x);
      } else {
        SubnormalMagnitude(d, 0);
      }
    }
  }

  /** The bits of the least subnormal do not come out as its magnitude when the gap is too small. */
  lemma {:induction false} LeastSubnormalMangled(s: Format, d: Format)
    requires Widens(s, d) && Gap(d, s) < s.sig
    ensures 1 < s.Infinity()
    ensures d.Magnitude(WidenAbs(s, d, 1)) != Scaled(s, 1, Unit(d, s))
  {
    SubnormalMagnitude(s, 1);
    assert BitLen(1) == 1;
    Pow2Mono(1, s.sig);
    assert Scale(s, 1) == s.sig;
    var re := Gap(d, s) - s.sig + 1;
    var e := Low(if re < 0 then re % Pow2(d.Bits()) else re, d.exp + 1);
    assert WidenAbs(s, d, 1) == e * Pow2(d.sig) + 0;
    MagnitudeOfFields(d, e, 0);
    if e > 0 {
      // a power of two, but not the right one
      Pow2Add(d.sig, e - 1);
      assert d.sig + (e - 1) != Gap(d, s) + Dropped(d, s) by {
        if re == 0 {
          ShrLowSmall(0, d.exp + 1);
        }
      }
      Pow2Injective(d.sig + (e - 1), Gap(d, s) + Dropped(d, s));
    }
  }

  lemma {:induction false} Pow2Injective(a: nat, b: nat)
    requires a != b
    ensures Pow2(a) != Pow2(b)
  {
    if a < b {
      Pow2Mono(a, b);
    } else {
      Pow2Mono(b, a);
    }
  }

  /** The same as an equality of real numbers. */
  lemma {:induction false} WideningExactReal(s: Format, d: Format, x: nat)
    requires Widens(s, d) && Gap(d, s) >= s.sig
    requires x < s.Infinity()
    ensures AbsValue(d, WidenAbs(s, d, x)) == AbsValue(s, x)
  {
    WideningExact(s, d, x);
    ScaledValue(d, s, x);
  }

  // ---------------------------------------------------------------- narrowing undoes widening

  lemma {:induction false} RoundTripNumber(s: Format, d: Format, x: nat)
    requires Widens(s, d) && Admissible(d, s)
    requires x <= s.Infinity()
    ensures NarrowAbs(d, s, WidenAbs(s, d, x)) == x
  {
    var y := WidenAbs(s, d, x);
    if x < s.Infinity() {
      hide RoundsTo, NarrowAbs, WidenAbs, Unit;
      WideningExact(s, d, x);
      NarrowingRounds(d, s, y);
      ExactRounds(s, Unit(d, s), x);
      RoundingUnique(s, Unit(d, s), Scaled(s, x, Unit(d, s)), NarrowAbs(d, s, y), x);
    } else {
      Fields(s, s.InfExp(), 0);
      BelowInfinity(d, s);
    }
  }

  /** Setting bit `n`. */
  lemma {:induction false} OrBit(x: nat, n: nat)
    ensures Or(x, Pow2(n)) == if Shr(x, n) % 2 == 1 then x else x + Pow2(n)
  {
    if n == 0 {
      assert Or(x / 2, 0) == x / 2;
    } else if x == 0 {
      ShrLowSmall(0, n);
    } else {
      OrBit(x / 2, n - 1);
    }
  }

  /** The top bit of a field and the bits below it. */
  lemma {:induction false} LowTopBit(x: nat, n: nat)
    ensures Low(x, n + 1) == Low(x, n) + (Shr(x, n) % 2) * Pow2(n)
  {
    ShrAdd(x, n, 1);
    assert Low(Shr(x, n), 1) == Shr(x, n) % 2 by {
      assert Low(Shr(x, n) / 2, 0) == 0;
    }
  }

  /** A NaN comes back with the same payload and the quiet bit set. */
  lemma {:induction false} RoundTripNaN(s: Format, d: Format, x: nat)
    requires Widens(s, d)
    requires s.Infinity() < x < s.SignMask()
    ensures NarrowAbs(d, s, WidenAbs(s, d, x)) == Or(x, Pow2(s.sig - 1))
  {
    var n, k, m := s.sig - 1, Dropped(d, s), s.Fraction(x);
    InfinityFits(s);
    NaNFields(s, x);
    assert m > 0;
    var y := WidenAbs(s, d, x);
    MulMono(1, m, Pow2(k));
    PayloadSurvives(s, d, m);
    LowTopBit(x, n);
    OrBit(x, n);
    LowLow(x, n, s.sig);
  }

  lemma {:induction false} NaNFields(s: Format, x: nat)
    requires s.Infinity() <= x < s.Infinity() + Pow2(s.sig)
    ensures x == s.Infinity() + s.Fraction(x)
  {
    ShrLowUnique(x, s.sig, s.InfExp(), x - s.Infinity());
  }

  /** Shifting the payload up and back down loses nothing. */
  lemma {:induction false} PayloadSurvives(s: Format, d: Format, m: nat)
    requires Widens(s, d) && m < Pow2(s.sig)
    ensures Shr(Low(d.Infinity() + m * Pow2(Dropped(d, s)), d.sig - 1), Dropped(d, s)) == Low(m, s.sig - 1)
  {
    hide Pow2, Shr, Low;
    var k, n := Dropped(d, s), d.sig - 1;
    Pow2Add(s.sig, k);
    MulLess(m, Pow2(s.sig), Pow2(k));
    ShrLowUnique(d.Infinity() + m * Pow2(k), d.sig, d.InfExp(), m * Pow2(k));
    LowLow(d.Infinity() + m * Pow2(k), n, d.sig);
    ShrLowScaled(m, k, n);
    ShrLowUnique(Low(m, s.sig - 1) * Pow2(k), k, Low(m, s.sig - 1), 0);
  }

  /** The widening conversion on signed encodings. */
  function Extend(s: Format, d: Format, rep: nat): nat
    requires Widens(s, d)
  {
    Signed(d, Negative(s, rep), WidenAbs(s, d, Abs(s, rep)))
  }

  /** What the code returns: the sign bit joined to a result that may have taken its place. */
  function WidenRep(s: Format, d: Format, rep: nat): nat
    requires Widens(s, d)
  {
    Or(WidenAbs(s, d, Abs(s, rep)), if Negative(s, rep) then d.SignMask() else 0)
  }

  /** Where the gap covers the subnormals the sign has its place to itself. */
  lemma {:induction false} WidenRepIsExtend(s: Format, d: Format, rep: nat)
    requires Widens(s, d) && Gap(d, s) >= s.sig
    requires rep < Pow2(s.Bits())
    ensures WidenAbs(s, d, Abs(s, rep)) < d.SignMask()
    ensures WidenRep(s, d, rep) == Extend(s, d, rep)
  {
    hide Or, WidenAbs;
    WidenFits(s, d, Abs(s, rep));
    JoinTop(WidenAbs(s, d, Abs(s, rep)), d.sig + d.exp);
  }

  lemma JoinTop(x: nat, n: nat)
    requires x < Pow2(n)
    ensures Or(x, Pow2(n)) == Pow2(n) + x && Or(x, 0) == x
  {
    OrDisjoint(1, x, n);
    OrDisjoint(0, x, n);
  }

  lemma {:induction false} SignedExact(s: Format, d: Format, rep: nat)
    requires Widens(s, d) && Gap(d, s) >= s.sig
    requires rep < Pow2(s.Bits()) && Abs(s, rep) < s.Infinity()
    ensures SignedMagnitude(d, WidenRep(s, d, rep)) == SignedMagnitude(s, rep) * Unit(d, s)
  {
    hide WidenAbs, WidenRep;
    WidenRepIsExtend(s, d, rep);
    WideningExact(s, d, Abs(s, rep));
    var y := WidenAbs(s, d, Abs(s, rep));
    assert Abs(d, Extend(s, d, rep)) == y && Negative(d, Extend(s, d, rep)) == Negative(s, rep);
    Negate(s.Magnitude(Abs(s, rep)), Unit(d, s));
  }

  lemma Negate(a: int, b: int)
    ensures -a * b == -(a * b)
  {
  }

  /** The least subnormal changes its signed value when the gap is too small. */
  lemma {:induction false} LeastSubnormalFails(s: Format, d: Format)
    requires Widens(s, d) && Gap(d, s) < s.sig
    ensures 1 < s.Infinity() && !Negative(s, 1)
    ensures SignedMagnitude(d, WidenRep(s, d, 1)) != SignedMagnitude(s, 1) * Unit(d, s)
  {
    LeastSubnormalMangled(s, d);
    InfinityFits(s);
    SubnormalMagnitude(s, 0);
    hide WidenAbs;
    assert WidenRep(s, d, 1) == WidenAbs(s, d, 1);
  }

  /**
   The exact condition: the code keeps the signed value of every finite number if and only if
   the bias gap is at least the source precision.
   */
  lemma {:induction false} ExactIffGapCovers(s: Format, d: Format)
    requires Widens(s, d)
    ensures Gap(d, s) >= s.sig <==>
            forall rep: nat | rep < Pow2(s.Bits()) && Abs(s, rep) < s.Infinity() ::
              SignedMagnitude(d, WidenRep(s, d, rep)) == SignedMagnitude(s, rep) * Unit(d, s)
  {
    hide WidenRep, SignedMagnitude;
    if Gap(d, s) >= s.sig {
      forall rep: nat | rep < Pow2(s.Bits()) && Abs(s, rep) < s.Infinity()
        ensures SignedMagnitude(d, WidenRep(s, d, rep)) == SignedMagnitude(s, rep) * Unit(d, s)
      {
        SignedExact(s, d, rep);
      }
    } else {
      LeastSubnormalFails(s, d);
      Pow2Mono(1, s.Bits());
      assert Abs(s, 1) == 1 && 1 < Pow2(s.Bits());
    }
  }

  /**
   Narrowing after widening, on whole encodings: the identity on every number, infinities and
   signed zeros included, and the quieted NaN otherwise.
   */
  lemma {:induction false} RoundTrip(s: Format, d: Format, rep: nat)
    requires Widens(s, d) && Admissible(d, s)
    requires rep < Pow2(s.Bits())
    ensures Convert(d, s, Extend(s, d, rep)) == if IsNaN(s, rep) then Or(rep, Pow2(s.sig - 1)) else rep
  {
    var x := Abs(s, rep);
    assert x < s.SignMask();
    WidenFits(s, d, x);
    if IsNaN(s, rep) {
      RoundTripNaN(s, d, x);
      SignKeepsBit(s, rep);
    } else {
      RoundTripNumber(s, d, x);
    }
  }

  lemma {:induction false} WidenFits(s: Format, d: Format, x: nat)
    requires Widens(s, d) && Gap(d, s) >= s.sig
    requires x < s.SignMask()
    ensures WidenAbs(s, d, x) < d.SignMask()
  {
    InfinityFits(d);
    if x < s.Infinity() {
      WideningExact(s, d, x);
    } else {
      ShrLow(x, s.sig);
      Pow2Add(s.sig, Dropped(d, s));
      MulLess(s.Fraction(x), Pow2(s.sig), Pow2(Dropped(d, s)));
    }
  }

  /** Setting the quiet bit commutes with attaching the sign. */
  lemma {:induction false} SignKeepsBit(s: Format, rep: nat)
    requires s.Valid() && rep < Pow2(s.Bits())
    ensures Or(rep, Pow2(s.sig - 1)) == Signed(s, Negative(s, rep), Or(Abs(s, rep), Pow2(s.sig - 1)))
  {
    var n, h := s.sig - 1, s.sig + s.exp;
    OrBit(rep, n);
    OrBit(Abs(s, rep), n);
    if Negative(s, rep) {
      HighBitKeepsLow(Abs(s, rep), n, h);
    }
  }

  /** Adding a higher power of two does not change bit `n`. */
  lemma {:induction false} HighBitKeepsLow(x: nat, n: nat, h: nat)
    requires n < h
    ensures Shr(Pow2(h) + x, n) % 2 == Shr(x, n) % 2
  {
    var a := Pow2(h - n - 1);
    assert Pow2(h - n) == 2 * a;
    hide Pow2, Shr;
    Pow2Add(h - n, n);
    ShrPlusMultiple(2 * a, x, n);
    assert (2 * a + Shr(x, n)) % 2 == Shr(x, n) % 2;
  }

  /** The half to single precision instance used by the runtime is exact and invertible. */
  lemma {:induction false} HalfToSingle()
    ensures Widens(BINARY16, BINARY32) && Gap(BINARY32, BINARY16) >= BINARY16.sig && Admissible(BINARY32, BINARY16)
  {
    Powers();
  }
}

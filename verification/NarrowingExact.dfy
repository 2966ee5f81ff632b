/**
 For exactly which formats narrowing is correct, what it does to signed values, and the
 order it preserves.
 */
module NarrowingExact {
  import opened Bits
  import opened FloatFormat
  import opened Narrowing

  // ---------------------------------------------------------------- the formats that fail

  /** With close biases an exact zero turns into a non-zero subnormal. */
  lemma {:induction false} ZeroBecomesNonZero(s: Format, d: Format)
    requires Narrows(s, d) && Gap(s, d) < d.sig
    ensures NarrowAbs(s, d, 0) == Pow2(d.sig - Gap(s, d) - 1)
  {
    var t, k := Gap(s, d) + 1, Dropped(s, d);
    ShrLowSmall(0, s.sig);
    MulMono(1, t, Pow2(s.sig));
    assert Underflow(s, d) > 0;
    ShrPow2(s.sig, t);
    ShrPow2(s.sig - t, k);
    assert Overflow(s, d) > 0 by {
      Pow2Mono(1, d.exp);
      MulMono(1, Gap(s, d) + d.InfExp(), Pow2(s.sig));
    }
  }

  lemma {:induction false} ShrPow2(n: nat, t: nat)
    requires t <= n
    ensures Shr(Pow2(n), t) == Pow2(n - t) && Low(Pow2(n), t) == 0
  {
    Pow2Add(n - t, t);
    ShrLowUnique(Pow2(n), t, Pow2(n - t), 0);
  }

  /** Zero is the only correct rounding of zero. */
  lemma {:induction false} ZeroRoundsToZero(d: Format, unit: nat, r: nat)
    requires d.Valid() && unit > 0
    requires RoundsTo(d, 0, unit, r)
    ensures r == 0
  {
    SubnormalMagnitude(d, 0);
    ExactRounds(d, unit, 0);
    RoundingUnique(d, unit, 0, r, 0);
  }

  /** When the gap equals the destination precision, the least subnormal is rounded up to one. */
  lemma {:induction false} LeastSubnormalRoundsUp(s: Format, d: Format)
    requires Narrows(s, d) && Gap(s, d) == d.sig && Dropped(s, d) >= 2
    ensures 1 <= s.Infinity()
    ensures NarrowAbs(s, d, 1) == 1
    ensures RoundsTo(d, s.Magnitude(1), Unit(s, d), 0)
  {
    var t, k := d.sig + 1, Dropped(s, d);
    assert Pow2(2) == 4;
    Pow2Mono(2, s.sig);
    ShrLowSmall(1, s.sig);
    BelowInfinity(s, d);
    UnderflowCoversGap(s, d);
    JustAboveHalf(s.sig, t, k);
    OneRoundsToZero(s, d);
    hide RoundsTo, StickyRound;
  }

  lemma OneRoundsToZero(s: Format, d: Format)
    requires Narrows(s, d) && Gap(s, d) + Dropped(s, d) >= 2
    ensures RoundsTo(d, 1, Unit(s, d), 0)
  {
    assert Pow2(2) == 4;
    Pow2Mono(2, Gap(s, d) + Dropped(s, d));
    SubnormalMagnitude(d, 0);
    hide RoundsTo, Pow2;
    NeighbourRounds(d, 1, Unit(s, d), 0, 0);
  }

  /** The shifted significand is exactly half way, and the sticky bit tips it over. */
  lemma {:induction false} JustAboveHalf(n: nat, t: nat, k: nat)
    requires k >= 2 && t >= 1 && n == k - 1 + t
    ensures StickyRound(Pow2(n) + 1, t, k) == 1
  {
    var h := Pow2(k - 1);
    Pow2Add(k - 1, t);
    Pow2Mono(1, t);
    ShrLowUnique(Pow2(n) + 1, t, h, 1);
    RoundJustAboveHalf(k);
  }

  lemma {:induction false} RoundJustAboveHalf(k: nat)
    requires k >= 2
    ensures Pow2(k - 1) % 2 == 0
    ensures RoundShift(Pow2(k - 1) + 1, k) == 1
  {
    var (h, g) := (Pow2(k - 1), Pow2(k - 2));
    assert Pow2(k) == 2 * h && h == 2 * g;
    hide Pow2, Shr, Low;
    ShrLowSmall(h + 1, k);
    JustAbove(h, g);
  }

  lemma JustAbove(h: nat, g: nat)
    requires h == 2 * g
    ensures h % 2 == 0 && RoundUp(0, h + 1, 2 * h) == 1
  {
  }

  /** With a single dropped bit, some normal source is misrounded. */
  lemma {:induction false} SingleBitFails(s: Format, d: Format) returns (x: nat)
    requires Narrows(s, d) && Gap(s, d) >= d.sig && Dropped(s, d) == 1
    ensures x <= s.Infinity()
    ensures !RoundsTo(d, s.Magnitude(x), Unit(s, d), NarrowAbs(s, d, x))
  {
    var g := Gap(s, d);
    var m := if s.sig == 2 then 1 else 5;
    var j := if s.sig == 2 then 0 else Pow2(s.sig - 3);
    if s.sig >= 3 {
      assert Pow2(s.sig) == 2 * Pow2(s.sig - 1);
      assert Pow2(s.sig - 1) == 2 * Pow2(s.sig - 2);
    }
    assert Pow2(2) == 4;
    assert m < Pow2(s.sig) && Pow2(s.sig) + m == 8 * j + 5;
    x := g * Pow2(s.sig) + m;
    Fields(s, g, m);
    UnderflowCoversGap(s, d);
    BelowInfinity(s, d);
    assert Shift(s, d, x) == 1 && s.sig >= 1;
    SubnormalRounds(s, d, x);
    OneSpareBitFails(j);
    if RoundsTo(d, s.Magnitude(x), Unit(s, d), NarrowAbs(s, d, x)) {
      RoundingUnique(d, Unit(s, d), s.Magnitude(x), NarrowAbs(s, d, x), RoundShift(8 * j + 5, 2));
    }
  }

  /** The thresholds of the code are ordered and lie within the source format. */
  lemma {:induction false} BelowInfinity(s: Format, d: Format)
    requires Narrows(s, d)
    ensures 0 < Underflow(s, d) < Overflow(s, d) <= s.Infinity()
  {
    var g, P := Gap(s, d), Pow2(s.sig);
    BiasValue(s);
    BiasValue(d);
    Pow2Mono(2, d.exp);
    assert Pow2(2) == 4;
    MulMono(1, g + 1, P);
    MulLess(g + 1, g + d.InfExp(), P);
    MulMono(g + d.InfExp(), s.InfExp(), P);
  }

  /**
   The exact condition: every source that is not a NaN is rounded correctly if and only if
   the bias gap exceeds the destination precision and at least two bits are dropped.
   */
  lemma {:induction false} CorrectIffAdmissible(s: Format, d: Format)
    requires Narrows(s, d)
    ensures Admissible(s, d) <==>
            forall x: nat | x <= s.Infinity() :: RoundsTo(d, s.Magnitude(x), Unit(s, d), NarrowAbs(s, d, x))
  {
    if Admissible(s, d) {
      forall x: nat | x <= s.Infinity()
        ensures RoundsTo(d, s.Magnitude(x), Unit(s, d), NarrowAbs(s, d, x))
      {
        NarrowingRounds(s, d, x);
      }
    } else {
      var x := Counterexample(s, d);
    }
  }

  lemma {:induction false} Counterexample(s: Format, d: Format) returns (x: nat)
    requires Narrows(s, d) && !Admissible(s, d)
    ensures x <= s.Infinity()
    ensures !RoundsTo(d, s.Magnitude(x), Unit(s, d), NarrowAbs(s, d, x))
  {
    if Gap(s, d) < d.sig {
      x := 0;
      ShrLowSmall(0, s.sig);
      ZeroBecomesNonZero(s, d);
      if RoundsTo(d, 0, Unit(s, d), NarrowAbs(s, d, 0)) {
        ZeroRoundsToZero(d, Unit(s, d), NarrowAbs(s, d, 0));
      }
    } else if Dropped(s, d) == 1 {
      x := SingleBitFails(s, d);
    } else {
      x := 1;
      LeastSubnormalRoundsUp(s, d);
      if RoundsTo(d, s.Magnitude(1), Unit(s, d), 1) {
        RoundingUnique(d, Unit(s, d), s.Magnitude(1), 0, 1);
      }
    }
  }

  /** Normal sources in the destination's normal range round correctly in every pair of formats. */
  lemma {:induction false} NormalSourcesAlwaysRound(s: Format, d: Format, x: nat)
    requires Narrows(s, d)
    requires Underflow(s, d) <= x <= s.Infinity()
    ensures RoundsTo(d, s.Magnitude(x), Unit(s, d), NarrowAbs(s, d, x))
  {
    if x >= Overflow(s, d) {
      OverflowPath(s, d, x);
    } else {
      NormalRounds(s, d, x);
    }
  }

  // ---------------------------------------------------------------- the instances in use

  const BINARY16 := Format(10, 5)
  const BINARY32 := Format(23, 8)
  const BINARY64 := Format(52, 11)
  const BFLOAT16 := Format(7, 8)

  lemma {:induction false} Powers()
    ensures Pow2(4) == 16 && Pow2(5) == 32 && Pow2(6) == 64 && Pow2(7) == 128 && Pow2(8) == 256
    ensures Pow2(10) == 1024 && Pow2(11) == 2048
  {
    assert Pow2(4) == 16;
    Pow2Add(4, 4);
    assert Pow2(7) == 128;
    assert Pow2(10) == 4 * Pow2(8);
    assert Pow2(11) == 2 * Pow2(10);
  }

  /** Half precision is a safe target for both single and double precision. */
  lemma {:induction false} HalfPrecisionIsAdmissible()
    ensures Narrows(BINARY32, BINARY16) && Admissible(BINARY32, BINARY16)
    ensures Narrows(BINARY64, BINARY16) && Admissible(BINARY64, BINARY16)
  {
    Powers();
  }

  /** The single to bfloat16 instance shares one bias, and maps zero to 0x0040. */
  lemma {:induction false} Bfloat16MapsZeroTo0x40(s: Format, d: Format)
    requires s == BINARY32 && d == BFLOAT16
    ensures Narrows(s, d) && !Admissible(s, d)
    ensures NarrowAbs(s, d, 0) == 0x40
  {
    Powers();
    ZeroBecomesNonZero(s, d);
  }

  // ---------------------------------------------------------------- overflow, order, real values

  /** Overflow per section 7.4 of IEEE 754-2019: from half an ulp above the greatest finite number. */
  lemma {:induction false} InfiniteIff(d: Format, v: nat, unit: nat, r: nat)
    requires d.Valid() && unit > 0
    requires RoundsTo(d, v, unit, r)
    ensures d.Infinity() >= 1
    ensures r == d.Infinity() <==>
            2 * v >= Scaled(d, d.Infinity() - 1, unit) + Scaled(d, d.Infinity(), unit)
  {
    var i := d.Infinity();
    assert i == 2 * (d.InfExp() * Pow2(d.sig - 1)) by {
      Double(d.InfExp(), Pow2(d.sig - 1));
    }
    SubnormalMagnitude(d, 0);
    ScaledOrder(d, i - 1, i, unit);
    if r == i {
      assert Beats(d, v, unit, r, i - 1);
    } else {
      assert Beats(d, v, unit, r, i);
      if r < i - 1 {
        ScaledOrder(d, r, i - 1, unit);
      }
    }
  }

  /** Least subnormals of the two formats, related by `Unit`. */
  lemma {:induction false} UnitRatio(s: Format, d: Format)
    requires Narrows(s, d)
    ensures Pow2(s.LeastExp()) == Unit(s, d) * Pow2(d.LeastExp())
  {
    Pow2Add(Gap(s, d) + Dropped(s, d), d.LeastExp());
  }

  function AbsReal(a: real): real {
    if a < 0.0 then -a else a
  }

  lemma DivOrder(a: real, b: real, p: real)
    requires p > 0.0
    ensures a <= b <==> a / p <= b / p
    ensures a / p - b / p == (a - b) / p
  {
    assert a == a / p * p && b == b / p * p;
  }

  lemma DistReal(a: nat, b: nat, p: real)
    requires p > 0.0
    ensures AbsReal(a as real / p - b as real / p) == Dist(a, b) as real / p
  {
    DivOrder(a as real, b as real, p);
    DivOrder(b as real, a as real, p);
  }

  lemma ScaledValue(s: Format, d: Format, c: nat)
    requires Narrows(s, d)
    ensures AbsValue(d, c) == Scaled(d, c, Unit(s, d)) as real / Pow2(s.LeastExp()) as real
  {
    UnitRatio(s, d);
    CancelUnit(d.Magnitude(c), Unit(s, d), Pow2(d.LeastExp()));
  }

  lemma CancelUnit(m: nat, u: nat, p: nat)
    requires u > 0 && p > 0
    ensures u * p > 0
    ensures m as real / p as real == (m * u) as real / (u * p) as real
  {
    MulMono(1, u, p);
    var (m', u', p') := (m as real, u as real, p as real);
    assert (m * u) as real == m' * u' && (u * p) as real == u' * p';
    assert m' / p' == (m' * u') / (u' * p');
  }

  /** The main result over the reals: no destination value is nearer than the one returned. */
  lemma {:induction false} NearestReal(s: Format, d: Format, x: nat, c: nat)
    requires Narrows(s, d) && Admissible(s, d)
    requires x <= s.Infinity() && c <= d.Infinity()
    ensures var r := NarrowAbs(s, d, x);
            var (here, there) := (AbsReal(AbsValue(s, x) - AbsValue(d, r)), AbsReal(AbsValue(s, x) - AbsValue(d, c)));
            && here <= there
            && (here == there && c != r ==> r % 2 == 0)
  {
    var r, u, p := NarrowAbs(s, d, x), Unit(s, d), Pow2(s.LeastExp()) as real;
    NarrowingRounds(s, d, x);
    ScaledValue(s, d, r);
    ScaledValue(s, d, c);
    var v, a, b := s.Magnitude(x), Scaled(d, r, u), Scaled(d, c, u);
    if c != r {
      assert Beats(d, v, u, r, c);
    }
    DistReal(v, a, p);
    DistReal(v, b, p);
    DivOrder(Dist(v, a) as real, Dist(v, b) as real, p);
    DivOrder(Dist(v, b) as real, Dist(v, a) as real, p);
  }

  // ---------------------------------------------------------------- signed encodings

  /** Is the sign bit set? */
  predicate Negative(f: Format, rep: nat) {
    rep >= f.SignMask()
  }

  /** The encoding without its sign. */
  function Abs(f: Format, rep: nat): nat {
    if Negative(f, rep) then rep - f.SignMask() else rep
  }

  function Signed(f: Format, negative: bool, x: nat): nat {
    if negative then f.SignMask() + x else x
  }

  ghost predicate IsNaN(f: Format, rep: nat) {
    Abs(f, rep) > f.Infinity()
  }

  /** The whole conversion on encodings. */
  function Convert(s: Format, d: Format, rep: nat): nat
    requires Narrows(s, d)
  {
    Signed(d, Negative(s, rep), NarrowAbs(s, d, Abs(s, rep)))
  }

  /** Signed order of encodings, in least subnormals. */
  function SignedMagnitude(f: Format, rep: nat): int {
    var m: int := f.Magnitude(Abs(f, rep));
    if Negative(f, rep) then -m else m
  }

  /** Infinity leaves room for NaNs below the sign bit. */
  lemma {:induction false} InfinityFits(f: Format)
    requires f.Valid()
    ensures f.Infinity() + Pow2(f.sig) == f.SignMask()
  {
    Pow2Add(f.exp, f.sig);
    Distribute(f.InfExp(), Pow2(f.sig));
  }

  lemma {:induction false} ConvertFields(s: Format, d: Format, rep: nat)
    requires Narrows(s, d) && Admissible(s, d)
    requires !IsNaN(s, rep)
    ensures !IsNaN(d, Convert(s, d, rep))
    ensures Negative(d, Convert(s, d, rep)) == Negative(s, rep)
    ensures Abs(d, Convert(s, d, rep)) == NarrowAbs(s, d, Abs(s, rep))
  {
    NarrowingRounds(s, d, Abs(s, rep));
    InfinityFits(d);
  }

  /** Narrowing preserves the order of all non-NaN values, signs and infinities included. */
  lemma {:induction false} ConvertMonotone(s: Format, d: Format, a: nat, b: nat)
    requires Narrows(s, d) && Admissible(s, d)
    requires !IsNaN(s, a) && !IsNaN(s, b)
    requires SignedMagnitude(s, a) <= SignedMagnitude(s, b)
    ensures !IsNaN(d, Convert(s, d, a)) && !IsNaN(d, Convert(s, d, b))
    ensures SignedMagnitude(d, Convert(s, d, a)) <= SignedMagnitude(d, Convert(s, d, b))
  {
    ConvertFields(s, d, a);
    ConvertFields(s, d, b);
    NarrowAbsMonotone(s, d, Abs(s, a), Abs(s, b));
    NarrowAbsMonotone(s, d, Abs(s, b), Abs(s, a));
    ZeroMagnitudes(s, d, Abs(s, a));
    ZeroMagnitudes(s, d, Abs(s, b));
  }

  /** Zero narrows to zero. */
  lemma {:induction false} ZeroMagnitudes(s: Format, d: Format, x: nat)
    requires Narrows(s, d) && Admissible(s, d)
    requires x <= s.Infinity()
    ensures s.Magnitude(x) == 0 ==> d.Magnitude(NarrowAbs(s, d, x)) == 0
  {
    if s.Magnitude(x) == 0 {
      NarrowingRounds(s, d, x);
      ZeroRoundsToZero(d, Unit(s, d), NarrowAbs(s, d, x));
      ShrLowSmall(0, d.sig);
    }
  }

  lemma {:induction false} NarrowAbsMonotone(s: Format, d: Format, x: nat, y: nat)
    requires Narrows(s, d) && Admissible(s, d)
    requires x <= s.Infinity() && y <= s.Infinity()
    ensures s.Magnitude(x) <= s.Magnitude(y) ==>
            d.Magnitude(NarrowAbs(s, d, x)) <= d.Magnitude(NarrowAbs(s, d, y))
  {
    if s.Magnitude(x) <= s.Magnitude(y) {
      NarrowingRounds(s, d, x);
      NarrowingRounds(s, d, y);
      RoundingMonotone(d, Unit(s, d), s.Magnitude(x), NarrowAbs(s, d, x), s.Magnitude(y), NarrowAbs(s, d, y));
      MagnitudeOrder(d, NarrowAbs(s, d, x), NarrowAbs(s, d, y));
    }
  }
}

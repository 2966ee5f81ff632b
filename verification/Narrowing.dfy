/**
 Narrowing conversion between floating-point formats, and the proof that its shifts,
 sticky bit and carries compute the correctly rounded result.
 */
module Narrowing {
  import opened Bits
  import opened FloatFormat

  /** The pairs of formats the conversion is written for. */
  ghost predicate Narrows(s: Format, d: Format) {
    s.Valid() && d.Valid() && s.sig > d.sig && s.exp >= d.exp
  }

  /** Significand bits dropped by the conversion. */
  function Dropped(s: Format, d: Format): nat
    requires Narrows(s, d)
  {
    s.sig - d.sig
  }

  /** Difference of the exponent biases. */
  function Gap(s: Format, d: Format): nat
    requires Narrows(s, d)
  {
    GapIsNatural(s, d);
    s.Bias() - d.Bias()
  }

  lemma GapIsNatural(s: Format, d: Format)
    requires Narrows(s, d)
    ensures s.Bias() >= d.Bias()
  {
    BiasValue(s);
    BiasValue(d);
    Pow2Mono(d.exp - 1, s.exp - 1);
  }

  /** One least subnormal of `d`, counted in least subnormals of `s`. */
  function Unit(s: Format, d: Format): nat
    requires Narrows(s, d)
  {
    Pow2(Gap(s, d) + Dropped(s, d))
  }

  /** `n / 2^k`, rounded to nearest with ties to even. */
  function RoundShift(n: nat, k: nat): nat {
    RoundUp(Shr(n, k), Low(n, k), Pow2(k))
  }

  function RoundUp(q: nat, c: nat, p: nat): nat {
    if 2 * c > p then q + 1
    else if 2 * c == p then q + q % 2
    else q
  }

  /** Least source encoding that is normal in the destination. */
  function Underflow(s: Format, d: Format): nat
    requires Narrows(s, d)
  {
    (Gap(s, d) + 1) * Pow2(s.sig)
  }

  /** Least source encoding beyond every finite destination encoding. */
  function Overflow(s: Format, d: Format): nat
    requires Narrows(s, d)
  {
    (Gap(s, d) + d.InfExp()) * Pow2(s.sig)
  }

  /** The sign-less result, in plain arithmetic. */
  function NarrowAbs(s: Format, d: Format, x: nat): nat
    requires Narrows(s, d)
  {
    if x > s.Infinity() then NarrowNaN(s, d, x)
    else if x >= Overflow(s, d) then d.Infinity()
    else if x >= Underflow(s, d) then NarrowNormal(s, d, x)
    else NarrowTiny(s, d, x)
  }

  /** A quiet NaN holding the leading payload bits of `x`. */
  function NarrowNaN(s: Format, d: Format, x: nat): nat
    requires Narrows(s, d)
  {
    d.Infinity() + Pow2(d.sig - 1) + Shr(Low(x, s.sig - 1), Dropped(s, d))
  }

  function NarrowNormal(s: Format, d: Format, x: nat): nat
    requires Narrows(s, d)
    requires x >= Underflow(s, d)
  {
    UnderflowCoversGap(s, d);
    RoundShift(x - Gap(s, d) * Pow2(s.sig), Dropped(s, d))
  }

  lemma UnderflowCoversGap(s: Format, d: Format)
    requires Narrows(s, d)
    ensures Underflow(s, d) == Gap(s, d) * Pow2(s.sig) + Pow2(s.sig)
  {
  }

  /** The denormalisation amount of the code, for a source below the destination's normals. */
  function Shift(s: Format, d: Format, x: nat): int
    requires Narrows(s, d)
  {
    Gap(s, d) - s.Exponent(x) + 1
  }

  function NarrowTiny(s: Format, d: Format, x: nat): nat
    requires Narrows(s, d)
  {
    var t := Shift(s, d, x);
    if t > s.sig || t < 0 then 0
    else StickyRound(Pow2(s.sig) + s.Fraction(x), t, Dropped(s, d))
  }

  /** Shift right by `t`, jam the lost bits into the last one, then round away `k` bits. */
  function StickyRound(n: nat, t: nat, k: nat): nat {
    RoundShift(Jam(Shr(n, t), Low(n, t) != 0), k)
  }

  function Jam(n: nat, sticky: bool): nat {
    if sticky && n % 2 == 0 then n + 1 else n
  }

  // ---------------------------------------------------------------- sticky rounding

  /**
   Two spare bits are enough for the sticky bit to stand in for everything shifted out:
   rounding in two stages is rounding once.
   */
  lemma {:induction false} StickyRoundIsExact(n: nat, t: nat, k: nat)
    requires k >= 2
    ensures StickyRound(n, t, k) == RoundShift(n, t + k)
  {
    var m, r, h := Shr(n, t), Low(n, t), Pow2(k - 1);
    assert h == 2 * Pow2(k - 2) && Pow2(k) == 2 * h;
    hide Pow2, Shr, Low;
    ShrAdd(n, t, k);
    ShrLow(n, t);
    Pow2Add(t, k);
    JamKeepsQuotient(m, k, r != 0);
    CompareScaled(Low(m, k), h, r, Pow2(t));
    Double(Pow2(t), h);
  }

  lemma {:induction false} JamKeepsQuotient(m: nat, k: nat, sticky: bool)
    requires k >= 1
    ensures Shr(Jam(m, sticky), k) == Shr(m, k)
    ensures Low(Jam(m, sticky), k) == Jam(Low(m, k), sticky)
  {
    var j := Jam(m, sticky);
    assert Shr(j, k) == Shr(j / 2, k - 1) && Shr(m, k) == Shr(m / 2, k - 1);
    assert Low(j, k) == 2 * Low(j / 2, k - 1) + j % 2 && Low(m, k) == 2 * Low(m / 2, k - 1) + m % 2;
    hide Shr, Low;
    JamHalves(m, sticky, Low(m / 2, k - 1));
  }

  lemma JamHalves(m: nat, sticky: bool, a: nat)
    ensures Jam(m, sticky) / 2 == m / 2
    ensures Jam(2 * a + m % 2, sticky) == 2 * a + Jam(m, sticky) % 2
  {
  }

  /** Comparing with half way, `h`, before and after the lost bits `r` are jammed. */
  lemma CompareScaled(c: nat, h: nat, r: nat, T: nat)
    requires h % 2 == 0 && r < T
    ensures Jam(c, r != 0) > h <==> c * T + r > T * h
    ensures Jam(c, r != 0) == h <==> c * T + r == T * h
  {
    if c > h {
      MulLess(h, c, T);
    } else if c < h {
      MulLess(c, h, T);
    }
  }

  /** With a single spare bit the sticky bit is lost: 5/4 comes out as 2. */
  lemma {:induction false} OneSpareBitFails(j: nat)
    ensures StickyRound(8 * j + 5, 1, 1) == RoundShift(8 * j + 5, 2) + 1
  {
    assert Pow2(1) == 2 && Pow2(2) == 4;
    ShrLowUnique(8 * j + 5, 1, 4 * j + 2, 1);
    ShrLowUnique(4 * j + 3, 1, 2 * j + 1, 1);
    ShrLowUnique(8 * j + 5, 2, 2 * j + 1, 1);
  }

  // ---------------------------------------------------------------- each path rounds correctly

  /** The rounding decision, from the remainder `c` in steps of `w`. */
  lemma {:induction false} RoundAt(d: Format, v: nat, unit: nat, q: nat, c: nat, p: nat, w: nat)
    requires unit > 0 && w > 0 && c < p && q < d.Infinity()
    requires v == Scaled(d, q, unit) + c * w
    requires Scaled(d, q + 1, unit) == Scaled(d, q, unit) + p * w
    ensures RoundsTo(d, v, unit, RoundUp(q, c, p))
  {
    RemainderBounds(c, p, w);
    NeighbourRounds(d, v, unit, q, RoundUp(q, c, p));
  }

  lemma RemainderBounds(c: nat, p: nat, w: nat)
    requires c < p && w > 0
    ensures c * w < p * w
    ensures 2 * c > p ==> 2 * (c * w) > p * w
    ensures 2 * c < p ==> 2 * (c * w) < p * w
    ensures 2 * c == p ==> 2 * (c * w) == p * w
  {
    MulLess(c, p, w);
    assert 2 * (c * w) == (2 * c) * w;
    if 2 * c > p {
      MulLess(p, 2 * c, w);
    } else if 2 * c < p {
      MulLess(2 * c, p, w);
    }
  }

  /** Splitting an in-range source: `y >> k` is the truncated destination encoding. */
  lemma {:induction false} NormalQuotient(s: Format, d: Format, e: nat, m: nat)
    requires Narrows(s, d)
    requires m < Pow2(s.sig)
    ensures var (k, y) := (Dropped(s, d), e * Pow2(s.sig) + m);
            && Shr(m, k) < Pow2(d.sig)
            && Shr(y, k) == e * Pow2(d.sig) + Shr(m, k) && Low(y, k) == Low(m, k)
  {
    var k, y := Dropped(s, d), e * Pow2(s.sig) + m;
    var p, P := Pow2(k), Pow2(d.sig);
    Pow2Add(d.sig, k);
    ShrLow(m, k);
    SmallQuotient(m, s.sig, k, d.sig);
    Regroup(e, P, p, Shr(m, k));
    ShrLowUnique(y, k, e * P + Shr(m, k), Low(m, k));
  }

  lemma Regroup(e: nat, P: nat, p: nat, a: nat)
    ensures e * (P * p) + a * p == (e * P + a) * p
  {
    assert e * (P * p) == e * P * p;
  }

  lemma {:induction false} SmallQuotient(n: nat, a: nat, b: nat, c: nat)
    requires n < Pow2(a) && a <= b + c
    ensures Shr(n, b) < Pow2(c)
  {
    Pow2Add(c, b);
    Pow2Mono(a, b + c);
    ShrLow(n, b);
    if Shr(n, b) >= Pow2(c) {
      MulMono(Pow2(c), Shr(n, b), Pow2(b));
    }
  }

  /** Every source in the destination's normal range is rounded correctly. */
  lemma {:induction false} NormalRounds(s: Format, d: Format, x: nat)
    requires Narrows(s, d)
    requires Underflow(s, d) <= x < Overflow(s, d)
    ensures RoundsTo(d, s.Magnitude(x), Unit(s, d), NarrowNormal(s, d, x))
  {
    hide Pow2, Shr, Low, RoundsTo, RoundShift, Gap;
    var g, P := Gap(s, d), Pow2(s.sig);
    var e, m := s.Exponent(x), s.Fraction(x);
    ShrLow(x, s.sig);
    ExponentInRange(e, m, P, g + 1, g + d.InfExp());
    Expand(e - g, g, P);
    assert x - g * P == (e - g) * P + m;
    NormalRoundsFields(s, d, e - g, m);
  }

  /** The same, from the rebiased exponent and the fraction of the source. */
  lemma {:induction false} NormalRoundsFields(s: Format, d: Format, e: nat, m: nat)
    requires Narrows(s, d)
    requires 1 <= e < d.InfExp() && m < Pow2(s.sig)
    ensures RoundsTo(d, (Pow2(s.sig) + m) * Pow2(e + Gap(s, d) - 1), Unit(s, d),
                     RoundShift(e * Pow2(s.sig) + m, Dropped(s, d)))
  {
    hide Pow2, Shr, Low, RoundsTo, Gap;
    var k, w := Dropped(s, d), Pow2(e + Gap(s, d) - 1);
    var a := Shr(m, k);
    var q := e * Pow2(d.sig) + a;
    NormalQuotient(s, d, e, m);
    ShrLow(m, k);
    MulLess(e, d.InfExp(), Pow2(d.sig));
    MagnitudeOfFields(d, e, a);
    MagnitudeSucc(d, q);
    NormalScale(s, d, e, m);
    Expand(d.Magnitude(q), Pow2(e - 1), Unit(s, d));
    RoundAt(d, (Pow2(s.sig) + m) * w, Unit(s, d), q, Low(m, k), Pow2(k), w);
  }

  lemma ExponentInRange(e: nat, m: nat, P: nat, lo: nat, hi: nat)
    requires m < P
    requires lo * P <= e * P + m < hi * P
    ensures lo <= e < hi
  {
    if e < lo {
      MulLess(e, lo, P);
    }
    if e >= hi {
      MulMono(hi, e, P);
    }
  }

  /** The common scale of source and destination in one binade. */
  lemma {:induction false} NormalScale(s: Format, d: Format, e: nat, m: nat)
    requires Narrows(s, d) && e >= 1
    ensures var (k, w) := (Dropped(s, d), Pow2(e + Gap(s, d) - 1));
            && Pow2(e - 1) * Unit(s, d) == Pow2(k) * w
            && (Pow2(s.sig) + m) * w ==
               (Pow2(d.sig) + Shr(m, k)) * Pow2(e - 1) * Unit(s, d) + Low(m, k) * w
  {
    var g, k := Gap(s, d), Dropped(s, d);
    Pow2Add(g, k);
    Pow2Add(e - 1, g);
    Pow2Add(d.sig, k);
    ShrLow(m, k);
    ScaleIdentity(Pow2(d.sig), Shr(m, k), Low(m, k), Pow2(k), Pow2(e - 1), Pow2(g));
  }

  lemma ScaleIdentity(P: nat, a: nat, b: nat, p: nat, u: nat, G: nat)
    ensures u * (G * p) == p * (u * G)
    ensures (P * p + (a * p + b)) * (u * G) == (P + a) * u * (G * p) + b * (u * G)
  {
    Expand((P + a) * p, b, u * G);
    assert P * p + (a * p + b) == (P + a) * p + b;
    assert (P + a) * p * (u * G) == (P + a) * (p * (u * G));
    assert (P + a) * u * (G * p) == (P + a) * (u * (G * p));
  }

  /** Rounding a normal source that is subnormal in the destination. */
  lemma {:induction false} SubnormalRounds(s: Format, d: Format, x: nat)
    requires Narrows(s, d)
    requires s.Exponent(x) >= 1 && Shift(s, d, x) >= 1
    ensures RoundsTo(d, s.Magnitude(x), Unit(s, d),
                     RoundShift(Pow2(s.sig) + s.Fraction(x), Shift(s, d, x) + Dropped(s, d)))
  {
    var e, n := s.Exponent(x), Pow2(s.sig) + s.Fraction(x);
    var j := Shift(s, d, x) + Dropped(s, d);
    ShrLow(x, s.sig);
    assert n < Pow2(s.sig + 1);
    SmallQuotient(n, s.sig + 1, j, d.sig);
    Pow2Add(j, e - 1);
    SubnormalRoundsScaled(d, n, j, Pow2(e - 1));
  }

  lemma {:induction false} SubnormalRoundsScaled(d: Format, n: nat, j: nat, w: nat)
    requires d.Valid() && w > 0
    requires Shr(n, j) < Pow2(d.sig)
    ensures RoundsTo(d, n * w, Pow2(j) * w, RoundShift(n, j))
  {
    var q, c, p := Shr(n, j), Low(n, j), Pow2(j);
    ShrLow(n, j);
    SubnormalMagnitude(d, q);
    SplitScaled(q, p, c, w);
    RoundAt(d, n * w, p * w, q, c, p, w);
  }

  lemma SplitScaled(q: nat, p: nat, c: nat, w: nat)
    requires p > 0 && w > 0
    ensures (q * p + c) * w == q * (p * w) + c * w
    ensures (q + 1) * (p * w) == q * (p * w) + p * w
    ensures p * w > 0
  {
    Distribute(q, p * w);
    Expand(q * p, c, w);
    MulMono(1, p, w);
  }

  /** Below the least normal, and at it, an encoding is its own magnitude. */
  lemma {:induction false} SubnormalMagnitude(d: Format, q: nat)
    requires d.Valid() && q < Pow2(d.sig)
    ensures d.Magnitude(q) == q && d.Magnitude(q + 1) == q + 1
    ensures q < d.Infinity()
  {
    ShrLowSmall(q, d.sig);
    MagnitudeSucc(d, q);
    Pow2Mono(1, d.exp);
    MulMono(1, d.InfExp(), Pow2(d.sig));
  }

  /** A significand shifted out entirely rounds to zero. */
  lemma {:induction false} ShiftedOut(n: nat, a: nat, k: nat)
    requires n < Pow2(a) && a < k
    ensures RoundShift(n, k) == 0
  {
    Pow2Mono(a, k);
    ShrLowSmall(n, k);
  }

  /** Every source from `Overflow` up rounds to infinity. */
  lemma {:induction false} OverflowPath(s: Format, d: Format, x: nat)
    requires Narrows(s, d)
    requires x >= Overflow(s, d)
    ensures RoundsTo(d, s.Magnitude(x), Unit(s, d), d.Infinity())
  {
    var g, k, i := Gap(s, d), Dropped(s, d), d.InfExp();
    assert i >= 1 by {
      Pow2Mono(1, d.exp);
    }
    MagnitudeOfFields(s, g + i, 0);
    MagnitudeOfFields(d, i, 0);
    MagnitudeOrder(s, Overflow(s, d), x);
    assert Scaled(d, d.Infinity(), Unit(s, d)) == Pow2(d.sig) * Pow2(i - 1) * Pow2(g + k);
    Pow2Add(d.sig, i - 1);
    Pow2Add(d.sig + (i - 1), g + k);
    Pow2Add(s.sig, g + i - 1);
    assert d.sig + (i - 1) + (g + k) == s.sig + (g + i - 1);
    OverflowRounds(d, s.Magnitude(x), Unit(s, d));
  }

  // ---------------------------------------------------------------- the whole conversion

  /** A source with a subnormal encoding, or zero, when the biases are far enough apart. */
  lemma {:induction false} SubnormalSource(s: Format, d: Format, x: nat)
    requires Narrows(s, d) && Gap(s, d) > d.sig
    requires s.Exponent(x) == 0
    ensures RoundShift(Pow2(s.sig) + s.Fraction(x), Gap(s, d) + 1 + Dropped(s, d)) == 0
    ensures RoundsTo(d, s.Magnitude(x), Unit(s, d), 0)
  {
    var n := Pow2(s.sig) + s.Fraction(x);
    ShrLow(x, s.sig);
    assert n < Pow2(s.sig + 1);
    ShiftedOut(n, s.sig + 1, Gap(s, d) + 1 + Dropped(s, d));
    var v := s.Magnitude(x);
    Pow2Mono(s.sig, Gap(s, d) + Dropped(s, d));
    SubnormalMagnitude(d, 0);
    NeighbourRounds(d, v, Unit(s, d), 0, 0);
  }

  /** In which pairs of formats every source is rounded correctly. */
  ghost predicate Admissible(s: Format, d: Format)
    requires Narrows(s, d)
  {
    Gap(s, d) > d.sig && Dropped(s, d) >= 2
  }

  /**
   Narrowing is correct rounding: for every admissible pair of formats and every source that
   is not a NaN, the result is the nearest destination value, ties to even.
   */
  lemma {:induction false} NarrowingRounds(s: Format, d: Format, x: nat)
    requires Narrows(s, d) && Admissible(s, d)
    requires x <= s.Infinity()
    ensures RoundsTo(d, s.Magnitude(x), Unit(s, d), NarrowAbs(s, d, x))
  {
    if x >= Overflow(s, d) {
      OverflowPath(s, d, x);
    } else if x >= Underflow(s, d) {
      NormalRounds(s, d, x);
    } else {
      TinyRounds(s, d, x);
    }
  }

  lemma {:induction false} TinyRounds(s: Format, d: Format, x: nat)
    requires Narrows(s, d) && Admissible(s, d)
    requires x < Underflow(s, d)
    ensures RoundsTo(d, s.Magnitude(x), Unit(s, d), NarrowTiny(s, d, x))
  {
    var e, k, n := s.Exponent(x), Dropped(s, d), Pow2(s.sig) + s.Fraction(x);
    ShrLow(x, s.sig);
    ExponentInRange(e, s.Fraction(x), Pow2(s.sig), 0, Gap(s, d) + 1);
    var t := Shift(s, d, x);
    if t > s.sig {
      assert n < Pow2(s.sig + 1);
      ShiftedOut(n, s.sig + 1, t + k);
    } else {
      StickyRoundIsExact(n, t, k);
    }
    if e == 0 {
      SubnormalSource(s, d, x);
    } else {
      SubnormalRounds(s, d, x);
    }
  }
}

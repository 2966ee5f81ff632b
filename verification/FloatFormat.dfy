/**
 Binary interchange formats of section 3.4 of IEEE 754-2019, in any width: `exp`
 exponent bits above `sig` trailing significand bits, with a sign bit on top.
 */
module FloatFormat {
  import opened Bits

  datatype Format = Format(sig: nat, exp: nat) {

    ghost predicate Valid() {
      sig >= 1 && exp >= 2
    }

    /** Width of the whole encoding. */
    function Bits(): nat {
      sig + exp + 1
    }

    /** The all-ones biased exponent. */
    function InfExp(): nat {
      Pow2(exp) - 1
    }

    function Bias(): nat {
      InfExp() / 2
    }

    /** The least subnormal is `2^-LeastExp()`. */
    function LeastExp(): nat
      requires Valid()
    {
      Bias() + sig - 1
    }

    /** Encoding of the least positive normal number: the implicit leading bit. */
    function MinNormal(): nat {
      Pow2(sig)
    }

    /** Encoding of positive infinity. */
    function Infinity(): nat {
      InfExp() * Pow2(sig)
    }

    /** The sign bit as a mask. */
    function SignMask(): nat {
      Pow2(sig + exp)
    }

    /** The biased exponent of a sign-less encoding. */
    function Exponent(x: nat): nat {
      Shr(x, sig)
    }

    /** The trailing significand of a sign-less encoding. */
    function Fraction(x: nat): nat {
      Low(x, sig)
    }

    /**
     The magnitude encoded by `x` as a multiple of the format's least subnormal. The
     encoding of infinity is read as the power of two that would come next, which is how
     section 7.4 of IEEE 754-2019 decides overflow.
     */
    function Magnitude(x: nat): nat {
      if Exponent(x) == 0 then Fraction(x)
      else (Pow2(sig) + Fraction(x)) * Pow2(Exponent(x) - 1)
    }

    /** The distance from `x` to the next encoding, in the same unit. */
    function Ulp(x: nat): nat {
      if Exponent(x) == 0 then 1 else Pow2(Exponent(x) - 1)
    }
  }

  /** The real number that a sign-less encoding stands for: a multiple of the least subnormal. */
  function AbsValue(f: Format, x: nat): real
    requires f.Valid()
  {
    f.Magnitude(x) as real / Pow2(f.LeastExp()) as real
  }

  // ---------------------------------------------------------------- the encoding order

  /** The biased exponent range is symmetric around the bias. */
  lemma BiasValue(f: Format)
    requires f.exp >= 1
    ensures f.Bias() == Pow2(f.exp - 1) - 1
    ensures f.InfExp() == 2 * f.Bias() + 1
  {
  }

  lemma Fields(f: Format, e: nat, m: nat)
    requires m < Pow2(f.sig)
    ensures f.Exponent(e * Pow2(f.sig) + m) == e
    ensures f.Fraction(e * Pow2(f.sig) + m) == m
  {
    ShrLowUnique(e * Pow2(f.sig) + m, f.sig, e, m);
  }

  lemma {:induction false} MagnitudeOfFields(f: Format, e: nat, m: nat)
    requires m < Pow2(f.sig)
    ensures f.Magnitude(e * Pow2(f.sig) + m) == if e == 0 then m else (Pow2(f.sig) + m) * Pow2(e - 1)
    ensures f.Ulp(e * Pow2(f.sig) + m) == if e == 0 then 1 else Pow2(e - 1)
  {
    Fields(f, e, m);
  }

  /** The same distance, seen from the fields of an encoding. */
  lemma {:induction false} MagnitudeStep(p: nat, e: nat, m: nat)
    requires e > 0 && m < p
    ensures (p + (m + 1)) * Pow2(e - 1) == (p + m) * Pow2(e - 1) + Pow2(e - 1)
    ensures m + 1 == p ==> p * Pow2(e) == (p + m) * Pow2(e - 1) + Pow2(e - 1)
  {
    var u := Pow2(e - 1);
    assert Pow2(e) == 2 * u;
    assert (p + (m + 1)) * u == (p + m) * u + u;
    assert p * (2 * u) == (p + p) * u;
  }

  /** Counting up carries from the significand into the exponent. */
  lemma {:induction false} FieldsSucc(f: Format, x: nat)
    ensures var (e, m) := (f.Exponent(x), f.Fraction(x));
            if m + 1 < Pow2(f.sig)
            then f.Exponent(x + 1) == e && f.Fraction(x + 1) == m + 1
            else m + 1 == Pow2(f.sig) && f.Exponent(x + 1) == e + 1 && f.Fraction(x + 1) == 0
  {
    var e, m := f.Exponent(x), f.Fraction(x);
    ShrLow(x, f.sig);
    if m + 1 < Pow2(f.sig) {
      ShrLowUnique(x + 1, f.sig, e, m + 1);
    } else {
      Distribute(e, Pow2(f.sig));
      ShrLowUnique(x + 1, f.sig, e + 1, 0);
    }
  }

  /** Consecutive encodings are one unit in the last place apart, binade boundaries included. */
  lemma {:induction false} MagnitudeSucc(f: Format, x: nat)
    ensures f.Magnitude(x + 1) == f.Magnitude(x) + f.Ulp(x)
  {
    FieldsSucc(f, x);
    var p, e, m := Pow2(f.sig), f.Exponent(x), f.Fraction(x);
    if e > 0 {
      MagnitudeStep(p, e, m);
    }
  }

  /** Encodings are ordered exactly as the magnitudes they stand for. */
  lemma {:induction false} MagnitudeOrder(f: Format, x: nat, y: nat)
    requires x <= y
    ensures f.Magnitude(x) <= f.Magnitude(y)
    ensures x < y ==> f.Magnitude(x) < f.Magnitude(y)
    decreases y - x
  {
    if x < y {
      MagnitudeOrder(f, x, y - 1);
      MagnitudeSucc(f, y - 1);
    }
  }

  // ---------------------------------------------------------------- rounding to nearest, ties to even

  function Dist(a: nat, b: nat): nat {
    if a <= b then b - a else a - b
  }

  /** A magnitude of `f` when one least subnormal counts `unit`. */
  function Scaled(f: Format, x: nat, unit: nat): nat {
    f.Magnitude(x) * unit
  }

  lemma {:induction false} ScaledOrder(f: Format, x: nat, y: nat, unit: nat)
    requires unit > 0 && x < y
    ensures Scaled(f, x, unit) < Scaled(f, y, unit)
  {
    MagnitudeOrder(f, x, y);
    MulLess(f.Magnitude(x), f.Magnitude(y), unit);
  }

  /** `r` beats `d` as the rounding of `v`: nearer, or as near with an even significand. */
  ghost predicate Beats(f: Format, v: nat, unit: nat, r: nat, d: nat) {
    var (here, there) := (Dist(v, Scaled(f, r, unit)), Dist(v, Scaled(f, d, unit)));
    here < there || (here == there && r % 2 == 0)
  }

  /**
   Section 4.3.1 of IEEE 754-2019, roundTiesToEven, over exact integers: among every
   encoding up to infinity, `r` is nearest to `v`, where one least subnormal of `f` counts
   `unit`; when two are equally near, `r` is the one with an even significand.
   */
  ghost predicate RoundsTo(f: Format, v: nat, unit: nat, r: nat) {
    r <= f.Infinity() && forall d: nat | d <= f.Infinity() && d != r :: Beats(f, v, unit, r, d)
  }

  /** Picking the closer of two neighbours that enclose `v` rounds `v`. */
  lemma {:induction false} NeighbourRounds(f: Format, v: nat, unit: nat, q: nat, r: nat)
    requires unit > 0 && q < f.Infinity()
    requires Scaled(f, q, unit) <= v < Scaled(f, q + 1, unit)
    requires var (below, above) := (v - Scaled(f, q, unit), Scaled(f, q + 1, unit) - v);
             || (below < above && r == q)
             || (below > above && r == q + 1)
             || (below == above && r == q + q % 2)
    ensures RoundsTo(f, v, unit, r)
  {
    forall d: nat | d <= f.Infinity() && d != r
      ensures Beats(f, v, unit, r, d)
    {
      if d < q {
        ScaledOrder(f, d, q, unit);
      } else if d > q + 1 {
        ScaledOrder(f, q + 1, d, unit);
      }
    }
  }

  /** A value beyond every finite encoding rounds to infinity. */
  lemma {:induction false} OverflowRounds(f: Format, v: nat, unit: nat)
    requires unit > 0
    requires v >= Scaled(f, f.Infinity(), unit)
    ensures RoundsTo(f, v, unit, f.Infinity())
  {
    forall d: nat | d <= f.Infinity() && d != f.Infinity()
      ensures Beats(f, v, unit, f.Infinity(), d)
    {
      ScaledOrder(f, d, f.Infinity(), unit);
    }
  }

  /** An exactly representable value rounds to itself. */
  lemma {:induction false} ExactRounds(f: Format, unit: nat, r: nat)
    requires unit > 0 && r <= f.Infinity()
    ensures RoundsTo(f, Scaled(f, r, unit), unit, r)
  {
    forall d: nat | d <= f.Infinity() && d != r
      ensures Beats(f, Scaled(f, r, unit), unit, r, d)
    {
      if d < r {
        ScaledOrder(f, d, r, unit);
      } else {
        ScaledOrder(f, r, d, unit);
      }
    }
  }

  /** Rounding never reverses the order of two values. */
  lemma {:induction false} RoundingMonotone(f: Format, unit: nat, v: nat, r: nat, v': nat, r': nat)
    requires unit > 0
    requires v <= v'
    requires RoundsTo(f, v, unit, r) && RoundsTo(f, v', unit, r')
    ensures r <= r'
  {
    if r' < r {
      ScaledOrder(f, r', r, unit);
      assert Beats(f, v, unit, r, r') && Beats(f, v', unit, r', r);
      // so v is at or above the midpoint of r' and r, and v' at or below it: both are the
      // midpoint, and r' and r are both even. The odd encoding between them is nearer.
      assert Beats(f, v, unit, r, r' + 1);
      ScaledOrder(f, r', r' + 1, unit);
      ScaledOrder(f, r' + 1, r, unit);
      assert false;
    }
  }

  /** `RoundsTo` determines its result. */
  lemma {:induction false} RoundingUnique(f: Format, unit: nat, v: nat, r: nat, r': nat)
    requires unit > 0
    requires RoundsTo(f, v, unit, r) && RoundsTo(f, v, unit, r')
    ensures r == r'
  {
    RoundingMonotone(f, unit, v, r, v, r');
    RoundingMonotone(f, unit, v, r', v, r);
  }
}

/**
 Which number literals there are, written as a grammar that mentions no function of the parser,
 and what the parser makes of them.
 */
module JsonNumbers {
  import opened Prelude
  import opened JsonCursor
  import opened JsonGrammar
  import opened JsonRoundTrip

  datatype Power = NoPower | Power(letter: byte, sign: Text, digits: Text)

  /** Sign, whole part, point, fraction and exponent of a literal. */
  datatype Literal = Literal(sign: Text, whole: Text, point: bool, fraction: Text, power: Power)

  ghost predicate Digits(s: Text) {
    forall i | 0 <= i < |s| :: 48 <= s[i] <= 57
  }

  ghost predicate Sign(s: Text) {
    s == [] || s == [43] || s == [45]
  }

  /**
   What `strtod` takes in decimal: digits on at least one side of the point, and an exponent
   with at least one digit. Section 6 of RFC 8259 allows less (see `Standard`).
   */
  ghost predicate IsLiteral(l: Literal) {
    && Sign(l.sign) && Digits(l.whole) && Digits(l.fraction)
    && (l.whole != [] || l.fraction != [])
    && (!l.point ==> l.fraction == [])
    && (l.power.Power? ==>
          (l.power.letter == 101 || l.power.letter == 69) && Sign(l.power.sign) && Digits(l.power.digits) && l.power.digits != [])
  }

  /** The numbers of section 6 of RFC 8259. */
  ghost predicate Standard(l: Literal) {
    && IsLiteral(l) && l.sign != [43]
    && l.whole != [] && (l.whole[0] == 48 ==> |l.whole| == 1)
    && (l.point <==> l.fraction != [])
  }

  function PointText(l: Literal): Text {
    if l.point then [46] + l.fraction else []
  }

  function PowerText(p: Power): Text {
    if p.NoPower? then [] else [p.letter] + p.sign + p.digits
  }

  function LiteralText(l: Literal): Text {
    l.sign + l.whole + PointText(l) + PowerText(l.power)
  }

  // ---------------------------------------------------------------- reading the parts back

  /** Where the parts of a literal lie in its text. */
  lemma Parts(l: Literal)
    requires IsLiteral(l)
    ensures var (s, a) := (LiteralText(l), |l.sign|);
            var b := a + |l.whole|;
            var c := b + |PointText(l)|;
            && c <= |s| && s[..a] == l.sign && s[a..b] == l.whole && s[c..] == PowerText(l.power)
            && (l.point ==> b < c && s[b] == 46 && s[b + 1..c] == l.fraction)
            && (c < |s| <==> l.power.Power?)
            && (c < |s| ==> s[c] == 101 || s[c] == 69)
  {
    FourParts(l.sign, l.whole, PointText(l), PowerText(l.power));
    var (s, b) := (LiteralText(l), |l.sign| + |l.whole|);
    var c := b + |PointText(l)|;
    assert |s| == c + |PowerText(l.power)|;
    hide LiteralText;
    if l.point {
      assert s[b..c][0] == s[b] && s[b..c][1..] == s[b + 1..c];
      assert PointText(l)[1..] == l.fraction;
    }
    if l.power.Power? {
      assert s[c..][0] == s[c];
    }
  }

  lemma FourParts(w: Text, x: Text, y: Text, z: Text)
    ensures var s := w + x + y + z;
            var (a, b, c) := (|w|, |w| + |x|, |w| + |x| + |y|);
            s[..a] == w && s[a..b] == x && s[b..c] == y && s[c..] == z
  {
  }

  lemma {:induction false} DigitsEndAt(s: Text, i: nat, j: nat)
    requires i <= j <= |s| && (forall k | i <= k < j :: IsDigit(s[k])) && (j < |s| ==> !IsDigit(s[j]))
    ensures DigitsEnd(s, i) == j
    decreases j - i
  {
    if i < j {
      DigitsEndAt(s, i + 1, j);
    }
  }

  lemma {:induction false} DigitsBefore(s: Text, i: nat)
    requires i <= |s|
    ensures forall k | i <= k < DigitsEnd(s, i) :: IsDigit(s[k])
    ensures DigitsEnd(s, i) < |s| ==> !IsDigit(s[DigitsEnd(s, i)])
    decreases |s| - i
  {
    if i < |s| && IsDigit(s[i]) {
      DigitsBefore(s, i + 1);
    }
  }

  lemma SliceDigits(s: Text, i: nat, j: nat)
    requires i <= j <= |s|
    ensures Digits(s[i..j]) <==> forall k | i <= k < j :: IsDigit(s[k])
  {
    assert forall k | i <= k < j :: s[k] == s[i..j][k - i];
    assert forall k | 0 <= k < j - i :: s[i..j][k] == s[i + k];
  }

  /** The parser's places in a literal are where its parts begin and end. */
  lemma Places(l: Literal)
    requires IsLiteral(l)
    ensures var (s, a) := (LiteralText(l), |l.sign|);
            && SignEnd(s, 0) == a && DigitsEnd(s, a) == a + |l.whole|
            && MantissaEnd(s, a + |l.whole|) == a + |l.whole| + |PointText(l)| <= |s|
  {
    hide LiteralText, Digits, SignEnd, DigitsEnd;
    Parts(l);
    var (s, a) := (LiteralText(l), |l.sign|);
    var b := a + |l.whole|;
    var c := b + |PointText(l)|;
    SignPlace(s, l.sign, b);
    DigitsPlace(s, a, b);
    if l.point {
      DigitsPlace(s, b + 1, c);
    }
  }

  lemma SignPlace(s: Text, sign: Text, b: nat)
    requires |sign| <= b <= |s| && Sign(sign) && s[..|sign|] == sign && Digits(s[|sign|..b])
    requires |sign| == b < |s| ==> s[b] != 43 && s[b] != 45
    ensures SignEnd(s, 0) == |sign|
  {
    if sign != [] {
      assert s[0] == s[..|sign|][0];
    } else if b > 0 {
      assert s[0] == s[0..b][0];
    }
  }

  lemma DigitsPlace(s: Text, i: nat, j: nat)
    requires i <= j <= |s| && Digits(s[i..j]) && (j < |s| ==> !IsDigit(s[j]))
    ensures DigitsEnd(s, i) == j
  {
    SliceDigits(s, i, j);
    DigitsEndAt(s, i, j);
  }

  lemma PowerPlaces(l: Literal)
    requires IsLiteral(l) && l.power.Power?
    ensures var s := LiteralText(l);
            var c := |s| - |PowerText(l.power)|;
            var d := c + 1 + |l.power.sign|;
            && 0 <= c < d < |s| && SignEnd(s, c + 1) == d && DigitsEnd(s, d) == |s| && s[d..] == l.power.digits
            && (s[d - 1] == 45 <==> l.power.sign == [45])
  {
    hide LiteralText, PowerText, PointText, Digits, SignEnd, DigitsEnd;
    Parts(l);
    var (s, p) := (LiteralText(l), l.power);
    var c := |s| - |PowerText(p)|;
    PowerSlices(p);
    PowerInside(s, c, p);
    SignThenDigits(s, c, p.sign, p.digits);
  }

  lemma PowerSlices(p: Power)
    requires p.Power?
    ensures var (t, n) := (PowerText(p), |p.sign|);
            |t| == 1 + n + |p.digits| && t[0] == p.letter && t[1..1 + n] == p.sign && t[1 + n..] == p.digits
  {
  }

  lemma PowerInside(s: Text, c: nat, p: Power)
    requires p.Power? && c <= |s| && s[c..] == PowerText(p)
    ensures var n := |p.sign|;
            && |s| == c + 1 + n + |p.digits| && s[c] == p.letter
            && s[c + 1..c + 1 + n] == p.sign && s[c + 1 + n..] == p.digits
  {
    PowerSlices(p);
    hide PowerText;
    var (t, n) := (s[c..], |p.sign|);
    assert t[0] == s[c] && t[1..1 + n] == s[c + 1..c + 1 + n] && t[1 + n..] == s[c + 1 + n..];
  }

  /** A letter at `c`, then a sign or none, then digits to the end. */
  lemma SignThenDigits(s: Text, c: nat, sign: Text, digits: Text)
    requires Sign(sign) && Digits(digits) && digits != [] && |s| == c + 1 + |sign| + |digits|
    requires s[c + 1..c + 1 + |sign|] == sign && s[c + 1 + |sign|..] == digits && s[c] != 45
    ensures var d := c + 1 + |sign|;
            SignEnd(s, c + 1) == d && DigitsEnd(s, d) == |s| && (s[d - 1] == 45 <==> sign == [45])
  {
    hide DigitsEnd;
    var d := c + 1 + |sign|;
    DigitAt(digits, 0);
    assert s[d] == digits[0];
    assert sign != [] ==> s[c + 1] == sign[0];
    assert s[d..|s|] == digits;
    SliceDigits(s, d, |s|);
    hide Digits;
    DigitsEndAt(s, d, |s|);
  }

  lemma DigitAt(s: Text, i: nat)
    requires Digits(s) && i < |s|
    ensures 48 <= s[i] <= 57
  {
  }

  lemma LiteralIsDouble(l: Literal)
    requires IsLiteral(l)
    ensures IsDouble(LiteralText(l))
  {
    hide LiteralText, SignEnd, DigitsEnd, MantissaEnd, Digits, Sign;
    Parts(l);
    Places(l);
    if l.power.Power? {
      PowerPlaces(l);
    }
  }

  lemma PowerFrom(s: Text, c: nat) returns (power: Power)
    requires c < |s| && (s[c] == 101 || s[c] == 69) && SignEnd(s, c + 1) < |s| == DigitsEnd(s, SignEnd(s, c + 1))
    ensures PowerText(power) == s[c..]
    ensures power.Power? && power.letter == s[c] && Sign(power.sign) && Digits(power.digits) && power.digits != []
  {
    hide DigitsEnd;
    var d := SignEnd(s, c + 1);
    DigitsBefore(s, d);
    SliceDigits(s, d, |s|);
    assert s[d..|s|] == s[d..];
    power := Power(s[c], s[c + 1..d], s[d..]);
    assert s[c..] == [s[c]] + s[c + 1..d] + s[d..];
  }

  lemma FourSlices(s: Text, a: nat, b: nat, c: nat)
    requires a <= b <= c <= |s|
    ensures s == s[..a] + s[a..b] + s[b..c] + s[c..]
  {
  }

  lemma FractionFrom(s: Text, b: nat) returns (fraction: Text)
    requires b <= |s|
    ensures var c := MantissaEnd(s, b);
            Digits(fraction) && if c > b then s[b..c] == [46] + fraction && fraction == s[b + 1..c] else fraction == []
  {
    hide DigitsEnd;
    var c := MantissaEnd(s, b);
    fraction := [];
    if c > b {
      fraction := s[b + 1..c];
      DigitsBefore(s, b + 1);
      SliceDigits(s, b + 1, c);
      assert s[b..c] == [s[b]] + s[b + 1..c];
    }
  }

  /** A text that `strtod` consumes is a literal. */
  lemma DoubleIsLiteral(s: Text) returns (l: Literal)
    requires IsDouble(s)
    ensures IsLiteral(l) && LiteralText(l) == s
  {
    hide DigitsEnd, MantissaEnd, Digits;
    var a := SignEnd(s, 0);
    var b := DigitsEnd(s, a);
    var c := MantissaEnd(s, b);
    DigitsBefore(s, a);
    SliceDigits(s, a, b);
    var fraction := FractionFrom(s, b);
    var power := NoPower;
    if c < |s| {
      power := PowerFrom(s, c);
    }
    l := Literal(s[..a], s[a..b], c > b, fraction, power);
    FourSlices(s, a, b, c);
  }

  /** The texts that are doubles are exactly the literals. */
  lemma IsDoubleIff(s: Text)
    ensures IsDouble(s) <==> exists l :: IsLiteral(l) && LiteralText(l) == s
  {
    if IsDouble(s) {
      var l := DoubleIsLiteral(s);
    }
    if l :| IsLiteral(l) && LiteralText(l) == s {
      LiteralIsDouble(l);
    }
  }

  // ---------------------------------------------------------------- what a literal is worth

  ghost function PowerValue(p: Power): int {
    if p.NoPower? then 0
    else
      var n: int := Decimal(p.digits, 0);
      if p.sign == [45] then -n else n
  }

  /** The exact value: all digits as one number, scaled by the exponent less the places of the fraction. */
  lemma ExactOf(l: Literal)
    requires IsLiteral(l)
    ensures Exact(LiteralText(l)) == Decimals(Decimal(l.whole + l.fraction, 0), PowerValue(l.power) - |l.fraction|)
  {
    hide LiteralText, SignEnd, DigitsEnd, MantissaEnd, Decimal, Exponent, Digits;
    Parts(l);
    Places(l);
    ExponentOf(l);
  }

  lemma ExponentOf(l: Literal)
    requires IsLiteral(l)
    ensures Exponent(LiteralText(l), |l.sign| + |l.whole| + |PointText(l)|) == PowerValue(l.power)
  {
    hide LiteralText, SignEnd, DigitsEnd, Decimal, Digits;
    Parts(l);
    if l.power.Power? {
      PowerPlaces(l);
    }
  }

  /** A run of digits is a number in base ten: one more digit makes it ten times as large, plus that digit. */
  lemma DecimalIsPlaceValue(s: Text, d: byte)
    requires Digits(s) && 48 <= d <= 57
    ensures Decimal([], 0) == 0 && Decimal(s + [d], 0) == 10 * Decimal(s, 0) + (d - 48)
  {
    DecimalAppend(s, d, 0);
  }

  ghost function IntegerValue(l: Literal): int {
    var n: int := Decimal(l.whole, 0);
    if l.sign == [45] then -n else n
  }

  /** A literal without point and exponent whose value fits 64 bits. */
  ghost predicate IsInt64(l: Literal) {
    !l.point && l.power.NoPower? && -0x8000_0000_0000_0000 <= IntegerValue(l) <= 0x7FFF_FFFF_FFFF_FFFF
  }

  lemma ToInt64Of(l: Literal)
    requires IsLiteral(l)
    ensures ToInt64(LiteralText(l)) == if IsInt64(l) then Some(IntegerValue(l)) else None
  {
    hide LiteralText, Decimal;
    Parts(l);
    var (s, a) := (LiteralText(l), |l.sign|);
    var b := a + |l.whole|;
    SliceDigits(s, a, b);
    assert l.sign != [] ==> s[0] == s[..a][0];
    assert l.whole != [] ==> s[a] == s[a..b][0];
    var digits := if |s| > 0 && (s[0] == 45 || s[0] == 43) then s[1..] else s;
    assert digits == s[a..];
    if !l.point && l.power.NoPower? {
      assert s[a..] == l.whole;
    } else {
      assert digits[b - a] == s[b] && !IsDigit(s[b]);
    }
  }

  /** What the parser keeps of a number. */
  ghost function NumberOf(l: Literal): Value {
    if IsInt64(l) then Int(IntegerValue(l)) else Double(LiteralText(l))
  }

  ghost predicate Infinite(l: Literal) {
    !IsInt64(l) && Overflows(LiteralText(l))
  }

  lemma NumberValueOf(l: Literal)
    requires IsLiteral(l)
    ensures NumberValue(LiteralText(l)) == Some(NumberOf(l))
  {
    hide LiteralText, ToInt64, IsDouble;
    ToInt64Of(l);
    LiteralIsDouble(l);
  }

  /** The characters of a literal are number characters. */
  lemma LiteralChars(l: Literal, i: nat)
    requires IsLiteral(l) && i < |LiteralText(l)|
    ensures IsNumberChar(LiteralText(l)[i])
  {
    var (s, a) := (LiteralText(l), |l.sign|);
    var b := a + |l.whole|;
    var c := b + |PointText(l)|;
    if i < a {
      assert s[i] == l.sign[i];
    } else if i < b {
      assert s[i] == l.whole[i - a];
    } else if i < c {
      assert s[i] == PointText(l)[i - b];
    } else {
      assert s[i] == PowerText(l.power)[i - c];
    }
  }

  /** A character that may be part of a number: digits, signs, point and exponent letter. */
  predicate Continues(ch: int) {
    48 <= ch <= 57 || ch == 43 || ch == 45 || ch == 46 || ch == 69 || ch == 101
  }

  /** The parser looks for a number where it sees a digit or a minus. */
  ghost predicate Begins(l: Literal) {
    l.sign == [45] || (l.sign == [] && l.whole != [])
  }

  lemma BeginsIff(l: Literal)
    requires IsLiteral(l)
    ensures LiteralText(l) != []
    ensures Begins(l) <==> 48 <= LiteralText(l)[0] <= 57 || LiteralText(l)[0] == 45
  {
    hide LiteralText;
    Parts(l);
    var (s, a) := (LiteralText(l), |l.sign|);
    assert l.sign != [] ==> s[0] == s[..a][0];
    assert l.whole != [] ==> s[a] == s[a..a + |l.whole|][0];
  }

  /**
   Every literal the parser looks at, followed by something that cannot continue it, is read
   as itself up to its end; in the building context an infinite one throws there.
   */
  lemma LiteralParses(ctx: Context, t: Text, p: nat, l: Literal)
    requires IsLiteral(l) && Begins(l)
    requires Occurs(t, p, LiteralText(l)) && !Continues(At(t, p + |LiteralText(l)|))
    ensures p <= |t| && Parse(ctx, t, p) ==
            if ctx.Building? && Infinite(l) then Thrown(p + |LiteralText(l)|)
            else Ok(Out(ctx, NumberOf(l)), p + |LiteralText(l)|)
  {
    hide Parse, ParseNumber, LiteralText, IsLiteral, Occurs, NumberEnd, NumberValue;
    var s := LiteralText(l);
    BeginsIff(l);
    OccursAt(t, p, s, 0);
    forall j | 0 <= j < |s|
      ensures IsNumberChar(s[j])
    {
      LiteralChars(l, j);
    }
    NumberOccurs(t, p, s);
    NumberDispatchIn(ctx, t, p);
    NumberValueOf(l);
    NumberOutcome(ctx, t, p, l);
  }

  lemma NumberDispatchIn(ctx: Context, t: Text, p: nat)
    requires p < |t| && (48 <= t[p] <= 57 || t[p] == 45)
    ensures Parse(ctx, t, p) == ParseNumber(ctx, t, p)
  {
    hide ParseNumber;
    SkipStops(t, p, p);
  }

  lemma NumberOutcome(ctx: Context, t: Text, p: nat, l: Literal)
    requires p < |t| && IsNumberChar(t[p])
    requires NumberEnd(t, p) == p + |LiteralText(l)| && t[p..p + |LiteralText(l)|] == LiteralText(l)
    requires NumberValue(LiteralText(l)) == Some(NumberOf(l))
    ensures ParseNumber(ctx, t, p) ==
            if ctx.Building? && Infinite(l) then Thrown(p + |LiteralText(l)|)
            else Ok(Out(ctx, NumberOf(l)), p + |LiteralText(l)|)
  {
    hide NumberEnd, NumberValue, Overflows, LiteralText;
  }

  /** A number that is read is a literal the parser looks at. */
  lemma NumberIsLiteral(ctx: Context, t: Text, q: nat) returns (l: Literal)
    requires q < |t| && (48 <= t[q] <= 57 || t[q] == 45) && ParseNumber(ctx, t, q).Ok?
    ensures IsLiteral(l) && Begins(l) && Occurs(t, q, LiteralText(l))
    ensures ParseNumber(ctx, t, q).pos == q + |LiteralText(l)| && !Continues(At(t, q + |LiteralText(l)|))
    ensures ctx.Building? ==> !Infinite(l)
  {
    hide LiteralText, IsDouble, ToInt64, IsLiteral, Overflows, NumberEnd;
    var s := t[q..NumberEnd(t, q)];
    if ToInt64(s).Some? {
      IntegerIsDouble(s);
    }
    l := DoubleIsLiteral(s);
    BeginsIff(l);
    NumberValueOf(l);
    hide NumberValue;
    assert t[q] == s[0];
  }

  lemma IntegerIsDouble(s: Text)
    requires ToInt64(s).Some?
    ensures IsDouble(s)
  {
    var a := SignEnd(s, 0);
    var digits := s[a..];
    assert forall k | a <= k < |s| :: s[k] == digits[k - a];
    DigitsEndAt(s, a, |s|);
  }
}

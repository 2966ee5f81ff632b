/**
 JSON values and what the recursive-descent parser computes at each position of a text.
 Every function here also says where the cursor stands after a failure.
 */
module JsonGrammar {
  import opened Prelude
  import opened JsonCursor
  import opened Utf8

  /**
   A parsed value. A number that does not fit 64 bits or has a fraction is kept as the literal
   that is handed to `strtod`.
   */
  datatype Value =
    | Null
    | Bool(b: bool)
    | Int(i: int)
    | Double(literal: Text)
    | Str(s: Text)
    | Arr(items: seq<Value>)
    | Obj(members: map<Text, Value>)

  /** Which parse context drives the parser: one that builds a value or one that only checks. */
  datatype Context = Building | Validating

  /** Besides success and failure, building a value may throw: no double holds an infinity. */
  datatype Result = Ok(value: Value, pos: nat) | Fail(pos: nat) | Thrown(pos: nat)

  datatype StringResult = StrOk(s: Text, pos: nat) | StrFail(pos: nat)

  /** `push_back` on the context's string; the checking context's string ignores it. */
  function Push(ctx: Context, s: Text, bytes: Text): Text {
    if ctx.Building? then s + bytes else s
  }

  function Out(ctx: Context, v: Value): Value {
    if ctx.Building? then v else Null
  }

  // ---------------------------------------------------------------- strings

  /** The value of a hexadecimal digit, or -1. */
  function HexDigit(ch: int): (v: int)
    ensures -1 <= v < 16
  {
    if '0' as int <= ch <= '9' as int then ch - '0' as int
    else if 'A' as int <= ch <= 'F' as int then ch - 'A' as int + 10
    else if 'a' as int <= ch <= 'f' as int then ch - 'a' as int + 10
    else -1
  }

  datatype Code = Code(value: int, pos: nat)

  /** `n` hexadecimal digits appended to `acc`; the value is -1 on failure. */
  function QuadHex(t: Text, p: nat, n: nat, acc: nat): (r: Code)
    requires p <= |t|
    ensures p <= r.pos <= |t| && r.value >= -1
    ensures r.value >= 0 ==> r.pos == p + n
    decreases |t| - p
  {
    if n == 0 then Code(acc, p)
    else
      var v := HexDigit(At(t, p));
      if v < 0 then Code(-1, p) else QuadHex(t, p + 1, n - 1, acc * 16 + v)
  }

  lemma {:induction false} QuadHexBound(t: Text, p: nat, n: nat, acc: nat)
    requires p <= |t| && n <= 4
    ensures n == 0 ==> QuadHex(t, p, n, acc).value <= acc
    ensures n == 1 ==> QuadHex(t, p, n, acc).value <= acc * 16 + 15
    ensures n == 2 ==> QuadHex(t, p, n, acc).value <= acc * 256 + 255
    ensures n == 3 ==> QuadHex(t, p, n, acc).value <= acc * 4096 + 4095
    ensures n == 4 ==> QuadHex(t, p, n, acc).value <= acc * 65536 + 65535
    decreases n
  {
    if n > 0 && HexDigit(At(t, p)) >= 0 {
      QuadHexBound(t, p + 1, n - 1, acc * 16 + HexDigit(At(t, p)));
    }
  }

  /** The code point after `\u`: one escape, or two that form a surrogate pair; -1 on failure. */
  function CodePoint(t: Text, p: nat): (r: Code)
    requires p <= |t|
    ensures p <= r.pos <= |t|
    ensures r.value >= 0 ==> r.pos > p && IsScalar(r.value)
  {
    QuadHexBound(t, p, 4, 0);
    var first := QuadHex(t, p, 4, 0);
    if first.value == -1 || IsLowSurrogate(first.value) then Code(-1, first.pos)
    else if IsHighSurrogate(first.value) then SecondHalf(t, first.pos, first.value)
    else first
  }

  function SecondHalf(t: Text, p: nat, hi: int): (r: Code)
    requires p <= |t| && IsHighSurrogate(hi)
    ensures p <= r.pos <= |t|
    ensures r.value >= 0 ==> 0x10000 <= r.value <= 0x10FFFF
  {
    if At(t, p) != '\\' as int then Code(-1, p)
    else if At(t, p + 1) != 'u' as int then Code(-1, p + 1)
    else
      var second := QuadHex(t, p + 2, 4, 0);
      if IsLowSurrogate(second.value) then Code(Combine(hi, second.value), second.pos)
      else Code(-1, second.pos)
  }

  /** The character a two-character escape stands for, or -1. */
  function Unescape(ch: int): (v: int)
    ensures -1 <= v < 0x80
  {
    if ch == '"' as int || ch == '\\' as int || ch == '/' as int then ch
    else if ch == 'b' as int then 8
    else if ch == 'f' as int then 12
    else if ch == 'n' as int then 10
    else if ch == 'r' as int then 13
    else if ch == 't' as int then 9
    else -1
  }

  /** What follows a backslash, and the bytes it stands for. */
  function ParseEscape(t: Text, p: nat): (r: StringResult)
    requires p <= |t|
    ensures p <= r.pos <= |t|
    ensures r.StrOk? ==> p < r.pos
  {
    var esc := At(t, p);
    if esc == -1 then StrFail(p)
    else if Unescape(esc) >= 0 then StrOk([Unescape(esc)], p + 1)
    else if esc == 'u' as int then
      var code := CodePoint(t, p + 1);
      if code.value < 0 then StrFail(code.pos) else StrOk(Encode(code.value), code.pos)
    else StrFail(p + 1)
  }

  /** The rest of a string literal, after the opening quote; `acc` holds the bytes so far. */
  function ParseString(ctx: Context, t: Text, p: nat, acc: Text): (r: StringResult)
    requires p <= |t|
    ensures p <= r.pos <= |t|
    ensures r.StrOk? ==> p < r.pos
    decreases |t| - p
  {
    var ch := At(t, p);
    if ch < ' ' as int then StrFail(p)
    else if ch == '"' as int then StrOk(acc, p + 1)
    else if ch != '\\' as int then ParseString(ctx, t, p + 1, Push(ctx, acc, [ch]))
    else
      match ParseEscape(t, p + 1)
      case StrOk(bytes, pos) => ParseString(ctx, t, pos, Push(ctx, acc, bytes))
      case StrFail(pos) => StrFail(pos)
  }

  // ---------------------------------------------------------------- numbers

  predicate IsDigit(ch: int) {
    '0' as int <= ch <= '9' as int
  }

  predicate IsNumberChar(ch: int) {
    IsDigit(ch) || ch == '+' as int || ch == '-' as int || ch == 'e' as int || ch == 'E' as int || ch == '.' as int
  }

  /** Where the run of number characters from `p` ends. */
  function NumberEnd(t: Text, p: nat): (q: nat)
    requires p <= |t|
    ensures p <= q <= |t| && !IsNumberChar(At(t, q))
    ensures forall i | p <= i < q :: IsNumberChar(t[i])
    decreases |t| - p
  {
    if IsNumberChar(At(t, p)) then NumberEnd(t, p + 1) else p
  }

  /** The value of a run of decimal digits appended to `acc`. */
  function Decimal(s: Text, acc: nat): nat {
    if s == [] then acc else Decimal(s[1..], acc * 10 + DigitValue(s[0]))
  }

  function DigitValue(ch: int): nat {
    if IsDigit(ch) then ch - '0' as int else 0
  }

  const INT64_MIN: int := -0x8000_0000_0000_0000
  const INT64_MAX: int := 0x7FFF_FFFF_FFFF_FFFF

  predicate AllDigits(s: Text) {
    forall i | 0 <= i < |s| :: IsDigit(s[i])
  }

  /** `strtoimax` in base 10, when it consumes all of `s` without a range error. */
  function ToInt64(s: Text): (r: Option<int>)
    ensures r.Some? ==> INT64_MIN <= r.value <= INT64_MAX
  {
    var negative := |s| > 0 && s[0] == '-' as int;
    var digits := if negative || (|s| > 0 && s[0] == '+' as int) then s[1..] else s;
    if digits == [] || !AllDigits(digits) then None
    else
      var v: int := Decimal(digits, 0);
      var signed := if negative then -v else v;
      if INT64_MIN <= signed <= INT64_MAX then Some(signed) else None
  }

  function DigitsEnd(s: Text, i: nat): (j: nat)
    requires i <= |s|
    ensures i <= j <= |s|
    decreases |s| - i
  {
    if i < |s| && IsDigit(s[i]) then DigitsEnd(s, i + 1) else i
  }

  function SignEnd(s: Text, i: nat): (j: nat)
    requires i <= |s|
    ensures i <= j <= |s|
  {
    if i < |s| && (s[i] == '+' as int || s[i] == '-' as int) then i + 1 else i
  }

  /** Where the digits end, a decimal point and fraction included, if the whole part ends at `b`. */
  function MantissaEnd(s: Text, b: nat): (c: nat)
    requires b <= |s|
    ensures b <= c <= |s|
  {
    if b < |s| && s[b] == '.' as int then DigitsEnd(s, b + 1) else b
  }

  /** Does `strtod` consume all of `s`, a string of number characters? */
  predicate IsDouble(s: Text) {
    var a := SignEnd(s, 0);
    var b := DigitsEnd(s, a);
    var c := MantissaEnd(s, b);
    (b > a || c > b + 1)
    && (c == |s|
        || ((s[c] == 'e' as int || s[c] == 'E' as int)
            && var d := SignEnd(s, c + 1); d < |s| && DigitsEnd(s, d) == |s|))
  }

  /** `m * 10^k`. */
  function Scale10(m: nat, k: nat): nat
    decreases k
  {
    if k == 0 then m else Scale10(10 * m, k - 1)
  }

  /** A decimal number without its sign: `digits * 10^scale`. */
  datatype Decimals = Decimals(digits: nat, scale: int) {
    /** Is it at least `n`? */
    predicate AtLeast(n: nat) {
      if scale >= 0 then Scale10(digits, scale) >= n else digits >= Scale10(n, -scale)
    }
  }

  /** The exact value of a literal that `strtod` consumes, without its sign. */
  function Exact(s: Text): Decimals {
    var a := SignEnd(s, 0);
    var b := DigitsEnd(s, a);
    var c := MantissaEnd(s, b);
    var fraction := if c > b then s[b + 1..c] else [];
    Decimals(Decimal(s[a..b] + fraction, 0), Exponent(s, c) - |fraction|)
  }

  /** The exponent that follows the mantissa, zero if there is none. */
  function Exponent(s: Text, c: nat): int {
    if c >= |s| then 0
    else
      var d := SignEnd(s, c + 1);
      var n: int := Decimal(s[d..], 0);
      if s[d - 1] == '-' as int then -n else n
  }

  /** `2^1024 - 2^970`: half way from the greatest finite double to the power of two after it. */
  const DOUBLE_LIMIT: nat :=
    0xFFFFFFFFFFFFFC00000000000000000000000000000000000000000000000000000000000000000000000000000000000000000000000000000000000000000000000000000000000000000000000000000000000000000000000000000000000000000000000000000000000000000000000000000000000000000000000000

  /** Does `strtod` return an infinity for this literal? */
  predicate Overflows(s: Text) {
    Exact(s).AtLeast(DOUBLE_LIMIT)
  }

  function NumberValue(s: Text): Option<Value> {
    match ToInt64(s)
    case Some(i) => Some(Int(i))
    case None => if IsDouble(s) then Some(Double(s)) else None
  }

  /** Does making a value of this number throw? */
  predicate Throws(ctx: Context, v: Value) {
    ctx.Building? && v.Double? && Overflows(v.literal)
  }

  // ---------------------------------------------------------------- values

  const ULL: Text := ['u' as int, 'l' as int, 'l' as int]
  const ALSE: Text := ['a' as int, 'l' as int, 's' as int, 'e' as int]
  const RUE: Text := ['r' as int, 'u' as int, 'e' as int]

  /** The parser proper. Recursion always leaves less input, so it ends on every text. */
  function Parse(ctx: Context, t: Text, p: nat): (r: Result)
    requires p <= |t|
    ensures p <= r.pos <= |t|
    ensures r.Ok? ==> p < r.pos
    decreases |t| - p, 0
  {
    var q := SkipWs(t, p);
    var ch := At(t, q);
    if ch == 'n' as int then Keyword(ctx, t, q, ULL, Null)
    else if ch == 'f' as int then Keyword(ctx, t, q, ALSE, Bool(false))
    else if ch == 't' as int then Keyword(ctx, t, q, RUE, Bool(true))
    else if ch == '"' as int then
      match ParseString(ctx, t, q + 1, [])
      case StrOk(s, pos) => Ok(Out(ctx, Str(s)), pos)
      case StrFail(pos) => Fail(pos)
    else if ch == '[' as int then ParseArray(ctx, t, q + 1)
    else if ch == '{' as int then ParseObject(ctx, t, q + 1)
    else if IsDigit(ch) || ch == '-' as int then ParseNumber(ctx, t, q)
    else Fail(q)
  }

  function Keyword(ctx: Context, t: Text, q: nat, rest: Text, v: Value): (r: Result)
    requires q < |t|
    ensures q < r.pos <= |t| && !r.Thrown?
  {
    var m := Match(t, q + 1, rest);
    if m.ok then Ok(Out(ctx, v), m.pos) else Fail(m.pos)
  }

  function ParseNumber(ctx: Context, t: Text, q: nat): (r: Result)
    requires q < |t| && IsNumberChar(t[q])
    ensures q < r.pos <= |t|
  {
    var e := NumberEnd(t, q);
    match NumberValue(t[q..e])
    case Some(v) => if Throws(ctx, v) then Thrown(e) else Ok(Out(ctx, v), e)
    case None => Fail(e)
  }

  function ParseArray(ctx: Context, t: Text, p: nat): (r: Result)
    requires p <= |t|
    ensures p <= r.pos <= |t|
    decreases |t| - p, 2
  {
    var close := Expect(t, p, ']' as int);
    if close.ok then Ok(Out(ctx, Arr([])), close.pos) else ParseItems(ctx, t, close.pos, [])
  }

  function ParseItems(ctx: Context, t: Text, p: nat, acc: seq<Value>): (r: Result)
    requires p <= |t|
    ensures p <= r.pos <= |t|
    decreases |t| - p, 1
  {
    var item := Parse(ctx, t, p);
    if !item.Ok? then item
    else
      var acc' := if ctx.Building? then acc + [item.value] else acc;
      var comma := Expect(t, item.pos, ',' as int);
      if comma.ok then ParseItems(ctx, t, comma.pos, acc')
      else
        var close := Expect(t, comma.pos, ']' as int);
        if close.ok then Ok(Out(ctx, Arr(acc')), close.pos) else Fail(close.pos)
  }

  function ParseObject(ctx: Context, t: Text, p: nat): (r: Result)
    requires p <= |t|
    ensures p <= r.pos <= |t|
    decreases |t| - p, 2
  {
    var close := Expect(t, p, '}' as int);
    if close.ok then Ok(Out(ctx, Obj(map[])), close.pos) else ParseMembers(ctx, t, close.pos, map[])
  }

  function ParseMembers(ctx: Context, t: Text, p: nat, acc: map<Text, Value>): (r: Result)
    requires p <= |t|
    ensures p <= r.pos <= |t|
    decreases |t| - p, 1
  {
    match ParseKey(t, p)
    case StrFail(pos) => Fail(pos)
    case StrOk(key, pos) => ParseMember(ctx, t, pos, key, acc)
  }

  /** The value of a member and whatever follows it in the object. */
  function ParseMember(ctx: Context, t: Text, p: nat, key: Text, acc: map<Text, Value>): (r: Result)
    requires p <= |t|
    ensures p <= r.pos <= |t|
    decreases |t| - p, 1
  {
    var item := Parse(ctx, t, p);
    if !item.Ok? then item
    else
      var acc' := if ctx.Building? then acc[key := item.value] else acc;
      var comma := Expect(t, item.pos, ',' as int);
      if comma.ok then ParseMembers(ctx, t, comma.pos, acc')
      else
        var close := Expect(t, comma.pos, '}' as int);
        if close.ok then Ok(Out(ctx, Obj(acc')), close.pos) else Fail(close.pos)
  }

  /** A quoted key and the colon after it. Keys are read into a real string in both contexts. */
  function ParseKey(t: Text, p: nat): (r: StringResult)
    requires p <= |t|
    ensures p <= r.pos <= |t|
    ensures r.StrOk? ==> p < r.pos
  {
    var open := Expect(t, p, '"' as int);
    if !open.ok then StrFail(open.pos)
    else
      match ParseString(Building, t, open.pos, [])
      case StrFail(pos) => StrFail(pos)
      case StrOk(s, pos) =>
        var colon := Expect(t, pos, ':' as int);
        if colon.ok then StrOk(s, colon.pos) else StrFail(colon.pos)
  }
}

/**
 The parser as it runs: methods that drive an `Input` and stop exactly where `JsonGrammar`
 says, with the same outcome.
 */
module JsonParser {
  import opened Prelude
  import opened Bits
  import opened JsonCursor
  import opened Utf8
  import opened JsonGrammar

  // ---------------------------------------------------------------- strings

  method ReadQuadHex(input: Input) returns (code: int)
    requires input.Valid()
    modifies input
    ensures input.Valid() && (old(input.Lined()) ==> input.Lined())
    ensures Code(code, input.Pos()) == QuadHex(input.text, old(input.Pos()), 4, 0)
  {
    code := 0;
    var i := 0;
    while i < 4
      invariant 0 <= i <= 4 && code >= 0
      invariant input.Valid() && (old(input.Lined()) ==> input.Lined())
      invariant QuadHex(input.text, old(input.Pos()), 4, 0) == QuadHex(input.text, input.Pos(), 4 - i, code)
    {
      var hex := input.Getc();
      if hex == -1 {
        return -1;
      }
      if '0' as int <= hex <= '9' as int {
        hex := hex - '0' as int;
      } else if 'A' as int <= hex <= 'F' as int {
        hex := hex - ('A' as int - 10);
      } else if 'a' as int <= hex <= 'f' as int {
        hex := hex - ('a' as int - 10);
      } else {
        input.Ungetc();
        return -1;
      }
      code := code * 16 + hex;
      i := i + 1;
    }
  }

  /** Two fields that do not overlap, the low one masked. */
  lemma {:induction false} JoinMasked(hi: nat, lo: nat, n: nat)
    requires lo < Pow2(n)
    ensures And(lo, Pow2(n) - 1) == lo && Or(hi * Pow2(n), lo) == hi * Pow2(n) + lo
  {
    AndLowMask(lo, n);
    ShrLowSmall(lo, n);
    OrDisjoint(hi, lo, n);
  }

  lemma {:induction false} CombineBits(hi: int, lo: int)
    requires IsHighSurrogate(hi) && IsLowSurrogate(lo)
    ensures Or((hi - 0xD800) * 1024, And(lo - 0xDC00, 0x3FF)) + 0x10000 == Combine(hi, lo)
  {
    var n := 10;
    assert Pow2(10) == 1024;
    JoinMasked(hi - 0xD800, lo - 0xDC00, n);
  }

  method ReadCodePoint(input: Input) returns (ok: bool, bytes: Text)
    requires input.Valid()
    modifies input
    ensures input.Valid() && (old(input.Lined()) ==> input.Lined())
    ensures var r := CodePoint(input.text, old(input.Pos()));
            && ok == (r.value >= 0) && input.Pos() == r.pos
            && (ok ==> bytes == Encode(r.value))
  {
    hide QuadHex, Encode, Or, And;
    ghost var p := input.Pos();
    bytes := [];
    QuadHexBound(input.text, p, 4, 0);
    var code := ReadQuadHex(input);
    if code == -1 {
      return false, bytes;
    }
    if 0xD800 <= code <= 0xDFFF {
      if 0xDC00 <= code {
        return false, bytes;
      }
      var ch := input.Getc();
      if ch == '\\' as int {
        ch := input.Getc();
        if ch != 'u' as int {
          input.Ungetc();
          return false, bytes;
        }
      } else {
        input.Ungetc();
        return false, bytes;
      }
      var second := ReadQuadHex(input);
      if !(0xDC00 <= second <= 0xDFFF) {
        return false, bytes;
      }
      CombineBits(code, second);
      code := Or((code - 0xD800) * 1024, And(second - 0xDC00, 0x3FF)) + 0x10000;
    }
    ok := true;
    bytes := Utf8Bytes(code);
  }

  /** `u >> n` for the shifts the encoder uses. */
  lemma {:induction false} Shifts(u: nat)
    ensures Shr(u, 6) == u / 64 && Shr(u, 12) == u / 4096 && Shr(u, 18) == u / 262144
  {
    SixBitPowers();
    ShrLowUnique(u, 6, u / 64, u % 64);
    ShrLowUnique(u, 12, u / 4096, u % 4096);
    ShrLowUnique(u, 18, u / 262144, u % 262144);
  }

  lemma {:induction false} SixBitPowers()
    ensures Pow2(6) == 64 && Pow2(5) == 32 && Pow2(4) == 16 && Pow2(3) == 8
    ensures Pow2(12) == 4096 && Pow2(18) == 262144
  {
    assert Pow2(6) == 64;
    Pow2Add(6, 6);
    Pow2Add(12, 6);
  }

  /** A continuation byte: `0x80 | (u & 0x3f)`. */
  lemma {:induction false} TailByte(u: nat)
    ensures Or(0x80, And(u, 0x3F)) == 0x80 + u % 64
  {
    SixBitPowers();
    AndLowMask(u, 6);
    ShrLowUnique(u, 6, u / 64, u % 64);
    OrDisjoint(2, u % 64, 6);
  }

  /** A leading byte: a length mark joined to the top bits. */
  lemma {:induction false} LeadByte(u: nat)
    ensures u < 32 ==> Or(0xC0, u) == 0xC0 + u
    ensures u < 16 ==> Or(0xE0, u) == 0xE0 + u
    ensures u < 8 ==> Or(0xF0, u) == 0xF0 + u
  {
    SixBitPowers();
    if u < 32 {
      OrDisjoint(6, u, 5);
    }
    if u < 16 {
      OrDisjoint(14, u, 4);
    }
    if u < 8 {
      OrDisjoint(30, u, 3);
    }
  }

  /** The bytes pushed for a code point, built with shifts and masks. */
  method Utf8Bytes(u: nat) returns (out: Text)
    requires u <= 0x10FFFF
    ensures out == Encode(u)
  {
    Shifts(u);
    hide Or, And, Shr;
    out := [];
    if u < 0x80 {
      out := out + [u];
    } else {
      TailByte(u);
      if u < 0x800 {
        LeadByte(u / 64);
        out := out + [Or(0xC0, Shr(u, 6))];
      } else {
        TailByte(u / 64);
        if u < 0x10000 {
          LeadByte(u / 4096);
          out := out + [Or(0xE0, Shr(u, 12))];
        } else {
          LeadByte(u / 262144);
          TailByte(u / 4096);
          out := out + [Or(0xF0, Shr(u, 18))];
          out := out + [Or(0x80, And(Shr(u, 12), 0x3F))];
        }
        out := out + [Or(0x80, And(Shr(u, 6), 0x3F))];
      }
      out := out + [Or(0x80, And(u, 0x3F))];
    }
  }

  method ReadEscape(input: Input) returns (ok: bool, bytes: Text)
    requires input.Valid()
    modifies input
    ensures input.Valid() && (old(input.Lined()) ==> input.Lined())
    ensures var r := ParseEscape(input.text, old(input.Pos()));
            && ok == r.StrOk? && input.Pos() == r.pos
            && (ok ==> bytes == r.s)
  {
    bytes := [];
    var ch := input.Getc();
    if ch == -1 {
      return false, bytes;
    }
    if Unescape(ch) >= 0 {
      return true, [Unescape(ch)];
    } else if ch == 'u' as int {
      ok, bytes := ReadCodePoint(input);
    } else {
      ok := false;
    }
  }

  /** What one turn of the loop over a string's characters leads to. */
  datatype Turn = More | Closed | Broken

  /** What is left to parse after one turn: the rest of the string, or its end, or nothing. */
  ghost function AfterTurn(turn: Turn, ctx: Context, t: Text, p: nat, out: Text): StringResult
    requires p <= |t|
  {
    match turn
    case More => ParseString(ctx, t, p, out)
    case Closed => StrOk(out, p)
    case Broken => StrFail(p)
  }

  method ReadChar(ctx: Context, input: Input, before: Text) returns (turn: Turn, out: Text)
    requires input.Valid()
    modifies input
    ensures input.Valid() && (old(input.Lined()) ==> input.Lined())
    ensures turn.More? ==> old(input.Pos()) < input.Pos()
    ensures ParseString(ctx, input.text, old(input.Pos()), before) == AfterTurn(turn, ctx, input.text, input.Pos(), out)
  {
    hide ParseEscape;
    out := before;
    var ch := input.Getc();
    if ch < ' ' as int {
      input.Ungetc();
      turn := Broken;
    } else if ch == '"' as int {
      turn := Closed;
    } else if ch == '\\' as int {
      var found, bytes := ReadEscape(input);
      if !found {
        return Broken, out;
      }
      turn, out := More, Push(ctx, out, bytes);
    } else {
      turn, out := More, Push(ctx, out, [ch]);
    }
  }

  method ReadString(ctx: Context, input: Input) returns (ok: bool, out: Text)
    requires input.Valid()
    modifies input
    ensures input.Valid() && (old(input.Lined()) ==> input.Lined())
    ensures var r := ParseString(ctx, input.text, old(input.Pos()), []);
            && ok == r.StrOk? && input.Pos() == r.pos
            && (ok ==> out == r.s)
  {
    hide ParseString;
    out := [];
    var turn := More;
    while turn.More?
      invariant input.Valid() && (old(input.Lined()) ==> input.Lined())
      invariant ParseString(ctx, input.text, old(input.Pos()), []) == AfterTurn(turn, ctx, input.text, input.Pos(), out)
      decreases |input.text| - input.Pos(), turn.More?
    {
      turn, out := ReadChar(ctx, input, out);
    }
    ok := turn.Closed?;
  }

  // ---------------------------------------------------------------- numbers

  method ReadNumber(input: Input) returns (s: Text)
    requires input.Valid()
    modifies input
    ensures input.Valid() && (old(input.Lined()) ==> input.Lined())
    ensures input.Pos() == NumberEnd(input.text, old(input.Pos()))
    ensures s == input.text[old(input.Pos())..input.Pos()]
  {
    s := [];
    ghost var p := input.Pos();
    while true
      invariant input.Valid() && (old(input.Lined()) ==> input.Lined())
      invariant p <= input.Pos() <= |input.text|
      invariant NumberEnd(input.text, p) == NumberEnd(input.text, input.Pos())
      invariant s == input.text[p..input.Pos()]
      decreases |input.text| - input.Pos()
    {
      var ch := input.Getc();
      if IsNumberChar(ch) {
        s := s + [ch];
      } else {
        input.Ungetc();
        return;
      }
    }
  }

  // ---------------------------------------------------------------- values

  /** How a call of the parser ends: with a result, without one, or with an exception. */
  datatype Status = Accepted | Rejected | Threw

  function StatusOf(r: Result): Status {
    match r
    case Ok(_, _) => Accepted
    case Fail(_) => Rejected
    case Thrown(_) => Threw
  }

  /** A number; the constructor of a double throws on an infinity. */
  method ReadNumberValue(ctx: Context, input: Input) returns (status: Status, out: Value)
    requires input.Valid() && input.Pos() < |input.text| && IsNumberChar(input.text[input.Pos()])
    modifies input
    ensures input.Valid() && (old(input.Lined()) ==> input.Lined())
    ensures var r := ParseNumber(ctx, input.text, old(input.Pos()));
            && status == StatusOf(r) && input.Pos() == r.pos
            && (status.Accepted? ==> out == r.value)
  {
    hide NumberValue, Throws;
    out := Null;
    var s := ReadNumber(input);
    var n := NumberValue(s);
    if n.None? {
      status := Rejected;
    } else if Throws(ctx, n.value) {
      status := Threw;
    } else {
      status, out := Accepted, Out(ctx, n.value);
    }
  }

  method ReadKeyword(ctx: Context, input: Input, rest: Text, v: Value) returns (ok: bool, out: Value)
    requires input.Valid() && input.Pos() > 0
    modifies input
    ensures input.Valid() && (old(input.Lined()) ==> input.Lined())
    ensures var r := Keyword(ctx, input.text, old(input.Pos()) - 1, rest, v);
            && ok == r.Ok? && input.Pos() == r.pos
            && (ok ==> out == r.value)
  {
    out := Null;
    ok := input.MatchText(rest);
    if ok {
      out := Out(ctx, v);
    }
  }

  method Read(ctx: Context, input: Input) returns (status: Status, out: Value)
    requires input.Valid()
    modifies input
    ensures input.Valid() && (old(input.Lined()) ==> input.Lined())
    ensures var r := Parse(ctx, input.text, old(input.Pos()));
            && status == StatusOf(r) && input.Pos() == r.pos
            && (status.Accepted? ==> out == r.value)
    decreases |input.text| - input.Pos(), 0
  {
    hide ParseString, ParseArray, ParseObject, Keyword, ParseNumber, SkipWs;
    out := Null;
    input.SkipSpace();
    var ok := true;
    var ch := input.Getc();
    if ch == 'n' as int {
      ok, out := ReadKeyword(ctx, input, ULL, Null);
    } else if ch == 'f' as int {
      ok, out := ReadKeyword(ctx, input, ALSE, Bool(false));
    } else if ch == 't' as int {
      ok, out := ReadKeyword(ctx, input, RUE, Bool(true));
    } else if ch == '"' as int {
      var s;
      ok, s := ReadString(ctx, input);
      out := Out(ctx, Str(s));
    } else if ch == '[' as int {
      status, out := ReadArray(ctx, input);
      return;
    } else if ch == '{' as int {
      status, out := ReadObject(ctx, input);
      return;
    } else if IsDigit(ch) || ch == '-' as int {
      input.Ungetc();
      status, out := ReadNumberValue(ctx, input);
      return;
    } else {
      input.Ungetc();
      ok := false;
    }
    status := if ok then Accepted else Rejected;
  }

  method ReadArray(ctx: Context, input: Input) returns (status: Status, out: Value)
    requires input.Valid()
    modifies input
    ensures input.Valid() && (old(input.Lined()) ==> input.Lined())
    ensures var r := ParseArray(ctx, input.text, old(input.Pos()));
            && status == StatusOf(r) && input.Pos() == r.pos
            && (status.Accepted? ==> out == r.value)
    decreases |input.text| - input.Pos(), 1
  {
    out := Out(ctx, Arr([]));
    ghost var goal := ParseArray(ctx, input.text, input.Pos());
    ghost var start := input.Pos();
    var closed := input.ExpectChar(']' as int);
    if closed {
      return Accepted, out;
    }
    var items: seq<Value> := [];
    var more := true;
    while more
      invariant input.Valid() && (old(input.Lined()) ==> input.Lined())
      invariant start <= input.Pos() <= |input.text|
      invariant more ==> goal == ParseItems(ctx, input.text, input.Pos(), items)
      invariant !more ==> goal ==
                          var close := Expect(input.text, input.Pos(), ']' as int);
                          if close.ok then Ok(Out(ctx, Arr(items)), close.pos) else Fail(close.pos)
      decreases |input.text| - input.Pos(), more
    {
      var found, item := Read(ctx, input);
      if !found.Accepted? {
        return found, out;
      }
      if ctx.Building? {
        items := items + [item];
      }
      more := input.ExpectChar(',' as int);
    }
    var ok := input.ExpectChar(']' as int);
    status := if ok then Accepted else Rejected;
    out := Out(ctx, Arr(items));
  }

  method ReadObject(ctx: Context, input: Input) returns (status: Status, out: Value)
    requires input.Valid()
    modifies input
    ensures input.Valid() && (old(input.Lined()) ==> input.Lined())
    ensures var r := ParseObject(ctx, input.text, old(input.Pos()));
            && status == StatusOf(r) && input.Pos() == r.pos
            && (status.Accepted? ==> out == r.value)
    decreases |input.text| - input.Pos(), 1
  {
    out := Out(ctx, Obj(map[]));
    ghost var goal := ParseObject(ctx, input.text, input.Pos());
    ghost var start := input.Pos();
    var closed := input.ExpectChar('}' as int);
    if closed {
      return Accepted, out;
    }
    var members: map<Text, Value> := map[];
    var more := true;
    while more
      invariant input.Valid() && (old(input.Lined()) ==> input.Lined())
      invariant start <= input.Pos() <= |input.text|
      invariant more ==> goal == ParseMembers(ctx, input.text, input.Pos(), members)
      invariant !more ==> goal ==
                          var close := Expect(input.text, input.Pos(), '}' as int);
                          if close.ok then Ok(Out(ctx, Obj(members)), close.pos) else Fail(close.pos)
      decreases |input.text| - input.Pos(), more
    {
      var found, key := ReadKey(input);
      if !found {
        return Rejected, out;
      }
      var read, item := Read(ctx, input);
      if !read.Accepted? {
        return read, out;
      }
      if ctx.Building? {
        members := members[key := item];
      }
      more := input.ExpectChar(',' as int);
    }
    var ok := input.ExpectChar('}' as int);
    status := if ok then Accepted else Rejected;
    out := Out(ctx, Obj(members));
  }

  method ReadKey(input: Input) returns (ok: bool, key: Text)
    requires input.Valid()
    modifies input
    ensures input.Valid() && (old(input.Lined()) ==> input.Lined())
    ensures var r := ParseKey(input.text, old(input.Pos()));
            && ok == r.StrOk? && input.Pos() == r.pos
            && (ok ==> key == r.s)
  {
    key := [];
    ok := input.ExpectChar('"' as int);
    if !ok {
      return;
    }
    ok, key := ReadString(Building, input);
    if !ok {
      return;
    }
    ok := input.ExpectChar(':' as int);
  }
}

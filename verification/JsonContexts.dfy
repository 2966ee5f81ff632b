/**
 Two facts about every text: when the checking parser and the building parser agree, and that
 a text that is valid UTF-8 yields only strings that are.
 */
module JsonContexts {
  import opened Prelude
  import opened JsonCursor
  import opened Utf8
  import opened JsonGrammar

  // ---------------------------------------------------------------- when both contexts agree

  ghost predicate SameOutcome(a: Result, b: Result) {
    a.Ok? == b.Ok? && a.Fail? == b.Fail? && a.pos == b.pos
  }

  lemma {:induction false} StringsAgree(t: Text, p: nat, acc: Text, acc': Text)
    requires p <= |t|
    ensures var (a, b) := (ParseString(Building, t, p, acc), ParseString(Validating, t, p, acc'));
            a.StrOk? == b.StrOk? && a.pos == b.pos
    decreases |t| - p
  {
    var ch := At(t, p);
    if ch < ' ' as int || ch == '"' as int {
    } else if ch != '\\' as int {
      StringsAgree(t, p + 1, acc + [ch], acc');
    } else {
      var e := ParseEscape(t, p + 1);
      if e.StrOk? {
        StringsAgree(t, e.pos, acc + e.s, acc');
      }
    }
  }

  /**
   Where the checking parser reads numbers, in order. It follows the text alone: nothing is
   built, so nothing can throw.
   */
  ghost function Numbers(t: Text, p: nat): seq<nat>
    requires p <= |t|
    decreases |t| - p, 0
  {
    var q := SkipWs(t, p);
    var ch := At(t, q);
    if ch == '[' as int then
      var close := Expect(t, q + 1, ']' as int);
      if close.ok then [] else ItemNumbers(t, close.pos)
    else if ch == '{' as int then
      var close := Expect(t, q + 1, '}' as int);
      if close.ok then [] else MemberNumbers(t, close.pos)
    else if IsDigit(ch) || ch == '-' as int then [q]
    else []
  }

  ghost function ItemNumbers(t: Text, p: nat): seq<nat>
    requires p <= |t|
    decreases |t| - p, 1
  {
    var item := Parse(Validating, t, p);
    Numbers(t, p)
    + if item.Ok? && Expect(t, item.pos, ',' as int).ok then ItemNumbers(t, Expect(t, item.pos, ',' as int).pos)
      else []
  }

  ghost function MemberNumbers(t: Text, p: nat): seq<nat>
    requires p <= |t|
    decreases |t| - p, 1
  {
    var key := ParseKey(t, p);
    if key.StrFail? then []
    else
      var item := Parse(Validating, t, key.pos);
      Numbers(t, key.pos)
      + if item.Ok? && Expect(t, item.pos, ',' as int).ok then MemberNumbers(t, Expect(t, item.pos, ',' as int).pos)
        else []
  }

  /** A literal that is no 64-bit integer, is a double, and rounds to infinity. */
  ghost predicate InfiniteAt(t: Text, q: nat) {
    q <= |t| && var s := t[q..NumberEnd(t, q)]; ToInt64(s) == None && IsDouble(s) && Overflows(s)
  }

  /** The end of the first such literal among those that begin at `qs`, or -1. */
  ghost function FirstInfinite(t: Text, qs: seq<nat>): int {
    if qs == [] then -1
    else if InfiniteAt(t, qs[0]) then NumberEnd(t, qs[0])
    else FirstInfinite(t, qs[1..])
  }

  lemma {:induction false} FirstInfiniteAppend(t: Text, a: seq<nat>, b: seq<nat>)
    ensures FirstInfinite(t, a + b) == if FirstInfinite(t, a) >= 0 then FirstInfinite(t, a) else FirstInfinite(t, b)
    ensures FirstInfinite(t, a) >= -1
  {
    if a == [] {
      assert a + b == b;
    } else {
      assert (a + b)[1..] == a[1..] + b && (a + b)[0] == a[0];
      FirstInfiniteAppend(t, a[1..], b);
    }
  }

  lemma {:induction false} FirstInfiniteNone(t: Text, qs: seq<nat>)
    ensures FirstInfinite(t, qs) == -1 <==> forall i | 0 <= i < |qs| :: !InfiniteAt(t, qs[i])
  {
    if qs != [] {
      hide InfiniteAt;
      FirstInfiniteNone(t, qs[1..]);
      assert forall i | 0 < i < |qs| :: qs[i] == qs[1..][i - 1];
    }
  }

  /**
   What the building parser does, given what the checking parser does and `thrown`, the end of
   the first infinite literal the latter reads: it throws there, or else does the same.
   */
  ghost predicate Follows(built: Result, checked: Result, thrown: int) {
    && !checked.Thrown?
    && if thrown >= 0 then built == Thrown(thrown) else SameOutcome(built, checked)
  }

  /**
   The checking context and the building context do the same and stop at the same place, or
   the building context throws at the first infinite literal that the checking context reads.
   */
  lemma {:induction false} ContextsCompared(t: Text, p: nat)
    requires p <= |t|
    ensures Follows(Parse(Building, t, p), Parse(Validating, t, p), FirstInfinite(t, Numbers(t, p)))
    decreases |t| - p, 0
  {
    hide InfiniteAt, ParseString, Keyword, ParseNumber, ParseItems, ParseMembers, ItemNumbers, MemberNumbers;
    var q := SkipWs(t, p);
    var ch := At(t, q);
    if ch == '"' as int {
      StringsAgree(t, q + 1, [], []);
    } else if ch == '[' as int {
      var close := Expect(t, q + 1, ']' as int);
      if !close.ok {
        ItemsCompared(t, close.pos, [], []);
      }
    } else if ch == '{' as int {
      var close := Expect(t, q + 1, '}' as int);
      if !close.ok {
        MembersCompared(t, close.pos, map[], map[]);
      }
    } else if ch == 'n' as int {
      KeywordsAgree(t, q, ULL, Null);
    } else if ch == 'f' as int {
      KeywordsAgree(t, q, ALSE, Bool(false));
    } else if ch == 't' as int {
      KeywordsAgree(t, q, RUE, Bool(true));
    } else if IsDigit(ch) || ch == '-' as int {
      NumberCompared(t, q);
    }
  }

  lemma KeywordsAgree(t: Text, q: nat, rest: Text, v: Value)
    requires q < |t|
    ensures SameOutcome(Keyword(Building, t, q, rest, v), Keyword(Validating, t, q, rest, v))
  {
  }

  lemma NumberCompared(t: Text, q: nat)
    requires q < |t| && IsNumberChar(t[q])
    ensures Follows(ParseNumber(Building, t, q), ParseNumber(Validating, t, q), FirstInfinite(t, [q]))
  {
    hide ToInt64, IsDouble, Overflows;
    assert [q][1..] == [];
  }

  /** What follows the last item or member. */
  ghost function Closing(t: Text, p: nat, bracket: int): Result
    requires p <= |t| && bracket >= 0
  {
    var close := Expect(t, p, bracket);
    if close.ok then Ok(Null, close.pos) else Fail(close.pos)
  }

  /** One turn of the loop over array items. */
  lemma ItemsTurn(ctx: Context, t: Text, p: nat, acc: seq<Value>)
    requires p <= |t|
    ensures var (item, r) := (Parse(ctx, t, p), ParseItems(ctx, t, p, acc));
            var comma := Expect(t, item.pos, ',' as int);
            if !item.Ok? then r == item
            else if comma.ok
            then r == ParseItems(ctx, t, comma.pos, if ctx.Building? then acc + [item.value] else acc)
            else SameOutcome(r, Closing(t, comma.pos, ']' as int))
  {
    hide Parse, Expect;
  }

  lemma ItemNumbersTurn(t: Text, p: nat)
    requires p <= |t|
    ensures var item := Parse(Validating, t, p);
            var comma := Expect(t, item.pos, ',' as int);
            ItemNumbers(t, p) == if item.Ok? && comma.ok then Numbers(t, p) + ItemNumbers(t, comma.pos) else Numbers(t, p)
  {
    hide Parse, Numbers, Expect;
  }

  /** One turn of the loop over object members. */
  lemma MembersTurn(ctx: Context, t: Text, p: nat, key: Text, q: nat, acc: map<Text, Value>)
    requires p <= |t| && ParseKey(t, p) == StrOk(key, q)
    ensures q <= |t|
    ensures var (item, r) := (Parse(ctx, t, q), ParseMembers(ctx, t, p, acc));
            var comma := Expect(t, item.pos, ',' as int);
            if !item.Ok? then r == item
            else if comma.ok
            then r == ParseMembers(ctx, t, comma.pos, if ctx.Building? then acc[key := item.value] else acc)
            else SameOutcome(r, Closing(t, comma.pos, '}' as int))
  {
    hide Parse, ParseKey, Expect;
    assert ParseKey(t, p).pos == q;
  }

  lemma MemberNumbersTurn(t: Text, p: nat, q: nat)
    requires p <= |t| && ParseKey(t, p).StrOk? && ParseKey(t, p).pos == q
    ensures q <= |t|
    ensures var item := Parse(Validating, t, q);
            var comma := Expect(t, item.pos, ',' as int);
            MemberNumbers(t, p) == if item.Ok? && comma.ok then Numbers(t, q) + MemberNumbers(t, comma.pos) else Numbers(t, q)
  {
    hide Parse, ParseKey, Numbers, Expect;
  }

  lemma {:induction false} ItemsCompared(t: Text, p: nat, acc: seq<Value>, acc': seq<Value>)
    requires p <= |t|
    ensures Follows(ParseItems(Building, t, p, acc), ParseItems(Validating, t, p, acc'),
                    FirstInfinite(t, ItemNumbers(t, p)))
    decreases |t| - p, 1
  {
    hide FirstInfinite, Numbers, Parse, ParseItems, ItemNumbers;
    ItemsTurn(Building, t, p, acc);
    ItemsTurn(Validating, t, p, acc');
    ItemNumbersTurn(t, p);
    ContextsCompared(t, p);
    var (built, checked) := (Parse(Building, t, p), Parse(Validating, t, p));
    var comma := Expect(t, checked.pos, ',' as int);
    if checked.Ok? && comma.ok {
      FirstInfiniteAppend(t, Numbers(t, p), ItemNumbers(t, comma.pos));
      ItemsCompared(t, comma.pos, if built.Ok? then acc + [built.value] else acc, acc');
    }
  }

  lemma {:induction false} MembersCompared(t: Text, p: nat, acc: map<Text, Value>, acc': map<Text, Value>)
    requires p <= |t|
    ensures Follows(ParseMembers(Building, t, p, acc), ParseMembers(Validating, t, p, acc'),
                    FirstInfinite(t, MemberNumbers(t, p)))
    decreases |t| - p, 1
  {
    hide FirstInfinite, Numbers, Parse, ParseKey, ParseMembers, MemberNumbers, Expect;
    var key := ParseKey(t, p);
    if key.StrFail? {
      NoKey(t, p, acc, acc');
    } else {
      MembersTurn(Building, t, p, key.s, key.pos, acc);
      MembersTurn(Validating, t, p, key.s, key.pos, acc');
      MemberNumbersTurn(t, p, key.pos);
      ContextsCompared(t, key.pos);
      var (built, checked) := (Parse(Building, t, key.pos), Parse(Validating, t, key.pos));
      var comma := Expect(t, checked.pos, ',' as int);
      if checked.Ok? && comma.ok {
        FirstInfiniteAppend(t, Numbers(t, key.pos), MemberNumbers(t, comma.pos));
        MembersCompared(t, comma.pos, if built.Ok? then acc[key.s := built.value] else acc, acc');
      }
    }
  }

  lemma NoKey(t: Text, p: nat, acc: map<Text, Value>, acc': map<Text, Value>)
    requires p <= |t| && ParseKey(t, p).StrFail?
    ensures Follows(ParseMembers(Building, t, p, acc), ParseMembers(Validating, t, p, acc'),
                    FirstInfinite(t, MemberNumbers(t, p)))
  {
    hide ParseKey;
  }

  /** The contexts agree exactly on the texts in which no literal that is read is infinite. */
  lemma ContextsAgreeIff(t: Text, p: nat)
    requires p <= |t|
    ensures SameOutcome(Parse(Building, t, p), Parse(Validating, t, p)) <==>
            forall i | 0 <= i < |Numbers(t, p)| :: !InfiniteAt(t, Numbers(t, p)[i])
    ensures Parse(Building, t, p).Thrown? <==>
            exists i | 0 <= i < |Numbers(t, p)| :: InfiniteAt(t, Numbers(t, p)[i])
  {
    hide Parse, Numbers, InfiniteAt;
    ContextsCompared(t, p);
    FirstInfiniteNone(t, Numbers(t, p));
    FirstInfiniteAppend(t, Numbers(t, p), []);
  }

  // ---------------------------------------------------------------- UTF-8 in, UTF-8 out

  /** Every string in the value, keys included, is valid UTF-8. */
  ghost predicate AllUtf8(v: Value) {
    match v
    case Str(s) => Valid(s)
    case Arr(items) => forall i | 0 <= i < |items| :: AllUtf8(items[i])
    case Obj(members) => forall k | k in members :: Valid(k) && AllUtf8(members[k])
    case _ => true
  }

  /** The text from `p` on is valid UTF-8. */
  ghost predicate ValidFrom(t: Text, p: nat) {
    p <= |t| && Valid(t[p..])
  }

  /** Stepping over an ASCII character stays on a character boundary. */
  lemma {:induction false} StepAscii(t: Text, p: nat)
    requires ValidFrom(t, p) && 0 <= At(t, p) < 0x80
    ensures ValidFrom(t, p + 1)
  {
    assert t[p..][1..] == t[p + 1..];
  }

  lemma {:induction false} StepsAscii(t: Text, p: nat, q: nat)
    requires ValidFrom(t, p) && p <= q <= |t|
    requires forall i | p <= i < q :: t[i] < 0x80
    ensures ValidFrom(t, q)
    decreases q - p
  {
    if p < q {
      StepAscii(t, p);
      StepsAscii(t, p + 1, q);
    }
  }

  lemma {:induction false} ExpectUtf8(t: Text, p: nat, expected: int)
    requires ValidFrom(t, p) && 0 <= expected < 0x80
    ensures ValidFrom(t, Expect(t, p, expected).pos)
  {
    var q := SkipWs(t, p);
    StepsAscii(t, p, q);
    if At(t, q) == expected {
      StepAscii(t, q);
    }
  }

  lemma {:induction false} QuadHexUtf8(t: Text, p: nat, n: nat, acc: nat)
    requires ValidFrom(t, p)
    ensures ValidFrom(t, QuadHex(t, p, n, acc).pos)
    decreases n
  {
    if n > 0 && HexDigit(At(t, p)) >= 0 {
      StepAscii(t, p);
      QuadHexUtf8(t, p + 1, n - 1, acc * 16 + HexDigit(At(t, p)));
    }
  }

  lemma {:induction false} EscapeUtf8(t: Text, p: nat)
    requires ValidFrom(t, p)
    ensures ParseEscape(t, p).StrOk? ==> Valid(ParseEscape(t, p).s) && ValidFrom(t, ParseEscape(t, p).pos)
  {
    var r := ParseEscape(t, p);
    if r.StrOk? {
      StepAscii(t, p);
      if Unescape(At(t, p)) >= 0 {
        ValidOfScalar(Unescape(At(t, p)));
      } else {
        ValidOfScalar(CodePoint(t, p + 1).value);
        CodePointUtf8(t, p + 1);
      }
    }
  }

  lemma {:induction false} CodePointUtf8(t: Text, p: nat)
    requires ValidFrom(t, p)
    ensures ValidFrom(t, CodePoint(t, p).pos)
  {
    QuadHexUtf8(t, p, 4, 0);
    var first := QuadHex(t, p, 4, 0);
    if IsHighSurrogate(first.value) && At(t, first.pos) == '\\' as int {
      StepAscii(t, first.pos);
      if At(t, first.pos + 1) == 'u' as int {
        StepAscii(t, first.pos + 1);
        QuadHexUtf8(t, first.pos + 2, 4, 0);
      }
    }
  }

  /** A run of bytes of multi-byte characters is copied as it stands. */
  lemma {:induction false} CopyRun(t: Text, p: nat, n: nat, acc: Text)
    requires p + n <= |t|
    requires forall i | p <= i < p + n :: t[i] >= 0x80
    ensures ParseString(Building, t, p, acc) == ParseString(Building, t, p + n, acc + t[p..p + n])
    decreases n
  {
    if n == 0 {
      assert acc + t[p..p] == acc;
    } else {
      CopyRun(t, p + 1, n - 1, acc + [t[p]]);
      assert acc + [t[p]] + t[p + 1..p + n] == acc + t[p..p + n];
    }
  }

  lemma CharBytes(s: Text, i: nat)
    requires i < CharLen(s)
    ensures CharLen(s) > 1 ==> s[i] >= 0x80
    ensures CharLen(s[..CharLen(s)]) == CharLen(s)
  {
  }

  lemma {:induction false} StringUtf8(t: Text, p: nat, acc: Text)
    requires ValidFrom(t, p) && Valid(acc)
    ensures var r := ParseString(Building, t, p, acc);
            r.StrOk? ==> Valid(r.s) && ValidFrom(t, r.pos)
    decreases |t| - p
  {
    if ParseString(Building, t, p, acc).StrOk? {
      var n := CharLen(t[p..]);
      var ch := At(t, p);
      if ch == '"' as int {
        StepAscii(t, p);
      } else if ch == '\\' as int {
        StepAscii(t, p);
        EscapeUtf8(t, p + 1);
        var e := ParseEscape(t, p + 1);
        ValidConcat(acc, e.s);
        StringUtf8(t, e.pos, acc + e.s);
      } else {
        CopyChar(t, p, n, acc);
        StringUtf8(t, p + n, acc + t[p..p + n]);
      }
    }
  }

  lemma CharIsValid(t: Text, p: nat, n: nat)
    requires ValidFrom(t, p) && p < |t| && n == CharLen(t[p..])
    ensures n > 0 && p + n <= |t| && Valid(t[p..p + n]) && ValidFrom(t, p + n)
  {
    hide CharLen;
    var c := t[p..p + n];
    assert t[p..][n..] == t[p + n..] && t[p..][..n] == c;
    CharBytes(t[p..], 0);
    assert c[n..] == [];
  }

  /** A whole character that is neither a quote nor a backslash is copied. */
  lemma {:induction false} CopyChar(t: Text, p: nat, n: nat, acc: Text)
    requires ValidFrom(t, p) && p < |t| && n == CharLen(t[p..]) && Valid(acc)
    requires t[p] >= ' ' as int && t[p] != '"' as int && t[p] != '\\' as int
    ensures n > 0 && ValidFrom(t, p + n) && Valid(acc + t[p..p + n])
    ensures ParseString(Building, t, p, acc) == ParseString(Building, t, p + n, acc + t[p..p + n])
  {
    CharIsValid(t, p, n);
    hide Valid;
    var c := t[p..p + n];
    ValidConcat(acc, c);
    if n == 1 {
      assert c == [t[p]];
    } else {
      forall i | p <= i < p + n
        ensures t[i] >= 0x80
      {
        CharBytes(t[p..], i - p);
      }
      CopyRun(t, p, n, acc);
    }
  }

  /** If a text is valid UTF-8 then so is every string and key the parser takes from it. */
  lemma {:induction false} ParseUtf8(t: Text, p: nat)
    requires ValidFrom(t, p)
    ensures var r := Parse(Building, t, p);
            r.Ok? ==> AllUtf8(r.value) && ValidFrom(t, r.pos)
    decreases |t| - p, 0
  {
    hide Valid, ParseString, ParseArray, ParseObject, ParseNumber, Keyword;
    var q := SkipWs(t, p);
    var r := Parse(Building, t, p);
    if r.Ok? {
      StepsAscii(t, p, q);
      var ch := At(t, q);
      if ch == '"' as int {
        StepAscii(t, q);
        StringValueUtf8(t, q + 1);
      } else if ch == '[' as int {
        StepAscii(t, q);
        ArrayUtf8(t, q + 1);
      } else if ch == '{' as int {
        StepAscii(t, q);
        ObjectUtf8(t, q + 1);
      } else if ch == 'n' as int {
        KeywordUtf8(t, q, ULL, Null);
      } else if ch == 'f' as int {
        KeywordUtf8(t, q, ALSE, Bool(false));
      } else if ch == 't' as int {
        KeywordUtf8(t, q, RUE, Bool(true));
      } else {
        NumberUtf8(t, q);
      }
    }
  }

  lemma {:induction false} StringValueUtf8(t: Text, p: nat)
    requires ValidFrom(t, p)
    ensures var r := ParseString(Building, t, p, []);
            r.StrOk? ==> AllUtf8(Str(r.s)) && ValidFrom(t, r.pos)
  {
    assert Valid([]);
    StringUtf8(t, p, []);
  }

  lemma {:induction false} NumberUtf8(t: Text, q: nat)
    requires ValidFrom(t, q) && q < |t| && IsNumberChar(t[q])
    ensures var r := ParseNumber(Building, t, q);
            r.Ok? ==> AllUtf8(r.value) && ValidFrom(t, r.pos)
  {
    StepsAscii(t, q, NumberEnd(t, q));
  }

  lemma {:induction false} KeywordUtf8(t: Text, q: nat, rest: Text, v: Value)
    requires ValidFrom(t, q) && 0 <= At(t, q) < 0x80
    requires forall i | 0 <= i < |rest| :: rest[i] < 0x80
    ensures var r := Keyword(Building, t, q, rest, v); r.Ok? ==> r.value == v && ValidFrom(t, r.pos)
  {
    var m := Match(t, q + 1, rest);
    if m.ok {
      forall i | q < i < m.pos
        ensures t[i] < 0x80
      {
        assert t[i] == t[q + 1..m.pos][i - q - 1];
      }
      StepsAscii(t, q, m.pos);
    }
  }

  lemma {:induction false} ArrayUtf8(t: Text, p: nat)
    requires ValidFrom(t, p)
    ensures var r := ParseArray(Building, t, p);
            r.Ok? ==> AllUtf8(r.value) && ValidFrom(t, r.pos)
    decreases |t| - p, 2
  {
    ExpectUtf8(t, p, ']' as int);
    var close := Expect(t, p, ']' as int);
    if !close.ok {
      ItemsUtf8(t, close.pos, []);
    }
  }

  lemma {:induction false} ItemsUtf8(t: Text, p: nat, acc: seq<Value>)
    requires ValidFrom(t, p)
    requires forall i | 0 <= i < |acc| :: AllUtf8(acc[i])
    ensures var r := ParseItems(Building, t, p, acc);
            r.Ok? ==> AllUtf8(r.value) && ValidFrom(t, r.pos)
    decreases |t| - p, 1
  {
    ParseUtf8(t, p);
    var item := Parse(Building, t, p);
    if item.Ok? {
      ExpectUtf8(t, item.pos, ',' as int);
      var comma := Expect(t, item.pos, ',' as int);
      if comma.ok {
        ItemsUtf8(t, comma.pos, acc + [item.value]);
      } else {
        ExpectUtf8(t, comma.pos, ']' as int);
      }
    }
  }

  lemma {:induction false} ObjectUtf8(t: Text, p: nat)
    requires ValidFrom(t, p)
    ensures var r := ParseObject(Building, t, p);
            r.Ok? ==> AllUtf8(r.value) && ValidFrom(t, r.pos)
    decreases |t| - p, 2
  {
    ExpectUtf8(t, p, '}' as int);
    var close := Expect(t, p, '}' as int);
    if !close.ok {
      MembersUtf8(t, close.pos, map[]);
    }
  }

  lemma {:induction false} MembersUtf8(t: Text, p: nat, acc: map<Text, Value>)
    requires ValidFrom(t, p) && AllUtf8(Obj(acc))
    ensures var r := ParseMembers(Building, t, p, acc);
            r.Ok? ==> AllUtf8(r.value) && ValidFrom(t, r.pos)
    decreases |t| - p, 1
  {
    var key := ParseKey(t, p);
    if key.StrOk? {
      KeyUtf8(t, p);
      ParseUtf8(t, key.pos);
      var item := Parse(Building, t, key.pos);
      if item.Ok? {
        AddMember(acc, key.s, item.value);
        MembersRestUtf8(t, item.pos);
        var comma := Expect(t, item.pos, ',' as int);
        if comma.ok {
          MembersUtf8(t, comma.pos, acc[key.s := item.value]);
        }
      }
    }
  }

  lemma {:induction false} AddMember(acc: map<Text, Value>, k: Text, v: Value)
    requires AllUtf8(Obj(acc)) && Valid(k) && AllUtf8(v)
    ensures AllUtf8(Obj(acc[k := v]))
  {
  }

  lemma {:induction false} MembersRestUtf8(t: Text, p: nat)
    requires ValidFrom(t, p)
    ensures var comma := Expect(t, p, ',' as int);
            && ValidFrom(t, comma.pos)
            && (!comma.ok ==> ValidFrom(t, Expect(t, comma.pos, '}' as int).pos))
  {
    ExpectUtf8(t, p, ',' as int);
    ExpectUtf8(t, Expect(t, p, ',' as int).pos, '}' as int);
  }

  lemma {:induction false} KeyUtf8(t: Text, p: nat)
    requires ValidFrom(t, p)
    ensures var r := ParseKey(t, p);
            r.StrOk? ==> Valid(r.s) && ValidFrom(t, r.pos)
  {
    ExpectUtf8(t, p, '"' as int);
    var open := Expect(t, p, '"' as int);
    assert Valid([]);
    StringUtf8(t, open.pos, []);
    var s := ParseString(Building, t, open.pos, []);
    if s.StrOk? {
      ExpectUtf8(t, s.pos, ':' as int);
    }
  }

  // ---------------------------------------------------------------- surrogate escapes

  /** Four hexadecimal digits stand at `p`. */
  ghost predicate FourDigits(t: Text, p: nat) {
    p + 4 <= |t| && forall i | p <= i < p + 4 :: HexDigit(t[i]) >= 0
  }

  ghost function HexValue(t: Text, p: nat): int
    requires FourDigits(t, p)
  {
    4096 * HexDigit(t[p]) + 256 * HexDigit(t[p + 1]) + 16 * HexDigit(t[p + 2]) + HexDigit(t[p + 3])
  }

  /** The digits of an escape are read as a number in base 16, or the first bad one stops them. */
  lemma QuadHexValue(t: Text, p: nat)
    requires p <= |t|
    ensures QuadHex(t, p, 4, 0).value >= 0 <==> FourDigits(t, p)
    ensures FourDigits(t, p) ==> QuadHex(t, p, 4, 0) == Code(HexValue(t, p), p + 4)
  {
    var r := QuadHex(t, p, 4, 0);
    if HexDigit(At(t, p)) >= 0 {
      var a := HexDigit(t[p]);
      assert r == QuadHex(t, p + 1, 3, a);
      if HexDigit(At(t, p + 1)) >= 0 {
        var b := 16 * a + HexDigit(t[p + 1]);
        assert r == QuadHex(t, p + 2, 2, b);
        if HexDigit(At(t, p + 2)) >= 0 {
          var c := 16 * b + HexDigit(t[p + 2]);
          assert r == QuadHex(t, p + 3, 1, c);
          if HexDigit(At(t, p + 3)) >= 0 {
            assert r == QuadHex(t, p + 4, 0, 16 * c + HexDigit(t[p + 3]));
          }
        }
      }
    }
  }

  /**
   What `\u` escapes accept: four digits that are no surrogate, or those of a high surrogate
   followed by a second escape with those of a low surrogate.
   */
  ghost predicate AcceptableEscape(t: Text, p: nat) {
    && FourDigits(t, p)
    && !IsLowSurrogate(HexValue(t, p))
    && (IsHighSurrogate(HexValue(t, p)) ==>
          && At(t, p + 4) == '\\' as int && At(t, p + 5) == 'u' as int
          && FourDigits(t, p + 6) && IsLowSurrogate(HexValue(t, p + 6)))
  }

  /** The code point an acceptable escape denotes. */
  ghost function Denoted(t: Text, p: nat): int
    requires AcceptableEscape(t, p)
  {
    if IsHighSurrogate(HexValue(t, p)) then Combine(HexValue(t, p), HexValue(t, p + 6)) else HexValue(t, p)
  }

  lemma {:induction false} EscapesAreScalars(t: Text, p: nat)
    requires p <= |t|
    ensures CodePoint(t, p).value >= 0 <==> AcceptableEscape(t, p)
    ensures AcceptableEscape(t, p) ==>
            var s := Encode(CodePoint(t, p).value);
            CharLen(s) == |s| && Scalar(s) == CodePoint(t, p).value == Denoted(t, p)
  {
    hide QuadHex, Encode, CharLen, Scalar, HexDigit, HexValue;
    QuadHexValue(t, p);
    if p + 6 <= |t| {
      QuadHexValue(t, p + 6);
    }
    var u := CodePoint(t, p).value;
    if u >= 0 {
      EncodeDecodes(u, []);
      assert Encode(u) + [] == Encode(u);
    }
  }
}

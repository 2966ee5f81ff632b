/**
 Parsing undoes serializing: for every value, every order of its members, compact and pretty.
 */
module JsonRoundTrip {
  import opened Prelude
  import JsonContexts
  import opened JsonCursor
  import opened Utf8
  import opened JsonGrammar
  import opened JsonSerializer

  /** `s` stands in `t` at position `p`. */
  ghost predicate Occurs(t: Text, p: nat, s: Text) {
    p + |s| <= |t| && forall i {:trigger s[i]} | 0 <= i < |s| :: t[p + i] == s[i]
  }

  lemma OccursSplit(t: Text, p: nat, a: Text, b: Text)
    requires Occurs(t, p, a + b)
    ensures Occurs(t, p, a) && Occurs(t, p + |a|, b)
  {
    var s := a + b;
    forall i | 0 <= i < |a|
      ensures t[p + i] == a[i]
    {
      assert s[i] == a[i];
    }
    forall i | 0 <= i < |b|
      ensures t[p + |a| + i] == b[i]
    {
      assert s[|a| + i] == b[i];
    }
  }

  lemma OccursAt(t: Text, p: nat, s: Text, i: nat)
    requires Occurs(t, p, s) && i < |s|
    ensures p + i < |t| && t[p + i] == s[i]
  {
  }

  // ---------------------------------------------------------------- strings

  lemma HexCharDigit(v: nat)
    requires v < 16
    ensures HexDigit(HexChar(v)) == v
  {
  }

  /** The four digits of an escaped control character. */
  lemma {:induction false} QuadHexOfByte(t: Text, p: nat, c: byte)
    requires Occurs(t, p, ['0' as int, '0' as int, HexChar(c / 16), HexChar(c % 16)])
    ensures QuadHex(t, p, 4, 0) == Code(c, p + 4)
  {
    var s := ['0' as int, '0' as int, HexChar(c / 16), HexChar(c % 16)];
    OccursAt(t, p, s, 0);
    OccursAt(t, p, s, 1);
    OccursAt(t, p, s, 2);
    OccursAt(t, p, s, 3);
    HexCharDigit(c / 16);
    HexCharDigit(c % 16);
    assert QuadHex(t, p, 4, 0) == QuadHex(t, p + 1, 3, 0);
    assert QuadHex(t, p + 1, 3, 0) == QuadHex(t, p + 2, 2, 0);
    assert QuadHex(t, p + 2, 2, 0) == QuadHex(t, p + 3, 1, c / 16);
    assert QuadHex(t, p + 3, 1, c / 16) == QuadHex(t, p + 4, 0, c / 16 * 16 + c % 16);
  }

  lemma {:induction false} EscapedByte(t: Text, p: nat, c: byte)
    requires Occurs(t, p, ['u' as int]) && c < 0x80
    requires Occurs(t, p + 1, ['0' as int, '0' as int, HexChar(c / 16), HexChar(c % 16)])
    ensures ParseEscape(t, p) == StrOk([c], p + 5)
  {
    hide QuadHex;
    OccursAt(t, p, ['u' as int], 0);
    QuadHexOfByte(t, p + 1, c);
  }

  /** Reading one escaped byte gives the byte back. */
  lemma {:induction false} EscapeParses(t: Text, p: nat, c: byte, acc: Text)
    requires Occurs(t, p, Escape(c))
    ensures ParseString(Building, t, p, acc) == ParseString(Building, t, p + |Escape(c)|, acc + [c])
  {
    hide QuadHex, Encode;
    var s := Escape(c);
    OccursAt(t, p, s, 0);
    if |s| == 2 {
      OccursAt(t, p, s, 1);
    } else if |s| == 6 {
      OccursAt(t, p, s, 1);
      var hex := ['0' as int, '0' as int, HexChar(c / 16), HexChar(c % 16)];
      assert s == ['\\' as int, 'u' as int] + hex;
      OccursSplit(t, p, ['\\' as int, 'u' as int], hex);
      EscapedByte(t, p + 1, c);
    }
  }

  lemma {:induction false} StringParses(t: Text, p: nat, s: Text, acc: Text)
    requires Occurs(t, p, EscapeAll(s) + ['"' as int])
    ensures ParseString(Building, t, p, acc) == StrOk(acc + s, p + |EscapeAll(s)| + 1)
    decreases |s|
  {
    hide ParseString, Occurs, Escape;
    if s == [] {
      assert EscapeAll(s) + ['"' as int] == ['"' as int] && acc + s == acc;
      QuoteEnds(t, p, acc);
    } else {
      EscapeAllSplit(t, p, s);
      EscapeParses(t, p, s[0], acc);
      StringParses(t, p + |Escape(s[0])|, s[1..], acc + [s[0]]);
      MoveFirst(acc, s);
    }
  }

  lemma MoveFirst(acc: Text, s: Text)
    requires s != []
    ensures acc + [s[0]] + s[1..] == acc + s
  {
  }

  lemma {:induction false} QuoteEnds(t: Text, p: nat, acc: Text)
    requires Occurs(t, p, ['"' as int])
    ensures ParseString(Building, t, p, acc) == StrOk(acc, p + 1)
  {
    OccursAt(t, p, ['"' as int], 0);
  }

  lemma {:induction false} EscapeAllSplit(t: Text, p: nat, s: Text)
    requires s != [] && Occurs(t, p, EscapeAll(s) + ['"' as int])
    ensures |EscapeAll(s)| == |Escape(s[0])| + |EscapeAll(s[1..])|
    ensures Occurs(t, p, Escape(s[0])) && Occurs(t, p + |Escape(s[0])|, EscapeAll(s[1..]) + ['"' as int])
  {
    var a, b, c := Escape(s[0]), EscapeAll(s[1..]), ['"' as int];
    assert EscapeAll(s) == a + b;
    hide Escape, EscapeAll, Occurs;
    assert a + b + c == a + (b + c);
    OccursSplit(t, p, a, b + c);
  }

  // ---------------------------------------------------------------- numbers

  lemma {:induction false} DecimalAppend(s: Text, d: byte, acc: nat)
    ensures Decimal(s + [d], acc) == Decimal(s, acc) * 10 + DigitValue(d)
    decreases |s|
  {
    if s == [] {
      assert Decimal([d], acc) == Decimal([], acc * 10 + DigitValue(d));
    } else {
      assert (s + [d])[1..] == s[1..] + [d];
      DecimalAppend(s[1..], d, acc * 10 + DigitValue(s[0]));
    }
  }

  /** Decimal text reads back as the number it was printed from. */
  lemma {:induction false} DigitsRoundTrip(n: nat)
    ensures DigitsText(n) != [] && forall i | 0 <= i < |DigitsText(n)| :: IsDigit(DigitsText(n)[i])
    ensures Decimal(DigitsText(n), 0) == n
  {
    if n >= 10 {
      DigitsRoundTrip(n / 10);
      DecimalAppend(DigitsText(n / 10), '0' as int + n % 10, 0);
    } else {
      assert Decimal(['0' as int + n], 0) == Decimal([], n);
    }
  }

  lemma {:induction false} IntRoundTrip(i: int)
    requires INT64_MIN <= i <= INT64_MAX
    ensures ToInt64(IntText(i)) == Some(i)
    ensures IntText(i) != [] && (IsDigit(IntText(i)[0]) || IntText(i)[0] == '-' as int)
    ensures forall j | 0 <= j < |IntText(i)| :: IsNumberChar(IntText(i)[j])
  {
    DigitsRoundTrip(if i < 0 then -i else i);
    if i < 0 {
      assert IntText(i)[1..] == DigitsText(-i);
    } else {
      assert IsDigit(IntText(i)[0]);
    }
  }

  /** A number ends where its own characters end. */
  lemma {:induction false} NumberStops(t: Text, p: nat, e: nat)
    requires p <= e <= |t|
    requires forall i | p <= i < e :: IsNumberChar(t[i])
    requires !IsNumberChar(At(t, e))
    ensures NumberEnd(t, p) == e
    decreases e - p
  {
    if p < e {
      NumberStops(t, p + 1, e);
    }
  }

  lemma {:induction false} NumberParses(t: Text, p: nat, i: int)
    requires INT64_MIN <= i <= INT64_MAX
    requires Occurs(t, p, IntText(i)) && !IsNumberChar(At(t, p + |IntText(i)|))
    ensures Parse(Building, t, p) == Ok(Int(i), p + |IntText(i)|)
  {
    hide Parse, ParseNumber, IntText, ToInt64, Occurs, NumberEnd;
    var s := IntText(i);
    IntRoundTrip(i);
    OccursAt(t, p, s, 0);
    NumberOccurs(t, p, s);
    NumberDispatch(t, p);
    IntegerParses(t, p, s, i);
  }

  lemma NumberOccurs(t: Text, p: nat, s: Text)
    requires Occurs(t, p, s) && (forall j | 0 <= j < |s| :: IsNumberChar(s[j])) && !IsNumberChar(At(t, p + |s|))
    ensures p + |s| <= |t| && NumberEnd(t, p) == p + |s| && t[p..p + |s|] == s
  {
    hide NumberEnd;
    forall j | p <= j < p + |s|
      ensures IsNumberChar(t[j])
    {
      OccursAt(t, p, s, j - p);
    }
    NumberStops(t, p, p + |s|);
  }

  lemma NumberDispatch(t: Text, p: nat)
    requires p < |t| && (IsDigit(t[p]) || t[p] == '-' as int)
    ensures Parse(Building, t, p) == ParseNumber(Building, t, p)
  {
    hide ParseNumber;
    SkipStops(t, p, p);
  }

  lemma IntegerParses(t: Text, p: nat, s: Text, i: int)
    requires p < |t| && IsNumberChar(t[p]) && NumberEnd(t, p) == p + |s| && t[p..p + |s|] == s
    requires ToInt64(s) == Some(i)
    ensures ParseNumber(Building, t, p) == Ok(Int(i), p + |s|)
  {
    hide NumberEnd, ToInt64, IsDouble, Overflows;
  }

  // ---------------------------------------------------------------- white space

  /** Line breaks and indentation are skipped. */
  lemma {:induction false} BreakIsSpace(indent: int, i: nat)
    requires indent >= -1 && i < |Break(indent)|
    ensures IsSpace(Break(indent)[i])
  {
    if i > 0 {
      SpacesAreSpace(indent * INDENT_WIDTH, i - 1);
    }
  }

  lemma {:induction false} SpacesAreSpace(n: nat, i: nat)
    requires i < |Spaces(n)|
    ensures Spaces(n)[i] == ' ' as int
  {
    if i < |Spaces(n - 1)| {
      SpacesAreSpace(n - 1, i);
    }
  }

  lemma {:induction false} SkipStops(t: Text, p: nat, e: nat)
    requires p <= e <= |t|
    requires forall i | p <= i < e :: IsSpace(t[i])
    requires !IsSpace(At(t, e))
    ensures SkipWs(t, p) == e
    decreases e - p
  {
    if p < e {
      SkipStops(t, p + 1, e);
    }
  }

  lemma {:induction false} SkipBreak(t: Text, p: nat, indent: int)
    requires indent >= -1 && Occurs(t, p, Break(indent))
    requires !IsSpace(At(t, p + |Break(indent)|))
    ensures SkipWs(t, p) == p + |Break(indent)|
  {
    forall i | p <= i < p + |Break(indent)|
      ensures IsSpace(t[i])
    {
      OccursAt(t, p, Break(indent), i - p);
      BreakIsSpace(indent, i - p);
    }
    SkipStops(t, p, p + |Break(indent)|);
  }

  lemma {:induction false} ParseAfterSpace(t: Text, p: nat, q: nat)
    requires p <= |t| && q == SkipWs(t, p)
    ensures Parse(Building, t, p) == Parse(Building, t, q)
  {
    SkipStops(t, q, q);
  }

  // ---------------------------------------------------------------- values

  /** The text of a value starts with a character that is not white space. */
  lemma {:induction false} OwnStart(tree: Tree, indent: int)
    requires indent >= -1 && WellFormed(tree)
    ensures Own(tree, indent) != [] && !IsSpace(Own(tree, indent)[0])
  {
    if tree.TInt? {
      IntRoundTrip(tree.i);
    }
  }

  /** What may follow: only a number can run on into its neighbour. */
  ghost predicate Bounded(tree: Tree, t: Text, e: nat) {
    tree.TInt? ==> !IsNumberChar(At(t, e))
  }

  /** Wherever the text of a value stands, parsing there gives the value and stops at its end. */
  lemma {:induction false} OwnParses(t: Text, p: nat, tree: Tree, indent: int)
    requires indent >= -1 && WellFormed(tree)
    requires Occurs(t, p, Own(tree, indent)) && Bounded(tree, t, p + |Own(tree, indent)|)
    ensures Parse(Building, t, p) == Ok(ValueOf(tree), p + |Own(tree, indent)|)
    decreases tree, 0
  {
    hide Parse, ParseArray, ParseObject, Occurs, ItemsText, MembersText, StringText;
    match tree {
      case TNull => KeywordParses(t, p, 'n' as int, ULL, Null);
      case TBool(b) =>
        if b {
          KeywordParses(t, p, 't' as int, RUE, Bool(true));
        } else {
          KeywordParses(t, p, 'f' as int, ALSE, Bool(false));
        }
      case TInt(i) => NumberParses(t, p, i);
      case TStr(s) => StringValueParses(t, p, s);
      case TArr(items) =>
        OccursSplit(t, p, ['[' as int], ItemsText(items, 0, indent));
        ArrayParses(t, p + 1, items, indent);
        Dispatch(t, p, '[' as int);
      case TObj(members) =>
        OccursSplit(t, p, ['{' as int], MembersText(members, 0, indent));
        ObjectParses(t, p + 1, members, indent);
        Dispatch(t, p, '{' as int);
    }
  }

  /** The parser branches on the first character that is not white space. */
  lemma {:induction false} Dispatch(t: Text, p: nat, ch: byte)
    requires Occurs(t, p, [ch]) && !IsSpace(ch)
    ensures ch == '[' as int ==> Parse(Building, t, p) == ParseArray(Building, t, p + 1)
    ensures ch == '{' as int ==> Parse(Building, t, p) == ParseObject(Building, t, p + 1)
    ensures ch == 'n' as int ==> Parse(Building, t, p) == Keyword(Building, t, p, ULL, Null)
    ensures ch == 't' as int ==> Parse(Building, t, p) == Keyword(Building, t, p, RUE, Bool(true))
    ensures ch == 'f' as int ==> Parse(Building, t, p) == Keyword(Building, t, p, ALSE, Bool(false))
  {
    OccursAt(t, p, [ch], 0);
    SkipStops(t, p, p);
  }

  lemma {:induction false} StringValueParses(t: Text, p: nat, s: Text)
    requires Occurs(t, p, StringText(s))
    ensures Parse(Building, t, p) == Ok(Str(s), p + |StringText(s)|)
  {
    hide ParseString;
    KeyStringParses(t, p, s);
    OccursAt(t, p, StringText(s), 0);
    SkipStops(t, p, p);
  }

  lemma {:induction false} KeywordParses(t: Text, p: nat, ch: byte, rest: Text, v: Value)
    requires Occurs(t, p, [ch] + rest)
    requires (ch == 'n' as int && rest == ULL && v == Null)
          || (ch == 't' as int && rest == RUE && v == Bool(true))
          || (ch == 'f' as int && rest == ALSE && v == Bool(false))
    ensures Parse(Building, t, p) == Ok(v, p + 1 + |rest|)
  {
    OccursSplit(t, p, [ch], rest);
    assert t[p + 1..p + 1 + |rest|] == rest;
    Dispatch(t, p, ch);
  }

  lemma {:induction false} ArrayParses(t: Text, p: nat, items: seq<Tree>, indent: int)
    requires indent >= -1 && WellFormed(TArr(items))
    requires Occurs(t, p, ItemsText(items, 0, indent))
    ensures ParseArray(Building, t, p) == Ok(ValueOf(TArr(items)), p + |ItemsText(items, 0, indent)|)
    decreases items, |items| + 2
  {
    if items == [] {
      OccursAt(t, p, ItemsText(items, 0, indent), 0);
      SkipStops(t, p, p);
    } else {
      FirstItem(t, p, items, indent);
    }
  }

  lemma {:induction false} FirstItem(t: Text, p: nat, items: seq<Tree>, indent: int)
    requires indent >= -1 && items != []
    requires forall i | 0 <= i < |items| :: WellFormed(items[i])
    requires Occurs(t, p, ItemsText(items, 0, indent))
    ensures p <= |t| && !Expect(t, p, ']' as int).ok
    ensures ParseItems(Building, t, Expect(t, p, ']' as int).pos, []) ==
            Ok(Arr(ValuesOf(items, |items|)), p + |ItemsText(items, 0, indent)|)
    decreases items, |items| + 1
  {
    hide Occurs, Own, ParseItems, SkipWs, ItemsText, ItemText, Break, WellFormed;
    FirstItemText(items, indent);
    ItemStarts(t, p, items, 0, indent);
    ItemsParse(t, p + |Break(Inner(indent))|, items, 0, indent, []);
  }

  lemma {:induction false} FirstItemText(items: seq<Tree>, indent: int)
    requires indent >= -1 && items != []
    ensures ItemsText(items, 0, indent) == ItemText(items, 0, indent)
  {
    hide ItemText;
  }

  /** The `k`-th item starts after its line break, with something other than `]`. */
  lemma {:induction false} ItemStarts(t: Text, p: nat, items: seq<Tree>, k: nat, indent: int)
    requires k < |items| && indent >= -1 && WellFormed(items[k])
    requires Occurs(t, p, ItemText(items, k, indent))
    ensures var (q, own) := (p + |Break(Inner(indent))|, Own(items[k], Inner(indent)));
            && SkipWs(t, p) == q && At(t, q) != ']' as int
            && Occurs(t, q, own) && Occurs(t, q + |own|, ItemsText(items, k + 1, indent))
            && p + |ItemText(items, k, indent)| == q + |own| + |ItemsText(items, k + 1, indent)|
  {
    hide Occurs, SkipWs, Own, ItemsText, Break, WellFormed;
    var b, own, rest := Break(Inner(indent)), Own(items[k], Inner(indent)), ItemsText(items, k + 1, indent);
    OccursSplit(t, p, b, own + rest);
    OccursSplit(t, p + |b|, own, rest);
    OwnStart(items[k], Inner(indent));
    OccursAt(t, p + |b|, own, 0);
    OwnIsNotClose(items[k], Inner(indent));
    SkipBreak(t, p, Inner(indent));
  }

  lemma {:induction false} OwnIsNotClose(tree: Tree, indent: int)
    requires indent >= -1 && WellFormed(tree)
    ensures Own(tree, indent) != [] && Own(tree, indent)[0] != ']' as int
  {
    if tree.TInt? {
      IntRoundTrip(tree.i);
    }
  }

  lemma {:induction false} ItemsParse(t: Text, q: nat, items: seq<Tree>, k: nat, indent: int, acc: seq<Value>)
    requires k < |items| && indent >= -1
    requires forall i | 0 <= i < |items| :: WellFormed(items[i])
    requires acc == ValuesOf(items, k)
    requires var own := Own(items[k], Inner(indent));
             Occurs(t, q, own) && Occurs(t, q + |own|, ItemsText(items, k + 1, indent))
    ensures ParseItems(Building, t, q, acc) ==
            Ok(Arr(ValuesOf(items, |items|)), q + |Own(items[k], Inner(indent))| + |ItemsText(items, k + 1, indent)|)
    decreases items, |items| - k, 1
  {
    hide Parse, ParseItems, Expect, SkipWs, Own, Occurs, ItemsText;
    var r, v := q + |Own(items[k], Inner(indent))|, ValueOf(items[k]);
    ItemsFollow(t, r, items, k + 1, indent);
    OwnParses(t, q, items[k], Inner(indent));
    if k + 1 < |items| {
      var q' := r + 1 + |Break(Inner(indent))|;
      NextItem(t, r, items, k + 1, indent);
      ItemsParse(t, q', items, k + 1, indent, acc + [v]);
      ItemsStep(t, q, acc, v, r, q');
    } else {
      ItemsEnd(t, q, acc, v, r);
    }
  }

  /** Between two items: a comma, a line break, then the text of the next one. */
  lemma {:induction false} NextItem(t: Text, r: nat, items: seq<Tree>, k: nat, indent: int)
    requires 0 < k < |items| && indent >= -1 && WellFormed(items[k])
    requires Occurs(t, r, ItemsText(items, k, indent))
    ensures var (q, own) := (r + 1 + |Break(Inner(indent))|, Own(items[k], Inner(indent)));
            && r + 1 <= |t| && SkipWs(t, r + 1) == q
            && Occurs(t, q, own) && Occurs(t, q + |own|, ItemsText(items, k + 1, indent))
            && r + |ItemsText(items, k, indent)| == q + |own| + |ItemsText(items, k + 1, indent)|
  {
    hide Occurs, Own, SkipWs, Break, ItemText, WellFormed;
    OccursSplit(t, r, [',' as int], ItemText(items, k, indent));
    ItemStarts(t, r + 1, items, k, indent);
  }

  lemma {:induction false} ItemsStep(t: Text, q: nat, acc: seq<Value>, v: Value, r: nat, q': nat)
    requires q <= |t| && Parse(Building, t, q) == Ok(v, r)
    requires Expect(t, r, ',' as int) == Step(true, r + 1) && q' == SkipWs(t, r + 1)
    ensures ParseItems(Building, t, q, acc) == ParseItems(Building, t, q', acc + [v])
  {
    hide Parse, Expect, SkipWs, ParseItems;
    JsonContexts.ItemsTurn(Building, t, q, acc);
    ItemsAfterSpace(t, r + 1, q', acc + [v]);
  }

  lemma {:induction false} ItemsAfterSpace(t: Text, p: nat, q: nat, acc: seq<Value>)
    requires p <= |t| && q == SkipWs(t, p)
    ensures ParseItems(Building, t, p, acc) == ParseItems(Building, t, q, acc)
  {
    ParseAfterSpace(t, p, q);
  }

  lemma {:induction false} ItemsEnd(t: Text, q: nat, acc: seq<Value>, v: Value, r: nat)
    requires q <= |t| && Parse(Building, t, q) == Ok(v, r)
    requires !Expect(t, r, ',' as int).ok && Expect(t, Expect(t, r, ',' as int).pos, ']' as int).ok
    ensures ParseItems(Building, t, q, acc) ==
            Ok(Arr(acc + [v]), Expect(t, Expect(t, r, ',' as int).pos, ']' as int).pos)
  {
  }

  /** What follows an item: a comma, or the line break and bracket that close the array. */
  lemma {:induction false} ItemsFollow(t: Text, r: nat, items: seq<Tree>, k: nat, indent: int)
    requires 0 < k <= |items| && indent >= -1
    requires Occurs(t, r, ItemsText(items, k, indent))
    ensures !IsNumberChar(At(t, r))
    ensures k < |items| ==> Expect(t, r, ',' as int) == Step(true, r + 1)
    ensures k == |items| ==>
            && !Expect(t, r, ',' as int).ok
            && Expect(t, Expect(t, r, ',' as int).pos, ']' as int) == Step(true, r + |ItemsText(items, k, indent)|)
  {
    var s := ItemsText(items, k, indent);
    OccursAt(t, r, s, 0);
    if k < |items| {
      SkipStops(t, r, r);
    } else {
      CloseFollows(t, r, indent, ']' as int);
    }
  }

  lemma {:induction false} CloseFollows(t: Text, r: nat, indent: int, close: byte)
    requires indent >= -1 && Occurs(t, r, Break(indent) + [close])
    requires !IsSpace(close) && close != ',' as int
    ensures !Expect(t, r, ',' as int).ok
    ensures Expect(t, Expect(t, r, ',' as int).pos, close) == Step(true, r + |Break(indent)| + 1)
  {
    var e := r + |Break(indent)|;
    OccursSplit(t, r, Break(indent), [close]);
    OccursAt(t, e, [close], 0);
    SkipBreak(t, r, indent);
    SkipStops(t, e, e);
  }

  lemma {:induction false} ObjectParses(t: Text, p: nat, members: seq<Member>, indent: int)
    requires indent >= -1 && WellFormed(TObj(members))
    requires Occurs(t, p, MembersText(members, 0, indent))
    ensures ParseObject(Building, t, p) == Ok(ValueOf(TObj(members)), p + |MembersText(members, 0, indent)|)
    decreases members, |members| + 2
  {
    if members == [] {
      OccursAt(t, p, MembersText(members, 0, indent), 0);
      SkipStops(t, p, p);
    } else {
      FirstMember(t, p, members, indent);
    }
  }

  lemma {:induction false} FirstMember(t: Text, p: nat, members: seq<Member>, indent: int)
    requires indent >= -1 && members != []
    requires forall i | 0 <= i < |members| :: WellFormed(members[i].value)
    requires Occurs(t, p, MembersText(members, 0, indent))
    ensures p <= |t| && !Expect(t, p, '}' as int).ok
    ensures ParseMembers(Building, t, Expect(t, p, '}' as int).pos, map[]) ==
            Ok(Obj(MembersOf(members, |members|)), p + |MembersText(members, 0, indent)|)
    decreases members, |members| + 1
  {
    hide Occurs, Own, ParseMembers, SkipWs, MemberAt, ValueEnd, MembersText, MemberText, Break, WellFormed;
    FirstMemberText(members, indent);
    MemberStarts(t, p, members, 0, indent);
    MembersParse(t, p + |Break(Inner(indent))|, members, 0, indent, map[]);
  }

  lemma {:induction false} FirstMemberText(members: seq<Member>, indent: int)
    requires indent >= -1 && members != []
    ensures MembersText(members, 0, indent) == MemberText(members, 0, indent)
  {
    hide MemberText;
  }

  /** A member stands at `q`, in its four parts. */
  ghost predicate MemberAt(t: Text, q: nat, members: seq<Member>, k: nat, indent: int)
    requires k < |members| && indent >= -1
  {
    var c := q + |StringText(members[k].key)|;
    && Occurs(t, q, StringText(members[k].key))
    && Occurs(t, c, Colon(indent))
    && Occurs(t, ValueStart(q, members, k, indent), Own(members[k].value, Inner(indent)))
    && Occurs(t, ValueEnd(q, members, k, indent), MembersText(members, k + 1, indent))
  }

  lemma MemberRest(t: Text, q: nat, members: seq<Member>, k: nat, indent: int)
    requires k < |members| && indent >= -1 && MemberAt(t, q, members, k, indent)
    ensures Occurs(t, ValueEnd(q, members, k, indent), MembersText(members, k + 1, indent))
  {
    hide Occurs, StringText, Own, MembersText, ValueEnd;
  }

  function ValueStart(q: nat, members: seq<Member>, k: nat, indent: int): nat
    requires k < |members|
  {
    q + |StringText(members[k].key)| + |Colon(indent)|
  }

  function ValueEnd(q: nat, members: seq<Member>, k: nat, indent: int): nat
    requires k < |members| && indent >= -1
  {
    ValueStart(q, members, k, indent) + |Own(members[k].value, Inner(indent))|
  }

  lemma {:induction false} MemberStarts(t: Text, p: nat, members: seq<Member>, k: nat, indent: int)
    requires k < |members| && indent >= -1
    requires Occurs(t, p, MemberText(members, k, indent))
    ensures var q := p + |Break(Inner(indent))|;
            && SkipWs(t, p) == q && At(t, q) == '"' as int
            && MemberAt(t, q, members, k, indent)
            && p + |MemberText(members, k, indent)| ==
               ValueEnd(q, members, k, indent) + |MembersText(members, k + 1, indent)|
  {
    hide Occurs, Own, MembersText, SkipWs, Break, Colon;
    var b, key, colon := Break(Inner(indent)), StringText(members[k].key), Colon(indent);
    var own, rest := Own(members[k].value, Inner(indent)), MembersText(members, k + 1, indent);
    var q := p + |b|;
    OccursSplit(t, p, b, key + (colon + (own + rest)));
    OccursSplit(t, q, key, colon + (own + rest));
    OccursSplit(t, q + |key|, colon, own + rest);
    OccursSplit(t, q + |key| + |colon|, own, rest);
    OccursAt(t, q, key, 0);
    SkipBreak(t, p, Inner(indent));
  }

  /** The key and colon of a member, and the white space before its value. */
  lemma {:induction false} KeyParses(t: Text, q: nat, key: Text, indent: int, own: Text)
    requires Occurs(t, q, StringText(key))
    requires Occurs(t, q + |StringText(key)|, Colon(indent))
    requires Occurs(t, q + |StringText(key)| + |Colon(indent)|, own)
    requires own != [] && !IsSpace(own[0])
    ensures ParseKey(t, q) == StrOk(key, q + |StringText(key)| + 1)
    ensures SkipWs(t, q + |StringText(key)| + 1) == q + |StringText(key)| + |Colon(indent)|
  {
    hide ParseKey, ParseString, Expect, SkipWs, Occurs, StringText;
    var c := q + |StringText(key)|;
    KeyStringParses(t, q, key);
    ColonParses(t, c, indent, own);
    KeyStep(t, q, key, c);
  }

  lemma {:induction false} KeyStep(t: Text, q: nat, key: Text, c: nat)
    requires q < |t| && Expect(t, q, '"' as int) == Step(true, q + 1)
    requires ParseString(Building, t, q + 1, []) == StrOk(key, c)
    requires Expect(t, c, ':' as int) == Step(true, c + 1)
    ensures ParseKey(t, q) == StrOk(key, c + 1)
  {
  }

  lemma {:induction false} ColonParses(t: Text, c: nat, indent: int, own: Text)
    requires Occurs(t, c, Colon(indent)) && Occurs(t, c + |Colon(indent)|, own)
    requires own != [] && !IsSpace(own[0])
    ensures Expect(t, c, ':' as int) == Step(true, c + 1)
    ensures SkipWs(t, c + 1) == c + |Colon(indent)|
  {
    var colon := Colon(indent);
    OccursAt(t, c, colon, 0);
    SkipStops(t, c, c);
    OccursAt(t, c + |colon|, own, 0);
    if indent != -1 {
      OccursAt(t, c, colon, 1);
    }
    SkipStops(t, c + 1, c + |colon|);
  }

  lemma {:induction false} KeyStringParses(t: Text, q: nat, key: Text)
    requires Occurs(t, q, StringText(key))
    ensures Expect(t, q, '"' as int) == Step(true, q + 1)
    ensures ParseString(Building, t, q + 1, []) == StrOk(key, q + |StringText(key)|)
  {
    OccursAt(t, q, StringText(key), 0);
    SkipStops(t, q, q);
    OccursSplit(t, q, ['"' as int], EscapeAll(key) + ['"' as int]);
    StringParses(t, q + 1, key, []);
    assert [] + key == key;
  }

  /** Key and value of one member. */
  lemma {:induction false} MemberParses(t: Text, q: nat, members: seq<Member>, k: nat, indent: int)
    requires k < |members| && indent >= -1 && WellFormed(members[k].value)
    requires MemberAt(t, q, members, k, indent)
    requires !IsNumberChar(At(t, ValueEnd(q, members, k, indent)))
    ensures var (key, s) := (members[k].key, q + |StringText(members[k].key)| + 1);
            && q <= |t| && s <= |t| && ParseKey(t, q) == StrOk(key, s)
            && Parse(Building, t, s) == Ok(ValueOf(members[k].value), ValueEnd(q, members, k, indent))
    decreases members, |members| - k, 0
  {
    hide Parse, ParseKey, SkipWs, Own, Occurs, MembersText;
    var key, own := members[k].key, Own(members[k].value, Inner(indent));
    OwnStart(members[k].value, Inner(indent));
    KeyParses(t, q, key, indent, own);
    OwnParses(t, ValueStart(q, members, k, indent), members[k].value, Inner(indent));
    ParseAfterSpace(t, q + |StringText(key)| + 1, ValueStart(q, members, k, indent));
  }

  lemma {:induction false} MembersParse(t: Text, q: nat, members: seq<Member>, k: nat, indent: int, acc: map<Text, Value>)
    requires k < |members| && indent >= -1
    requires forall i | 0 <= i < |members| :: WellFormed(members[i].value)
    requires acc == MembersOf(members, k)
    requires MemberAt(t, q, members, k, indent)
    ensures q <= |t| && ParseMembers(Building, t, q, acc) ==
            Ok(Obj(MembersOf(members, |members|)),
               ValueEnd(q, members, k, indent) + |MembersText(members, k + 1, indent)|)
    decreases members, |members| - k, 1
  {
    hide Parse, ParseMembers, ParseKey, Expect, SkipWs, Own, Occurs, MembersText, WellFormed, MemberAt, ValueEnd, StringText;
    var r := ValueEnd(q, members, k, indent);
    var key, s, v := members[k].key, q + |StringText(members[k].key)| + 1, ValueOf(members[k].value);
    MemberRest(t, q, members, k, indent);
    MembersFollow(t, r, members, k + 1, indent);
    MemberParses(t, q, members, k, indent);
    assert MembersOf(members, k + 1) == acc[key := v];
    hide MembersOf, ValueOf;
    if k + 1 < |members| {
      var q' := r + 1 + |Break(Inner(indent))|;
      NextMember(t, r, members, k + 1, indent);
      MembersParse(t, q', members, k + 1, indent, acc[key := v]);
      MembersStep(t, q, key, s, acc, v, r, q');
    } else {
      MembersEnd(t, q, key, s, acc, v, r);
    }
  }

  lemma {:induction false} NextMember(t: Text, r: nat, members: seq<Member>, k: nat, indent: int)
    requires 0 < k < |members| && indent >= -1
    requires Occurs(t, r, MembersText(members, k, indent))
    ensures var q := r + 1 + |Break(Inner(indent))|;
            && r + 1 <= |t| && SkipWs(t, r + 1) == q
            && MemberAt(t, q, members, k, indent)
            && r + |MembersText(members, k, indent)| ==
               ValueEnd(q, members, k, indent) + |MembersText(members, k + 1, indent)|
  {
    hide Occurs, Own, SkipWs, Break, MemberText, MemberAt, ValueEnd;
    OccursSplit(t, r, [',' as int], MemberText(members, k, indent));
    MemberStarts(t, r + 1, members, k, indent);
  }

  lemma {:induction false} MembersStep(
    t: Text, q: nat, key: Text, s: nat, acc: map<Text, Value>, v: Value, r: nat, q': nat)
    requires q <= |t| && ParseKey(t, q) == StrOk(key, s) && Parse(Building, t, s) == Ok(v, r)
    requires Expect(t, r, ',' as int) == Step(true, r + 1) && q' == SkipWs(t, r + 1)
    ensures ParseMembers(Building, t, q, acc) == ParseMembers(Building, t, q', acc[key := v])
  {
    hide ParseKey, Parse, Expect, SkipWs;
    MembersAfterSpace(t, r + 1, q', acc[key := v]);
  }

  lemma {:induction false} MembersEnd(
    t: Text, q: nat, key: Text, s: nat, acc: map<Text, Value>, v: Value, r: nat)
    requires q <= |t| && ParseKey(t, q) == StrOk(key, s) && Parse(Building, t, s) == Ok(v, r)
    requires !Expect(t, r, ',' as int).ok && Expect(t, Expect(t, r, ',' as int).pos, '}' as int).ok
    ensures ParseMembers(Building, t, q, acc) ==
            Ok(Obj(acc[key := v]), Expect(t, Expect(t, r, ',' as int).pos, '}' as int).pos)
  {
    hide ParseKey, Parse, Expect, SkipWs;
  }

  lemma {:induction false} MembersAfterSpace(t: Text, p: nat, q: nat, acc: map<Text, Value>)
    requires p <= |t| && q == SkipWs(t, p)
    ensures ParseMembers(Building, t, p, acc) == ParseMembers(Building, t, q, acc)
  {
    SkipStops(t, q, q);
    assert Expect(t, p, '"' as int) == Expect(t, q, '"' as int);
  }

  lemma {:induction false} MembersFollow(t: Text, r: nat, members: seq<Member>, k: nat, indent: int)
    requires 0 < k <= |members| && indent >= -1
    requires Occurs(t, r, MembersText(members, k, indent))
    ensures !IsNumberChar(At(t, r))
    ensures k < |members| ==> Expect(t, r, ',' as int) == Step(true, r + 1)
    ensures k == |members| ==>
            && !Expect(t, r, ',' as int).ok
            && Expect(t, Expect(t, r, ',' as int).pos, '}' as int) == Step(true, r + |MembersText(members, k, indent)|)
  {
    OccursAt(t, r, MembersText(members, k, indent), 0);
    if k < |members| {
      SkipStops(t, r, r);
    } else {
      CloseFollows(t, r, indent, '}' as int);
    }
  }

  // ---------------------------------------------------------------- whole documents

  /**
   The round trip. Serialize any value in any member order, compact or pretty, with any text
   in front of it and any text behind it that does not continue a number: parsing from where
   it starts gives the value back and stops exactly where its own text ends.
   */
  lemma {:induction false} RoundTrip(tree: Tree, pretty: bool, before: Text, after: Text)
    requires WellFormed(tree)
    requires tree.TInt? && !pretty ==> !IsNumberChar(At(after, 0))
    ensures var indent := if pretty then 0 else -1;
            Parse(Building, before + FullText(tree, indent) + after, |before|) ==
            Ok(ValueOf(tree), |before| + |Own(tree, indent)|)
  {
    var indent := if pretty then 0 else -1;
    var own, t := Own(tree, indent), before + FullText(tree, indent) + after;
    var p := |before|;
    assert t[p..p + |own|] == own;
    if pretty {
      assert t[p + |own|] == NEWLINE;
    } else {
      assert t == before + own + after;
      assert At(t, p + |own|) == At(after, 0);
    }
    OwnParses(t, p, tree, indent);
  }

  /** Equal texts come from equal values, whatever the member orders. */
  lemma {:induction false} SerializationIsInjective(a: Tree, b: Tree, pretty: bool)
    requires WellFormed(a) && WellFormed(b)
    requires var indent := if pretty then 0 else -1; FullText(a, indent) == FullText(b, indent)
    ensures ValueOf(a) == ValueOf(b)
  {
    var indent := if pretty then 0 else -1;
    RoundTrip(a, pretty, [], []);
    RoundTrip(b, pretty, [], []);
  }
}

/** Every document of the grammar is read, up to its end, as the value it denotes. */
module JsonComplete {
  import opened Prelude
  import opened JsonCursor
  import opened JsonGrammar
  import opened JsonContexts
  import opened JsonRoundTrip
  import opened JsonNumbers
  import opened JsonStrings
  import opened JsonDocuments

  // ---------------------------------------------------------------- white space and single characters

  lemma BlankIsSpace(ch: int)
    ensures IsSpace(ch) <==> IsBlank(ch)
  {
  }

  lemma BlankSkipped(t: Text, p: nat, w: Text)
    requires Blank(w) && Occurs(t, p, w) && !IsBlank(At(t, p + |w|))
    ensures p + |w| <= |t| && SkipWs(t, p) == p + |w|
  {
    hide SkipWs;
    forall i | p <= i < p + |w|
      ensures IsSpace(t[i])
    {
      OccursAt(t, p, w, i - p);
    }
    SkipStops(t, p, p + |w|);
  }

  /** After white space stands the character that is expected. */
  lemma ExpectFinds(t: Text, p: nat, w: Text, ch: byte)
    requires Blank(w) && !IsBlank(ch) && Occurs(t, p, w + [ch])
    ensures p <= |t| && Expect(t, p, ch) == Step(true, p + |w| + 1)
  {
    hide SkipWs;
    OccursSplit(t, p, w, [ch]);
    OccursAt(t, p + |w|, [ch], 0);
    BlankSkipped(t, p, w);
  }

  lemma ExpectHere(t: Text, p: nat, ch: byte)
    requires !IsBlank(ch) && Occurs(t, p, [ch])
    ensures p <= |t| && Expect(t, p, ch) == Step(true, p + 1)
  {
    assert [] + [ch] == [ch];
    ExpectFinds(t, p, [], ch);
  }

  /** After white space stands another character. */
  lemma ExpectMisses(t: Text, p: nat, w: Text, ch: byte)
    requires Blank(w) && Occurs(t, p, w) && !IsBlank(At(t, p + |w|)) && At(t, p + |w|) != ch
    ensures p + |w| <= |t| && Expect(t, p, ch) == Step(false, p + |w|)
  {
    hide SkipWs;
    BlankSkipped(t, p, w);
  }

  lemma ParseSkips(ctx: Context, t: Text, p: nat)
    requires p <= |t|
    ensures Parse(ctx, t, p) == Parse(ctx, t, SkipWs(t, p))
  {
    hide ParseString, ParseArray, ParseObject, ParseNumber, Keyword;
    SkipStops(t, SkipWs(t, p), SkipWs(t, p));
  }

  // ---------------------------------------------------------------- single documents

  ghost function StringOutcome(ctx: Context, r: StringResult): Result {
    if r.StrOk? then Ok(Out(ctx, Str(r.s)), r.pos) else Fail(r.pos)
  }

  /** Which branch the first character leads to. */
  lemma Dispatched(ctx: Context, t: Text, p: nat)
    requires p < |t| && !IsBlank(t[p])
    ensures t[p] == 110 ==> Parse(ctx, t, p) == Keyword(ctx, t, p, ULL, Null)
    ensures t[p] == 102 ==> Parse(ctx, t, p) == Keyword(ctx, t, p, ALSE, Bool(false))
    ensures t[p] == 116 ==> Parse(ctx, t, p) == Keyword(ctx, t, p, RUE, Bool(true))
    ensures t[p] == 91 ==> Parse(ctx, t, p) == ParseArray(ctx, t, p + 1)
    ensures t[p] == 123 ==> Parse(ctx, t, p) == ParseObject(ctx, t, p + 1)
    ensures t[p] == 34 ==>
            Parse(ctx, t, p) == StringOutcome(ctx, ParseString(ctx, t, p + 1, []))
  {
    hide ParseString, ParseArray, ParseObject, ParseNumber, Keyword;
    SkipStops(t, p, p);
  }

  lemma WordRead(ctx: Context, t: Text, p: nat, rest: Text, v: Value)
    requires p < |t| && Occurs(t, p + 1, rest)
    ensures Keyword(ctx, t, p, rest, v) == Ok(Out(ctx, v), p + 1 + |rest|)
  {
    assert t[p + 1..p + 1 + |rest|] == rest;
    hide Match;
  }

  lemma CharsRead(ctx: Context, t: Text, p: nat, xs: seq<Piece>)
    requires ArePieces(xs) && Occurs(t, p, [34] + (PiecesText(xs) + [34]))
    ensures p <= |t| && Parse(ctx, t, p) == Ok(Out(ctx, Str(PiecesBytes(xs))), p + 2 + |PiecesText(xs)|)
  {
    hide ParseString, Parse, Occurs, PiecesText, PiecesBytes, ArePieces;
    OccursSplit(t, p, [34], PiecesText(xs) + [34]);
    OccursAt(t, p, [34], 0);
    Dispatched(ctx, t, p);
    PiecesRead(t, p + 1, xs, []);
    assert [] + PiecesBytes(xs) == PiecesBytes(xs);
    StringsAgree(t, p + 1, [], []);
  }

  lemma WordsRead(ctx: Context, t: Text, p: nat, doc: Doc)
    requires doc.NullWord? || doc.TrueWord? || doc.FalseWord?
    requires IsDoc(doc) && Occurs(t, p, DocText(doc))
    ensures p <= |t| && Parse(ctx, t, p) == Ok(Out(ctx, DocValue(doc)), p + |DocText(doc)|)
  {
    hide Parse, Keyword, Occurs;
    var (first, rest) := (DocText(doc)[..1], DocText(doc)[1..]);
    assert first + rest == DocText(doc);
    OccursSplit(t, p, first, rest);
    OccursAt(t, p, first, 0);
    Dispatched(ctx, t, p);
    assert rest == if doc.NullWord? then ULL else if doc.TrueWord? then RUE else ALSE;
    WordRead(ctx, t, p, rest, DocValue(doc));
  }

  // ---------------------------------------------------------------- all documents

  /** The elements of an array after those in `acc`. */
  ghost function WithItems(ctx: Context, acc: seq<Value>, items: seq<Item>): seq<Value>
    requires AreItems(items)
  {
    if ctx.Building? then acc + ItemValues(items) else acc
  }

  ghost function WithEntries(ctx: Context, acc: map<Text, Value>, members: seq<Entry>): map<Text, Value>
    requires AreEntries(members)
  {
    if ctx.Building? then EntryValues(members, acc) else acc
  }

  ghost predicate ItemsAllowed(ctx: Context, items: seq<Item>)
    requires AreItems(items)
  {
    forall i | 0 <= i < |items| :: Allowed(ctx, items[i].doc)
  }

  ghost predicate EntriesAllowed(ctx: Context, members: seq<Entry>)
    requires AreEntries(members)
  {
    forall i | 0 <= i < |members| :: Allowed(ctx, members[i].doc)
  }

  /**
   A document anywhere in a text, not followed by a continuation of a number if it is one, is
   read as its value, and reading stops at its end.
   */
  lemma {:induction false} DocRead(ctx: Context, t: Text, p: nat, doc: Doc)
    requires IsDoc(doc) && Allowed(ctx, doc) && Occurs(t, p, DocText(doc))
    requires doc.Number? ==> !Continues(At(t, p + |DocText(doc)|))
    ensures p <= |t| && Parse(ctx, t, p) == Ok(Out(ctx, DocValue(doc)), p + |DocText(doc)|)
    decreases doc, 3
  {
    hide Parse, Occurs, ItemsText, EntriesText, ItemValues, EntryValues, Blank, LiteralText, PiecesText, PiecesBytes;
    match doc
    case Number(l) => LiteralParses(ctx, t, p, l);
    case Chars(xs) => CharsRead(ctx, t, p, xs);
    case Array(blank, items) => ArrayRead(ctx, t, p, blank, items);
    case Object(blank, members) => ObjectRead(ctx, t, p, blank, members);
    case _ => WordsRead(ctx, t, p, doc);
  }

  lemma {:induction false} ArrayRead(ctx: Context, t: Text, p: nat, blank: Text, items: seq<Item>)
    requires Blank(blank) && AreItems(items) && ItemsAllowed(ctx, items)
    requires Occurs(t, p, DocText(Array(blank, items)))
    ensures p <= |t| && Parse(ctx, t, p) == Ok(Out(ctx, Arr(ItemValues(items))), p + |DocText(Array(blank, items))|)
    decreases items, 2
  {
    hide Parse, Occurs, ItemsText, ItemValues, Blank, Expect, ParseItems;
    var rest := if items == [] then blank + [93] else ItemsText(items);
    OccursSplit(t, p, [91], rest);
    OccursAt(t, p, [91], 0);
    Dispatched(ctx, t, p);
    if items == [] {
      ExpectFinds(t, p + 1, blank, 93);
      NoItems(items);
    } else {
      ItemsBegin(ctx, t, p + 1, items);
      ItemsRead(ctx, t, p + 1, items, []);
      assert [] + ItemValues(items) == ItemValues(items);
    }
  }

  lemma NoItems(items: seq<Item>)
    requires items == [] && AreItems(items)
    ensures ItemValues(items) == []
  {
  }

  /** Where an item and what follows it stand. */
  lemma ItemLies(t: Text, p: nat, items: seq<Item>)
    requires items != [] && AreItems(items) && Occurs(t, p, ItemsText(items))
    ensures var (b, d, a, r) := (items[0].before, DocText(items[0].doc), items[0].after, MoreItems(items));
            && Occurs(t, p, b) && Occurs(t, p + |b|, d) && Occurs(t, p + |b| + |d|, a)
            && Occurs(t, p + |b| + |d| + |a|, r) && |ItemsText(items)| == |b| + |d| + |a| + |r|
            && p + |b| + |d| + |a| < |t| && At(t, p + |b|) == d[0] && d != [] && r != []
            && At(t, p + |b| + |d| + |a|) == r[0] && (r[0] == 93 || r[0] == 44)
  {
    hide Occurs, DocText;
    var (b, d, a, r) := (items[0].before, DocText(items[0].doc), items[0].after, MoreItems(items));
    OccursSplit(t, p, b, d + (a + r));
    OccursSplit(t, p + |b|, d, a + r);
    OccursSplit(t, p + |b| + |d|, a, r);
    FirstChar(items[0].doc);
    OccursAt(t, p + |b|, d, 0);
    OccursAt(t, p + |b| + |d| + |a|, r, 0);
  }

  /** The bracket is not closed at once, and the items are read from where they begin. */
  lemma ItemsBegin(ctx: Context, t: Text, p: nat, items: seq<Item>)
    requires items != [] && AreItems(items) && Occurs(t, p, ItemsText(items))
    ensures p <= |t| && ParseArray(ctx, t, p) == ParseItems(ctx, t, p, [])
  {
    hide Occurs, DocText, ItemsText, Expect, ParseItems, Blank;
    ItemLies(t, p, items);
    FirstChar(items[0].doc);
    var b := items[0].before;
    ExpectMisses(t, p, b, 93);
    BlankSkipped(t, p, b);
    ItemsSkip(ctx, t, p, []);
  }

  lemma ItemsSkip(ctx: Context, t: Text, p: nat, acc: seq<Value>)
    requires p <= |t|
    ensures ParseItems(ctx, t, p, acc) == ParseItems(ctx, t, SkipWs(t, p), acc)
  {
    hide Parse, Expect, SkipWs;
    ParseSkips(ctx, t, p);
  }

  /** What stands after an item cannot continue a number. */
  lemma AfterItem(t: Text, p: nat, a: Text, ch: int)
    requires Blank(a) && Occurs(t, p, a) && At(t, p + |a|) == ch && !Continues(ch)
    ensures !Continues(At(t, p))
  {
    if a != [] {
      OccursAt(t, p, a, 0);
    }
  }

  /** The first item is read, up to its end. */
  lemma {:induction false} FirstItemRead(ctx: Context, t: Text, p: nat, items: seq<Item>)
    requires items != [] && AreItems(items) && ItemsAllowed(ctx, items) && Occurs(t, p, ItemsText(items))
    ensures p <= |t| && Parse(ctx, t, p) ==
            Ok(Out(ctx, DocValue(items[0].doc)), p + |items[0].before| + |DocText(items[0].doc)|)
    decreases items, 0
  {
    hide Occurs, DocText, ItemsText, MoreItems, Parse, Blank, DocValue;
    var (b, doc, a) := (items[0].before, items[0].doc, items[0].after);
    ItemLies(t, p, items);
    FirstChar(doc);
    BlankSkipped(t, p, b);
    ParseSkips(ctx, t, p);
    AfterItem(t, p + |b| + |DocText(doc)|, a, MoreItems(items)[0]);
    DocRead(ctx, t, p + |b|, doc);
  }

  lemma {:induction false} ItemsRead(ctx: Context, t: Text, p: nat, items: seq<Item>, acc: seq<Value>)
    requires items != [] && AreItems(items) && ItemsAllowed(ctx, items) && Occurs(t, p, ItemsText(items))
    ensures p <= |t| && ParseItems(ctx, t, p, acc) ==
            Ok(Out(ctx, Arr(WithItems(ctx, acc, items))), p + |ItemsText(items)|)
    decreases items, 1
  {
    hide Occurs, DocText, ItemsText, Parse, ParseItems, Expect, Blank, DocValue, WithItems, IsDoc, Allowed;
    var (b, d, a, rest) := (items[0].before, DocText(items[0].doc), items[0].after, items[1..]);
    var q := p + |b| + |d|;
    ItemLies(t, p, items);
    FirstItemRead(ctx, t, p, items);
    ItemsUnfold(ctx, t, p, acc);
    var acc' := if ctx.Building? then acc + [DocValue(items[0].doc)] else acc;
    if |items| == 1 {
      ExpectMisses(t, q, a, 44);
      ExpectHere(t, q + |a|, 93);
      OneItem(ctx, acc, items);
    } else {
      OccursSplit(t, q + |a|, [44], ItemsText(rest));
      OccursJoin(t, q, a, [44]);
      ExpectFinds(t, q, a, 44);
      ItemsRead(ctx, t, q + |a| + 1, rest, acc');
      MoreValues(ctx, acc, items);
    }
  }

  lemma ItemsUnfold(ctx: Context, t: Text, p: nat, acc: seq<Value>)
    requires p <= |t|
    ensures ParseItems(ctx, t, p, acc) ==
            var item := Parse(ctx, t, p);
            if !item.Ok? then item
            else
              var acc' := if ctx.Building? then acc + [item.value] else acc;
              var comma := Expect(t, item.pos, ',' as int);
              if comma.ok then ParseItems(ctx, t, comma.pos, acc')
              else
                var close := Expect(t, comma.pos, ']' as int);
                if close.ok then Ok(Out(ctx, Arr(acc')), close.pos) else Fail(close.pos)
  {
    hide Parse, Expect;
  }

  lemma OneItem(ctx: Context, acc: seq<Value>, items: seq<Item>)
    requires |items| == 1 && AreItems(items)
    ensures WithItems(ctx, acc, items) == if ctx.Building? then acc + [DocValue(items[0].doc)] else acc
  {
    assert items[1..] == [];
    assert ItemValues(items) == [DocValue(items[0].doc)] + ItemValues(items[1..]);
  }

  lemma MoreValues(ctx: Context, acc: seq<Value>, items: seq<Item>)
    requires |items| > 1 && AreItems(items)
    ensures WithItems(ctx, acc, items) ==
            WithItems(ctx, if ctx.Building? then acc + [DocValue(items[0].doc)] else acc, items[1..])
  {
    hide DocValue;
    Assoc(acc, [DocValue(items[0].doc)], ItemValues(items[1..]));
  }

  // ---------------------------------------------------------------- objects

  lemma {:induction false} ObjectRead(ctx: Context, t: Text, p: nat, blank: Text, members: seq<Entry>)
    requires Blank(blank) && AreEntries(members) && EntriesAllowed(ctx, members)
    requires Occurs(t, p, DocText(Object(blank, members)))
    ensures p <= |t| && Parse(ctx, t, p) ==
            Ok(Out(ctx, Obj(EntryValues(members, map[]))), p + |DocText(Object(blank, members))|)
    decreases members, 2
  {
    hide Parse, Occurs, EntriesText, Blank, Expect, ParseMembers, ArePieces;
    var rest := if members == [] then blank + [125] else EntriesText(members);
    OccursSplit(t, p, [123], rest);
    OccursAt(t, p, [123], 0);
    Dispatched(ctx, t, p);
    if members == [] {
      ExpectFinds(t, p + 1, blank, 125);
    } else {
      hide EntryValues;
      MembersBegin(ctx, t, p + 1, members);
      MembersRead(ctx, t, p + 1, members, map[]);
    }
  }

  /** Where a member and what follows it stand. */
  lemma EntryLies(t: Text, p: nat, members: seq<Entry>)
    requires members != [] && AreEntries(members) && Occurs(t, p, EntriesText(members))
    ensures var m := members[0];
            var (k, g, d, a, r) := (KeyText(m), m.gap, DocText(m.doc), m.after, MoreEntries(members));
            && Occurs(t, p, k) && Occurs(t, p + |k|, g) && Occurs(t, p + |k| + |g|, d)
            && Occurs(t, p + |k| + |g| + |d|, a) && Occurs(t, p + |k| + |g| + |d| + |a|, r)
            && |EntriesText(members)| == |k| + |g| + |d| + |a| + |r| && p + |k| + |g| + |d| + |a| < |t|
            && At(t, p + |k| + |g|) == d[0] && d != [] && r != []
            && At(t, p + |k| + |g| + |d| + |a|) == r[0] && (r[0] == 125 || r[0] == 44)
  {
    hide Occurs, DocText, KeyText;
    var m := members[0];
    var (k, g, d, a, r) := (KeyText(m), m.gap, DocText(m.doc), m.after, MoreEntries(members));
    OccursSplit(t, p, k, g + (d + (a + r)));
    OccursSplit(t, p + |k|, g, d + (a + r));
    OccursSplit(t, p + |k| + |g|, d, a + r);
    OccursSplit(t, p + |k| + |g| + |d|, a, r);
    FirstChar(m.doc);
    OccursAt(t, p + |k| + |g|, d, 0);
    OccursAt(t, p + |k| + |g| + |d| + |a|, r, 0);
  }

  lemma KeyLies(t: Text, p: nat, m: Entry)
    requires ArePieces(m.key) && Occurs(t, p, KeyText(m))
    ensures var (b, x) := (m.before, PiecesText(m.key) + [34]);
            && Occurs(t, p, b + [34]) && Occurs(t, p, b) && Occurs(t, p + |b| + 1, x)
            && Occurs(t, p + |b| + 1 + |x|, m.between + [58])
            && At(t, p + |b|) == 34 && |KeyText(m)| == |b| + 1 + |x| + |m.between| + 1
  {
    hide Occurs, PiecesText;
    var (b, x) := (m.before, PiecesText(m.key) + [34]);
    OccursSplit(t, p, b + [34] + x, m.between + [58]);
    OccursSplit(t, p, b + [34], x);
    OccursSplit(t, p, b, [34]);
    OccursAt(t, p + |b|, [34], 0);
  }

  lemma KeyRead(t: Text, p: nat, m: Entry)
    requires ArePieces(m.key) && Blank(m.before) && Blank(m.between) && Occurs(t, p, KeyText(m))
    ensures p <= |t| && ParseKey(t, p) == StrOk(PiecesBytes(m.key), p + |KeyText(m)|)
  {
    hide Occurs, PiecesText, PiecesBytes, KeyText, ParseString, Expect, Blank;
    KeyLies(t, p, m);
    ExpectFinds(t, p, m.before, 34);
    var q := p + |m.before| + 1;
    PiecesRead(t, q, m.key, []);
    assert [] + PiecesBytes(m.key) == PiecesBytes(m.key);
    ExpectFinds(t, q + |PiecesText(m.key)| + 1, m.between, 58);
  }

  lemma MembersBegin(ctx: Context, t: Text, p: nat, members: seq<Entry>)
    requires members != [] && AreEntries(members) && Occurs(t, p, EntriesText(members))
    ensures p <= |t| && ParseObject(ctx, t, p) == ParseMembers(ctx, t, p, map[])
  {
    hide Occurs, DocText, EntriesText, Expect, ParseMembers, Blank, KeyText, PiecesText, ArePieces;
    EntryLies(t, p, members);
    KeyLies(t, p, members[0]);
    var b := members[0].before;
    ExpectMisses(t, p, b, 125);
    BlankSkipped(t, p, b);
    MembersSkip(ctx, t, p, map[]);
  }

  lemma MembersSkip(ctx: Context, t: Text, p: nat, acc: map<Text, Value>)
    requires p <= |t|
    ensures ParseMembers(ctx, t, p, acc) == ParseMembers(ctx, t, SkipWs(t, p), acc)
  {
    hide Parse, ParseString, ParseMember;
    SkipStops(t, SkipWs(t, p), SkipWs(t, p));
  }

  lemma {:induction false} FirstValueRead(ctx: Context, t: Text, p: nat, members: seq<Entry>)
    requires members != [] && AreEntries(members) && EntriesAllowed(ctx, members) && Occurs(t, p, EntriesText(members))
    ensures var (m, q) := (members[0], p + |KeyText(members[0])|);
            q <= |t| && Parse(ctx, t, q) == Ok(Out(ctx, DocValue(m.doc)), q + |m.gap| + |DocText(m.doc)|)
    decreases members, 0
  {
    hide Occurs, DocText, EntriesText, MoreEntries, Parse, Blank, DocValue, KeyText, ArePieces;
    var (m, q) := (members[0], p + |KeyText(members[0])|);
    EntryLies(t, p, members);
    FirstChar(m.doc);
    BlankSkipped(t, q, m.gap);
    ParseSkips(ctx, t, q);
    AfterItem(t, q + |m.gap| + |DocText(m.doc)|, m.after, MoreEntries(members)[0]);
    DocRead(ctx, t, q + |m.gap|, m.doc);
  }

  lemma {:induction false} MembersRead(ctx: Context, t: Text, p: nat, members: seq<Entry>, acc: map<Text, Value>)
    requires members != [] && AreEntries(members) && EntriesAllowed(ctx, members) && Occurs(t, p, EntriesText(members))
    ensures p <= |t| && ParseMembers(ctx, t, p, acc) ==
            Ok(Out(ctx, Obj(WithEntries(ctx, acc, members))), p + |EntriesText(members)|)
    decreases members, 1
  {
    hide Occurs, DocText, EntriesText, Parse, ParseMembers, ParseKey, Expect, Blank, DocValue, KeyText, ArePieces, PiecesBytes;
    var (m, rest) := (members[0], members[1..]);
    var e := p + |KeyText(m)| + |m.gap| + |DocText(m.doc)|;
    EntryLies(t, p, members);
    KeyRead(t, p, m);
    FirstValueRead(ctx, t, p, members);
    MembersUnfold(ctx, t, p, PiecesBytes(m.key), p + |KeyText(m)|, acc);
    var acc' := if ctx.Building? then acc[PiecesBytes(m.key) := DocValue(m.doc)] else acc;
    if |members| == 1 {
      ExpectMisses(t, e, m.after, 44);
      ExpectHere(t, e + |m.after|, 125);
      OneEntry(ctx, acc, members);
    } else {
      OccursSplit(t, e + |m.after|, [44], EntriesText(rest));
      OccursJoin(t, e, m.after, [44]);
      ExpectFinds(t, e, m.after, 44);
      MembersRead(ctx, t, e + |m.after| + 1, rest, acc');
      MoreMembers(ctx, acc, members);
    }
  }

  lemma MembersUnfold(ctx: Context, t: Text, p: nat, key: Text, q: nat, acc: map<Text, Value>)
    requires p <= |t| && ParseKey(t, p) == StrOk(key, q)
    ensures q <= |t| && ParseMembers(ctx, t, p, acc) ==
            var item := Parse(ctx, t, q);
            if !item.Ok? then item
            else
              var acc' := if ctx.Building? then acc[key := item.value] else acc;
              var comma := Expect(t, item.pos, ',' as int);
              if comma.ok then ParseMembers(ctx, t, comma.pos, acc')
              else
                var close := Expect(t, comma.pos, '}' as int);
                if close.ok then Ok(Out(ctx, Obj(acc')), close.pos) else Fail(close.pos)
  {
    hide Parse, Expect, ParseKey;
    assert ParseKey(t, p).pos == q;
  }

  lemma OneEntry(ctx: Context, acc: map<Text, Value>, members: seq<Entry>)
    requires |members| == 1 && AreEntries(members)
    ensures WithEntries(ctx, acc, members) ==
            if ctx.Building? then acc[PiecesBytes(members[0].key) := DocValue(members[0].doc)] else acc
  {
    hide DocValue, PiecesBytes;
    var acc' := acc[PiecesBytes(members[0].key) := DocValue(members[0].doc)];
    assert members[1..] == [];
    assert EntryValues(members, acc) == EntryValues(members[1..], acc') == acc';
  }

  lemma MoreMembers(ctx: Context, acc: map<Text, Value>, members: seq<Entry>)
    requires |members| > 1 && AreEntries(members)
    ensures WithEntries(ctx, acc, members) ==
            WithEntries(ctx, if ctx.Building? then acc[PiecesBytes(members[0].key) := DocValue(members[0].doc)] else acc, members[1..])
  {
    hide DocValue, PiecesBytes;
  }
}

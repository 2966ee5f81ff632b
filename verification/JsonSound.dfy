/** Nothing but documents of the grammar is read; with `JsonComplete`, the parser is the grammar. */
module JsonSound {
  import opened Prelude
  import opened JsonCursor
  import opened JsonGrammar
  import opened JsonContexts
  import opened JsonRoundTrip
  import opened JsonNumbers
  import opened JsonStrings
  import opened JsonDocuments
  import opened JsonComplete

  /** `s` stands in `t` from `p` to `e`. */
  ghost predicate Spans(t: Text, p: nat, e: nat, s: Text) {
    Occurs(t, p, s) && e == p + |s|
  }

  lemma SpansJoin(t: Text, p: nat, q: nat, e: nat, a: Text, b: Text)
    requires Spans(t, p, q, a) && Spans(t, q, e, b)
    ensures Spans(t, p, e, a + b)
  {
    OccursJoin(t, p, a, b);
  }

  lemma SliceSpans(t: Text, p: nat, e: nat)
    requires p <= e <= |t|
    ensures Spans(t, p, e, t[p..e])
  {
  }

  // ---------------------------------------------------------------- white space and single characters

  lemma SkippedIsBlank(t: Text, p: nat) returns (w: Text)
    requires p <= |t|
    ensures Blank(w) && Spans(t, p, SkipWs(t, p), w)
  {
    hide SkipWs;
    w := t[p..SkipWs(t, p)];
    forall i | 0 <= i < |w|
      ensures IsBlank(w[i])
    {
      BlankIsSpace(t[p + i]);
    }
  }

  lemma ExpectedSpans(t: Text, p: nat, ch: byte) returns (w: Text)
    requires p <= |t| && Expect(t, p, ch).ok
    ensures Blank(w) && Spans(t, p, Expect(t, p, ch).pos, w + [ch])
  {
    w := SkippedIsBlank(t, p);
    var q := SkipWs(t, p);
    assert t[q..q + 1] == [ch];
    SpansJoin(t, p, q, q + 1, w, [ch]);
  }

  lemma MissedSpans(t: Text, p: nat, ch: byte) returns (w: Text)
    requires p <= |t| && !Expect(t, p, ch).ok
    ensures Blank(w) && Spans(t, p, Expect(t, p, ch).pos, w)
  {
    w := SkippedIsBlank(t, p);
  }

  lemma BlankJoin(v: Text, w: Text)
    requires Blank(v) && Blank(w)
    ensures Blank(v + w)
  {
  }

  // ---------------------------------------------------------------- documents

  /** The text from `p` to `e` is white space and a document that the context allows. */
  ghost predicate Reads(ctx: Context, t: Text, p: nat, e: nat, blank: Text, doc: Doc) {
    && Blank(blank) && IsDoc(doc) && Allowed(ctx, doc) && Spans(t, p, e, blank + DocText(doc))
    && (doc.Number? ==> !Continues(At(t, e)))
  }

  lemma AfterBlank(ctx: Context, t: Text, p: nat, q: nat, e: nat, w: Text, doc: Doc)
    requires Blank(w) && Spans(t, p, q, w) && Reads(ctx, t, q, e, [], doc)
    ensures Reads(ctx, t, p, e, w, doc)
  {
    hide DocText, IsDoc, Allowed, Blank, Occurs;
    assert [] + DocText(doc) == DocText(doc);
    SpansJoin(t, p, q, e, w, DocText(doc));
  }

  lemma NoBlank(ctx: Context, t: Text, q: nat, e: nat, doc: Doc)
    requires IsDoc(doc) && Allowed(ctx, doc) && Spans(t, q, e, DocText(doc)) && (doc.Number? ==> !Continues(At(t, e)))
    ensures Reads(ctx, t, q, e, [], doc)
  {
    hide DocText, IsDoc, Allowed, Occurs;
    assert [] + DocText(doc) == DocText(doc);
  }

  lemma WordSound(ctx: Context, t: Text, q: nat, rest: Text, v: Value)
    requires q < |t| && Keyword(ctx, t, q, rest, v).Ok?
    ensures Spans(t, q, Keyword(ctx, t, q, rest, v).pos, [t[q]] + rest)
  {
    hide Match;
    assert t[q..q + 1 + |rest|] == [t[q]] + t[q + 1..q + 1 + |rest|];
  }

  lemma CharsSound(ctx: Context, t: Text, q: nat) returns (xs: seq<Piece>)
    requires q < |t| && t[q] == 34 && ParseString(ctx, t, q + 1, []).StrOk?
    ensures ArePieces(xs) && Spans(t, q, ParseString(ctx, t, q + 1, []).pos, [34] + (PiecesText(xs) + [34]))
  {
    hide ParseString, PiecesText, ArePieces;
    StringsAgree(t, q + 1, [], []);
    xs := StringPieces(t, q + 1, []);
    assert t[q..q + 1] == [34];
    OccursJoin(t, q, [34], PiecesText(xs) + [34]);
  }

  /** The value that begins at `q`, which is no white space. */
  lemma {:induction false} ValueSound(ctx: Context, t: Text, q: nat) returns (doc: Doc)
    requires q < |t| && !IsBlank(t[q]) && Parse(ctx, t, q).Ok?
    ensures Reads(ctx, t, q, Parse(ctx, t, q).pos, [], doc)
    decreases |t| - q, 3
  {
    hide Parse, ParseString, ParseArray, ParseObject, ParseNumber, Keyword, Occurs, Reads;
    Dispatched(ctx, t, q);
    OnlyThese(ctx, t, q);
    var e := Parse(ctx, t, q).pos;
    if t[q] == 110 {
      WordSound(ctx, t, q, ULL, Null);
      doc := NullWord;
      assert [t[q]] + ULL == DocText(doc);
      NoBlank(ctx, t, q, e, doc);
    } else if t[q] == 102 {
      WordSound(ctx, t, q, ALSE, Bool(false));
      doc := FalseWord;
      assert [t[q]] + ALSE == DocText(doc);
      NoBlank(ctx, t, q, e, doc);
    } else if t[q] == 116 {
      WordSound(ctx, t, q, RUE, Bool(true));
      doc := TrueWord;
      assert [t[q]] + RUE == DocText(doc);
      NoBlank(ctx, t, q, e, doc);
    } else if t[q] == 34 {
      var xs := CharsSound(ctx, t, q);
      doc := Chars(xs);
      NoBlank(ctx, t, q, e, doc);
    } else if t[q] == 91 {
      doc := ArraySound(ctx, t, q);
    } else if t[q] == 123 {
      doc := ObjectSound(ctx, t, q);
    } else {
      NumberDispatchIn(ctx, t, q);
      var l := NumberIsLiteral(ctx, t, q);
      doc := Number(l);
      NoBlank(ctx, t, q, e, doc);
    }
  }

  /** No other character begins a value. */
  lemma OnlyThese(ctx: Context, t: Text, q: nat)
    requires q < |t| && !IsBlank(t[q]) && Parse(ctx, t, q).Ok?
    ensures t[q] in {110, 102, 116, 34, 91, 123, 45} || 48 <= t[q] <= 57
  {
    hide ParseString, ParseArray, ParseObject, ParseNumber, Keyword;
    SkipStops(t, q, q);
  }

  /** A value and the white space before it. */
  lemma {:induction false} ParseSound(ctx: Context, t: Text, p: nat) returns (blank: Text, doc: Doc)
    requires p <= |t| && Parse(ctx, t, p).Ok?
    ensures Reads(ctx, t, p, Parse(ctx, t, p).pos, blank, doc)
    decreases |t| - p, 4
  {
    hide Parse, Reads, Occurs, Blank, SkipWs;
    blank := SkippedIsBlank(t, p);
    var q := SkipWs(t, p);
    ParseSkips(ctx, t, p);
    BlankIsSpace(At(t, q));
    doc := ValueSound(ctx, t, q);
    AfterBlank(ctx, t, p, q, Parse(ctx, t, p).pos, blank, doc);
  }

  // ---------------------------------------------------------------- arrays

  ghost predicate ItemsSpan(ctx: Context, t: Text, p: nat, e: nat, items: seq<Item>) {
    items != [] && AreItems(items) && ItemsAllowed(ctx, items) && Spans(t, p, e, ItemsText(items))
  }

  lemma {:induction false} ArraySound(ctx: Context, t: Text, q: nat) returns (doc: Doc)
    requires q < |t| && t[q] == 91 && ParseArray(ctx, t, q + 1).Ok? && Parse(ctx, t, q) == ParseArray(ctx, t, q + 1)
    ensures Reads(ctx, t, q, Parse(ctx, t, q).pos, [], doc)
    decreases |t| - q, 2
  {
    hide Parse, ParseItems, Expect, Occurs, Reads, Blank, ItemsSpan;
    assert t[q..q + 1] == [91];
    var close := Expect(t, q + 1, 93);
    if close.ok {
      var w := ExpectedSpans(t, q + 1, 93);
      doc := EmptyArray(ctx, t, q, close.pos, w);
    } else {
      var w := MissedSpans(t, q + 1, 93);
      var items := ItemsSound(ctx, t, close.pos, []);
      doc := FullArray(ctx, t, q, close.pos, Parse(ctx, t, q).pos, w, items);
    }
  }

  lemma EmptyArray(ctx: Context, t: Text, q: nat, e: nat, w: Text) returns (doc: Doc)
    requires q < |t| && t[q] == 91 && Blank(w) && Spans(t, q + 1, e, w + [93])
    ensures Reads(ctx, t, q, e, [], doc)
  {
    assert t[q..q + 1] == [91];
    SpansJoin(t, q, q + 1, e, [91], w + [93]);
    doc := Array(w, []);
    hide Occurs, Blank;
    NoBlank(ctx, t, q, e, doc);
  }

  lemma FullArray(ctx: Context, t: Text, q: nat, p: nat, e: nat, w: Text, items: seq<Item>) returns (doc: Doc)
    requires q < |t| && t[q] == 91 && Blank(w) && Spans(t, q + 1, p, w) && ItemsSpan(ctx, t, p, e, items)
    ensures Reads(ctx, t, q, e, [], doc)
  {
    assert t[q..q + 1] == [91];
    SpansJoin(t, q + 1, p, e, w, ItemsText(items));
    SpansJoin(t, q, q + 1, e, [91], w + ItemsText(items));
    hide Occurs;
    var all := Widened(ctx, w, items);
    doc := Array([], all);
    hide Blank, ItemsText;
    assert DocText(doc) == [91] + ItemsText(all);
    NoBlank(ctx, t, q, e, doc);
  }

  /** White space before the first item is part of it. */
  lemma Widened(ctx: Context, w: Text, items: seq<Item>) returns (all: seq<Item>)
    requires Blank(w) && items != [] && AreItems(items) && ItemsAllowed(ctx, items)
    ensures all != [] && AreItems(all) && ItemsAllowed(ctx, all) && ItemsText(all) == w + ItemsText(items)
  {
    hide DocText, IsDoc;
    var (i, rest) := (items[0], items[1..]);
    BlankJoin(w, i.before);
    all := [Item(w + i.before, i.doc, i.after)] + rest;
    assert all[1..] == rest;
    hide Blank;
    assert MoreItems(all) == MoreItems(items);
    var tail := DocText(i.doc) + (i.after + MoreItems(items));
    hide MoreItems;
    assert ItemsText(items) == i.before + tail && ItemsText(all) == (w + i.before) + tail;
    hide ItemsText;
    Assoc(w, i.before, tail);
  }

  lemma {:induction false} ItemsSound(ctx: Context, t: Text, p: nat, acc: seq<Value>) returns (items: seq<Item>)
    requires p <= |t| && ParseItems(ctx, t, p, acc).Ok?
    ensures ItemsSpan(ctx, t, p, ParseItems(ctx, t, p, acc).pos, items)
    decreases |t| - p, 5
  {
    hide Parse, ParseItems, Expect, Reads, Occurs, ItemsSpan, Blank;
    ItemsUnfold(ctx, t, p, acc);
    var item := Parse(ctx, t, p);
    var blank, doc := ParseSound(ctx, t, p);
    var acc' := if ctx.Building? then acc + [item.value] else acc;
    var comma := Expect(t, item.pos, 44);
    if comma.ok {
      var w := ExpectedSpans(t, item.pos, 44);
      var rest := ItemsSound(ctx, t, comma.pos, acc');
      items := MoreItemsSpan(ctx, t, p, item.pos, comma.pos, ParseItems(ctx, t, p, acc).pos, blank, doc, w, rest);
    } else {
      var v := MissedSpans(t, item.pos, 44);
      var w := ExpectedSpans(t, comma.pos, 93);
      items := LastItemSpans(ctx, t, p, item.pos, comma.pos, Expect(t, comma.pos, 93).pos, blank, doc, v, w);
    }
  }

  lemma ItemSpans(ctx: Context, t: Text, p: nat, q: nat, e: nat, blank: Text, doc: Doc, w: Text, r: Text)
    requires Reads(ctx, t, p, q, blank, doc) && Spans(t, q, e, w + r)
    ensures Spans(t, p, e, blank + (DocText(doc) + (w + r)))
  {
    hide DocText, IsDoc, Allowed, Occurs, Blank;
    SpansJoin(t, p, q, e, blank + DocText(doc), w + r);
    Assoc(blank, DocText(doc), w + r);
  }

  lemma LastItemSpans(ctx: Context, t: Text, p: nat, q: nat, c: nat, e: nat, blank: Text, doc: Doc, v: Text, w: Text)
    returns (items: seq<Item>)
    requires Reads(ctx, t, p, q, blank, doc) && Blank(v) && Blank(w) && Spans(t, q, c, v) && Spans(t, c, e, w + [93])
    ensures ItemsSpan(ctx, t, p, e, items)
  {
    hide DocText, IsDoc, Allowed, Occurs;
    BlankJoin(v, w);
    SpansJoin(t, q, c, e, v, w + [93]);
    Assoc(v, w, [93]);
    ItemSpans(ctx, t, p, q, e, blank, doc, v + w, [93]);
    items := [Item(blank, doc, v + w)];
    assert AreItems(items);
    assert ItemsAllowed(ctx, items);
    assert ItemsText(items) == blank + (DocText(doc) + (v + w + [93]));
  }

  lemma MoreItemsSpan(ctx: Context, t: Text, p: nat, q: nat, c: nat, e: nat, blank: Text, doc: Doc, w: Text, rest: seq<Item>)
    returns (items: seq<Item>)
    requires Reads(ctx, t, p, q, blank, doc) && Blank(w) && Spans(t, q, c, w + [44]) && ItemsSpan(ctx, t, c, e, rest)
    ensures ItemsSpan(ctx, t, p, e, items)
  {
    hide DocText, IsDoc, Allowed, Occurs, Blank;
    SpansJoin(t, q, c, e, w + [44], ItemsText(rest));
    Assoc(w, [44], ItemsText(rest));
    ItemSpans(ctx, t, p, q, e, blank, doc, w, [44] + ItemsText(rest));
    items := [Item(blank, doc, w)] + rest;
    assert items[1..] == rest;
    assert AreItems(items);
    assert ItemsAllowed(ctx, items);
    assert ItemsText(items) == blank + (DocText(doc) + (w + ([44] + ItemsText(rest))));
  }

  // ---------------------------------------------------------------- objects

  ghost predicate EntriesSpan(ctx: Context, t: Text, p: nat, e: nat, members: seq<Entry>) {
    members != [] && AreEntries(members) && EntriesAllowed(ctx, members) && Spans(t, p, e, EntriesText(members))
  }

  /** A key with its colon, and the white space around it. */
  ghost predicate KeySpans(t: Text, p: nat, e: nat, before: Text, key: seq<Piece>, between: Text) {
    && Blank(before) && ArePieces(key) && Blank(between)
    && Spans(t, p, e, before + [34] + (PiecesText(key) + [34]) + (between + [58]))
  }

  lemma KeySound(t: Text, p: nat) returns (before: Text, key: seq<Piece>, between: Text)
    requires p <= |t| && ParseKey(t, p).StrOk?
    ensures KeySpans(t, p, ParseKey(t, p).pos, before, key, between)
  {
    hide Expect, ParseString, Occurs, Blank, PiecesText, ArePieces;
    var open := Expect(t, p, 34);
    before := ExpectedSpans(t, p, 34);
    key := StringPieces(t, open.pos, []);
    var s := ParseString(Building, t, open.pos, []);
    between := ExpectedSpans(t, s.pos, 58);
    SpansJoin(t, p, open.pos, s.pos, before + [34], PiecesText(key) + [34]);
    SpansJoin(t, p, s.pos, Expect(t, s.pos, 58).pos, before + [34] + (PiecesText(key) + [34]), between + [58]);
  }

  lemma {:induction false} ObjectSound(ctx: Context, t: Text, q: nat) returns (doc: Doc)
    requires q < |t| && t[q] == 123 && ParseObject(ctx, t, q + 1).Ok? && Parse(ctx, t, q) == ParseObject(ctx, t, q + 1)
    ensures Reads(ctx, t, q, Parse(ctx, t, q).pos, [], doc)
    decreases |t| - q, 2
  {
    hide Parse, ParseMembers, Expect, Occurs, Reads, Blank, EntriesSpan;
    var close := Expect(t, q + 1, 125);
    if close.ok {
      var w := ExpectedSpans(t, q + 1, 125);
      doc := EmptyObject(ctx, t, q, close.pos, w);
    } else {
      var w := MissedSpans(t, q + 1, 125);
      var members := MembersSound(ctx, t, close.pos, map[]);
      doc := FullObject(ctx, t, q, close.pos, Parse(ctx, t, q).pos, w, members);
    }
  }

  lemma EmptyObject(ctx: Context, t: Text, q: nat, e: nat, w: Text) returns (doc: Doc)
    requires q < |t| && t[q] == 123 && Blank(w) && Spans(t, q + 1, e, w + [125])
    ensures Reads(ctx, t, q, e, [], doc)
  {
    assert t[q..q + 1] == [123];
    SpansJoin(t, q, q + 1, e, [123], w + [125]);
    doc := Object(w, []);
    hide Occurs, Blank;
    NoBlank(ctx, t, q, e, doc);
  }

  lemma FullObject(ctx: Context, t: Text, q: nat, p: nat, e: nat, w: Text, members: seq<Entry>) returns (doc: Doc)
    requires q < |t| && t[q] == 123 && Blank(w) && Spans(t, q + 1, p, w) && EntriesSpan(ctx, t, p, e, members)
    ensures Reads(ctx, t, q, e, [], doc)
  {
    assert t[q..q + 1] == [123];
    SpansJoin(t, q + 1, p, e, w, EntriesText(members));
    SpansJoin(t, q, q + 1, e, [123], w + EntriesText(members));
    hide Occurs;
    var all := WidenedEntries(ctx, w, members);
    doc := Object([], all);
    hide Blank, EntriesText, ArePieces;
    assert DocText(doc) == [123] + EntriesText(all);
    NoBlank(ctx, t, q, e, doc);
  }

  lemma WidenedEntries(ctx: Context, w: Text, members: seq<Entry>) returns (all: seq<Entry>)
    requires Blank(w) && members != [] && AreEntries(members) && EntriesAllowed(ctx, members)
    ensures all != [] && AreEntries(all) && EntriesAllowed(ctx, all) && EntriesText(all) == w + EntriesText(members)
  {
    hide DocText, IsDoc, PiecesText, ArePieces;
    var (m, rest) := (members[0], members[1..]);
    BlankJoin(w, m.before);
    var m' := Entry(w + m.before, m.key, m.between, m.gap, m.doc, m.after);
    all := [m'] + rest;
    assert all[1..] == rest;
    hide Blank;
    assert MoreEntries(all) == MoreEntries(members);
    WidenedKey(w, m);
    var tail := m.gap + (DocText(m.doc) + (m.after + MoreEntries(members)));
    hide MoreEntries, KeyText;
    assert EntriesText(members) == KeyText(m) + tail && EntriesText(all) == KeyText(m') + tail;
    hide EntriesText;
    Assoc(w, KeyText(m), tail);
  }

  lemma WidenedKey(w: Text, m: Entry)
    requires ArePieces(m.key)
    ensures KeyText(Entry(w + m.before, m.key, m.between, m.gap, m.doc, m.after)) == w + KeyText(m)
  {
    hide PiecesText, ArePieces;
    var (k, c) := (PiecesText(m.key) + [34], m.between + [58]);
    Assoc(w, m.before, [34]);
    Assoc(w, m.before + [34], k);
    Assoc(w, m.before + [34] + k, c);
  }

  lemma {:induction false} MembersSound(ctx: Context, t: Text, p: nat, acc: map<Text, Value>) returns (members: seq<Entry>)
    requires p <= |t| && ParseMembers(ctx, t, p, acc).Ok?
    ensures EntriesSpan(ctx, t, p, ParseMembers(ctx, t, p, acc).pos, members)
    decreases |t| - p, 5
  {
    SomeKey(ctx, t, p, acc);
    hide Parse, ParseMembers, ParseKey, Expect, Reads, Occurs, EntriesSpan, Blank, KeySpans;
    var before, key, between := KeySound(t, p);
    var (s, q) := (ParseKey(t, p).s, ParseKey(t, p).pos);
    MembersUnfold(ctx, t, p, s, q, acc);
    var item := Parse(ctx, t, q);
    var gap, doc := ParseSound(ctx, t, q);
    var acc' := if ctx.Building? then acc[s := item.value] else acc;
    var m := Entry(before, key, between, gap, doc, []);
    var comma := Expect(t, item.pos, 44);
    if comma.ok {
      var w := ExpectedSpans(t, item.pos, 44);
      var rest := MembersSound(ctx, t, comma.pos, acc');
      members := MoreEntriesSpan(ctx, t, p, q, item.pos, comma.pos, ParseMembers(ctx, t, p, acc).pos, m, w, rest);
    } else {
      var v := MissedSpans(t, item.pos, 44);
      var w := ExpectedSpans(t, comma.pos, 125);
      members := LastEntrySpans(ctx, t, p, q, item.pos, comma.pos, Expect(t, comma.pos, 125).pos, m, v, w);
    }
  }

  lemma SomeKey(ctx: Context, t: Text, p: nat, acc: map<Text, Value>)
    requires p <= |t| && ParseMembers(ctx, t, p, acc).Ok?
    ensures ParseKey(t, p).StrOk?
  {
    hide ParseKey;
  }

  lemma EntrySpans(ctx: Context, t: Text, p: nat, k: nat, q: nat, e: nat, m: Entry, w: Text, r: Text)
    requires KeySpans(t, p, k, m.before, m.key, m.between) && Reads(ctx, t, k, q, m.gap, m.doc) && Spans(t, q, e, w + r)
    ensures Spans(t, p, e, KeyText(m) + (m.gap + (DocText(m.doc) + (w + r))))
  {
    hide DocText, IsDoc, Allowed, Occurs, Blank, PiecesText, ArePieces;
    ItemSpans(ctx, t, k, q, e, m.gap, m.doc, w, r);
    SpansJoin(t, p, k, e, KeyText(m), m.gap + (DocText(m.doc) + (w + r)));
  }

  lemma LastEntrySpans(ctx: Context, t: Text, p: nat, k: nat, q: nat, c: nat, e: nat, m: Entry, v: Text, w: Text)
    returns (members: seq<Entry>)
    requires KeySpans(t, p, k, m.before, m.key, m.between) && Reads(ctx, t, k, q, m.gap, m.doc)
    requires Blank(v) && Blank(w) && Spans(t, q, c, v) && Spans(t, c, e, w + [125])
    ensures EntriesSpan(ctx, t, p, e, members)
  {
    hide DocText, IsDoc, Allowed, Occurs, PiecesText, ArePieces;
    BlankJoin(v, w);
    hide Blank;
    SpansJoin(t, q, c, e, v, w + [125]);
    Assoc(v, w, [125]);
    var m' := Entry(m.before, m.key, m.between, m.gap, m.doc, v + w);
    EntrySpans(ctx, t, p, k, q, e, m', v + w, [125]);
    members := [m'];
    assert AreEntries(members);
    assert EntriesAllowed(ctx, members);
    assert EntriesText(members) == KeyText(m') + (m.gap + (DocText(m.doc) + (v + w + [125])));
  }

  lemma MoreEntriesSpan(ctx: Context, t: Text, p: nat, k: nat, q: nat, c: nat, e: nat, m: Entry, w: Text, rest: seq<Entry>)
    returns (members: seq<Entry>)
    requires KeySpans(t, p, k, m.before, m.key, m.between) && Reads(ctx, t, k, q, m.gap, m.doc)
    requires Blank(w) && Spans(t, q, c, w + [44]) && EntriesSpan(ctx, t, c, e, rest)
    ensures EntriesSpan(ctx, t, p, e, members)
  {
    hide DocText, IsDoc, Allowed, Occurs, Blank, PiecesText, ArePieces;
    SpansJoin(t, q, c, e, w + [44], EntriesText(rest));
    Assoc(w, [44], EntriesText(rest));
    var m' := Entry(m.before, m.key, m.between, m.gap, m.doc, w);
    EntrySpans(ctx, t, p, k, q, e, m', w, [44] + EntriesText(rest));
    members := [m'] + rest;
    assert members[1..] == rest;
    assert AreEntries(members);
    assert EntriesAllowed(ctx, members);
    assert EntriesText(members) == KeyText(m') + (m.gap + (DocText(m.doc) + (w + ([44] + EntriesText(rest)))));
  }

  // ---------------------------------------------------------------- the parser is the grammar

  lemma ReadsIsDerives(ctx: Context, t: Text, p: nat, e: nat, blank: Text, doc: Doc)
    ensures Reads(ctx, t, p, e, blank, doc) <==> Derives(ctx, t, p, e, blank, doc)
  {
    hide DocText, IsDoc, Allowed, Blank;
    if Derives(ctx, t, p, e, blank, doc) {
      SliceSpans(t, p, e);
    }
    if Reads(ctx, t, p, e, blank, doc) {
      assert t[p..e] == blank + DocText(doc);
    }
  }

  /** A derivation leads to its value. */
  lemma DerivedValue(ctx: Context, t: Text, p: nat, e: nat, blank: Text, doc: Doc)
    requires Derives(ctx, t, p, e, blank, doc)
    ensures Parse(ctx, t, p) == Ok(Out(ctx, DocValue(doc)), e)
  {
    ReadsIsDerives(ctx, t, p, e, blank, doc);
    hide Derives, Parse, DocText, IsDoc, Allowed, Blank, Occurs, DocValue;
    OccursSplit(t, p, blank, DocText(doc));
    FirstChar(doc);
    OccursAt(t, p + |blank|, DocText(doc), 0);
    BlankSkipped(t, p, blank);
    ParseSkips(ctx, t, p);
    DocRead(ctx, t, p + |blank|, doc);
  }

  /**
   The parser accepts from `p` to `e` exactly when that stretch is white space and a document,
   and the value it builds is the one the document denotes.
   */
  lemma ParserIsGrammar(ctx: Context, t: Text, p: nat, e: nat)
    requires p <= |t|
    ensures (Parse(ctx, t, p).Ok? && Parse(ctx, t, p).pos == e) <==>
            exists blank, doc :: Derives(ctx, t, p, e, blank, doc)
    ensures forall blank, doc | Derives(ctx, t, p, e, blank, doc) :: Parse(ctx, t, p) == Ok(Out(ctx, DocValue(doc)), e)
  {
    hide Parse, DocValue, DocText, Allowed, Blank;
    if Parse(ctx, t, p).Ok? && Parse(ctx, t, p).pos == e {
      var blank, doc := ParseSound(ctx, t, p);
      ReadsIsDerives(ctx, t, p, e, blank, doc);
    }
    forall blank, doc | Derives(ctx, t, p, e, blank, doc)
      ensures Parse(ctx, t, p) == Ok(Out(ctx, DocValue(doc)), e)
    {
      DerivedValue(ctx, t, p, e, blank, doc);
    }
  }
}

/**
 Which texts are JSON (sections 2 to 5 of RFC 8259), written as a grammar that mentions no
 function of the parser: white space anywhere between tokens, the three words, numbers, strings,
 arrays and objects.
 */
module JsonDocuments {
  import opened JsonCursor
  import opened JsonGrammar
  import opened JsonNumbers
  import opened JsonStrings

  datatype Doc =
    | NullWord
    | TrueWord
    | FalseWord
    | Number(literal: Literal)
    | Chars(pieces: seq<Piece>)
    | Array(blank: Text, items: seq<Item>)
    | Object(blank: Text, members: seq<Entry>)

  /** An array item with the white space around it. */
  datatype Item = Item(before: Text, doc: Doc, after: Text)

  /** An object member with the white space around its key, its colon and its value. */
  datatype Entry = Entry(before: Text, key: seq<Piece>, between: Text, gap: Text, doc: Doc, after: Text)

  /** Space, tab, line feed, carriage return. */
  predicate IsBlank(ch: int) {
    ch == 32 || ch == 9 || ch == 10 || ch == 13
  }

  ghost predicate Blank(w: Text) {
    forall i | 0 <= i < |w| :: IsBlank(w[i])
  }

  ghost predicate IsDoc(doc: Doc) {
    match doc
    case Number(l) => IsLiteral(l) && Begins(l)
    case Chars(xs) => ArePieces(xs)
    case Array(blank, items) =>
      Blank(blank) && forall i | 0 <= i < |items| ::
                        Blank(items[i].before) && IsDoc(items[i].doc) && Blank(items[i].after)
    case Object(blank, members) =>
      Blank(blank) && forall i | 0 <= i < |members| ::
                        && Blank(members[i].before) && ArePieces(members[i].key) && Blank(members[i].between)
                        && Blank(members[i].gap) && IsDoc(members[i].doc) && Blank(members[i].after)
    case _ => true
  }

  ghost predicate AreItems(items: seq<Item>) {
    forall i | 0 <= i < |items| :: Blank(items[i].before) && IsDoc(items[i].doc) && Blank(items[i].after)
  }

  ghost predicate AreEntries(members: seq<Entry>) {
    forall i | 0 <= i < |members| ::
      && Blank(members[i].before) && ArePieces(members[i].key) && Blank(members[i].between)
      && Blank(members[i].gap) && IsDoc(members[i].doc) && Blank(members[i].after)
  }

  // ---------------------------------------------------------------- texts

  ghost function DocText(doc: Doc): Text
    requires IsDoc(doc)
    decreases doc, 1
  {
    match doc
    case NullWord => [110, 117, 108, 108]
    case TrueWord => [116, 114, 117, 101]
    case FalseWord => [102, 97, 108, 115, 101]
    case Number(l) => LiteralText(l)
    case Chars(xs) => [34] + (PiecesText(xs) + [34])
    case Array(blank, items) => [91] + if items == [] then blank + [93] else ItemsText(items)
    case Object(blank, members) => [123] + if members == [] then blank + [125] else EntriesText(members)
  }

  /** Items separated by commas, with the closing bracket. */
  ghost function ItemsText(items: seq<Item>): Text
    requires items != [] && AreItems(items)
    decreases items, 0
  {
    items[0].before + (DocText(items[0].doc) + (items[0].after + MoreItems(items)))
  }

  ghost function MoreItems(items: seq<Item>): Text
    requires items != [] && AreItems(items)
    decreases items[1..], 1
  {
    if |items| == 1 then [93] else [44] + ItemsText(items[1..])
  }

  /** Members separated by commas, with the closing bracket. */
  ghost function EntriesText(members: seq<Entry>): Text
    requires members != [] && AreEntries(members)
    decreases members, 0
  {
    var m := members[0];
    KeyText(m) + (m.gap + (DocText(m.doc) + (m.after + MoreEntries(members))))
  }

  /** White space, the quoted key, white space and the colon. */
  ghost function KeyText(m: Entry): Text
    requires ArePieces(m.key)
  {
    m.before + [34] + (PiecesText(m.key) + [34]) + (m.between + [58])
  }

  ghost function MoreEntries(members: seq<Entry>): Text
    requires members != [] && AreEntries(members)
    decreases members[1..], 1
  {
    if |members| == 1 then [125] else [44] + EntriesText(members[1..])
  }

  // ---------------------------------------------------------------- values

  ghost function DocValue(doc: Doc): Value
    requires IsDoc(doc)
    decreases doc, 1
  {
    match doc
    case NullWord => Null
    case TrueWord => Bool(true)
    case FalseWord => Bool(false)
    case Number(l) => NumberOf(l)
    case Chars(xs) => Str(PiecesBytes(xs))
    case Array(_, items) => Arr(ItemValues(items))
    case Object(_, members) => Obj(EntryValues(members, map[]))
  }

  ghost function ItemValues(items: seq<Item>): seq<Value>
    requires AreItems(items)
    decreases items, 0
  {
    if items == [] then [] else [DocValue(items[0].doc)] + ItemValues(items[1..])
  }

  /** A later member replaces an earlier one with the same key. */
  ghost function EntryValues(members: seq<Entry>, acc: map<Text, Value>): map<Text, Value>
    requires AreEntries(members)
    decreases members, 0
  {
    if members == [] then acc
    else EntryValues(members[1..], acc[PiecesBytes(members[0].key) := DocValue(members[0].doc)])
  }

  /** No number in it rounds to infinity. */
  ghost predicate Finite(doc: Doc)
    requires IsDoc(doc)
  {
    match doc
    case Number(l) => !Infinite(l)
    case Array(_, items) => forall i | 0 <= i < |items| :: Finite(items[i].doc)
    case Object(_, members) => forall i | 0 <= i < |members| :: Finite(members[i].doc)
    case _ => true
  }

  /** What the parser may not meet: in the building context an infinite number. */
  ghost predicate Allowed(ctx: Context, doc: Doc)
    requires IsDoc(doc)
  {
    ctx.Building? ==> Finite(doc)
  }

  /** The first character of a document is no white space and closes nothing. */
  lemma FirstChar(doc: Doc)
    requires IsDoc(doc)
    ensures DocText(doc) != [] && !IsBlank(DocText(doc)[0])
    ensures DocText(doc)[0] != 93 && DocText(doc)[0] != 125 && DocText(doc)[0] != 44
  {
    if doc.Number? {
      BeginsIff(doc.literal);
    }
  }

  /**
   The text from `p` to `e` is white space and a document, and if that is a number, the text
   does not go on with a character of a number.
   */
  ghost predicate Derives(ctx: Context, t: Text, p: nat, e: nat, blank: Text, doc: Doc) {
    && IsDoc(doc) && Allowed(ctx, doc) && Blank(blank)
    && p <= e <= |t| && t[p..e] == blank + DocText(doc)
    && (doc.Number? ==> !Continues(At(t, e)))
  }
}

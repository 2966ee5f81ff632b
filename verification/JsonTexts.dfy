/** The texts the serializer writes, byte for byte. */
module JsonTexts {
  import opened JsonCursor
  import opened JsonGrammar
  import opened Prelude
  import opened JsonSerializer
  import opened JsonRoundTrip
  import opened JsonNumbers
  import opened JsonStrings
  import Docs = JsonDocuments
  import opened JsonDocuments

  /** Every byte of a string, as it is written. */
  lemma EscapeLiterals(c: byte)
    ensures Escape(34) == [92, 34] && Escape(92) == [92, 92] && Escape(47) == [92, 47]
    ensures Escape(8) == [92, 98] && Escape(12) == [92, 102] && Escape(10) == [92, 110]
    ensures Escape(13) == [92, 114] && Escape(9) == [92, 116] && Escape(127) == [92, 117, 48, 48, 55, 102]
    ensures c < 32 && c !in {8, 9, 10, 12, 13} ==>
            Escape(c) == [92, 117, 48, 48, if c < 16 then 48 else 49, if c % 16 < 10 then 48 + c % 16 else 87 + c % 16]
    ensures c >= 32 && c !in {34, 47, 92, 127} ==> Escape(c) == [c]
  {
  }

  /** A line break is a line feed and two spaces for each level; compact text has none. */
  lemma BreakLiteral(indent: int)
    requires indent >= -1
    ensures indent == -1 ==> Break(indent) == [] && Colon(indent) == [58]
    ensures indent >= 0 ==>
            && |Break(indent)| == 1 + 2 * indent && Break(indent)[0] == 10
            && (forall i | 1 <= i < |Break(indent)| :: Break(indent)[i] == 32) && Colon(indent) == [58, 32]
  {
    if indent >= 0 {
      SpacesLiteral(2 * indent);
    }
  }

  lemma {:induction false} SpacesLiteral(n: nat)
    ensures |Spaces(n)| == n && forall i | 0 <= i < n :: Spaces(n)[i] == 32
  {
    if n > 0 {
      SpacesLiteral(n - 1);
    }
  }

  // ---------------------------------------------------------------- the layout of a value

  /** A line feed and two spaces for each level, or nothing in compact mode. */
  ghost function NewLine(indent: int): Text
    requires indent >= -1
  {
    if indent == -1 then [] else [10] + seq(2 * indent, _ => 32)
  }

  lemma NewLineIsBreak(indent: int)
    requires indent >= -1
    ensures NewLine(indent) == Break(indent) && Blank(NewLine(indent))
  {
    BreakLiteral(indent);
  }

  ghost function Deeper(indent: int): int {
    if indent == -1 then -1 else indent + 1
  }

  ghost function PieceOf(c: byte): (x: Piece)
    ensures IsPiece(x)
  {
    if c in {34, 47, 92} then Short(c)
    else if c == 8 then Short(98)
    else if c == 9 then Short(116)
    else if c == 10 then Short(110)
    else if c == 12 then Short(102)
    else if c == 13 then Short(114)
    else if c < 32 || c == 127 then Unicode(Quad(Hex(0, false), Hex(0, false), Hex(c / 16, false), Hex(c % 16, false)))
    else Plain(c)
  }

  ghost function PiecesOf(s: Text): (xs: seq<Piece>)
    ensures ArePieces(xs)
  {
    if s == [] then [] else [PieceOf(s[0])] + PiecesOf(s[1..])
  }

  lemma {:induction false} PiecesOfText(s: Text)
    ensures PiecesText(PiecesOf(s)) == EscapeAll(s)
  {
    if s != [] {
      PiecesOfText(s[1..]);
      assert PiecesOf(s)[1..] == PiecesOf(s[1..]);
      PieceOfText(s[0]);
    }
  }

  lemma PieceOfText(c: byte)
    ensures PieceText(PieceOf(c)) == Escape(c)
  {
  }

  /** The shortest literal of an integer. */
  ghost function IntegerLiteral(i: int): Literal {
    Literal(if i < 0 then [45] else [], DigitsText(if i < 0 then -i else i), false, [], NoPower)
  }

  lemma IntegerLiteralText(i: int)
    ensures Standard(IntegerLiteral(i)) && Begins(IntegerLiteral(i))
    ensures IntegerValue(IntegerLiteral(i)) == i && LiteralText(IntegerLiteral(i)) == IntText(i)
  {
    var n := if i < 0 then -i else i;
    DigitsRoundTrip(n);
    NoLeadingZero(n);
    hide DigitsText;
  }

  lemma {:induction false} NoLeadingZero(n: nat)
    ensures DigitsText(n) != [] && (DigitsText(n)[0] == 48 ==> n == 0 && |DigitsText(n)| == 1)
  {
    if n >= 10 {
      NoLeadingZero(n / 10);
    }
  }

  /** The document a tree is written as: no white space in compact mode, one line per part otherwise. */
  ghost function Layout(tree: Tree, indent: int): Doc
    requires indent >= -1
    decreases tree
  {
    match tree
    case TNull => NullWord
    case TBool(b) => if b then TrueWord else FalseWord
    case TInt(i) => Number(IntegerLiteral(i))
    case TStr(s) => Chars(PiecesOf(s))
    case TArr(items) => Array([], LayoutItems(items, 0, indent))
    case TObj(members) => Object([], LayoutMembers(members, 0, indent))
  }

  ghost function LayoutItems(items: seq<Tree>, k: nat, indent: int): (r: seq<Item>)
    requires k <= |items| && indent >= -1
    ensures |r| == |items| - k
    decreases items, |items| - k
  {
    if k == |items| then []
    else
      [Item(NewLine(Deeper(indent)), Layout(items[k], Deeper(indent)), if k + 1 == |items| then NewLine(indent) else [])]
      + LayoutItems(items, k + 1, indent)
  }

  ghost function LayoutMembers(members: seq<Member>, k: nat, indent: int): (r: seq<Entry>)
    requires k <= |members| && indent >= -1
    ensures |r| == |members| - k
    decreases members, |members| - k
  {
    if k == |members| then []
    else
      [Entry(NewLine(Deeper(indent)), PiecesOf(members[k].key), [], if indent == -1 then [] else [32],
             Layout(members[k].value, Deeper(indent)), if k + 1 == |members| then NewLine(indent) else [])]
      + LayoutMembers(members, k + 1, indent)
  }

  /** What the serializer writes is the text of that document. */
  lemma {:induction false} TextIsLayout(tree: Tree, indent: int)
    requires indent >= -1
    ensures IsDoc(Layout(tree, indent)) && DocText(Layout(tree, indent)) == Own(tree, indent)
    decreases tree, 1
  {
    hide NewLine, PiecesOf, PiecesText, EscapeAll, IntegerLiteral, LiteralText, IntText, ArePieces, Blank;
    match tree
    case TInt(i) => IntegerLiteralText(i);
    case TStr(s) => PiecesOfText(s);
    case TArr(items) =>
      NothingIsBlank();
      ItemsLayout(items, 0, indent);
    case TObj(members) =>
      NothingIsBlank();
      MembersLayout(members, 0, indent);
    case _ =>
  }

  lemma NothingIsBlank()
    ensures Blank([]) && Blank([32])
  {
  }

  lemma {:induction false} ItemsLayout(items: seq<Tree>, k: nat, indent: int)
    requires k <= |items| && indent >= -1
    ensures AreItems(LayoutItems(items, k, indent))
    ensures k < |items| ==> Docs.ItemsText(LayoutItems(items, k, indent)) == ItemText(items, k, indent)
    decreases items, 0, |items| - k
  {
    if k < |items| {
      TextIsLayout(items[k], Deeper(indent));
      ItemsLayout(items, k + 1, indent);
      ItemLayout(items, k, indent);
    }
  }

  lemma ItemLayout(items: seq<Tree>, k: nat, indent: int)
    requires k < |items| && indent >= -1
    requires IsDoc(Layout(items[k], Deeper(indent))) && DocText(Layout(items[k], Deeper(indent))) == Own(items[k], Inner(indent))
    requires AreItems(LayoutItems(items, k + 1, indent))
    requires k + 1 < |items| ==> Docs.ItemsText(LayoutItems(items, k + 1, indent)) == ItemText(items, k + 1, indent)
    ensures AreItems(LayoutItems(items, k, indent))
    ensures Docs.ItemsText(LayoutItems(items, k, indent)) == ItemText(items, k, indent)
  {
    NothingIsBlank();
    NewLineIsBreak(indent);
    NewLineIsBreak(Deeper(indent));
    hide NewLine, Break, DocText, Own, IsDoc, Layout, Blank;
    var (all, rest) := (LayoutItems(items, k, indent), LayoutItems(items, k + 1, indent));
    assert all[1..] == rest;
    if k + 1 < |items| {
      assert [] + ([44] + ItemText(items, k + 1, indent)) == [44] + ItemText(items, k + 1, indent);
    }
  }

  lemma {:induction false} MembersLayout(members: seq<Member>, k: nat, indent: int)
    requires k <= |members| && indent >= -1
    ensures AreEntries(LayoutMembers(members, k, indent))
    ensures k < |members| ==> EntriesText(LayoutMembers(members, k, indent)) == MemberText(members, k, indent)
    decreases members, 0, |members| - k
  {
    if k < |members| {
      TextIsLayout(members[k].value, Deeper(indent));
      MembersLayout(members, k + 1, indent);
      MemberLayout(members, k, indent);
    }
  }

  lemma MemberLayout(members: seq<Member>, k: nat, indent: int)
    requires k < |members| && indent >= -1
    requires var v := members[k].value;
             IsDoc(Layout(v, Deeper(indent))) && DocText(Layout(v, Deeper(indent))) == Own(v, Inner(indent))
    requires AreEntries(LayoutMembers(members, k + 1, indent))
    requires k + 1 < |members| ==> EntriesText(LayoutMembers(members, k + 1, indent)) == MemberText(members, k + 1, indent)
    ensures AreEntries(LayoutMembers(members, k, indent))
    ensures EntriesText(LayoutMembers(members, k, indent)) == MemberText(members, k, indent)
  {
    NothingIsBlank();
    NewLineIsBreak(indent);
    NewLineIsBreak(Deeper(indent));
    KeyLayout(members[k], indent);
    hide NewLine, Break, DocText, Own, IsDoc, Layout, Blank, KeyText, PiecesOf, StringText, Colon, ArePieces;
    var (all, rest) := (LayoutMembers(members, k, indent), LayoutMembers(members, k + 1, indent));
    assert all[1..] == rest;
    var (m, v) := (all[0], DocText(all[0].doc));
    var tail := MembersText(members, k + 1, indent);
    assert m.after + MoreEntries(all) == tail;
    hide MembersText, MoreEntries;
    Rejoin(Break(Inner(indent)), StringText(members[k].key), Colon(indent), m.gap, KeyText(m), v + tail);
  }

  lemma KeyLayout(x: Member, indent: int)
    requires indent >= -1
    ensures var gap := if indent == -1 then [] else [32];
            forall m: Entry | m.before == Break(Inner(indent)) && m.key == PiecesOf(x.key) && m.between == [] && m.gap == gap ::
              KeyText(m) + gap == Break(Inner(indent)) + StringText(x.key) + Colon(indent)
  {
    PiecesOfText(x.key);
    hide PiecesText, PiecesOf, EscapeAll, Break, ArePieces;
    var gap := if indent == -1 then [] else [32];
    forall m: Entry | m.before == Break(Inner(indent)) && m.key == PiecesOf(x.key) && m.between == [] && m.gap == gap
      ensures KeyText(m) + gap == Break(Inner(indent)) + StringText(x.key) + Colon(indent)
    {
      assert m.between + [58] == [58] && [58] + gap == Colon(indent);
      var k := PiecesText(m.key) + [34];
      assert KeyText(m) + gap == m.before + ([34] + k) + ([58] + gap);
    }
  }

  lemma Rejoin(b: Text, s: Text, c: Text, gap: Text, key: Text, tail: Text)
    requires key + gap == b + s + c
    ensures key + (gap + tail) == b + (s + (c + tail))
  {
    Assoc(key, gap, tail);
    Assoc(b + s, c, tail);
    Assoc(b, s, c + tail);
  }

  /** The end of a pretty-printed document is a line feed; compact text ends with the value. */
  lemma EndLiteral(tree: Tree)
    ensures FullText(tree, 0) == Own(tree, 0) + [10] && FullText(tree, -1) == Own(tree, -1)
  {
    hide Own;
    assert Own(tree, -1) + [] == Own(tree, -1);
  }
}

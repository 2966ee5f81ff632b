/**
 Which strings there are (section 7 of RFC 8259), written as a grammar that mentions no function
 of the parser, and what the parser makes of them.
 */
module JsonStrings {
  import opened JsonCursor
  import opened Utf8
  import opened JsonGrammar
  import opened JsonContexts
  import opened JsonRoundTrip

  /** A hexadecimal digit in either case. */
  datatype Hex = Hex(value: nat, upper: bool)

  ghost predicate IsHex(h: Hex) {
    h.value < 16
  }

  function HexByte(h: Hex): byte
    requires h.value < 16
  {
    if h.value < 10 then 48 + h.value else if h.upper then 55 + h.value else 87 + h.value
  }

  /** The four digits of an escape. */
  datatype Quad = Quad(a: Hex, b: Hex, c: Hex, d: Hex) {
    ghost predicate Valid() {
      IsHex(a) && IsHex(b) && IsHex(c) && IsHex(d)
    }

    function Value(): nat {
      4096 * a.value + 256 * b.value + 16 * c.value + d.value
    }

    ghost function Text(): Text
      requires Valid()
    {
      [HexByte(a), HexByte(b), HexByte(c), HexByte(d)]
    }
  }

  /** One character of a string, as it is written. */
  datatype Piece = Plain(ch: byte) | Short(letter: byte) | Unicode(code: Quad) | Pair(high: Quad, low: Quad)

  /** What a two-character escape stands for: quotation mark, reverse solidus, solidus and five controls. */
  function Meaning(letter: byte): int {
    if letter == 34 || letter == 92 || letter == 47 then letter
    else if letter == 98 then 8
    else if letter == 102 then 12
    else if letter == 110 then 10
    else if letter == 114 then 13
    else if letter == 116 then 9
    else -1
  }

  ghost predicate IsPiece(x: Piece) {
    match x
    case Plain(ch) => ch >= 32 && ch != 34 && ch != 92
    case Short(letter) => Meaning(letter) >= 0
    case Unicode(code) => code.Valid() && !(0xD800 <= code.Value() <= 0xDFFF)
    case Pair(high, low) =>
      high.Valid() && low.Valid() && 0xD800 <= high.Value() <= 0xDBFF && 0xDC00 <= low.Value() <= 0xDFFF
  }

  ghost function PieceText(x: Piece): Text
    requires IsPiece(x)
  {
    match x
    case Plain(ch) => [ch]
    case Short(letter) => [92, letter]
    case Unicode(code) => [92, 117] + code.Text()
    case Pair(high, low) => [92, 117] + high.Text() + ([92, 117] + low.Text())
  }

  /** The bytes it stands for: itself, or the UTF-8 form of the character it names. */
  ghost function PieceBytes(x: Piece): Text
    requires IsPiece(x)
  {
    match x
    case Plain(ch) => [ch]
    case Short(letter) => [Meaning(letter)]
    case Unicode(code) => Encode(code.Value())
    case Pair(high, low) => Encode(0x10000 + (high.Value() - 0xD800) * 0x400 + (low.Value() - 0xDC00))
  }

  ghost predicate ArePieces(xs: seq<Piece>) {
    forall i | 0 <= i < |xs| :: IsPiece(xs[i])
  }

  ghost function PiecesText(xs: seq<Piece>): Text
    requires ArePieces(xs)
  {
    if xs == [] then [] else PieceText(xs[0]) + PiecesText(xs[1..])
  }

  ghost function PiecesBytes(xs: seq<Piece>): Text
    requires ArePieces(xs)
  {
    if xs == [] then [] else PieceBytes(xs[0]) + PiecesBytes(xs[1..])
  }

  // ---------------------------------------------------------------- every such string is read

  lemma HexByteDigit(h: Hex)
    requires IsHex(h)
    ensures HexDigit(HexByte(h)) == h.value
  {
  }

  lemma QuadOccurs(t: Text, p: nat, q: Quad)
    requires q.Valid() && Occurs(t, p, q.Text())
    ensures QuadHex(t, p, 4, 0) == Code(q.Value(), p + 4)
  {
    hide QuadHex, Occurs, HexDigit, HexByte;
    var s := q.Text();
    OccursAt(t, p, s, 0);
    OccursAt(t, p, s, 1);
    OccursAt(t, p, s, 2);
    OccursAt(t, p, s, 3);
    HexByteDigit(q.a);
    HexByteDigit(q.b);
    HexByteDigit(q.c);
    HexByteDigit(q.d);
    FourDigitsAt(t, p);
    QuadHexValue(t, p);
  }

  lemma FourDigitsAt(t: Text, p: nat)
    requires p + 4 <= |t| && HexDigit(t[p]) >= 0 && HexDigit(t[p + 1]) >= 0 && HexDigit(t[p + 2]) >= 0 && HexDigit(t[p + 3]) >= 0
    ensures FourDigits(t, p)
  {
    hide HexDigit;
  }

  /** An escape, from the character after its reverse solidus. */
  lemma EscapeReads(t: Text, p: nat, x: Piece)
    requires IsPiece(x) && !x.Plain? && Occurs(t, p, PieceText(x))
    ensures p + 1 <= |t| && t[p] == 92
    ensures ParseEscape(t, p + 1) == StrOk(PieceBytes(x), p + |PieceText(x)|)
  {
    hide Occurs, Encode, ParseEscape, Unescape, Meaning;
    match x
    case Short(letter) => ShortReads(t, p, letter);
    case Unicode(code) => UnicodeReads(t, p, code);
    case Pair(high, low) => PairReads(t, p, high, low);
  }

  lemma ShortReads(t: Text, p: nat, letter: byte)
    requires Meaning(letter) >= 0 && Occurs(t, p, [92, letter])
    ensures p + 1 < |t| && t[p] == 92 && ParseEscape(t, p + 1) == StrOk([Meaning(letter)], p + 2)
  {
    hide QuadHex, Encode, Occurs;
    OccursAt(t, p, [92, letter], 0);
    OccursAt(t, p, [92, letter], 1);
  }

  lemma UnicodeReads(t: Text, p: nat, code: Quad)
    requires code.Valid() && !(0xD800 <= code.Value() <= 0xDFFF) && Occurs(t, p, [92, 117] + code.Text())
    ensures code.Value() >= 0 && p + 1 < |t| && t[p] == 92
    ensures ParseEscape(t, p + 1) == StrOk(Encode(code.Value()), p + 6)
  {
    hide QuadHex, Occurs, Encode, HexByte;
    OccursSplit(t, p, [92, 117], code.Text());
    OccursAt(t, p, [92, 117], 0);
    OccursAt(t, p, [92, 117], 1);
    QuadOccurs(t, p + 2, code);
  }

  lemma PairReads(t: Text, p: nat, high: Quad, low: Quad)
    requires high.Valid() && low.Valid() && 0xD800 <= high.Value() <= 0xDBFF && 0xDC00 <= low.Value() <= 0xDFFF
    requires Occurs(t, p, [92, 117] + high.Text() + ([92, 117] + low.Text()))
    ensures p + 1 < |t| && t[p] == 92
    ensures ParseEscape(t, p + 1) == StrOk(Encode(Combine(high.Value(), low.Value())), p + 12)
  {
    hide QuadHex, Occurs, Encode, HexByte;
    OccursSplit(t, p, [92, 117] + high.Text(), [92, 117] + low.Text());
    OccursSplit(t, p, [92, 117], high.Text());
    OccursSplit(t, p + 6, [92, 117], low.Text());
    OccursAt(t, p, [92, 117], 0);
    OccursAt(t, p, [92, 117], 1);
    OccursAt(t, p + 6, [92, 117], 0);
    OccursAt(t, p + 6, [92, 117], 1);
    QuadOccurs(t, p + 2, high);
    QuadOccurs(t, p + 8, low);
  }

  lemma PieceReads(t: Text, p: nat, x: Piece, acc: Text)
    requires IsPiece(x) && Occurs(t, p, PieceText(x))
    ensures p + |PieceText(x)| <= |t|
    ensures ParseString(Building, t, p, acc) == ParseString(Building, t, p + |PieceText(x)|, acc + PieceBytes(x))
  {
    hide ParseEscape, Encode, HexByte;
    if x.Plain? {
      OccursAt(t, p, [x.ch], 0);
    } else {
      EscapeReads(t, p, x);
      hide PieceText, PieceBytes, IsPiece, Occurs;
    }
  }

  lemma {:induction false} PiecesRead(t: Text, p: nat, xs: seq<Piece>, acc: Text)
    requires ArePieces(xs) && Occurs(t, p, PiecesText(xs) + [34])
    ensures p <= |t| && ParseString(Building, t, p, acc) == StrOk(acc + PiecesBytes(xs), p + |PiecesText(xs)| + 1)
    decreases |xs|
  {
    hide ParseString, Occurs, PieceText, PieceBytes, IsPiece;
    if xs == [] {
      assert PiecesText(xs) + [34] == [34] && acc + PiecesBytes(xs) == acc;
      QuoteEnds(t, p, acc);
    } else {
      var (x, rest) := (xs[0], xs[1..]);
      assert PiecesText(xs) + [34] == PieceText(x) + (PiecesText(rest) + [34]);
      OccursSplit(t, p, PieceText(x), PiecesText(rest) + [34]);
      PieceReads(t, p, x, acc);
      PiecesRead(t, p + |PieceText(x)|, rest, acc + PieceBytes(x));
      assert acc + PieceBytes(x) + PiecesBytes(rest) == acc + PiecesBytes(xs);
    }
  }

  // ---------------------------------------------------------------- nothing else is

  lemma HexOf(ch: byte) returns (h: Hex)
    requires HexDigit(ch) >= 0
    ensures IsHex(h) && HexByte(h) == ch && h.value == HexDigit(ch)
  {
    h := Hex(HexDigit(ch), 65 <= ch <= 70);
  }

  lemma QuadOf(t: Text, p: nat) returns (q: Quad)
    requires FourDigits(t, p)
    ensures q.Valid() && Occurs(t, p, q.Text()) && q.Value() == HexValue(t, p)
  {
    hide HexDigit, HexByte;
    var a := HexOf(t[p]);
    var b := HexOf(t[p + 1]);
    var c := HexOf(t[p + 2]);
    var d := HexOf(t[p + 3]);
    q := Quad(a, b, c, d);
    assert q.Text() == t[p..p + 4];
  }

  lemma OccursJoin(t: Text, p: nat, a: Text, b: Text)
    requires Occurs(t, p, a) && Occurs(t, p + |a|, b)
    ensures Occurs(t, p, a + b)
  {
    assert t[p..p + |a| + |b|] == t[p..p + |a|] + t[p + |a|..p + |a| + |b|];
  }

  /** A Unicode escape that is accepted, as a piece. */
  lemma CodePiece(t: Text, p: nat) returns (x: Piece)
    requires p + 2 <= |t| && t[p] == 92 && t[p + 1] == 117 && CodePoint(t, p + 2).value >= 0
    ensures IsPiece(x) && !x.Plain? && Occurs(t, p, PieceText(x)) && CodePoint(t, p + 2).pos == p + |PieceText(x)|
  {
    hide QuadHex, HexByte, HexDigit, HexValue, Encode, Occurs;
    EscapesAreScalars(t, p + 2);
    QuadHexValue(t, p + 2);
    var q := QuadOf(t, p + 2);
    Here(t, p);
    OccursJoin(t, p, [92, 117], q.Text());
    if IsHighSurrogate(q.Value()) {
      QuadHexValue(t, p + 8);
      var low := QuadOf(t, p + 8);
      Here(t, p + 6);
      OccursJoin(t, p + 6, [92, 117], low.Text());
      OccursJoin(t, p, [92, 117] + q.Text(), [92, 117] + low.Text());
      x := Pair(q, low);
    } else {
      x := Unicode(q);
    }
  }

  lemma Here(t: Text, p: nat)
    requires p + 2 <= |t| && t[p] == 92 && t[p + 1] == 117
    ensures Occurs(t, p, [92, 117])
  {
    assert t[p..p + 2] == [92, 117];
  }

  /** One turn of the string loop that goes on reads one piece. */
  lemma EscapePiece(t: Text, p: nat) returns (x: Piece)
    requires p < |t| && t[p] == 92 && ParseEscape(t, p + 1).StrOk?
    ensures IsPiece(x) && !x.Plain? && Occurs(t, p, PieceText(x)) && ParseEscape(t, p + 1).pos == p + |PieceText(x)|
  {
    hide CodePoint, PieceText;
    if t[p + 1] == 117 {
      x := CodePiece(t, p);
    } else {
      x := ShortPiece(t, p);
    }
  }

  lemma ShortPiece(t: Text, p: nat) returns (x: Piece)
    requires p + 1 < |t| && t[p] == 92 && Unescape(t[p + 1]) >= 0
    ensures x.Short? && IsPiece(x) && Occurs(t, p, PieceText(x)) && |PieceText(x)| == 2
  {
    x := Short(t[p + 1]);
    assert t[p..p + 2] == [92, t[p + 1]];
  }

  lemma FirstPiece(t: Text, p: nat, acc: Text) returns (x: Piece)
    requires p <= |t| && ParseString(Building, t, p, acc).StrOk? && At(t, p) != 34
    ensures IsPiece(x) && Occurs(t, p, PieceText(x)) && |PieceText(x)| > 0
  {
    var ch := At(t, p);
    if ch == 92 {
      x := EscapePiece(t, p);
    } else {
      x := Plain(ch);
      assert t[p..p + 1] == [ch];
    }
  }

  lemma PrependPiece(t: Text, p: nat, x: Piece, rest: seq<Piece>)
    requires IsPiece(x) && ArePieces(rest)
    requires Occurs(t, p, PieceText(x)) && Occurs(t, p + |PieceText(x)|, PiecesText(rest) + [34])
    ensures ArePieces([x] + rest) && PiecesText([x] + rest) == PieceText(x) + PiecesText(rest)
    ensures Occurs(t, p, PiecesText([x] + rest) + [34])
  {
    hide Occurs, IsPiece, PieceText;
    OccursJoin(t, p, PieceText(x), PiecesText(rest) + [34]);
    assert ([x] + rest)[1..] == rest;
    assert PieceText(x) + (PiecesText(rest) + [34]) == PieceText(x) + PiecesText(rest) + [34];
  }

  /** A string that is read is made of such pieces. */
  lemma {:induction false} StringPieces(t: Text, p: nat, acc: Text) returns (xs: seq<Piece>)
    requires p <= |t| && ParseString(Building, t, p, acc).StrOk?
    ensures ArePieces(xs) && Occurs(t, p, PiecesText(xs) + [34])
    ensures ParseString(Building, t, p, acc).pos == p + |PiecesText(xs)| + 1
    decreases |t| - p
  {
    if At(t, p) == 34 {
      xs := [];
      assert t[p..p + 1] == [34];
    } else {
      hide ParseString, Occurs, IsPiece, PieceText, PieceBytes, PiecesText, ArePieces;
      var x := FirstPiece(t, p, acc);
      PieceReads(t, p, x, acc);
      var rest := StringPieces(t, p + |PieceText(x)|, acc + PieceBytes(x));
      xs := [x] + rest;
      PrependPiece(t, p, x, rest);
    }
  }
}

/**
 The serializer. It walks a value whose objects are hash tables, so it meets their members in
 some arbitrary order; `Tree` records that order.
 */
module JsonSerializer {
  import opened Prelude
  import opened JsonCursor
  import opened JsonGrammar

  datatype Tree =
    | TNull
    | TBool(b: bool)
    | TInt(i: int)
    | TStr(s: Text)
    | TArr(items: seq<Tree>)
    | TObj(members: seq<Member>)

  datatype Member = Member(key: Text, value: Tree)

  /** The value without the order of its members. */
  function ValueOf(tree: Tree): Value {
    match tree
    case TNull => Null
    case TBool(b) => Bool(b)
    case TInt(i) => Int(i)
    case TStr(s) => Str(s)
    case TArr(items) => Arr(ValuesOf(items, |items|))
    case TObj(members) => Obj(MembersOf(members, |members|))
  }

  /** The values of the first `n` items. */
  function ValuesOf(items: seq<Tree>, n: nat): seq<Value>
    requires n <= |items|
    decreases items, n
  {
    if n == 0 then [] else ValuesOf(items, n - 1) + [ValueOf(items[n - 1])]
  }

  /** The map holding the first `n` members. */
  function MembersOf(members: seq<Member>, n: nat): map<Text, Value>
    requires n <= |members|
    decreases members, n
  {
    if n == 0 then map[]
    else MembersOf(members, n - 1)[members[n - 1].key := ValueOf(members[n - 1].value)]
  }

  /** Integers fit 64 bits, and an object has one member per key. */
  ghost predicate WellFormed(tree: Tree) {
    match tree
    case TInt(i) => INT64_MIN <= i <= INT64_MAX
    case TArr(items) => forall i | 0 <= i < |items| :: WellFormed(items[i])
    case TObj(members) =>
      && (forall i | 0 <= i < |members| :: WellFormed(members[i].value))
      && forall i, j | 0 <= i < j < |members| :: members[i].key != members[j].key
    case _ => true
  }

  // ---------------------------------------------------------------- the text of a value

  function HexChar(v: nat): byte
    requires v < 16
  {
    if v < 10 then '0' as int + v else 'a' as int + v - 10
  }

  function Escape(c: byte): Text {
    if c == '"' as int || c == '\\' as int || c == '/' as int then ['\\' as int, c]
    else if c == 8 then ['\\' as int, 'b' as int]
    else if c == 12 then ['\\' as int, 'f' as int]
    else if c == 10 then ['\\' as int, 'n' as int]
    else if c == 13 then ['\\' as int, 'r' as int]
    else if c == 9 then ['\\' as int, 't' as int]
    else if c < 0x20 || c == 0x7F then
      ['\\' as int, 'u' as int, '0' as int, '0' as int, HexChar(c / 16), HexChar(c % 16)]
    else [c]
  }

  function EscapeAll(s: Text): Text {
    if s == [] then [] else Escape(s[0]) + EscapeAll(s[1..])
  }

  function StringText(s: Text): Text {
    ['"' as int] + (EscapeAll(s) + ['"' as int])
  }

  function DigitsText(n: nat): Text {
    if n < 10 then ['0' as int + n] else DigitsText(n / 10) + ['0' as int + n % 10]
  }

  function IntText(i: int): Text {
    if i < 0 then ['-' as int] + DigitsText(-i) else DigitsText(i)
  }

  function Spaces(n: nat): Text {
    if n == 0 then [] else Spaces(n - 1) + [' ' as int]
  }

  const INDENT_WIDTH: nat := 2

  /** A line break and the indentation after it; nothing in compact mode, where `indent` is -1. */
  function Break(indent: int): Text
    requires indent >= -1
  {
    if indent == -1 then [] else [NEWLINE] + Spaces(indent * INDENT_WIDTH)
  }

  /** The indentation of the parts of a value. */
  function Inner(indent: int): int {
    if indent == -1 then -1 else indent + 1
  }

  /** The text of a value, without the newline that ends a pretty-printed document. */
  function Own(tree: Tree, indent: int): Text
    requires indent >= -1
    decreases tree
  {
    match tree
    case TNull => ['n' as int] + ULL
    case TBool(b) => if b then ['t' as int] + RUE else ['f' as int] + ALSE
    case TInt(i) => IntText(i)
    case TStr(s) => StringText(s)
    case TArr(items) => ['[' as int] + ItemsText(items, 0, indent)
    case TObj(members) => ['{' as int] + MembersText(members, 0, indent)
  }

  /** The text of an array from its `k`-th item on, closing bracket included. */
  function ItemsText(items: seq<Tree>, k: nat, indent: int): Text
    requires k <= |items| && indent >= -1
    decreases items, |items| - k
  {
    if k == |items| then (if items == [] then [] else Break(indent)) + [']' as int]
    else (if k == 0 then [] else [',' as int]) + ItemText(items, k, indent)
  }

  /** The same without the comma in front of item `k`. */
  function ItemText(items: seq<Tree>, k: nat, indent: int): Text
    requires k < |items| && indent >= -1
    decreases items, |items| - k, 0
  {
    Break(Inner(indent)) + (Own(items[k], Inner(indent)) + ItemsText(items, k + 1, indent))
  }

  function MembersText(members: seq<Member>, k: nat, indent: int): Text
    requires k <= |members| && indent >= -1
    decreases members, |members| - k
  {
    if k == |members| then (if members == [] then [] else Break(indent)) + ['}' as int]
    else (if k == 0 then [] else [',' as int]) + MemberText(members, k, indent)
  }

  function MemberText(members: seq<Member>, k: nat, indent: int): Text
    requires k < |members| && indent >= -1
    decreases members, |members| - k, 0
  {
    Break(Inner(indent)) + (StringText(members[k].key) + (Colon(indent)
      + (Own(members[k].value, Inner(indent)) + MembersText(members, k + 1, indent))))
  }

  function Colon(indent: int): Text {
    if indent == -1 then [':' as int] else [':' as int, ' ' as int]
  }

  /** Everything the serializer emits. */
  function FullText(tree: Tree, indent: int): Text
    requires indent >= -1
  {
    Own(tree, indent) + (if indent == 0 then [NEWLINE] else [])
  }

  // ---------------------------------------------------------------- the serializer as it runs

  /** An output iterator that appends. */
  class Sink {
    var data: Text

    constructor ()
      ensures data == []
    {
      data := [];
    }

    method Put(b: byte)
      modifies this
      ensures data == old(data) + [b]
    {
      data := data + [b];
    }

    method Copy(s: Text)
      modifies this
      ensures data == old(data) + s
    {
      data := data + s;
    }
  }

  method WriteString(s: Text, out: Sink)
    modifies out
    ensures out.data == old(out.data) + StringText(s)
  {
    hide Escape;
    out.Put('"' as int);
    var i := 0;
    while i < |s|
      invariant 0 <= i <= |s|
      invariant out.data + EscapeAll(s[i..]) == old(out.data) + ['"' as int] + EscapeAll(s)
    {
      ghost var before := out.data;
      out.Copy(Escape(s[i]));
      assert s[i..][1..] == s[i + 1..];
      assert before + (Escape(s[i]) + EscapeAll(s[i + 1..])) == out.data + EscapeAll(s[i + 1..]);
      i := i + 1;
    }
    assert s[i..] == [];
    assert out.data == old(out.data) + ['"' as int] + EscapeAll(s);
    out.Put('"' as int);
    Regroup3(old(out.data), ['"' as int], EscapeAll(s), ['"' as int]);
  }

  method WriteBreak(indent: nat, out: Sink)
    modifies out
    ensures out.data == old(out.data) + Break(indent)
  {
    out.Put(NEWLINE);
    var i := 0;
    while i < indent * INDENT_WIDTH
      invariant 0 <= i <= indent * INDENT_WIDTH
      invariant out.data == old(out.data) + [NEWLINE] + Spaces(i)
    {
      out.Put(' ' as int);
      i := i + 1;
    }
  }

  method Write(tree: Tree, indent: int, out: Sink)
    requires indent >= -1
    modifies out
    ensures out.data == old(out.data) + FullText(tree, indent)
    decreases tree, 1
  {
    match tree {
      case TStr(s) => WriteString(s, out);
      case TArr(items) => WriteArray(items, indent, out);
      case TObj(members) => WriteObject(members, indent, out);
      case _ => out.Copy(Own(tree, indent));
    }
    if indent == 0 {
      out.Put(NEWLINE);
    }
  }

  lemma Regroup3(a: Text, b: Text, c: Text, d: Text)
    ensures a + (b + (c + d)) == a + b + c + d
  {
  }

  method WriteArray(items: seq<Tree>, indent0: int, out: Sink)
    requires indent0 >= -1
    modifies out
    ensures out.data == old(out.data) + Own(TArr(items), indent0)
    decreases items, 1
  {
    var indent := indent0;
    ghost var goal := out.data + Own(TArr(items), indent0);
    out.Put('[' as int);
    if indent != -1 {
      indent := indent + 1;
    }
    var i := 0;
    while i < |items|
      invariant 0 <= i <= |items|
      invariant out.data + ItemsText(items, i, indent0) == goal
    {
      WriteItem(items, i, indent, indent0, out);
      i := i + 1;
    }
    WriteClose(items == [], indent, indent0, ']' as int, out);
  }

  /** One turn of the array loop. */
  method WriteItem(items: seq<Tree>, i: nat, indent: int, ghost indent0: int, out: Sink)
    requires i < |items| && indent0 >= -1 && indent == Inner(indent0)
    modifies out
    ensures out.data + ItemsText(items, i + 1, indent0) == old(out.data) + ItemsText(items, i, indent0)
    decreases items, 0
  {
    hide Own;
    assert ItemsText(items, i, indent0) == (if i == 0 then [] else [',' as int]) + ItemText(items, i, indent0);
    hide ItemsText;
    if i != 0 {
      out.Put(',' as int);
    }
    ghost var start := out.data;
    if indent != -1 {
      WriteBreak(indent, out);
    }
    Write(items[i], indent, out);
    Regroup3(start, Break(indent), Own(items[i], indent), ItemsText(items, i + 1, indent0));
    assert out.data + ItemsText(items, i + 1, indent0) == start + ItemText(items, i, indent0);
  }

  method WriteObject(members: seq<Member>, indent0: int, out: Sink)
    requires indent0 >= -1
    modifies out
    ensures out.data == old(out.data) + Own(TObj(members), indent0)
    decreases members, 2
  {
    assert Own(TObj(members), indent0) == ['{' as int] + MembersText(members, 0, indent0);
    MembersTextEnd(members, indent0);
    hide Own, MembersText, Break;
    var indent := indent0;
    out.Put('{' as int);
    if indent != -1 {
      indent := indent + 1;
    }
    WriteMembers(members, indent, indent0, out);
    WriteClose(members == [], indent, indent0, '}' as int, out);
    Assoc(old(out.data), ['{' as int], MembersText(members, 0, indent0));
  }

  lemma {:induction false} MembersTextEnd(members: seq<Member>, indent: int)
    requires indent >= -1
    ensures MembersText(members, |members|, indent) == (if members == [] then [] else Break(indent)) + ['}' as int]
  {
  }

  /** The line break and bracket that close an array or object. */
  method WriteClose(empty: bool, indent: int, ghost indent0: int, close: byte, out: Sink)
    requires indent0 >= -1 && indent == Inner(indent0)
    modifies out
    ensures out.data == old(out.data) + ((if empty then [] else Break(indent0)) + [close])
  {
    if indent != -1 && !empty {
      WriteBreak(indent - 1, out);
    }
    assert out.data == old(out.data) + (if empty then [] else Break(indent0));
    out.Put(close);
  }

  /** The loop over the members of an object. */
  method WriteMembers(members: seq<Member>, indent: int, ghost indent0: int, out: Sink)
    requires indent0 >= -1 && indent == Inner(indent0)
    modifies out
    ensures out.data + MembersText(members, |members|, indent0) == old(out.data) + MembersText(members, 0, indent0)
    decreases members, 1
  {
    var i := 0;
    while i < |members|
      invariant 0 <= i <= |members|
      invariant out.data + MembersText(members, i, indent0) == old(out.data) + MembersText(members, 0, indent0)
    {
      WriteMember(members, i, indent, indent0, out);
      i := i + 1;
    }
  }

  /** One turn of the object loop. */
  method WriteMember(members: seq<Member>, i: nat, indent: int, ghost indent0: int, out: Sink)
    requires i < |members| && indent0 >= -1 && indent == Inner(indent0)
    modifies out
    ensures out.data + MembersText(members, i + 1, indent0) == old(out.data) + MembersText(members, i, indent0)
    decreases members, 0
  {
    hide Own, StringText, MemberText;
    assert MembersText(members, i, indent0) == (if i == 0 then [] else [',' as int]) + MemberText(members, i, indent0);
    hide MembersText;
    if i != 0 {
      out.Put(',' as int);
    }
    ghost var start := out.data;
    if indent != -1 {
      WriteBreak(indent, out);
    }
    assert out.data == start + Break(indent);
    WriteKeyValue(members[i], indent, out);
    MemberRegroup(members, i, indent0, start);
    assert out.data + MembersText(members, i + 1, indent0) == start + MemberText(members, i, indent0);
  }

  method WriteKeyValue(m: Member, indent: int, out: Sink)
    requires indent >= -1 && indent != 0
    modifies out
    ensures out.data == old(out.data) + StringText(m.key) + Colon(indent) + Own(m.value, indent)
    decreases m
  {
    WriteString(m.key, out);
    out.Put(':' as int);
    if indent != -1 {
      out.Put(' ' as int);
    }
    assert out.data == old(out.data) + StringText(m.key) + Colon(indent);
    Write(m.value, indent, out);
  }

  lemma {:induction false} MemberRegroup(members: seq<Member>, i: nat, indent: int, start: Text)
    requires i < |members| && indent >= -1
    ensures var (k, v) := (StringText(members[i].key), Own(members[i].value, Inner(indent)));
            start + Break(Inner(indent)) + k + Colon(Inner(indent)) + v + MembersText(members, i + 1, indent) ==
            start + MemberText(members, i, indent)
  {
    var (k, v, rest) := (StringText(members[i].key), Own(members[i].value, Inner(indent)), MembersText(members, i + 1, indent));
    Regroup3(start, Break(Inner(indent)), k, Colon(indent) + (v + rest));
    Regroup3(start + Break(Inner(indent)) + k, Colon(indent), v, rest);
  }
}

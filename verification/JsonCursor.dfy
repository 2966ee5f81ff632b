/**
 The input cursor of the parser: a position with one character of push-back, held in two
 fields, and the line counter that follows it.
 */
module JsonCursor {

  type byte = x: int | 0 <= x < 256

  type Text = seq<byte>

  const NEWLINE: int := 10

  /** The character at `p`, or -1 at the end of the input. */
  function At(t: Text, p: nat): int {
    if p < |t| then t[p] else -1
  }

  predicate IsSpace(ch: int) {
    ch == ' ' as int || ch == '\t' as int || ch == '\n' as int || ch == '\r' as int
  }

  /** The first position from `p` on that does not hold white space. */
  function SkipWs(t: Text, p: nat): (q: nat)
    requires p <= |t|
    ensures p <= q <= |t|
    ensures !IsSpace(At(t, q))
    ensures forall i | p <= i < q :: IsSpace(t[i])
    decreases |t| - p
  {
    if IsSpace(At(t, p)) then SkipWs(t, p + 1) else p
  }

  /** Success or failure, and where the cursor stands afterwards. */
  datatype Step = Step(ok: bool, pos: nat)

  /** One expected character, after white space. */
  function Expect(t: Text, p: nat, expected: int): (r: Step)
    requires p <= |t| && expected >= 0
    ensures p <= r.pos <= |t|
    ensures r.ok ==> p < r.pos && t[r.pos - 1] == expected && SkipWs(t, p) == r.pos - 1
    ensures !r.ok ==> At(t, r.pos) != expected && SkipWs(t, p) == r.pos
  {
    var q := SkipWs(t, p);
    if At(t, q) == expected then Step(true, q + 1) else Step(false, q)
  }

  /** A literal, character by character. On a mismatch the cursor stays at the mismatch. */
  function Match(t: Text, p: nat, pattern: Text): (r: Step)
    requires p <= |t|
    ensures p <= r.pos <= |t|
    ensures r.ok <==> p + |pattern| <= |t| && t[p..p + |pattern|] == pattern
    ensures r.ok ==> r.pos == p + |pattern|
    ensures !r.ok ==> r.pos - p < |pattern| && At(t, r.pos) != pattern[r.pos - p]
    decreases |pattern|
  {
    if pattern == [] then Step(true, p)
    else if At(t, p) != pattern[0] then Step(false, p)
    else
      var r := Match(t, p + 1, pattern[1..]);
      assert pattern == [pattern[0]] + pattern[1..];
      assert p + |pattern| <= |t| ==> t[p..p + |pattern|] == [t[p]] + t[p + 1..p + |pattern|];
      r
  }

  /** How many newlines a text holds. */
  function Newlines(t: Text): nat {
    if t == [] then 0 else Newlines(t[..|t| - 1]) + (if t[|t| - 1] == NEWLINE then 1 else 0)
  }

  class Input {
    const text: Text
    var cur: nat
    /** The character at `cur` has been handed out. */
    var consumed: bool
    var line: nat

    ghost predicate Valid()
      reads this
    {
      cur <= |text| && (consumed ==> cur < |text|)
    }

    /** The abstract position: how many characters have been read and not pushed back. */
    ghost function Pos(): nat
      reads this
    {
      if consumed then cur + 1 else cur
    }

    /** The line counter matches the text in front of `cur`. */
    ghost predicate Lined()
      requires Valid()
      reads this
    {
      line == 1 + Newlines(text[..cur])
    }

    constructor (text: Text)
      ensures Valid() && Lined()
      ensures this.text == text && Pos() == 0 && !consumed
    {
      this.text := text;
      cur, consumed, line := 0, false, 1;
    }

    method Getc() returns (ch: int)
      requires Valid()
      modifies this
      ensures Valid() && (old(Lined()) ==> Lined())
      ensures ch == At(text, old(Pos()))
      ensures cur == old(Pos()) && (consumed <==> ch != -1)
    {
      if consumed {
        assert text[..cur + 1][..cur] == text[..cur];
        if text[cur] == NEWLINE {
          line := line + 1;
        }
        cur := cur + 1;
      }
      if cur == |text| {
        consumed := false;
        return -1;
      }
      consumed := true;
      return text[cur];
    }

    /** Push back the last character read; a second call changes nothing. */
    method Ungetc()
      requires Valid()
      modifies this`consumed
      ensures Valid() && (old(Lined()) ==> Lined())
      ensures !consumed && Pos() == old(cur)
      ensures !old(consumed) ==> Pos() == old(Pos())
    {
      consumed := false;
    }

    /** The position as an iterator. This drops a newline that was read but not yet counted. */
    method Cur() returns (p: nat)
      requires Valid()
      modifies this`cur, this`consumed
      ensures Valid() && !consumed
      ensures p == Pos() == old(Pos())
      ensures old(Lined()) ==> (Lined() <==> !(old(consumed) && text[old(cur)] == NEWLINE))
    {
      if consumed {
        assert text[..cur + 1][..cur] == text[..cur];
        consumed := false;
        cur := cur + 1;
      }
      return cur;
    }

    method SkipSpace()
      requires Valid()
      modifies this
      ensures Valid() && (old(Lined()) ==> Lined())
      ensures !consumed && Pos() == SkipWs(text, old(Pos()))
    {
      var ch := Getc();
      while IsSpace(ch)
        invariant Valid() && (old(Lined()) ==> Lined())
        invariant ch == At(text, cur) && (consumed <==> ch != -1)
        invariant old(Pos()) <= cur && SkipWs(text, old(Pos())) == SkipWs(text, cur)
        decreases |text| - cur
      {
        ch := Getc();
      }
      Ungetc();
    }

    method ExpectChar(expected: int) returns (ok: bool)
      requires Valid() && expected >= 0
      modifies this
      ensures Valid() && (old(Lined()) ==> Lined())
      ensures Step(ok, Pos()) == Expect(text, old(Pos()), expected)
    {
      SkipSpace();
      var ch := Getc();
      if ch != expected {
        Ungetc();
        return false;
      }
      return true;
    }

    method MatchText(pattern: Text) returns (ok: bool)
      requires Valid()
      modifies this
      ensures Valid() && (old(Lined()) ==> Lined())
      ensures Step(ok, Pos()) == Match(text, old(Pos()), pattern)
    {
      var i := 0;
      while i < |pattern|
        invariant 0 <= i <= |pattern|
        invariant Valid() && (old(Lined()) ==> Lined())
        invariant Match(text, old(Pos()), pattern) == Match(text, Pos(), pattern[i..])
      {
        var ch := Getc();
        if ch != pattern[i] {
          Ungetc();
          return false;
        }
        assert pattern[i..][1..] == pattern[i + 1..];
        i := i + 1;
      }
      return true;
    }
  }
}

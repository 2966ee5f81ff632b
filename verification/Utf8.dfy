/**
 UTF-8 as defined by sections 3 and 4 of RFC 3629, and the surrogate pairs of section 2.2
 of RFC 2781.
 */
module Utf8 {
  import opened JsonCursor

  /** A Unicode scalar value: a code point that is not a surrogate. */
  predicate IsScalar(u: int) {
    0 <= u < 0xD800 || 0xE000 <= u <= 0x10FFFF
  }

  predicate IsTail(b: byte) {
    0x80 <= b <= 0xBF
  }

  /** The byte ranges allowed for the second byte, by first byte. */
  predicate SecondByteOk(b: byte, c: byte) {
    IsTail(c)
    && (b == 0xE0 ==> c >= 0xA0)
    && (b == 0xED ==> c <= 0x9F)
    && (b == 0xF0 ==> c >= 0x90)
    && (b == 0xF4 ==> c <= 0x8F)
  }

  /** Length of the well-formed character at the front of `s`, or 0 if there is none. */
  function CharLen(s: Text): (n: nat)
    ensures n <= |s| && n <= 4
  {
    if s == [] then 0
    else if s[0] <= 0x7F then 1
    else if 0xC2 <= s[0] <= 0xDF && |s| >= 2 && IsTail(s[1]) then 2
    else if 0xE0 <= s[0] <= 0xEF && |s| >= 3 && SecondByteOk(s[0], s[1]) && IsTail(s[2]) then 3
    else if 0xF0 <= s[0] <= 0xF4 && |s| >= 4 && SecondByteOk(s[0], s[1]) && IsTail(s[2]) && IsTail(s[3]) then 4
    else 0
  }

  /** The bits a byte carries below its length mark. */
  function Payload(b: byte, mark: int): int {
    b as int - mark
  }

  /** The scalar value of that character. */
  function Scalar(s: Text): (u: int)
    requires CharLen(s) > 0
  {
    match CharLen(s)
    case 1 => s[0]
    case 2 => 64 * Payload(s[0], 0xC0) + Payload(s[1], 0x80)
    case 3 => 4096 * Payload(s[0], 0xE0) + 64 * Payload(s[1], 0x80) + Payload(s[2], 0x80)
    case _ => 262144 * Payload(s[0], 0xF0) + 4096 * Payload(s[1], 0x80)
              + 64 * Payload(s[2], 0x80) + Payload(s[3], 0x80)
  }

  predicate Valid(s: Text) {
    s == [] || (CharLen(s) > 0 && Valid(s[CharLen(s)..]))
  }

  /** The encoding, split into its shift-free form. */
  function Encode(u: int): (s: Text)
    requires 0 <= u <= 0x10FFFF
    ensures 1 <= |s| <= 4
  {
    if u < 0x80 then [u]
    else if u < 0x800 then [0xC0 + u / 64, 0x80 + u % 64]
    else if u < 0x10000 then [0xE0 + u / 4096, 0x80 + u / 64 % 64, 0x80 + u % 64]
    else [0xF0 + u / 262144, 0x80 + u / 4096 % 64, 0x80 + u / 64 % 64, 0x80 + u % 64]
  }

  /** Base-64 digits determine a number and are determined by it. */
  lemma Digits(u: int, a: int, b: int, c: int, d: int)
    requires 0 <= b < 64 && 0 <= c < 64 && 0 <= d < 64
    ensures u == 262144 * a + 4096 * b + 64 * c + d <==>
            a == u / 262144 && b == u / 4096 % 64 && c == u / 64 % 64 && d == u % 64
    ensures 4096 * b + 64 * c + d == u ==> b == u / 4096
    ensures 64 * c + d == u ==> c == u / 64
  {
    assert u / 4096 == u / 64 / 64 && u / 262144 == u / 64 / 64 / 64;
  }

  /** Encoding and decoding are inverse: the encoding of a scalar decodes to it, in any context. */
  lemma EncodeDecodes(u: int, rest: Text)
    requires IsScalar(u)
    ensures var s := Encode(u) + rest;
            CharLen(s) == |Encode(u)| && Scalar(s) == u && s[CharLen(s)..] == rest
  {
    var s := Encode(u) + rest;
    if u < 0x80 {
      assert s[0] == u;
    } else if u < 0x800 {
      assert s[0] == 0xC0 + u / 64 && s[1] == 0x80 + u % 64;
    } else if u < 0x10000 {
      EncodeThree(u, s);
    } else {
      EncodeFour(u, s);
    }
  }

  lemma EncodeThree(u: int, s: Text)
    requires IsScalar(u) && 0x800 <= u < 0x10000
    requires |s| >= 3 && s[0] == 0xE0 + u / 4096 && s[1] == 0x80 + u / 64 % 64 && s[2] == 0x80 + u % 64
    ensures CharLen(s) == 3 && Scalar(s) == u
  {
    Digits(u, u / 262144, u / 4096 % 64, u / 64 % 64, u % 64);
  }

  lemma EncodeFour(u: int, s: Text)
    requires 0x10000 <= u <= 0x10FFFF
    requires |s| >= 4 && s[0] == 0xF0 + u / 262144 && s[1] == 0x80 + u / 4096 % 64
    requires s[2] == 0x80 + u / 64 % 64 && s[3] == 0x80 + u % 64
    ensures CharLen(s) == 4 && Scalar(s) == u
  {
    Digits(u, u / 262144, u / 4096 % 64, u / 64 % 64, u % 64);
  }

  /** Surrogates have no well-formed encoding. */
  lemma SurrogatesDoNotDecode(u: int, rest: Text)
    requires 0xD800 <= u <= 0xDFFF
    ensures CharLen(Encode(u) + rest) == 0
  {
    var s := Encode(u) + rest;
    assert s[0] == 0xED && s[1] >= 0xA0;
  }

  /** Every well-formed character is the encoding of the scalar it decodes to. */
  lemma DecodeEncodes(s: Text)
    requires CharLen(s) > 0
    ensures IsScalar(Scalar(s)) && Encode(Scalar(s)) == s[..CharLen(s)]
  {
    var n, u := CharLen(s), Scalar(s);
    if n == 2 {
      Digits(u, 0, 0, Payload(s[0], 0xC0), Payload(s[1], 0x80));
    } else if n == 3 {
      Digits(u, 0, Payload(s[0], 0xE0), Payload(s[1], 0x80), Payload(s[2], 0x80));
    } else if n == 4 {
      Digits(u, Payload(s[0], 0xF0), Payload(s[1], 0x80), Payload(s[2], 0x80), Payload(s[3], 0x80));
    }
  }

  /** A character is recognised from its own bytes alone. */
  lemma CharLenPrefix(a: Text, b: Text)
    requires CharLen(a) > 0
    ensures CharLen(a + b) == CharLen(a)
  {
  }

  lemma {:induction false} ValidConcat(a: Text, b: Text)
    requires Valid(a) && Valid(b)
    ensures Valid(a + b)
    decreases |a|
  {
    if a == [] {
      assert a + b == b;
    } else {
      var n := CharLen(a);
      CharLenPrefix(a, b);
      assert (a + b)[n..] == a[n..] + b;
      ValidConcat(a[n..], b);
    }
  }

  lemma {:induction false} ValidOfScalar(u: int)
    requires IsScalar(u)
    ensures Valid(Encode(u))
  {
    EncodeDecodes(u, []);
    assert Encode(u) + [] == Encode(u);
    assert Valid([]);
  }

  // ---------------------------------------------------------------- surrogate pairs

  predicate IsHighSurrogate(u: int) {
    0xD800 <= u <= 0xDBFF
  }

  predicate IsLowSurrogate(u: int) {
    0xDC00 <= u <= 0xDFFF
  }

  function Combine(hi: int, lo: int): (u: int) {
    (hi - 0xD800) * 1024 + (lo - 0xDC00) + 0x10000
  }

  function HighOf(u: int): int {
    0xD800 + (u - 0x10000) / 1024
  }

  function LowOf(u: int): int {
    0xDC00 + (u - 0x10000) % 1024
  }

  /** Surrogate pairs correspond one to one with the code points from 0x10000 to 0x10FFFF. */
  lemma CombineBijective(hi: int, lo: int, u: int)
    ensures IsHighSurrogate(hi) && IsLowSurrogate(lo) ==>
            var c := Combine(hi, lo);
            0x10000 <= c <= 0x10FFFF && HighOf(c) == hi && LowOf(c) == lo
    ensures 0x10000 <= u <= 0x10FFFF ==>
            IsHighSurrogate(HighOf(u)) && IsLowSurrogate(LowOf(u)) && Combine(HighOf(u), LowOf(u)) == u
  {
  }
}

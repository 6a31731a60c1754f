/**
  The encoding that Utf8 is about: the bytes of every Unicode scalar value, and what valid text, the
  number of characters and white space are in its terms.
*/
module Utf8Encoding {
  import opened Utf8

  /** Unicode code points without the surrogates. */
  predicate Scalar(c: nat) {
    c < 0xD800 || 0xE000 <= c < 0x110000
  }

  function Encode(c: nat): Bytes
    requires Scalar(c)
  {
    if c < 0x80 then [c]
    else if c < 0x800 then [0xC0 + c / 64, 0x80 + c % 64]
    else if c < 0x10000 then [0xE0 + c / 64 / 64, 0x80 + c / 64 % 64, 0x80 + c % 64]
    else [0xF0 + c / 64 / 64 / 64, 0x80 + c / 64 / 64 % 64, 0x80 + c / 64 % 64, 0x80 + c % 64]
  }

  predicate AllScalar(cs: seq<nat>) {
    forall i | 0 <= i < |cs| :: Scalar(cs[i])
  }

  function EncodeAll(cs: seq<nat>): Bytes
    requires AllScalar(cs)
  {
    if cs == [] then [] else Encode(cs[0]) + EncodeAll(cs[1..])
  }

  /** What is encoded starts with one character, of as many bytes as its first byte says. */
  lemma EncodedIsChar(c: nat)
    requires Scalar(c)
    ensures StartsWithChar(Encode(c)) && Width(Encode(c)[0]) == |Encode(c)|
  {
  }

  /** Six more bits. */
  function More(hi: nat, b: Byte): nat
    requires Continuation(b)
  {
    hi * 64 + (b - 0x80)
  }

  lemma MoreComesApart(hi: nat, b: Byte)
    requires Continuation(b)
    ensures More(hi, b) / 64 == hi && 0x80 + More(hi, b) % 64 == b
  {
  }

  lemma Char2(a: Byte, b: Byte)
    requires Width(a) == 2 && Continuation(b)
    ensures var c := More(a - 0xC0, b); Scalar(c) && Encode(c) == [a, b]
  {
    hide More;
    MoreComesApart(a - 0xC0, b);
  }

  lemma Char3(a: Byte, b: Byte, c: Byte)
    requires Width(a) == 3 && Continuation(b) && Continuation(c) && SecondByte(a, b)
    ensures var v := More(More(a - 0xE0, b), c); Scalar(v) && Encode(v) == [a, b, c]
  {
    var x := More(a - 0xE0, b);
    MoreComesApart(a - 0xE0, b);
    MoreComesApart(x, c);
    assert 0x20 <= x < 0x400 && !(0x360 <= x < 0x380);
    Three(x, c);
  }

  lemma Three(x: nat, c: Byte)
    requires 0x20 <= x < 0x400 && !(0x360 <= x < 0x380) && Continuation(c)
    ensures 0x800 <= More(x, c) < 0x10000 && Scalar(More(x, c))
  {
  }

  lemma Char4(a: Byte, b: Byte, c: Byte, d: Byte)
    requires Width(a) == 4 && Continuation(b) && Continuation(c) && Continuation(d) && SecondByte(a, b)
    ensures var v := More(More(More(a - 0xF0, b), c), d); Scalar(v) && Encode(v) == [a, b, c, d]
  {
    var x := More(a - 0xF0, b);
    var y := More(x, c);
    MoreComesApart(a - 0xF0, b);
    MoreComesApart(x, c);
    MoreComesApart(y, d);
    assert 0x10 <= x < 0x110;
    Four(x, c, d);
  }

  lemma Four(x: nat, c: Byte, d: Byte)
    requires 0x10 <= x < 0x110 && Continuation(c) && Continuation(d)
    ensures 0x10000 <= More(More(x, c), d) < 0x110000
  {
  }

  /** Every character is the encoding of a scalar value. */
  lemma CharIsEncoded(s: Bytes) returns (c: nat)
    requires StartsWithChar(s)
    ensures Scalar(c) && Encode(c) == s[..Width(s[0])]
  {
    hide SecondByte;
    var w := Width(s[0]);
    if w == 1 {
      c := s[0];
    } else if w == 2 {
      Char2(s[0], s[1]);
      c := More(s[0] - 0xC0, s[1]);
    } else if w == 3 {
      Char3(s[0], s[1], s[2]);
      c := More(More(s[0] - 0xE0, s[1]), s[2]);
    } else {
      Char4(s[0], s[1], s[2], s[3]);
      c := More(More(More(s[0] - 0xF0, s[1]), s[2]), s[3]);
    }
  }

  lemma {:induction false} EncodedIsValid(cs: seq<nat>)
    requires AllScalar(cs)
    ensures Valid(EncodeAll(cs)) && RuneCount(EncodeAll(cs)) == |cs|
  {
    if cs != [] {
      var first, rest := Encode(cs[0]), EncodeAll(cs[1..]);
      EncodedIsChar(cs[0]);
      EncodedIsValid(cs[1..]);
      CharStays(first, rest);
      assert (first + rest)[|first|..] == rest;
    }
  }

  lemma {:induction false} ValidIsEncoded(s: Bytes) returns (cs: seq<nat>)
    requires Valid(s)
    ensures AllScalar(cs) && EncodeAll(cs) == s
  {
    if s == [] {
      cs := [];
    } else {
      var w := Width(s[0]);
      var c := CharIsEncoded(s);
      var rest := ValidIsEncoded(s[w..]);
      cs := [c] + rest;
      assert s == s[..w] + s[w..] && cs[1..] == rest;
    }
  }

  /** Text is valid exactly when it is the encoding of scalar values, and their number is its number of characters. */
  lemma ValidIffEncoded(s: Bytes)
    ensures Valid(s) <==> exists cs :: AllScalar(cs) && EncodeAll(cs) == s
    ensures forall cs | AllScalar(cs) && EncodeAll(cs) == s :: RuneCount(s) == |cs|
  {
    if Valid(s) { var cs := ValidIsEncoded(s); }
    forall cs | AllScalar(cs) && EncodeAll(cs) == s ensures Valid(s) && RuneCount(s) == |cs| { EncodedIsValid(cs); }
  }

  // ----- White space

  /** unicode.IsSpace */
  predicate SpaceRune(c: nat) {
    || 0x9 <= c <= 0xD || c == 0x20 || c == 0x85 || c == 0xA0 || c == 0x1680 || 0x2000 <= c <= 0x200A
    || c == 0x2028 || c == 0x2029 || c == 0x202F || c == 0x205F || c == 0x3000
  }

  lemma Space1(b: Byte)
    ensures 9 <= b <= 13 || b == SPACE <==> b < 0x80 && SpaceRune(b)
  {
  }

  lemma Space2Is(b: Byte, c: Byte)
    ensures Space2(b, c) <==> exists r: nat {:trigger SpaceRune(r)} :: SpaceRune(r) && Encode(r) == [b, c]
  {
    assert Encode(0x85) == [0xC2, 0x85] && Encode(0xA0) == [0xC2, 0xA0];
    assert SpaceRune(0x85) && SpaceRune(0xA0);
  }

  lemma Space3Is(b: Byte, c: Byte, d: Byte)
    ensures Space3(b, c, d) <==> exists r: nat {:trigger SpaceRune(r)} :: SpaceRune(r) && Encode(r) == [b, c, d]
  {
    if Space3(b, c, d) {
      var r: nat := if b == 0xE1 then 0x1680 else if b == 0xE3 then 0x3000 else if c == 0x81 then 0x205F else 0x2000 + d - 0x80;
      assert SpaceRune(r) && Encode(r) == [b, c, d];
    }
  }

  /** The bytes of white space are the encodings of the white-space characters. */
  lemma SpaceIsEncoded(s: Bytes, p: nat, w: nat)
    requires 1 <= w && p + w <= |s|
    ensures SpaceAt(s, p, w) <==> exists r: nat {:trigger SpaceRune(r)} :: SpaceRune(r) && Encode(r) == s[p..p + w]
  {
    if w == 1 {
      Space1(s[p]);
      assert s[p..p + 1] == [s[p]];
      if SpaceAt(s, p, 1) { assert Encode(s[p]) == [s[p]]; }
    } else if w == 2 {
      Space2Is(s[p], s[p + 1]);
      assert s[p..p + 2] == [s[p], s[p + 1]];
    } else if w == 3 {
      Space3Is(s[p], s[p + 1], s[p + 2]);
      assert s[p..p + 3] == [s[p], s[p + 1], s[p + 2]];
    } else {
      forall r: nat | SpaceRune(r) ensures |Encode(r)| <= 3 {}
    }
  }
}

/** UTF-8 as defined in RFC 3629: the well-formed octet sequences of
    section 4 and the encoding of section 3, over Unicode scalar values
    (Dafny's `char`). Decoding is the inverse of encoding in both directions. */
module Utf8 {
  import opened Wrappers

  /** An octet. */
  type Byte = b: int | 0 <= b < 0x100

  predicate IsTail(b: Byte) { 0x80 <= b <= 0xBF }

  /** The scalar value and the length of the well-formed sequence at the
      start of `s`, or None if `s` does not start with one. The accepted
      first and second octets are those of the table in section 4 of
      RFC 3629, which excludes overlong forms, surrogates and values above
      U+10FFFF. */
  function DecodeScalar(s: seq<Byte>): (r: Option<(char, nat)>)
    ensures r.Some? ==> 1 <= r.value.1 <= 4 && r.value.1 <= |s|
  {
    if |s| == 0 then None
    else
      var b0: int := s[0];
      if b0 <= 0x7F then
        Some((b0 as char, 1))
      else if 0xC2 <= b0 <= 0xDF then
        if |s| >= 2 && IsTail(s[1]) then
          Some((Scalar2(b0, s[1]) as char, 2))
        else None
      else if 0xE0 <= b0 <= 0xEF then
        if |s| >= 3 && IsTail(s[1]) && IsTail(s[2])
           && (b0 == 0xE0 ==> 0xA0 <= s[1]) && (b0 == 0xED ==> s[1] <= 0x9F) then
          Some((Scalar3(b0, s[1], s[2]) as char, 3))
        else None
      else if 0xF0 <= b0 <= 0xF4 then
        if |s| >= 4 && IsTail(s[1]) && IsTail(s[2]) && IsTail(s[3])
           && (b0 == 0xF0 ==> 0x90 <= s[1]) && (b0 == 0xF4 ==> s[1] <= 0x8F) then
          Some((Scalar4(b0, s[1], s[2], s[3]) as char, 4))
        else None
      else None
  }

  /** The scalar value carried by a two-, three- or four-octet sequence:
      the low six bits of each trailing octet after the lead octet's bits. */
  function Scalar2(b0: int, b1: int): int { (b0 - 0xC0) * 0x40 + (b1 - 0x80) }

  function Scalar3(b0: int, b1: int, b2: int): int { (b0 - 0xE0) * 0x1000 + (b1 - 0x80) * 0x40 + (b2 - 0x80) }

  function Scalar4(b0: int, b1: int, b2: int, b3: int): int
  {
    (b0 - 0xF0) * 0x40000 + (b1 - 0x80) * 0x1000 + (b2 - 0x80) * 0x40 + (b3 - 0x80)
  }

  /** The octets that encode one scalar value (section 3 of RFC 3629). */
  function EncodeScalar(c: char): (r: seq<Byte>)
    ensures 1 <= |r| <= 4
  {
    var x := c as int;
    if x < 0x80 then [x]
    else if x < 0x800 then [0xC0 + x / 0x40, 0x80 + x % 0x40]
    else if x < 0x10000 then [0xE0 + x / 0x1000, 0x80 + x / 0x40 % 0x40, 0x80 + x % 0x40]
    else [0xF0 + x / 0x40000, 0x80 + x / 0x1000 % 0x40, 0x80 + x / 0x40 % 0x40, 0x80 + x % 0x40]
  }

  /** The string `s` spells in UTF-8, or None if `s` is not well-formed. */
  function Decode(s: seq<Byte>): (r: Option<string>)
    decreases |s|
  {
    if s == [] then Some("")
    else
      match DecodeScalar(s)
      case None => None
      case Some((c, n)) =>
        match Decode(s[n..])
        case None => None
        case Some(t) => Some([c] + t)
  }

  /** Well-formed UTF-8. */
  predicate Valid(s: seq<Byte>) { Decode(s).Some? }

  function Encode(t: string): (r: seq<Byte>)
  {
    if t == "" then [] else EncodeScalar(t[0]) + Encode(t[1..])
  }

  lemma DecodeEncodeScalar(c: char, rest: seq<Byte>)
    ensures DecodeScalar(EncodeScalar(c) + rest) == Some((c, |EncodeScalar(c)|))
  {
    var x := c as int;
    if x < 0x80 {
    } else if x < 0x800 {
      DecodeEncode2(c, rest);
    } else if x < 0x10000 {
      DecodeEncode3(c, rest);
    } else {
      DecodeEncode4(c, rest);
    }
  }

  /** Division by 64 undoes a shift by six bits. */
  lemma Shift6(q: int, t: int)
    requires 0 <= t < 0x40
    ensures (q * 0x40 + t) / 0x40 == q && (q * 0x40 + t) % 0x40 == t
  {
  }

  lemma NestedDivisions(x: nat)
    ensures x / 0x1000 == x / 0x40 / 0x40
    ensures x / 0x40000 == x / 0x1000 / 0x40
  {
  }

  lemma DecodeEncode2(c: char, rest: seq<Byte>)
    requires 0x80 <= c as int < 0x800
    ensures DecodeScalar(EncodeScalar(c) + rest) == Some((c, 2))
  {
    var x := c as int;
    var s := EncodeScalar(c) + rest;
    Shift6(x / 0x40, x % 0x40);
    assert s[0] == 0xC0 + x / 0x40 && s[1] == 0x80 + x % 0x40;
    assert Scalar2(s[0], s[1]) == x;
  }

  lemma DecodeEncode3(c: char, rest: seq<Byte>)
    requires 0x800 <= c as int < 0x10000
    ensures DecodeScalar(EncodeScalar(c) + rest) == Some((c, 3))
  {
    var x := c as int;
    var s := EncodeScalar(c) + rest;
    NestedDivisions(x);
    var z := x / 0x40;
    var a, b, d := z / 0x40, z % 0x40, x % 0x40;
    assert x == z * 0x40 + d;
    assert z == a * 0x40 + b;
    assert s[0] == 0xE0 + a && s[1] == 0x80 + b && s[2] == 0x80 + d;
    assert Scalar3(s[0], s[1], s[2]) == x;
  }

  lemma DecodeEncode4(c: char, rest: seq<Byte>)
    requires 0x10000 <= c as int
    ensures DecodeScalar(EncodeScalar(c) + rest) == Some((c, 4))
  {
    var x := c as int;
    var s := EncodeScalar(c) + rest;
    NestedDivisions(x);
    var z := x / 0x40;
    var y := z / 0x40;
    var a, b, d, e := y / 0x40, y % 0x40, z % 0x40, x % 0x40;
    assert x == z * 0x40 + e;
    assert z == y * 0x40 + d;
    assert y == a * 0x40 + b;
    assert s[0] == 0xF0 + a && s[1] == 0x80 + b && s[2] == 0x80 + d && s[3] == 0x80 + e;
    assert Scalar4(s[0], s[1], s[2], s[3]) == x;
  }

  lemma EncodeDecodeScalar(s: seq<Byte>)
    requires DecodeScalar(s).Some?
    ensures EncodeScalar(DecodeScalar(s).value.0) == s[..DecodeScalar(s).value.1]
  {
    var b0: int := s[0];
    if b0 <= 0x7F {
    } else if b0 <= 0xDF {
      EncodeDecode2(s[0], s[1]);
    } else if b0 <= 0xEF {
      EncodeDecode3(s[0], s[1], s[2]);
    } else {
      EncodeDecode4(s[0], s[1], s[2], s[3]);
    }
  }

  lemma EncodeDecode2(b0: Byte, b1: Byte)
    requires 0xC2 <= b0 <= 0xDF && IsTail(b1)
    ensures 0x80 <= Scalar2(b0, b1) < 0x800
    ensures EncodeScalar(Scalar2(b0, b1) as char) == [b0, b1]
  {
    Shift6(b0 - 0xC0, b1 - 0x80);
  }

  lemma EncodeDecode3(b0: Byte, b1: Byte, b2: Byte)
    requires 0xE0 <= b0 <= 0xEF && IsTail(b1) && IsTail(b2)
    requires (b0 == 0xE0 ==> 0xA0 <= b1) && (b0 == 0xED ==> b1 <= 0x9F)
    ensures 0x800 <= Scalar3(b0, b1, b2) < 0x10000
    ensures EncodeScalar(Scalar3(b0, b1, b2) as char) == [b0, b1, b2]
  {
    var z := (b0 - 0xE0) * 0x40 + (b1 - 0x80);
    var x := z * 0x40 + (b2 - 0x80);
    assert x == Scalar3(b0, b1, b2);
    Shift6(z, b2 - 0x80);
    Shift6(b0 - 0xE0, b1 - 0x80);
    NestedDivisions(x);
  }

  lemma EncodeDecode4(b0: Byte, b1: Byte, b2: Byte, b3: Byte)
    requires 0xF0 <= b0 <= 0xF4 && IsTail(b1) && IsTail(b2) && IsTail(b3)
    requires (b0 == 0xF0 ==> 0x90 <= b1) && (b0 == 0xF4 ==> b1 <= 0x8F)
    ensures 0x10000 <= Scalar4(b0, b1, b2, b3) < 0x110000
    ensures EncodeScalar(Scalar4(b0, b1, b2, b3) as char) == [b0, b1, b2, b3]
  {
    var y := (b0 - 0xF0) * 0x40 + (b1 - 0x80);
    var z := y * 0x40 + (b2 - 0x80);
    var x := z * 0x40 + (b3 - 0x80);
    assert x == Scalar4(b0, b1, b2, b3);
    Shift6(z, b3 - 0x80);
    Shift6(y, b2 - 0x80);
    Shift6(b0 - 0xF0, b1 - 0x80);
    NestedDivisions(x);
  }

  /** Every string survives encoding followed by decoding. */
  lemma {:induction false} DecodeEncode(t: string)
    ensures Decode(Encode(t)) == Some(t)
  {
    if t != "" {
      var e := EncodeScalar(t[0]);
      DecodeEncodeScalar(t[0], Encode(t[1..]));
      assert (e + Encode(t[1..]))[|e|..] == Encode(t[1..]);
      DecodeEncode(t[1..]);
      assert [t[0]] + t[1..] == t;
    }
  }

  lemma DecodeStep(s: seq<Byte>)
    requires Valid(s) && s != []
    ensures DecodeScalar(s).Some? && Valid(s[DecodeScalar(s).value.1..])
    ensures Decode(s).value == [DecodeScalar(s).value.0] + Decode(s[DecodeScalar(s).value.1..]).value
  {
  }

  lemma EncodeStep(c: char, t: string)
    ensures Encode([c] + t) == EncodeScalar(c) + Encode(t)
  {
  }

  /** Every well-formed octet sequence survives decoding followed by encoding. */
  lemma {:induction false} EncodeDecode(s: seq<Byte>)
    requires Valid(s)
    ensures Encode(Decode(s).value) == s
    decreases |s|
  {
    if s != [] {
      DecodeStep(s);
      var (c, n) := DecodeScalar(s).value;
      EncodeDecodeScalar(s);
      EncodeDecode(s[n..]);
      EncodeStep(c, Decode(s[n..]).value);
      assert s[..n] + s[n..] == s;
    }
  }
}

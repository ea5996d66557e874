/** What `Utf8Valid` accepts: exactly the encodings of Unicode scalar values, by section 3 of RFC 3629. */
module Utf8 {
  import opened Bytes
  import opened ClientHello

  type Scalar = c: int | 0 <= c <= 0x10_FFFF && !(0xD800 <= c <= 0xDFFF)

  ghost function EncodeScalar(c: Scalar): (r: seq<Byte>)
    ensures 1 <= |r| <= 4
  {
    if c < 0x80 then [c]
    else if c < 0x800 then [0xC0 + c / 0x40, 0x80 + c % 0x40]
    else if c < 0x1_0000 then [0xE0 + c / 0x1000, 0x80 + c / 0x40 % 0x40, 0x80 + c % 0x40]
    else [0xF0 + c / 0x4_0000, 0x80 + c / 0x1000 % 0x40, 0x80 + c / 0x40 % 0x40, 0x80 + c % 0x40]
  }

  ghost function EncodeText(cs: seq<Scalar>): seq<Byte> {
    if cs == [] then [] else EncodeScalar(cs[0]) + EncodeText(cs[1..])
  }

  /** The head of an encoded text is its first character. */
  lemma HeadOfEncoding(c: Scalar, rest: seq<Byte>)
    ensures Utf8Head(EncodeScalar(c) + rest) == |EncodeScalar(c)|
  {
    var e := EncodeScalar(c);
    var b := e + rest;
    assert forall i :: 0 <= i < |e| ==> b[i] == e[i];
  }

  lemma Digits(high: nat, low: nat)
    requires low < 0x40
    ensures (high * 0x40 + low) / 0x40 == high && (high * 0x40 + low) % 0x40 == low
  {
  }

  lemma TwoBytes(x: int, y: int) returns (c: Scalar)
    requires 0xC2 <= x <= 0xDF && 0x80 <= y <= 0xBF
    ensures EncodeScalar(c) == [x, y]
  {
    c := (x - 0xC0) * 0x40 + (y - 0x80);
  }

  lemma ThreeBytes(x: int, y: int, z: int) returns (c: Scalar)
    requires 0xE0 <= x <= 0xEF && 0x80 <= y <= 0xBF && 0x80 <= z <= 0xBF
    requires (x == 0xE0 ==> y >= 0xA0) && (x == 0xED ==> y <= 0x9F)
    ensures EncodeScalar(c) == [x, y, z]
  {
    var high := (x - 0xE0) * 0x40 + (y - 0x80);
    Digits(x - 0xE0, y - 0x80);
    Digits(high, z - 0x80);
    c := high * 0x40 + (z - 0x80);
    assert c / 0x1000 == c / 0x40 / 0x40;
  }

  lemma FourBytes(x: int, y: int, z: int, w: int) returns (c: Scalar)
    requires 0xF0 <= x <= 0xF4 && 0x80 <= y <= 0xBF && 0x80 <= z <= 0xBF && 0x80 <= w <= 0xBF
    requires (x == 0xF0 ==> y >= 0x90) && (x == 0xF4 ==> y <= 0x8F)
    ensures EncodeScalar(c) == [x, y, z, w]
  {
    var top := (x - 0xF0) * 0x40 + (y - 0x80);
    var high := top * 0x40 + (z - 0x80);
    Digits(x - 0xF0, y - 0x80);
    Digits(top, z - 0x80);
    Digits(high, w - 0x80);
    c := high * 0x40 + (w - 0x80);
    assert c / 0x1000 == c / 0x40 / 0x40 && c / 0x4_0000 == c / 0x40 / 0x40 / 0x40;
  }

  /** A head that is accepted encodes a scalar value. */
  lemma HeadIsEncoding(b: seq<Byte>) returns (c: Scalar)
    requires b != [] && Utf8Head(b) > 0
    ensures EncodeScalar(c) == b[..Utf8Head(b)]
  {
    var n := Utf8Head(b);
    if n == 1 {
      c := b[0];
      assert b[..1] == [b[0]];
    } else if n == 2 {
      c := TwoBytes(b[0], b[1]);
      assert b[..2] == [b[0], b[1]];
    } else if n == 3 {
      c := ThreeBytes(b[0], b[1], b[2]);
      assert b[..3] == [b[0], b[1], b[2]];
    } else {
      c := FourBytes(b[0], b[1], b[2], b[3]);
      assert b[..4] == [b[0], b[1], b[2], b[3]];
    }
  }

  lemma {:induction false} EncodedIsValid(cs: seq<Scalar>)
    ensures Utf8Valid(EncodeText(cs))
  {
    if cs != [] {
      var e, rest := EncodeScalar(cs[0]), EncodeText(cs[1..]);
      EncodedIsValid(cs[1..]);
      HeadOfEncoding(cs[0], rest);
      assert (e + rest)[|e|..] == rest;
    }
  }

  lemma {:induction false} ValidIsEncoded(b: seq<Byte>) returns (cs: seq<Scalar>)
    requires Utf8Valid(b)
    ensures EncodeText(cs) == b
    decreases |b|
  {
    cs := [];
    if b != [] {
      var n := Utf8Head(b);
      var c := HeadIsEncoding(b);
      var rest := ValidIsEncoded(b[n..]);
      cs := [c] + rest;
      assert cs[1..] == rest && b == b[..n] + b[n..];
    }
  }

  /** The bytes are valid if and only if they encode some sequence of scalar values. */
  lemma ValidIffEncodes(b: seq<Byte>)
    ensures Utf8Valid(b) <==> exists cs: seq<Scalar> :: EncodeText(cs) == b
  {
    if Utf8Valid(b) { var cs := ValidIsEncoded(b); }
    if cs: seq<Scalar> :| EncodeText(cs) == b { EncodedIsValid(cs); }
  }
}

/**
  UTF-8 as defined by RFC 3629, section 3, over sequences of Unicode scalar
  values (Dafny `char`). This is what `Buffer.from(svg, "utf-8")` produces for
  a string without lone surrogates.
 */
module Utf8 {
  import opened Wrappers
  import opened Bytes

  /** A continuation octet: 10xxxxxx. */
  predicate IsContinuation(b: byte) {
    0x80 <= b < 0xC0
  }

  /** The one- to four-octet encoding of a single scalar value (RFC 3629, section 3 table). */
  function EncodeScalar(c: char): (r: seq<byte>)
    ensures |r| == 1 <==> c as int < 0x80
    ensures |r| == 2 <==> 0x80 <= c as int < 0x800
    ensures |r| == 3 <==> 0x800 <= c as int < 0x10000
    ensures |r| == 4 <==> 0x10000 <= c as int
    ensures !IsContinuation(r[0])
    ensures forall k :: 1 <= k < |r| ==> IsContinuation(r[k])
  {
    var v := c as int;
    if v < 0x80 then
      [v]
    else if v < 0x800 then
      [0xC0 + v / 64, 0x80 + v % 64]
    else if v < 0x10000 then
      [0xE0 + v / 4096, 0x80 + (v / 64) % 64, 0x80 + v % 64]
    else
      [0xF0 + v / 262144, 0x80 + (v / 4096) % 64, 0x80 + (v / 64) % 64, 0x80 + v % 64]
  }

  /** The encoding of a whole string: the concatenation of its scalars' encodings. */
  function Encode(s: string): (r: seq<byte>)
    ensures |s| <= |r| <= 4 * |s|
  {
    if s == [] then [] else EncodeScalar(s[0]) + Encode(s[1..])
  }

  /** True when `v` may be encoded: a Unicode scalar value (no surrogates, at most U+10FFFF). */
  predicate IsScalarValue(v: int) {
    (0 <= v < 0xD800) || (0xE000 <= v < 0x110000)
  }

  /**
    Decodes the first scalar value of `b`, rejecting everything RFC 3629
    forbids: stray continuation octets, overlong forms, surrogates and values
    above U+10FFFF. Returns the scalar and the number of octets it used.
   */
  function DecodeScalar(b: seq<byte>): (r: Option<(char, nat)>)
    ensures r.Some? ==> 1 <= r.value.1 <= |b| && r.value.1 <= 4
  {
    if |b| == 0 then None
    else if b[0] < 0x80 then Some((b[0] as char, 1))
    else if 0xC2 <= b[0] < 0xE0 then
      if |b| < 2 || !IsContinuation(b[1]) then None
      else Some((((b[0] as int - 0xC0) * 64 + (b[1] as int - 0x80)) as char, 2))
    else if 0xE0 <= b[0] < 0xF0 then
      if |b| < 3 || !IsContinuation(b[1]) || !IsContinuation(b[2]) then None
      else
        var v := (b[0] as int - 0xE0) * 4096 + (b[1] as int - 0x80) * 64 + (b[2] as int - 0x80);
        if v < 0x800 || !IsScalarValue(v) then None else Some((v as char, 3))
    else if 0xF0 <= b[0] < 0xF5 then
      if |b| < 4 || !IsContinuation(b[1]) || !IsContinuation(b[2]) || !IsContinuation(b[3]) then None
      else
        var v := (b[0] as int - 0xF0) * 262144 + (b[1] as int - 0x80) * 4096
          + (b[2] as int - 0x80) * 64 + (b[3] as int - 0x80);
        if v < 0x10000 || !IsScalarValue(v) then None else Some((v as char, 4))
    else None
  }

  /** Decodes a whole octet sequence, or None if any part of it is not valid UTF-8. */
  function Decode(b: seq<byte>): Option<string>
    decreases |b|
  {
    if b == [] then Some([])
    else
      match DecodeScalar(b)
      case None => None
      case Some((c, n)) =>
        match Decode(b[n..])
        case None => None
        case Some(rest) => Some([c] + rest)
  }

  /** Splitting a value into base-64 digits and putting it back together is the identity. */
  lemma {:induction false} SixBitDigits(v: nat)
    ensures v == (v / 64) * 64 + v % 64
    ensures v / 64 == (v / 4096) * 64 + (v / 64) % 64
    ensures v / 4096 == (v / 262144) * 64 + (v / 4096) % 64
  {
  }

  /** The decoder reads back exactly the scalar the encoder wrote, whatever follows it. */
  lemma {:induction false} DecodeEncodeScalar(c: char, rest: seq<byte>)
    ensures DecodeScalar(EncodeScalar(c) + rest) == Some((c, |EncodeScalar(c)|))
  {
    var v := c as int;
    var e := EncodeScalar(c);
    var b := e + rest;
    SixBitDigits(v);
    if v < 0x80 {
    } else if v < 0x800 {
      assert b[0] == 0xC0 + v / 64 && b[1] == 0x80 + v % 64;
    } else if v < 0x10000 {
      assert b[0] == 0xE0 + v / 4096 && b[1] == 0x80 + (v / 64) % 64 && b[2] == 0x80 + v % 64;
    } else {
      assert b[0] == 0xF0 + v / 262144 && b[1] == 0x80 + (v / 4096) % 64;
      assert b[2] == 0x80 + (v / 64) % 64 && b[3] == 0x80 + v % 64;
    }
  }

  /** Round trip: decoding an encoded string gives the string back. */
  lemma {:induction false} DecodeEncode(s: string)
    ensures Decode(Encode(s)) == Some(s)
  {
    if s != [] {
      var e := EncodeScalar(s[0]);
      var tail := Encode(s[1..]);
      assert Encode(s) == e + tail;
      DecodeEncodeScalar(s[0], tail);
      assert (e + tail)[|e|..] == tail;
      DecodeEncode(s[1..]);
      assert [s[0]] + s[1..] == s;
    }
  }

  /** A two-octet form the decoder accepts is the encoder's output for its scalar. */
  lemma {:induction false} EncodeDecodeTwo(b: seq<byte>)
    requires DecodeScalar(b).Some? && 0xC2 <= b[0] < 0xE0
    ensures EncodeScalar(DecodeScalar(b).value.0) == b[..2]
  {
    var d0, d1 := b[0] as int - 0xC0, b[1] as int - 0x80;
    var v := d0 * 64 + d1;
    assert DecodeScalar(b).value.0 as int == v;
    DivModConst(d0, d1, 64);
    assert b[..2] == [b[0], b[1]];
  }

  /** A three-octet form the decoder accepts is the encoder's output for its scalar. */
  lemma {:induction false} EncodeDecodeThree(b: seq<byte>)
    requires DecodeScalar(b).Some? && 0xE0 <= b[0] < 0xF0
    ensures EncodeScalar(DecodeScalar(b).value.0) == b[..3]
  {
    var d0, d1, d2 := b[0] as int - 0xE0, b[1] as int - 0x80, b[2] as int - 0x80;
    var v := d0 * 4096 + d1 * 64 + d2;
    assert DecodeScalar(b).value.0 as int == v;
    DivModConst(d0, d1 * 64 + d2, 4096);
    DivModConst(d0 * 64 + d1, d2, 64);
    DivModConst(d0, d1, 64);
    assert b[..3] == [b[0], b[1], b[2]];
  }

  /** A four-octet form the decoder accepts is the encoder's output for its scalar. */
  lemma {:induction false} EncodeDecodeFour(b: seq<byte>)
    requires DecodeScalar(b).Some? && 0xF0 <= b[0]
    ensures EncodeScalar(DecodeScalar(b).value.0) == b[..4]
  {
    var d0, d1 := b[0] as int - 0xF0, b[1] as int - 0x80;
    var d2, d3 := b[2] as int - 0x80, b[3] as int - 0x80;
    var v := d0 * 262144 + d1 * 4096 + d2 * 64 + d3;
    assert DecodeScalar(b).value.0 as int == v;
    DivModConst(d0, d1 * 4096 + d2 * 64 + d3, 262144);
    DivModConst(d0 * 64 + d1, d2 * 64 + d3, 4096);
    DivModConst(d0, d1, 64);
    DivModConst(d0 * 4096 + d1 * 64 + d2, d3, 64);
    DivModConst(d0 * 64 + d1, d2, 64);
    assert b[..4] == [b[0], b[1], b[2], b[3]];
  }

  /** The octets the decoder consumes for one scalar are exactly that scalar's encoding. */
  lemma {:induction false} EncodeDecodeScalar(b: seq<byte>)
    requires DecodeScalar(b).Some?
    ensures EncodeScalar(DecodeScalar(b).value.0) == b[..DecodeScalar(b).value.1]
  {
    if b[0] < 0x80 {
      assert b[..1] == [b[0]];
    } else if b[0] < 0xE0 {
      EncodeDecodeTwo(b);
    } else if b[0] < 0xF0 {
      EncodeDecodeThree(b);
    } else {
      EncodeDecodeFour(b);
    }
  }

  /**
    Round trip the other way: the decoder is strict, so any octet sequence it
    accepts is the encoding of what it decodes to.
   */
  lemma {:induction false} EncodeDecode(b: seq<byte>)
    requires Decode(b).Some?
    ensures Encode(Decode(b).value) == b
    decreases |b|
  {
    if b != [] {
      var c, n := DecodeScalar(b).value.0, DecodeScalar(b).value.1;
      var rest := Decode(b[n..]).value;
      assert Decode(b).value == [c] + rest;
      EncodeDecodeScalar(b);
      EncodeDecode(b[n..]);
      assert ([c] + rest)[0] == c && ([c] + rest)[1..] == rest;
      assert b[..n] + b[n..] == b;
    }
  }
}

/**
  Base64 as defined by RFC 4648, section 4: the standard alphabet with `=`
  padding, which is what `Buffer#toString("base64")` emits. The decoder is
  the strict canonical one (RFC 4648, section 3.5): it accepts only what the
  encoder can produce, so the two are exact inverses.
 */
module Base64 {
  import opened Wrappers
  import opened Bytes

  /** A six-bit group, the unit of the alphabet. */
  type sextet = x: int | 0 <= x < 64

  /** The alphabet of RFC 4648, section 4, Table 1. */
  function EncodeSextet(v: sextet): (c: char)
    ensures c != '='
  {
    if v < 26 then (65 + v) as char         // 'A'..'Z'
    else if v < 52 then (97 + v - 26) as char  // 'a'..'z'
    else if v < 62 then (48 + v - 52) as char  // '0'..'9'
    else if v == 62 then '+'
    else '/'
  }

  /** The 64 characters of the alphabet. */
  predicate IsAlphabet(c: char) {
    ('A' <= c <= 'Z') || ('a' <= c <= 'z') || ('0' <= c <= '9') || c == '+' || c == '/'
  }

  /** The inverse of the alphabet table; None for characters outside it. */
  function DecodeSextet(c: char): (r: Option<sextet>)
    ensures r.Some? <==> IsAlphabet(c)
    ensures r.Some? ==> EncodeSextet(r.value) == c
  {
    if 'A' <= c <= 'Z' then Some(c as int - 65)
    else if 'a' <= c <= 'z' then Some(c as int - 97 + 26)
    else if '0' <= c <= '9' then Some(c as int - 48 + 52)
    else if c == '+' then Some(62)
    else if c == '/' then Some(63)
    else None
  }

  /** Every sextet maps to an alphabet character, and back to itself. */
  lemma DecodeEncodeSextet(v: sextet)
    ensures IsAlphabet(EncodeSextet(v))
    ensures DecodeSextet(EncodeSextet(v)) == Some(v)
  {
  }

  /** Three octets become four characters. */
  function EncodeTriple(b0: byte, b1: byte, b2: byte): string {
    [EncodeSextet(b0 / 4), EncodeSextet((b0 % 4) * 16 + b1 / 16),
     EncodeSextet((b1 % 16) * 4 + b2 / 64), EncodeSextet(b2 % 64)]
  }

  /**
    The encoding of `b`: four characters per three octets, the last group
    padded with `=` when one or two octets remain.
   */
  function Encode(b: seq<byte>): (r: string)
    ensures |r| == 4 * ((|b| + 2) / 3)
    decreases |b|
  {
    if |b| >= 3 then
      EncodeTriple(b[0], b[1], b[2]) + Encode(b[3..])
    else if |b| == 2 then
      [EncodeSextet(b[0] / 4), EncodeSextet((b[0] % 4) * 16 + b[1] / 16), EncodeSextet((b[1] % 16) * 4), '=']
    else if |b| == 1 then
      [EncodeSextet(b[0] / 4), EncodeSextet((b[0] % 4) * 16), '=', '=']
    else
      []
  }

  /** Every character of an encoding is in the alphabet, except `=` in the last two positions. */
  lemma {:induction false} EncodeAlphabet(b: seq<byte>)
    ensures forall i :: 0 <= i < |Encode(b)| ==> IsAlphabet(Encode(b)[i]) || (Encode(b)[i] == '=' && i >= |Encode(b)| - 2)
    decreases |b|
  {
    if |b| >= 3 {
      var q, rest := EncodeTriple(b[0], b[1], b[2]), Encode(b[3..]);
      EncodeAlphabet(b[3..]);
      DecodeEncodeSextet(b[0] / 4);
      DecodeEncodeSextet((b[0] % 4) * 16 + b[1] / 16);
      DecodeEncodeSextet((b[1] % 16) * 4 + b[2] / 64);
      DecodeEncodeSextet(b[2] % 64);
      assert Encode(b) == q + rest;
      forall i | 0 <= i < |q + rest|
        ensures IsAlphabet((q + rest)[i]) || ((q + rest)[i] == '=' && i >= |q + rest| - 2)
      {
        if i >= 4 {
          assert (q + rest)[i] == rest[i - 4];
        }
      }
    } else if |b| == 2 {
      DecodeEncodeSextet(b[0] / 4);
      DecodeEncodeSextet((b[0] % 4) * 16 + b[1] / 16);
      DecodeEncodeSextet((b[1] % 16) * 4);
    } else if |b| == 1 {
      DecodeEncodeSextet(b[0] / 4);
      DecodeEncodeSextet((b[0] % 4) * 16);
    }
  }

  /**
    Decodes one four-character group. `last` says whether padding may appear
    (only in the final group). Pad bits left over by a short group must be zero.
   */
  function DecodeQuad(q: string, last: bool): (r: Option<seq<byte>>)
    requires |q| == 4
    ensures r.Some? ==> 1 <= |r.value| <= 3 && (!last ==> |r.value| == 3)
  {
    var d0, d1 := DecodeSextet(q[0]), DecodeSextet(q[1]);
    if d0.None? || d1.None? then None
    else
      var c0, c1 := d0.value, d1.value;
      if q[2] == '=' && q[3] == '=' then
        if !last || c1 % 16 != 0 then None
        else Some([c0 * 4 + c1 / 16])
      else
        var d2 := DecodeSextet(q[2]);
        if d2.None? then None
        else
          var c2 := d2.value;
          if q[3] == '=' then
            if !last || c2 % 4 != 0 then None
            else Some([c0 * 4 + c1 / 16, (c1 % 16) * 16 + c2 / 4])
          else
            var d3 := DecodeSextet(q[3]);
            if d3.None? then None
            else Some([c0 * 4 + c1 / 16, (c1 % 16) * 16 + c2 / 4, (c2 % 4) * 64 + d3.value])
  }

  /** Decodes a whole Base64 text, or None if it is not a canonical encoding. */
  function Decode(s: string): Option<seq<byte>>
    decreases |s|
  {
    if s == [] then Some([])
    else if |s| < 4 then None
    else
      match DecodeQuad(s[..4], |s| == 4)
      case None => None
      case Some(head) =>
        match Decode(s[4..])
        case None => None
        case Some(tail) => Some(head + tail)
  }

  /** The arithmetic of one group, encoder side: octets -> sextets -> octets. */
  lemma {:induction false} OctetsSextetsOctets(b0: byte, b1: byte, b2: byte)
    ensures (b0 / 4) * 4 + ((b0 % 4) * 16 + b1 / 16) / 16 == b0
    ensures (((b0 % 4) * 16 + b1 / 16) % 16) * 16 + ((b1 % 16) * 4 + b2 / 64) / 4 == b1
    ensures (((b1 % 16) * 4 + b2 / 64) % 4) * 64 + b2 % 64 == b2
  {
    DivModConst(b0 % 4, b1 / 16, 16);
    DivModConst(b1 % 16, b2 / 64, 4);
  }

  /** The arithmetic of one group, decoder side: sextets -> octets -> sextets. */
  lemma {:induction false} SextetsOctetsSextets(c0: sextet, c1: sextet, c2: sextet, c3: sextet)
    ensures (c0 * 4 + c1 / 16) / 4 == c0
    ensures ((c0 * 4 + c1 / 16) % 4) * 16 + ((c1 % 16) * 16 + c2 / 4) / 16 == c1
    ensures (((c1 % 16) * 16 + c2 / 4) % 16) * 4 + ((c2 % 4) * 64 + c3) / 64 == c2
    ensures ((c2 % 4) * 64 + c3) % 64 == c3
  {
    DivModConst(c0, c1 / 16, 4);
    DivModConst(c1 % 16, c2 / 4, 16);
    DivModConst(c2 % 4, c3, 64);
  }

  /** A full group the encoder wrote decodes to its three octets. */
  lemma {:induction false} DecodeThreeEncoded(b0: byte, b1: byte, b2: byte, last: bool)
    ensures DecodeQuad(EncodeTriple(b0, b1, b2), last) == Some([b0, b1, b2])
  {
    var s0, s1, s2, s3 := b0 / 4, (b0 % 4) * 16 + b1 / 16, (b1 % 16) * 4 + b2 / 64, b2 % 64;
    OctetsSextetsOctets(b0, b1, b2);
    DecodeEncodeSextet(s0);
    DecodeEncodeSextet(s1);
    DecodeEncodeSextet(s2);
    DecodeEncodeSextet(s3);
  }

  /** A `xxx=` group the encoder wrote decodes to its two octets. */
  lemma {:induction false} DecodeTwoEncoded(b0: byte, b1: byte)
    ensures DecodeQuad(Encode([b0, b1]), true) == Some([b0, b1])
  {
    var s0, s1, s2 := b0 / 4, (b0 % 4) * 16 + b1 / 16, (b1 % 16) * 4;
    assert Encode([b0, b1]) == [EncodeSextet(s0), EncodeSextet(s1), EncodeSextet(s2), '='];
    OctetsSextetsOctets(b0, b1, 0);
    DecodeEncodeSextet(s0);
    DecodeEncodeSextet(s1);
    DecodeEncodeSextet(s2);
  }

  /** A `xx==` group the encoder wrote decodes to its one octet. */
  lemma {:induction false} DecodeOneEncoded(b0: byte)
    ensures DecodeQuad(Encode([b0]), true) == Some([b0])
  {
    var s0, s1 := b0 / 4, (b0 % 4) * 16;
    assert Encode([b0]) == [EncodeSextet(s0), EncodeSextet(s1), '=', '='];
    OctetsSextetsOctets(b0, 0, 0);
    DivModConst(b0 % 4, 0, 16);
    DecodeEncodeSextet(s0);
    DecodeEncodeSextet(s1);
  }

  /** Re-encoding the octet a `xx==` group decodes to. */
  lemma {:induction false} EncodeOneDecoded(c0: sextet, c1: sextet)
    requires c1 % 16 == 0
    ensures c0 * 4 + c1 / 16 < 256
    ensures Encode([c0 * 4 + c1 / 16]) == [EncodeSextet(c0), EncodeSextet(c1), '=', '=']
  {
    SextetsOctetsSextets(c0, c1, 0, 0);
    DivModConst(c1 / 16, 0, 16);
  }

  /** Re-encoding the two octets a `xxx=` group decodes to. */
  lemma {:induction false} EncodeTwoDecoded(c0: sextet, c1: sextet, c2: sextet)
    requires c2 % 4 == 0
    ensures c0 * 4 + c1 / 16 < 256 && (c1 % 16) * 16 + c2 / 4 < 256
    ensures Encode([c0 * 4 + c1 / 16, (c1 % 16) * 16 + c2 / 4])
         == [EncodeSextet(c0), EncodeSextet(c1), EncodeSextet(c2), '=']
  {
    SextetsOctetsSextets(c0, c1, c2, 0);
    DivModConst(c2 / 4, 0, 4);
  }

  /** Re-encoding the three octets a full group decodes to. */
  lemma {:induction false} EncodeThreeDecoded(c0: sextet, c1: sextet, c2: sextet, c3: sextet)
    ensures c0 * 4 + c1 / 16 < 256 && (c1 % 16) * 16 + c2 / 4 < 256 && (c2 % 4) * 64 + c3 < 256
    ensures Encode([c0 * 4 + c1 / 16, (c1 % 16) * 16 + c2 / 4, (c2 % 4) * 64 + c3])
         == [EncodeSextet(c0), EncodeSextet(c1), EncodeSextet(c2), EncodeSextet(c3)]
  {
    SextetsOctetsSextets(c0, c1, c2, c3);
    EncodeGroupOf(c0 * 4 + c1 / 16, (c1 % 16) * 16 + c2 / 4, (c2 % 4) * 64 + c3, c0, c1, c2, c3);
  }

  /** Three or more octets: one full group, then the encoding of the rest. */
  lemma EncodeFullGroup(b: seq<byte>)
    requires |b| >= 3
    ensures Encode(b) == EncodeTriple(b[0], b[1], b[2]) + Encode(b[3..])
  {
  }

  /** The decoder reads an accepted first group, then the rest. */
  lemma {:induction false} DecodeAppend(q: string, rest: string, head: seq<byte>, tail: seq<byte>)
    requires |q| == 4 && DecodeQuad(q, rest == []) == Some(head) && Decode(rest) == Some(tail)
    ensures Decode(q + rest) == Some(head + tail)
  {
    assert (q + rest)[..4] == q && (q + rest)[4..] == rest;
  }

  /** A group the decoder accepts is exactly the encoder's output for what it decoded to. */
  lemma {:induction false} EncodingOfDecodeQuad(q: string, last: bool)
    requires |q| == 4 && DecodeQuad(q, last).Some?
    ensures Encode(DecodeQuad(q, last).value) == q
  {
    if q[2] == '=' && q[3] == '=' {
      EncodingOfOnePadded(q, last);
    } else if q[3] == '=' {
      EncodingOfTwoPadded(q, last);
    } else {
      EncodingOfUnpadded(q, last);
    }
  }

  lemma {:induction false} EncodingOfOnePadded(q: string, last: bool)
    requires |q| == 4 && DecodeQuad(q, last).Some? && q[2] == '=' && q[3] == '='
    ensures Encode(DecodeQuad(q, last).value) == q
  {
    var c0: int, c1: int := DecodeSextet(q[0]).value, DecodeSextet(q[1]).value;
    assert q == [q[0], q[1], q[2], q[3]];
    assert DecodeQuad(q, last).value == [c0 * 4 + c1 / 16];
    EncodeOneDecoded(c0, c1);
  }

  lemma {:induction false} EncodingOfTwoPadded(q: string, last: bool)
    requires |q| == 4 && DecodeQuad(q, last).Some? && q[2] != '=' && q[3] == '='
    ensures Encode(DecodeQuad(q, last).value) == q
  {
    var c0: int, c1: int := DecodeSextet(q[0]).value, DecodeSextet(q[1]).value;
    var c2: int := DecodeSextet(q[2]).value;
    assert q == [q[0], q[1], q[2], q[3]];
    assert DecodeQuad(q, last).value == [c0 * 4 + c1 / 16, (c1 % 16) * 16 + c2 / 4];
    EncodeTwoDecoded(c0, c1, c2);
  }

  lemma {:induction false} EncodingOfUnpadded(q: string, last: bool)
    requires |q| == 4 && DecodeQuad(q, last).Some? && q[3] != '='
    ensures Encode(DecodeQuad(q, last).value) == q
  {
    var c0, c1, c2, c3 := UnpaddedSextets(q, last);
    EncodeThreeDecoded(c0, c1, c2, c3);
  }

  /** The sextets of an accepted unpadded group, and the three octets they make. */
  lemma {:induction false} UnpaddedSextets(q: string, last: bool) returns (c0: sextet, c1: sextet, c2: sextet, c3: sextet)
    requires |q| == 4 && DecodeQuad(q, last).Some? && q[3] != '='
    ensures q == [EncodeSextet(c0), EncodeSextet(c1), EncodeSextet(c2), EncodeSextet(c3)]
    ensures DecodeQuad(q, last).value == [c0 * 4 + c1 / 16, (c1 % 16) * 16 + c2 / 4, (c2 % 4) * 64 + c3]
  {
    c0, c1 := DecodeSextet(q[0]).value, DecodeSextet(q[1]).value;
    c2, c3 := DecodeSextet(q[2]).value, DecodeSextet(q[3]).value;
  }

  /** Three octets whose sextets are known encode to those sextets' characters. */
  lemma EncodeGroupOf(x: byte, y: byte, z: byte, c0: sextet, c1: sextet, c2: sextet, c3: sextet)
    requires x / 4 == c0 && (x % 4) * 16 + y / 16 == c1 && (y % 16) * 4 + z / 64 == c2 && z % 64 == c3
    ensures Encode([x, y, z]) == [EncodeSextet(c0), EncodeSextet(c1), EncodeSextet(c2), EncodeSextet(c3)]
  {
    EncodeOneGroup(x, y, z);
  }

  /** Exactly three octets make one unpadded group. */
  lemma EncodeOneGroup(x: byte, y: byte, z: byte)
    ensures Encode([x, y, z])
         == [EncodeSextet(x / 4), EncodeSextet((x % 4) * 16 + y / 16), EncodeSextet((y % 16) * 4 + z / 64), EncodeSextet(z % 64)]
  {
    EncodeFullGroup([x, y, z]);
    assert [x, y, z][3..] == [];
  }

  /** Round trip: decoding the encoding of any octet sequence gives it back. */
  lemma {:induction false} DecodeEncode(b: seq<byte>)
    ensures Decode(Encode(b)) == Some(b)
    decreases |b|
  {
    if |b| >= 3 {
      DecodeEncode(b[3..]);
      DecodeEncodeGroup(b);
    } else if |b| > 0 {
      DecodeEncodeShort(b);
    }
  }

  /** A leading full group decodes to its three octets, ahead of whatever the rest decodes to. */
  lemma {:induction false} DecodeEncodeGroup(b: seq<byte>)
    requires |b| >= 3 && Decode(Encode(b[3..])) == Some(b[3..])
    ensures Decode(Encode(b)) == Some(b)
  {
    var q, rest := EncodeTriple(b[0], b[1], b[2]), Encode(b[3..]);
    EncodeFullGroup(b);
    DecodeThreeEncoded(b[0], b[1], b[2], rest == []);
    DecodeAppend(q, rest, [b[0], b[1], b[2]], b[3..]);
    assert [b[0], b[1], b[2]] + b[3..] == b;
  }

  /** One or two octets: a single padded group that decodes back to them. */
  lemma {:induction false} DecodeEncodeShort(b: seq<byte>)
    requires 1 <= |b| <= 2
    ensures Decode(Encode(b)) == Some(b)
  {
    if |b| == 2 {
      assert b == [b[0], b[1]];
      DecodeTwoEncoded(b[0], b[1]);
    } else {
      assert b == [b[0]];
      DecodeOneEncoded(b[0]);
    }
    DecodeAppend(Encode(b), [], b, []);
    assert Encode(b) + [] == Encode(b) && b + [] == b;
  }

  /** Round trip the other way: any text the decoder accepts is the encoding of what it decodes to. */
  lemma {:induction false} EncodeDecode(s: string)
    requires Decode(s).Some?
    ensures Encode(Decode(s).value) == s
    decreases |s|
  {
    if s != [] {
      var q := s[..4];
      var head := DecodeQuad(q, |s| == 4).value;
      EncodingOfDecodeQuad(q, |s| == 4);
      var tail := Decode(s[4..]).value;
      assert Decode(s).value == head + tail;
      if |s| == 4 {
        assert s[4..] == [];
        assert tail == [];
        assert head + tail == head;
        assert q == s;
      } else {
        EncodeDecode(s[4..]);
        assert |head| == 3;
        assert (head + tail)[..3] == head && (head + tail)[3..] == tail;
        assert Encode(head) == EncodeTriple(head[0], head[1], head[2]) + Encode([]);
        assert Encode(head + tail) == EncodeTriple(head[0], head[1], head[2]) + Encode(tail);
        assert q + s[4..] == s;
      }
    }
  }
}

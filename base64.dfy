/**
 * `base64.StdEncoding` of Go: the base 64 alphabet of section 4 of RFC 4648,
 * with `=` padding. Only `EncodedLen` and `Encode` are used by disco/caps.go;
 * `Decode` is the inverse the encoding is checked against.
 */
module Base64 {
  import opened ByteOrder
  import opened Results

  /** The character for a 6-bit group: A-Z, a-z, 0-9, '+', '/'. */
  function Symbol(v: int): byte
    requires 0 <= v < 64
  {
    if v < 26 then (65 + v) as byte
    else if v < 52 then (71 + v) as byte
    else if v < 62 then (v - 4) as byte
    else if v == 62 then 43
    else 47
  }

  /** The padding character '='. */
  const Pad: byte := 61

  /** The 6-bit group a character stands for, if it is in the alphabet. */
  function Value(c: byte): (v: Option<int>)
    ensures v.Some? ==> 0 <= v.value < 64 && Symbol(v.value) == c
    ensures c == Pad ==> v.None?
  {
    if 65 <= c <= 90 then Some(c as int - 65)
    else if 97 <= c <= 122 then Some(c as int - 71)
    else if 48 <= c <= 57 then Some(c as int + 4)
    else if c == 43 then Some(62)
    else if c == 47 then Some(63)
    else None
  }

  lemma ValueOfSymbol(v: int)
    requires 0 <= v < 64
    ensures Value(Symbol(v)) == Some(v)
  {
  }

  /** A character that can appear in the output: an alphabet symbol or the padding. */
  predicate IsEncodedChar(c: byte)
  {
    Value(c).Some? || c == Pad
  }

  /** `base64.StdEncoding.EncodedLen(n)`: every started group of three bytes takes four characters. */
  function EncodedLen(n: nat): nat
  {
    (n + 2) / 3 * 4
  }

  /** `base64.StdEncoding.Encode`: three bytes at a time; a final group of one or two
      bytes is padded to four characters with '='. */
  function Encode(s: Bytes): (r: Bytes)
    ensures |r| == EncodedLen(|s|)
  {
    if |s| == 0 then []
    else if |s| == 1 then EncodeOne(s[0])
    else if |s| == 2 then EncodeTwo(s[0], s[1])
    else EncodeQuantum(s[0], s[1], s[2]) + Encode(s[3..])
  }

  /** A final group of one byte: two characters and two paddings. */
  function EncodeOne(b0: byte): Bytes
  {
    var x0 := b0 as int;
    [Symbol(x0 / 4), Symbol(x0 % 4 * 16), Pad, Pad]
  }

  /** A final group of two bytes: three characters and one padding. */
  function EncodeTwo(b0: byte, b1: byte): Bytes
  {
    var x0, x1 := b0 as int, b1 as int;
    [Symbol(x0 / 4), Symbol(x0 % 4 * 16 + x1 / 16), Symbol(x1 % 16 * 4), Pad]
  }

  /** Decodes one group of four characters; `last` says whether padding is allowed. */
  function DecodeQuantum(q: Bytes, last: bool): Option<Bytes>
    requires |q| == 4
  {
    var v0, v1 := Value(q[0]), Value(q[1]);
    if v0.None? || v1.None? then None
    else
      var b0 := (v0.value * 4 + v1.value / 16) as byte;
      if last && q[2] == Pad && q[3] == Pad then Some([b0])
      else
        var v2 := Value(q[2]);
        if v2.None? then None
        else
          var b1 := (v1.value % 16 * 16 + v2.value / 4) as byte;
          if last && q[3] == Pad then Some([b0, b1])
          else
            var v3 := Value(q[3]);
            if v3.None? then None
            else Some([b0, b1, (v2.value % 4 * 64 + v3.value) as byte])
  }

  /** Decoding of padded standard base 64; `None` for malformed input. */
  function Decode(r: Bytes): Option<Bytes>
  {
    if |r| == 0 then Some([])
    else if |r| < 4 then None
    else
      var q := DecodeQuantum(r[..4], |r| == 4);
      var rest := Decode(r[4..]);
      if q.None? || rest.None? then None else Some(q.value + rest.value)
  }

  /** Encoding of one full group of three bytes. */
  function EncodeQuantum(b0: byte, b1: byte, b2: byte): Bytes
  {
    var x0, x1, x2 := b0 as int, b1 as int, b2 as int;
    [Symbol(x0 / 4), Symbol(x0 % 4 * 16 + x1 / 16), Symbol(x1 % 16 * 4 + x2 / 64), Symbol(x2 % 64)]
  }

  lemma DecodeFullQuantum(b0: byte, b1: byte, b2: byte, last: bool)
    ensures DecodeQuantum(EncodeQuantum(b0, b1, b2), last) == Some([b0, b1, b2])
  {
    var x0, x1, x2 := b0 as int, b1 as int, b2 as int;
    var v0, v1, v2, v3 := x0 / 4, x0 % 4 * 16 + x1 / 16, x1 % 16 * 4 + x2 / 64, x2 % 64;
    ValueOfSymbol(v0);
    ValueOfSymbol(v1);
    ValueOfSymbol(v2);
    ValueOfSymbol(v3);
    assert v0 * 4 + v1 / 16 == x0;
    assert v1 % 16 * 16 + v2 / 4 == x1;
    assert v2 % 4 * 64 + v3 == x2;
    var q := EncodeQuantum(b0, b1, b2);
    assert q[2] != Pad && q[3] != Pad;
  }

  lemma DecodeTwoByteQuantum(b0: byte, b1: byte)
    ensures DecodeQuantum(EncodeTwo(b0, b1), true) == Some([b0, b1])
  {
    var x0, x1 := b0 as int, b1 as int;
    ValueOfSymbol(x0 / 4);
    ValueOfSymbol(x0 % 4 * 16 + x1 / 16);
    ValueOfSymbol(x1 % 16 * 4);
  }

  lemma DecodeOneByteQuantum(b0: byte)
    ensures DecodeQuantum(EncodeOne(b0), true) == Some([b0])
  {
    var x0 := b0 as int;
    ValueOfSymbol(x0 / 4);
    ValueOfSymbol(x0 % 4 * 16);
  }

  lemma DecodeTwoBytes(s: Bytes)
    requires |s| == 2
    ensures Decode(Encode(s)) == Some(s)
  {
    DecodeTwoByteQuantum(s[0], s[1]);
    assert s == [s[0], s[1]];
    DecodeSingleGroup(Encode(s), s);
  }

  lemma DecodeOneByte(s: Bytes)
    requires |s| == 1
    ensures Decode(Encode(s)) == Some(s)
  {
    DecodeOneByteQuantum(s[0]);
    assert s == [s[0]];
    DecodeSingleGroup(Encode(s), s);
  }

  /** A single padded group decodes like its quantum. */
  lemma DecodeSingleGroup(r: Bytes, v: Bytes)
    requires |r| == 4 && DecodeQuantum(r, true) == Some(v)
    ensures Decode(r) == Some(v)
  {
    assert r[..4] == r && r[4..] == [];
    assert v + [] == v;
  }

  /** Decoding proceeds one group of four characters at a time. */
  lemma DecodeGroupThenRest(q: Bytes, rest: Bytes, v: Bytes, w: Bytes)
    requires |q| == 4
    requires DecodeQuantum(q, |rest| == 0) == Some(v)
    requires Decode(rest) == Some(w)
    ensures Decode(q + rest) == Some(v + w)
  {
    assert (q + rest)[..4] == q && (q + rest)[4..] == rest;
  }

  lemma {:induction false} DecodeFirstGroup(s: Bytes)
    requires |s| > 2
    requires Decode(Encode(s[3..])) == Some(s[3..])
    ensures Decode(Encode(s)) == Some(s)
  {
    var q, rest := EncodeQuantum(s[0], s[1], s[2]), Encode(s[3..]);
    assert Encode(s) == q + rest;
    DecodeFullQuantum(s[0], s[1], s[2], |rest| == 0);
    DecodeGroupThenRest(q, rest, [s[0], s[1], s[2]], s[3..]);
    assert s == [s[0], s[1], s[2]] + s[3..];
  }

  /** Decoding inverts encoding. */
  lemma {:induction false} DecodeEncode(s: Bytes)
    ensures Decode(Encode(s)) == Some(s)
  {
    if |s| == 1 {
      DecodeOneByte(s);
    } else if |s| == 2 {
      DecodeTwoBytes(s);
    } else if |s| > 2 {
      DecodeEncode(s[3..]);
      DecodeFirstGroup(s);
    }
  }

  /** Every character of an encoding is an alphabet symbol or the padding. */
  lemma {:induction false} EncodeAlphabet(s: Bytes)
    ensures forall i :: 0 <= i < |Encode(s)| ==> IsEncodedChar(Encode(s)[i])
  {
    if |s| > 0 {
      var x0 := s[0] as int;
      ValueOfSymbol(x0 / 4);
      if |s| == 1 {
        ValueOfSymbol(x0 % 4 * 16);
      } else {
        var x1 := s[1] as int;
        ValueOfSymbol(x0 % 4 * 16 + x1 / 16);
        if |s| == 2 {
          ValueOfSymbol(x1 % 16 * 4);
        } else {
          var x2 := s[2] as int;
          ValueOfSymbol(x1 % 16 * 4 + x2 / 64);
          ValueOfSymbol(x2 % 64);
          EncodeAlphabet(s[3..]);
          var q := EncodeQuantum(s[0], s[1], s[2]);
          assert Encode(s) == q + Encode(s[3..]);
          assert forall i :: 0 <= i < 4 ==> IsEncodedChar(q[i]);
        }
      }
    }
  }
}

/**
 * UTF-8 as Rust's `String::from_utf8` and `str::bytes` see it (RFC 3629): the encoding of a
 * string and the strict decoder that rejects every ill-formed byte sequence.
 */
module Utf8 {
  import opened Wrappers

  newtype byte = b: int | 0 <= b < 256

  predicate IsCont(b: byte) {
    0x80 <= b <= 0xBF
  }

  /** The bytes of one Unicode scalar value, six bits per continuation byte. */
  function EncodeChar(c: char): (r: seq<byte>)
    ensures 1 <= |r| <= 4
  {
    var v0 := c as int;
    var v1 := v0 / 64;
    var v2 := v1 / 64;
    var v3 := v2 / 64;
    if v0 < 0x80 then [v0 as byte]
    else if v0 < 0x800 then [(0xC0 + v1) as byte, (0x80 + v0 % 64) as byte]
    else if v0 < 0x10000 then
      [(0xE0 + v2) as byte, (0x80 + v1 % 64) as byte, (0x80 + v0 % 64) as byte]
    else
      [(0xF0 + v3) as byte, (0x80 + v2 % 64) as byte, (0x80 + v1 % 64) as byte, (0x80 + v0 % 64) as byte]
  }

  /** `str::bytes`: the UTF-8 encoding of a whole string. */
  function Encode(s: string): (r: seq<byte>)
    ensures |r| >= |s|
  {
    if s == [] then [] else EncodeChar(s[0]) + Encode(s[1..])
  }

  /**
   * The first scalar value of `b` and the number of bytes it takes, when `b` starts with a
   * well-formed sequence (Table 3-7 of the Unicode Standard, which RFC 3629 restates).
   */
  function DecodeFirst(b: seq<byte>): (r: Option<(char, nat)>)
    ensures r.Some? ==> 1 <= r.value.1 <= 4 && r.value.1 <= |b|
  {
    if b == [] then None
    else
      var b0 := b[0] as int;
      if b0 < 0x80 then Some((b0 as char, 1))
      else if 0xC2 <= b0 <= 0xDF then
        if |b| >= 2 && IsCont(b[1]) then
          Some((((b0 - 0xC0) * 64 + (b[1] as int - 0x80)) as char, 2))
        else None
      else if 0xE0 <= b0 <= 0xEF then
        var lo := if b0 == 0xE0 then 0xA0 else 0x80;
        var hi := if b0 == 0xED then 0x9F else 0xBF;
        if |b| >= 3 && lo <= b[1] as int <= hi && IsCont(b[2]) then
          var v := ((b0 - 0xE0) * 64 + (b[1] as int - 0x80)) * 64 + (b[2] as int - 0x80);
          Some((v as char, 3))
        else None
      else if 0xF0 <= b0 <= 0xF4 then
        var lo := if b0 == 0xF0 then 0x90 else 0x80;
        var hi := if b0 == 0xF4 then 0x8F else 0xBF;
        if |b| >= 4 && lo <= b[1] as int <= hi && IsCont(b[2]) && IsCont(b[3]) then
          var v := (((b0 - 0xF0) * 64 + (b[1] as int - 0x80)) * 64 + (b[2] as int - 0x80)) * 64
                    + (b[3] as int - 0x80);
          Some((v as char, 4))
        else None
      else None
  }

  /** `String::from_utf8`: the text, or None when the bytes are not well-formed UTF-8. */
  function Decode(b: seq<byte>): (r: Option<string>)
    ensures r.Some? ==> |r.value| <= |b|
    ensures b == [] ==> r == Some([])
    decreases |b|
  {
    if b == [] then Some([])
    else
      match DecodeFirst(b)
      case None => None
      case Some((c, n)) =>
        match Decode(b[n..])
        case None => None
        case Some(rest) => Some([c] + rest)
  }

  lemma Split64(a: int, r: int)
    requires 0 <= r < 64
    ensures (a * 64 + r) / 64 == a && (a * 64 + r) % 64 == r
  {
  }

  lemma DecodeFirstOfEncodeChar(c: char, rest: seq<byte>)
    ensures DecodeFirst(EncodeChar(c) + rest) == Some((c, |EncodeChar(c)|))
  {
    var v0 := c as int;
    if v0 < 0x80 {
    } else if v0 < 0x800 {
      DecodeTwo(c, rest);
    } else if v0 < 0x10000 {
      DecodeThree(c, rest);
    } else {
      DecodeFour(c, rest);
    }
  }

  lemma DecodeTwo(c: char, rest: seq<byte>)
    requires 0x80 <= c as int < 0x800
    ensures DecodeFirst(EncodeChar(c) + rest) == Some((c, 2))
  {
    var v0 := c as int;
    assert v0 == (v0 / 64) * 64 + v0 % 64;
  }

  lemma DecodeThree(c: char, rest: seq<byte>)
    requires 0x800 <= c as int < 0x10000
    ensures DecodeFirst(EncodeChar(c) + rest) == Some((c, 3))
  {
    var v0 := c as int;
    var v1 := v0 / 64;
    assert v0 == v1 * 64 + v0 % 64;
    assert v1 == (v1 / 64) * 64 + v1 % 64;
  }

  lemma DecodeFour(c: char, rest: seq<byte>)
    requires 0x10000 <= c as int
    ensures DecodeFirst(EncodeChar(c) + rest) == Some((c, 4))
  {
    var v0 := c as int;
    var v1 := v0 / 64;
    var v2 := v1 / 64;
    assert v0 == v1 * 64 + v0 % 64;
    assert v1 == v2 * 64 + v1 % 64;
    assert v2 == (v2 / 64) * 64 + v2 % 64;
  }

  /** Decoding undoes encoding: every string survives the trip through its bytes. */
  lemma {:induction false} DecodeEncode(s: string)
    ensures Decode(Encode(s)) == Some(s)
  {
    if s != [] {
      var e := EncodeChar(s[0]);
      DecodeFirstOfEncodeChar(s[0], Encode(s[1..]));
      assert (e + Encode(s[1..]))[|e|..] == Encode(s[1..]);
      DecodeEncode(s[1..]);
      assert [s[0]] + s[1..] == s;
    }
  }

  lemma EncodeCharOfDecodeFirst(b: seq<byte>)
    requires DecodeFirst(b).Some?
    ensures EncodeChar(DecodeFirst(b).value.0) == b[..DecodeFirst(b).value.1]
  {
    if 0xC2 <= b[0] <= 0xDF {
      EncodeTwo(b);
    } else if 0xE0 <= b[0] <= 0xEF {
      EncodeThree(b);
    } else if 0xF0 <= b[0] {
      EncodeFour(b);
    }
  }

  lemma EncodeTwo(b: seq<byte>)
    requires DecodeFirst(b).Some? && 0xC2 <= b[0] <= 0xDF
    ensures EncodeChar(DecodeFirst(b).value.0) == b[..2]
  {
    Split64(b[0] as int - 0xC0, b[1] as int - 0x80);
  }

  lemma EncodeThree(b: seq<byte>)
    requires DecodeFirst(b).Some? && 0xE0 <= b[0] <= 0xEF
    ensures EncodeChar(DecodeFirst(b).value.0) == b[..3]
  {
    var v1 := (b[0] as int - 0xE0) * 64 + (b[1] as int - 0x80);
    Split64(v1, b[2] as int - 0x80);
    Split64(b[0] as int - 0xE0, b[1] as int - 0x80);
  }

  lemma EncodeFour(b: seq<byte>)
    requires DecodeFirst(b).Some? && 0xF0 <= b[0]
    ensures EncodeChar(DecodeFirst(b).value.0) == b[..4]
  {
    var v2 := (b[0] as int - 0xF0) * 64 + (b[1] as int - 0x80);
    var v1 := v2 * 64 + (b[2] as int - 0x80);
    Split64(v1, b[3] as int - 0x80);
    Split64(v2, b[2] as int - 0x80);
    Split64(b[0] as int - 0xF0, b[1] as int - 0x80);
  }

  /** The decoder accepts only canonical encodings: what it returns encodes back to the input. */
  lemma {:induction false} EncodeDecode(b: seq<byte>)
    requires Decode(b).Some?
    ensures Encode(Decode(b).value) == b
    decreases |b|
  {
    if b != [] {
      var (c, n) := DecodeFirst(b).value;
      assert b == b[..n] + b[n..];
      var tail := Decode(b[n..]).value;
      assert Decode(b) == Some([c] + tail);
      EncodeCharOfDecodeFirst(b);
      EncodeDecode(b[n..]);
      assert ([c] + tail)[0] == c && ([c] + tail)[1..] == tail;
      assert Encode([c] + tail) == EncodeChar(c) + Encode(tail);
    }
  }

  /** Every byte below 0x80 is a character of its own, so ASCII text decodes to itself. */
  lemma DecodeAscii(b: seq<byte>)
    requires forall i :: 0 <= i < |b| ==> b[i] < 0x80
    ensures Decode(b).Some? && |Decode(b).value| == |b|
    ensures forall i :: 0 <= i < |b| ==> Decode(b).value[i] as int == b[i] as int
    decreases |b|
  {
    if b != [] {
      DecodeAscii(b[1..]);
    }
  }
}

/** `Buffer.from(str)`: the UTF-8 encoding of a string, one to four bytes
    per character, with the decoder that reads it back. */
module Utf8 {
  import opened Wrappers

  newtype byte = x: int | 0 <= x < 256

  predicate IsScalar(v: int) {
    0 <= v <= 0x10FFFF && !(0xD800 <= v < 0xE000)
  }

  /** The bytes of one character: the lead byte carries the length and the
      high bits, each continuation byte six more bits. */
  function EncodeChar(c: char): (bs: seq<byte>)
    ensures 1 <= |bs| <= 4
    ensures |bs| == 1 <==> c as int < 0x80
  {
    var v := c as int;
    if v < 0x80 then [v as byte]
    else if v < 0x800 then [(0xC0 + v / 64) as byte, (0x80 + v % 64) as byte]
    else if v < 0x10000 then
      [(0xE0 + v / 4096) as byte, (0x80 + v / 64 % 64) as byte, (0x80 + v % 64) as byte]
    else
      [(0xF0 + v / 262144) as byte, (0x80 + v / 4096 % 64) as byte,
       (0x80 + v / 64 % 64) as byte, (0x80 + v % 64) as byte]
  }

  function Utf8Encode(s: string): seq<byte> {
    if s == [] then [] else EncodeChar(s[0]) + Utf8Encode(s[1..])
  }

  predicate IsCont(b: byte) {
    0x80 <= b < 0xC0
  }

  /** The character at the front of `bs` and the number of bytes it takes,
      for a well-formed, shortest-form sequence. */
  function DecodeChar(bs: seq<byte>): (r: Option<(char, nat)>)
    ensures r.Some? ==> 1 <= r.value.1 <= |bs|
  {
    if |bs| == 0 then None
    else
      var b0 := bs[0] as int;
      if b0 < 0x80 then Some((b0 as char, 1))
      else if 0xC0 <= b0 < 0xE0 && |bs| >= 2 && IsCont(bs[1]) then
        var v := (b0 - 0xC0) * 64 + (bs[1] as int - 0x80);
        if v >= 0x80 then Some((v as char, 2)) else None
      else if 0xE0 <= b0 < 0xF0 && |bs| >= 3 && IsCont(bs[1]) && IsCont(bs[2]) then
        var v := (b0 - 0xE0) * 4096 + (bs[1] as int - 0x80) * 64 + (bs[2] as int - 0x80);
        if v >= 0x800 && IsScalar(v) then Some((v as char, 3)) else None
      else if 0xF0 <= b0 < 0xF8 && |bs| >= 4 && IsCont(bs[1]) && IsCont(bs[2]) && IsCont(bs[3]) then
        var v := (b0 - 0xF0) * 262144 + (bs[1] as int - 0x80) * 4096
                 + (bs[2] as int - 0x80) * 64 + (bs[3] as int - 0x80);
        if 0x10000 <= v <= 0x10FFFF then Some((v as char, 4)) else None
      else None
  }

  function Utf8Decode(bs: seq<byte>): Option<string>
    decreases |bs|
  {
    if bs == [] then Some([])
    else match DecodeChar(bs)
      case None => None
      case Some((c, k)) =>
        match Utf8Decode(bs[k..])
        case None => None
        case Some(rest) => Some([c] + rest)
  }

  /** The decoder reads one encoded character back, whatever follows. */
  lemma DecodeEncodeChar(c: char, rest: seq<byte>)
    ensures DecodeChar(EncodeChar(c) + rest) == Some((c, |EncodeChar(c)|))
  {
    var v := c as int;
    if v < 0x80 {
    } else if v < 0x800 {
      DecodeTwo(c, rest);
    } else if v < 0x10000 {
      DecodeThree(c, rest);
    } else {
      DecodeFour(c, rest);
    }
  }

  lemma DecodeTwo(c: char, rest: seq<byte>)
    requires 0x80 <= c as int < 0x800
    ensures DecodeChar(EncodeChar(c) + rest) == Some((c, 2))
  {
    var v := c as int;
    var bs := EncodeChar(c) + rest;
    assert bs[0] as int == 0xC0 + v / 64 && bs[1] as int == 0x80 + v % 64;
  }

  lemma SplitThree(v: int)
    requires 0x800 <= v < 0x10000
    ensures v / 4096 < 16 && v / 4096 * 4096 + v / 64 % 64 * 64 + v % 64 == v
  {
    var q := v / 64;
    assert v == q * 64 + v % 64;
    assert q == q / 64 * 64 + q % 64;
    assert q / 64 == v / 4096;
  }

  lemma DecodeThree(c: char, rest: seq<byte>)
    requires 0x800 <= c as int < 0x10000
    ensures DecodeChar(EncodeChar(c) + rest) == Some((c, 3))
  {
    var v := c as int;
    var bs := EncodeChar(c) + rest;
    SplitThree(v);
    assert bs[0] as int - 0xE0 == v / 4096;
    assert bs[1] as int - 0x80 == v / 64 % 64;
    assert bs[2] as int - 0x80 == v % 64;
  }

  lemma SplitFour(v: int)
    requires 0x10000 <= v <= 0x10FFFF
    ensures v / 262144 < 5 && v / 262144 * 262144 + v / 4096 % 64 * 4096 + v / 64 % 64 * 64 + v % 64 == v
  {
  }

  lemma DecodeFour(c: char, rest: seq<byte>)
    requires 0x10000 <= c as int
    ensures DecodeChar(EncodeChar(c) + rest) == Some((c, 4))
  {
    var v := c as int;
    var bs := EncodeChar(c) + rest;
    SplitFour(v);
    assert bs[0] as int - 0xF0 == v / 262144;
    assert bs[1] as int - 0x80 == v / 4096 % 64;
    assert bs[2] as int - 0x80 == v / 64 % 64;
    assert bs[3] as int - 0x80 == v % 64;
  }

  /** Decoding the encoding gives the string back. */
  lemma {:induction false} Utf8RoundTrip(s: string)
    ensures Utf8Decode(Utf8Encode(s)) == Some(s)
  {
    if s != [] {
      var e := EncodeChar(s[0]);
      var rest := Utf8Encode(s[1..]);
      DecodeEncodeChar(s[0], rest);
      assert (e + rest)[|e|..] == rest;
      Utf8RoundTrip(s[1..]);
      assert [s[0]] + s[1..] == s;
    }
  }

  /** Different strings have different encodings. */
  lemma Utf8Injective(s: string, t: string)
    requires Utf8Encode(s) == Utf8Encode(t)
    ensures s == t
  {
    Utf8RoundTrip(s);
    Utf8RoundTrip(t);
  }

  /** Plain ASCII text encodes byte for byte. */
  lemma {:induction false} Utf8Ascii(s: string)
    requires forall i :: 0 <= i < |s| ==> s[i] as int < 0x80
    ensures |Utf8Encode(s)| == |s|
    ensures forall i :: 0 <= i < |s| ==> Utf8Encode(s)[i] as int == s[i] as int
  {
    if s != [] {
      assert forall i :: 0 <= i < |s[1..]| ==> s[1..][i] == s[i + 1];
      Utf8Ascii(s[1..]);
    }
  }
}

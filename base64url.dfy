/** `toBase64Url` of api/bulk-send.js: the UTF-8 bytes of a message in the
    base 64 encoding of section 4 of RFC 4648, rewritten to the URL and
    file name safe alphabet of section 5, with the padding removed. */
module Base64Url {
  import opened Wrappers
  import opened Utf8

  type Sextet = x: int | 0 <= x < 64

  /** Table 1 of RFC 4648. */
  function StdDigit(v: Sextet): char {
    if v < 26 then ('A' as int + v) as char
    else if v < 52 then ('a' as int + (v - 26)) as char
    else if v < 62 then ('0' as int + (v - 52)) as char
    else if v == 62 then '+'
    else '/'
  }

  /** Table 2 of RFC 4648: as table 1, with '-' and '_' for the last two. */
  function UrlDigit(v: Sextet): char {
    if v < 62 then StdDigit(v) else if v == 62 then '-' else '_'
  }

  predicate IsUrlChar(c: char) {
    'A' <= c <= 'Z' || 'a' <= c <= 'z' || '0' <= c <= '9' || c == '-' || c == '_'
  }

  /** The 6-bit groups of a byte string: four per three bytes, and two or
      three for a final group of one or two bytes, zero-filled on the right. */
  function Sextets(bs: seq<byte>): (ss: seq<Sextet>)
    ensures |ss| == (4 * |bs| + 2) / 3
  {
    if |bs| == 0 then []
    else
      var a := bs[0] as int;
      if |bs| == 1 then [a / 4, a % 4 * 16]
      else
        var b := bs[1] as int;
        if |bs| == 2 then [a / 4, a % 4 * 16 + b / 16, b % 16 * 4]
        else
          var c := bs[2] as int;
          [a / 4, a % 4 * 16 + b / 16, b % 16 * 4 + c / 64, c % 64] + Sextets(bs[3..])
  }

  function Digits(ss: seq<Sextet>, digit: Sextet -> char): (t: string)
    ensures |t| == |ss|
  {
    seq(|ss|, i requires 0 <= i < |ss| => digit(ss[i]))
  }

  /** The '=' characters that fill the last quantum to four characters. */
  function Padding(n: nat): string {
    if n % 3 == 1 then "==" else if n % 3 == 2 then "=" else ""
  }

  /** `buffer.toString("base64")`. */
  function Base64(bs: seq<byte>): string {
    Digits(Sextets(bs), StdDigit) + Padding(|bs|)
  }

  /** `s.replace(/a/g, b)` for a single character `a`. */
  function SwapChar(s: string, a: char, b: char): (t: string)
    ensures |t| == |s|
  {
    seq(|s|, i requires 0 <= i < |s| => if s[i] == a then b else s[i])
  }

  /** `s.replace(/=+$/g, "")`. */
  function StripPadding(s: string): string {
    if s != [] && s[|s| - 1] == '=' then StripPadding(s[..|s| - 1]) else s
  }

  /** `toBase64Url(str)`. */
  function ToBase64Url(str: string): string {
    StripPadding(SwapChar(SwapChar(Base64(Utf8Encode(str)), '+', '-'), '/', '_'))
  }

  /** The unpadded encoding with the alphabet of section 5 of RFC 4648. */
  function UrlEncode(bs: seq<byte>): string {
    Digits(Sextets(bs), UrlDigit)
  }

  // ----------------------------------------------------------- properties

  lemma SwapDigits(ss: seq<Sextet>)
    ensures SwapChar(SwapChar(Digits(ss, StdDigit), '+', '-'), '/', '_') == Digits(ss, UrlDigit)
  {
    var t := SwapChar(SwapChar(Digits(ss, StdDigit), '+', '-'), '/', '_');
    forall i | 0 <= i < |ss| ensures t[i] == Digits(ss, UrlDigit)[i] {
      DigitSwap(ss[i]);
    }
  }

  lemma DigitSwap(v: Sextet)
    ensures var c := StdDigit(v); var c1 := if c == '+' then '-' else c;
      (if c1 == '/' then '_' else c1) == UrlDigit(v)
  {
  }

  lemma UrlDigitIsUrlChar(v: Sextet)
    ensures IsUrlChar(UrlDigit(v))
  {
  }

  lemma SwapPadding(n: nat)
    ensures SwapChar(SwapChar(Padding(n), '+', '-'), '/', '_') == Padding(n)
  {
  }

  lemma SwapAppend(s: string, t: string, a: char, b: char)
    ensures SwapChar(s + t, a, b) == SwapChar(s, a, b) + SwapChar(t, a, b)
  {
  }

  lemma {:induction false} StripPaddingOf(s: string, n: nat)
    requires s == [] || s[|s| - 1] != '='
    ensures StripPadding(s + Padding(n)) == s
  {
    assert StripPadding(s) == s;
    assert (s + "=")[..|s|] == s;
    assert StripPadding(s + "=") == s;
    if n % 3 == 1 {
      assert (s + "==")[..|s| + 1] == s + "=";
      assert StripPadding(s + "==") == StripPadding(s + "=");
    } else if n % 3 == 0 {
      assert s + "" == s;
    }
  }

  /** The chain of replacements yields exactly the unpadded URL-safe
      encoding of the message's UTF-8 bytes. */
  lemma ToBase64UrlIsUrlEncode(str: string)
    ensures ToBase64Url(str) == UrlEncode(Utf8Encode(str))
  {
    var bs := Utf8Encode(str);
    var d := Digits(Sextets(bs), StdDigit);
    var p := Padding(|bs|);
    SwapAppend(d, p, '+', '-');
    SwapAppend(SwapChar(d, '+', '-'), SwapChar(p, '+', '-'), '/', '_');
    SwapDigits(Sextets(bs));
    SwapPadding(|bs|);
    StripPaddingOf(UrlEncode(bs), |bs|);
  }

  /** The URL-safe encoding uses only letters, digits, '-' and '_' (so no
      '='), and n bytes take ceil(4n/3) characters. */
  lemma UrlEncodeFacts(bs: seq<byte>)
    ensures forall i :: 0 <= i < |UrlEncode(bs)| ==> IsUrlChar(UrlEncode(bs)[i])
    ensures |UrlEncode(bs)| == (4 * |bs| + 2) / 3
  {
    var ss := Sextets(bs);
    forall i | 0 <= i < |ss| ensures IsUrlChar(UrlEncode(bs)[i]) {
      UrlDigitIsUrlChar(ss[i]);
    }
  }

  /** The same facts for `toBase64Url` of a string. */
  lemma ToBase64UrlFacts(str: string)
    ensures forall i :: 0 <= i < |ToBase64Url(str)| ==> IsUrlChar(ToBase64Url(str)[i]) && ToBase64Url(str)[i] != '='
    ensures |ToBase64Url(str)| == (4 * |Utf8Encode(str)| + 2) / 3
  {
    ToBase64UrlIsUrlEncode(str);
    UrlEncodeFacts(Utf8Encode(str));
  }

  // -------------------------------------------------------------- decoding

  function UrlValue(c: char): Option<Sextet> {
    if 'A' <= c <= 'Z' then Some(c as int - 'A' as int)
    else if 'a' <= c <= 'z' then Some(c as int - 'a' as int + 26)
    else if '0' <= c <= '9' then Some(c as int - '0' as int + 52)
    else if c == '-' then Some(62)
    else if c == '_' then Some(63)
    else None
  }

  /** The bytes of a sequence of 6-bit groups, the inverse of `Sextets`; a
      lone final group carries no whole byte. */
  function Bytes(ss: seq<Sextet>): seq<byte> {
    if |ss| <= 1 then []
    else
      var a := ss[0] as int * 4 + ss[1] as int / 16;
      if |ss| == 2 then [a as byte]
      else
        var b := ss[1] as int % 16 * 16 + ss[2] as int / 4;
        if |ss| == 3 then [a as byte, b as byte]
        else [a as byte, b as byte, (ss[2] as int % 4 * 64 + ss[3] as int) as byte] + Bytes(ss[4..])
  }

  function Values(t: string): Option<seq<Sextet>> {
    if t == [] then Some([])
    else match (UrlValue(t[0]), Values(t[1..]))
      case (Some(v), Some(rest)) => Some([v] + rest)
      case _ => None
  }

  /** Decoding of unpadded URL-safe text; `None` for a stray character or
      an impossible length. */
  function UrlDecode(t: string): Option<seq<byte>> {
    match Values(t)
    case None => None
    case Some(ss) => if |ss| % 4 == 1 then None else Some(Bytes(ss))
  }

  lemma {:induction false} ValuesOfDigits(ss: seq<Sextet>)
    ensures Values(Digits(ss, UrlDigit)) == Some(ss)
  {
    if ss != [] {
      var t := Digits(ss, UrlDigit);
      assert t[1..] == Digits(ss[1..], UrlDigit);
      ValuesOfDigits(ss[1..]);
      assert UrlValue(t[0]) == Some(ss[0]);
      assert [ss[0]] + ss[1..] == ss;
    }
  }

  lemma GroupRoundTrip(a: int, b: int, c: int)
    requires 0 <= a < 256 && 0 <= b < 256 && 0 <= c < 256
    ensures a / 4 * 4 + (a % 4 * 16 + b / 16) / 16 == a
    ensures (a % 4 * 16 + b / 16) % 16 * 16 + (b % 16 * 4 + c / 64) / 4 == b
    ensures (b % 16 * 4 + c / 64) % 4 * 64 + c % 64 == c
  {
  }

  /** The four groups of three bytes. */
  function Quad(a: int, b: int, c: int): seq<Sextet>
    requires 0 <= a < 256 && 0 <= b < 256 && 0 <= c < 256
  {
    [a / 4, a % 4 * 16 + b / 16, b % 16 * 4 + c / 64, c % 64]
  }

  lemma SextetsStep(bs: seq<byte>)
    requires |bs| >= 3
    ensures Sextets(bs) == Quad(bs[0] as int, bs[1] as int, bs[2] as int) + Sextets(bs[3..])
  {
  }

  lemma BytesStep(a: int, b: int, c: int, rest: seq<Sextet>)
    requires 0 <= a < 256 && 0 <= b < 256 && 0 <= c < 256
    ensures Bytes(Quad(a, b, c) + rest) == [a as byte, b as byte, c as byte] + Bytes(rest)
  {
    var q := Quad(a, b, c);
    var g := q + rest;
    QuadRoundTrip(a, b, c);
    assert g[0] == q[0] && g[1] == q[1] && g[2] == q[2] && g[3] == q[3];
    assert g[4..] == rest;
    var x := g[0] as int * 4 + g[1] as int / 16;
    var y := g[1] as int % 16 * 16 + g[2] as int / 4;
    var z := g[2] as int % 4 * 64 + g[3] as int;
    assert x == a && y == b && z == c;
    assert Bytes(g) == [x as byte, y as byte, z as byte] + Bytes(g[4..]);
  }

  lemma QuadRoundTrip(a: int, b: int, c: int)
    requires 0 <= a < 256 && 0 <= b < 256 && 0 <= c < 256
    ensures var q := Quad(a, b, c);
      q[0] as int * 4 + q[1] as int / 16 == a && q[1] as int % 16 * 16 + q[2] as int / 4 == b
      && q[2] as int % 4 * 64 + q[3] as int == c
  {
    GroupRoundTrip(a, b, c);
  }

  /** No byte string encodes to a length the decoder rejects. */
  lemma {:induction false} SextetsLength(bs: seq<byte>)
    ensures |Sextets(bs)| % 4 != 1
  {
    if |bs| >= 3 {
      SextetsStep(bs);
      SextetsLength(bs[3..]);
    }
  }

  lemma {:induction false} BytesOfSextets(bs: seq<byte>)
    ensures Bytes(Sextets(bs)) == bs
  {
    if |bs| == 1 {
      GroupRoundTrip(bs[0] as int, 0, 0);
    } else if |bs| == 2 {
      GroupRoundTrip(bs[0] as int, bs[1] as int, 0);
    } else if |bs| >= 3 {
      SextetsStep(bs);
      BytesOfSextets(bs[3..]);
      BytesStep(bs[0] as int, bs[1] as int, bs[2] as int, Sextets(bs[3..]));
      assert bs == [bs[0], bs[1], bs[2]] + bs[3..];
    }
  }

  /** Decoding the URL-safe text gives the bytes back. */
  lemma UrlRoundTrip(bs: seq<byte>)
    ensures UrlDecode(UrlEncode(bs)) == Some(bs)
  {
    ValuesOfDigits(Sextets(bs));
    SextetsLength(bs);
    BytesOfSextets(bs);
  }

  /** `toBase64Url` loses nothing: the message reads back from it. */
  lemma ToBase64UrlRoundTrip(str: string)
    ensures UrlDecode(ToBase64Url(str)).Some?
    ensures Utf8Decode(UrlDecode(ToBase64Url(str)).value) == Some(str)
  {
    ToBase64UrlIsUrlEncode(str);
    UrlRoundTrip(Utf8Encode(str));
    Utf8RoundTrip(str);
  }
}

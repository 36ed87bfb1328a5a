/**
 * Base64 as Node's Buffer applies it: the padded encoding of RFC 4648
 * section 4 for Buffer.toString('base64'), and the lenient decoder behind
 * Buffer.from(s, 'base64'), which never fails. The decoder reads the
 * string's UTF-16 code units truncated to their low byte, accepts both the
 * standard and the URL-safe alphabet, skips every other character and stops
 * at the first '='.
 */
module Base64 {
  import Utf8

  type Byte = Utf8.Byte

  /** The digit for a sextet in the standard alphabet of RFC 4648 section 4. */
  function EncodeDigit(v: int): (c: char)
    requires 0 <= v < 64
    ensures c as int < 128 && c != '='
  {
    if v < 26 then (65 + v) as char
    else if v < 52 then (97 + v - 26) as char
    else if v < 62 then (48 + v - 52) as char
    else if v == 62 then '+'
    else '/'
  }

  /** Node's decoding table: the sextet of a legal byte, 255 for every other byte. */
  function DecodeDigit(u: Byte): (v: int)
    ensures v == 255 || 0 <= v < 64
  {
    if 65 <= u <= 90 then u - 65
    else if 97 <= u <= 122 then u - 71
    else if 48 <= u <= 57 then u + 4
    else if u == 43 || u == 45 then 62
    else if u == 47 || u == 95 then 63
    else 255
  }

  predicate IsSextet(v: int)
  {
    0 <= v < 64
  }

  predicate AllSextets(x: seq<int>)
  {
    forall k :: 0 <= k < |x| ==> IsSextet(x[k])
  }

  /** The bytes regrouped into sextets, the last group filled with zero bits. */
  function ToSextets(b: seq<Byte>): (x: seq<int>)
    ensures AllSextets(x)
    ensures |x| == (4 * |b| + 2) / 3
    decreases |b|
  {
    if |b| == 0 then []
    else if |b| == 1 then [b[0] / 4, (b[0] % 4) * 16]
    else if |b| == 2 then [b[0] / 4, (b[0] % 4) * 16 + b[1] / 16, (b[1] % 16) * 4]
    else
      var group := [b[0] / 4, (b[0] % 4) * 16 + b[1] / 16, (b[1] % 16) * 4 + b[2] / 64, b[2] % 64];
      group + ToSextets(b[3..])
  }

  function Digits(x: seq<int>): (s: string)
    requires AllSextets(x)
    ensures |s| == |x|
    decreases |x|
  {
    if x == [] then "" else [EncodeDigit(x[0])] + Digits(x[1..])
  }

  function Padding(n: nat): string
  {
    if n % 3 == 1 then "==" else if n % 3 == 2 then "=" else ""
  }

  /** Buffer.toString('base64'): four characters for every three bytes, '='-padded. */
  function Encode(b: seq<Byte>): (s: string)
    ensures |s| % 4 == 0 && |s| == 4 * ((|b| + 2) / 3)
  {
    EncodedLength(|b|);
    Digits(ToSextets(b)) + Padding(|b|)
  }

  /** The digits and the padding of n bytes fill whole groups of four. */
  lemma EncodedLength(n: nat)
    ensures (4 * n + 2) / 3 + |Padding(n)| == 4 * ((n + 2) / 3)
    ensures (4 * ((n + 2) / 3)) % 4 == 0
  {
    var q, r := n / 3, n % 3;
    assert n == 3 * q + r;
    if r == 0 {
      assert 4 * n + 2 == 3 * (4 * q) + 2;
      assert n + 2 == 3 * q + 2;
    } else if r == 1 {
      assert 4 * n + 2 == 3 * (4 * q + 2);
      assert n + 2 == 3 * (q + 1);
    } else {
      assert 4 * n + 2 == 3 * (4 * q + 3) + 1;
      assert n + 2 == 3 * (q + 1) + 1;
    }
  }

  /** The string's UTF-16 code units, as a JavaScript string holds them. */
  function CodeUnits(s: string): (u: seq<int>)
    ensures |u| >= |s|
    ensures forall k :: 0 <= k < |u| ==> 0 <= u[k] < 0x10000
    decreases |s|
  {
    if s == [] then []
    else
      var n := s[0] as int;
      (if n < 0x10000 then [n] else [0xD800 + (n - 0x10000) / 1024, 0xDC00 + (n - 0x10000) % 1024])
      + CodeUnits(s[1..])
  }

  /** The sextets the decoder collects: legal digits in order, up to the first '=' (by low byte). */
  function Sextets(u: seq<int>): (x: seq<int>)
    requires forall k :: 0 <= k < |u| ==> 0 <= u[k] < 0x10000
    ensures AllSextets(x) && |x| <= |u|
    decreases |u|
  {
    if u == [] then []
    else
      var c := u[0] % 256;
      var v := DecodeDigit(c);
      if v < 64 then [v] + Sextets(u[1..])
      else if c == '=' as int then []
      else Sextets(u[1..])
  }

  /** Three bytes per four sextets; a trailing group of n > 1 sextets gives n - 1 bytes. */
  function FromSextets(x: seq<int>): (b: seq<Byte>)
    requires AllSextets(x)
    ensures 4 * |b| <= 3 * |x|
    decreases |x|
  {
    if |x| >= 4 then
      [x[0] * 4 + x[1] / 16, (x[1] % 16) * 16 + x[2] / 4, (x[2] % 4) * 64 + x[3]] + FromSextets(x[4..])
    else if |x| == 3 then [x[0] * 4 + x[1] / 16, (x[1] % 16) * 16 + x[2] / 4]
    else if |x| == 2 then [x[0] * 4 + x[1] / 16]
    else []
  }

  /** Buffer.from(s, 'base64'): total, it yields bytes for every string. */
  function Decode(s: string): (b: seq<Byte>)
    ensures 4 * |b| <= 3 * |CodeUnits(s)|
  {
    FromSextets(Sextets(CodeUnits(s)))
  }

  lemma DigitRoundTrip(v: int)
    requires 0 <= v < 64
    ensures DecodeDigit(EncodeDigit(v) as int) == v
  {
  }

  lemma {:induction false} CodeUnitsAscii(s: string)
    requires forall k :: 0 <= k < |s| ==> s[k] as int < 128
    ensures CodeUnits(s) == seq(|s|, k requires 0 <= k < |s| => s[k] as int)
    decreases |s|
  {
    if s != [] {
      CodeUnitsAscii(s[1..]);
    }
  }

  /** The decoder reads back the digits it was given and stops at the padding. */
  lemma {:induction false} SextetsOfDigits(x: seq<int>, pad: string)
    requires AllSextets(x)
    requires pad == "" || pad == "=" || pad == "=="
    ensures Sextets(CodeUnits(Digits(x) + pad)) == x
    decreases |x|
  {
    if x == [] {
      assert Digits(x) + pad == pad;
      PaddingSextets(pad);
    } else {
      var rest := Digits(x[1..]) + pad;
      assert Digits(x) + pad == [EncodeDigit(x[0])] + rest;
      SextetsOfDigits(x[1..], pad);
      CodeUnitsCons(EncodeDigit(x[0]), rest);
      SextetsCons(x[0], CodeUnits(rest));
    }
  }

  lemma CodeUnitsCons(c: char, rest: string)
    requires c as int < 0x10000
    ensures CodeUnits([c] + rest) == [c as int] + CodeUnits(rest)
  {
    assert ([c] + rest)[1..] == rest;
  }

  /** A digit of the standard alphabet is read back as its sextet. */
  lemma SextetsCons(v: int, u: seq<int>)
    requires 0 <= v < 64
    requires forall k :: 0 <= k < |u| ==> 0 <= u[k] < 0x10000
    ensures Sextets([EncodeDigit(v) as int] + u) == [v] + Sextets(u)
  {
    var w := [EncodeDigit(v) as int] + u;
    DigitRoundTrip(v);
    LowByte(w[0]);
    assert w[1..] == u;
  }

  lemma LowByte(n: int)
    requires 0 <= n < 256
    ensures n % 256 == n
  {
  }

  /** The padding gives no sextet. */
  lemma PaddingSextets(pad: string)
    requires pad == "" || pad == "=" || pad == "=="
    ensures Sextets(CodeUnits(pad)) == []
  {
    if pad != "" {
      assert CodeUnits(pad) == ['=' as int] + CodeUnits(pad[1..]);
    }
  }

  lemma GroupRoundTrip(b0: Byte, b1: Byte, b2: Byte)
    ensures var x0, x1, x2, x3 := b0 / 4, (b0 % 4) * 16 + b1 / 16, (b1 % 16) * 4 + b2 / 64, b2 % 64;
      x0 * 4 + x1 / 16 == b0 && (x1 % 16) * 16 + x2 / 4 == b1 && (x2 % 4) * 64 + x3 == b2
  {
    var x1, x2 := (b0 % 4) * 16 + b1 / 16, (b1 % 16) * 4 + b2 / 64;
    assert x1 / 16 == b0 % 4 && x1 % 16 == b1 / 16;
    assert x2 / 4 == b1 % 16 && x2 % 4 == b2 / 64;
  }

  lemma {:induction false} FromToSextets(b: seq<Byte>)
    ensures FromSextets(ToSextets(b)) == b
    decreases |b|
  {
    if |b| == 1 {
      assert b == [b[0]];
      OneByteBack(b[0]);
    } else if |b| == 2 {
      assert b == [b[0], b[1]];
      TwoBytesBack(b[0], b[1]);
    } else if |b| >= 3 {
      var x := ToSextets(b);
      var rest := b[3..];
      assert x[4..] == ToSextets(rest);
      FromToSextets(rest);
      GroupRoundTrip(b[0], b[1], b[2]);
      assert FromSextets(x) == [b[0], b[1], b[2]] + rest;
      assert b == [b[0], b[1], b[2]] + rest;
    }
  }

  /** A trailing single byte comes back. */
  lemma OneByteBack(b0: Byte)
    ensures FromSextets(ToSextets([b0])) == [b0]
  {
    assert ToSextets([b0]) == [b0 / 4, (b0 % 4) * 16];
    assert (b0 / 4) * 4 + ((b0 % 4) * 16) / 16 == b0;
  }

  /** A trailing pair of bytes comes back. */
  lemma TwoBytesBack(b0: Byte, b1: Byte)
    ensures FromSextets(ToSextets([b0, b1])) == [b0, b1]
  {
    assert ToSextets([b0, b1]) == [b0 / 4, (b0 % 4) * 16 + b1 / 16, (b1 % 16) * 4];
    GroupRoundTrip(b0, b1, 0);
  }

  /** Decoding what Node encoded gives the bytes back (RFC 4648 round trip). */
  lemma DecodeEncode(b: seq<Byte>)
    ensures Decode(Encode(b)) == b
  {
    SextetsOfDigits(ToSextets(b), Padding(|b|));
    FromToSextets(b);
  }

  /** The cursor codec: UTF-8 bytes in base64, read back as UTF-8. */
  function EncodeText(s: string): string
  {
    Encode(Utf8.Encode(s))
  }

  function DecodeText(s: string): string
  {
    Utf8.Decode(Decode(s))
  }

  lemma DecodeEncodeText(s: string)
    ensures DecodeText(EncodeText(s)) == s
  {
    DecodeEncode(Utf8.Encode(s));
    Utf8.DecodeEncode(s);
  }
}

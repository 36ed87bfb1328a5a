/**
 * UTF-8 as Node's Buffer and the URL serialiser use it: encoding a string
 * of Unicode scalar values, and the lenient decoder of the WHATWG Encoding
 * Standard, which replaces every maximal ill-formed subsequence by one
 * U+FFFD and never fails.
 */
module Utf8 {
  import Seqs

  type Byte = b: int | 0 <= b < 256

  const Replacement: char := '\U{FFFD}'

  /** A Unicode scalar value: what a Dafny char can hold. */
  predicate IsScalar(n: int)
  {
    (0 <= n < 0xD800) || (0xE000 <= n < 0x110000)
  }

  function EncodeChar(c: char): (r: seq<Byte>)
    ensures 1 <= |r| <= 4
    ensures (c as int < 0x80) <==> (|r| == 1)
  {
    var n := c as int;
    if n < 0x80 then [n]
    else if n < 0x800 then [0xC0 + n / 64, 0x80 + n % 64]
    else if n < 0x10000 then [0xE0 + n / 4096, 0x80 + (n / 64) % 64, 0x80 + n % 64]
    else [0xF0 + n / 262144, 0x80 + (n / 4096) % 64, 0x80 + (n / 64) % 64, 0x80 + n % 64]
  }

  function Encode(s: string): seq<Byte>
  {
    Seqs.FlatMap(s, EncodeChar)
  }

  /** Number of continuation bytes a lead byte announces; 0 for a byte that cannot lead. */
  function Needed(b: Byte): nat
  {
    if 0xC2 <= b <= 0xDF then 1
    else if 0xE0 <= b <= 0xEF then 2
    else if 0xF0 <= b <= 0xF4 then 3
    else 0
  }

  /** Range allowed for the first continuation byte after lead b. */
  function LowerBound(b: Byte): Byte
  {
    if b == 0xE0 then 0xA0 else if b == 0xF0 then 0x90 else 0x80
  }

  function UpperBound(b: Byte): Byte
  {
    if b == 0xED then 0x9F else if b == 0xF4 then 0x8F else 0xBF
  }

  predicate IsContinuation(b: Byte)
  {
    0x80 <= b <= 0xBF
  }

  /** How many continuation bytes after the lead s[0] the decoder accepts before it stops. */
  function Accepted(s: seq<Byte>): (k: nat)
    requires |s| >= 1 && Needed(s[0]) > 0
    ensures k <= Needed(s[0]) && k < |s|
  {
    var n := Needed(s[0]);
    if |s| < 2 || !(LowerBound(s[0]) <= s[1] <= UpperBound(s[0])) then 0
    else if n == 1 || |s| < 3 || !IsContinuation(s[2]) then 1
    else if n == 2 || |s| < 4 || !IsContinuation(s[3]) then 2
    else 3
  }

  /** The code point of a complete, well-formed multi-byte sequence at the start of s. */
  function CodePoint(s: seq<Byte>): (cp: int)
    requires |s| >= 1 && Needed(s[0]) > 0 && Accepted(s) == Needed(s[0])
    ensures IsScalar(cp) && cp >= 0x80
  {
    var n := Needed(s[0]);
    var b0: int, b1: int := s[0], s[1] - 0x80;
    if n == 1 then (b0 - 0xC0) * 64 + b1
    else
      var b2: int := s[2] - 0x80;
      if n == 2 then (b0 - 0xE0) * 4096 + b1 * 64 + b2
      else
        var b3: int := s[3] - 0x80;
        (b0 - 0xF0) * 262144 + b1 * 4096 + b2 * 64 + b3
  }

  /** The WHATWG UTF-8 decode with replacement (what Buffer.toString('utf-8') does). */
  function Decode(s: seq<Byte>): (r: string)
    ensures |r| <= |s| && (s != [] ==> r != [])
    decreases |s|
  {
    if s == [] then []
    else if s[0] < 0x80 then [s[0] as char] + Decode(s[1..])
    else if Needed(s[0]) == 0 then [Replacement] + Decode(s[1..])
    else
      var k := Accepted(s);
      if k == Needed(s[0]) then [CodePoint(s) as char] + Decode(s[k + 1..])
      else [Replacement] + Decode(s[k + 1..])
  }

  lemma DecodeTwo(n: int, rest: seq<Byte>)
    requires 0x80 <= n < 0x800
    ensures var s: seq<Byte> := [0xC0 + n / 64, 0x80 + n % 64] + rest;
      Needed(s[0]) == 1 && Accepted(s) == 1 && CodePoint(s) == n && Decode(s) == [n as char] + Decode(rest)
  {
    var s: seq<Byte> := [0xC0 + n / 64, 0x80 + n % 64] + rest;
    assert s[2..] == rest;
  }

  lemma DecodeThree(n: int, rest: seq<Byte>)
    requires 0x800 <= n < 0x10000 && IsScalar(n)
    ensures var s: seq<Byte> := [0xE0 + n / 4096, 0x80 + (n / 64) % 64, 0x80 + n % 64] + rest;
      Needed(s[0]) == 2 && Accepted(s) == 2 && CodePoint(s) == n && Decode(s) == [n as char] + Decode(rest)
  {
    ThreeDigits(n);
    var a, b, c := n / 4096, (n / 64) % 64, n % 64;
    var s: seq<Byte> := [0xE0 + a, 0x80 + b, 0x80 + c] + rest;
    assert s[3..] == rest;
    assert Needed(s[0]) == 2;
    assert Accepted(s) == 2;
    assert CodePoint(s) == a * 4096 + b * 64 + c;
  }

  /** The three six-bit groups of a code point that takes three bytes, and the ranges they fall in. */
  lemma ThreeDigits(n: int)
    requires 0x800 <= n < 0x10000 && IsScalar(n)
    ensures var a, b, c := n / 4096, (n / 64) % 64, n % 64;
      0 <= a < 16 && 0 <= b < 64 && 0 <= c < 64 && n == a * 4096 + b * 64 + c
      && (a == 0 ==> b >= 32) && (a == 13 ==> b < 32)
  {
    var a, b, c := n / 4096, (n / 64) % 64, n % 64;
    assert n / 64 == a * 64 + b;
    assert n == a * 4096 + b * 64 + c;
  }

  lemma DecodeFour(n: int, rest: seq<Byte>)
    requires 0x10000 <= n < 0x110000
    ensures var s: seq<Byte> := [0xF0 + n / 262144, 0x80 + (n / 4096) % 64, 0x80 + (n / 64) % 64, 0x80 + n % 64] + rest;
      Needed(s[0]) == 3 && Accepted(s) == 3 && CodePoint(s) == n && Decode(s) == [n as char] + Decode(rest)
  {
    FourDigits(n);
    var a, b, c, d := n / 262144, (n / 4096) % 64, (n / 64) % 64, n % 64;
    var s: seq<Byte> := [0xF0 + a, 0x80 + b, 0x80 + c, 0x80 + d] + rest;
    assert s[4..] == rest;
    assert Needed(s[0]) == 3;
    assert Accepted(s) == 3;
    assert CodePoint(s) == a * 262144 + b * 4096 + c * 64 + d;
  }

  /** The four groups of a code point that takes four bytes, and the ranges they fall in. */
  lemma FourDigits(n: int)
    requires 0x10000 <= n < 0x110000
    ensures var a, b, c, d := n / 262144, (n / 4096) % 64, (n / 64) % 64, n % 64;
      0 <= a <= 4 && 0 <= b < 64 && 0 <= c < 64 && 0 <= d < 64 && n == a * 262144 + b * 4096 + c * 64 + d
      && (a == 0 ==> b >= 16) && (a == 4 ==> b < 16)
  {
    var a, b, c, d := n / 262144, (n / 4096) % 64, (n / 64) % 64, n % 64;
    assert n / 4096 == a * 64 + b;
    assert n / 64 == (n / 4096) * 64 + c;
    assert n == (n / 64) * 64 + d;
  }

  lemma DecodeEncodeChar(c: char, rest: seq<Byte>)
    ensures Decode(EncodeChar(c) + rest) == [c] + Decode(rest)
  {
    var n := c as int;
    if n < 0x80 {
      assert ([n] + rest)[1..] == rest;
    } else if n < 0x800 {
      DecodeEncodeTwo(c, rest);
    } else if n < 0x10000 {
      DecodeEncodeThree(c, rest);
    } else {
      DecodeEncodeFour(c, rest);
    }
  }

  lemma DecodeEncodeTwo(c: char, rest: seq<Byte>)
    requires 0x80 <= c as int < 0x800
    ensures Decode(EncodeChar(c) + rest) == [c] + Decode(rest)
  {
    DecodeTwo(c as int, rest);
  }

  lemma DecodeEncodeThree(c: char, rest: seq<Byte>)
    requires 0x800 <= c as int < 0x10000
    ensures Decode(EncodeChar(c) + rest) == [c] + Decode(rest)
  {
    DecodeThree(c as int, rest);
  }

  lemma DecodeEncodeFour(c: char, rest: seq<Byte>)
    requires 0x10000 <= c as int
    ensures Decode(EncodeChar(c) + rest) == [c] + Decode(rest)
  {
    DecodeFour(c as int, rest);
  }

  /** Decoding what was encoded gives the string back. */
  lemma {:induction false} DecodeEncode(s: string)
    ensures Decode(Encode(s)) == s
    decreases |s|
  {
    if s != [] {
      DecodeEncode(s[1..]);
      DecodeEncodeChar(s[0], Encode(s[1..]));
    }
  }

  /** An ASCII string encodes to its own code points, one byte per character. */
  lemma {:induction false} EncodeAscii(s: string)
    requires forall k :: 0 <= k < |s| ==> s[k] as int < 0x80
    ensures |Encode(s)| == |s|
    ensures forall k :: 0 <= k < |s| ==> Encode(s)[k] == s[k] as int
    decreases |s|
  {
    if s != [] {
      EncodeAscii(s[1..]);
    }
  }

  /** Encoding is per character, so it distributes over concatenation. */
  lemma EncodeAppend(a: string, b: string)
    ensures Encode(a + b) == Encode(a) + Encode(b)
  {
    Seqs.FlatMapAppend(a, b, EncodeChar);
  }
}

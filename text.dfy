/**
 * String helpers shared by the backend, the front end and the worker:
 * the two whitespace sets (Python's str.isspace and ECMAScript's trim),
 * trimming, splitting on one separator, joining, prefixes and the decimal
 * text of an integer.
 */
module Text {

  /** Python's str.isspace: the characters str.strip() and the regex \s remove. */
  predicate PyIsSpace(c: char)
  {
    || ('\t' <= c <= '\r')
    || ('\U{1C}' <= c <= ' ')
    || c == '\U{85}' || c == '\U{A0}' || c == '\U{1680}'
    || ('\U{2000}' <= c <= '\U{200A}')
    || c == '\U{2028}' || c == '\U{2029}' || c == '\U{202F}' || c == '\U{205F}' || c == '\U{3000}'
  }

  /** ECMAScript WhiteSpace and LineTerminator: what String.prototype.trim removes. */
  predicate JsIsSpace(c: char)
  {
    || ('\t' <= c <= '\r')
    || c == ' ' || c == '\U{A0}' || c == '\U{1680}'
    || ('\U{2000}' <= c <= '\U{200A}')
    || c == '\U{2028}' || c == '\U{2029}' || c == '\U{202F}' || c == '\U{205F}' || c == '\U{3000}'
    || c == '\U{FEFF}'
  }

  /** Every character of s is whitespace (s is "blank"). */
  predicate AllSpace(s: string, ws: char -> bool)
  {
    forall k :: 0 <= k < |s| ==> ws(s[k])
  }

  /** How many whitespace characters s starts with. */
  function LeadLen(s: string, ws: char -> bool): (n: nat)
    ensures n <= |s|
    ensures forall k :: 0 <= k < n ==> ws(s[k])
    ensures n == |s| || !ws(s[n])
    decreases |s|
  {
    if s == [] || !ws(s[0]) then 0 else 1 + LeadLen(s[1..], ws)
  }

  /** How many whitespace characters s ends with. */
  function TrailLen(s: string, ws: char -> bool): (n: nat)
    ensures n <= |s|
    decreases |s|
  {
    if s == [] || !ws(s[|s| - 1]) then 0 else 1 + TrailLen(s[..|s| - 1], ws)
  }

  /** The last TrailLen characters are whitespace and the one before them is not. */
  lemma {:induction false} TrailLenSpec(s: string, ws: char -> bool)
    ensures forall k :: |s| - TrailLen(s, ws) <= k < |s| ==> ws(s[k])
    ensures TrailLen(s, ws) == |s| || !ws(s[|s| - TrailLen(s, ws) - 1])
    decreases |s|
  {
    if s != [] && ws(s[|s| - 1]) {
      var init := s[..|s| - 1];
      TrailLenSpec(init, ws);
      forall k | |s| - TrailLen(s, ws) <= k < |s|
        ensures ws(s[k])
      {
        if k < |s| - 1 {
          assert s[k] == init[k];
        }
      }
    }
  }

  /** s without its leading whitespace. */
  function TrimStart(s: string, ws: char -> bool): (r: string)
    ensures |r| <= |s|
    ensures r == [] || !ws(r[0])
  {
    s[LeadLen(s, ws)..]
  }

  /** s without its trailing whitespace. */
  function TrimEnd(s: string, ws: char -> bool): (r: string)
    ensures |r| <= |s|
    ensures r == [] || !ws(r[|r| - 1])
  {
    TrailLenSpec(s, ws);
    s[..|s| - TrailLen(s, ws)]
  }

  /** Both ends trimmed: the result is blank only when s is, and has no whitespace at either end. */
  function Trim(s: string, ws: char -> bool): (r: string)
    ensures |r| <= |s|
    ensures r == [] <==> AllSpace(s, ws)
    ensures r == [] || (!ws(r[0]) && !ws(r[|r| - 1]))
  {
    var i := LeadLen(s, ws);
    var t := s[i..];
    LeadSpace(s, ws);
    assert t == [] ==> s[..i] == s;
    var j := TrailLen(t, ws);
    TrailLenSpec(t, ws);
    assert j < |t| ==> t[..|t| - j][0] == t[0];
    t[..|t| - j]
  }

  /** The trimmed text is the slice of s between a blank prefix and a blank suffix. */
  lemma TrimSlice(s: string, ws: char -> bool)
    ensures var r := Trim(s, ws); var i := LeadLen(s, ws);
      i + |r| <= |s| && r == s[i..i + |r|] && AllSpace(s[..i], ws) && AllSpace(s[i + |r|..], ws)
  {
    TrimInside(s, ws);
    LeadSpace(s, ws);
    TrimTail(s, ws);
  }

  lemma TrimInside(s: string, ws: char -> bool)
    ensures var r := Trim(s, ws); var i := LeadLen(s, ws);
      i + |r| <= |s| && r == s[i..i + |r|]
  {
    var i := LeadLen(s, ws);
    var t := s[i..];
    var j := TrailLen(t, ws);
    assert t[..|t| - j] == s[i..i + |t| - j];
  }

  lemma TrimTail(s: string, ws: char -> bool)
    ensures LeadLen(s, ws) + |Trim(s, ws)| <= |s|
    ensures AllSpace(s[LeadLen(s, ws) + |Trim(s, ws)|..], ws)
  {
    var i := LeadLen(s, ws);
    var t := s[i..];
    var j := TrailLen(t, ws);
    var r := Trim(s, ws);
    assert r == t[..|t| - j];
    TrailSpace(t, ws);
    assert s[i + |r|..] == t[|t| - j..];
  }

  lemma LeadSpace(s: string, ws: char -> bool)
    ensures AllSpace(s[..LeadLen(s, ws)], ws)
  {
    var p := s[..LeadLen(s, ws)];
    forall k | 0 <= k < |p|
      ensures ws(p[k])
    {
      assert p[k] == s[k];
    }
  }

  lemma TrailSpace(t: string, ws: char -> bool)
    ensures AllSpace(t[|t| - TrailLen(t, ws)..], ws)
  {
    TrailLenSpec(t, ws);
  }

  /** Text with no whitespace at either end is its own trim. */
  lemma TrimUnchanged(s: string, ws: char -> bool)
    requires s == [] || (!ws(s[0]) && !ws(s[|s| - 1]))
    ensures Trim(s, ws) == s
  {
    if s != [] {
      assert LeadLen(s, ws) == 0;
      assert s[0..] == s;
      assert TrailLen(s, ws) == 0;
      assert s[..|s|] == s;
    }
  }

  /** s with its whitespace characters removed: the text a reader sees, in order. */
  function Visible(s: string, ws: char -> bool): (r: string)
    ensures |r| <= |s|
    decreases |s|
  {
    if s == [] then [] else (if ws(s[0]) then [] else [s[0]]) + Visible(s[1..], ws)
  }

  lemma {:induction false} VisibleAppend(a: string, b: string, ws: char -> bool)
    ensures Visible(a + b, ws) == Visible(a, ws) + Visible(b, ws)
    decreases |a|
  {
    if a == [] {
      assert a + b == b;
    } else {
      assert (a + b)[0] == a[0];
      assert (a + b)[1..] == a[1..] + b;
      VisibleAppend(a[1..], b, ws);
    }
  }

  lemma {:induction false} VisibleBlank(s: string, ws: char -> bool)
    requires AllSpace(s, ws)
    ensures Visible(s, ws) == []
    decreases |s|
  {
    if s != [] {
      assert ws(s[0]);
      VisibleBlank(s[1..], ws);
    }
  }

  /** Trimming removes whitespace only. */
  lemma VisibleTrim(s: string, ws: char -> bool)
    ensures Visible(Trim(s, ws), ws) == Visible(s, ws)
  {
    TrimSlice(s, ws);
    var r := Trim(s, ws);
    var i := LeadLen(s, ws);
    var p, q := s[..i], s[i + |r|..];
    assert s == p + r + q;
    VisibleParts(p, r, q, ws);
  }

  lemma VisibleParts(p: string, r: string, q: string, ws: char -> bool)
    requires AllSpace(p, ws) && AllSpace(q, ws)
    ensures Visible(p + r + q, ws) == Visible(r, ws)
  {
    VisibleAppend(p + r, q, ws);
    VisibleAppend(p, r, ws);
    VisibleBlank(p, ws);
    VisibleBlank(q, ws);
  }

  /** Python str.strip() with no argument. */
  function PyStrip(s: string): string
  {
    Trim(s, PyIsSpace)
  }

  /** ECMAScript String.prototype.trim(). */
  function JsTrim(s: string): string
  {
    Trim(s, JsIsSpace)
  }

  /** s.split(sep) for a one-character separator, the same in Python and ECMAScript. */
  function Split(s: string, sep: char): (r: seq<string>)
    ensures |r| >= 1
    ensures forall p :: p in r ==> sep !in p
    decreases |s|
  {
    if |s| == 0 then [""]
    else
      var rest := Split(s[1..], sep);
      if s[0] == sep then [""] + rest else [[s[0]] + rest[0]] + rest[1..]
  }

  /** sep.join(parts) in Python, parts.join(sep) in ECMAScript. */
  function Join(parts: seq<string>, sep: string): string
    decreases |parts|
  {
    if |parts| == 0 then ""
    else if |parts| == 1 then parts[0]
    else parts[0] + sep + Join(parts[1..], sep)
  }

  /** No part contains the separator. */
  predicate FreeOf(parts: seq<string>, sep: char)
  {
    forall k :: 0 <= k < |parts| ==> sep !in parts[k]
  }

  lemma {:induction false} SplitNoSep(p: string, sep: char)
    requires sep !in p
    ensures Split(p, sep) == [p]
    decreases |p|
  {
    if |p| > 0 {
      SplitNoSep(p[1..], sep);
      assert [p[0]] + p[1..] == p;
    }
  }

  lemma {:induction false} SplitAfterPart(p: string, sep: char, t: string)
    requires sep !in p
    ensures Split(p + [sep] + t, sep) == [p] + Split(t, sep)
    decreases |p|
  {
    if |p| == 0 {
      assert p + [sep] + t == [sep] + t;
      assert ([sep] + t)[1..] == t;
    } else {
      SplitAfterPart(p[1..], sep, t);
      assert (p + [sep] + t)[1..] == p[1..] + [sep] + t;
      assert [p[0]] + p[1..] == p;
    }
  }

  /** Splitting a join gives the parts back when no part holds the separator. */
  lemma {:induction false} SplitJoin(parts: seq<string>, sep: char)
    requires |parts| >= 1 && FreeOf(parts, sep)
    ensures Split(Join(parts, [sep]), sep) == parts
    decreases |parts|
  {
    if |parts| == 1 {
      SplitNoSep(parts[0], sep);
    } else {
      SplitJoin(parts[1..], sep);
      SplitAfterPart(parts[0], sep, Join(parts[1..], [sep]));
      assert [parts[0]] + parts[1..] == parts;
    }
  }

  /** Joining the pieces of a split gives the string back. */
  lemma {:induction false} JoinSplit(s: string, sep: char)
    ensures Join(Split(s, sep), [sep]) == s
    decreases |s|
  {
    if |s| > 0 {
      JoinSplit(s[1..], sep);
      var rest := Split(s[1..], sep);
      if s[0] != sep {
        if |rest| > 1 {
          assert ([[s[0]] + rest[0]] + rest[1..])[1..] == rest[1..];
        }
      }
    }
  }

  predicate StartsWith(s: string, prefix: string)
  {
    |prefix| <= |s| && s[..|prefix|] == prefix
  }

  function DigitChar(d: int): char
    requires 0 <= d < 10
  {
    "0123456789"[d]
  }

  function NatToString(n: nat): (r: string)
    ensures |r| >= 1
    ensures forall k :: 0 <= k < |r| ==> '0' <= r[k] <= '9'
    decreases n
  {
    if n < 10 then [DigitChar(n)] else NatToString(n / 10) + [DigitChar(n % 10)]
  }

  /** Decimal text of an integer, as Python's str(int), repr and JSON write it. */
  function IntToString(n: int): (r: string)
    ensures forall k :: 0 <= k < |r| ==> r[k] == '-' || '0' <= r[k] <= '9'
  {
    if n < 0 then "-" + NatToString(-n) else NatToString(n)
  }

  predicate IsAsciiDigit(c: char)
  {
    '0' <= c <= '9'
  }

  function AsciiLower(c: char): char
  {
    if 'A' <= c <= 'Z' then (c as int + 32) as char else c
  }

  function AsciiUpper(c: char): char
  {
    if 'a' <= c <= 'z' then (c as int - 32) as char else c
  }

  function AsciiLowerString(s: string): (r: string)
    ensures |r| == |s|
  {
    seq(|s|, k requires 0 <= k < |s| => AsciiLower(s[k]))
  }

  /** needle occurs in s starting at index k. */
  predicate OccursAt(s: string, needle: string, k: int)
  {
    0 <= k <= |s| - |needle| && s[k..k + |needle|] == needle
  }

  /** needle occurs in s as a contiguous piece (Python's `in` on strings). */
  predicate Contains(s: string, needle: string)
  {
    exists k | 0 <= k <= |s| - |needle| :: OccursAt(s, needle, k)
  }
}

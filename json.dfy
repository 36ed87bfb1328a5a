/**
 * JSON-like values as the worker's Python code and the backend's
 * JavaScript code hold them: dicts and objects keep their key order,
 * numbers are integers. Also the JSON text of scalars (Python json.dumps)
 * and ECMAScript JSON.stringify with its string quoting.
 */
module Json {
  import opened Wrappers
  import Text

  datatype Json =
    | Null
    | Bool(b: bool)
    | Num(n: int)
    | Str(s: string)
    | Arr(items: seq<Json>)
    | Obj(fields: seq<(string, Json)>)

  predicate IsScalar(j: Json)
  {
    !j.Arr? && !j.Obj?
  }

  function Keys(fields: seq<(string, Json)>): (ks: seq<string>)
    ensures |ks| == |fields|
    ensures forall k :: 0 <= k < |fields| ==> ks[k] == fields[k].0
  {
    seq(|fields|, k requires 0 <= k < |fields| => fields[k].0)
  }

  /** The value under key: the first pair that has it (dicts and objects hold each key once). */
  function Get(fields: seq<(string, Json)>, key: string): Option<Json>
    decreases |fields|
  {
    if fields == [] then None
    else if fields[0].0 == key then Some(fields[0].1)
    else Get(fields[1..], key)
  }

  /** A key is found exactly when some pair has it, and what is found is that pair's value. */
  lemma {:induction false} GetSpec(fields: seq<(string, Json)>, key: string)
    ensures Get(fields, key).None? <==> key !in Keys(fields)
    ensures Get(fields, key).Some? ==> exists k :: 0 <= k < |fields| && fields[k] == (key, Get(fields, key).value)
    decreases |fields|
  {
    if fields != [] {
      GetSpec(fields[1..], key);
      if fields[0].0 != key && Get(fields, key).Some? {
        var k :| 0 <= k < |fields[1..]| && fields[1..][k] == (key, Get(fields, key).value);
        assert fields[k + 1] == (key, Get(fields, key).value);
      }
    }
  }

  /** Python's truthiness of a JSON value. */
  predicate Truthy(j: Json)
  {
    match j
    case Null => false
    case Bool(b) => b
    case Num(n) => n != 0
    case Str(s) => s != ""
    case Arr(items) => items != []
    case Obj(fields) => fields != []
  }

  /** json.dumps of a non-string scalar: null, true, false or the decimal digits. */
  function PyDumpsScalar(j: Json): string
    requires j.Null? || j.Bool? || j.Num?
  {
    match j
    case Null => "null"
    case Bool(b) => if b then "true" else "false"
    case Num(n) => Text.IntToString(n)
  }

  /**
   * Two values have the same shape when every dict of the first is a dict of
   * the second with the same keys in the same order, and every list has the
   * same length, recursively; a scalar may become anything.
   */
  predicate SameShape(a: Json, b: Json)
  {
    match a
    case Arr(xs) =>
      b.Arr? && |b.items| == |xs| && forall k :: 0 <= k < |xs| ==> SameShape(xs[k], b.items[k])
    case Obj(fs) =>
      b.Obj? && Keys(b.fields) == Keys(fs)
      && forall k :: 0 <= k < |fs| ==> SameShape(fs[k].1, b.fields[k].1)
    case _ => true
  }

  /** Apply leaf to every scalar, keeping every dict key and every list position. */
  function MapLeaves(j: Json, leaf: Json -> Json): (r: Json)
    ensures SameShape(j, r)
    ensures IsScalar(j) ==> r == leaf(j)
  {
    match j
    case Arr(xs) => Arr(seq(|xs|, k requires 0 <= k < |xs| => MapLeaves(xs[k], leaf)))
    case Obj(fs) => Obj(seq(|fs|, k requires 0 <= k < |fs| => (fs[k].0, MapLeaves(fs[k].1, leaf))))
    case _ => leaf(j)
  }

  /** p holds of every scalar inside j. */
  predicate AllLeaves(j: Json, p: Json -> bool)
  {
    match j
    case Arr(xs) => forall k :: 0 <= k < |xs| ==> AllLeaves(xs[k], p)
    case Obj(fs) => forall k :: 0 <= k < |fs| ==> AllLeaves(fs[k].1, p)
    case _ => p(j)
  }

  /** A leaf function whose every result is a scalar satisfying p gives a value whose every leaf does. */
  lemma {:induction false} MapLeavesAll(j: Json, leaf: Json -> Json, p: Json -> bool)
    requires forall x :: IsScalar(x) ==> IsScalar(leaf(x)) && p(leaf(x))
    ensures AllLeaves(MapLeaves(j, leaf), p)
  {
    match j
    case Arr(xs) =>
      forall k | 0 <= k < |xs|
        ensures AllLeaves(MapLeaves(j, leaf).items[k], p)
      {
        MapLeavesAll(xs[k], leaf, p);
      }
    case Obj(fs) =>
      forall k | 0 <= k < |fs|
        ensures AllLeaves(MapLeaves(j, leaf).fields[k].1, p)
      {
        MapLeavesAll(fs[k].1, leaf, p);
      }
    case _ =>
      assert IsScalar(leaf(j));
  }

  /**
   * b is a with leaf applied at every scalar: every dict of a is a dict of b
   * with the same keys in the same order, every list has the same length, and
   * each scalar of b is leaf of the scalar of a at the same position.
   */
  predicate Leafwise(a: Json, b: Json, leaf: Json -> Json)
  {
    match a
    case Arr(xs) =>
      b.Arr? && |b.items| == |xs| && forall k :: 0 <= k < |xs| ==> Leafwise(xs[k], b.items[k], leaf)
    case Obj(fs) =>
      b.Obj? && Keys(b.fields) == Keys(fs)
      && forall k :: 0 <= k < |fs| ==> Leafwise(fs[k].1, b.fields[k].1, leaf)
    case _ => b == leaf(a)
  }

  /** MapLeaves rewrites every scalar, at any depth, by leaf and touches nothing else. */
  lemma {:induction false} MapLeavesLeafwise(j: Json, leaf: Json -> Json)
    ensures Leafwise(j, MapLeaves(j, leaf), leaf)
  {
    match j
    case Arr(xs) =>
      forall k | 0 <= k < |xs|
        ensures Leafwise(xs[k], MapLeaves(j, leaf).items[k], leaf)
      {
        MapLeavesLeafwise(xs[k], leaf);
      }
    case Obj(fs) =>
      forall k | 0 <= k < |fs|
        ensures Leafwise(fs[k].1, MapLeaves(j, leaf).fields[k].1, leaf)
      {
        MapLeavesLeafwise(fs[k].1, leaf);
      }
    case _ =>
  }

  // ---- ECMAScript JSON.stringify ------------------------------------------------

  /** The lower-case hex digit of d. */
  function HexDigit(d: int): char
    requires 0 <= d < 16
  {
    if d < 10 then ('0' as int + d) as char else ('a' as int + d - 10) as char
  }

  function HexValue(c: char): (v: int)
    ensures -1 <= v < 16
  {
    if '0' <= c <= '9' then c as int - '0' as int
    else if 'a' <= c <= 'f' then c as int - 'a' as int + 10
    else if 'A' <= c <= 'F' then c as int - 'A' as int + 10
    else -1
  }

  /** How QuoteJSONString writes one character. */
  function EscapeChar(c: char): (r: string)
    ensures 1 <= |r| <= 6
  {
    if c == '"' then "\\\""
    else if c == '\\' then "\\\\"
    else if c == '\U{8}' then "\\b"
    else if c == '\t' then "\\t"
    else if c == '\n' then "\\n"
    else if c == '\U{C}' then "\\f"
    else if c == '\r' then "\\r"
    else if c < ' ' then "\\u00" + [HexDigit(c as int / 16), HexDigit(c as int % 16)]
    else [c]
  }

  function Escape(s: string): string
    decreases |s|
  {
    if s == [] then "" else EscapeChar(s[0]) + Escape(s[1..])
  }

  /** The JSON string literal JSON.stringify writes for s. */
  function Quote(s: string): string
  {
    "\"" + Escape(s) + "\""
  }

  /** Read back the body of a JSON string literal; None when it is not well formed. */
  function Unescape(t: string): (r: Option<string>)
    decreases |t|
  {
    if t == [] then Some("")
    else if t[0] == '"' || t[0] < ' ' then None
    else if t[0] != '\\' then
      match Unescape(t[1..])
      case Some(rest) => Some([t[0]] + rest)
      case None => None
    else if |t| < 2 then None
    else
      var e := t[1];
      var simple :=
        if e == '"' then Some('"') else if e == '\\' then Some('\\') else if e == '/' then Some('/')
        else if e == 'b' then Some('\U{8}') else if e == 'f' then Some('\U{C}')
        else if e == 'n' then Some('\n') else if e == 'r' then Some('\r') else if e == 't' then Some('\t')
        else None;
      if simple.Some? then
        match Unescape(t[2..])
        case Some(rest) => Some([simple.value] + rest)
        case None => None
      else if e != 'u' || |t| < 6 then None
      else
        var h0, h1, h2, h3 := HexValue(t[2]), HexValue(t[3]), HexValue(t[4]), HexValue(t[5]);
        if h0 < 0 || h1 < 0 || h2 < 0 || h3 < 0 then None
        else
          var n := ((h0 * 16 + h1) * 16 + h2) * 16 + h3;
          if 0xD800 <= n < 0xE000 then None
          else
            match Unescape(t[6..])
            case Some(rest) => Some([n as char] + rest)
            case None => None
  }

  lemma UnescapeChar(c: char, rest: string)
    ensures Unescape(EscapeChar(c) + rest) ==
      (match Unescape(rest) case Some(r) => Some([c] + r) case None => None)
  {
    if c == '"' || c == '\\' || c == '\U{8}' || c == '\t' || c == '\n' || c == '\U{C}' || c == '\r' {
      UnescapeShort(c, rest);
    } else if c < ' ' {
      UnescapeControl(c, rest);
    } else {
      var t := EscapeChar(c) + rest;
      assert t[1..] == rest;
    }
  }

  /** A character written as a backslash and one letter. */
  lemma UnescapeShort(c: char, rest: string)
    requires c == '"' || c == '\\' || c == '\U{8}' || c == '\t' || c == '\n' || c == '\U{C}' || c == '\r'
    ensures Unescape(EscapeChar(c) + rest) ==
      (match Unescape(rest) case Some(r) => Some([c] + r) case None => None)
  {
    var t := EscapeChar(c) + rest;
    assert t[2..] == rest;
  }

  /** A control character written as a \u escape of four hex digits. */
  lemma UnescapeControl(c: char, rest: string)
    requires c < ' ' && !(c == '\U{8}' || c == '\t' || c == '\n' || c == '\U{C}' || c == '\r')
    ensures Unescape(EscapeChar(c) + rest) ==
      (match Unescape(rest) case Some(r) => Some([c] + r) case None => None)
  {
    var t := EscapeChar(c) + rest;
    var d1, d0 := c as int / 16, c as int % 16;
    assert t[6..] == rest;
    assert t[2] == '0' && t[3] == '0' && t[4] == HexDigit(d1) && t[5] == HexDigit(d0);
    assert HexValue(HexDigit(d1)) == d1 && HexValue(HexDigit(d0)) == d0;
    assert ((0 * 16 + 0) * 16 + d1) * 16 + d0 == c as int;
  }

  /** Reading the literal JSON.stringify wrote gives the string back. */
  lemma {:induction false} UnescapeEscape(s: string)
    ensures Unescape(Escape(s)) == Some(s)
    decreases |s|
  {
    if s != [] {
      UnescapeEscape(s[1..]);
      UnescapeChar(s[0], Escape(s[1..]));
      assert Escape(s) == EscapeChar(s[0]) + Escape(s[1..]);
      assert [s[0]] + s[1..] == s;
    }
  }

  function JoinComma(parts: seq<string>): string
  {
    Text.Join(parts, ",")
  }

  /** JSON.stringify(v) without indentation, for values free of undefined. */
  function Stringify(j: Json): string
  {
    match j
    case Null => "null"
    case Bool(b) => if b then "true" else "false"
    case Num(n) => Text.IntToString(n)
    case Str(s) => Quote(s)
    case Arr(xs) => "[" + JoinComma(seq(|xs|, k requires 0 <= k < |xs| => Stringify(xs[k]))) + "]"
    case Obj(fs) =>
      "{" + JoinComma(seq(|fs|, k requires 0 <= k < |fs| => Quote(fs[k].0) + ":" + Stringify(fs[k].1))) + "}"
  }
}

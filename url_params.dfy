/**
 * URLSearchParams as the front end uses it: an ordered list of name/value
 * pairs with get, delete and set, serialised and parsed as
 * application/x-www-form-urlencoded (section 5 of the WHATWG URL Standard).
 */
module UrlParams {
  import opened Wrappers
  import Text
  import Utf8
  import Seqs

  type Byte = Utf8.Byte
  type Pairs = seq<(string, string)>

  // ---- the list operations ------------------------------------------------------

  /** params.get(name): the value of the first pair with that name. */
  function Get(ps: Pairs, name: string): (r: Option<string>)
    ensures r.None? <==> forall k :: 0 <= k < |ps| ==> ps[k].0 != name
    ensures r.Some? ==> exists k :: 0 <= k < |ps| && ps[k] == (name, r.value)
    decreases |ps|
  {
    if ps == [] then None
    else if ps[0].0 == name then Some(ps[0].1)
    else Get(ps[1..], name)
  }

  /** The pairs whose name is not in names, in their order. */
  function Without(ps: Pairs, names: set<string>): (r: Pairs)
    ensures |r| <= |ps|
    ensures forall k :: 0 <= k < |r| ==> r[k].0 !in names && r[k] in ps
    decreases |ps|
  {
    if ps == [] then []
    else (if ps[0].0 in names then [] else [ps[0]]) + Without(ps[1..], names)
  }

  function Count(ps: Pairs, name: string): nat
    decreases |ps|
  {
    if ps == [] then 0 else (if ps[0].0 == name then 1 else 0) + Count(ps[1..], name)
  }

  /** params.delete(name): every pair with that name goes; the rest keep their order. */
  function Delete(ps: Pairs, name: string): (r: Pairs)
    ensures Count(r, name) == 0
  {
    WithoutCount(ps, {name}, name);
    Without(ps, {name})
  }

  lemma {:induction false} WithoutCount(ps: Pairs, names: set<string>, name: string)
    requires name in names
    ensures Count(Without(ps, names), name) == 0
    decreases |ps|
  {
    if ps != [] {
      WithoutCount(ps[1..], names, name);
      var w := Without(ps, names);
      if ps[0].0 !in names {
        assert ps[0].0 != name;
        assert w == [ps[0]] + Without(ps[1..], names);
        assert w[1..] == Without(ps[1..], names);
      } else {
        assert w == Without(ps[1..], names);
      }
    }
  }

  function SetFrom(ps: Pairs, name: string, value: string, found: bool): Pairs
    decreases |ps|
  {
    if ps == [] then (if found then [] else [(name, value)])
    else if ps[0].0 == name then
      (if found then [] else [(name, value)]) + SetFrom(ps[1..], name, value, true)
    else [ps[0]] + SetFrom(ps[1..], name, value, found)
  }

  /**
   * params.set(name, value): the first pair with that name takes the value and
   * the others with that name go; with none, the pair is appended. Pairs
   * with other names are untouched.
   */
  function Set(ps: Pairs, name: string, value: string): (r: Pairs)
    ensures Get(r, name) == Some(value) && Count(r, name) == 1
    ensures forall names :: name in names ==> Without(r, names) == Without(ps, names)
    ensures Get(ps, name).None? ==> r == ps + [(name, value)]
  {
    SetFromCount(ps, name, value, false);
    SetFromGet(ps, name, value);
    SetFromAppends(ps, name, value);
    forall names | name in names
      ensures Without(SetFrom(ps, name, value, false), names) == Without(ps, names)
    {
      SetFromWithout(ps, name, value, false, names);
    }
    SetFrom(ps, name, value, false)
  }

  lemma {:induction false} SetFromCount(ps: Pairs, name: string, value: string, found: bool)
    ensures Count(SetFrom(ps, name, value, found), name) == (if found then 0 else 1)
    decreases |ps|
  {
    var r := SetFrom(ps, name, value, found);
    if ps == [] {
      if !found {
        assert Count(r, name) == 1 + Count(r[1..], name);
      }
    } else if ps[0].0 == name {
      SetFromCount(ps[1..], name, value, true);
      if !found {
        assert r == [(name, value)] + SetFrom(ps[1..], name, value, true);
        assert r[1..] == SetFrom(ps[1..], name, value, true);
        assert Count(r, name) == 1 + Count(r[1..], name);
      } else {
        assert r == SetFrom(ps[1..], name, value, true);
      }
    } else {
      SetFromCount(ps[1..], name, value, found);
      assert r[1..] == SetFrom(ps[1..], name, value, found);
    }
  }

  lemma {:induction false} SetFromGet(ps: Pairs, name: string, value: string)
    ensures Get(SetFrom(ps, name, value, false), name) == Some(value)
    decreases |ps|
  {
    var r := SetFrom(ps, name, value, false);
    if ps != [] && ps[0].0 != name {
      SetFromGet(ps[1..], name, value);
      assert r[1..] == SetFrom(ps[1..], name, value, false);
    }
  }

  lemma {:induction false} SetFromAppends(ps: Pairs, name: string, value: string)
    ensures Get(ps, name).None? ==> SetFrom(ps, name, value, false) == ps + [(name, value)]
    decreases |ps|
  {
    if ps != [] && ps[0].0 != name {
      SetFromAppends(ps[1..], name, value);
      assert ps == [ps[0]] + ps[1..];
    }
  }

  lemma {:induction false} SetFromWithout(ps: Pairs, name: string, value: string, found: bool, names: set<string>)
    requires name in names
    ensures Without(SetFrom(ps, name, value, found), names) == Without(ps, names)
    decreases |ps|
  {
    var r := SetFrom(ps, name, value, found);
    if ps == [] {
      if !found {
        assert r == [(name, value)] && r[1..] == [];
        assert r[0].0 in names;
        assert Without(r[1..], names) == [];
        assert Without(r, names) == [];
      }
    } else if ps[0].0 == name {
      SetFromWithout(ps[1..], name, value, true, names);
      assert Without(ps, names) == Without(ps[1..], names);
      if !found {
        assert r == [(name, value)] + SetFrom(ps[1..], name, value, true);
        assert r[1..] == SetFrom(ps[1..], name, value, true);
        assert Without(r, names) == [] + Without(r[1..], names);
      } else {
        assert r == SetFrom(ps[1..], name, value, true);
      }
    } else {
      SetFromWithout(ps[1..], name, value, found, names);
      assert r[1..] == SetFrom(ps[1..], name, value, found);
      assert Without(r, names) == (if ps[0].0 in names then [] else [ps[0]]) + Without(r[1..], names);
    }
  }

  /** The pairs whose name satisfies keep, in their order. */
  function Keep(ps: Pairs, keep: string -> bool): (r: Pairs)
    ensures |r| <= |ps|
    decreases |ps|
  {
    if ps == [] then [] else (if keep(ps[0].0) then [ps[0]] else []) + Keep(ps[1..], keep)
  }

  lemma {:induction false} KeepAppend(a: Pairs, b: Pairs, keep: string -> bool)
    ensures Keep(a + b, keep) == Keep(a, keep) + Keep(b, keep)
    decreases |a|
  {
    if a == [] {
      assert a + b == b;
    } else {
      KeepAppend(a[1..], b, keep);
      var h := if keep(a[0].0) then [a[0]] else [];
      assert (a + b)[0] == a[0] && (a + b)[1..] == a[1..] + b;
      assert Keep(a + b, keep) == h + Keep(a[1..] + b, keep);
      assert Keep(a, keep) == h + Keep(a[1..], keep);
    }
  }

  /** Keeping from a list is keeping from all but its last pair, then the last pair when it passes. */
  lemma KeepLast(ps: Pairs, keep: string -> bool)
    requires ps != []
    ensures Keep(ps, keep) == Keep(ps[..|ps| - 1], keep) + (if keep(ps[|ps| - 1].0) then [ps[|ps| - 1]] else [])
  {
    var last := ps[|ps| - 1];
    KeepAppend(ps[..|ps| - 1], [last], keep);
    assert ps == ps[..|ps| - 1] + [last];
    assert Keep([last], keep) == (if keep(last.0) then [last] else []) + Keep([], keep);
  }

  /** Deleting names keep rejects leaves the kept pairs as they were. */
  lemma {:induction false} KeepWithout(ps: Pairs, names: set<string>, keep: string -> bool)
    requires forall n :: n in names ==> !keep(n)
    ensures Keep(Without(ps, names), keep) == Keep(ps, keep)
    decreases |ps|
  {
    if ps != [] {
      KeepWithout(ps[1..], names, keep);
      var w := Without(ps, names);
      if ps[0].0 in names {
        assert w == Without(ps[1..], names);
      } else {
        assert w == [ps[0]] + Without(ps[1..], names);
        assert w[1..] == Without(ps[1..], names);
      }
    }
  }

  lemma {:induction false} KeepSetFrom(ps: Pairs, name: string, value: string, found: bool, keep: string -> bool)
    requires !keep(name)
    ensures Keep(SetFrom(ps, name, value, found), keep) == Keep(ps, keep)
    decreases |ps|
  {
    var r := SetFrom(ps, name, value, found);
    if ps == [] {
      if !found {
        assert r == [(name, value)] && r[1..] == [];
      }
    } else if ps[0].0 == name {
      KeepSetFrom(ps[1..], name, value, true, keep);
      if !found {
        assert r == [(name, value)] + SetFrom(ps[1..], name, value, true);
        assert r[1..] == SetFrom(ps[1..], name, value, true);
      } else {
        assert r == SetFrom(ps[1..], name, value, true);
      }
    } else {
      KeepSetFrom(ps[1..], name, value, found, keep);
      assert r[1..] == SetFrom(ps[1..], name, value, found);
    }
  }

  /** Setting a name keep rejects leaves the kept pairs as they were. */
  lemma KeepSet(ps: Pairs, name: string, value: string, keep: string -> bool)
    requires !keep(name)
    ensures Keep(Set(ps, name, value), keep) == Keep(ps, keep)
  {
    KeepSetFrom(ps, name, value, false, keep);
  }

  /** get(name) only sees the pairs with that name, so any filter that keeps them keeps the answer. */
  lemma {:induction false} GetKeep(ps: Pairs, name: string, keep: string -> bool)
    requires keep(name)
    ensures Get(Keep(ps, keep), name) == Get(ps, name)
    decreases |ps|
  {
    if ps != [] {
      GetKeep(ps[1..], name, keep);
      var r := Keep(ps, keep);
      if keep(ps[0].0) {
        assert r == [ps[0]] + Keep(ps[1..], keep);
        assert r[0] == ps[0] && r[1..] == Keep(ps[1..], keep);
      } else {
        assert ps[0].0 != name;
        assert r == Keep(ps[1..], keep);
      }
    }
  }

  // ---- application/x-www-form-urlencoded ------------------------------------------

  /** Bytes the serializer leaves as they are: ASCII alphanumerics, *, -, . and _. */
  predicate Unreserved(b: Byte)
  {
    (0x30 <= b <= 0x39) || (0x41 <= b <= 0x5A) || (0x61 <= b <= 0x7A)
    || b == 0x2A || b == 0x2D || b == 0x2E || b == 0x5F
  }

  function UpperHex(d: int): Byte
    requires 0 <= d < 16
  {
    if d < 10 then 0x30 + d else 0x41 + d - 10
  }

  function HexValue(b: Byte): (v: int)
    ensures -1 <= v < 16
  {
    if 0x30 <= b <= 0x39 then b - 0x30
    else if 0x41 <= b <= 0x46 then b - 0x41 + 10
    else if 0x61 <= b <= 0x66 then b - 0x61 + 10
    else -1
  }

  /** One byte of the serializer's output: space as +, unreserved as is, else %XX in upper case. */
  function EncodeByte(b: Byte): seq<Byte>
  {
    if b == 0x20 then [0x2B]
    else if Unreserved(b) then [b]
    else [0x25, UpperHex(b / 16), UpperHex(b % 16)]
  }

  function EncodeBytes(bs: seq<Byte>): seq<Byte>
    decreases |bs|
  {
    Seqs.FlatMap(bs, EncodeByte)
  }

  /** The escaped bytes are ASCII and hold neither '&' nor '='. */
  lemma {:induction false} EncodeBytesSafe(bs: seq<Byte>)
    ensures forall k :: 0 <= k < |EncodeBytes(bs)| ==>
      EncodeBytes(bs)[k] < 0x80 && EncodeBytes(bs)[k] != 0x26 && EncodeBytes(bs)[k] != 0x3D
    decreases |bs|
  {
    if bs != [] {
      EncodeBytesSafe(bs[1..]);
      var h, t := EncodeByte(bs[0]), EncodeBytes(bs[1..]);
      assert EncodeBytes(bs) == h + t;
      assert forall k :: 0 <= k < |h| ==> h[k] < 0x80 && h[k] != 0x26 && h[k] != 0x3D;
      forall k | 0 <= k < |h + t|
        ensures (h + t)[k] < 0x80 && (h + t)[k] != 0x26 && (h + t)[k] != 0x3D
      {
        if k >= |h| {
          assert (h + t)[k] == t[k - |h|];
        }
      }
    }
  }

  function AsciiText(bs: seq<Byte>): (s: string)
    requires forall k :: 0 <= k < |bs| ==> bs[k] < 0x80
    ensures |s| == |bs| && forall k :: 0 <= k < |s| ==> s[k] as int == bs[k]
  {
    seq(|bs|, k requires 0 <= k < |bs| => bs[k] as char)
  }

  /** The form-urlencoded text of a name or a value (its UTF-8 bytes, escaped). */
  function EncodeComponent(s: string): (r: string)
    ensures forall k :: 0 <= k < |r| ==> r[k] as int < 0x80 && r[k] != '&' && r[k] != '='
  {
    EncodeBytesSafe(Utf8.Encode(s));
    AsciiText(EncodeBytes(Utf8.Encode(s)))
  }

  lemma EncodeBytesAppend(a: seq<Byte>, b: seq<Byte>)
    ensures EncodeBytes(a + b) == EncodeBytes(a) + EncodeBytes(b)
  {
    Seqs.FlatMapAppend(a, b, EncodeByte);
  }

  /** Names and values are escaped character by character. */
  lemma EncodeComponentAppend(a: string, b: string)
    ensures EncodeComponent(a + b) == EncodeComponent(a) + EncodeComponent(b)
  {
    Utf8.EncodeAppend(a, b);
    EncodeBytesAppend(Utf8.Encode(a), Utf8.Encode(b));
  }

  /** A character the serializer writes as it is. */
  predicate UnreservedChar(c: char)
  {
    ('0' <= c <= '9') || ('A' <= c <= 'Z') || ('a' <= c <= 'z') || c == '*' || c == '-' || c == '.' || c == '_'
  }

  lemma {:induction false} EncodeUnreservedBytes(bs: seq<Byte>)
    requires forall k :: 0 <= k < |bs| ==> Unreserved(bs[k])
    ensures EncodeBytes(bs) == bs
    decreases |bs|
  {
    if bs != [] {
      EncodeUnreservedBytes(bs[1..]);
      assert [bs[0]] + bs[1..] == bs;
    }
  }

  /** Letters, digits and * - . _ pass through unescaped. */
  lemma EncodeUnreserved(s: string)
    requires forall k :: 0 <= k < |s| ==> UnreservedChar(s[k])
    ensures EncodeComponent(s) == s
  {
    Utf8.EncodeAscii(s);
    var bs := Utf8.Encode(s);
    EncodeUnreservedBytes(bs);
  }

  /** A space is written as '+'. */
  lemma EncodeSpace()
    ensures EncodeComponent(" ") == "+"
  {
    assert Utf8.Encode(" ") == [0x20];
  }

  /** '&' is written as "%26". */
  lemma EncodeAmpersand()
    ensures EncodeComponent("&") == "%26"
  {
    assert Utf8.Encode("&") == [0x26];
  }

  /** toString of a single pair is that pair's text. */
  lemma SerializeOne(name: string, value: string)
    ensures Serialize([(name, value)]) == EncodeComponent(name) + "=" + EncodeComponent(value)
  {
  }

  function PairText(p: (string, string)): string
  {
    EncodeComponent(p.0) + "=" + EncodeComponent(p.1)
  }

  /** params.toString(): name=value for each pair, joined by '&'. */
  function Serialize(ps: Pairs): string
  {
    Text.Join(seq(|ps|, k requires 0 <= k < |ps| => PairText(ps[k])), "&")
  }

  function PlusToSpace(bs: seq<Byte>): (r: seq<Byte>)
    ensures |r| == |bs|
    decreases |bs|
  {
    if bs == [] then [] else [if bs[0] == 0x2B then 0x20 else bs[0]] + PlusToSpace(bs[1..])
  }

  /** Percent-decoding: %XX becomes its byte, any other byte (a stray % too) stays. */
  function PercentDecode(bs: seq<Byte>): seq<Byte>
    decreases |bs|
  {
    if bs == [] then []
    else if bs[0] == 0x25 && |bs| >= 3 && HexValue(bs[1]) >= 0 && HexValue(bs[2]) >= 0 then
      [HexValue(bs[1]) * 16 + HexValue(bs[2])] + PercentDecode(bs[3..])
    else [bs[0]] + PercentDecode(bs[1..])
  }

  /** A name or value as the parser reads it: + as space, percent-decoded, UTF-8 decoded. */
  function DecodeComponent(s: string): string
  {
    Utf8.Decode(PercentDecode(PlusToSpace(Utf8.Encode(s))))
  }

  /** Split one '&'-separated piece at its first '='; without one, the value is empty. */
  function SplitPair(piece: string): (string, string)
    decreases |piece|
  {
    if piece == [] then ("", "")
    else if piece[0] == '=' then ("", piece[1..])
    else
      var (n, v) := SplitPair(piece[1..]);
      ([piece[0]] + n, v)
  }

  function ParsePieces(pieces: seq<string>): Pairs
    decreases |pieces|
  {
    if pieces == [] then []
    else if pieces[0] == "" then ParsePieces(pieces[1..])
    else
      var (n, v) := SplitPair(pieces[0]);
      [(DecodeComponent(n), DecodeComponent(v))] + ParsePieces(pieces[1..])
  }

  /** new URLSearchParams(query): the pairs of a query string (without the leading '?'). */
  function Parse(query: string): Pairs
  {
    ParsePieces(Text.Split(query, '&'))
  }

  // ---- the round trip ------------------------------------------------------------

  lemma DecodeEncodedByte(b: Byte, rest: seq<Byte>)
    ensures PercentDecode(PlusToSpace(EncodeByte(b) + rest)) == [b] + PercentDecode(PlusToSpace(rest))
  {
    var e := EncodeByte(b);
    var t := PlusToSpace(e + rest);
    PlusToSpaceAppend(e, rest);
    if b == 0x20 || Unreserved(b) {
      assert t == [b] + PlusToSpace(rest);
      assert t[1..] == PlusToSpace(rest);
    } else {
      PlusToSpaceKeeps(e);
      assert t == e + PlusToSpace(rest);
      assert t[3..] == PlusToSpace(rest);
    }
  }

  lemma {:induction false} PlusToSpaceKeeps(bs: seq<Byte>)
    requires forall k :: 0 <= k < |bs| ==> bs[k] != 0x2B
    ensures PlusToSpace(bs) == bs
    decreases |bs|
  {
    if bs != [] {
      PlusToSpaceKeeps(bs[1..]);
      assert [bs[0]] + bs[1..] == bs;
    }
  }

  lemma {:induction false} PlusToSpaceAppend(a: seq<Byte>, b: seq<Byte>)
    ensures PlusToSpace(a + b) == PlusToSpace(a) + PlusToSpace(b)
    decreases |a|
  {
    if a == [] {
      assert a + b == b;
    } else {
      PlusToSpaceAppend(a[1..], b);
      assert (a + b)[0] == a[0];
      assert (a + b)[1..] == a[1..] + b;
      var h: seq<Byte> := [if a[0] == 0x2B then 0x20 else a[0]];
      assert PlusToSpace(a) == h + PlusToSpace(a[1..]);
      assert PlusToSpace(a + b) == h + PlusToSpace(a[1..] + b);
    }
  }

  lemma {:induction false} DecodeEncodedBytes(bs: seq<Byte>)
    ensures PercentDecode(PlusToSpace(EncodeBytes(bs))) == bs
    decreases |bs|
  {
    if bs != [] {
      DecodeEncodedBytes(bs[1..]);
      DecodeEncodedByte(bs[0], EncodeBytes(bs[1..]));
      assert [bs[0]] + bs[1..] == bs;
    }
  }

  lemma {:induction false} Utf8OfAscii(bs: seq<Byte>)
    requires forall k :: 0 <= k < |bs| ==> bs[k] < 0x80
    ensures Utf8.Encode(AsciiText(bs)) == bs
  {
    Utf8.EncodeAscii(AsciiText(bs));
  }

  /** The parser reads back every name and value the serializer wrote. */
  lemma DecodeEncodeComponent(s: string)
    ensures DecodeComponent(EncodeComponent(s)) == s
  {
    var e := EncodeBytes(Utf8.Encode(s));
    EncodeBytesSafe(Utf8.Encode(s));
    Utf8OfAscii(e);
    DecodeEncodedBytes(Utf8.Encode(s));
    Utf8.DecodeEncode(s);
  }

  lemma {:induction false} SplitPairAt(n: string, v: string)
    requires '=' !in n
    ensures SplitPair(n + "=" + v) == (n, v)
    decreases |n|
  {
    if n == [] {
      assert n + "=" + v == "=" + v;
    } else {
      SplitPairAt(n[1..], v);
      assert (n + "=" + v)[1..] == n[1..] + "=" + v;
      assert [n[0]] + n[1..] == n;
    }
  }

  lemma PairRoundTrip(p: (string, string))
    ensures PairText(p) != ""
    ensures SplitPair(PairText(p)) == (EncodeComponent(p.0), EncodeComponent(p.1))
    ensures '&' !in PairText(p)
  {
    SplitPairAt(EncodeComponent(p.0), EncodeComponent(p.1));
  }

  lemma {:induction false} ParsePiecesOfPairs(ps: Pairs, texts: seq<string>)
    requires |texts| == |ps| && forall k :: 0 <= k < |ps| ==> texts[k] == PairText(ps[k])
    ensures ParsePieces(texts) == ps
    decreases |ps|
  {
    if ps != [] {
      forall k | 0 <= k < |ps| - 1
        ensures texts[1..][k] == PairText(ps[1..][k])
      {
        assert texts[1..][k] == texts[k + 1] && ps[1..][k] == ps[k + 1];
      }
      ParsePiecesOfPairs(ps[1..], texts[1..]);
      assert texts == [PairText(ps[0])] + texts[1..];
      ParsePairText(ps[0], texts[1..]);
      assert [ps[0]] + ps[1..] == ps;
    }
  }

  /** The parser reads one written pair back. */
  lemma ParsePairText(p: (string, string), rest: seq<string>)
    ensures ParsePieces([PairText(p)] + rest) == [p] + ParsePieces(rest)
  {
    PairRoundTrip(p);
    DecodeEncodeComponent(p.0);
    DecodeEncodeComponent(p.1);
    assert ([PairText(p)] + rest)[1..] == rest;
  }

  /** Parsing what toString wrote gives the same pairs, in the same order. */
  lemma ParseSerialize(ps: Pairs)
    ensures Parse(Serialize(ps)) == ps
  {
    var texts := seq(|ps|, k requires 0 <= k < |ps| => PairText(ps[k]));
    if ps == [] {
      assert Serialize(ps) == "";
    } else {
      forall k | 0 <= k < |texts|
        ensures '&' !in texts[k]
      {
        PairRoundTrip(ps[k]);
      }
      Text.SplitJoin(texts, '&');
      ParsePiecesOfPairs(ps, texts);
    }
  }
}

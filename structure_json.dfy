/**
 * The worker's structure_json_html script: every string of a label
 * document, apart from a few identifying fields, is parsed as HTML and
 * replaced by a nested {type, contents} dictionary of its tags, with the
 * non-blank text nodes as stripped strings. BeautifulSoup's parser is a
 * parameter; it gives None where it raises AttributeError or TypeError.
 */
module StructureJson {
  import opened Wrappers
  import Text
  import Json
  import Html
  import Seqs

  type Node = Html.Node

  type Parser = string -> Option<seq<Node>>

  /** A non-empty string with no white space at either end. */
  predicate Stripped(s: string)
  {
    s != [] && !Text.PyIsSpace(s[0]) && !Text.PyIsSpace(s[|s| - 1])
  }

  /** How a child's result joins its parent's contents: a list is spliced in, None is dropped, anything else appended. */
  function Spliced(p: Option<Json.Json>): (r: seq<Json.Json>)
    ensures p.None? ==> r == []
    ensures p.Some? && !p.value.Arr? ==> r == [p.value]
  {
    match p
    case None => []
    case Some(v) => if v.Arr? then v.items else [v]
  }

  function TagDict(name: string, contents: seq<Json.Json>): Json.Json
  {
    Json.Obj([("type", Json.Str(name)), ("contents", Json.Arr(contents))])
  }

  /**
   * parse_element_to_dict: a text node gives its stripped text, or nothing
   * when it is a comment or blank; a tag gives its name and its children's
   * results in order.
   */
  function ParseElement(n: Node): (r: Option<Json.Json>)
    ensures n.Text? ==> (r.None? <==> n.kind == Html.Comment || Text.AllSpace(n.s, Text.PyIsSpace))
    ensures n.Text? && r.Some? ==> r.value.Str? && Stripped(r.value.s)
    ensures n.Element? ==> (r.Some? && r.value.Obj? && Json.Keys(r.value.fields) == ["type", "contents"]
      && r.value.fields[0].1 == Json.Str(n.name) && r.value.fields[1].1.Arr?)
    decreases n
  {
    match n
    case Text(kind, s) =>
      var t := Text.PyStrip(s);
      if kind != Html.Comment && t != "" then Some(Json.Str(t)) else None
    case Element(name, _, cs) =>
      Some(TagDict(name, Seqs.Flatten(seq(|cs|, i requires 0 <= i < |cs| => Spliced(ParseElement(cs[i]))))))
  }

  /** parse_element_to_dict, as the source runs it: a loop over the children extending or appending. */
  method ParseElementLoop(n: Node) returns (r: Option<Json.Json>)
    ensures r == ParseElement(n)
    decreases n
  {
    match n {
      case Text(kind, s) =>
        var t := Text.PyStrip(s);
        if kind != Html.Comment && t != "" {
          r := Some(Json.Str(t));
        } else {
          r := None;
        }
      case Element(name, _, cs) =>
        ghost var parts := seq(|cs|, i requires 0 <= i < |cs| => Spliced(ParseElement(cs[i])));
        var contents: seq<Json.Json> := [];
        var i := 0;
        while i < |cs|
          invariant 0 <= i <= |cs|
          invariant contents == Seqs.Flatten(parts[..i])
        {
          var child := ParseElementLoop(cs[i]);
          contents := contents + Spliced(child);
          assert parts[..i + 1][..i] == parts[..i];
          i := i + 1;
        }
        assert parts[..|cs|] == parts;
        r := Some(TagDict(name, contents));
    }
  }

  /** The shape of a result: a stripped string, or a {type, contents} dict whose contents are results. */
  predicate Parsed(j: Json.Json)
  {
    match j
    case Str(s) => Stripped(s)
    case Obj(fs) =>
      && |fs| == 2 && fs[0].0 == "type" && fs[0].1.Str? && fs[1].0 == "contents" && fs[1].1.Arr?
      && forall k :: 0 <= k < |fs[1].1.items| ==> Parsed(fs[1].1.items[k])
    case _ => false
  }

  /**
   * Every result has that shape; in particular no result is a list, so the
   * splicing branch never runs and each child contributes at most one item.
   */
  lemma {:induction false} ParseElementParsed(n: Node)
    ensures ParseElement(n).Some? ==> Parsed(ParseElement(n).value)
    decreases n
  {
    if n.Element? {
      var cs := n.children;
      var parts := seq(|cs|, i requires 0 <= i < |cs| => Spliced(ParseElement(cs[i])));
      var contents := Seqs.Flatten(parts);
      forall x | x in contents
        ensures Parsed(x)
      {
        Seqs.FlattenMember(parts, x);
        var i :| 0 <= i < |parts| && x in parts[i];
        ParseElementParsed(cs[i]);
      }
      assert ParseElement(n).value == TagDict(n.name, contents);
    }
  }

  /** A child's results, in order: each child gives one item or none. */
  function Kept(cs: seq<Node>): (r: seq<Json.Json>)
    ensures |r| <= |cs|
    decreases |cs|
  {
    if cs == [] then []
    else
      var p := ParseElement(cs[|cs| - 1]);
      Kept(cs[..|cs| - 1]) + (if p.Some? then [p.value] else [])
  }

  /** A tag's contents are exactly its children's results, in order. */
  lemma {:induction false} ContentsKept(cs: seq<Node>)
    ensures Seqs.Flatten(seq(|cs|, i requires 0 <= i < |cs| => Spliced(ParseElement(cs[i])))) == Kept(cs)
    decreases |cs|
  {
    if cs != [] {
      var init := cs[..|cs| - 1];
      var parts := seq(|cs|, i requires 0 <= i < |cs| => Spliced(ParseElement(cs[i])));
      assert parts[..|parts| - 1] == seq(|init|, i requires 0 <= i < |init| => Spliced(ParseElement(init[i])));
      ContentsKept(init);
      var p := ParseElement(cs[|cs| - 1]);
      ParseElementParsed(cs[|cs| - 1]);
      assert p.Some? ==> !p.value.Arr?;
    }
  }

  // ---- structure_json_html ----------------------------------------------------------

  /** Keys copied unchanged whatever their value. */
  const Verbatim: set<string> := {"drugName", "setId", "slug", "labeler"}

  /** Keys copied unchanged when their value is a string. */
  const VerbatimText: set<string> := {"genericName", "labelerName", "productType", "effectiveTime", "title"}

  /** A string parsed as a soup; where the parser raises, the string itself. */
  function ParseString(s: string, parse: Parser): (r: Json.Json)
    ensures parse(s).None? ==> r == Json.Str(s)
    ensures parse(s).Some? ==> Parsed(r) && r.Obj? && r.fields[0].1 == Json.Str(Html.DocumentName)
  {
    match parse(s)
    case None => Json.Str(s)
    case Some(nodes) =>
      ParseElementParsed(Html.Document(nodes));
      ParseElement(Html.Document(nodes)).value
  }

  /** result[key] = v: an existing key keeps its place, a new one goes last. */
  function Put(fields: seq<(string, Json.Json)>, key: string, v: Json.Json): (r: seq<(string, Json.Json)>)
    ensures key !in Json.Keys(fields) ==> r == fields + [(key, v)]
    decreases |fields|
  {
    if fields == [] then [(key, v)]
    else if fields[0].0 == key then [(key, v)] + fields[1..]
    else
      assert Json.Keys(fields) == [fields[0].0] + Json.Keys(fields[1..]);
      [fields[0]] + Put(fields[1..], key, v)
  }

  /** After the assignment the key holds v and every other key what it held. */
  lemma {:induction false} PutGet(fields: seq<(string, Json.Json)>, key: string, v: Json.Json, other: string)
    ensures Json.Get(Put(fields, key, v), key) == Some(v)
    ensures other != key ==> Json.Get(Put(fields, key, v), other) == Json.Get(fields, other)
    decreases |fields|
  {
    if fields != [] && fields[0].0 != key {
      PutGet(fields[1..], key, v, other);
      assert ([fields[0]] + Put(fields[1..], key, v))[1..] == Put(fields[1..], key, v);
    }
  }

  /** Assigning an existing key keeps the keys as they were. */
  lemma PutKeys(fields: seq<(string, Json.Json)>, key: string, v: Json.Json)
    requires key in Json.Keys(fields)
    ensures Json.Keys(Put(fields, key, v)) == Json.Keys(fields)
  {
    PutInPlace(fields, key, v);
  }

  /** Assigning an existing key leaves every pair's key at its position. */
  lemma {:induction false} PutInPlace(fields: seq<(string, Json.Json)>, key: string, v: Json.Json)
    requires key in Json.Keys(fields)
    ensures var r := Put(fields, key, v);
      |r| == |fields| && forall k :: 0 <= k < |r| ==> r[k].0 == fields[k].0
    decreases |fields|
  {
    assert Json.Keys(fields) == [fields[0].0] + Json.Keys(fields[1..]);
    var tail := fields[1..];
    assert [fields[0]] + tail == fields;
    if fields[0].0 != key {
      PutInPlace(tail, key, v);
      ConsInPlace(fields[0], fields[0], tail, Put(tail, key, v));
    } else {
      ConsInPlace((key, v), fields[0], tail, tail);
    }
  }

  lemma ConsInPlace(p: (string, Json.Json), q: (string, Json.Json), tail: seq<(string, Json.Json)>, rest: seq<(string, Json.Json)>)
    requires p.0 == q.0
    requires |rest| == |tail| && forall k :: 0 <= k < |rest| ==> rest[k].0 == tail[k].0
    ensures var r, f := [p] + rest, [q] + tail;
      |r| == |f| && forall k :: 0 <= k < |r| ==> r[k].0 == f[k].0
  {
  }

  /** A dict filled by assigning each pair in turn. */
  function PutAll(pairs: seq<(string, Json.Json)>): seq<(string, Json.Json)>
    decreases |pairs|
  {
    if pairs == [] then [] else Put(PutAll(pairs[..|pairs| - 1]), pairs[|pairs| - 1].0, pairs[|pairs| - 1].1)
  }

  predicate Distinct(ks: seq<string>)
  {
    forall i, j :: 0 <= i < j < |ks| ==> ks[i] != ks[j]
  }

  /** With the keys all different, filling the dict keeps every pair in its place. */
  lemma {:induction false} PutAllDistinct(pairs: seq<(string, Json.Json)>)
    requires Distinct(Json.Keys(pairs))
    ensures PutAll(pairs) == pairs
    decreases |pairs|
  {
    if pairs != [] {
      var init := pairs[..|pairs| - 1];
      assert Json.Keys(init) == Json.Keys(pairs)[..|init|];
      PutAllDistinct(init);
      var last := pairs[|pairs| - 1];
      assert last.0 !in Json.Keys(init) by {
        forall k | 0 <= k < |init|
          ensures Json.Keys(init)[k] != last.0
        {
          assert Json.Keys(pairs)[k] != Json.Keys(pairs)[|pairs| - 1];
        }
      }
      assert init + [last] == pairs;
    }
  }

  /** structure_json_html: a non-dict comes back as it is; a dict has each value processed in turn. */
  function StructureJsonHtml(obj: Json.Json, parse: Parser): (r: Json.Json)
    ensures !obj.Obj? ==> r == obj
    ensures obj.Obj? ==> r.Obj?
    decreases obj, 0
  {
    if !obj.Obj? then obj
    else
      var fs := obj.fields;
      Json.Obj(PutAll(seq(|fs|, k requires 0 <= k < |fs| => (fs[k].0, StructureValue(fs[k].0, fs[k].1, parse)))))
  }

  /** What becomes of the value under key. */
  function StructureValue(key: string, v: Json.Json, parse: Parser): (r: Json.Json)
    ensures key in Verbatim || (key in VerbatimText && v.Str?) ==> r == v
    ensures !(key in Verbatim || (key in VerbatimText && v.Str?)) ==>
      && (v.Str? ==> r == Json.Arr([ParseString(v.s, parse)]))
      && (v.Arr? ==> r.Arr? && |r.items| == |v.items|)
      && (v.Obj? ==> r.Obj?)
      && (v.Null? || v.Bool? || v.Num? ==> r == v)
    decreases v, 1
  {
    if key in Verbatim || (key in VerbatimText && v.Str?) then v
    else match v
      case Obj(_) => StructureJsonHtml(v, parse)
      case Arr(items) => Json.Arr(seq(|items|, k requires 0 <= k < |items| => StructureItem(items[k], parse)))
      case Str(s) => Json.Arr([ParseString(s, parse)])
      case _ => v
  }

  /** What becomes of one item of a list: dicts recurse, strings are parsed, anything else stays. */
  function StructureItem(item: Json.Json, parse: Parser): (r: Json.Json)
    ensures item.Str? ==> r == ParseString(item.s, parse)
    ensures !item.Str? && !item.Obj? ==> r == item
    ensures item.Obj? ==> r.Obj?
    decreases item, 1
  {
    match item
    case Obj(_) => StructureJsonHtml(item, parse)
    case Str(s) => ParseString(s, parse)
    case _ => item
  }

  /** A dict keeps its keys in order, and each value is processed on its own. */
  lemma StructureKeys(obj: Json.Json, parse: Parser)
    requires obj.Obj? && Distinct(Json.Keys(obj.fields))
    ensures var r := StructureJsonHtml(obj, parse);
      && Json.Keys(r.fields) == Json.Keys(obj.fields)
      && forall k :: 0 <= k < |obj.fields| ==> r.fields[k].1 == StructureValue(obj.fields[k].0, obj.fields[k].1, parse)
  {
    var fs := obj.fields;
    var pairs := seq(|fs|, k requires 0 <= k < |fs| => (fs[k].0, StructureValue(fs[k].0, fs[k].1, parse)));
    assert Json.Keys(pairs) == Json.Keys(fs);
    PutAllDistinct(pairs);
  }

  /** The identifying fields pass through untouched. */
  lemma StructureKeepsIds(obj: Json.Json, parse: Parser, k: nat)
    requires obj.Obj? && Distinct(Json.Keys(obj.fields)) && k < |obj.fields|
    requires obj.fields[k].0 in Verbatim || (obj.fields[k].0 in VerbatimText && obj.fields[k].1.Str?)
    ensures var r := StructureJsonHtml(obj, parse); r.Obj? && k < |r.fields| && r.fields[k] == obj.fields[k]
  {
    StructureKeys(obj, parse);
    var r := StructureJsonHtml(obj, parse);
    assert Json.Keys(r.fields)[k] == Json.Keys(obj.fields)[k];
  }

  // ---- the loops, as the source runs them ------------------------------------------

  method ParseStringLoop(s: string, parse: Parser) returns (r: Json.Json)
    ensures r == ParseString(s, parse)
  {
    match parse(s) {
      case None =>
        r := Json.Str(s);
      case Some(nodes) =>
        var p := ParseElementLoop(Html.Document(nodes));
        r := p.value;
    }
  }

  /** structure_json_html: the loop over the dict's items, assigning result[key]. */
  method StructureJsonHtmlLoop(obj: Json.Json, parse: Parser) returns (r: Json.Json)
    ensures r == StructureJsonHtml(obj, parse)
    decreases obj, 0
  {
    if !obj.Obj? {
      return obj;
    }
    var fs := obj.fields;
    ghost var pairs := seq(|fs|, k requires 0 <= k < |fs| => (fs[k].0, StructureValue(fs[k].0, fs[k].1, parse)));
    var result: seq<(string, Json.Json)> := [];
    var i := 0;
    while i < |fs|
      invariant 0 <= i <= |fs|
      invariant result == PutAll(pairs[..i])
    {
      var value := StructureValueLoop(fs[i].0, fs[i].1, parse);
      result := Put(result, fs[i].0, value);
      assert pairs[..i + 1][..i] == pairs[..i];
      i := i + 1;
    }
    assert pairs[..|fs|] == pairs;
    r := Json.Obj(result);
  }

  /** The body of that loop for one key, with the inner loop over a list's items. */
  method StructureValueLoop(key: string, v: Json.Json, parse: Parser) returns (r: Json.Json)
    ensures r == StructureValue(key, v, parse)
    decreases v, 1
  {
    if key in Verbatim || (key in VerbatimText && v.Str?) {
      return v;
    }
    match v {
      case Obj(_) =>
        r := StructureJsonHtmlLoop(v, parse);
      case Arr(items) =>
        var processed := StructureListLoop(v, parse);
        r := Json.Arr(processed);
      case Str(s) =>
        var p := ParseStringLoop(s, parse);
        r := Json.Arr([p]);
      case _ =>
        r := v;
    }
  }

  /** The inner loop over a list's items, building processed_list. */
  method StructureListLoop(v: Json.Json, parse: Parser) returns (processed: seq<Json.Json>)
    requires v.Arr?
    ensures processed == seq(|v.items|, k requires 0 <= k < |v.items| => StructureItem(v.items[k], parse))
    decreases v, 0
  {
    var items := v.items;
    processed := [];
    var i := 0;
    while i < |items|
      invariant 0 <= i <= |items|
      invariant |processed| == i
      invariant forall k :: 0 <= k < i ==> processed[k] == StructureItem(items[k], parse)
    {
      var item := items[i];
      var p: Json.Json;
      if item.Obj? {
        p := StructureJsonHtmlLoop(item, parse);
      } else if item.Str? {
        p := ParseStringLoop(item.s, parse);
      } else {
        p := item;
      }
      processed := processed + [p];
      i := i + 1;
    }
  }
}

/**
 * The worker's data_structure script: every string of a label document is
 * parsed as HTML and replaced by a flat list of typed blocks (headers,
 * paragraphs, lists, tables, text), one per tag that carries something.
 * Every other scalar becomes its JSON text. A table cell is serialised and
 * processed again as a string; that recursion through the parser and the
 * serialiser (both parameters) is bounded by fuel.
 */
module DataStructure {
  import opened Wrappers
  import Text
  import Json
  import Html

  type Node = Html.Node

  function TextItem(kind: string, text: string): (d: Json.Json)
    ensures d.Obj? && Json.Keys(d.fields) == ["type", "text"]
  {
    Json.Obj([("type", Json.Str(kind)), ("text", Json.Str(text))])
  }

  function ItemsDict(kind: string, items: seq<Json.Json>): Json.Json
  {
    Json.Obj([("type", Json.Str(kind)), ("items", Json.Arr(items))])
  }

  /** h1 to h6 and any other 'h' with one digit: a lower-cased name 'h' plus one digit. */
  predicate IsHeader(name: string)
  {
    |name| == 2 && name[0] == 'h' && Text.IsAsciiDigit(name[1])
  }

  /** get_text().strip() */
  function StrippedText(n: Node): string
  {
    Text.PyStrip(Html.GetText(n))
  }

  /** find_all(names, recursive=False): the direct children that are tags with one of these names, in order. */
  function Named(cs: seq<Node>, names: set<string>): (r: seq<Node>)
    ensures |r| <= |cs|
    ensures AllElements(r)
    decreases |cs|
  {
    if cs == [] then []
    else
      var c := cs[|cs| - 1];
      Named(cs[..|cs| - 1], names) + (if c.Element? && c.name in names then [c] else [])
  }

  predicate AllElements(ns: seq<Node>)
  {
    forall k :: 0 <= k < |ns| ==> ns[k].Element?
  }

  /** find_all keeps exactly the children that are tags with one of the names. */
  lemma {:induction false} NamedExact(cs: seq<Node>, names: set<string>)
    ensures forall c :: c in Named(cs, names) ==> c in cs && c.Element? && c.name in names
    ensures forall c :: c in cs && c.Element? && c.name in names ==> c in Named(cs, names)
    decreases |cs|
  {
    if cs != [] {
      var c := cs[|cs| - 1];
      NamedExact(cs[..|cs| - 1], names);
      assert cs == cs[..|cs| - 1] + [c];
    }
  }

  const CellNames: set<string> := {"td", "th"}

  /** The stripped texts of the direct li children of an ol or ul. */
  function ListItems(n: Node): (r: seq<Json.Json>)
    requires n.Element?
    ensures |r| == |Named(n.children, {"li"})|
    ensures forall k :: 0 <= k < |r| ==> r[k] == Json.Str(StrippedText(Named(n.children, {"li"})[k]))
  {
    var lis := Named(n.children, {"li"});
    seq(|lis|, k requires 0 <= k < |lis| => Json.Str(StrippedText(lis[k])))
  }

  /** A cell's content: the cell serialised and processed as a string; with no fuel left, an empty list. */
  function CellContent(cell: Node, parse: string -> seq<Node>, render: Node -> string, fuel: nat): (r: Json.Json)
    ensures r.Arr?
    decreases fuel, 0, 0
  {
    if fuel == 0 then Json.Arr([]) else StructureString(render(cell), parse, render, fuel - 1)
  }

  function CellDict(cell: Node, parse: string -> seq<Node>, render: Node -> string, fuel: nat): Json.Json
    decreases fuel, 0, 1
  {
    Json.Obj([("type", Json.Str("table-cell")), ("content", CellContent(cell, parse, render, fuel))])
  }

  /** One table-cell dict per direct td or th child of a row, in order. */
  function Cells(tr: Node, parse: string -> seq<Node>, render: Node -> string, fuel: nat): (r: seq<Json.Json>)
    requires tr.Element?
    ensures |r| == |Named(tr.children, CellNames)|
    decreases fuel, 0, 2
  {
    var cells := Named(tr.children, CellNames);
    seq(|cells|, k requires 0 <= k < |cells| => CellDict(cells[k], parse, render, fuel))
  }

  /** A table-row dict with at least one cell. */
  predicate RowWithCells(d: Json.Json)
  {
    d.Obj? && |d.fields| == 2 && d.fields[0] == ("type", Json.Str("table-row"))
    && d.fields[1].0 == "items" && d.fields[1].1.Arr? && d.fields[1].1.items != []
  }

  /** The table-row dicts of a table's direct tr children, in order; a row with no cell is left out. */
  function TableRows(trs: seq<Node>, parse: string -> seq<Node>, render: Node -> string, fuel: nat): (r: seq<Json.Json>)
    requires AllElements(trs)
    ensures |r| <= |trs|
    ensures forall k :: 0 <= k < |r| ==> RowWithCells(r[k])
    decreases fuel, 1, |trs|
  {
    if trs == [] then []
    else
      var tr := trs[|trs| - 1];
      var cells := Cells(tr, parse, render, fuel);
      TableRows(trs[..|trs| - 1], parse, render, fuel) + (if cells == [] then [] else [ItemsDict("table-row", cells)])
  }

  /** The type parse_html_element gives a tag, from its lower-cased name (lists and tables aside). */
  function TextType(lower: string): string
  {
    if IsHeader(lower) then "header"
    else if lower == "p" then "paragraph"
    else if lower == "li" then "list-item"
    else if lower == "th" then "table-header"
    else if lower == "td" then "table-cell"
    else "text"
  }

  const Structured: set<string> := {"ol", "ul", "table", "tr"}

  /** parse_html_element */
  function ParseHtmlElement(n: Node, parse: string -> seq<Node>, render: Node -> string, fuel: nat): (r: Json.Json)
    ensures r.Obj? && |r.fields| == 2 && r.fields[0].0 == "type" && r.fields[0].1.Str?
    decreases fuel, 2, 1
  {
    match n
    case Text(_, s) => TextItem("text", s)
    case Element(_, _, _) => ParseTag(n, parse, render, fuel)
  }

  /** parse_html_element on a tag: the branch its lower-cased name selects. */
  function ParseTag(n: Node, parse: string -> seq<Node>, render: Node -> string, fuel: nat): (r: Json.Json)
    requires n.Element?
    ensures r.Obj? && |r.fields| == 2 && r.fields[0].0 == "type" && r.fields[0].1.Str?
    decreases fuel, 2, 0
  {
    var lower := Text.AsciiLowerString(n.name);
    if IsHeader(lower) then TextItem("header", StrippedText(n))
    else if lower == "p" then TextItem("paragraph", StrippedText(n))
    else if lower == "ol" then ItemsDict("ordered-list", ListItems(n))
    else if lower == "ul" then ItemsDict("unordered-list", ListItems(n))
    else if lower == "li" then TextItem("list-item", StrippedText(n))
    else if lower == "table" then
      var trs := Named(n.children, {"tr"});
      Json.Obj([("type", Json.Str("table")), ("rows", Json.Arr(TableRows(trs, parse, render, fuel)))])
    else if lower == "tr" then ItemsDict("table-row", Cells(n, parse, render, fuel))
    else if lower == "th" then TextItem("table-header", StrippedText(n))
    else if lower == "td" then TextItem("table-cell", StrippedText(n))
    else TextItem("text", StrippedText(n))
  }

  /** A text node gives its own text, unstripped. */
  lemma ParseTextNode(n: Node, parse: string -> seq<Node>, render: Node -> string, fuel: nat)
    requires n.Text?
    ensures ParseHtmlElement(n, parse, render, fuel) == TextItem("text", n.s)
  {
  }

  /** A tag is a header iff its lower-cased name is 'h' and one digit. */
  lemma ParseHeader(n: Node, parse: string -> seq<Node>, render: Node -> string, fuel: nat)
    requires n.Element?
    ensures ParseHtmlElement(n, parse, render, fuel).fields[0].1.s == "header" <==> IsHeader(Text.AsciiLowerString(n.name))
  {
  }

  /** A tag other than a list or a table part gives its stripped text under the type its name calls for. */
  lemma ParseTextTag(n: Node, parse: string -> seq<Node>, render: Node -> string, fuel: nat)
    requires n.Element? && Text.AsciiLowerString(n.name) !in Structured
    ensures ParseHtmlElement(n, parse, render, fuel) == TextItem(TextType(Text.AsciiLowerString(n.name)), StrippedText(n))
  {
  }

  /** d.get(key, []) is truthy. */
  predicate HasTruthy(fields: seq<(string, Json.Json)>, key: string)
  {
    Json.Get(fields, key).Some? && Json.Truthy(Json.Get(fields, key).value)
  }

  /** d.get("text", "").strip() is non-empty. */
  predicate HasText(fields: seq<(string, Json.Json)>)
  {
    var text := Json.Get(fields, "text");
    text.Some? && text.value.Str? && !Text.AllSpace(text.value.s, Text.PyIsSpace)
  }

  /** The filter's test: non-blank text, or non-empty items, rows or content. */
  predicate Worth(d: Json.Json)
  {
    d.Obj? && (HasText(d.fields) || HasTruthy(d.fields, "items") || HasTruthy(d.fields, "rows") || HasTruthy(d.fields, "content"))
  }

  /** The parsed elements that pass the test, in order. */
  function KeepWorth(xs: seq<Json.Json>): (r: seq<Json.Json>)
    ensures |r| <= |xs|
    decreases |xs|
  {
    if xs == [] then []
    else KeepWorth(xs[..|xs| - 1]) + (if Worth(xs[|xs| - 1]) then [xs[|xs| - 1]] else [])
  }

  /** The filter keeps exactly the elements that pass the test. */
  lemma {:induction false} KeepWorthExact(xs: seq<Json.Json>)
    ensures forall x :: x in KeepWorth(xs) ==> x in xs && Worth(x)
    ensures forall x :: x in xs && Worth(x) ==> x in KeepWorth(xs)
    decreases |xs|
  {
    if xs != [] {
      var init := xs[..|xs| - 1];
      KeepWorthExact(init);
      assert xs == init + [xs[|xs| - 1]];
    }
  }

  /** Every tag of the soup, parsed, in document order. */
  function ParsedElements(soup: Node, parse: string -> seq<Node>, render: Node -> string, fuel: nat): (r: seq<Json.Json>)
    ensures |r| == |Html.Descendants(soup)|
    decreases fuel, 2, 2
  {
    var elements := Html.Descendants(soup);
    seq(|elements|, k requires 0 <= k < |elements| => ParseHtmlElement(elements[k], parse, render, fuel))
  }

  /** A tag whose stripped text is not empty passes the filter as a text item. */
  lemma StrippedTextWorth(n: Node)
    requires StrippedText(n) != ""
    ensures Worth(TextItem("text", StrippedText(n)))
  {
    var t := StrippedText(n);
    assert Json.Get(TextItem("text", t).fields, "text") == Some(Json.Str(t));
    Text.TrimUnchanged(t, Text.PyIsSpace);
  }

  /** structure_json_html on a string: a non-empty list of typed blocks. */
  function StructureString(s: string, parse: string -> seq<Node>, render: Node -> string, fuel: nat): (r: Json.Json)
    ensures r.Arr? && |r.items| >= 1
    ensures !Html.HasTag(Html.Document(parse(s))) ==> r.items == [TextItem("text", s)]
    decreases fuel, 3
  {
    var soup := Html.Document(parse(s));
    if !Html.HasTag(soup) then Json.Arr([TextItem("text", s)])
    else Fallback(KeepWorth(ParsedElements(soup, parse, render, fuel)), soup, s)
  }

  /** The kept elements; failing those the soup's stripped text; failing that the original string. */
  function Fallback(kept: seq<Json.Json>, soup: Node, s: string): (r: Json.Json)
    ensures r.Arr? && |r.items| >= 1
    ensures kept != [] ==> r.items == kept
  {
    if kept != [] then Json.Arr(kept)
    else
      var whole := StrippedText(soup);
      if whole != "" then Json.Arr([TextItem("text", whole)]) else Json.Arr([TextItem("text", s)])
  }

  /**
   * Every block of the result passes the filter, except the original string
   * given back as a text block when nothing in it does.
   */
  lemma StructureStringWorth(s: string, parse: string -> seq<Node>, render: Node -> string, fuel: nat)
    ensures var r := StructureString(s, parse, render, fuel);
      forall k :: 0 <= k < |r.items| ==> Worth(r.items[k]) || r.items[k] == TextItem("text", s)
  {
    var soup := Html.Document(parse(s));
    if Html.HasTag(soup) {
      var kept := KeepWorth(ParsedElements(soup, parse, render, fuel));
      KeepWorthExact(ParsedElements(soup, parse, render, fuel));
      if kept == [] && StrippedText(soup) != "" {
        StrippedTextWorth(soup);
      }
    }
  }

  /** structure_json_html: dicts and lists keep their shape, strings become block lists, other scalars their JSON text. */
  function StructureJsonHtml(obj: Json.Json, parse: string -> seq<Node>, render: Node -> string, fuel: nat): (r: Json.Json)
    ensures Json.SameShape(obj, r)
    ensures obj.Str? ==> r == StructureString(obj.s, parse, render, fuel)
    ensures obj.Null? || obj.Bool? || obj.Num? ==> r == Json.Str(Json.PyDumpsScalar(obj))
  {
    match obj
    case Obj(fs) => Json.Obj(seq(|fs|, k requires 0 <= k < |fs| => (fs[k].0, StructureJsonHtml(fs[k].1, parse, render, fuel))))
    case Arr(xs) => Json.Arr(seq(|xs|, k requires 0 <= k < |xs| => StructureJsonHtml(xs[k], parse, render, fuel)))
    case Str(s) => StructureString(s, parse, render, fuel)
    case _ => Json.Str(Json.PyDumpsScalar(obj))
  }

  // ---- the loops, as the source runs them ------------------------------------------

  /** The loop over an ol's or ul's direct li children. */
  method ListItemsLoop(n: Node) returns (items: seq<Json.Json>)
    requires n.Element?
    ensures items == ListItems(n)
  {
    var lis := Named(n.children, {"li"});
    items := [];
    var i := 0;
    while i < |lis|
      invariant 0 <= i <= |lis|
      invariant |items| == i
      invariant forall k :: 0 <= k < i ==> items[k] == Json.Str(StrippedText(lis[k]))
    {
      var text := StrippedText(lis[i]);
      items := items + [Json.Str(text)];
      i := i + 1;
    }
  }

  /** The loop over a row's direct td and th children; each cell's content is processed again as a string. */
  method CellsLoop(tr: Node, parse: string -> seq<Node>, render: Node -> string, fuel: nat) returns (cells: seq<Json.Json>)
    requires tr.Element?
    ensures cells == Cells(tr, parse, render, fuel)
    decreases fuel, 0, 2
  {
    var named := Named(tr.children, CellNames);
    cells := [];
    var i := 0;
    while i < |named|
      invariant 0 <= i <= |named|
      invariant |cells| == i
      invariant forall k :: 0 <= k < i ==> cells[k] == CellDict(named[k], parse, render, fuel)
    {
      var content := Json.Arr([]);
      if fuel > 0 {
        content := StructureStringLoop(render(named[i]), parse, render, fuel - 1);
      }
      cells := cells + [Json.Obj([("type", Json.Str("table-cell")), ("content", content)])];
      i := i + 1;
    }
  }

  /** The loop over a table's direct tr children, keeping the rows that have a cell. */
  method TableRowsLoop(table: Node, parse: string -> seq<Node>, render: Node -> string, fuel: nat) returns (rows: seq<Json.Json>)
    requires table.Element?
    ensures rows == TableRows(Named(table.children, {"tr"}), parse, render, fuel)
    decreases fuel, 1, |table.children| + 1
  {
    var trs := Named(table.children, {"tr"});
    rows := [];
    var i := 0;
    while i < |trs|
      invariant 0 <= i <= |trs|
      invariant rows == TableRows(trs[..i], parse, render, fuel)
    {
      var rowData := CellsLoop(trs[i], parse, render, fuel);
      TableRowsPrefix(trs, i, parse, render, fuel);
      if rowData != [] {
        rows := rows + [ItemsDict("table-row", rowData)];
      }
      i := i + 1;
    }
    assert trs[..|trs|] == trs;
  }

  /** One more tr: its row is appended when it has a cell. */
  lemma TableRowsPrefix(trs: seq<Node>, i: nat, parse: string -> seq<Node>, render: Node -> string, fuel: nat)
    requires AllElements(trs) && i < |trs|
    ensures AllElements(trs[..i]) && AllElements(trs[..i + 1])
    ensures var cells := Cells(trs[i], parse, render, fuel);
      TableRows(trs[..i + 1], parse, render, fuel) ==
        TableRows(trs[..i], parse, render, fuel) + (if cells == [] then [] else [ItemsDict("table-row", cells)])
  {
    assert trs[..i + 1][..i] == trs[..i];
    assert trs[..i + 1][i] == trs[i];
  }

  /** parse_html_element, running the loops above. */
  method ParseHtmlElementLoop(n: Node, parse: string -> seq<Node>, render: Node -> string, fuel: nat) returns (r: Json.Json)
    ensures r == ParseHtmlElement(n, parse, render, fuel)
    decreases fuel, 2, 1
  {
    if n.Text? {
      return TextItem("text", n.s);
    }
    var lower := Text.AsciiLowerString(n.name);
    if IsHeader(lower) || lower !in Structured {
      r := ParseHtmlElement(n, parse, render, fuel);
    } else if lower == "ol" || lower == "ul" {
      var items := ListItemsLoop(n);
      r := ItemsDict(if lower == "ol" then "ordered-list" else "unordered-list", items);
      assert r == ParseHtmlElement(n, parse, render, fuel);
    } else if lower == "table" {
      var rows := TableRowsLoop(n, parse, render, fuel);
      r := Json.Obj([("type", Json.Str("table")), ("rows", Json.Arr(rows))]);
      assert r == ParseHtmlElement(n, parse, render, fuel);
    } else {
      assert lower == "tr";
      var cells := CellsLoop(n, parse, render, fuel);
      r := ItemsDict("table-row", cells);
      assert r == ParseHtmlElement(n, parse, render, fuel);
    }
  }

  /** The loop over every tag of the soup, keeping those that pass the filter. */
  method KeepWorthLoop(soup: Node, parse: string -> seq<Node>, render: Node -> string, fuel: nat) returns (kept: seq<Json.Json>)
    ensures kept == KeepWorth(ParsedElements(soup, parse, render, fuel))
    decreases fuel, 2, 2
  {
    var elements := Html.Descendants(soup);
    ghost var parsed := ParsedElements(soup, parse, render, fuel);
    kept := [];
    var i := 0;
    while i < |elements|
      invariant 0 <= i <= |elements|
      invariant kept == KeepWorth(parsed[..i])
    {
      var element := ParseHtmlElementLoop(elements[i], parse, render, fuel);
      assert element == parsed[i];
      KeepWorthPrefix(parsed, i);
      kept := kept + (if Worth(element) then [element] else []);
      i := i + 1;
    }
    assert parsed[..|elements|] == parsed;
  }

  lemma KeepWorthPrefix(xs: seq<Json.Json>, i: nat)
    requires i < |xs|
    ensures KeepWorth(xs[..i + 1]) == KeepWorth(xs[..i]) + (if Worth(xs[i]) then [xs[i]] else [])
  {
    assert xs[..i + 1][..i] == xs[..i];
  }

  /** structure_json_html on a string, with the fallbacks after the loop. */
  method StructureStringLoop(s: string, parse: string -> seq<Node>, render: Node -> string, fuel: nat) returns (r: Json.Json)
    ensures r == StructureString(s, parse, render, fuel)
    decreases fuel, 3
  {
    var soup := Html.Document(parse(s));
    if !Html.HasTag(soup) {
      return Json.Arr([TextItem("text", s)]);
    }
    var kept := KeepWorthLoop(soup, parse, render, fuel);
    if kept == [] {
      var whole := StrippedText(soup);
      if whole != "" {
        kept := [TextItem("text", whole)];
      }
    }
    r := if kept != [] then Json.Arr(kept) else Json.Arr([TextItem("text", s)]);
  }
}

/**
 * The worker's fix_html_syntax script: every string of a label document is
 * parsed as HTML and three kinds of orphan are wrapped (a tr outside any
 * table, a td or th outside any tr, an li outside any ul or ol) before the
 * soup is serialised again. The three loops visit the tags in document
 * order, so an ancestor is repaired before its descendants are checked;
 * here each loop is a top-down rewrite that carries whether the required
 * ancestor has been seen. BeautifulSoup's parser and str() are parameters.
 */
module FixHtml {
  import Json
  import Html

  type Node = Html.Node

  /**
   * One orphan-wrapping loop: every tag named in targets with no ancestor
   * named in ancestors is wrapped in a new wrapper tag. inside says whether
   * such an ancestor is above n.
   */
  function WrapOrphans(n: Node, targets: set<string>, ancestors: set<string>, wrapper: string, inside: bool): (r: Node)
    ensures n.Text? ==> r == n
    ensures n.Element? && n.name in targets && !inside ==>
      r.Element? && r.name == wrapper && r.attrs == [] && |r.children| == 1
    decreases n
  {
    match n
    case Text(_, _) => n
    case Element(name, attrs, cs) =>
      var orphan := name in targets && !inside;
      var below := inside || orphan || name in ancestors;
      var fixed := Html.Element(name, attrs, seq(|cs|, i requires 0 <= i < |cs| => WrapOrphans(cs[i], targets, ancestors, wrapper, below)));
      if orphan then Html.Element(wrapper, [], [fixed]) else fixed
  }

  /** Every tag named in targets at or below n has an ancestor named in ancestors (inside: one is above n). */
  predicate AllWrapped(n: Node, targets: set<string>, ancestors: set<string>, inside: bool)
    decreases n
  {
    match n
    case Text(_, _) => true
    case Element(name, _, cs) =>
      && (name in targets ==> inside)
      && forall i :: 0 <= i < |cs| ==> AllWrapped(cs[i], targets, ancestors, inside || name in ancestors)
  }

  /** After the loop no orphan is left. */
  lemma {:induction false} WrapOrphansWraps(n: Node, targets: set<string>, ancestors: set<string>, wrapper: string, inside: bool)
    requires wrapper in ancestors && wrapper !in targets
    ensures AllWrapped(WrapOrphans(n, targets, ancestors, wrapper, inside), targets, ancestors, inside)
    decreases n
  {
    if n.Element? {
      var orphan := n.name in targets && !inside;
      var below := inside || orphan || n.name in ancestors;
      forall i | 0 <= i < |n.children|
        ensures AllWrapped(WrapOrphans(n.children[i], targets, ancestors, wrapper, below), targets, ancestors, below)
      {
        WrapOrphansWraps(n.children[i], targets, ancestors, wrapper, below);
      }
    }
  }

  /** A tag that already has the ancestor is not wrapped: with no orphan, the loop changes nothing. */
  lemma {:induction false} WrapOrphansNoOrphan(n: Node, targets: set<string>, ancestors: set<string>, wrapper: string, inside: bool)
    requires AllWrapped(n, targets, ancestors, inside)
    ensures WrapOrphans(n, targets, ancestors, wrapper, inside) == n
    decreases n
  {
    if n.Element? {
      var cs := n.children;
      var below := inside || n.name in ancestors;
      forall i | 0 <= i < |cs|
        ensures WrapOrphans(cs[i], targets, ancestors, wrapper, below) == cs[i]
      {
        WrapOrphansNoOrphan(cs[i], targets, ancestors, wrapper, below);
      }
      assert seq(|cs|, i requires 0 <= i < |cs| => WrapOrphans(cs[i], targets, ancestors, wrapper, below)) == cs;
    }
  }

  /** A wrapper that is not itself checked leaves another kind of orphan check satisfied. */
  lemma {:induction false} WrapOrphansKeeps(n: Node, targets: set<string>, ancestors: set<string>, wrapper: string, inside: bool,
                                            targets2: set<string>, ancestors2: set<string>, inside2: bool)
    requires wrapper !in targets2
    requires AllWrapped(n, targets2, ancestors2, inside2)
    ensures AllWrapped(WrapOrphans(n, targets, ancestors, wrapper, inside), targets2, ancestors2, inside2)
    decreases n
  {
    if n.Element? {
      var orphan := n.name in targets && !inside;
      var below := inside || orphan || n.name in ancestors;
      var below2 := inside2 || n.name in ancestors2;
      forall i | 0 <= i < |n.children|
        ensures AllWrapped(WrapOrphans(n.children[i], targets, ancestors, wrapper, below), targets2, ancestors2, below2)
      {
        WrapOrphansKeeps(n.children[i], targets, ancestors, wrapper, below, targets2, ancestors2, below2);
      }
      var fixed := Html.Element(n.name, n.attrs,
        seq(|n.children|, i requires 0 <= i < |n.children| => WrapOrphans(n.children[i], targets, ancestors, wrapper, below)));
      assert AllWrapped(fixed, targets2, ancestors2, inside2);
      if orphan && wrapper in ancestors2 {
        assert AllWrapped(fixed, targets2, ancestors2, inside2 || wrapper in ancestors2) by {
          AllWrappedMonotone(fixed, targets2, ancestors2, inside2, true);
        }
      }
    }
  }

  /** Having the ancestor above only helps. */
  lemma {:induction false} AllWrappedMonotone(n: Node, targets: set<string>, ancestors: set<string>, inside: bool, inside': bool)
    requires AllWrapped(n, targets, ancestors, inside) && (inside ==> inside')
    ensures AllWrapped(n, targets, ancestors, inside')
    decreases n
  {
    if n.Element? {
      forall i | 0 <= i < |n.children|
        ensures AllWrapped(n.children[i], targets, ancestors, inside' || n.name in ancestors)
      {
        AllWrappedMonotone(n.children[i], targets, ancestors, inside || n.name in ancestors, inside' || n.name in ancestors);
      }
    }
  }

  /**
   * The td/th loop: a cell with no tr above is wrapped in a new tr, and that
   * tr in a new table when no table is above either.
   */
  function FixCells(n: Node, inRow: bool, inTable: bool): (r: Node)
    ensures n.Text? ==> r == n
    decreases n
  {
    match n
    case Text(_, _) => n
    case Element(name, attrs, cs) =>
      var orphan := name in Cells && !inRow;
      var row := inRow || orphan || name == "tr";
      var table := inTable || orphan || name == "table";
      var fixed := Html.Element(name, attrs, seq(|cs|, i requires 0 <= i < |cs| => FixCells(cs[i], row, table)));
      if !orphan then fixed
      else if inTable then Html.Element("tr", [], [fixed])
      else Html.Element("table", [], [Html.Element("tr", [], [fixed])])
  }

  const Cells: set<string> := {"td", "th"}
  const Rows: set<string> := {"tr"}
  const Tables: set<string> := {"table"}
  const Items: set<string> := {"li"}
  const Lists: set<string> := {"ul", "ol"}

  /** After the td/th loop every cell has a tr above it. */
  lemma {:induction false} FixCellsWraps(n: Node, inRow: bool, inTable: bool)
    ensures AllWrapped(FixCells(n, inRow, inTable), Cells, Rows, inRow)
    decreases n
  {
    if n.Element? {
      var orphan := n.name in Cells && !inRow;
      var row := inRow || orphan || n.name == "tr";
      var table := inTable || orphan || n.name == "table";
      forall i | 0 <= i < |n.children|
        ensures AllWrapped(FixCells(n.children[i], row, table), Cells, Rows, row)
      {
        FixCellsWraps(n.children[i], row, table);
      }
    }
  }

  /** The td/th loop keeps every tr inside a table: a tr it creates gets a table when it has none. */
  lemma {:induction false} FixCellsKeepsRows(n: Node, inRow: bool, inTable: bool)
    requires AllWrapped(n, Rows, Tables, inTable)
    ensures AllWrapped(FixCells(n, inRow, inTable), Rows, Tables, inTable)
    decreases n
  {
    if n.Element? {
      var orphan := n.name in Cells && !inRow;
      var row := inRow || orphan || n.name == "tr";
      var table := inTable || orphan || n.name == "table";
      forall i | 0 <= i < |n.children|
        ensures AllWrapped(FixCells(n.children[i], row, table), Rows, Tables, table)
      {
        AllWrappedMonotone(n.children[i], Rows, Tables, inTable || n.name in Tables, table);
        FixCellsKeepsRows(n.children[i], row, table);
      }
    }
  }

  /** A cell that already has a tr above is not wrapped: with no orphan cell, the loop changes nothing. */
  lemma {:induction false} FixCellsNoOrphan(n: Node, inRow: bool, inTable: bool)
    requires AllWrapped(n, Cells, Rows, inRow)
    ensures FixCells(n, inRow, inTable) == n
    decreases n
  {
    if n.Element? {
      var cs := n.children;
      var row := inRow || n.name == "tr";
      var table := inTable || n.name == "table";
      forall i | 0 <= i < |cs|
        ensures FixCells(cs[i], row, table) == cs[i]
      {
        FixCellsNoOrphan(cs[i], row, table);
      }
      assert seq(|cs|, i requires 0 <= i < |cs| => FixCells(cs[i], row, table)) == cs;
    }
  }

  /** The li loop keeps the row and cell checks: a new ul is neither a tr, a td nor a th. */
  lemma FixListsKeeps(n: Node, inList: bool, inRow: bool, inTable: bool)
    requires AllWrapped(n, Rows, Tables, inTable) && AllWrapped(n, Cells, Rows, inRow)
    ensures AllWrapped(WrapOrphans(n, Items, Lists, "ul", inList), Rows, Tables, inTable)
    ensures AllWrapped(WrapOrphans(n, Items, Lists, "ul", inList), Cells, Rows, inRow)
  {
    WrapOrphansKeeps(n, Items, Lists, "ul", inList, Rows, Tables, inTable);
    WrapOrphansKeeps(n, Items, Lists, "ul", inList, Cells, Rows, inRow);
  }

  /** The three loops in order, on the soup. */
  function FixTree(soup: Node): Node
  {
    var rows := WrapOrphans(soup, Rows, Tables, "table", false);
    var cells := FixCells(rows, false, false);
    WrapOrphans(cells, Items, Lists, "ul", false)
  }

  /** Afterwards every tr has a table above it, every td and th a tr, and every li a ul or ol. */
  lemma FixTreeRepairs(soup: Node)
    ensures AllWrapped(FixTree(soup), Rows, Tables, false)
    ensures AllWrapped(FixTree(soup), Cells, Rows, false)
    ensures AllWrapped(FixTree(soup), Items, Lists, false)
  {
    var rows := WrapOrphans(soup, Rows, Tables, "table", false);
    WrapOrphansWraps(soup, Rows, Tables, "table", false);
    var cells := FixCells(rows, false, false);
    FixCellsKeepsRows(rows, false, false);
    FixCellsWraps(rows, false, false);
    FixListsKeeps(cells, false, false, false);
    WrapOrphansWraps(cells, Items, Lists, "ul", false);
  }

  /** A soup with no orphan of any of the three kinds comes through unchanged. */
  lemma FixTreeNoOrphan(soup: Node)
    requires AllWrapped(soup, Rows, Tables, false)
    requires AllWrapped(soup, Cells, Rows, false)
    requires AllWrapped(soup, Items, Lists, false)
    ensures FixTree(soup) == soup
  {
    WrapOrphansNoOrphan(soup, Rows, Tables, "table", false);
    FixCellsNoOrphan(soup, false, false);
    WrapOrphansNoOrphan(soup, Items, Lists, "ul", false);
  }

  // ---- the text is untouched --------------------------------------------------------

  lemma ConcatOne(s: string)
    ensures Html.Concat([s]) == s
  {
    assert [s][..0] == [];
    assert Html.Concat([s]) == "" + s;
  }

  /** Wrapping a node adds no text. */
  lemma WrapperText(name: string, x: Node)
    ensures Html.GetText(Html.Element(name, [], [x])) == Html.GetText(x)
  {
    assert seq(1, i requires 0 <= i < 1 => Html.GetText([x][i])) == [Html.GetText(x)];
    ConcatOne(Html.GetText(x));
  }

  /** Two sibling lists whose nodes read the same read the same. */
  lemma {:induction false} SameTexts(xs: seq<Node>, ys: seq<Node>)
    requires |xs| == |ys| && forall i :: 0 <= i < |xs| ==> Html.GetText(xs[i]) == Html.GetText(ys[i])
    ensures Html.TextOf(xs) == Html.TextOf(ys)
    decreases |xs|
  {
    if xs != [] {
      SameTexts(xs[..|xs| - 1], ys[..|ys| - 1]);
    }
  }

  /** The wrapping loop changes no text. */
  lemma {:induction false} WrapOrphansText(n: Node, targets: set<string>, ancestors: set<string>, wrapper: string, inside: bool)
    ensures Html.GetText(WrapOrphans(n, targets, ancestors, wrapper, inside)) == Html.GetText(n)
    decreases n
  {
    if n.Element? {
      var cs := n.children;
      var orphan := n.name in targets && !inside;
      var below := inside || orphan || n.name in ancestors;
      var kids := seq(|cs|, i requires 0 <= i < |cs| => WrapOrphans(cs[i], targets, ancestors, wrapper, below));
      var fixed := Html.Element(n.name, n.attrs, kids);
      forall i | 0 <= i < |cs|
        ensures Html.GetText(kids[i]) == Html.GetText(cs[i])
      {
        WrapOrphansText(cs[i], targets, ancestors, wrapper, below);
      }
      SameTexts(kids, cs);
      Html.GetTextChildren(fixed);
      Html.GetTextChildren(n);
      if orphan {
        WrapperText(wrapper, fixed);
      }
    }
  }

  /** The td/th loop changes no text. */
  lemma {:induction false} FixCellsText(n: Node, inRow: bool, inTable: bool)
    ensures Html.GetText(FixCells(n, inRow, inTable)) == Html.GetText(n)
    decreases n
  {
    if n.Element? {
      var cs := n.children;
      var orphan := n.name in Cells && !inRow;
      var row := inRow || orphan || n.name == "tr";
      var table := inTable || orphan || n.name == "table";
      var kids := seq(|cs|, i requires 0 <= i < |cs| => FixCells(cs[i], row, table));
      var fixed := Html.Element(n.name, n.attrs, kids);
      forall i | 0 <= i < |cs|
        ensures Html.GetText(kids[i]) == Html.GetText(cs[i])
      {
        FixCellsText(cs[i], row, table);
      }
      SameTexts(kids, cs);
      Html.GetTextChildren(fixed);
      Html.GetTextChildren(n);
      if orphan {
        WrapperText("tr", fixed);
        WrapperText("table", Html.Element("tr", [], [fixed]));
      }
    }
  }

  /** The repaired soup reads exactly as the parsed one. */
  lemma FixTreeText(soup: Node)
    ensures Html.GetText(FixTree(soup)) == Html.GetText(soup)
  {
    var rows := WrapOrphans(soup, Rows, Tables, "table", false);
    WrapOrphansText(soup, Rows, Tables, "table", false);
    FixCellsText(rows, false, false);
    WrapOrphansText(FixCells(rows, false, false), Items, Lists, "ul", false);
  }

  // ---- fix_html_syntax --------------------------------------------------------------

  /** fix_html_with_beautifulsoup on a string: parse, repair, serialise. */
  function FixHtmlText(s: string, parse: string -> seq<Node>, render: Node -> string): string
  {
    render(FixTree(Html.Document(parse(s))))
  }

  /**
   * fix_html_with_beautifulsoup: a string becomes the serialisation of its
   * repaired soup; anything but a string comes back unchanged.
   */
  function FixLeaf(v: Json.Json, parse: string -> seq<Node>, render: Node -> string): (r: Json.Json)
    ensures !v.Str? ==> r == v
    ensures v.Str? ==> r == Json.Str(FixHtmlText(v.s, parse, render))
  {
    if v.Str? then Json.Str(FixHtmlText(v.s, parse, render)) else v
  }

  /** FixLeaf with the parser and the serialiser fixed, as fix_html_syntax applies it to every leaf. */
  function Fixer(parse: string -> seq<Node>, render: Node -> string): Json.Json -> Json.Json
  {
    v => FixLeaf(v, parse, render)
  }

  /**
   * fix_html_syntax: every dict keeps its keys in order, every list its
   * length, and every scalar, at any depth, is rewritten by FixLeaf: a
   * string becomes FixHtmlText of itself, any other scalar stays.
   */
  function FixHtmlSyntax(obj: Json.Json, parse: string -> seq<Node>, render: Node -> string): (r: Json.Json)
    ensures Json.SameShape(obj, r)
    ensures Json.Leafwise(obj, r, Fixer(parse, render))
    ensures Json.IsScalar(obj) && !obj.Str? ==> r == obj
  {
    Json.MapLeavesLeafwise(obj, Fixer(parse, render));
    Json.MapLeaves(obj, Fixer(parse, render))
  }
}

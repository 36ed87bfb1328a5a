/**
 * The parsed HTML tree the worker's scripts walk, as BeautifulSoup builds
 * it with 'html.parser': text nodes (plain text, comments, and the other
 * string kinds such as a doctype) and tags with a name, attributes and
 * children. The BeautifulSoup object itself is a tag named '[document]'.
 * Parsing and serialising are not modelled: they are parameters where used.
 */
module Html {
  import Text
  import Seqs

  /** Plain is NavigableString or CData (what get_text() collects); Comment; Special is any other string kind. */
  datatype TextKind = Plain | Comment | Special

  datatype Node =
    | Text(kind: TextKind, s: string)
    | Element(name: string, attrs: seq<(string, string)>, children: seq<Node>)

  const DocumentName: string := "[document]"

  /** The BeautifulSoup object holding these top-level nodes. */
  function Document(children: seq<Node>): (d: Node)
    ensures d.Element? && d.name == DocumentName && d.children == children
  {
    Element(DocumentName, [], children)
  }

  function Concat(parts: seq<string>): (r: string)
    ensures parts == [] ==> r == ""
    decreases |parts|
  {
    if parts == [] then "" else Concat(parts[..|parts| - 1]) + parts[|parts| - 1]
  }

  /** get_text(): the plain strings of the node and its descendants, in document order. */
  function GetText(n: Node): string
    decreases n
  {
    match n
    case Text(kind, s) => if kind == Plain then s else ""
    case Element(_, _, cs) => Concat(seq(|cs|, i requires 0 <= i < |cs| => GetText(cs[i])))
  }

  /** The text of a run of sibling nodes, one after the other. */
  function TextOf(nodes: seq<Node>): string
    decreases |nodes|
  {
    if nodes == [] then "" else TextOf(nodes[..|nodes| - 1]) + GetText(nodes[|nodes| - 1])
  }

  lemma TextOfOne(n: Node)
    ensures TextOf([n]) == GetText(n)
  {
    assert [n][..0] == [];
    assert TextOf([n]) == "" + GetText(n);
  }

  lemma {:induction false} ConcatTexts(nodes: seq<Node>)
    ensures Concat(seq(|nodes|, i requires 0 <= i < |nodes| => GetText(nodes[i]))) == TextOf(nodes)
    decreases |nodes|
  {
    if nodes != [] {
      var init := nodes[..|nodes| - 1];
      ConcatTexts(init);
      var parts := seq(|nodes|, i requires 0 <= i < |nodes| => GetText(nodes[i]));
      assert parts[..|parts| - 1] == seq(|init|, i requires 0 <= i < |init| => GetText(init[i]));
    }
  }

  /** A tag's text is its children's text, in order. */
  lemma GetTextChildren(n: Node)
    requires n.Element?
    ensures GetText(n) == TextOf(n.children)
  {
    ConcatTexts(n.children);
  }

  lemma {:induction false} TextOfAppend(a: seq<Node>, b: seq<Node>)
    ensures TextOf(a + b) == TextOf(a) + TextOf(b)
    decreases |b|
  {
    if b == [] {
      assert a + b == a;
    } else {
      var init := b[..|b| - 1];
      assert (a + b)[..|a + b| - 1] == a + init;
      assert (a + b)[|a + b| - 1] == b[|b| - 1];
      TextOfSnoc(a + b, a + init, b[|b| - 1]);
      TextOfSnoc(b, init, b[|b| - 1]);
      TextOfAppend(a, init);
    }
  }

  lemma TextOfSnoc(nodes: seq<Node>, init: seq<Node>, last: Node)
    requires nodes != [] && init == nodes[..|nodes| - 1] && last == nodes[|nodes| - 1]
    ensures TextOf(nodes) == TextOf(init) + GetText(last)
  {
  }

  /** The text of a flattened list is the text of each part, in order. */
  lemma {:induction false} TextOfFlatten(parts: seq<seq<Node>>)
    ensures TextOf(Seqs.Flatten(parts)) == Concat(seq(|parts|, i requires 0 <= i < |parts| => TextOf(parts[i])))
    decreases |parts|
  {
    if parts != [] {
      var init := parts[..|parts| - 1];
      TextOfFlatten(init);
      TextOfAppend(Seqs.Flatten(init), parts[|parts| - 1]);
      var texts := seq(|parts|, i requires 0 <= i < |parts| => TextOf(parts[i]));
      assert texts[..|texts| - 1] == seq(|init|, i requires 0 <= i < |init| => TextOf(init[i]));
    }
  }

  /** find_all() on n: every tag strictly inside n, in document order. */
  function Descendants(n: Node): (r: seq<Node>)
    ensures forall d :: d in r ==> d.Element?
    decreases n
  {
    match n
    case Text(_, _) => []
    case Element(_, _, cs) =>
      var parts := seq(|cs|, i requires 0 <= i < |cs| =>
        if cs[i].Element? then [cs[i]] + Descendants(cs[i]) else []);
      assert forall d :: d in Seqs.Flatten(parts) ==> d.Element? by {
        forall d | d in Seqs.Flatten(parts)
          ensures d.Element?
        {
          Seqs.FlattenMember(parts, d);
        }
      }
      Seqs.Flatten(parts)
  }

  /** soup.find() is not None: n has a tag among its children (hence among its descendants). */
  predicate HasTag(n: Node)
  {
    n.Element? && exists i :: 0 <= i < |n.children| && n.children[i].Element?
  }

  lemma HasTagDescendants(n: Node)
    requires n.Element?
    ensures HasTag(n) <==> Descendants(n) != []
  {
    var cs := n.children;
    var parts := seq(|cs|, i requires 0 <= i < |cs| =>
      if cs[i].Element? then [cs[i]] + Descendants(cs[i]) else []);
    if HasTag(n) {
      var i :| 0 <= i < |cs| && cs[i].Element?;
      Seqs.FlattenMember(parts, cs[i]);
      assert cs[i] in parts[i];
    } else {
      assert forall i :: 0 <= i < |parts| ==> parts[i] == [];
      Seqs.FlattenEmpty(parts);
    }
  }

  /** Whether any tag with one of these names occurs at or below n. */
  predicate Contains(n: Node, names: set<string>)
    decreases n
  {
    n.Element? && (n.name in names || exists i :: 0 <= i < |n.children| && Contains(n.children[i], names))
  }

  /**
   * for t in soup(names): t.decompose(): every tag below n with one of these
   * names is removed together with its subtree.
   */
  function Decompose(n: Node, names: set<string>): (r: Node)
    ensures n.Element? ==> r.Element? && r.name == n.name && r.attrs == n.attrs
    ensures n.Text? ==> r == n
    decreases n
  {
    match n
    case Text(_, _) => n
    case Element(name, attrs, cs) =>
      var kept := KeepUnnamed(cs, names);
      Element(name, attrs, seq(|kept|, i requires 0 <= i < |kept| => assert kept[i] in cs; Decompose(kept[i], names)))
  }

  /** The children that are not tags named in names. */
  function KeepUnnamed(cs: seq<Node>, names: set<string>): (r: seq<Node>)
    ensures |r| <= |cs|
    ensures forall c :: c in r ==> c in cs && !(c.Element? && c.name in names)
    decreases |cs|
  {
    if cs == [] then []
    else
      var c := cs[|cs| - 1];
      assert cs == cs[..|cs| - 1] + [c];
      KeepUnnamed(cs[..|cs| - 1], names) + (if c.Element? && c.name in names then [] else [c])
  }

  /** After decomposing, no tag with those names is left below the root. */
  lemma {:induction false} DecomposeRemoves(n: Node, names: set<string>)
    requires n.Element?
    ensures forall i :: 0 <= i < |Decompose(n, names).children| ==> !Contains(Decompose(n, names).children[i], names)
    decreases n
  {
    var kept := KeepUnnamed(n.children, names);
    var r := Decompose(n, names);
    forall i | 0 <= i < |r.children|
      ensures !Contains(r.children[i], names)
    {
      assert kept[i] in n.children;
      assert r.children[i] == Decompose(kept[i], names);
      if kept[i].Element? {
        DecomposeRemoves(kept[i], names);
      }
    }
  }
}

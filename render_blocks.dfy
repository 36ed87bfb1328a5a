/**
 * renderBlocks: the structured chat answer (blocks of a tag type and
 * contents that are strings or nested blocks) turned into elements. Only a
 * fixed set of HTML tags is allowed; any other type becomes a div saying
 * so. React elements are modelled as a plain element tree.
 */
module RenderBlocks {

  /** One item of a block's contents: a string, a nested block, or any other value (dropped). */
  datatype Content = Str(s: string) | Nested(block: Block) | Other
  datatype Block = Block(kind: string, contents: seq<Content>)

  datatype Child = TextChild(s: string) | ElementChild(element: Element)
  datatype Element = Element(tag: string, children: seq<Child>)

  /** What the RenderBlocks component returns: a fragment of elements, or the fallback for non-array input. */
  datatype View = Fragment(elements: seq<Element>) | Fallback(element: Element)

  /** The blocks prop as received at run time. */
  datatype BlocksProp = BlockArray(blocks: seq<Block>) | NotArray

  const ValidTags: set<string> := {"h1", "h2", "h3", "h4", "h5", "h6", "p", "strong", "em", "ul", "ol", "li", "a"}

  /** The contents that produce a child: strings and nested blocks, in order. */
  function Kept(cs: seq<Content>): (r: seq<Content>)
    ensures |r| <= |cs|
    ensures forall c :: c in r ==> c in cs && !c.Other?
    decreases |cs|
  {
    if cs == [] then []
    else
      var init := cs[..|cs| - 1];
      var c := cs[|cs| - 1];
      assert cs == init + [c];
      Kept(init) + (if c.Other? then [] else [c])
  }

  function RenderChild(c: Content): Child
    requires !c.Other?
    decreases c
  {
    match c
    case Str(s) => TextChild(s)
    case Nested(inner) => ElementChild(Render(inner))
  }

  /** renderBlock: a whitelisted type renders as that tag over its kept contents; any other as the invalid-tag div. */
  function Render(b: Block): (r: Element)
    ensures b.kind !in ValidTags ==> r == Element("div", [TextChild("Invalid tag: " + b.kind)])
    ensures b.kind in ValidTags ==> r.tag == b.kind && |r.children| == |Kept(b.contents)|
    decreases b
  {
    if b.kind !in ValidTags then Element("div", [TextChild("Invalid tag: " + b.kind)])
    else
      var kept := Kept(b.contents);
      Element(b.kind, seq(|kept|, i requires 0 <= i < |kept| => assert kept[i] in b.contents; RenderChild(kept[i])))
  }

  /** renderBlock as written: a forEach pushing one child per string or nested block. */
  method RenderBlock(b: Block) returns (e: Element)
    ensures e == Render(b)
    decreases b
  {
    if b.kind !in ValidTags {
      return Element("div", [TextChild("Invalid tag: " + b.kind)]);
    }
    var children: seq<Child> := [];
    ghost var kept: seq<Content> := [];
    var i := 0;
    while i < |b.contents|
      invariant 0 <= i <= |b.contents|
      invariant kept == Kept(b.contents[..i])
      invariant |children| == |kept|
      invariant forall j :: 0 <= j < |children| ==> !kept[j].Other? && children[j] == RenderChild(kept[j])
    {
      var c := b.contents[i];
      KeptPrefix(b.contents, i);
      if !c.Other? {
        var child := RenderChildOf(c);
        RenderedSnoc(children, kept, c, child);
        children := children + [child];
        kept := kept + [c];
      }
      i := i + 1;
    }
    assert b.contents[..|b.contents|] == b.contents;
    RenderedAll(b, kept, children);
    e := Element(b.kind, children);
  }

  /** The children the loop pushed are those Render gives for the block's kept contents. */
  lemma RenderedAll(b: Block, kept: seq<Content>, children: seq<Child>)
    requires b.kind in ValidTags && kept == Kept(b.contents) && |children| == |kept|
    requires forall j :: 0 <= j < |children| ==> !kept[j].Other? && children[j] == RenderChild(kept[j])
    ensures Element(b.kind, children) == Render(b)
  {
    assert children == Render(b).children;
  }

  /** The body of renderBlock's forEach for a string or a nested block. */
  method RenderChildOf(c: Content) returns (child: Child)
    requires !c.Other?
    ensures child == RenderChild(c)
    decreases c
  {
    match c {
      case Str(s) =>
        child := TextChild(s);
      case Nested(inner) =>
        var sub := RenderBlock(inner);
        child := ElementChild(sub);
    }
  }

  lemma RenderedSnoc(children: seq<Child>, kept: seq<Content>, c: Content, child: Child)
    requires |children| == |kept| && !c.Other? && child == RenderChild(c)
    requires forall j :: 0 <= j < |children| ==> !kept[j].Other? && children[j] == RenderChild(kept[j])
    ensures forall j :: 0 <= j < |children| + 1 ==> !(kept + [c])[j].Other? && (children + [child])[j] == RenderChild((kept + [c])[j])
  {
  }

  lemma KeptPrefix(cs: seq<Content>, i: nat)
    requires i < |cs|
    ensures Kept(cs[..i + 1]) == Kept(cs[..i]) + (if cs[i].Other? then [] else [cs[i]])
  {
    assert cs[..i + 1][..i] == cs[..i];
  }

  /** renderBlocks: one element per block, in order. */
  function RenderAll(blocks: seq<Block>): (r: seq<Element>)
    ensures |r| == |blocks| && forall k :: 0 <= k < |blocks| ==> r[k] == Render(blocks[k])
  {
    seq(|blocks|, k requires 0 <= k < |blocks| => Render(blocks[k]))
  }

  /** The RenderBlocks component: the rendered blocks, or 'Invalid blocks data' for a non-array prop. */
  function RenderView(prop: BlocksProp): (r: View)
    ensures prop.NotArray? ==> r == Fallback(Element("div", [TextChild("Invalid blocks data")]))
    ensures prop.BlockArray? ==> r == Fragment(RenderAll(prop.blocks))
  {
    match prop
    case NotArray => Fallback(Element("div", [TextChild("Invalid blocks data")]))
    case BlockArray(blocks) => Fragment(RenderAll(blocks))
  }

  // ---- what rendering keeps -------------------------------------------------------

  /** Every block, at every depth, has a whitelisted type. */
  predicate WellFormed(b: Block)
    decreases b
  {
    b.kind in ValidTags && forall c :: c in b.contents && c.Nested? ==> WellFormed(c.block)
  }

  /** The block with the dropped values removed, at every depth. */
  function Strip(b: Block): (r: Block)
    decreases b
  {
    var kept := Kept(b.contents);
    Block(b.kind, seq(|kept|, i requires 0 <= i < |kept| => assert kept[i] in b.contents; StripContent(kept[i])))
  }

  function StripContent(c: Content): Content
    decreases c
  {
    match c
    case Nested(inner) => Nested(Strip(inner))
    case _ => c
  }

  /** Reading the element tree back as blocks: text children are strings, element children nested blocks. */
  function Unrender(e: Element): (r: Block)
    decreases e
  {
    Block(e.tag, seq(|e.children|, i requires 0 <= i < |e.children| =>
      match e.children[i]
      case TextChild(s) => Str(s)
      case ElementChild(x) => assert e.children[i] in e.children; Nested(Unrender(x))))
  }

  /**
   * A well-formed block renders into a tree that reads back as the block
   * itself minus its dropped values: tags, strings and nesting survive
   * rendering exactly, in order.
   */
  lemma {:induction false} RenderRoundTrip(b: Block)
    requires WellFormed(b)
    ensures Unrender(Render(b)) == Strip(b)
    decreases b
  {
    var kept := Kept(b.contents);
    var e := Render(b);
    forall i | 0 <= i < |kept|
      ensures Unrender(e).contents[i] == Strip(b).contents[i]
    {
      assert kept[i] in b.contents;
      assert e.children[i] == RenderChild(kept[i]);
      match kept[i]
      case Str(s) =>
      case Nested(inner) =>
        RenderRoundTrip(inner);
    }
  }

  /** The string contents of a block, in order. */
  function Strings(cs: seq<Content>): seq<string>
    decreases |cs|
  {
    if cs == [] then []
    else Strings(cs[..|cs| - 1]) + (if cs[|cs| - 1].Str? then [cs[|cs| - 1].s] else [])
  }

  function TextsOf(cs: seq<Child>): seq<string>
    decreases |cs|
  {
    if cs == [] then []
    else TextsOf(cs[..|cs| - 1]) + (if cs[|cs| - 1].TextChild? then [cs[|cs| - 1].s] else [])
  }

  lemma {:induction false} KeptStrings(cs: seq<Content>, children: seq<Child>)
    requires |children| == |Kept(cs)|
    requires forall j :: 0 <= j < |children| ==> children[j] == RenderChild(Kept(cs)[j])
    ensures TextsOf(children) == Strings(cs)
    decreases |cs|
  {
    if cs != [] {
      var init := cs[..|cs| - 1];
      var c := cs[|cs| - 1];
      assert cs == init + [c];
      var k := |Kept(init)|;
      assert Kept(cs) == Kept(init) + (if c.Other? then [] else [c]);
      forall j | 0 <= j < k
        ensures children[..k][j] == RenderChild(Kept(init)[j])
      {
        assert Kept(cs)[j] == Kept(init)[j];
      }
      KeptStrings(init, children[..k]);
      if c.Other? {
        assert children[..k] == children;
      } else {
        assert children == children[..k] + [children[k]];
        assert children[k] == RenderChild(c);
      }
    }
  }

  /** String contents come out verbatim and in order as the text children of a whitelisted block. */
  lemma StringsVerbatim(b: Block)
    requires b.kind in ValidTags
    ensures TextsOf(Render(b).children) == Strings(b.contents)
  {
    var kept := Kept(b.contents);
    forall j | 0 <= j < |kept|
      ensures Render(b).children[j] == RenderChild(kept[j])
    {
    }
    KeptStrings(b.contents, Render(b).children);
  }
}

/**
 * The worker's prepare_item_for_chromadb script: every string of a label
 * document that holds a tag is turned into plain text with one line per
 * tag or text node (script and style dropped), then tidied to its
 * non-blank lines, each stripped. The parser is a parameter.
 */
module PrepareItem {
  import Text
  import Json
  import Html

  type Node = Html.Node

  const Dropped: set<string> := {"script", "style"}

  /** A non-blank line followed by a newline; nothing for a blank one. */
  function Line(t: string): (r: string)
    ensures Text.AllSpace(t, Text.PyIsSpace) ==> r == ""
  {
    var s := Text.PyStrip(t);
    if s != "" then s + "\n" else ""
  }

  /**
   * extract_text_with_line_breaks: for each child in order, a tag gives its
   * stripped text as a line and then its own extraction; a text node of any
   * kind gives its stripped string as a line.
   */
  function Extract(n: Node): string
    decreases n, 0
  {
    match n
    case Text(_, _) => ""
    case Element(_, _, cs) => Html.Concat(seq(|cs|, i requires 0 <= i < |cs| => Piece(cs[i])))
  }

  /** What one child adds. */
  function Piece(c: Node): string
    decreases c, 1
  {
    match c
    case Element(_, _, _) => Line(Html.GetText(c)) + Extract(c)
    case Text(_, s) => Line(s)
  }

  /** extract_text_with_line_breaks, as the source runs it: result += ... over the children. */
  method ExtractLoop(n: Node) returns (result: string)
    ensures result == Extract(n)
    decreases n, 0
  {
    if n.Text? {
      return "";
    }
    var cs := n.children;
    ghost var pieces := seq(|cs|, i requires 0 <= i < |cs| => Piece(cs[i]));
    result := "";
    var i := 0;
    while i < |cs|
      invariant 0 <= i <= |cs|
      invariant result == Html.Concat(pieces[..i])
    {
      var piece := PieceLoop(cs[i]);
      ConcatPrefix(pieces, i);
      result := result + piece;
      i := i + 1;
    }
    assert pieces[..|cs|] == pieces;
  }

  /** The body of the loop over the children: what one child adds. */
  method PieceLoop(c: Node) returns (piece: string)
    ensures piece == Piece(c)
    decreases c, 1
  {
    if c.Element? {
      var childText := ExtractLoop(c);
      piece := Line(Html.GetText(c)) + childText;
    } else {
      piece := Line(c.s);
    }
  }

  lemma ConcatPrefix(parts: seq<string>, i: nat)
    requires i < |parts|
    ensures Html.Concat(parts[..i + 1]) == Html.Concat(parts[..i]) + parts[i]
  {
    assert parts[..i + 1][..i] == parts[..i];
  }

  /**
   * A tag child repeats the text below it once per level: a stripped word x
   * inside an inner tag inside an outer tag is emitted three times, once for
   * the outer tag's text, once for the inner tag's and once for the text node.
   */
  lemma NestedTextRepeats(outer: string, inner: string, x: string)
    requires x != [] && !Text.PyIsSpace(x[0]) && !Text.PyIsSpace(x[|x| - 1])
    ensures var leaf := Html.Text(Html.Plain, x);
            var mid := Html.Element(inner, [], [leaf]);
            Piece(Html.Element(outer, [], [mid])) == x + "\n" + x + "\n" + x + "\n"
  {
    var leaf := Html.Text(Html.Plain, x);
    var mid := Html.Element(inner, [], [leaf]);
    var l := x + "\n";
    StrippedLine(x);
    assert Html.GetText(leaf) == x;
    OnlyChild(inner, leaf);
    assert Piece(mid) == l + l;
    OnlyChild(outer, mid);
    assert Piece(Html.Element(outer, [], [mid])) == l + (l + l);
  }

  lemma StrippedLine(x: string)
    requires x != [] && !Text.PyIsSpace(x[0]) && !Text.PyIsSpace(x[|x| - 1])
    ensures Line(x) == x + "\n"
    ensures Piece(Html.Text(Html.Plain, x)) == x + "\n"
  {
    Text.TrimUnchanged(x, Text.PyIsSpace);
  }

  /** A tag with one child: its text is the child's, and it adds that text as a line before the child's piece. */
  lemma OnlyChild(name: string, c: Node)
    ensures Html.GetText(Html.Element(name, [], [c])) == Html.GetText(c)
    ensures Piece(Html.Element(name, [], [c])) == Line(Html.GetText(c)) + Piece(c)
  {
    OnlyChildText(name, c);
    OnlyChildExtract(name, c);
  }

  lemma OnlyChildText(name: string, c: Node)
    ensures Html.GetText(Html.Element(name, [], [c])) == Html.GetText(c)
  {
    var texts := seq(1, i requires 0 <= i < 1 => Html.GetText([c][i]));
    assert texts[..0] == [];
  }

  lemma OnlyChildExtract(name: string, c: Node)
    ensures Extract(Html.Element(name, [], [c])) == Piece(c)
  {
    var pieces := seq(1, i requires 0 <= i < 1 => Piece([c][i]));
    assert pieces[..0] == [];
  }

  // ---- tidying the lines ------------------------------------------------------------

  /** The lines that are not blank, each stripped, in order. */
  function KeptLines(lines: seq<string>, ws: char -> bool): (r: seq<string>)
    ensures |r| <= |lines|
    decreases |lines|
  {
    if lines == [] then []
    else
      var t := Text.Trim(lines[|lines| - 1], ws);
      KeptLines(lines[..|lines| - 1], ws) + (if t != "" then [t] else [])
  }

  /** A tidy line: not empty, no white space at either end, no newline inside. */
  predicate TidyLine(s: string, ws: char -> bool)
  {
    s != [] && !ws(s[0]) && !ws(s[|s| - 1]) && '\n' !in s
  }

  /** Every kept line is tidy, provided the lines hold no newline. */
  lemma {:induction false} KeptLinesTidy(lines: seq<string>, ws: char -> bool)
    requires forall k :: 0 <= k < |lines| ==> '\n' !in lines[k]
    ensures forall k :: 0 <= k < |KeptLines(lines, ws)| ==> TidyLine(KeptLines(lines, ws)[k], ws)
    decreases |lines|
  {
    if lines != [] {
      var init := lines[..|lines| - 1];
      KeptLinesTidy(init, ws);
      var line := lines[|lines| - 1];
      var t := Text.Trim(line, ws);
      Text.TrimInside(line, ws);
      assert '\n' !in t by {
        var i := Text.LeadLen(line, ws);
        forall k | 0 <= k < |t|
          ensures t[k] != '\n'
        {
          assert t[k] == line[i + k];
        }
      }
    }
  }

  /** Tidy lines are kept as they are. */
  lemma {:induction false} KeptLinesFixed(lines: seq<string>, ws: char -> bool)
    requires forall k :: 0 <= k < |lines| ==> TidyLine(lines[k], ws)
    ensures KeptLines(lines, ws) == lines
    decreases |lines|
  {
    if lines != [] {
      var init, last := lines[..|lines| - 1], lines[|lines| - 1];
      assert TidyLine(last, ws);
      KeptLinesFixed(init, ws);
      Text.TrimUnchanged(last, ws);
      assert KeptLines(lines, ws) == KeptLines(init, ws) + [last];
      assert init + [last] == lines;
    }
  }

  /** "\n".join(line.strip() for line in t.split("\n") if line.strip()) */
  function TidyLinesBy(t: string, ws: char -> bool): string
  {
    Text.Join(KeptLines(Text.Split(t, '\n'), ws), "\n")
  }

  function TidyLines(t: string): string
  {
    TidyLinesBy(t, Text.PyIsSpace)
  }

  /** Splitting tidied text gives tidy lines only (or the one empty piece of an empty text). */
  lemma TidyLinesShape(t: string, ws: char -> bool)
    ensures var r := TidyLinesBy(t, ws);
      r == "" || forall k :: 0 <= k < |Text.Split(r, '\n')| ==> TidyLine(Text.Split(r, '\n')[k], ws)
  {
    var lines := Text.Split(t, '\n');
    var kept := KeptLines(lines, ws);
    KeptLinesTidy(lines, ws);
    if |kept| >= 1 {
      Text.SplitJoin(kept, '\n');
    }
  }

  /** Tidying twice is tidying once. */
  lemma TidyLinesIdempotent(t: string, ws: char -> bool)
    ensures TidyLinesBy(TidyLinesBy(t, ws), ws) == TidyLinesBy(t, ws)
  {
    var kept := KeptLines(Text.Split(t, '\n'), ws);
    var r := Text.Join(kept, "\n");
    KeptLinesTidy(Text.Split(t, '\n'), ws);
    if kept == [] {
      TidyEmpty(ws);
    } else {
      Text.SplitJoin(kept, '\n');
      assert Text.Split(r, '\n') == kept;
      KeptLinesFixed(kept, ws);
    }
  }

  lemma TidyEmpty(ws: char -> bool)
    ensures TidyLinesBy("", ws) == ""
  {
    assert Text.Split("", '\n') == [""];
    assert Text.Trim("", ws) == "";
    assert KeptLines([""], ws) == [];
  }

  // ---- prepare_item_for_chromadb ----------------------------------------------------

  /** The soup of a string with script and style tags decomposed. */
  function Soup(s: string, parse: string -> seq<Node>): (soup: Node)
    ensures soup.Element?
  {
    Html.Decompose(Html.Document(parse(s)), Dropped)
  }

  /** A string: unchanged when it has no tag or extracts to nothing; otherwise its tidied extraction. */
  function PrepareString(s: string, parse: string -> seq<Node>): (r: string)
    ensures !Html.HasTag(Soup(s, parse)) ==> r == s
    ensures Html.HasTag(Soup(s, parse)) && TidyLines(Extract(Soup(s, parse))) == "" ==> r == s
    ensures Html.HasTag(Soup(s, parse)) && TidyLines(Extract(Soup(s, parse))) != "" ==> r == TidyLines(Extract(Soup(s, parse)))
  {
    var soup := Soup(s, parse);
    if !Html.HasTag(soup) then s
    else
      var text := TidyLines(Extract(soup));
      if text != "" then text else s
  }

  /** A prepared string that holds a tag has only tidy lines. */
  lemma PrepareStringTidy(s: string, parse: string -> seq<Node>)
    requires Html.HasTag(Soup(s, parse)) && PrepareString(s, parse) != s
    ensures forall k :: 0 <= k < |Text.Split(PrepareString(s, parse), '\n')| ==>
      TidyLine(Text.Split(PrepareString(s, parse), '\n')[k], Text.PyIsSpace)
  {
    TidyLinesShape(Extract(Soup(s, parse)), Text.PyIsSpace);
  }

  /** One leaf: a string is prepared, any other scalar becomes its JSON text. */
  function PrepareLeaf(j: Json.Json, parse: string -> seq<Node>): (r: Json.Json)
    ensures r.Str?
  {
    match j
    case Str(s) => Json.Str(PrepareString(s, parse))
    case Null | Bool(_) | Num(_) => Json.Str(Json.PyDumpsScalar(j))
    case _ => Json.Str("")
  }

  /** PrepareLeaf with the parser fixed, as prepare_item_for_chromadb applies it to every leaf. */
  function Preparer(parse: string -> seq<Node>): Json.Json -> Json.Json
  {
    j => PrepareLeaf(j, parse)
  }

  /**
   * prepare_item_for_chromadb: dicts and lists keep their shape, and every
   * scalar, at any depth, is rewritten by PrepareLeaf: strings are prepared,
   * other scalars become JSON text.
   */
  function PrepareItem(obj: Json.Json, parse: string -> seq<Node>): (r: Json.Json)
    ensures Json.SameShape(obj, r)
    ensures Json.Leafwise(obj, r, Preparer(parse))
    ensures obj.Str? ==> r == Json.Str(PrepareString(obj.s, parse))
    ensures obj.Null? || obj.Bool? || obj.Num? ==> r == Json.Str(Json.PyDumpsScalar(obj))
  {
    Json.MapLeavesLeafwise(obj, Preparer(parse));
    Json.MapLeaves(obj, Preparer(parse))
  }
}

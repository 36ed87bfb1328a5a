/**
 * The worker's data_cleanup script: every string of a label document is
 * reduced to ASCII with its whitespace collapsed, then parsed as HTML, has
 * its scripts and styles dropped, its tree cleaned (attributes removed,
 * links replaced by their text, wrapper tags unwrapped, empty tags
 * removed), serialised again and tidied with three regular expressions.
 * BeautifulSoup's parser and its serialiser are parameters.
 */
module DataCleanup {
  import opened Wrappers
  import Text
  import Json
  import Html
  import Seqs

  // ---- remove_unicode_characters ----------------------------------------------------

  predicate IsAscii(c: char)
  {
    c < '\U{80}'
  }

  /** ''.join(char for char in text if ord(char) < 128) */
  function AsciiOnly(s: string): (r: string)
    ensures |r| <= |s|
    ensures forall k :: 0 <= k < |r| ==> IsAscii(r[k]) && r[k] in s
    ensures (forall k :: 0 <= k < |s| ==> IsAscii(s[k])) ==> r == s
    decreases |s|
  {
    if s == [] then []
    else (if IsAscii(s[0]) then [s[0]] else []) + AsciiOnly(s[1..])
  }

  /** re.sub(r'\s+', ' ', s) with ws for \s: every maximal run of whitespace becomes one space. */
  function CollapseWs(s: string, ws: char -> bool): (r: string)
    ensures |r| <= |s|
    decreases |s|
  {
    if s == [] then []
    else if ws(s[0]) then [' '] + CollapseWs(Text.TrimStart(s[1..], ws), ws)
    else [s[0]] + CollapseWs(s[1..], ws)
  }

  /** Collapsing leaves only single spaces for whitespace and adds no other character. */
  lemma {:induction false} CollapseShape(s: string, ws: char -> bool)
    requires ws(' ')
    ensures var r := CollapseWs(s, ws);
      && (s == [] <==> r == [])
      && (s != [] ==> r[0] == (if ws(s[0]) then ' ' else s[0]))
      && (forall k :: 0 <= k < |r| ==> r[k] == ' ' || (r[k] in s && !ws(r[k])))
      && (forall k :: 0 <= k < |r| - 1 ==> !(r[k] == ' ' && r[k + 1] == ' '))
    decreases |s|
  {
    if s != [] {
      var r := CollapseWs(s, ws);
      var u := s[1..];
      var t := if ws(s[0]) then Text.TrimStart(u, ws) else u;
      assert r == [r[0]] + CollapseWs(t, ws);
      assert t == u[|u| - |t|..];
      assert forall c :: c in t ==> c in s;
      CollapseShape(t, ws);
      var rest := CollapseWs(t, ws);
      if ws(s[0]) {
        assert rest != [] ==> !ws(t[0]);
      }
      assert forall k :: 1 <= k < |r| ==> r[k] == rest[k - 1];
    }
  }

  /** Collapsing runs of ws keeps what a reader sees, for any notion vis of whitespace that covers ws and the space. */
  lemma {:induction false} CollapseVisible(s: string, ws: char -> bool, vis: char -> bool)
    requires vis(' ') && forall c :: ws(c) ==> vis(c)
    ensures Text.Visible(CollapseWs(s, ws), vis) == Text.Visible(s, vis)
    decreases |s|
  {
    if s != [] {
      var r := CollapseWs(s, ws);
      var u := s[1..];
      if ws(s[0]) {
        var t := Text.TrimStart(u, ws);
        var m := Text.LeadLen(u, ws);
        CollapseVisible(t, ws, vis);
        assert r[1..] == CollapseWs(t, ws);
        assert u == u[..m] + t;
        Text.VisibleAppend(u[..m], t, vis);
        assert forall k :: 0 <= k < m ==> u[..m][k] == u[k];
        Text.VisibleBlank(u[..m], vis);
      } else {
        CollapseVisible(u, ws, vis);
        assert r[1..] == CollapseWs(u, ws);
      }
    }
  }

  /** The only whitespace in t (by ws) is single spaces. */
  predicate SingleSpaced(t: string, ws: char -> bool)
  {
    && (forall k :: 0 <= k < |t| ==> (ws(t[k]) ==> t[k] == ' '))
    && (forall k :: 0 <= k < |t| - 1 ==> !(t[k] == ' ' && t[k + 1] == ' '))
  }

  lemma SingleSpacedSlice(t: string, i: nat, j: nat, ws: char -> bool)
    requires i <= j <= |t| && SingleSpaced(t, ws)
    ensures SingleSpaced(t[i..j], ws)
  {
    var u := t[i..j];
    assert forall k :: 0 <= k < |u| ==> u[k] == t[i + k];
  }

  /**
   * What a cleaned string looks like: ASCII only, its only whitespace single
   * spaces, and no space at either end.
   */
  predicate Normalised(t: string)
  {
    && (forall k :: 0 <= k < |t| ==> IsAscii(t[k]))
    && SingleSpaced(t, Text.PyIsSpace)
    && (t == [] || (t[0] != ' ' && t[|t| - 1] != ' '))
  }

  /** remove_unicode_characters on a string. */
  function RemoveUnicodeText(s: string): string
  {
    Text.PyStrip(CollapseWs(AsciiOnly(s), Text.PyIsSpace))
  }

  /** Trimming single-spaced text leaves it single-spaced, with no space at either end. */
  lemma TrimSingleSpaced(c: string, ws: char -> bool)
    requires ws(' ') && SingleSpaced(c, ws)
    ensures SingleSpaced(Text.Trim(c, ws), ws)
    ensures Text.Trim(c, ws) == [] || (Text.Trim(c, ws)[0] != ' ' && Text.Trim(c, ws)[|Text.Trim(c, ws)| - 1] != ' ')
  {
    var r := Text.Trim(c, ws);
    var i := Text.LeadLen(c, ws);
    assert i + |r| <= |c| && r == c[i..i + |r|] by {
      Text.TrimInside(c, ws);
    }
    SingleSpacedSlice(c, i, i + |r|, ws);
  }

  lemma TrimAscii(c: string, ws: char -> bool)
    requires forall k :: 0 <= k < |c| ==> IsAscii(c[k])
    ensures forall k :: 0 <= k < |Text.Trim(c, ws)| ==> IsAscii(Text.Trim(c, ws)[k])
  {
    var r := Text.Trim(c, ws);
    var i := Text.LeadLen(c, ws);
    assert i + |r| <= |c| && r == c[i..i + |r|] by {
      Text.TrimInside(c, ws);
    }
    assert forall k :: 0 <= k < |r| ==> r[k] == c[i + k];
  }

  /** The result is normalised and keeps, in order, every visible ASCII character of the input. */
  lemma RemoveUnicodeShape(s: string)
    ensures Normalised(RemoveUnicodeText(s))
    ensures Text.Visible(RemoveUnicodeText(s), Text.PyIsSpace) == Text.Visible(AsciiOnly(s), Text.PyIsSpace)
  {
    var a := AsciiOnly(s);
    var c := CollapseWs(a, Text.PyIsSpace);
    CollapseShape(a, Text.PyIsSpace);
    CollapseVisible(a, Text.PyIsSpace, Text.PyIsSpace);
    assert forall k :: 0 <= k < |c| ==> IsAscii(c[k]);
    TrimSingleSpaced(c, Text.PyIsSpace);
    TrimAscii(c, Text.PyIsSpace);
    Text.VisibleTrim(c, Text.PyIsSpace);
  }

  /** ASCII text whose whitespace is already single inner spaces comes back unchanged. */
  lemma RemoveUnicodeFixed(s: string)
    requires Normalised(s)
    ensures RemoveUnicodeText(s) == s
  {
    assert AsciiOnly(s) == s;
    CollapseFixed(s, Text.PyIsSpace);
    assert s != [] ==> !Text.PyIsSpace(s[0]) && !Text.PyIsSpace(s[|s| - 1]);
    Text.TrimUnchanged(s, Text.PyIsSpace);
  }

  lemma {:induction false} CollapseFixed(s: string, ws: char -> bool)
    requires forall k :: 0 <= k < |s| ==> (ws(s[k]) ==> s[k] == ' ')
    requires forall k :: 0 <= k < |s| - 1 ==> !(s[k] == ' ' && s[k + 1] == ' ')
    ensures CollapseWs(s, ws) == s
    decreases |s|
  {
    if s != [] {
      var u := s[1..];
      assert forall k :: 0 <= k < |u| ==> u[k] == s[k + 1];
      CollapseFixed(u, ws);
      assert s == [s[0]] + u;
      if ws(s[0]) && u != [] {
        assert s[0] == ' ' && u[0] == s[1];
        assert !ws(u[0]);
      }
    }
  }

  /** remove_unicode_characters: anything but a string comes back unchanged. */
  function RemoveUnicodeCharacters(v: Json.Json): (r: Json.Json)
    ensures !v.Str? ==> r == v
    ensures v.Str? ==> r.Str? && Normalised(r.s)
  {
    if v.Str? then
      RemoveUnicodeShape(v.s);
      Json.Str(RemoveUnicodeText(v.s))
    else v
  }

  // ---- traverse_and_clean -----------------------------------------------------------

  const UnwrapTags: set<string> := {"section", "article", "aside", "div", "span"}

  /** is_effectively_empty: every child is a blank string (of any kind) or an effectively empty tag. */
  predicate EffectivelyEmpty(n: Node)
    decreases n
  {
    n.Element? && forall i :: 0 <= i < |n.children| ==>
      match n.children[i]
      case Text(_, s) => Text.AllSpace(s, Text.PyIsSpace)
      case Element(_, _, _) => EffectivelyEmpty(n.children[i])
  }

  type Node = Html.Node

  /**
   * traverse_and_clean on one node, as the nodes it leaves in its parent's
   * place: children first; then attributes dropped; a link becomes its text;
   * a wrapper tag with something left in it is replaced by its contents; an
   * effectively empty tag disappears.
   */
  function Clean(n: Node): (r: seq<Node>)
    ensures n.Text? ==> r == [n]
    ensures n.Element? && n.name == "a" ==> |r| == 1 && r[0].Text? && r[0].kind == Html.Plain
    ensures n.Element? && n.name != "a" && n.name !in UnwrapTags ==>
      |r| <= 1 && forall m :: m in r ==> m.Element? && m.name == n.name && m.attrs == []
    decreases n, 1
  {
    match n
    case Text(_, _) => [n]
    case Element(name, _, _) =>
      var inner := Seqs.Flatten(CleanedParts(n));
      var stripped := Html.Element(name, [], inner);
      if name == "a" then [Html.Text(Html.Plain, Html.GetText(stripped))]
      else if name in UnwrapTags && inner != [] then inner
      else if EffectivelyEmpty(stripped) then []
      else [stripped]
  }

  /** What the recursive calls leave in place of each child of a tag. */
  function CleanedParts(n: Node): (parts: seq<seq<Node>>)
    requires n.Element?
    ensures |parts| == |n.children| && forall i :: 0 <= i < |parts| ==> parts[i] == Clean(n.children[i])
    decreases n, 0
  {
    seq(|n.children|, i requires 0 <= i < |n.children| => Clean(n.children[i]))
  }

  /** A node as traverse_and_clean leaves it, at every depth. */
  predicate Cleaned(n: Node)
    decreases n
  {
    match n
    case Text(_, _) => true
    case Element(name, attrs, cs) =>
      && attrs == [] && name != "a" && name !in UnwrapTags && !EffectivelyEmpty(n)
      && forall i :: 0 <= i < |cs| ==> Cleaned(cs[i])
  }

  /** Everything cleaning leaves behind is clean: no attribute, link, wrapper or empty tag remains anywhere. */
  lemma {:induction false} CleanIsCleaned(n: Node)
    ensures forall m :: m in Clean(n) ==> Cleaned(m)
    decreases n
  {
    if n.Element? {
      var cs := n.children;
      var parts := CleanedParts(n);
      var inner := Seqs.Flatten(parts);
      forall m | m in inner
        ensures Cleaned(m)
      {
        Seqs.FlattenMember(parts, m);
        var i :| 0 <= i < |parts| && m in parts[i];
        CleanIsCleaned(cs[i]);
      }
      var stripped := Html.Element(n.name, [], inner);
      if n.name != "a" && !(n.name in UnwrapTags && inner != []) && !EffectivelyEmpty(stripped) {
        assert n.name in UnwrapTags ==> EffectivelyEmpty(stripped);
        assert forall i :: 0 <= i < |inner| ==> inner[i] in inner;
        assert Cleaned(stripped);
      }
    }
  }

  /** Cleaning never introduces a tag name: any tag with one of these names in the result was in the input. */
  lemma {:induction false} CleanAddsNoTag(n: Node, names: set<string>)
    requires !Html.Contains(n, names)
    ensures forall m :: m in Clean(n) ==> !Html.Contains(m, names)
    decreases n
  {
    if n.Element? {
      var cs := n.children;
      var parts := CleanedParts(n);
      var inner := Seqs.Flatten(parts);
      forall m | m in inner
        ensures !Html.Contains(m, names)
      {
        Seqs.FlattenMember(parts, m);
        var i :| 0 <= i < |parts| && m in parts[i];
        CleanAddsNoTag(cs[i], names);
      }
      assert forall i :: 0 <= i < |inner| ==> inner[i] in inner;
    }
  }

  // ---- what cleaning keeps ----------------------------------------------------------

  /** Strings whose visible characters agree pairwise concatenate to strings whose visible characters agree. */
  lemma {:induction false} VisibleConcat(xs: seq<string>, ys: seq<string>)
    requires |xs| == |ys|
    requires forall i :: 0 <= i < |xs| ==> Text.Visible(xs[i], Text.PyIsSpace) == Text.Visible(ys[i], Text.PyIsSpace)
    ensures Text.Visible(Html.Concat(xs), Text.PyIsSpace) == Text.Visible(Html.Concat(ys), Text.PyIsSpace)
    decreases |xs|
  {
    if xs != [] {
      var n := |xs| - 1;
      VisibleConcat(xs[..n], ys[..n]);
      Text.VisibleAppend(Html.Concat(xs[..n]), xs[n], Text.PyIsSpace);
      Text.VisibleAppend(Html.Concat(ys[..n]), ys[n], Text.PyIsSpace);
    }
  }

  lemma {:induction false} VisibleTextOfBlank(nodes: seq<Node>)
    requires forall i :: 0 <= i < |nodes| ==> Text.Visible(Html.GetText(nodes[i]), Text.PyIsSpace) == []
    ensures Text.Visible(Html.TextOf(nodes), Text.PyIsSpace) == []
    decreases |nodes|
  {
    if nodes != [] {
      var n := |nodes| - 1;
      VisibleTextOfBlank(nodes[..n]);
      Text.VisibleAppend(Html.TextOf(nodes[..n]), Html.GetText(nodes[n]), Text.PyIsSpace);
    }
  }

  /** An effectively empty tag holds no visible text. */
  lemma {:induction false} EmptyInvisible(n: Node)
    requires EffectivelyEmpty(n)
    ensures Text.Visible(Html.GetText(n), Text.PyIsSpace) == []
    decreases n
  {
    var cs := n.children;
    forall i | 0 <= i < |cs|
      ensures Text.Visible(Html.GetText(cs[i]), Text.PyIsSpace) == []
    {
      match cs[i]
      case Text(_, s) =>
        Text.VisibleBlank(s, Text.PyIsSpace);
      case Element(_, _, _) =>
        EmptyInvisible(cs[i]);
    }
    VisibleTextOfBlank(cs);
    Html.GetTextChildren(n);
  }

  /** The cleaned children of a tag read the same as the children did, up to whitespace. */
  lemma {:induction false} CleanChildrenKeepText(n: Node)
    requires n.Element?
    ensures Text.Visible(Html.TextOf(Seqs.Flatten(CleanedParts(n))), Text.PyIsSpace) == Text.Visible(Html.GetText(n), Text.PyIsSpace)
    decreases n, 0
  {
    var cs := n.children;
    var parts := CleanedParts(n);
    var xs := seq(|parts|, i requires 0 <= i < |parts| => Html.TextOf(parts[i]));
    var ys := seq(|cs|, i requires 0 <= i < |cs| => Html.GetText(cs[i]));
    forall i | 0 <= i < |cs|
      ensures Text.Visible(xs[i], Text.PyIsSpace) == Text.Visible(ys[i], Text.PyIsSpace)
    {
      CleanKeepsText(cs[i]);
    }
    Html.TextOfFlatten(parts);
    VisibleConcat(xs, ys);
  }

  /**
   * Cleaning loses no visible text: what get_text() would read from the
   * nodes left in a node's place is what it read from the node, up to
   * whitespace (only blank text inside removed empty tags disappears).
   */
  lemma {:induction false} CleanKeepsText(n: Node)
    ensures Text.Visible(Html.TextOf(Clean(n)), Text.PyIsSpace) == Text.Visible(Html.GetText(n), Text.PyIsSpace)
    decreases n, 1
  {
    match n
    case Text(_, _) =>
      Html.TextOfOne(n);
    case Element(name, _, cs) =>
      var inner := Seqs.Flatten(CleanedParts(n));
      var stripped := Html.Element(name, [], inner);
      CleanChildrenKeepText(n);
      Html.GetTextChildren(stripped);
      var r := Clean(n);
      if name == "a" {
        var t := Html.Text(Html.Plain, Html.GetText(stripped));
        assert r == [t];
        Html.TextOfOne(t);
        assert Html.GetText(t) == Html.GetText(stripped);
      } else if name in UnwrapTags && inner != [] {
        assert r == inner;
      } else if EffectivelyEmpty(stripped) {
        assert r == [];
        EmptyInvisible(stripped);
      } else {
        assert r == [stripped];
        Html.TextOfOne(stripped);
      }
  }

  // ---- the regular expressions of remove_html_tags ----------------------------------

  /** No line between two newlines of s is blank (by ws). */
  predicate NoBlankLine(s: string, ws: char -> bool)
  {
    forall i, j :: 0 <= i < j < |s| && s[i] == '\n' && s[j] == '\n' ==> !Text.AllSpace(s[i + 1..j], ws)
  }

  /** Something other than whitespace comes before the first newline of s, if it has one. */
  predicate NoNewlineLead(s: string, ws: char -> bool)
  {
    forall j :: 0 <= j < |s| && s[j] == '\n' ==> !Text.AllSpace(s[..j], ws)
  }

  /** How the two properties pass to a string with one more character in front. */
  lemma ConsLines(c: char, u: string, ws: char -> bool)
    requires ws('\n')
    requires NoBlankLine(u, ws)
    requires c == '\n' ==> NoNewlineLead(u, ws)
    ensures NoBlankLine([c] + u, ws)
    ensures !ws(c) || (c != '\n' && NoNewlineLead(u, ws)) ==> NoNewlineLead([c] + u, ws)
  {
    var r := [c] + u;
    forall i, j | 0 <= i < j < |r| && r[i] == '\n' && r[j] == '\n'
      ensures !Text.AllSpace(r[i + 1..j], ws)
    {
      assert r[j] == u[j - 1];
      if i == 0 {
        assert r[1..j] == u[..j - 1];
      } else {
        assert r[i] == u[i - 1];
        assert r[i + 1..j] == u[i..j - 1];
      }
    }
    if !ws(c) || (c != '\n' && NoNewlineLead(u, ws)) {
      forall j | 0 <= j < |r| && r[j] == '\n'
        ensures !Text.AllSpace(r[..j], ws)
      {
        assert j > 0;
        if ws(c) {
          assert u[j - 1] == '\n';
          assert !Text.AllSpace(u[..j - 1], ws);
          var k :| 0 <= k < j - 1 && !ws(u[..j - 1][k]);
          assert r[..j][k + 1] == u[..j - 1][k];
        } else {
          assert r[..j][0] == c;
        }
      }
    }
  }

  /** A suffix keeps both properties, the second when only whitespace is cut off. */
  lemma SuffixLines(t: string, m: nat, ws: char -> bool)
    requires m <= |t|
    ensures NoBlankLine(t, ws) ==> NoBlankLine(t[m..], ws)
    ensures NoNewlineLead(t, ws) && Text.AllSpace(t[..m], ws) ==> NoNewlineLead(t[m..], ws)
  {
    var u := t[m..];
    if NoBlankLine(t, ws) {
      forall i, j | 0 <= i < j < |u| && u[i] == '\n' && u[j] == '\n'
        ensures !Text.AllSpace(u[i + 1..j], ws)
      {
        assert u[i] == t[m + i] && u[j] == t[m + j];
        assert u[i + 1..j] == t[m + i + 1..m + j];
      }
    }
    if NoNewlineLead(t, ws) && Text.AllSpace(t[..m], ws) {
      forall j | 0 <= j < |u| && u[j] == '\n'
        ensures !Text.AllSpace(u[..j], ws)
      {
        assert t[m + j] == '\n';
        assert forall x :: 0 <= x < m ==> t[..m][x] == t[x];
        assert !Text.AllSpace(t[..m + j], ws);
        var k :| 0 <= k < m + j && !ws(t[..m + j][k]);
        assert t[..m + j][k] == t[k];
        assert u[..j][k - m] == t[k];
      }
    }
  }

  /** A slice keeps the first property. */
  lemma SliceNoBlankLine(t: string, a: nat, b: nat, u: string, ws: char -> bool)
    requires a <= b <= |t| && u == t[a..b] && NoBlankLine(t, ws)
    ensures NoBlankLine(u, ws)
  {
    forall i, j | 0 <= i < j < |u| && u[i] == '\n' && u[j] == '\n'
      ensures !Text.AllSpace(u[i + 1..j], ws)
    {
      assert u[i] == t[a + i] && u[j] == t[a + j];
      var w := t[a + i + 1..a + j];
      assert !Text.AllSpace(w, ws);
      var k :| 0 <= k < |w| && !ws(w[k]);
      assert u[i + 1..j][k] == w[k];
    }
  }

  /** The position of the last newline in s, if any. */
  function LastNewline(s: string): (r: Option<nat>)
    ensures r.Some? ==> r.value < |s| && s[r.value] == '\n' && forall k :: r.value < k < |s| ==> s[k] != '\n'
    ensures r.None? ==> forall k :: 0 <= k < |s| ==> s[k] != '\n'
    decreases |s|
  {
    if s == [] then None
    else if s[|s| - 1] == '\n' then Some(|s| - 1)
    else LastNewline(s[..|s| - 1])
  }

  /** Where scanning resumes after the newline at the front of t: past the last newline of the whitespace run after it. */
  function AfterBlank(rest: string, ws: char -> bool): (next: string)
    ensures |next| <= |rest|
  {
    match LastNewline(rest[..Text.LeadLen(rest, ws)])
    case Some(p) => rest[p + 1..]
    case None => rest
  }

  /**
   * re.sub(r'\n\s*\n', '\n', t) with ws for \s: at a newline, the greedy
   * \s* backs off to the last newline of the whitespace run that follows,
   * and all of it becomes the one newline; scanning resumes after it.
   */
  function BlankLines(t: string, ws: char -> bool): (r: string)
    ensures |r| <= |t|
    decreases |t|
  {
    if t == [] then []
    else if t[0] == '\n' then "\n" + BlankLines(AfterBlank(t[1..], ws), ws)
    else [t[0]] + BlankLines(t[1..], ws)
  }

  /** What follows a replaced blank run has no newline before its first visible character. */
  lemma AfterBlankLead(rest: string, ws: char -> bool)
    requires ws('\n')
    ensures NoNewlineLead(AfterBlank(rest, ws), ws)
  {
    var n := Text.LeadLen(rest, ws);
    var next := AfterBlank(rest, ws);
    var off := |rest| - |next|;
    assert next == rest[off..];
    assert off <= n;
    assert forall x :: 0 <= x < n ==> rest[..n][x] == rest[x];
    assert forall x :: off <= x < n ==> rest[x] != '\n';
    forall j | 0 <= j < |next| && next[j] == '\n'
      ensures !Text.AllSpace(next[..j], ws)
    {
      assert rest[off + j] == '\n';
      assert off + j > n;
      assert next[..j][n - off] == rest[n];
    }
  }

  /** No blank line survives the substitution, and a string without a leading blank line does not get one. */
  lemma {:induction false} BlankLinesShape(t: string, ws: char -> bool)
    requires ws('\n')
    ensures NoBlankLine(BlankLines(t, ws), ws)
    ensures NoNewlineLead(t, ws) ==> NoNewlineLead(BlankLines(t, ws), ws)
    decreases |t|
  {
    if t != [] {
      if t[0] == '\n' {
        var next := AfterBlank(t[1..], ws);
        BlankLinesShape(next, ws);
        AfterBlankLead(t[1..], ws);
        ConsLines('\n', BlankLines(next, ws), ws);
        assert t[..0] == [];
      } else {
        var u := t[1..];
        BlankLinesShape(u, ws);
        if NoNewlineLead(t, ws) && ws(t[0]) {
          assert t[..1] == [t[0]];
          SuffixLines(t, 1, ws);
        }
        ConsLines(t[0], BlankLines(u, ws), ws);
      }
    }
  }

  /** The substitution removes whitespace only. */
  lemma {:induction false} BlankLinesVisible(t: string, ws: char -> bool)
    requires ws('\n')
    ensures Text.Visible(BlankLines(t, ws), ws) == Text.Visible(t, ws)
    decreases |t|
  {
    if t != [] {
      var r := BlankLines(t, ws);
      if t[0] == '\n' {
        var next := AfterBlank(t[1..], ws);
        BlankLinesVisible(next, ws);
        AfterBlankVisible(t[1..], ws);
        assert r[1..] == BlankLines(next, ws);
      } else {
        BlankLinesVisible(t[1..], ws);
        assert r[1..] == BlankLines(t[1..], ws);
      }
    }
  }

  /** What a replaced run drops is whitespace. */
  lemma AfterBlankVisible(rest: string, ws: char -> bool)
    ensures Text.Visible(AfterBlank(rest, ws), ws) == Text.Visible(rest, ws)
  {
    var next := AfterBlank(rest, ws);
    var off := |rest| - |next|;
    assert next == rest[off..];
    assert off <= Text.LeadLen(rest, ws);
    var p := rest[..off];
    assert rest == p + next;
    assert forall k :: 0 <= k < off ==> p[k] == rest[k];
    Text.VisibleAppend(p, next, ws);
    Text.VisibleBlank(p, ws);
  }

  predicate IsSpaceOrTab(c: char)
  {
    c == ' ' || c == '\t'
  }

  /** re.sub(r'[ \t]+', ' ', t): the same collapse as above, over spaces and tabs. */
  function SpaceTabs(t: string): string
  {
    CollapseWs(t, IsSpaceOrTab)
  }

  /** Collapsing runs of characters other than newlines keeps both line properties. */
  lemma {:induction false} CollapseLines(t: string, ws: char -> bool, vis: char -> bool)
    requires vis('\n') && vis(' ')
    requires forall c :: ws(c) ==> vis(c) && c != '\n'
    ensures NoBlankLine(t, vis) ==> NoBlankLine(CollapseWs(t, ws), vis)
    ensures NoBlankLine(t, vis) && NoNewlineLead(t, vis) ==> NoNewlineLead(CollapseWs(t, ws), vis)
    decreases |t|
  {
    if t != [] && NoBlankLine(t, vis) {
      var u := t[1..];
      var m := if ws(t[0]) then 1 + Text.LeadLen(u, ws) else 1;
      var next := t[m..];
      assert ws(t[0]) ==> next == Text.TrimStart(u, ws);
      assert CollapseWs(t, ws) == [if ws(t[0]) then ' ' else t[0]] + CollapseWs(next, ws);
      SuffixLines(t, m, vis);
      if t[0] == '\n' {
        forall j | 0 <= j < |next| && next[j] == '\n'
          ensures !Text.AllSpace(next[..j], vis)
        {
          assert t[0] == '\n' && t[j + 1] == '\n';
          assert t[1..j + 1] == next[..j];
        }
      }
      if NoNewlineLead(t, vis) && (ws(t[0]) || vis(t[0])) {
        assert forall k :: 0 <= k < m ==> t[..m][k] == t[k];
        forall k | 0 <= k < m
          ensures vis(t[k])
        {
          if k > 0 {
            assert u[k - 1] == t[k];
          }
        }
      }
      CollapseLines(next, ws, vis);
      ConsLines(if ws(t[0]) then ' ' else t[0], CollapseWs(next, ws), vis);
    }
  }

  /** A string where the three substitutions and strip() have left nothing to do (ws standing for \s). */
  predicate TidyBy(t: string, ws: char -> bool)
  {
    && (forall k :: 0 <= k < |t| ==> t[k] != '\t')
    && (forall k :: 0 <= k < |t| - 1 ==> !(t[k] == ' ' && t[k + 1] == ' '))
    && NoBlankLine(t, ws)
    && (t == [] || (!ws(t[0]) && !ws(t[|t| - 1])))
  }

  predicate Tidy(t: string)
  {
    TidyBy(t, Text.PyIsSpace)
  }

  /** The end of remove_html_tags: blank lines, then runs of spaces and tabs, then strip(). */
  function Tidied(html: string): string
  {
    Text.PyStrip(SpaceTabs(BlankLines(html, Text.PyIsSpace)))
  }

  /** The tidied text is tidy and reads as the serialised tree did, up to whitespace. */
  lemma TidiedShape(html: string)
    ensures Tidy(Tidied(html))
    ensures Text.Visible(Tidied(html), Text.PyIsSpace) == Text.Visible(html, Text.PyIsSpace)
  {
    var b := BlankLines(html, Text.PyIsSpace);
    BlankLinesShape(html, Text.PyIsSpace);
    BlankLinesVisible(html, Text.PyIsSpace);
    var c := SpaceTabs(b);
    CollapseShape(b, IsSpaceOrTab);
    CollapseLines(b, IsSpaceOrTab, Text.PyIsSpace);
    CollapseVisible(b, IsSpaceOrTab, Text.PyIsSpace);
    TrimKeepsTidy(c, Text.PyIsSpace);
    Text.VisibleTrim(c, Text.PyIsSpace);
  }

  lemma TrimKeepsTidy(c: string, ws: char -> bool)
    requires forall k :: 0 <= k < |c| ==> c[k] != '\t'
    requires forall k :: 0 <= k < |c| - 1 ==> !(c[k] == ' ' && c[k + 1] == ' ')
    requires NoBlankLine(c, ws)
    ensures TidyBy(Text.Trim(c, ws), ws)
  {
    TrimKeepsSpacing(c, ws);
    TrimKeepsLines(c, ws);
  }

  lemma TrimKeepsSpacing(c: string, ws: char -> bool)
    requires forall k :: 0 <= k < |c| ==> c[k] != '\t'
    requires forall k :: 0 <= k < |c| - 1 ==> !(c[k] == ' ' && c[k + 1] == ' ')
    ensures var r := Text.Trim(c, ws);
      && (forall k :: 0 <= k < |r| ==> r[k] != '\t')
      && (forall k :: 0 <= k < |r| - 1 ==> !(r[k] == ' ' && r[k + 1] == ' '))
  {
    var r := Text.Trim(c, ws);
    var i := Text.LeadLen(c, ws);
    assert i + |r| <= |c| && r == c[i..i + |r|] by {
      Text.TrimInside(c, ws);
    }
    forall k | 0 <= k < |r|
      ensures r[k] != '\t'
    {
      assert r[k] == c[i + k];
    }
    forall k | 0 <= k < |r| - 1
      ensures !(r[k] == ' ' && r[k + 1] == ' ')
    {
      assert r[k] == c[i + k] && r[k + 1] == c[i + k + 1];
    }
  }

  lemma TrimKeepsLines(c: string, ws: char -> bool)
    requires NoBlankLine(c, ws)
    ensures NoBlankLine(Text.Trim(c, ws), ws)
  {
    Text.TrimInside(c, ws);
    var r := Text.Trim(c, ws);
    var i := Text.LeadLen(c, ws);
    SliceNoBlankLine(c, i, i + |r|, r, ws);
  }

  /** Text with no whitespace at all is tidy. */
  lemma TidyWithoutSpace(t: string)
    requires forall k :: 0 <= k < |t| ==> !Text.PyIsSpace(t[k])
    ensures Tidy(t)
  {
  }

  const Dropped: set<string> := {"script", "style"}

  /**
   * The soup once its script and style tags are decomposed and
   * traverse_and_clean has run on it. When the whole document is
   * effectively empty it is decomposed as well; the empty document stands
   * for what str() then gives.
   */
  function CleanSoup(children: seq<Node>): (d: Node)
    ensures d.Element? && d.name == Html.DocumentName && d.attrs == []
  {
    var r := Clean(Html.Decompose(Html.Document(children), Dropped));
    if r == [] then Html.Document([]) else r[0]
  }

  /** The cleaned soup holds no script or style, and every node in it is clean. */
  lemma CleanSoupClean(children: seq<Node>)
    ensures var d := CleanSoup(children);
      forall i :: 0 <= i < |d.children| ==> Cleaned(d.children[i]) && !Html.Contains(d.children[i], Dropped)
  {
    var soup := Html.Decompose(Html.Document(children), Dropped);
    var r := Clean(soup);
    if r != [] {
      var d := r[0];
      assert d in r;
      CleanIsCleaned(soup);
      Html.DecomposeRemoves(Html.Document(children), Dropped);
      assert !Html.Contains(soup, Dropped);
      CleanAddsNoTag(soup, Dropped);
      assert Cleaned(d) && !Html.Contains(d, Dropped);
    }
  }

  /** The cleaned soup reads as the parsed document without its scripts and styles, up to whitespace. */
  lemma CleanSoupText(children: seq<Node>)
    ensures Text.Visible(Html.GetText(CleanSoup(children)), Text.PyIsSpace)
      == Text.Visible(Html.GetText(Html.Decompose(Html.Document(children), Dropped)), Text.PyIsSpace)
  {
    var soup := Html.Decompose(Html.Document(children), Dropped);
    var r := Clean(soup);
    CleanKeepsText(soup);
    if r == [] {
      assert Html.GetText(Html.Document([])) == "";
    } else {
      assert r == [r[0]];
      Html.TextOfOne(r[0]);
    }
  }

  /** remove_html_tags on a string; parse gives the top-level nodes, render is str() of the soup. */
  function RemoveHtmlTagsText(s: string, parse: string -> seq<Node>, render: Node -> string): string
  {
    Tidied(render(CleanSoup(parse(s))))
  }

  /** remove_html_tags: anything but a string comes back unchanged; a string comes back tidy. */
  function RemoveHtmlTags(v: Json.Json, parse: string -> seq<Node>, render: Node -> string): (r: Json.Json)
    ensures !v.Str? ==> r == v
    ensures v.Str? ==> (r.Str? && Tidy(r.s)
      && Text.Visible(r.s, Text.PyIsSpace) == Text.Visible(render(CleanSoup(parse(v.s))), Text.PyIsSpace))
  {
    if v.Str? then
      TidiedShape(render(CleanSoup(parse(v.s))));
      Json.Str(RemoveHtmlTagsText(v.s, parse, render))
    else v
  }

  /** clean_json_html on one scalar: a string loses its non-ASCII characters and then its markup; any other scalar becomes its JSON text. */
  function CleanLeaf(v: Json.Json, parse: string -> seq<Node>, render: Node -> string): (r: Json.Json)
    ensures Json.IsScalar(v) ==> r.Str? && Tidy(r.s)
    ensures v.Str? ==> r == RemoveHtmlTags(RemoveUnicodeCharacters(v), parse, render)
  {
    match v
    case Str(s) => RemoveHtmlTags(RemoveUnicodeCharacters(v), parse, render)
    case Null => DumpTidy(v); Json.Str(Json.PyDumpsScalar(v))
    case Bool(_) => DumpTidy(v); Json.Str(Json.PyDumpsScalar(v))
    case Num(_) => DumpTidy(v); Json.Str(Json.PyDumpsScalar(v))
    case _ => v
  }

  lemma DumpTidy(v: Json.Json)
    requires v.Null? || v.Bool? || v.Num?
    ensures Tidy(Json.PyDumpsScalar(v))
  {
    TidyWithoutSpace(Json.PyDumpsScalar(v));
  }

  predicate TidyString(x: Json.Json)
  {
    x.Str? && Tidy(x.s)
  }

  /** CleanLeaf with the parser and the serialiser fixed, as clean_json_html applies it to every leaf. */
  function Cleaner(parse: string -> seq<Node>, render: Node -> string): Json.Json -> Json.Json
  {
    v => CleanLeaf(v, parse, render)
  }

  /**
   * clean_json_html: every dict keeps its keys in order and every list its
   * length, every scalar, at any depth, is rewritten by CleanLeaf, and so
   * every leaf becomes a tidy string.
   */
  function CleanJsonHtml(obj: Json.Json, parse: string -> seq<Node>, render: Node -> string): (r: Json.Json)
    ensures Json.SameShape(obj, r)
    ensures Json.Leafwise(obj, r, Cleaner(parse, render))
    ensures Json.AllLeaves(r, TidyString)
  {
    Json.MapLeavesAll(obj, Cleaner(parse, render), TidyString);
    Json.MapLeavesLeafwise(obj, Cleaner(parse, render));
    Json.MapLeaves(obj, Cleaner(parse, render))
  }
}

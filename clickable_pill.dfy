/**
 * ClickableSimplePill: a tag pill that, given a category, links to the home
 * page filtered by that tag: '/?' followed by the single parameter
 * filter_<category>=<text>, form-urlencoded.
 */
module ClickablePill {
  import opened Wrappers
  import UrlParams
  import SearchPage

  datatype Pill =
    | PlainPill(text: string)
    | LinkPill(text: string, href: string, title: string)

  /** The link of a pill: a fresh parameter list with filter_<category> set to the text. */
  function FilterHref(category: string, text: string): string
  {
    "/?" + UrlParams.Serialize(UrlParams.Set([], SearchPage.FilterPrefix + category, text))
  }

  /** A missing or empty category gives a plain pill; otherwise a link titled 'Filter by <text>'. */
  function Render(text: string, category: Option<string>): (p: Pill)
    ensures p.text == text
    ensures p.PlainPill? <==> category.None? || category.value == ""
    ensures p.LinkPill? ==> p.title == "Filter by " + text
    ensures p.LinkPill? ==> p.href == "/?" + UrlParams.Serialize([(SearchPage.FilterPrefix + category.value, text)])
  {
    if category.None? || category.value == "" then PlainPill(text)
    else LinkPill(text, FilterHref(category.value, text), "Filter by " + text)
  }

  /** Following a pill's link filters by its category, with the text's non-blank comma-separated pieces. */
  lemma LinkFilters(text: string, category: string)
    requires category != ""
    ensures var href := Render(text, Some(category)).href;
      |href| >= 2 && href[..2] == "/?"
      && SearchPage.FiltersOf(UrlParams.Parse(href[2..])) == [(category, SearchPage.ValuesOf(text))]
  {
    var href := Render(text, Some(category)).href;
    var pairs := [(SearchPage.FilterPrefix + category, text)];
    assert href[2..] == UrlParams.Serialize(pairs);
    UrlParams.ParseSerialize(pairs);
    SearchPage.PrefixedName(category);
    assert pairs[..0] == [];
  }

  predicate Unreserved(s: string)
  {
    forall k :: 0 <= k < |s| ==> UrlParams.UnreservedChar(s[k])
  }

  lemma PrefixUnreserved(category: string)
    requires Unreserved(category)
    ensures UrlParams.EncodeComponent(SearchPage.FilterPrefix + category) == SearchPage.FilterPrefix + category
  {
    UrlParams.EncodeUnreserved(SearchPage.FilterPrefix + category);
  }

  /** The href of a linked pill, written out for a name and a value. */
  lemma HrefOf(category: string, text: string)
    requires category != ""
    ensures Render(text, Some(category)).href ==
      "/?" + UrlParams.EncodeComponent(SearchPage.FilterPrefix + category) + "=" + UrlParams.EncodeComponent(text)
  {
    UrlParams.SerializeOne(SearchPage.FilterPrefix + category, text);
  }

  /** A space in the text is written as '+': "Test Pill" links to ...=Test+Pill. */
  lemma SpaceAsPlus(category: string, a: string, b: string)
    requires category != "" && Unreserved(category) && Unreserved(a) && Unreserved(b)
    ensures Render(a + " " + b, Some(category)).href == "/?" + (SearchPage.FilterPrefix + category) + "=" + (a + "+" + b)
  {
    HrefOf(category, a + " " + b);
    PrefixUnreserved(category);
    UrlParams.EncodeComponentAppend(a + " ", b);
    UrlParams.EncodeComponentAppend(a, " ");
    UrlParams.EncodeSpace();
    UrlParams.EncodeUnreserved(a);
    UrlParams.EncodeUnreserved(b);
    var value := a + " " + b;
    assert UrlParams.EncodeComponent(value) == a + "+" + b;
  }

  /** An '&' in the text is escaped, so it cannot start a second parameter. */
  lemma AmpersandEscaped(category: string, a: string, b: string)
    requires category != "" && Unreserved(category) && Unreserved(a) && Unreserved(b)
    ensures Render(a + "&" + b, Some(category)).href == "/?" + (SearchPage.FilterPrefix + category) + "=" + (a + "%26" + b)
  {
    HrefOf(category, a + "&" + b);
    PrefixUnreserved(category);
    UrlParams.EncodeComponentAppend(a + "&", b);
    UrlParams.EncodeComponentAppend(a, "&");
    UrlParams.EncodeAmpersand();
    UrlParams.EncodeUnreserved(a);
    UrlParams.EncodeUnreserved(b);
    var value := a + "&" + b;
    assert UrlParams.EncodeComponent(value) == a + "%26" + b;
  }
}

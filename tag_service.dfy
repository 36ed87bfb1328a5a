/**
 * tagService.fetchTagsByCategory: the tag list of the backend grouped into
 * filter sections, one per category in order of first appearance, each
 * listing its tags in response order; formatCategoryName gives the section
 * title. The HTTP call is an oracle whose outcome is a parameter.
 */
module TagService {
  import opened Wrappers
  import Text

  datatype Tag = Tag(id: int, name: string, category: string)

  /** One entry of the insertion-ordered Map from category to its tags. */
  datatype Group = Group(category: string, tags: seq<Tag>)

  datatype FilterOption = FilterOption(text: string, value: string)

  datatype TagCategory = TagCategory(id: string, name: string, options: seq<FilterOption>)

  /** What fetch resolved to: the status, and the body as parsed by response.json() (Err when that rejects). */
  datatype Response = Response(ok: bool, status: int, body: Result<seq<Tag>, string>)

  // ---- reference definitions ------------------------------------------------------

  /** The tags of one category, in response order. */
  function OfCategory(tags: seq<Tag>, c: string): (r: seq<Tag>)
    ensures |r| <= |tags|
    ensures forall t :: t in r ==> t in tags && t.category == c
    decreases |tags|
  {
    if tags == [] then []
    else
      var init := tags[..|tags| - 1];
      var t := tags[|tags| - 1];
      assert tags == init + [t];
      OfCategory(init, c) + (if t.category == c then [t] else [])
  }

  /** The categories in order of first appearance. */
  function FirstSeen(tags: seq<Tag>): (r: seq<string>)
    ensures forall c :: c in r <==> exists t :: t in tags && t.category == c
    decreases |tags|
  {
    if tags == [] then []
    else
      var init := tags[..|tags| - 1];
      var t := tags[|tags| - 1];
      assert tags == init + [t];
      var seen := FirstSeen(init);
      if t.category in seen then seen else seen + [t.category]
  }

  predicate DistinctCategories(s: seq<string>)
  {
    forall i, j :: 0 <= i < j < |s| ==> s[i] != s[j]
  }

  // ---- the grouping loop ----------------------------------------------------------

  /** The position of the group for category c, if the Map has it. */
  function IndexOf(groups: seq<Group>, c: string): (r: Option<nat>)
    ensures r.None? <==> forall k :: 0 <= k < |groups| ==> groups[k].category != c
    ensures r.Some? ==> (r.value < |groups| && groups[r.value].category == c
      && forall k :: 0 <= k < r.value ==> groups[k].category != c)
    decreases |groups|
  {
    if groups == [] then None
    else if groups[0].category == c then Some(0)
    else match IndexOf(groups[1..], c)
      case None => None
      case Some(i) => Some(i + 1)
  }

  /** One step of the forEach: push the tag onto its category's list, creating the list on first sight. */
  function AddTag(groups: seq<Group>, t: Tag): (r: seq<Group>)
  {
    match IndexOf(groups, t.category)
    case Some(i) => groups[i := Group(t.category, groups[i].tags + [t])]
    case None => groups + [Group(t.category, [t])]
  }

  function Grouped(tags: seq<Tag>): seq<Group>
    decreases |tags|
  {
    if tags == [] then [] else AddTag(Grouped(tags[..|tags| - 1]), tags[|tags| - 1])
  }

  /** The conversion of one Map entry into a filter section; text and value are both the tag name. */
  function Section(g: Group): (r: TagCategory)
    ensures r.id == g.category && r.name == FormatCategoryName(g.category)
    ensures |r.options| == |g.tags|
      && forall k :: 0 <= k < |g.tags| ==> r.options[k] == FilterOption(g.tags[k].name, g.tags[k].name)
  {
    TagCategory(g.category, FormatCategoryName(g.category),
      seq(|g.tags|, k requires 0 <= k < |g.tags| => FilterOption(g.tags[k].name, g.tags[k].name)))
  }

  /**
   * Section titles: five fixed labels, otherwise the name with its first
   * letter upper-cased. (The lookup on an object literal also finds inherited
   * Object.prototype members such as "constructor"; that is not modelled.)
   */
  function FormatCategoryName(category: string): (r: string)
    ensures category == "conditions" ==> r == "Medical Conditions"
    ensures category == "substances" ==> r == "Active Substances"
    ensures category == "indications" ==> r == "Indications"
    ensures category == "strengths_concentrations" ==> r == "Strengths & Concentrations"
    ensures category == "populations" ==> r == "Target Populations"
    ensures category !in {"conditions", "substances", "indications", "strengths_concentrations", "populations"} ==>
      |r| == |category| && (category != [] ==> r[0] == Text.AsciiUpper(category[0]) && r[1..] == category[1..])
  {
    if category == "conditions" then "Medical Conditions"
    else if category == "substances" then "Active Substances"
    else if category == "indications" then "Indications"
    else if category == "strengths_concentrations" then "Strengths & Concentrations"
    else if category == "populations" then "Target Populations"
    else if category == [] then []
    else [Text.AsciiUpper(category[0])] + category[1..]
  }

  /** The result of fetchTagsByCategory: a failed fetch, a non-OK status or a failed body read is an error. */
  function Categories(response: Result<Response, string>): Result<seq<TagCategory>, string>
  {
    match response
    case Err(e) => Err(e)
    case Ok(resp) =>
      if !resp.ok then Err("HTTP error! status: " + Text.IntToString(resp.status))
      else match resp.body
        case Err(e) => Err(e)
        case Ok(tags) =>
          var groups := Grouped(tags);
          Ok(seq(|groups|, k requires 0 <= k < |groups| => Section(groups[k])))
  }

  /** fetchTagsByCategory: group with one loop, then convert with a second. */
  method FetchTagsByCategory(response: Result<Response, string>) returns (r: Result<seq<TagCategory>, string>)
    ensures r == Categories(response)
  {
    if response.Err? {
      return Err(response.error);
    }
    var resp := response.value;
    if !resp.ok {
      return Err("HTTP error! status: " + Text.IntToString(resp.status));
    }
    if resp.body.Err? {
      return Err(resp.body.error);
    }
    var tags := resp.body.value;
    var groups: seq<Group> := [];
    var i := 0;
    while i < |tags|
      invariant 0 <= i <= |tags|
      invariant groups == Grouped(tags[..i])
    {
      assert tags[..i + 1][..i] == tags[..i];
      groups := AddTag(groups, tags[i]);
      i := i + 1;
    }
    assert tags[..|tags|] == tags;
    var categories: seq<TagCategory> := [];
    var j := 0;
    while j < |groups|
      invariant 0 <= j <= |groups|
      invariant |categories| == j
      invariant forall k :: 0 <= k < j ==> categories[k] == Section(groups[k])
    {
      categories := categories + [Section(groups[j])];
      j := j + 1;
    }
    assert categories == seq(|groups|, k requires 0 <= k < |groups| => Section(groups[k]));
    r := Ok(categories);
  }

  // ---- what the grouping computes -------------------------------------------------

  lemma {:induction false} FirstSeenDistinct(tags: seq<Tag>)
    ensures DistinctCategories(FirstSeen(tags))
    decreases |tags|
  {
    if tags != [] {
      FirstSeenDistinct(tags[..|tags| - 1]);
    }
  }

  lemma {:induction false} OfUnseen(tags: seq<Tag>, c: string)
    requires c !in FirstSeen(tags)
    ensures OfCategory(tags, c) == []
    decreases |tags|
  {
    if tags != [] {
      var init := tags[..|tags| - 1];
      var t := tags[|tags| - 1];
      assert tags == init + [t];
      assert t in tags;
      assert t.category != c;
      assert c !in FirstSeen(init) by {
        assert forall x :: x in init ==> x in tags;
      }
      OfUnseen(init, c);
    }
  }

  /**
   * The groups are exactly the categories in order of first appearance, each
   * holding all and only the tags of that category, in response order.
   */
  lemma {:induction false} GroupedIsOfCategory(tags: seq<Tag>)
    ensures |Grouped(tags)| == |FirstSeen(tags)|
    ensures forall i :: 0 <= i < |Grouped(tags)| ==>
      Grouped(tags)[i] == Group(FirstSeen(tags)[i], OfCategory(tags, FirstSeen(tags)[i]))
    decreases |tags|
  {
    if tags != [] {
      var init := tags[..|tags| - 1];
      var t := tags[|tags| - 1];
      assert tags == init + [t];
      GroupedIsOfCategory(init);
      if IndexOf(Grouped(init), t.category).Some? {
        GroupedSeenCategory(init, t);
      } else {
        GroupedNewCategory(init, t);
      }
    }
  }

  /** The grouping of tags, category by category, as the lemma above states it. */
  predicate GroupsAre(tags: seq<Tag>)
  {
    |Grouped(tags)| == |FirstSeen(tags)|
    && forall i :: 0 <= i < |Grouped(tags)| ==>
      Grouped(tags)[i] == Group(FirstSeen(tags)[i], OfCategory(tags, FirstSeen(tags)[i]))
  }

  /** A tag of a category already seen joins that category's group. */
  lemma GroupedSeenCategory(init: seq<Tag>, t: Tag)
    requires GroupsAre(init) && IndexOf(Grouped(init), t.category).Some?
    ensures GroupsAre(init + [t])
  {
    var tags := init + [t];
    assert tags[..|tags| - 1] == init && tags[|tags| - 1] == t;
    FirstSeenDistinct(init);
    var g := Grouped(init);
    var seen := FirstSeen(init);
    var i := IndexOf(g, t.category).value;
    assert Grouped(tags) == AddTag(g, t);
    assert t.category in seen by { assert seen[i] == t.category; }
    assert FirstSeen(tags) == seen;
    forall k | 0 <= k < |g|
      ensures Grouped(tags)[k] == Group(seen[k], OfCategory(tags, seen[k]))
    {
      if k == i {
        assert OfCategory(tags, seen[k]) == OfCategory(init, seen[k]) + [t];
      } else {
        assert seen[k] != t.category by { assert seen[i] == t.category; }
        assert OfCategory(tags, seen[k]) == OfCategory(init, seen[k]) + [];
      }
    }
  }

  /** A tag of a new category opens a group of its own at the end. */
  lemma GroupedNewCategory(init: seq<Tag>, t: Tag)
    requires GroupsAre(init) && IndexOf(Grouped(init), t.category).None?
    ensures GroupsAre(init + [t])
  {
    var tags := init + [t];
    assert tags[..|tags| - 1] == init && tags[|tags| - 1] == t;
    var g := Grouped(init);
    var seen := FirstSeen(init);
    assert Grouped(tags) == AddTag(g, t);
    forall k | 0 <= k < |seen|
      ensures seen[k] != t.category
    {
      assert g[k].category == seen[k];
    }
    assert t.category !in seen;
    var gt, st := Grouped(tags), FirstSeen(tags);
    assert gt == g + [Group(t.category, [t])];
    assert st == seen + [t.category];
    OfUnseen(init, t.category);
    assert OfCategory(tags, t.category) == [] + [t];
    forall k | 0 <= k < |gt|
      ensures gt[k] == Group(st[k], OfCategory(tags, st[k]))
    {
      if k < |g| {
        assert st[k] == seen[k] != t.category;
        assert OfCategory(tags, seen[k]) == OfCategory(init, seen[k]) + [];
      }
    }
  }

  /** Every fetched tag appears in exactly one section, the one of its category. */
  lemma TagInOneSection(tags: seq<Tag>, t: Tag, i: int)
    requires t in tags
    requires 0 <= i < |Grouped(tags)|
    ensures t in Grouped(tags)[i].tags <==> Grouped(tags)[i].category == t.category
  {
    GroupedIsOfCategory(tags);
    var c := FirstSeen(tags)[i];
    if c == t.category {
      OfCategoryHas(tags, t);
    }
  }

  lemma {:induction false} OfCategoryHas(tags: seq<Tag>, t: Tag)
    requires t in tags
    ensures t in OfCategory(tags, t.category)
    decreases |tags|
  {
    var init := tags[..|tags| - 1];
    assert tags == init + [tags[|tags| - 1]];
    if t != tags[|tags| - 1] {
      OfCategoryHas(init, t);
    }
  }

  /** Every fetched tag has a section for its category. */
  lemma SectionExists(tags: seq<Tag>, t: Tag)
    requires t in tags
    ensures exists i :: 0 <= i < |Grouped(tags)| && Grouped(tags)[i].category == t.category
  {
    GroupedIsOfCategory(tags);
    var seen := FirstSeen(tags);
    assert t.category in seen;
    var i :| 0 <= i < |seen| && seen[i] == t.category;
    assert Grouped(tags)[i].category == t.category;
  }

  /** A non-OK status is always an error, whatever the body. */
  lemma NotOkFails(status: int, body: Result<seq<Tag>, string>)
    ensures Categories(Ok(Response(false, status, body))).Err?
  {
  }
}

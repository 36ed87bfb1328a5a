/**
 * TagsByCategory: the tag pills of one medication, grouped by category. The
 * categories shown are those of categoryKeys, in that order, whose tag list
 * exists and is not empty; each shows one clickable pill per tag.
 */
module TagsByCategory {
  import opened Wrappers

  /** The props of one ClickableSimplePill: its text and its category. */
  datatype PillProps = PillProps(text: string, category: string)

  /** The keys whose tag list is present and non-empty, in categoryKeys order. */
  function ValidCategories(tags: map<string, seq<string>>, keys: seq<string>): (r: seq<string>)
    ensures |r| <= |keys|
    ensures forall k :: k in r <==> k in keys && k in tags && |tags[k]| > 0
    decreases |keys|
  {
    if keys == [] then []
    else
      var rest := ValidCategories(tags, keys[..|keys| - 1]);
      var k := keys[|keys| - 1];
      assert keys == keys[..|keys| - 1] + [k];
      if k in tags && |tags[k]| > 0 then rest + [k] else rest
  }

  /** The pills of the given categories: category by category, each in tag-list order. */
  function Pills(tags: map<string, seq<string>>, categories: seq<string>): (r: seq<PillProps>)
    requires forall c :: c in categories ==> c in tags
    decreases |categories|
  {
    if categories == [] then []
    else
      var c := categories[|categories| - 1];
      Pills(tags, categories[..|categories| - 1]) + Group(tags, c)
  }

  /** The pills of one category, in tag-list order. */
  function Group(tags: map<string, seq<string>>, c: string): (r: seq<PillProps>)
    requires c in tags
  {
    seq(|tags[c]|, k requires 0 <= k < |tags[c]| => PillProps(tags[c][k], c))
  }

  /** The component: nothing for a null map or when no category qualifies, else the pills. */
  function Render(tags: Option<map<string, seq<string>>>, keys: seq<string>): (r: Option<seq<PillProps>>)
    ensures r.None? <==> tags.None? || forall k :: k in keys ==> k !in tags.value || tags.value[k] == []
    ensures r.Some? ==> r.value == Pills(tags.value, ValidCategories(tags.value, keys))
  {
    if tags.None? then None
    else
      var valid := ValidCategories(tags.value, keys);
      if valid == [] then None else Some(Pills(tags.value, valid))
  }

  // ---- properties of the rendering ------------------------------------------------

  /** A pill is shown exactly for each tag of each shown category, and carries both. */
  lemma {:induction false} PillMembership(tags: map<string, seq<string>>, categories: seq<string>, p: PillProps)
    requires forall c :: c in categories ==> c in tags
    ensures p in Pills(tags, categories) <==> p.category in categories && p.text in tags[p.category]
    decreases |categories|
  {
    if categories != [] {
      var init := categories[..|categories| - 1];
      var c := categories[|categories| - 1];
      assert categories == init + [c];
      PillMembership(tags, init, p);
      var last := Group(tags, c);
      assert p in last <==> p.category == c && p.text in tags[c] by {
        if p.category == c && p.text in tags[c] {
          var k :| 0 <= k < |tags[c]| && tags[c][k] == p.text;
          assert last[k] == p;
        }
      }
    }
  }

  /** Appending a category appends its pills: the order is category order, then tag order. */
  lemma {:induction false} PillsAppend(tags: map<string, seq<string>>, a: seq<string>, b: seq<string>)
    requires forall c :: c in a + b ==> c in tags
    ensures Pills(tags, a + b) == Pills(tags, a) + Pills(tags, b)
    decreases |b|
  {
    if b == [] {
      assert a + b == a;
    } else {
      var init, c := b[..|b| - 1], b[|b| - 1];
      var ab := a + b;
      assert ab[..|ab| - 1] == a + init;
      assert ab[|ab| - 1] == c;
      assert forall x :: x in a + init ==> x in ab;
      PillsAppend(tags, a, init);
      assert Pills(tags, ab) == Pills(tags, a + init) + Group(tags, c);
      assert Pills(tags, b) == Pills(tags, init) + Group(tags, c);
    }
  }

  /** Every rendered pill belongs to a category of categoryKeys whose list holds its text. */
  lemma RenderedPills(tags: map<string, seq<string>>, keys: seq<string>, p: PillProps)
    requires Render(Some(tags), keys).Some?
    ensures p in Render(Some(tags), keys).value <==> p.category in keys && p.category in tags && p.text in tags[p.category]
  {
    PillMembership(tags, ValidCategories(tags, keys), p);
  }

  /** The pill count is the total length of the shown categories' lists. */
  function TagCount(tags: map<string, seq<string>>, categories: seq<string>): nat
    requires forall c :: c in categories ==> c in tags
    decreases |categories|
  {
    if categories == [] then 0
    else TagCount(tags, categories[..|categories| - 1]) + |tags[categories[|categories| - 1]]|
  }

  lemma {:induction false} PillCount(tags: map<string, seq<string>>, categories: seq<string>)
    requires forall c :: c in categories ==> c in tags
    ensures |Pills(tags, categories)| == TagCount(tags, categories)
    decreases |categories|
  {
    if categories != [] {
      PillCount(tags, categories[..|categories| - 1]);
    }
  }
}

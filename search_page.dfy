/**
 * The home page's URL logic: SearchableContent reads filter_<category>
 * parameters into a filters object and chooses between the search endpoint
 * and the plain list; updateUrlWithFilters rewrites the filter_ parameters
 * of the current URL and keeps the rest. The backend is a parameter that
 * answers a fetch with medications or an error.
 */
module SearchPage {
  import opened Wrappers
  import Text
  import UrlParams

  type Pairs = UrlParams.Pairs

  /** A filters object: category keys with their value lists, in key insertion order. */
  type Filters = seq<(string, seq<string>)>

  const FilterPrefix: string := "filter_"
  const LoadError: string := "Failed to load medications"

  predicate IsFilterName(n: string)
  {
    Text.StartsWith(n, FilterPrefix)
  }

  predicate NotFilterName(n: string)
  {
    !IsFilterName(n)
  }

  /** Parameters that are neither filters nor the query. */
  predicate IsOther(n: string)
  {
    !IsFilterName(n) && n != "q"
  }

  predicate Truthy(s: Option<string>)
  {
    s.Some? && s.value != ""
  }

  lemma PrefixedName(cat: string)
    ensures IsFilterName(FilterPrefix + cat)
    ensures (FilterPrefix + cat)[|FilterPrefix|..] == cat
  {
    assert (FilterPrefix + cat)[..|FilterPrefix|] == FilterPrefix;
  }

  predicate DistinctKeys(f: Filters)
  {
    forall i, j :: 0 <= i < j < |f| ==> f[i].0 != f[j].0
  }

  /** filters[key]: the list under a key, if there is one. */
  function Lookup(f: Filters, key: string): (r: Option<seq<string>>)
    ensures r.None? <==> forall i :: 0 <= i < |f| ==> f[i].0 != key
    decreases |f|
  {
    if f == [] then None else if f[0].0 == key then Some(f[0].1) else Lookup(f[1..], key)
  }

  /**
   * filters[key] = v, with the object taken as an insertion-ordered map: an
   * existing key keeps its place and takes the new value; a new key goes
   * last. (A JavaScript object lists integer-like keys first and treats
   * `__proto__` as its prototype; neither is modelled.)
   */
  function Assign(f: Filters, key: string, v: seq<string>): (r: Filters)
    ensures Lookup(r, key) == Some(v)
    ensures Lookup(f, key).None? ==> r == f + [(key, v)]
    ensures Lookup(f, key).Some? ==> |r| == |f| && forall i :: 0 <= i < |f| ==> r[i].0 == f[i].0
    decreases |f|
  {
    if f == [] then [(key, v)]
    else if f[0].0 == key then [(key, v)] + f[1..]
    else [f[0]] + Assign(f[1..], key, v)
  }

  /** Assigning one key leaves every other key's list as it was. */
  lemma {:induction false} AssignOthers(f: Filters, key: string, v: seq<string>, other: string)
    requires other != key
    ensures Lookup(Assign(f, key, v), other) == Lookup(f, other)
    decreases |f|
  {
    if f != [] && f[0].0 != key {
      AssignOthers(f[1..], key, v, other);
      assert Assign(f, key, v)[1..] == Assign(f[1..], key, v);
    }
  }

  /** Assigning keeps the keys distinct. */
  lemma AssignDistinct(f: Filters, key: string, v: seq<string>)
    requires DistinctKeys(f)
    ensures DistinctKeys(Assign(f, key, v))
  {
    var r := Assign(f, key, v);
    if Lookup(f, key).Some? {
      forall i, j | 0 <= i < j < |r|
        ensures r[i].0 != r[j].0
      {
        assert r[i].0 == f[i].0 && r[j].0 == f[j].0;
      }
    } else {
      forall i, j | 0 <= i < j < |r|
        ensures r[i].0 != r[j].0
      {
        if j == |f| {
          assert r[i] == f[i] && r[j].0 == key;
        } else {
          assert r[i] == f[i] && r[j] == f[j];
        }
      }
    }
  }

  /** A piece with a character that is not whitespace. */
  predicate NotBlank(piece: string)
  {
    exists k :: 0 <= k < |piece| && !Text.JsIsSpace(piece[k])
  }

  /** NotBlank is exactly the test v.trim() !== ''. */
  lemma NotBlankIsTrim(piece: string)
    ensures NotBlank(piece) <==> Text.JsTrim(piece) != ""
  {
  }

  /** .filter(v => v.trim() !== ''): blank pieces go, the others stay as they are, in order. */
  function NonBlank(pieces: seq<string>): (r: seq<string>)
    ensures |r| <= |pieces|
    ensures forall k :: 0 <= k < |r| ==> r[k] in pieces && NotBlank(r[k])
    ensures (forall k :: 0 <= k < |pieces| ==> NotBlank(pieces[k])) ==> r == pieces
    decreases |pieces|
  {
    if pieces == [] then []
    else if NotBlank(pieces[0]) then [pieces[0]] + NonBlank(pieces[1..])
    else NonBlank(pieces[1..])
  }

  /** A non-blank piece is never dropped. */
  lemma {:induction false} NonBlankKeeps(pieces: seq<string>, k: nat)
    requires k < |pieces| && NotBlank(pieces[k])
    ensures pieces[k] in NonBlank(pieces)
    decreases |pieces|
  {
    if k > 0 {
      NonBlankKeeps(pieces[1..], k - 1);
    }
  }

  /** The list a filter value stands for: value.split(',') without its blank pieces. */
  function ValuesOf(value: string): seq<string>
  {
    NonBlank(Text.Split(value, ','))
  }

  /** One entry of searchParams.entries(): a filter_ key assigns its category; any other key is skipped. */
  function Step(f: Filters, pair: (string, string)): Filters
  {
    if IsFilterName(pair.0) then Assign(f, pair.0[|FilterPrefix|..], ValuesOf(pair.1)) else f
  }

  /** The filters read from the URL's pairs, one pair at a time; a later pair for the same key wins. */
  function FiltersOf(ps: Pairs): Filters
    decreases |ps|
  {
    if ps == [] then [] else Step(FiltersOf(ps[..|ps| - 1]), ps[|ps| - 1])
  }

  /** The forEach over searchParams.entries() that fills the filters object. */
  method ParseFilters(ps: Pairs) returns (filters: Filters)
    ensures filters == FiltersOf(ps)
  {
    filters := [];
    var i := 0;
    while i < |ps|
      invariant 0 <= i <= |ps|
      invariant filters == FiltersOf(ps[..i])
    {
      var (key, value) := ps[i];
      ghost var before := filters;
      if Text.StartsWith(key, FilterPrefix) {
        var categoryId := key[|FilterPrefix|..];
        filters := Assign(filters, categoryId, ValuesOf(value));
      }
      assert filters == Step(before, ps[i]);
      assert ps[..i + 1][..i] == ps[..i];
      i := i + 1;
    }
    assert ps[..|ps|] == ps;
  }

  /** The filters object never holds a key twice. */
  lemma {:induction false} FiltersDistinct(ps: Pairs)
    ensures DistinctKeys(FiltersOf(ps))
    decreases |ps|
  {
    if ps != [] {
      FiltersDistinct(ps[..|ps| - 1]);
      var (key, value) := ps[|ps| - 1];
      if IsFilterName(key) {
        AssignDistinct(FiltersOf(ps[..|ps| - 1]), key[|FilterPrefix|..], ValuesOf(value));
      }
    }
  }

  /** The value of the last pair with a given name. */
  function LastValue(ps: Pairs, name: string): (r: Option<string>)
    ensures r.None? <==> forall k :: 0 <= k < |ps| ==> ps[k].0 != name
    decreases |ps|
  {
    if ps == [] then None
    else if ps[|ps| - 1].0 == name then Some(ps[|ps| - 1].1)
    else LastValue(ps[..|ps| - 1], name)
  }

  /**
   * A category is a filter iff some filter_<category> parameter is present,
   * and its list comes from the last such parameter.
   */
  lemma {:induction false} FilterLookup(ps: Pairs, cat: string)
    ensures var last := LastValue(ps, FilterPrefix + cat);
      Lookup(FiltersOf(ps), cat) == if last.None? then None else Some(ValuesOf(last.value))
    decreases |ps|
  {
    if ps != [] {
      var init := ps[..|ps| - 1];
      FilterLookup(init, cat);
      var (key, value) := ps[|ps| - 1];
      PrefixedName(cat);
      if IsFilterName(key) {
        PrefixedName(key[|FilterPrefix|..]);
        assert key == FilterPrefix + key[|FilterPrefix|..];
        if key[|FilterPrefix|..] != cat {
          AssignOthers(FiltersOf(init), key[|FilterPrefix|..], ValuesOf(value), cat);
        }
      }
    }
  }

  /** The filters object has a key iff the URL has at least one filter_ parameter. */
  lemma {:induction false} FiltersNonEmpty(ps: Pairs)
    ensures |FiltersOf(ps)| > 0 <==> exists k :: 0 <= k < |ps| && IsFilterName(ps[k].0)
    decreases |ps|
  {
    if ps != [] {
      var init := ps[..|ps| - 1];
      FiltersNonEmpty(init);
      if exists k :: 0 <= k < |init| && IsFilterName(init[k].0) {
        var k :| 0 <= k < |init| && IsFilterName(init[k].0);
        assert ps[k] == init[k];
      }
      if exists k :: 0 <= k < |ps| && IsFilterName(ps[k].0) {
        var k :| 0 <= k < |ps| && IsFilterName(ps[k].0);
        if k < |ps| - 1 {
          assert init[k] == ps[k];
        }
      }
    }
  }

  /** The two ways to load: the search endpoint with a query and filters, or the plain list. */
  datatype Fetch = SearchFetch(query: string, filters: Filters) | ListFetch

  /**
   * `query || Object.keys(filters).length > 0`: search (with query || '') when
   * q is non-empty or any filter_ parameter is present, even one whose list is
   * empty; otherwise list.
   */
  function FetchFor(ps: Pairs): (r: Fetch)
    ensures r.SearchFetch? <==>
      Truthy(UrlParams.Get(ps, "q")) || exists k :: 0 <= k < |ps| && IsFilterName(ps[k].0)
    ensures r.SearchFetch? ==> (r.filters == FiltersOf(ps)
      && r.query == (if Truthy(UrlParams.Get(ps, "q")) then UrlParams.Get(ps, "q").value else ""))
  {
    var query := UrlParams.Get(ps, "q");
    var filters := FiltersOf(ps);
    FiltersNonEmpty(ps);
    if Truthy(query) || |filters| > 0 then SearchFetch(query.GetOr(""), filters) else ListFetch
  }

  /** A medication as the page receives it; the page only stores and displays it. */
  datatype Medication = Medication(id: string, slug: string)

  /** SearchableContent's state. */
  class Listing {
    var medications: seq<Medication>
    var loading: bool
    var error: Option<string>

    constructor()
      ensures medications == [] && loading && error == None
    {
      medications := [];
      loading := true;
      error := None;
    }

    /**
     * loadMedications: pick the fetch from the URL, store its medications and
     * clear the error on success, set the fixed error message on failure (the
     * medications stay as they were), and end with loading false either way.
     */
    method Load(ps: Pairs, backend: Fetch -> Result<seq<Medication>, string>) returns (fetch: Fetch)
      modifies this
      ensures fetch == FetchFor(ps)
      ensures !loading
      ensures backend(fetch).Ok? ==> medications == backend(fetch).value && error == None
      ensures backend(fetch).Err? ==> medications == old(medications) && error == Some(LoadError)
    {
      loading := true;
      var query := UrlParams.Get(ps, "q");
      var filters := ParseFilters(ps);
      if Truthy(query) || |filters| > 0 {
        fetch := SearchFetch(query.GetOr(""), filters);
      } else {
        fetch := ListFetch;
      }
      var answer := backend(fetch);
      if answer.Ok? {
        medications := answer.value;
        error := None;
      } else {
        error := Some(LoadError);
      }
      loading := false;
    }
  }

  // ---- updateUrlWithFilters --------------------------------------------------------

  function Names(ps: Pairs): (r: seq<string>)
    ensures |r| == |ps| && forall k :: 0 <= k < |ps| ==> r[k] == ps[k].0
  {
    seq(|ps|, k requires 0 <= k < |ps| => ps[k].0)
  }

  /** The keys among ks that the removal loop deletes. */
  function Deleted(ks: seq<string>): set<string>
  {
    set k | k in ks && k != "q" && IsFilterName(k)
  }

  lemma DeletedSnoc(ks: seq<string>, k: string)
    ensures Deleted(ks + [k]) == Deleted(ks) + (if k != "q" && IsFilterName(k) then {k} else {})
  {
  }

  /** The parameters with every filter_ pair removed. */
  function StripFilters(ps: Pairs): Pairs
  {
    UrlParams.Without(ps, Deleted(Names(ps)))
  }

  /** Each category with a non-empty list, set as filter_<category> = its values joined by ','. */
  function AddFilters(ps: Pairs, f: Filters): Pairs
    decreases |f|
  {
    if f == [] then ps
    else
      var prev := AddFilters(ps, f[..|f| - 1]);
      var (cat, values) := f[|f| - 1];
      if |values| > 0 then UrlParams.Set(prev, FilterPrefix + cat, Text.Join(values, ",")) else prev
  }

  /** q is set again from the current URL when it is non-empty. */
  function WithQuery(ps: Pairs, query: Option<string>): Pairs
  {
    if Truthy(query) then UrlParams.Set(ps, "q", query.value) else ps
  }

  function UpdatedParams(current: Pairs, f: Filters): Pairs
  {
    WithQuery(AddFilters(StripFilters(current), f), UrlParams.Get(current, "q"))
  }

  lemma {:induction false} WithoutNothing(ps: Pairs)
    ensures UrlParams.Without(ps, {}) == ps
    decreases |ps|
  {
    if ps != [] {
      WithoutNothing(ps[1..]);
      assert [ps[0]] + ps[1..] == ps;
    }
  }

  lemma {:induction false} WithoutMore(ps: Pairs, names: set<string>, n: string)
    ensures UrlParams.Without(UrlParams.Without(ps, names), {n}) == UrlParams.Without(ps, names + {n})
    decreases |ps|
  {
    if ps != [] {
      WithoutMore(ps[1..], names, n);
      var w := UrlParams.Without(ps, names);
      if ps[0].0 !in names {
        assert w == [ps[0]] + UrlParams.Without(ps[1..], names);
        assert w[1..] == UrlParams.Without(ps[1..], names);
      } else {
        assert w == UrlParams.Without(ps[1..], names);
      }
    }
  }

  lemma DeletedPrefix(ks: seq<string>, i: nat)
    requires i < |ks|
    ensures Deleted(ks[..i + 1]) == Deleted(ks[..i]) + (if ks[i] != "q" && IsFilterName(ks[i]) then {ks[i]} else {})
  {
    assert ks[..i + 1] == ks[..i] + [ks[i]];
    DeletedSnoc(ks[..i], ks[i]);
  }

  lemma RemoveStep(current: Pairs, ks: seq<string>, i: nat)
    requires i < |ks|
    ensures var before := UrlParams.Without(current, Deleted(ks[..i]));
      UrlParams.Without(current, Deleted(ks[..i + 1]))
      == if ks[i] != "q" && Text.StartsWith(ks[i], FilterPrefix) then UrlParams.Delete(before, ks[i]) else before
  {
    DeletedPrefix(ks, i);
    if ks[i] != "q" && Text.StartsWith(ks[i], FilterPrefix) {
      WithoutMore(current, Deleted(ks[..i]), ks[i]);
    }
  }

  /** The removal loop over a snapshot of the keys: every filter_ key other than q is deleted. */
  method RemoveFilterKeys(current: Pairs) returns (params: Pairs)
    ensures params == StripFilters(current)
  {
    UrlParams.ParseSerialize(current);
    params := UrlParams.Parse(UrlParams.Serialize(current));
    var keys := Names(params);
    WithoutNothing(current);
    assert Deleted(keys[..0]) == {};
    var i := 0;
    while i < |keys|
      invariant 0 <= i <= |keys|
      invariant params == UrlParams.Without(current, Deleted(keys[..i]))
    {
      var key := keys[i];
      RemoveStep(current, keys, i);
      if key != "q" && Text.StartsWith(key, FilterPrefix) {
        params := UrlParams.Delete(params, key);
      }
      i := i + 1;
    }
    assert keys[..|keys|] == keys;
  }

  /** The loop over the categories: each non-empty one is set as filter_<category>. */
  method SetFilters(ps: Pairs, f: Filters) returns (params: Pairs)
    ensures params == AddFilters(ps, f)
  {
    params := ps;
    var j := 0;
    while j < |f|
      invariant 0 <= j <= |f|
      invariant params == AddFilters(ps, f[..j])
    {
      var (cat, values) := f[j];
      if |values| > 0 {
        params := UrlParams.Set(params, FilterPrefix + cat, Text.Join(values, ","));
      }
      assert f[..j + 1][..j] == f[..j];
      j := j + 1;
    }
    assert f[..|f|] == f;
  }

  /**
   * updateUrlWithFilters: copy the current parameters, delete every filter_
   * key, set the non-empty categories, set q again when it is non-empty, and
   * push '/?' followed by the serialised parameters.
   */
  method UpdateUrlWithFilters(current: Pairs, f: Filters) returns (url: string)
    ensures url == "/?" + UrlParams.Serialize(UpdatedParams(current, f))
  {
    var params := RemoveFilterKeys(current);
    params := SetFilters(params, f);
    var query := UrlParams.Get(current, "q");
    if Truthy(query) {
      params := UrlParams.Set(params, "q", query.value);
    }
    url := "/?" + UrlParams.Serialize(params);
  }

  // ---- what the update keeps and writes ----------------------------------------------

  lemma {:induction false} AddFiltersKeep(ps: Pairs, f: Filters, keep: string -> bool)
    requires forall n :: IsFilterName(n) ==> !keep(n)
    ensures UrlParams.Keep(AddFilters(ps, f), keep) == UrlParams.Keep(ps, keep)
    decreases |f|
  {
    if f != [] {
      AddFiltersKeep(ps, f[..|f| - 1], keep);
      var (cat, values) := f[|f| - 1];
      PrefixedName(cat);
      if |values| > 0 {
        UrlParams.KeepSet(AddFilters(ps, f[..|f| - 1]), FilterPrefix + cat, Text.Join(values, ","), keep);
      }
    }
  }

  lemma StripFiltersKeep(ps: Pairs, keep: string -> bool)
    requires forall n :: IsFilterName(n) ==> !keep(n)
    ensures UrlParams.Keep(StripFilters(ps), keep) == UrlParams.Keep(ps, keep)
  {
    UrlParams.KeepWithout(ps, Deleted(Names(ps)), keep);
  }

  /** Every parameter other than q and the filters survives the update, in its order. */
  lemma UpdateKeepsOthers(current: Pairs, f: Filters)
    ensures UrlParams.Keep(UpdatedParams(current, f), IsOther) == UrlParams.Keep(current, IsOther)
  {
    StripFiltersKeep(current, IsOther);
    var added := AddFilters(StripFilters(current), f);
    AddFiltersKeep(StripFilters(current), f, IsOther);
    var query := UrlParams.Get(current, "q");
    if Truthy(query) {
      UrlParams.KeepSet(added, "q", query.value, IsOther);
    }
  }

  /** q reads the same before and after the update. */
  lemma UpdateKeepsQuery(current: Pairs, f: Filters)
    ensures UrlParams.Get(UpdatedParams(current, f), "q") == UrlParams.Get(current, "q")
  {
    var query := UrlParams.Get(current, "q");
    if !Truthy(query) {
      var added := AddFilters(StripFilters(current), f);
      StripFiltersKeep(current, NotFilterName);
      AddFiltersKeep(StripFilters(current), f, NotFilterName);
      UrlParams.GetKeep(added, "q", NotFilterName);
      UrlParams.GetKeep(current, "q", NotFilterName);
    }
  }

  /** The filter_ pairs an update writes: one per category with a non-empty list, in entry order. */
  function Written(f: Filters): Pairs
    decreases |f|
  {
    if f == [] then []
    else
      var (cat, values) := f[|f| - 1];
      Written(f[..|f| - 1]) + (if |values| > 0 then [(FilterPrefix + cat, Text.Join(values, ","))] else [])
  }

  /** Every written pair is filter_<category> with the category's values joined by commas. */
  lemma {:induction false} WrittenFrom(f: Filters)
    ensures forall k :: 0 <= k < |Written(f)| ==>
      exists j :: 0 <= j < |f| && Written(f)[k] == (FilterPrefix + f[j].0, Text.Join(f[j].1, ","))
    decreases |f|
  {
    if f != [] {
      var init := f[..|f| - 1];
      WrittenFrom(init);
      var w := Written(f);
      forall k | 0 <= k < |w|
        ensures exists j :: 0 <= j < |f| && w[k] == (FilterPrefix + f[j].0, Text.Join(f[j].1, ","))
      {
        if k < |Written(init)| {
          var j :| 0 <= j < |init| && Written(init)[k] == (FilterPrefix + init[j].0, Text.Join(init[j].1, ","));
          assert w[k] == Written(init)[k] && f[j] == init[j];
        } else {
          assert w[k] == (FilterPrefix + f[|f| - 1].0, Text.Join(f[|f| - 1].1, ","));
        }
      }
    } else {
      assert Written(f) == [];
    }
  }

  lemma KeepNone(ps: Pairs, keep: string -> bool)
    requires forall k :: 0 <= k < |ps| ==> !keep(ps[k].0)
    ensures UrlParams.Keep(ps, keep) == []
  {
    if ps != [] {
      KeepNone(ps[1..], keep);
    }
  }

  lemma StripFiltersNone(ps: Pairs)
    ensures UrlParams.Keep(StripFilters(ps), IsFilterName) == []
  {
    var s := StripFilters(ps);
    forall k | 0 <= k < |s|
      ensures !IsFilterName(s[k].0)
    {
      assert s[k] in ps;
    }
    KeepNone(s, IsFilterName);
  }

  lemma {:induction false} AddFiltersWrites(ps: Pairs, f: Filters)
    requires DistinctKeys(f)
    requires UrlParams.Keep(ps, IsFilterName) == []
    ensures UrlParams.Keep(AddFilters(ps, f), IsFilterName) == Written(f)
    decreases |f|
  {
    if f != [] {
      var init := f[..|f| - 1];
      AddFiltersWrites(ps, init);
      var prev := AddFilters(ps, init);
      var (cat, values) := f[|f| - 1];
      if |values| > 0 {
        var name := FilterPrefix + cat;
        PrefixedName(cat);
        UrlParams.GetKeep(prev, name, IsFilterName);
        var w := Written(init);
        WrittenFrom(init);
        forall k | 0 <= k < |w|
          ensures w[k].0 != name
        {
          var j :| 0 <= j < |init| && w[k] == (FilterPrefix + init[j].0, Text.Join(init[j].1, ","));
          PrefixedName(init[j].0);
          assert init[j].0 != cat;
        }
        UrlParams.KeepAppend(prev, [(name, Text.Join(values, ","))], IsFilterName);
      }
    }
  }

  /** After the update the filter_ pairs are exactly those written for the new filters. */
  lemma UpdateWritesFilters(current: Pairs, f: Filters)
    requires DistinctKeys(f)
    ensures UrlParams.Keep(UpdatedParams(current, f), IsFilterName) == Written(f)
  {
    StripFiltersNone(current);
    AddFiltersWrites(StripFilters(current), f);
    var query := UrlParams.Get(current, "q");
    if Truthy(query) {
      UrlParams.KeepSet(AddFilters(StripFilters(current), f), "q", query.value, IsFilterName);
    }
  }

  // ---- the round trip -------------------------------------------------------------------

  /** The categories with a non-empty list, in order. */
  function NonEmpty(f: Filters): Filters
    decreases |f|
  {
    if f == [] then []
    else NonEmpty(f[..|f| - 1]) + (if |f[|f| - 1].1| > 0 then [f[|f| - 1]] else [])
  }

  /** NonEmpty keeps entries of f only, and only those with a non-empty list. */
  lemma {:induction false} NonEmptyFrom(f: Filters)
    ensures forall k :: 0 <= k < |NonEmpty(f)| ==> NonEmpty(f)[k] in f && |NonEmpty(f)[k].1| > 0
    decreases |f|
  {
    if f != [] {
      var init := f[..|f| - 1];
      NonEmptyFrom(init);
      assert forall k :: 0 <= k < |NonEmpty(init)| ==> NonEmpty(init)[k] in init;
      assert forall x :: x in init ==> x in f;
    }
  }

  lemma {:induction false} FiltersOfKeep(ps: Pairs)
    ensures FiltersOf(UrlParams.Keep(ps, IsFilterName)) == FiltersOf(ps)
    decreases |ps|
  {
    if ps != [] {
      var init := ps[..|ps| - 1];
      var last := ps[|ps| - 1];
      FiltersOfKeep(init);
      UrlParams.KeepLast(ps, IsFilterName);
      var kept := UrlParams.Keep(ps, IsFilterName);
      var keptInit := UrlParams.Keep(init, IsFilterName);
      assert FiltersOf(ps) == Step(FiltersOf(init), last);
      if IsFilterName(last.0) {
        assert kept == keptInit + [last];
        assert kept[..|kept| - 1] == keptInit;
        assert FiltersOf(kept) == Step(FiltersOf(keptInit), last);
      } else {
        assert kept == keptInit + [];
        assert kept == keptInit;
      }
    }
  }

  /** Values that are neither blank nor hold a comma. */
  predicate PlainValues(values: seq<string>)
  {
    forall k :: 0 <= k < |values| ==> ',' !in values[k] && NotBlank(values[k])
  }

  lemma ValuesOfJoin(values: seq<string>)
    requires |values| > 0 && PlainValues(values)
    ensures ValuesOf(Text.Join(values, ",")) == values
  {
    Text.SplitJoin(values, ',');
  }

  lemma {:induction false} FiltersOfWritten(f: Filters)
    requires DistinctKeys(f)
    requires forall k :: 0 <= k < |f| ==> PlainValues(f[k].1)
    ensures FiltersOf(Written(f)) == NonEmpty(f)
    decreases |f|
  {
    if f != [] {
      var init := f[..|f| - 1];
      FiltersOfWritten(init);
      if |f[|f| - 1].1| == 0 {
        assert Written(f) == Written(init) + [] == Written(init);
        assert NonEmpty(f) == NonEmpty(init) + [] == NonEmpty(init);
      } else {
        FiltersOfWrittenLast(f);
      }
    } else {
      assert Written(f) == [];
      assert NonEmpty(f) == [];
    }
  }

  /** The step of FiltersOfWritten for a last category with a non-empty list. */
  lemma FiltersOfWrittenLast(f: Filters)
    requires f != [] && |f[|f| - 1].1| > 0
    requires DistinctKeys(f) && PlainValues(f[|f| - 1].1)
    requires FiltersOf(Written(f[..|f| - 1])) == NonEmpty(f[..|f| - 1])
    ensures FiltersOf(Written(f)) == NonEmpty(f)
  {
    var init := f[..|f| - 1];
    var (cat, values) := f[|f| - 1];
    var ne := NonEmpty(init);
    var name := FilterPrefix + cat;
    var w := Written(f);
    assert w == Written(init) + [(name, Text.Join(values, ","))];
    assert w[..|w| - 1] == Written(init);
    assert FiltersOf(w) == Step(ne, (name, Text.Join(values, ",")));
    PrefixedName(cat);
    ValuesOfJoin(values);
    assert FiltersOf(w) == Assign(ne, cat, values);
    NonEmptyFrom(init);
    forall k | 0 <= k < |ne|
      ensures ne[k].0 != cat
    {
      var j :| 0 <= j < |init| && init[j] == ne[k];
      assert f[j] == init[j];
    }
    assert NonEmpty(f) == ne + [(cat, values)];
  }

  /**
   * Reading back the URL an update pushes gives the new filters, minus the
   * categories with empty lists, when the categories are distinct and every
   * value is non-blank and free of commas.
   */
  lemma FilterRoundTrip(current: Pairs, f: Filters)
    requires DistinctKeys(f)
    requires forall k :: 0 <= k < |f| ==> PlainValues(f[k].1)
    ensures FiltersOf(UrlParams.Parse(UrlParams.Serialize(UpdatedParams(current, f)))) == NonEmpty(f)
  {
    var ps := UpdatedParams(current, f);
    UrlParams.ParseSerialize(ps);
    FiltersOfKeep(ps);
    UpdateWritesFilters(current, f);
    FiltersOfWritten(f);
  }
}

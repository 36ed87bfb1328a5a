/**
 * The worker's find_similar_drugs_by_name: the stored entries whose
 * metadata name is the drug's own give a mean embedding; the collection is
 * queried with it for top_k * 3 neighbours; the neighbours' names, other
 * than the drug's own and the missing or empty ones, are counted, and the
 * top_k most common come back with their counts (Counter.most_common).
 * The mean and the nearest-neighbour query are a parameter.
 */
module SimilarDrugs {
  import opened Wrappers

  /** The metadata of one stored chunk; only its "name" is read. */
  datatype Metadata = Metadata(name: Option<string>)

  datatype Entry = Entry(embedding: seq<real>, metadata: Metadata)

  /** The default of the top_k parameter. */
  const DefaultTopK: int := 5

  /** The embeddings of the entries whose metadata name is drugName, in stored order. */
  function Embeddings(entries: seq<Entry>, drugName: string): (r: seq<seq<real>>)
    ensures |r| <= |entries|
    decreases |entries|
  {
    if entries == [] then []
    else
      var e := entries[|entries| - 1];
      var init := Embeddings(entries[..|entries| - 1], drugName);
      if e.metadata.name == Some(drugName) then init + [e.embedding] else init
  }

  /** There is an embedding to average exactly when some entry carries the name. */
  lemma {:induction false} EmbeddingsFound(entries: seq<Entry>, drugName: string)
    ensures Embeddings(entries, drugName) != [] <==>
      exists k :: 0 <= k < |entries| && entries[k].metadata.name == Some(drugName)
    decreases |entries|
  {
    if entries != [] {
      var init := entries[..|entries| - 1];
      EmbeddingsFound(init, drugName);
      if exists k :: 0 <= k < |init| && init[k].metadata.name == Some(drugName) {
        var k :| 0 <= k < |init| && init[k].metadata.name == Some(drugName);
        assert entries[k] == init[k];
      }
      if exists k :: 0 <= k < |entries| && entries[k].metadata.name == Some(drugName) {
        var k :| 0 <= k < |entries| && entries[k].metadata.name == Some(drugName);
        if k < |init| {
          assert init[k] == entries[k];
        }
      }
    }
  }

  /** The names of the neighbours that are present, not empty and not drugName, in query order. */
  function Candidates(neighbours: seq<Metadata>, drugName: string): (r: seq<string>)
    ensures |r| <= |neighbours|
    decreases |neighbours|
  {
    if neighbours == [] then []
    else
      var m := neighbours[|neighbours| - 1];
      var init := Candidates(neighbours[..|neighbours| - 1], drugName);
      if m.name.Some? && m.name.value != "" && m.name.value != drugName then init + [m.name.value] else init
  }

  /** A name is a candidate exactly when some neighbour carries it and it is neither empty nor drugName. */
  lemma {:induction false} CandidatesMembers(neighbours: seq<Metadata>, drugName: string, x: string)
    ensures x in Candidates(neighbours, drugName) <==>
      x != "" && x != drugName && exists k :: 0 <= k < |neighbours| && neighbours[k].name == Some(x)
    decreases |neighbours|
  {
    if neighbours != [] {
      var init := neighbours[..|neighbours| - 1];
      CandidatesMembers(init, drugName, x);
      if exists k :: 0 <= k < |init| && init[k].name == Some(x) {
        var k :| 0 <= k < |init| && init[k].name == Some(x);
        assert neighbours[k] == init[k];
      }
      if exists k :: 0 <= k < |neighbours| && neighbours[k].name == Some(x) {
        var k :| 0 <= k < |neighbours| && neighbours[k].name == Some(x);
        if k < |init| {
          assert init[k] == neighbours[k];
        }
      }
    }
  }

  // ---- Counter -----------------------------------------------------------------------

  /** How many times x occurs in names. */
  function Occurrences(names: seq<string>, x: string): (n: nat)
    decreases |names|
  {
    if names == [] then 0
    else Occurrences(names[..|names| - 1], x) + (if names[|names| - 1] == x then 1 else 0)
  }

  lemma {:induction false} OccurrencesPositive(names: seq<string>, x: string)
    requires x in names
    ensures Occurrences(names, x) >= 1
    decreases |names|
  {
    var init := names[..|names| - 1];
    assert names == init + [names[|names| - 1]];
    if names[|names| - 1] != x {
      OccurrencesPositive(init, x);
    }
  }

  /** The position of the first x in names; |names| when there is none. */
  function FirstIndex(names: seq<string>, x: string): (i: nat)
    decreases |names|
  {
    if names == [] then 0
    else
      var init := names[..|names| - 1];
      var i := FirstIndex(init, x);
      if i < |init| then i else if names[|names| - 1] == x then |init| else |names|
  }

  lemma {:induction false} FirstIndexSpec(names: seq<string>, x: string)
    ensures FirstIndex(names, x) <= |names|
    ensures FirstIndex(names, x) < |names| <==> x in names
    ensures FirstIndex(names, x) < |names| ==> names[FirstIndex(names, x)] == x
    ensures forall k :: 0 <= k < FirstIndex(names, x) && k < |names| ==> names[k] != x
    decreases |names|
  {
    if names != [] {
      var init := names[..|names| - 1];
      FirstIndexSpec(init, x);
      assert names == init + [names[|names| - 1]];
    }
  }

  /** The keys of the counter: each name once, in order of first appearance. */
  function FirstSeen(names: seq<string>): (r: seq<string>)
    ensures |r| <= |names|
    decreases |names|
  {
    if names == [] then []
    else
      var init := FirstSeen(names[..|names| - 1]);
      var x := names[|names| - 1];
      if x in init then init else init + [x]
  }

  lemma {:induction false} FirstSeenMembers(names: seq<string>)
    ensures forall x :: x in FirstSeen(names) <==> x in names
    decreases |names|
  {
    if names != [] {
      FirstSeenMembers(names[..|names| - 1]);
      assert names == names[..|names| - 1] + [names[|names| - 1]];
    }
  }

  lemma {:induction false} FirstSeenDistinct(names: seq<string>)
    ensures forall i, j :: 0 <= i < j < |FirstSeen(names)| ==> FirstSeen(names)[i] != FirstSeen(names)[j]
    decreases |names|
  {
    if names != [] {
      FirstSeenDistinct(names[..|names| - 1]);
    }
  }

  /** The counter's keys come in the order of their first appearance in names. */
  lemma {:induction false} FirstSeenOrdered(names: seq<string>)
    ensures forall a, b :: 0 <= a < b < |FirstSeen(names)| ==>
      FirstIndex(names, FirstSeen(names)[a]) < FirstIndex(names, FirstSeen(names)[b])
    decreases |names|
  {
    if names != [] {
      var init := names[..|names| - 1];
      var y := names[|names| - 1];
      var fs := FirstSeen(init);
      FirstSeenOrdered(init);
      FirstSeenMembers(init);
      forall z | z in fs
        ensures FirstIndex(names, z) == FirstIndex(init, z) < |init|
      {
        FirstIndexSpec(init, z);
      }
      if y !in fs {
        FirstIndexSpec(init, y);
        assert FirstIndex(names, y) == |init|;
        assert FirstSeen(names) == fs + [y];
      }
    }
  }

  /** The counter's items: each name with its count, in key order. */
  function Counts(names: seq<string>): (cs: seq<(string, nat)>)
    ensures |cs| == |FirstSeen(names)|
    ensures forall k :: 0 <= k < |cs| ==> cs[k] == (FirstSeen(names)[k], Occurrences(names, FirstSeen(names)[k]))
  {
    var fs := FirstSeen(names);
    seq(|fs|, k requires 0 <= k < |fs| => (fs[k], Occurrences(names, fs[k])))
  }

  // ---- most_common: a stable sort by count, largest first ------------------------------

  function CountAt(cs: seq<(string, nat)>, i: nat): nat
  {
    if i < |cs| then cs[i].1 else 0
  }

  /** Item i goes before item j: a larger count, or the same count and an earlier key. */
  predicate Before(cs: seq<(string, nat)>, i: nat, j: nat)
  {
    CountAt(cs, i) > CountAt(cs, j) || (CountAt(cs, i) == CountAt(cs, j) && i < j)
  }

  predicate Ranked(cs: seq<(string, nat)>, s: seq<nat>)
  {
    forall a, b :: 0 <= a < b < |s| ==> Before(cs, s[a], s[b])
  }

  predicate Increasing(s: seq<nat>)
  {
    forall a, b :: 0 <= a < b < |s| ==> s[a] < s[b]
  }

  /** Item i placed before the first of s whose count is not larger than its own. */
  function Insert(cs: seq<(string, nat)>, i: nat, s: seq<nat>): seq<nat>
    decreases |s|
  {
    if s == [] || CountAt(cs, s[0]) <= CountAt(cs, i) then [i] + s
    else [s[0]] + Insert(cs, i, s[1..])
  }

  /** sorted(items, key=count, reverse=True) over item positions: insertion sort, first item last. */
  function SortDesc(cs: seq<(string, nat)>, ps: seq<nat>): seq<nat>
    decreases |ps|
  {
    if ps == [] then [] else Insert(cs, ps[0], SortDesc(cs, ps[1..]))
  }

  lemma {:induction false} InsertRanked(cs: seq<(string, nat)>, i: nat, s: seq<nat>)
    requires Ranked(cs, s)
    requires forall k :: 0 <= k < |s| ==> i < s[k]
    ensures Ranked(cs, Insert(cs, i, s))
    ensures multiset(Insert(cs, i, s)) == multiset(s) + multiset{i}
    decreases |s|
  {
    if s == [] || CountAt(cs, s[0]) <= CountAt(cs, i) {
      InsertFront(cs, i, s);
    } else {
      var tail := s[1..];
      RankedTail(cs, s);
      InsertRanked(cs, i, tail);
      var rest := Insert(cs, i, tail);
      assert s == [s[0]] + tail;
      HeadBeforeRest(cs, i, s, rest);
      RankedCons(cs, s[0], rest);
    }
  }

  /** Item i goes in front when the first item's count is not larger than its own. */
  lemma InsertFront(cs: seq<(string, nat)>, i: nat, s: seq<nat>)
    requires Ranked(cs, s)
    requires forall k :: 0 <= k < |s| ==> i < s[k]
    requires s == [] || CountAt(cs, s[0]) <= CountAt(cs, i)
    ensures Ranked(cs, [i] + s)
  {
    forall b | 0 <= b < |s|
      ensures Before(cs, i, s[b])
    {
      if b > 0 {
        assert Before(cs, s[0], s[b]);
      }
    }
    RankedCons(cs, i, s);
  }

  lemma RankedTail(cs: seq<(string, nat)>, s: seq<nat>)
    requires Ranked(cs, s) && s != []
    ensures Ranked(cs, s[1..])
  {
    var tail := s[1..];
    forall a, b | 0 <= a < b < |tail|
      ensures Before(cs, tail[a], tail[b])
    {
      assert tail[a] == s[a + 1] && tail[b] == s[b + 1];
    }
  }

  /** The first item of s goes before every item of the insertion into the rest of s. */
  lemma HeadBeforeRest(cs: seq<(string, nat)>, i: nat, s: seq<nat>, rest: seq<nat>)
    requires Ranked(cs, s) && s != [] && CountAt(cs, s[0]) > CountAt(cs, i)
    requires multiset(rest) == multiset(s[1..]) + multiset{i}
    ensures forall b :: 0 <= b < |rest| ==> Before(cs, s[0], rest[b])
  {
    var tail := s[1..];
    forall b | 0 <= b < |rest|
      ensures Before(cs, s[0], rest[b])
    {
      assert rest[b] in multiset(rest);
      if rest[b] != i {
        assert rest[b] in tail;
        var m :| 0 <= m < |tail| && tail[m] == rest[b];
        assert s[m + 1] == rest[b];
      }
    }
  }

  lemma RankedCons(cs: seq<(string, nat)>, x: nat, s: seq<nat>)
    requires Ranked(cs, s)
    requires forall b :: 0 <= b < |s| ==> Before(cs, x, s[b])
    ensures Ranked(cs, [x] + s)
  {
    var r := [x] + s;
    forall a, b | 0 <= a < b < |r|
      ensures Before(cs, r[a], r[b])
    {
      assert r[b] == s[b - 1];
      if a > 0 {
        assert r[a] == s[a - 1];
      }
    }
  }

  /** The sort of increasing positions is ranked and holds the same positions. */
  lemma {:induction false} SortRanked(cs: seq<(string, nat)>, ps: seq<nat>)
    requires Increasing(ps)
    ensures Ranked(cs, SortDesc(cs, ps))
    ensures multiset(SortDesc(cs, ps)) == multiset(ps)
    decreases |ps|
  {
    if ps != [] {
      var tail := ps[1..];
      IncreasingTail(ps);
      SortRanked(cs, tail);
      var sorted := SortDesc(cs, tail);
      FirstBelowAll(ps, sorted);
      InsertRanked(cs, ps[0], sorted);
      assert ps == [ps[0]] + tail;
    }
  }

  lemma IncreasingTail(ps: seq<nat>)
    requires Increasing(ps) && ps != []
    ensures Increasing(ps[1..])
  {
    var tail := ps[1..];
    forall a, b | 0 <= a < b < |tail|
      ensures tail[a] < tail[b]
    {
      assert tail[a] == ps[a + 1] && tail[b] == ps[b + 1];
    }
  }

  /** The first of increasing positions is below every position of a permutation of the others. */
  lemma FirstBelowAll(ps: seq<nat>, sorted: seq<nat>)
    requires Increasing(ps) && ps != [] && multiset(sorted) == multiset(ps[1..])
    ensures forall k :: 0 <= k < |sorted| ==> ps[0] < sorted[k]
  {
    var tail := ps[1..];
    forall k | 0 <= k < |sorted|
      ensures ps[0] < sorted[k]
    {
      assert sorted[k] in multiset(sorted);
      assert sorted[k] in tail;
      var m :| 0 <= m < |tail| && tail[m] == sorted[k];
      assert ps[m + 1] == sorted[k];
    }
  }

  function Range(n: nat): (r: seq<nat>)
    ensures |r| == n && forall k :: 0 <= k < n ==> r[k] == k
  {
    seq(n, k requires 0 <= k < n => k)
  }

  /** The positions of the counter's items, most common first, ties in key order. */
  function Order(names: seq<string>): seq<nat>
  {
    SortDesc(Counts(names), Range(|Counts(names)|))
  }

  /** Order is a ranking of exactly the positions of the counter's items. */
  lemma OrderSpec(names: seq<string>)
    ensures var cs, order := Counts(names), Order(names);
      |order| == |cs| && Ranked(cs, order) && multiset(order) == multiset(Range(|cs|))
      && forall k :: 0 <= k < |order| ==> order[k] < |cs|
  {
    var cs := Counts(names);
    var order := Order(names);
    SortRanked(cs, Range(|cs|));
    assert |multiset(order)| == |multiset(Range(|cs|))|;
    forall k | 0 <= k < |order|
      ensures order[k] < |cs|
    {
      assert order[k] in multiset(Range(|cs|));
    }
  }

  /** Counter(names).most_common(n): no items for n <= 0, else the first n of the ranking. */
  function MostCommon(names: seq<string>, n: int): (r: seq<(string, nat)>)
  {
    var cs := Counts(names);
    var order := Order(names);
    OrderSpec(names);
    var m := if n <= 0 then 0 else if n < |order| then n else |order|;
    seq(m, k requires 0 <= k < m => cs[order[k]])
  }

  /** At most n items, and fewer only when every name is already there. */
  lemma MostCommonLength(names: seq<string>, n: int)
    ensures |MostCommon(names, n)| == if n <= 0 then 0 else if n < |FirstSeen(names)| then n else |FirstSeen(names)|
  {
    OrderSpec(names);
  }

  /** Every item is a name of the list with its number of occurrences, and no name comes twice. */
  lemma MostCommonCounts(names: seq<string>, n: int)
    ensures var r := MostCommon(names, n);
      && (forall k :: 0 <= k < |r| ==> r[k].0 in names && r[k].1 == Occurrences(names, r[k].0) >= 1)
      && (forall i, j :: 0 <= i < j < |r| ==> r[i].0 != r[j].0)
  {
    var r := MostCommon(names, n);
    var cs, order := Counts(names), Order(names);
    OrderSpec(names);
    FirstSeenMembers(names);
    FirstSeenDistinct(names);
    forall k | 0 <= k < |r|
      ensures r[k].0 in names && r[k].1 == Occurrences(names, r[k].0) >= 1
    {
      assert r[k] == cs[order[k]];
      OccurrencesPositive(names, r[k].0);
    }
    forall i, j | 0 <= i < j < |r|
      ensures r[i].0 != r[j].0
    {
      assert Before(cs, order[i], order[j]);
      assert order[i] != order[j];
    }
  }

  /** Counts never increase along the result, and equal counts keep the order of first appearance. */
  lemma MostCommonOrdered(names: seq<string>, n: int)
    ensures var r := MostCommon(names, n);
      forall i, j :: 0 <= i < j < |r| ==>
        (r[i].1 > r[j].1 || (r[i].1 == r[j].1 && FirstIndex(names, r[i].0) < FirstIndex(names, r[j].0)))
  {
    var r := MostCommon(names, n);
    var cs, order := Counts(names), Order(names);
    OrderSpec(names);
    FirstSeenOrdered(names);
    forall i, j | 0 <= i < j < |r|
      ensures r[i].1 > r[j].1 || (r[i].1 == r[j].1 && FirstIndex(names, r[i].0) < FirstIndex(names, r[j].0))
    {
      assert Before(cs, order[i], order[j]);
      assert r[i] == cs[order[i]] && r[j] == cs[order[j]];
    }
  }

  /**
   * A name of the list that is not in the result was outranked: the result
   * is full, and the name's count is below the last one kept, or equal to
   * it with a later first appearance.
   */
  lemma MostCommonOutranked(names: seq<string>, n: int, x: string)
    requires x in names
    requires forall k :: 0 <= k < |MostCommon(names, n)| ==> MostCommon(names, n)[k].0 != x
    ensures var r := MostCommon(names, n);
      n <= 0 || (|r| == n && (Occurrences(names, x) < r[n - 1].1 ||
        (Occurrences(names, x) == r[n - 1].1 && FirstIndex(names, x) > FirstIndex(names, r[n - 1].0))))
  {
    var r := MostCommon(names, n);
    var cs, order := Counts(names), Order(names);
    OrderSpec(names);
    FirstSeenMembers(names);
    FirstSeenOrdered(names);
    if n > 0 {
      var fs := FirstSeen(names);
      var ix :| 0 <= ix < |fs| && fs[ix] == x;
      assert ix in multiset(Range(|cs|)) by {
        assert Range(|cs|)[ix] == ix;
      }
      var p :| 0 <= p < |order| && order[p] == ix;
      forall k | 0 <= k < |r|
        ensures order[k] != ix
      {
        assert r[k] == cs[order[k]] && r[k].0 != x;
      }
      assert |r| == n;
      if p > n - 1 {
        assert Before(cs, order[n - 1], order[p]);
      }
      assert r[n - 1] == cs[order[n - 1]];
    }
  }

  // ---- find_similar_drugs_by_name -----------------------------------------------------

  /**
   * The ranking for drugName, or the ValueError raised when no stored entry
   * carries that name. The query receives the matching embeddings (whose
   * mean it searches with) and the number of neighbours asked for.
   */
  function FindSimilar(drugName: string, entries: seq<Entry>, topK: int,
                       query: (seq<seq<real>>, int) -> seq<Metadata>): (r: Result<seq<(string, nat)>, string>)
  {
    var embeddings := Embeddings(entries, drugName);
    if embeddings == [] then Err("No embeddings found for drugName: " + drugName)
    else Ok(MostCommon(Candidates(query(embeddings, topK * 3), drugName), topK))
  }

  /** The error is raised exactly when no entry is named drugName. */
  lemma FindSimilarError(drugName: string, entries: seq<Entry>, topK: int,
                         query: (seq<seq<real>>, int) -> seq<Metadata>)
    ensures FindSimilar(drugName, entries, topK, query).Err? <==>
      forall k :: 0 <= k < |entries| ==> entries[k].metadata.name != Some(drugName)
  {
    EmbeddingsFound(entries, drugName);
  }

  /**
   * The result names are neighbours' names other than drugName and other
   * than empty; there are at most topK of them, counted from the
   * neighbours returned for topK * 3.
   */
  lemma FindSimilarResult(drugName: string, entries: seq<Entry>, topK: int,
                          query: (seq<seq<real>>, int) -> seq<Metadata>, neighbours: seq<Metadata>)
    requires FindSimilar(drugName, entries, topK, query).Ok?
    requires neighbours == query(Embeddings(entries, drugName), topK * 3)
    ensures var r := FindSimilar(drugName, entries, topK, query).value;
      |r| <= (if topK < 0 then 0 else topK)
      && forall k :: 0 <= k < |r| ==>
        (r[k].0 != "" && r[k].0 != drugName && exists m :: 0 <= m < |neighbours| && neighbours[m].name == Some(r[k].0))
  {
    var names := Candidates(neighbours, drugName);
    var r := MostCommon(names, topK);
    assert FindSimilar(drugName, entries, topK, query).value == r;
    MostCommonLength(names, topK);
    MostCommonCounts(names, topK);
    forall k | 0 <= k < |r|
      ensures r[k].0 != "" && r[k].0 != drugName
        && (exists m :: 0 <= m < |neighbours| && neighbours[m].name == Some(r[k].0))
    {
      CandidatesMembers(neighbours, drugName, r[k].0);
    }
  }
}

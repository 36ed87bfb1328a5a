/**
 * The worker's update_vector_similar_ranking: the (slug, score) pairs
 * become a dict slug -> int(score), filled in order so that a repeated
 * slug keeps its first place and its last score; then, in one
 * transaction, the drug's vector_similar_ranking is set to that dict and
 * its updated_at to the current time. The function answers True only
 * after a commit; a missing drug or any database error gives False, and
 * an error rolls the transaction back.
 */
module SimilarRanking {
  import opened Wrappers
  import Json
  import StructureJson

  /** Python's int() of a float: the integer part, truncated toward zero. */
  function PyInt(x: real): (r: int)
    ensures x >= 0.0 ==> 0 <= r && r as real <= x < r as real + 1.0
    ensures x < 0.0 ==> r <= 0 && r as real - 1.0 < x <= r as real
  {
    if x >= 0.0 then x.Floor else -((-x).Floor)
  }

  /** Each pair with its score converted, in order. */
  function Converted(items: seq<(string, real)>): (r: seq<(string, Json.Json)>)
    ensures |r| == |items|
    ensures forall k :: 0 <= k < |items| ==> r[k] == (items[k].0, Json.Num(PyInt(items[k].1)))
  {
    seq(|items|, k requires 0 <= k < |items| => (items[k].0, Json.Num(PyInt(items[k].1))))
  }

  /** similar_items_dict after the loop: every converted pair assigned in turn. */
  function Ranking(items: seq<(string, real)>): seq<(string, Json.Json)>
  {
    StructureJson.PutAll(Converted(items))
  }

  /** Lines 19-21 as written: one dict assignment per pair. */
  method ToRanking(items: seq<(string, real)>) returns (ranking: seq<(string, Json.Json)>)
    ensures ranking == Ranking(items)
  {
    ghost var pairs := Converted(items);
    ranking := [];
    var i := 0;
    while i < |items|
      invariant 0 <= i <= |items|
      invariant ranking == StructureJson.PutAll(pairs[..i])
    {
      var (slug, score) := items[i];
      assert pairs[..i + 1][..i] == pairs[..i];
      ranking := StructureJson.Put(ranking, slug, Json.Num(PyInt(score)));
      i := i + 1;
    }
    assert pairs[..|items|] == pairs;
  }

  /** After filling, a key holds the value of its last pair. */
  lemma {:induction false} PutAllLast(pairs: seq<(string, Json.Json)>, k: nat)
    requires k < |pairs|
    requires forall j :: k < j < |pairs| ==> pairs[j].0 != pairs[k].0
    ensures Json.Get(StructureJson.PutAll(pairs), pairs[k].0) == Some(pairs[k].1)
    decreases |pairs|
  {
    var n := |pairs| - 1;
    var init := pairs[..n];
    PutAllSnoc(pairs, init);
    StructureJson.PutGet(StructureJson.PutAll(init), pairs[n].0, pairs[n].1, pairs[k].0);
    if k < n {
      forall j | k < j < |init|
        ensures init[j].0 != init[k].0
      {
        assert init[j] == pairs[j] && init[k] == pairs[k];
      }
      PutAllLast(init, k);
      assert init[k] == pairs[k];
    }
  }

  lemma PutAllSnoc(pairs: seq<(string, Json.Json)>, init: seq<(string, Json.Json)>)
    requires pairs != [] && init == pairs[..|pairs| - 1]
    ensures StructureJson.PutAll(pairs) == StructureJson.Put(StructureJson.PutAll(init), pairs[|pairs| - 1].0, pairs[|pairs| - 1].1)
  {
  }

  /** After filling, a key no pair has is absent. */
  lemma {:induction false} PutAllAbsent(pairs: seq<(string, Json.Json)>, key: string)
    requires forall j :: 0 <= j < |pairs| ==> pairs[j].0 != key
    ensures Json.Get(StructureJson.PutAll(pairs), key) == None
    decreases |pairs|
  {
    if pairs != [] {
      var init := pairs[..|pairs| - 1];
      var last := pairs[|pairs| - 1];
      PutAllAbsent(init, key);
      StructureJson.PutGet(StructureJson.PutAll(init), last.0, last.1, key);
    }
  }

  /** A slug maps to the integer part of the score of its last pair: the later pair wins. */
  lemma RankingLastWins(items: seq<(string, real)>, k: nat)
    requires k < |items|
    requires forall j :: k < j < |items| ==> items[j].0 != items[k].0
    ensures Json.Get(Ranking(items), items[k].0) == Some(Json.Num(PyInt(items[k].1)))
  {
    PutAllLast(Converted(items), k);
  }

  /** A slug that no pair carries has no entry. */
  lemma RankingAbsent(items: seq<(string, real)>, slug: string)
    requires forall j :: 0 <= j < |items| ==> items[j].0 != slug
    ensures Json.Get(Ranking(items), slug) == None
  {
    PutAllAbsent(Converted(items), slug);
  }

  // ---- the transaction ---------------------------------------------------------------

  /** The two columns the update writes; the other columns of a drugs row are not modelled. */
  datatype DrugRow = DrugRow(vectorSimilarRanking: Json.Json, updatedAt: int)

  /** Where the database raises, if it does: at connect, at the UPDATE, or at the commit. */
  datatype Fault = NoFault | ConnectFails | ExecuteFails | CommitFails

  /** The drugs table: what is committed, and what the open transaction sees. */
  class Drugs {
    var committed: map<string, DrugRow>
    var pending: map<string, DrugRow>

    constructor (rows: map<string, DrugRow>)
      ensures committed == rows && pending == rows
    {
      committed := rows;
      pending := rows;
    }

    /** UPDATE drugs SET ... WHERE id = %s: the row count is 1 when the drug exists, 0 otherwise. */
    method Execute(id: string, ranking: Json.Json, now: int) returns (rowcount: nat)
      modifies this
      ensures committed == old(committed)
      ensures id in old(pending) ==> rowcount == 1 && pending == old(pending)[id := DrugRow(ranking, now)]
      ensures id !in old(pending) ==> rowcount == 0 && pending == old(pending)
    {
      if id in pending {
        pending := pending[id := DrugRow(ranking, now)];
        rowcount := 1;
      } else {
        rowcount := 0;
      }
    }

    method Commit()
      modifies this
      ensures committed == old(pending) && pending == old(pending)
    {
      committed := pending;
    }

    /** Rolling back, or closing the connection without a commit, discards the transaction. */
    method Rollback()
      modifies this
      ensures committed == old(committed) && pending == old(committed)
    {
      pending := committed;
    }

    /**
     * update_vector_similar_ranking: True exactly when nothing raises and
     * the drug exists, and then the committed row holds the ranking and the
     * time; otherwise the committed table is as it was.
     */
    method UpdateRanking(medicationId: string, items: seq<(string, real)>, now: int, fault: Fault) returns (ok: bool)
      requires pending == committed
      modifies this
      ensures pending == committed
      ensures ok <==> fault == NoFault && medicationId in old(committed)
      ensures ok ==> committed == old(committed)[medicationId := DrugRow(Json.Obj(Ranking(items)), now)]
      ensures !ok ==> committed == old(committed)
    {
      var ranking := ToRanking(items);
      if fault == ConnectFails {
        return false;
      }
      if fault == ExecuteFails {
        Rollback();
        return false;
      }
      var rowcount := Execute(medicationId, Json.Obj(ranking), now);
      if rowcount == 0 {
        Rollback();
        return false;
      }
      if fault == CommitFails {
        Rollback();
        return false;
      }
      Commit();
      return true;
    }
  }
}

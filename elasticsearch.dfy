/**
 * ElasticsearchService: the relevance search with a search_after cursor and
 * the bulk indexing request. The client is a parameter that answers a
 * request with hits or an error.
 */
module Elasticsearch {
  import opened Wrappers
  import Paging

  const IndexName: string := "drugs_db"
  const DefaultLimit: nat := 20

  /** The fields the multi_match query searches. */
  const SearchFields: seq<string> :=
    ["drugName", "genericName", "title", "ai_description", "ai_warnings", "ai_dosing",
     "ai_use_and_conditions", "ai_contraindications", "metaDescription"]

  /** The search body: a fuzzy best_fields multi_match sorted by _score descending. */
  datatype SearchRequest = SearchRequest(
    index: string,
    query: string,
    fields: seq<string>,
    matchType: string,
    fuzziness: string,
    sort: seq<(string, string)>,
    size: int,
    searchAfter: Option<seq<string>>)

  /**
   * One entry of a hit's sort array. A number is held by the text
   * Number.prototype.toString gives it; null has no string form.
   */
  datatype SortValue = SortNull | SortNumber(text: string) | SortString(s: string)

  /** A hit: its _source (absent when the index stores none), _score and sort array. */
  datatype Source = Source(slug: Option<string>)
  datatype Hit = Hit(source: Option<Source>, score: Option<real>, sort: Option<seq<SortValue>>)

  datatype ClientError = ClientError(message: string)

  datatype SearchResult = SearchResult(slug: Option<string>, score: Option<real>)

  datatype SearchPage = SearchPage(medications: seq<SearchResult>, nextCursor: Option<string>, hasMore: bool)

  const EmptyPage: SearchPage := SearchPage([], None, false)

  predicate Truthy(s: Option<string>)
  {
    s.Some? && s.value != ""
  }

  function BaseRequest(query: string, limit: nat): SearchRequest
  {
    SearchRequest(IndexName, query, SearchFields, "best_fields", "AUTO", [("_score", "desc")], limit + 1, None)
  }

  /** hits.map(hit => ({slug: hit._source.slug, score: hit._score})); None when a hit has no _source. */
  function MapHits(hits: seq<Hit>): (r: Option<seq<SearchResult>>)
    ensures r.Some? <==> forall k :: 0 <= k < |hits| ==> hits[k].source.Some?
    ensures r.Some? ==> (|r.value| == |hits| &&
      forall k :: 0 <= k < |hits| ==> r.value[k] == SearchResult(hits[k].source.value.slug, hits[k].score))
    decreases |hits|
  {
    if hits == [] then Some([])
    else if hits[0].source.None? then None
    else
      match MapHits(hits[1..])
      case None => None
      case Some(rest) => Some([SearchResult(hits[0].source.value.slug, hits[0].score)] + rest)
  }

  /** sort?.[0]?.toString(). */
  function SortKeyText(sort: Option<seq<SortValue>>): (r: Option<string>)
    ensures r.Some? <==> sort.Some? && |sort.value| > 0 && !sort.value[0].SortNull?
  {
    if sort.None? || |sort.value| == 0 then None
    else match sort.value[0]
      case SortNull => None
      case SortNumber(t) => Some(t)
      case SortString(s) => Some(s)
  }

  /** The page for the client's hits, or the empty page when a hit cannot be read. */
  function PageOf(hits: seq<Hit>, limit: nat): (p: SearchPage)
    ensures MapHits(hits).None? ==> p == EmptyPage
    ensures MapHits(hits).Some? ==>
      (p.hasMore <==> |hits| > limit)
      && p.medications == MapHits(hits).value[..Paging.Min(|hits|, limit)]
      && (p.nextCursor.Some? ==> p.hasMore && limit > 0 && p.nextCursor == SortKeyText(hits[limit - 1].sort))
      && (p.hasMore && limit > 0 ==> p.nextCursor == SortKeyText(hits[limit - 1].sort))
  {
    match MapHits(hits)
    case None => EmptyPage
    case Some(medications) =>
      var (items, hasMore) := Paging.Window(medications, limit);
      var nextCursor := if hasMore && |items| > 0 then SortKeyText(hits[limit - 1].sort) else None;
      SearchPage(items, nextCursor, hasMore)
  }

  /**
   * searchMedications(query, cursor, limit): ask for limit + 1 hits by score,
   * after the cursor when it is truthy. Any failure, of the client or of
   * reading a hit, yields the empty page; nothing is thrown.
   */
  method SearchMedications(query: string, cursor: Option<string>, limit: Option<nat>,
                           client: SearchRequest -> Result<seq<Hit>, ClientError>)
    returns (page: SearchPage, request: SearchRequest)
    ensures request.size == limit.GetOr(DefaultLimit) + 1
    ensures request.sort == [("_score", "desc")] && request.fields == SearchFields && request.query == query
    ensures request.searchAfter.Some? <==> Truthy(cursor)
    ensures request.searchAfter.Some? ==> request.searchAfter.value == [cursor.value]
    ensures client(request).Err? ==> page == EmptyPage
    ensures client(request).Ok? ==> page == PageOf(client(request).value, limit.GetOr(DefaultLimit))
  {
    var lim := limit.GetOr(DefaultLimit);
    request := BaseRequest(query, lim);
    if Truthy(cursor) {
      request := request.(searchAfter := Some([cursor.value]));
    }
    var response := client(request);
    if response.Err? {
      return EmptyPage, request;
    }
    page := PageOf(response.value, lim);
  }

  /** A medication as it is handed to the indexer: its id, when it has one, and its fields. */
  datatype Medication = Medication(id: Option<string>, fields: map<string, string>)

  datatype BulkOp = IndexAction(index: string, id: Option<string>) | Document(doc: Medication)

  /** medications.flatMap(m => [{index: {_index, _id: m.id}}, m]). */
  function BulkOperations(meds: seq<Medication>): (ops: seq<BulkOp>)
    ensures |ops| == 2 * |meds|
    ensures forall k :: 0 <= k < |meds| ==>
      ops[2 * k] == IndexAction(IndexName, meds[k].id) && ops[2 * k + 1] == Document(meds[k])
    decreases |meds|
  {
    if meds == [] then []
    else [IndexAction(IndexName, meds[0].id), Document(meds[0])] + BulkOperations(meds[1..])
  }

  /** The documents of a bulk body, read back from its odd positions, are the medications in order. */
  function Documents(ops: seq<BulkOp>): seq<Medication>
    decreases |ops|
  {
    if |ops| < 2 then []
    else (if ops[1].Document? then [ops[1].doc] else []) + Documents(ops[2..])
  }

  lemma {:induction false} DocumentsOfBulk(meds: seq<Medication>)
    ensures Documents(BulkOperations(meds)) == meds
    decreases |meds|
  {
    if meds != [] {
      DocumentsOfBulk(meds[1..]);
      var ops := BulkOperations(meds);
      assert ops[2..] == BulkOperations(meds[1..]);
      assert [meds[0]] + meds[1..] == meds;
    }
  }

  /**
   * bulkIndexMedications: send the operations; a client error is logged and
   * swallowed, so the call completes either way and reports nothing.
   */
  method BulkIndexMedications(meds: seq<Medication>, bulk: seq<BulkOp> -> Result<(), ClientError>)
    returns (sent: seq<BulkOp>)
    ensures sent == BulkOperations(meds)
  {
    sent := BulkOperations(meds);
    var _ := bulk(sent);
  }

  /** indexMedication: one document under the medication's id; errors are swallowed. */
  method IndexMedication(med: Medication, index: (string, Option<string>, Medication) -> Result<(), ClientError>)
    returns (sent: (string, Option<string>, Medication))
    ensures sent == (IndexName, med.id, med)
  {
    sent := (IndexName, med.id, med);
    var _ := index(sent.0, sent.1, sent.2);
  }
}

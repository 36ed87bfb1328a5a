/**
 * SearchMedicalDataService.searchMedicalData (and ChatService's private copy
 * of it): query the 'drug_data' vector collection with the prompt text and
 * turn the first result row into scored results. The collection is a
 * parameter that answers a query or fails.
 */
module Retrieval {
  import opened Wrappers
  import opened Json

  const CollectionName: string := "drug_data"
  const ResultCount: nat := 10

  datatype QueryRequest = QueryRequest(collection: string, queryTexts: seq<string>, nResults: int)

  /** A metadata record: a flat object of field values. */
  type Metadata = seq<(string, Json)>

  /**
   * The collection's answer: one row per query text. distances and metadatas
   * may be absent as a whole, per row or per entry.
   */
  datatype QueryResponse = QueryResponse(
    ids: seq<seq<string>>,
    distances: Option<seq<seq<Option<real>>>>,
    metadatas: Option<seq<seq<Option<Metadata>>>>)

  datatype SearchResult = SearchResult(id: string, score: real, payload: Metadata)

  /** The errors the call re-throws: the store's own, or reading ids[0] of an empty answer. */
  datatype SearchError = StoreFailure(message: string) | MissingIds

  /** distances?.[0]?.[index]. */
  function DistanceAt(d: Option<seq<seq<Option<real>>>>, index: nat): Option<real>
  {
    if d.None? || |d.value| == 0 || index >= |d.value[0]| then None else d.value[0][index]
  }

  /** metadatas?.[0]?.[index]. */
  function MetadataAt(m: Option<seq<seq<Option<Metadata>>>>, index: nat): Option<Metadata>
  {
    if m.None? || |m.value| == 0 || index >= |m.value[0]| then None else m.value[0][index]
  }

  /** The query for a prompt: the prompt as the single text, ten neighbours. */
  function QueryFor(prompt: string): QueryRequest
  {
    QueryRequest(CollectionName, [prompt], ResultCount)
  }

  /**
   * ids[0].map((id, i) => ({id, score: 1 - (distance || 0), payload: metadata || {}})).
   * One result per id of the first row, in order; a missing distance scores 1.
   */
  function MapResults(resp: QueryResponse): (r: Result<seq<SearchResult>, SearchError>)
    ensures r.Err? <==> |resp.ids| == 0
    ensures r.Err? ==> r.error == MissingIds
    ensures r.Ok? ==> |r.value| == |resp.ids[0]| && forall k :: 0 <= k < |r.value| ==>
      && r.value[k].id == resp.ids[0][k]
      && r.value[k].score == 1.0 - DistanceAt(resp.distances, k).GetOr(0.0)
      && r.value[k].payload == MetadataAt(resp.metadatas, k).GetOr([])
  {
    if |resp.ids| == 0 then Err(MissingIds)
    else
      var row := resp.ids[0];
      Ok(seq(|row|, k requires 0 <= k < |row| =>
        SearchResult(row[k], 1.0 - DistanceAt(resp.distances, k).GetOr(0.0), MetadataAt(resp.metadatas, k).GetOr([]))))
  }

  /** The search: the store's failure is re-thrown unchanged; otherwise the mapped first row. */
  function SearchMedicalData(prompt: string, collection: QueryRequest -> Result<QueryResponse, string>)
    : (r: Result<seq<SearchResult>, SearchError>)
    ensures collection(QueryFor(prompt)).Err? ==> r == Err(StoreFailure(collection(QueryFor(prompt)).error))
    ensures collection(QueryFor(prompt)).Ok? ==> r == MapResults(collection(QueryFor(prompt)).value)
  {
    match collection(QueryFor(prompt))
    case Err(e) => Err(StoreFailure(e))
    case Ok(resp) => MapResults(resp)
  }
}

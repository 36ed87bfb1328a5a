/** The over-fetch page both backend services use: ask for one row more than the limit. */
module Paging {

  function Min(a: int, b: int): int
  {
    if a < b then a else b
  }

  /**
   * The rows to return and whether more exist: the store was asked for
   * limit + 1 rows, so more exist exactly when it sent more than limit.
   */
  function Window<T>(rows: seq<T>, limit: nat): (w: (seq<T>, bool))
    ensures w.1 <==> |rows| > limit
    ensures |w.0| == Min(|rows|, limit) && w.0 == rows[..|w.0|]
  {
    if |rows| > limit then (rows[..limit], true) else (rows, false)
  }
}

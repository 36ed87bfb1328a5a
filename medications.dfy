/**
 * MedicationsService.getMedications: cursor pagination over the drug table
 * ordered by id. The cursor is the base64 text of the last id returned; the
 * store (Prisma's findMany) is a parameter that answers a request with rows
 * or an error.
 */
module Medications {
  import opened Wrappers
  import Base64
  import Paging

  const DefaultLimit: nat := 10

  /** The columns getMedications selects (the labeler relation as id and name). */
  const SelectedColumns: seq<string> :=
    ["id", "name", "generic_name", "product_type", "effective_time", "title", "slug",
     "updated_at", "blocks_json", "labeler"]

  /** A drug row: its id and the selected columns, which the service passes through untouched. */
  datatype Drug = Drug(id: string, columns: map<string, string>)

  /** The findMany request: take, the optional cursor row id, the ordering and the selection. */
  datatype FindMany = FindMany(take: int, cursorId: Option<string>, orderBy: (string, string), select: seq<string>)

  datatype StoreError = StoreError(message: string)

  datatype Page = Page(medications: seq<Drug>, nextCursor: Option<string>, hasMore: bool)

  /** JavaScript truthiness of an optional string: present and non-empty. */
  predicate Truthy(s: Option<string>)
  {
    s.Some? && s.value != ""
  }

  /** The page built from the rows the store returned for a request of limit + 1 rows. */
  function PageOf(rows: seq<Drug>, limit: nat): (p: Page)
    ensures p.hasMore <==> |rows| > limit
    ensures |p.medications| == Paging.Min(|rows|, limit) && p.medications == rows[..|p.medications|]
    ensures p.nextCursor.Some? <==> p.hasMore && p.medications != []
    ensures p.nextCursor.Some? ==>
      p.nextCursor.value == Base64.EncodeText(p.medications[|p.medications| - 1].id)
  {
    var (items, hasMore) := Paging.Window(rows, limit);
    var nextCursor := if hasMore && |items| > 0 then Some(Base64.EncodeText(items[|items| - 1].id)) else None;
    Page(items, nextCursor, hasMore)
  }

  /** The findMany request for a cursor and a limit. */
  function RequestFor(cursor: Option<string>, limit: nat): (q: FindMany)
    ensures q.take == limit + 1 && q.orderBy == ("id", "asc") && q.select == SelectedColumns
    ensures q.cursorId.Some? <==> Truthy(cursor) && Base64.DecodeText(cursor.value) != ""
    ensures q.cursorId.Some? ==> q.cursorId.value == Base64.DecodeText(cursor.value)
  {
    var decoded := if Truthy(cursor) then Some(Base64.DecodeText(cursor.value)) else None;
    FindMany(limit + 1, if Truthy(decoded) then decoded else None, ("id", "asc"), SelectedColumns)
  }

  /**
   * getMedications(cursor, limit): decode a truthy cursor (the lenient decoder
   * cannot fail, so the catch branch is never taken), ask for limit + 1 rows by
   * ascending id, with a cursor clause only when the decoded id is non-empty,
   * and page the answer. A store error propagates unchanged.
   */
  method GetMedications(cursor: Option<string>, limit: Option<nat>, store: FindMany -> Result<seq<Drug>, StoreError>)
    returns (r: Result<Page, StoreError>, request: FindMany)
    ensures request == RequestFor(cursor, limit.GetOr(DefaultLimit))
    ensures store(request).Err? ==> r == Err(store(request).error)
    ensures store(request).Ok? ==> r == Ok(PageOf(store(request).value, limit.GetOr(DefaultLimit)))
  {
    var lim := limit.GetOr(DefaultLimit);
    var decodedCursor: Option<string> := None;
    if Truthy(cursor) {
      decodedCursor := Some(Base64.DecodeText(cursor.value));
    }
    request := FindMany(lim + 1, None, ("id", "asc"), SelectedColumns);
    if Truthy(decodedCursor) {
      request := request.(cursorId := decodedCursor);
    }
    var rows := store(request);
    if rows.Err? {
      return Err(rows.error), request;
    }
    r := Ok(PageOf(rows.value, lim));
  }

  /** The cursor handed out decodes to exactly the id of the last drug on the page. */
  lemma NextCursorRoundTrip(rows: seq<Drug>, limit: nat)
    requires PageOf(rows, limit).nextCursor.Some?
    ensures var p := PageOf(rows, limit);
      Base64.DecodeText(p.nextCursor.value) == p.medications[|p.medications| - 1].id
      && p.medications[|p.medications| - 1] == rows[limit - 1]
  {
    var p := PageOf(rows, limit);
    Base64.DecodeEncodeText(p.medications[|p.medications| - 1].id);
  }

  /**
   * Following a page's cursor asks the store for limit + 1 rows starting at
   * the last id returned (the cursor row itself, since no skip is given),
   * provided that id is not empty.
   */
  lemma FollowCursor(rows: seq<Drug>, limit: nat)
    requires PageOf(rows, limit).nextCursor.Some?
    requires rows[limit - 1].id != ""
    ensures RequestFor(PageOf(rows, limit).nextCursor, limit).cursorId == Some(rows[limit - 1].id)
  {
    NextCursorRoundTrip(rows, limit);
  }

  /** A cursor that starts with two base64 digits decodes to a non-empty id, whatever follows. */
  lemma LenientCursor(c: string)
    requires |c| >= 2 && 'a' <= c[0] <= 'z' && 'a' <= c[1] <= 'z'
    ensures Base64.DecodeText(c) != ""
  {
    var u := Base64.CodeUnits(c);
    assert u[0] == c[0] as int;
    assert u[1..] == Base64.CodeUnits(c[1..]);
    assert u[1] == c[1] as int;
    var x := Base64.Sextets(u);
    assert x == [Base64.DecodeDigit(u[0])] + Base64.Sextets(u[1..]);
    assert |Base64.Sextets(u[1..])| >= 1;
  }

  /** A malformed cursor is not rejected: its garbage decoding is passed to the store. */
  lemma InvalidCursorPassedOn()
    ensures RequestFor(Some("invalid-base64"), 10).take == 11
    ensures RequestFor(Some("invalid-base64"), 10).cursorId == Some(Base64.DecodeText("invalid-base64"))
  {
    LenientCursor("invalid-base64");
  }
}

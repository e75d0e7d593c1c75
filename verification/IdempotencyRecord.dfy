/** One row of `admin_idempotency` and the answers built from it
    (`backend/app/api/idempotency.py`). */
module IdempotencyRecords {
  import opened Collections

  const STATUS_PENDING := 0
  const STATUS_FAILED := -1
  const FAILURE_STATUS := 500
  const CONFLICT_STATUS := 409

  datatype Row = Row(requestHash: string, status: int, body: Option<Json>)

  /** `retryAfter` is the `Retry-After: 1` header, `key` the `Idempotency-Key` one. */
  datatype Response = Response(status: int, body: Option<Json>, retryAfter: bool, key: Option<string>)

  function PendingRow(requestHash: string): Row {
    Row(requestHash, STATUS_PENDING, None)
  }

  /** Only dictionaries and lists are stored as bodies. */
  function Storable(body: Option<Json>): Option<Json> {
    if body.Some? && (body.value.JDict? || body.value.JList?) then body else None
  }

  function Saved(row: Row, status: int, body: Option<Json>): Row {
    row.(status := status, body := Storable(body))
  }

  const FAILED_BODY := JDict(map[
    "detail" := JStr("Request processing failed"),
    "status" := JInt(FAILURE_STATUS),
    "title" := JStr("Internal Server Error")])

  function Failed(row: Row): Row {
    row.(status := STATUS_FAILED, body := Some(FAILED_BODY))
  }

  /** The stored status if it is an HTTP error, else 500. */
  function FailedHttpStatus(body: Option<Json>): (status: int)
    ensures status >= 400
  {
    if body.Some? && body.value.JDict? && "status" in body.value.fields
       && body.value.fields["status"].JInt? && body.value.fields["status"].n >= 400
    then body.value.fields["status"].n
    else FAILURE_STATUS
  }

  /** The replay of a row that another request claimed. */
  function BuildResponse(key: string, row: Row): Response {
    if row.status == STATUS_PENDING then Response(CONFLICT_STATUS, None, true, Some(key))
    else if row.status == STATUS_FAILED then Response(FailedHttpStatus(row.body), row.body, false, Some(key))
    else if row.status < 0 then Response(FAILURE_STATUS, None, false, Some(key))
    else Response(row.status, row.body, false, Some(key))
  }

  /** The problem document for a key that was used with another payload. */
  const MISMATCH := Response(CONFLICT_STATUS, None, false, None)

  /** The problem document for a request without a key. */
  const KEY_REQUIRED := Response(400, None, false, None)

  /** A replay below 400 says exactly what the row says. */
  lemma SuccessIsStored(key: string, row: Row)
    ensures BuildResponse(key, row).status < 400 ==>
      && row.status > 0 && BuildResponse(key, row) == Response(row.status, row.body, false, Some(key))
    ensures BuildResponse(key, row).retryAfter <==> row.status == STATUS_PENDING
  {
  }

  /** What `mark_failed` leaves behind is replayed as the same 500 document. */
  lemma FailureReplaysAs500(key: string, row: Row)
    ensures BuildResponse(key, Failed(row)) == Response(500, Some(FAILED_BODY), false, Some(key))
  {
  }

  // ------------------------------------------------------- the record, in place

  class AdminIdempotency {
    const requestHash: string
    var responseStatus: int
    var responseBody: Option<Json>

    ghost function Contents(): Row
      reads this
    {
      Row(requestHash, responseStatus, responseBody)
    }

    constructor (requestHash: string)
      ensures Contents() == PendingRow(requestHash)
    {
      this.requestHash := requestHash;
      responseStatus, responseBody := STATUS_PENDING, None;
    }
  }

  /** The context of the request that claimed a record. */
  class IdempotencyContext {
    const claimedRecord: AdminIdempotency
    const existingResponse: Option<Response>

    constructor (record: AdminIdempotency, existing: Option<Response>)
      ensures claimedRecord == record && existingResponse == existing
    {
      claimedRecord, existingResponse := record, existing;
    }

    method SaveResponse(status: int, body: Option<Json>)
      modifies claimedRecord
      ensures claimedRecord.Contents() ==
        if existingResponse.Some? then old(claimedRecord.Contents()) else Saved(old(claimedRecord.Contents()), status, body)
    {
      if existingResponse.Some? {
        return;
      }
      claimedRecord.responseStatus := status;
      claimedRecord.responseBody := Storable(body);
    }

    method MarkFailed()
      modifies claimedRecord
      ensures claimedRecord.Contents() ==
        if existingResponse.Some? then old(claimedRecord.Contents()) else Failed(old(claimedRecord.Contents()))
    {
      if existingResponse.Some? {
        return;
      }
      claimedRecord.responseStatus := STATUS_FAILED;
      claimedRecord.responseBody := Some(FAILED_BODY);
    }
  }
}

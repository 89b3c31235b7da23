/** The HTTP side of the service that carries logic of its own: mapping an
    error to a status code, and choosing between the error reply and the
    success reply when encoding an endpoint's response. */
module Transport {

  import opened Wrappers
  import opened Medical

  const StatusBadRequest := 400
  const StatusNotFound := 404
  const StatusInternalServerError := 500

  const JsonContentType := "application/json; charset=utf-8"

  /** codeFrom: the status code reported for an error. */
  function CodeFrom(e: Error): (code: int)
    ensures code == StatusNotFound <==> e == NotFound
    ensures code == StatusBadRequest <==> e == AlreadyExists || e == InconsistentIDs
    ensures code == StatusInternalServerError <==> !(e == NotFound || e == AlreadyExists || e == InconsistentIDs)
  {
    match e
    case NotFound => StatusNotFound
    case AlreadyExists => StatusBadRequest
    case InconsistentIDs => StatusBadRequest
    case _ => StatusInternalServerError
  }

  /** The responses the endpoints return. Each one carries the business error
      of its service call, which its error() method exposes. */
  datatype Response =
    | PostVisitResponse(err: Option<Error>)
    | GetVisitResponse(visit: Visit, err: Option<Error>)
    | PostPatientResponse(err: Option<Error>)
    | GetPatientResponse(patient: Patient, err: Option<Error>)

  /** What a reply body holds: the JSON object written for an error, or the
      JSON encoding of a response (its text is left to encoding/json). */
  datatype Body = ErrorObject(fields: map<string, string>) | Encoded(response: Response)

  /** What is written to the ResponseWriter. `status` is None when no status
      is written explicitly, in which case net/http sends 200. */
  datatype Reply = Reply(status: Option<int>, contentType: string, body: Body)

  /** encodeError: the status of the error and a JSON object whose only key
      is "error", holding the error's text. It panics on a nil error. */
  function EncodeError(err: Option<Error>): (w: Reply)
    requires err.Some?
    ensures w.status.Some? && w.status.value in {StatusBadRequest, StatusNotFound, StatusInternalServerError}
    ensures w.status == Some(CodeFrom(err.value))
    ensures w.contentType == JsonContentType
    ensures w.body.ErrorObject? && w.body.fields.Keys == {"error"}
    ensures w.body.fields["error"] == err.value.Text()
  {
    Reply(Some(CodeFrom(err.value)), JsonContentType, ErrorObject(map["error" := err.value.Text()]))
  }

  /** The reply written and the error encodeResponse itself returns. */
  datatype Encoding = Encoding(reply: Reply, err: Option<Error>)

  /** encodeResponse: a response carrying a business error is written by
      encodeError and reported as no error; any other response is encoded as
      JSON without an explicit status. `encodeErr` is the outcome of the JSON
      encoder, which is not modelled, and is what the success path returns. */
  function EncodeResponse(resp: Response, encodeErr: Option<Error>): (out: Encoding)
    ensures resp.err.Some? ==> out.err == None && out.reply == EncodeError(resp.err)
    ensures resp.err.None? ==> out == Encoding(Reply(None, JsonContentType, Encoded(resp)), encodeErr)
  {
    if resp.err.Some? then
      Encoding(EncodeError(resp.err), None)
    else
      Encoding(Reply(None, JsonContentType, Encoded(resp)), encodeErr)
  }

  // ---------------------------------------------------------------- lemmas

  /** Every error maps to one of three codes, and BadRouting to 500. */
  lemma CodeFromRange(e: Error)
    ensures CodeFrom(e) in {StatusBadRequest, StatusNotFound, StatusInternalServerError}
    ensures CodeFrom(BadRouting) == StatusInternalServerError
  {
  }

  /** A response is written with an explicit error status exactly when it
      carries a business error; encodeResponse then never fails itself. */
  lemma ErrorStatusIffBusinessError(resp: Response, encodeErr: Option<Error>)
    ensures EncodeResponse(resp, encodeErr).reply.status.Some? <==> resp.err.Some?
    ensures resp.err.Some? ==> EncodeResponse(resp, encodeErr).reply.status.value >= StatusBadRequest
    ensures resp.err.Some? ==> EncodeResponse(resp, encodeErr).err == None
  {
  }

  /** POST /medical/ with an unset schedule: the store is untouched and the
      client gets 404 with {"error": "not found"}. */
  lemma UnsetScheduleReplies404(store: seq<Visit>, v: Visit, createErr: Option<Error>, encodeErr: Option<Error>)
    requires v.schedule.IsZero()
    ensures PostVisit(store, v, createErr).store == store
    ensures EncodeResponse(PostVisitResponse(PostVisit(store, v, createErr).err), encodeErr).reply
         == Reply(Some(StatusNotFound), JsonContentType, ErrorObject(map["error" := "not found"]))
  {
  }

  /** POST /medical/ with a set schedule outside the opening hours: the
      client gets a success reply with no explicit status, and an all-zero
      record has been created. */
  lemma UnmatchedSlotRepliesSuccess(store: seq<Visit>, v: Visit, encodeErr: Option<Error>)
    requires !v.schedule.IsZero()
    requires !OpenSlot(v.schedule.Weekday(), v.schedule.Hour())
    ensures PostVisit(store, v, None).store == store + [ZeroVisit]
    ensures EncodeResponse(PostVisitResponse(PostVisit(store, v, None).err), encodeErr).reply.status == None
  {
    UnmatchedSlotStoresZeroRecord(store, v);
  }
}

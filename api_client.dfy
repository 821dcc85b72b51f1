/** The browser's API client: how `handleResponse` turns a `fetch` response
    into returned data or a thrown error, and the 204 short cut of
    `api.delete`. The network and `JSON.parse` are not modelled: the parse
    outcome of the body text is an input (None when `JSON.parse` throws). */
module ApiClient {
  import opened Wrappers
  import opened Json
  import opened Http

  /** The parts of a `fetch` response the client reads. */
  datatype HttpResponse = HttpResponse(status: int, statusText: string, bodyText: string)

  /** A thrown `Error`: its message, and the `status` and `data` properties
      the client attaches (absent on the parse failure). */
  datatype ApiError = ApiError(message: string, status: Option<int>, data: Option<Json>)

  /** How a call settles: returned data, or a thrown error. */
  datatype Outcome = Returned(data: Json) | Thrown(error: ApiError)

  const InvalidResponse := "Invalid server response"
  const RequestFailed := "Request failed"

  /** `res.ok`. */
  predicate IsOk(status: int) {
    200 <= status <= 299
  }

  /** The value of
      `data?.detail || (Array.isArray(data?.detail) ? data.detail[0]?.msg : null) || res.statusText`,
      evaluated as JavaScript does. */
  function MessageValue(data: Json, statusText: string): Option<Json> {
    var detail := Member(data, "detail");
    if Truthy(detail) then detail
    else
      var fromList :=
        if detail.Some? && detail.value.JArray? then
          (if detail.value.items == [] then None else Member(detail.value.items[0], "msg"))
        else Some(JNull);
      if Truthy(fromList) then fromList else Some(JString(statusText))
  }

  /** `typeof message === 'string' ? message : 'Request failed'`. */
  function MessageText(v: Option<Json>): string {
    if v.Some? && v.value.JString? then v.value.s else RequestFailed
  }

  /** The middle alternative never decides the message: an array `detail`
      is truthy and is picked by the first alternative already. */
  lemma ListBranchIsDead(data: Json, statusText: string)
    ensures MessageValue(data, statusText)
         == if Truthy(Member(data, "detail")) then Member(data, "detail") else Some(JString(statusText))
  {
  }

  /** The parsed body: `null` for an empty body, otherwise the parse outcome. */
  function Parsed(res: HttpResponse, parsed: Option<Json>): Option<Json> {
    if res.bodyText == "" then Some(JNull) else parsed
  }

  /** `handleResponse`. */
  function HandleResponse(res: HttpResponse, parsed: Option<Json>): (o: Outcome)
    ensures res.bodyText != "" && parsed.None? ==> o == Thrown(ApiError(InvalidResponse, None, None))
    ensures IsOk(res.status) && res.bodyText == "" ==> o == Returned(JNull)
    ensures IsOk(res.status) && res.bodyText != "" && parsed.Some? ==> o == Returned(parsed.value)
    ensures !IsOk(res.status) && Parsed(res, parsed).Some? ==>
      var data := Parsed(res, parsed).value;
      var detail := Member(data, "detail");
      && o.Thrown?
      && o.error.status == Some(res.status)
      && o.error.data == Some(data)
      && (Truthy(detail) && detail.value.JString? ==> o.error.message == detail.value.s)
      && (Truthy(detail) && !detail.value.JString? ==> o.error.message == RequestFailed)
      && (!Truthy(detail) ==> o.error.message == res.statusText)
  {
    match Parsed(res, parsed)
    case None => Thrown(ApiError(InvalidResponse, None, None))
    case Some(data) =>
      if IsOk(res.status) then Returned(data)
      else
        ListBranchIsDead(data, res.statusText);
        Thrown(ApiError(MessageText(MessageValue(data, res.statusText)), Some(res.status), Some(data)))
  }

  /** `api.delete`: a 204 settles with `null` and the body is not read. */
  function Delete(res: HttpResponse, parsed: Option<Json>): (o: Outcome)
    ensures res.status == 204 ==> o == Returned(JNull)
    ensures res.status != 204 ==> o == HandleResponse(res, parsed)
  {
    if res.status == 204 then Returned(JNull) else HandleResponse(res, parsed)
  }

  /** A route's `HTTPException` message reaches the page as the error message. */
  lemma ServerMessageReachesPage(status: int, statusText: string, bodyText: string, text: string)
    requires !IsOk(status) && bodyText != "" && text != ""
    ensures HandleResponse(HttpResponse(status, statusText, bodyText), ErrorBody(Message(text)))
         == Thrown(ApiError(text, Some(status), ErrorBody(Message(text))))
  {
  }

  /** A request-validation failure (422), of the body or of the query,
      reaches the page as "Request failed": its `detail` is a list, which is
      truthy but not a string, so neither the field messages nor the status
      text are shown. */
  lemma ValidationFailureShowsRequestFailed(statusText: string, bodyText: string, d: Detail)
    requires bodyText != ""
    requires d.FieldErrors? || d.QueryErrors?
    ensures HandleResponse(HttpResponse(422, statusText, bodyText), ErrorBody(d)).error.message
         == RequestFailed
  {
  }

  /** An internal error's plain-text body is not JSON, so the page sees
      "Invalid server response", without the status. */
  lemma InternalErrorShowsInvalidResponse(statusText: string)
    ensures HandleResponse(HttpResponse(500, statusText, InternalErrorText), ErrorBody(InternalError))
         == Thrown(ApiError(InvalidResponse, None, None))
  {
  }

  /** An error whose body has no `detail` and whose status text is empty
      (as over HTTP/2) throws an `Error` with the empty message, so the
      page's own fallback text is what the user sees. */
  lemma EmptyStatusTextGivesEmptyMessage(status: int, bodyText: string)
    requires !IsOk(status)
    requires bodyText == ""
    ensures HandleResponse(HttpResponse(status, "", bodyText), None).error.message == ""
  {
  }
}

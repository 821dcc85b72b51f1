/** What a route handler sends back: a status with a value, or an error status
    with FastAPI's `detail`, and the JSON body FastAPI writes for an error. */
module Http {
  import opened Wrappers
  import opened Json

  /** `detail` of an error: the message of an `HTTPException`, the names of
      the body fields or of the query parameters that failed request
      validation, or an unhandled server error, which has no `detail`. */
  datatype Detail =
    | Message(text: string)
    | FieldErrors(locs: seq<string>)
    | QueryErrors(names: seq<string>)
    | InternalError

  datatype Response<+T> = Ok(status: int, value: T) | Err(status: int, detail: Detail)

  const EmployeeNotFound := "Employee not found."

  /** Starlette's reply to an exception no handler catches, such as a
      returned value that fails its `response_model`: status 500 with this
      plain-text body. */
  const InternalErrorText := "Internal Server Error"

  /** An `{"loc": [place, name]}` entry of a validation failure. */
  function Locations(place: string, names: seq<string>): seq<Json> {
    seq(|names|, i requires 0 <= i < |names| => JObject(map["loc" := JArray([JString(place), JString(names[i])])]))
  }

  /** The error body as `JSON.parse` reads it: `{"detail": "..."}` for an
      `HTTPException`, `{"detail": [{"loc": [...]}, ...]}` for a validation
      failure (the human-readable `msg` is library text and is not modelled),
      and None for the plain-text body of an internal error, which is not JSON. */
  function ErrorBody(d: Detail): (j: Option<Json>)
    ensures j.None? <==> d.InternalError?
    ensures j.Some? ==> Member(j.value, "detail").Some?
    ensures d.Message? ==> Member(j.value, "detail") == Some(JString(d.text))
    ensures d.FieldErrors? || d.QueryErrors? ==> Member(j.value, "detail").value.JArray?
  {
    match d
    case Message(text) => Some(JObject(map["detail" := JString(text)]))
    case FieldErrors(locs) => Some(JObject(map["detail" := JArray(Locations("body", locs))]))
    case QueryErrors(names) => Some(JObject(map["detail" := JArray(Locations("query", names))]))
    case InternalError => None
  }
}

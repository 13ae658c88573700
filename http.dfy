/**
 * What the front-end hands to `fetch` and what comes back. The network itself
 * is an oracle (a function parameter of the operations that use it).
 */
module Http {
  import opened Wrappers
  import opened Js

  /** One call of `fetch`: the URL, its query parameters (each value as it was
      set; the URL prints it with `String(value)`), the remaining `fetch`
      options (method, body, ...) and the headers. */
  datatype Request = Request(
    url: string,
    query: map<string, Value>,
    options: map<string, Value>,
    headers: map<string, string>)

  /** A response: its status and what `response.json()` resolves to, or the
      message it rejects with when the body is not JSON. */
  datatype Response = Response(status: int, body: Result<Value, string>) {
    /** `response.ok`. */
    predicate Ok() {
      200 <= status <= 299
    }
  }

  /** What `fetch` settles to: a response, or a rejection with a message. */
  datatype Reply = Responded(response: Response) | NetworkError(message: string)

  /** The base URL when `VITE_API_BASE_URL` is not set. */
  const ApiBase := "http://localhost:8000"

  const UsersUrl := ApiBase + "/api/v1/users"
  const MeUrl := ApiBase + "/api/v1/users/me"
  const DevicesUrl := ApiBase + "/api/v1/devices"

  /** `API_ENDPOINTS.USERS.UPDATE(id)` and `DELETE(id)`: the id is printed with `String(id)`. */
  function UserUrl(id: Value): string
  {
    UsersUrl + "/" + ToJsString(id)
  }

  /** The two headers every protected call carries, with the token printed by
      a template literal: a missing token prints as "null". */
  function BearerHeaders(token: Option<string>): (h: map<string, string>)
    ensures h.Keys == {"Authorization", "Content-Type"}
    ensures h["Content-Type"] == "application/json"
    ensures h["Authorization"] == "Bearer " + (if token.Some? then token.value else "null")
  {
    map["Authorization" := "Bearer " + (if token.Some? then token.value else "null"),
        "Content-Type" := "application/json"]
  }

  /** `errorData.detail || fallback`, used as the message of `new Error(...)`,
      which prints its argument with `String(...)`. A body that is not JSON makes
      `response.json()` reject with its own message instead. */
  function DetailMessage(body: Result<Value, string>, fallback: string): (r: string)
    ensures body.Err? ==> r == body.error
    ensures body.Ok? && Truthy(Get(body.value, "detail")) ==> r == ToJsString(Get(body.value, "detail"))
    ensures body.Ok? && !Truthy(Get(body.value, "detail")) ==> r == fallback
  {
    match body
    case Err(m) => m
    case Ok(data) => ToJsString(Or(Get(data, "detail"), Str(fallback)))
  }

  /** `err.message || fallback`. */
  function MessageOr(message: string, fallback: string): (r: string)
    ensures r != ""  || fallback == ""
    ensures message != "" ==> r == message
    ensures message == "" ==> r == fallback
  {
    if message != "" then message else fallback
  }
}

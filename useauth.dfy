/**
 * The `useAuth` hook of src/hooks/useAuth.js: `fetch` wrapped with the stored
 * bearer token, and the session-expiry handling of a 401 answer (purge the
 * credentials, send the user to the login page with a message).
 */
module UseAuth {
  import opened Wrappers
  import opened Js
  import opened Http
  import opened Browser

  const SessionExpiredMessage := "Your session has expired. Please log in again."
  const NoTokenMessage := "No token available"
  const AuthFailedMessage := "Authentication failed"

  /** `navigate('/login', { replace: true })` when no token is stored. */
  const LoginRedirect := Navigation("/login", true, None)
  /** `navigate('/login', { replace: true, state: { message } })` on a 401. */
  const SessionExpiredRedirect := Navigation("/login", true, Some(SessionExpiredMessage))

  /** The `options` argument of `authenticatedFetch`: the headers it may carry,
      and every other option (method, body, ...). */
  datatype Options = Options(fields: map<string, Value>, headers: map<string, string>)

  /** `authenticatedFetch(url)` with no options. */
  const NoOptions := Options(map[], map[])

  /** `{ Authorization, 'Content-Type', ...options.headers }`: the caller's
      headers are spread last, so they override the two defaults. */
  function MergeHeaders(token: string, caller: map<string, string>): (h: map<string, string>)
    ensures h.Keys == caller.Keys + {"Authorization", "Content-Type"}
    ensures forall k | k in caller :: h[k] == caller[k]
    ensures "Authorization" !in caller ==> h["Authorization"] == "Bearer " + token
    ensures "Content-Type" !in caller ==> h["Content-Type"] == "application/json"
  {
    BearerHeaders(Some(token)) + caller
  }

  /** `if (!token)`: a token counts only when it is stored and non-empty. */
  predicate HasToken(token: Option<string>) {
    token.Some? && token.value != ""
  }

  /** The request `authenticatedFetch` hands to `fetch`. */
  function GuardedRequest(token: string, url: string, options: Options): Request {
    Request(url, map[], options.fields, MergeHeaders(token, options.headers))
  }

  /** Everything one `authenticatedFetch` call does: what it settles to
      (a response, or the message it throws), the requests it hands to
      `fetch`, the storage keys it removes and the navigations it performs. */
  datatype Outcome = Outcome(
    result: Result<Response, string>,
    sent: seq<Request>,
    removed: set<string>,
    navigations: seq<Navigation>)

  /** `authenticatedFetch(url, options)` as a function of the stored token and
      of the network. */
  function Guard(token: Option<string>, url: string, options: Options, network: Request -> Reply): (o: Outcome)
    ensures !HasToken(token) ==> o == Outcome(Err(NoTokenMessage), [], {}, [LoginRedirect])
    ensures HasToken(token) ==> o.sent == [GuardedRequest(token.value, url, options)]
    ensures o.result.Ok? ==> o.result.value.status != 401 && o.removed == {} && o.navigations == []
    ensures o.removed != {} ==> o.result == Err(AuthFailedMessage)
  {
    if !HasToken(token) then Outcome(Err(NoTokenMessage), [], {}, [LoginRedirect])
    else
      var request := GuardedRequest(token.value, url, options);
      match network(request)
      case NetworkError(m) => Outcome(Err(m), [request], {}, [])
      case Responded(response) =>
        if response.status == 401 then
          Outcome(Err(AuthFailedMessage), [request], {AccessTokenKey, UserDataKey}, [SessionExpiredRedirect])
        else Outcome(Ok(response), [request], {}, [])
  }

  /** A 401 answer ends the session: both stored credentials are removed, the
      user is sent to the login page with the expiry message, and the caller
      sees "Authentication failed". */
  lemma UnauthorizedEndsSession(token: Option<string>, url: string, options: Options, network: Request -> Reply)
    requires HasToken(token)
    requires network(GuardedRequest(token.value, url, options)).Responded?
    requires network(GuardedRequest(token.value, url, options)).response.status == 401
    ensures var o := Guard(token, url, options, network);
      && o.result == Err(AuthFailedMessage)
      && o.removed == {AccessTokenKey, UserDataKey}
      && o.navigations == [SessionExpiredRedirect]
  {
  }

  /** Any other answer is handed back untouched, and nothing is purged. */
  lemma OtherAnswersPassThrough(token: Option<string>, url: string, options: Options, network: Request -> Reply)
    requires HasToken(token)
    requires network(GuardedRequest(token.value, url, options)).Responded?
    requires network(GuardedRequest(token.value, url, options)).response.status != 401
    ensures Guard(token, url, options, network)
         == Outcome(Ok(network(GuardedRequest(token.value, url, options)).response),
                    [GuardedRequest(token.value, url, options)], {}, [])
  {
  }

  /** A request `fetch` rejects throws the network error on to the caller;
      nothing is purged and no navigation happens. */
  lemma NetworkErrorPropagates(token: Option<string>, url: string, options: Options, network: Request -> Reply)
    requires HasToken(token)
    requires network(GuardedRequest(token.value, url, options)).NetworkError?
    ensures Guard(token, url, options, network)
         == Outcome(Err(network(GuardedRequest(token.value, url, options)).message),
                    [GuardedRequest(token.value, url, options)], {}, [])
  {
  }

  /** `handleAuthError(response)`: true exactly on a 401, which removes the
      token and the cached user data and redirects to the login page. */
  method HandleAuthError(w: Window, response: Response) returns (isAuthError: bool)
    modifies w
    ensures isAuthError <==> response.status == 401
    ensures w.storage == if isAuthError then old(w.storage) - {AccessTokenKey, UserDataKey} else old(w.storage)
    ensures w.history == old(w.history) + (if isAuthError then [SessionExpiredRedirect] else [])
    ensures w.sent == old(w.sent)
  {
    if response.status == 401 {
      w.RemoveItem(AccessTokenKey);
      w.RemoveItem(UserDataKey);
      w.Navigate(SessionExpiredRedirect);
      return true;
    }
    return false;
  }

  /** `authenticatedFetch(url, options)`: its result and its effects on the
      window are those of Guard on the token stored when it is called. */
  method AuthenticatedFetch(w: Window, url: string, options: Options, network: Request -> Reply)
    returns (result: Result<Response, string>)
    modifies w
    ensures var o := Guard(old(w.GetItem(AccessTokenKey)), url, options, network);
      && result == o.result
      && w.sent == old(w.sent) + o.sent
      && w.storage == old(w.storage) - o.removed
      && w.history == old(w.history) + o.navigations
  {
    var token := w.GetItem(AccessTokenKey);
    if token.None? || token.value == "" {
      w.Navigate(LoginRedirect);
      return Err(NoTokenMessage);
    }
    var request := GuardedRequest(token.value, url, options);
    w.Send([request]);
    var reply := network(request);
    if reply.NetworkError? {
      return Err(reply.message);
    }
    var isAuthError := HandleAuthError(w, reply.response);
    if isAuthError {
      return Err(AuthFailedMessage);
    }
    result := Ok(reply.response);
  }
}

/**
 * The `UserProvider` of src/contexts/UserContext.jsx: it holds the current
 * user's profile. It loads the profile from `/users/me`, falls back to a
 * non-admin profile built from the token's claims, and keeps the profile as
 * it was when the session has just been ended by a 401.
 */
module UserContext {
  import opened Wrappers
  import opened Js
  import opened Http
  import opened Browser
  import Auth
  import UseAuth

  /** How `fetchCurrentUser` reads the outcome of its request. */
  datatype Fetched =
    | Profile(data: Value)   // `response.ok` and the body parsed
    | AuthFailed             // an error whose message is "Authentication failed"
    | Fallback               // a non-ok response, or any other error

  function Classify(result: Result<Response, string>): (f: Fetched)
    ensures f.Profile? <==> result.Ok? && result.value.Ok() && result.value.body.Ok?
    ensures f.Profile? ==> f.data == result.value.body.value
    ensures f.AuthFailed? <==>
              || result == Err(UseAuth.AuthFailedMessage)
              || (result.Ok? && result.value.Ok() && result.value.body == Err(UseAuth.AuthFailedMessage))
  {
    match result
    case Err(m) => if m == UseAuth.AuthFailedMessage then AuthFailed else Fallback
    case Ok(response) =>
      if !response.Ok() then Fallback
      else match response.body
        case Ok(data) => Profile(data)
        case Err(m) => if m == UseAuth.AuthFailedMessage then AuthFailed else Fallback
  }

  /** The profile built from the token's claims: never an administrator. */
  function FallbackProfile(user: Auth.TokenUser): (p: Value)
    ensures Get(p, "is_admin") == Bool(false)
    ensures Get(p, "id") == user.userId && Get(p, "user_id") == user.userId
    ensures Get(p, "username") == user.username
  {
    Obj(map["id" := user.userId, "username" := user.username, "user_id" := user.userId, "is_admin" := Bool(false)])
  }

  /** `tokenUser && tokenUser.userId`: the fallback profile, if the token yields one. */
  function TokenFallback(verdict: Auth.TokenVerdict): (p: Option<Value>)
    ensures p.Some? <==> verdict.Valid? && Truthy(verdict.user.userId)
    ensures p.Some? ==> p.value == FallbackProfile(verdict.user)
  {
    if verdict.Valid? && Truthy(verdict.user.userId) then Some(FallbackProfile(verdict.user)) else None
  }

  /** The current user after `fetchCurrentUser` reads `fetched`. */
  function NextUser(current: Value, fetched: Fetched, verdict: Auth.TokenVerdict): (u: Value)
    ensures fetched.Profile? ==> u == fetched.data
    ensures fetched.AuthFailed? ==> u == current
    ensures fetched.Fallback? && verdict.Valid? && Truthy(verdict.user.userId) ==> u == FallbackProfile(verdict.user)
    ensures fetched.Fallback? && !(verdict.Valid? && Truthy(verdict.user.userId)) ==> u == current
  {
    match fetched
    case Profile(data) => data
    case AuthFailed => current
    case Fallback =>
      var p := TokenFallback(verdict);
      if p.Some? then p.value else current
  }

  /** `currentUser?.is_admin === true`. */
  predicate IsAdminProfile(user: Value)
    ensures IsAdminProfile(user) ==> user.Obj? && "is_admin" in user.fields && user.fields["is_admin"] == Bool(true)
    ensures (user.Obj? && "is_admin" in user.fields && user.fields["is_admin"] != Bool(true)) ==> !IsAdminProfile(user)
  {
    Get(user, "is_admin") == Bool(true)
  }

  class UserProvider {
    var currentUser: Value
    var loading: bool

    /** `useState(null)` and `useState(true)`. */
    constructor()
      ensures currentUser == Null && loading
    {
      currentUser := Null;
      loading := true;
    }

    /** `isAdmin()`: only an explicit `is_admin: true` counts. */
    predicate IsAdmin()
      reads this
      ensures IsAdmin() ==> currentUser.Obj?
      ensures IsAdmin() <==> IsAdminProfile(currentUser)
    {
      IsAdminProfile(currentUser)
    }

    /** `fetchCurrentUser()`: one guarded request for `/users/me`, read by
        Classify; a fallback consults the token. Loading ends on every path. */
    method FetchCurrentUser(w: Window, nowMillis: int, atob: string -> Option<string>,
                            parse: string -> Option<Value>, network: Request -> Reply)
      modifies this, w
      ensures var o := UseAuth.Guard(old(w.GetItem(AccessTokenKey)), MeUrl, UseAuth.NoOptions, network);
        var verdict := Auth.CheckToken(old(w.GetItem(AccessTokenKey)), nowMillis, atob, parse);
        var fetched := Classify(o.result);
        && currentUser == NextUser(old(currentUser), fetched, verdict)
        && !loading
        && w.sent == old(w.sent) + o.sent
        && w.history == old(w.history) + o.navigations
        && w.storage == old(w.storage) - o.removed
                        - (if fetched.Fallback? && verdict.Expired? then {AccessTokenKey} else {})
    {
      loading := true;
      var result := UseAuth.AuthenticatedFetch(w, MeUrl, UseAuth.NoOptions, network);
      var fetched := Classify(result);
      if fetched.Profile? {
        currentUser := fetched.data;
      } else if fetched.Fallback? {
        var tokenUser := Auth.GetUserFromToken(w, nowMillis, atob, parse);
        if tokenUser.Some? && Truthy(tokenUser.value.userId) {
          currentUser := FallbackProfile(tokenUser.value);
        }
      }
      loading := false;
    }

    /** `clearUser()`. */
    method ClearUser()
      modifies this
      ensures currentUser == Null && !loading
      ensures !IsAdmin()
    {
      currentUser := Null;
      loading := false;
    }
  }

  /** The token fallback never grants administrator rights. */
  lemma FallbackIsNeverAdmin(verdict: Auth.TokenVerdict)
    requires verdict.Valid?
    ensures !IsAdminProfile(FallbackProfile(verdict.user))
  {
  }

  /** After `fetchCurrentUser`, the user is an administrator only if the
      server said so, or the user already was one before a failed call. */
  lemma AdminOnlyFromServer(current: Value, fetched: Fetched, verdict: Auth.TokenVerdict)
    requires IsAdminProfile(NextUser(current, fetched, verdict))
    ensures (fetched.Profile? && IsAdminProfile(fetched.data)) || (!fetched.Profile? && IsAdminProfile(current))
  {
  }

  /** A valid token always yields the fallback: its user id is never falsy,
      because it falls back to the username, which falls back to "User". */
  lemma ValidTokenAlwaysFallsBack(stored: Option<string>, nowMillis: int, atob: string -> Option<string>,
                                  parse: string -> Option<Value>)
    ensures var verdict := Auth.CheckToken(stored, nowMillis, atob, parse);
      TokenFallback(verdict).Some? <==> verdict.Valid?
  {
  }
}

/**
 * The `AdminRoute` guard of src/components/common/AdminRoute.jsx: it renders
 * its children only once the server's profile of the logged-in user marks
 * the user as an administrator. A profile from before the `is_admin`
 * migration (no such field) is judged by a legacy heuristic instead.
 */
module AdminRoute {
  import opened Wrappers
  import opened Js
  import opened Http
  import opened Browser
  import Auth
  import UseAuth

  /** `s.includes(sub)` holds whenever `sub` starts at some position of `s`. */
  lemma {:induction false} ContainsAt(s: string, sub: string, i: nat)
    requires i <= |s| && sub <= s[i..]
    ensures Contains(s, sub)
    decreases i
  {
    if i > 0 {
      assert s[1..][i - 1..] == s[i..];
      ContainsAt(s[1..], sub, i - 1);
    }
  }

  /** Conversely, `s.includes(sub)` names a position of `s` where `sub` starts. */
  lemma {:induction false} ContainsOccurs(s: string, sub: string)
    requires Contains(s, sub)
    ensures exists i :: 0 <= i <= |s| && sub <= s[i..]
    decreases |s|
  {
    if sub <= s {
      assert s[0..] == s;
    } else {
      ContainsOccurs(s[1..], sub);
      var i :| 0 <= i <= |s[1..]| && sub <= s[1..][i..];
      assert s[1..][i..] == s[i + 1..];
    }
  }

  /** `userData.username?.toLowerCase().includes('admin') || userData.id === 1`.
      None: `toLowerCase` is not a function of a username that is neither a
      string nor null/undefined, so the call throws. */
  function LegacyHeuristic(userData: Value): (r: Option<bool>)
    ensures var name := Get(userData, "username");
      && (r.None? <==> !(name.Undefined? || name.Null? || name.Str?))
      && (r == Some(true) <==> (
            || ((name.Undefined? || name.Null? || name.Str?) && StrictEquals(Get(userData, "id"), Num(1)))
            || (name.Str? && Contains(ToLower(name.s), "admin"))))
  {
    var name := Get(userData, "username");
    var firstUser := StrictEquals(Get(userData, "id"), Num(1));
    match name
    case Undefined => Some(firstUser)
    case Null => Some(firstUser)
    case Str(s) => Some(Contains(ToLower(s), "admin") || firstUser)
    case _ => None
  }

  /** The verdict of `checkAdminStatus` on the parsed profile; None where it
      throws (a `null` profile, or the heuristic throwing). */
  function AdminFromProfile(userData: Value): (r: Option<bool>)
    ensures userData.Null? || userData.Undefined? ==> r.None?
    ensures !(userData.Null? || userData.Undefined?) && Get(userData, "is_admin") != Undefined ==>
              r == Some(Get(userData, "is_admin") == Bool(true))
    ensures !(userData.Null? || userData.Undefined?) && Get(userData, "is_admin") == Undefined ==>
              r == LegacyHeuristic(userData)
  {
    if userData.Null? || userData.Undefined? then None
    else if Get(userData, "is_admin") != Undefined then Some(StrictEquals(Get(userData, "is_admin"), Bool(true)))
    else LegacyHeuristic(userData)
  }

  /** Whether `checkAdminStatus` ends with `setIsAdmin(true)`: the token must
      yield a user, the guarded `/users/me` request must answer ok with a
      JSON body, and the profile must be judged an administrator; every
      other path (including each thrown error) ends with false. */
  function GateDecision(stored: Option<string>, nowMillis: int, atob: string -> Option<string>,
                        parse: string -> Option<Value>, network: Request -> Reply): (admitted: bool)
    ensures admitted ==> Auth.CheckToken(stored, nowMillis, atob, parse).Valid?
    ensures admitted <==>
              && Auth.CheckToken(stored, nowMillis, atob, parse).Valid?
              && var r := UseAuth.Guard(stored, MeUrl, UseAuth.NoOptions, network).result;
              && r.Ok? && r.value.Ok() && r.value.body.Ok?
              && AdminFromProfile(r.value.body.value) == Some(true)
  {
    if !Auth.CheckToken(stored, nowMillis, atob, parse).Valid? then false
    else
      match UseAuth.Guard(stored, MeUrl, UseAuth.NoOptions, network).result
      case Err(_) => false
      case Ok(response) =>
        if !response.Ok() then false
        else match response.body
          case Err(_) => false
          case Ok(data) => AdminFromProfile(data) == Some(true)
  }

  /** What the guard renders. */
  datatype View = Spinner | Redirect(to: Navigation) | Children

  /** `<Navigate to="/" replace />`. */
  const HomeRedirect := Navigation("/", true, None)

  class AdminGate {
    /** null while loading, then the verdict. */
    var isAdmin: Option<bool>
    var loading: bool

    /** `useState(null)` and `useState(true)`. */
    constructor()
      ensures isAdmin.None? && loading
    {
      isAdmin := None;
      loading := true;
    }

    /** The guard's render: a spinner while loading, the redirect home unless
        the verdict is true, the children otherwise. */
    function Render(): (v: View)
      reads this
      ensures v == Children <==> !loading && isAdmin == Some(true)
      ensures v.Spinner? <==> loading
      ensures v.Redirect? ==> v.to == HomeRedirect
    {
      if loading then Spinner
      else if isAdmin != Some(true) then Redirect(HomeRedirect)
      else Children
    }

    /** `checkAdminStatus()`: without a token user no request is made;
        otherwise one guarded request for `/users/me` decides. */
    method CheckAdminStatus(w: Window, nowMillis: int, atob: string -> Option<string>,
                            parse: string -> Option<Value>, network: Request -> Reply)
      modifies this, w
      ensures var stored := old(w.GetItem(AccessTokenKey));
        var verdict := Auth.CheckToken(stored, nowMillis, atob, parse);
        var o := UseAuth.Guard(stored, MeUrl, UseAuth.NoOptions, network);
        && isAdmin == Some(GateDecision(stored, nowMillis, atob, parse, network))
        && !loading
        && (Render() == Children <==> GateDecision(stored, nowMillis, atob, parse, network))
        && (verdict.Valid? ==>
              w.sent == old(w.sent) + o.sent && w.history == old(w.history) + o.navigations
              && w.storage == old(w.storage) - o.removed)
        && (!verdict.Valid? ==>
              w.sent == old(w.sent) && w.history == old(w.history)
              && w.storage == if verdict.Expired? then old(w.storage) - {AccessTokenKey} else old(w.storage))
    {
      var tokenUser := Auth.GetUserFromToken(w, nowMillis, atob, parse);
      if tokenUser.None? {
        isAdmin := Some(false);
        loading := false;
        return;
      }
      var result := UseAuth.AuthenticatedFetch(w, MeUrl, UseAuth.NoOptions, network);
      var admitted := false;
      if result.Ok? && result.value.Ok() && result.value.body.Ok? {
        var decided := AdminFromProfile(result.value.body.value);
        admitted := decided == Some(true);
      }
      isAdmin := Some(admitted);
      loading := false;
    }
  }

  /** A profile that carries `is_admin` (JSON has no `undefined`) is judged
      by that flag alone. */
  lemma ExplicitFlagWins(userData: Value)
    requires userData.Obj? && "is_admin" in userData.fields && userData.fields["is_admin"] != Undefined
    ensures AdminFromProfile(userData) == Some(userData.fields["is_admin"] == Bool(true))
  {
  }

  /** Without the flag, a username containing "admin" in any letter case admits. */
  lemma LegacyAdminName()
    ensures AdminFromProfile(Obj(map["username" := Str("SuperAdmin"), "id" := Num(7)])) == Some(true)
  {
    ContainsAt(ToLower("SuperAdmin"), "admin", 5);
  }

  /** Without the flag, the first user (id 1) is admitted whatever the name. */
  lemma LegacyFirstUser(name: string)
    ensures AdminFromProfile(Obj(map["username" := Str(name), "id" := Num(1)])) == Some(true)
  {
  }

  /** Without the flag, a username that is not a string makes the check throw,
      and the user is turned away. */
  lemma NonStringUsernameThrows(id: Value)
    ensures AdminFromProfile(Obj(map["username" := Num(5), "id" := id])).None?
  {
  }

  /** The strict `is_admin === true` test of the user context always admits
      here too, but the guard is more lenient: a legacy profile without the
      flag can pass it. */
  lemma GateIsMoreLenient()
    ensures forall userData :: Get(userData, "is_admin") == Bool(true) ==> AdminFromProfile(userData) == Some(true)
    ensures var legacy := Obj(map["username" := Str("alice"), "id" := Num(1)]);
      AdminFromProfile(legacy) == Some(true) && Get(legacy, "is_admin") != Bool(true)
  {
  }
}

/**
 * The user-management page of src/pages/Users.jsx: loading the user list,
 * toggling a user's admin flag, deleting a user, and the authorization rules
 * its rows enforce. The default "admin" account keeps its admin flag and
 * cannot be deleted; nobody can delete their own account.
 */
module UsersPage {
  import opened Wrappers
  import opened Js
  import opened Http
  import opened Browser
  import Pagination
  import UseAuth

  const ProtectedFlagMessage := "Cannot remove admin privileges from the default admin user"
  const ProtectedDeleteMessage := "Cannot delete the default admin user"
  const SelfDeleteMessage := "You cannot delete your own account"

  /** `user.username === "admin"`. */
  predicate IsDefaultAdmin(user: Value) {
    StrictEquals(Get(user, "username"), Str("admin"))
  }

  /** `user.username === "admin" && user.is_admin`: the flag that can be
      neither removed nor toggled. */
  predicate ProtectedAdminFlag(user: Value) {
    IsDefaultAdmin(user) && Truthy(Get(user, "is_admin"))
  }

  /** The self-deletion check of `handleDelete`: `currentUser.id === userId`,
      `currentUser.user_id === userId`, or equal when both are printed. */
  predicate IsSelf(currentUser: Value, userId: Value)
    ensures IsSelf(currentUser, userId) ==> Truthy(currentUser)
    ensures Truthy(currentUser) && userId.Num? && Get(currentUser, "id") == userId ==> IsSelf(currentUser, userId)
  {
    Truthy(currentUser) && (
      || StrictEquals(Get(currentUser, "id"), userId)
      || StrictEquals(Get(currentUser, "user_id"), userId)
      || ToJsString(Get(currentUser, "id")) == ToJsString(userId))
  }

  /** The row's `isCurrentUser`: the same checks plus a matching username. */
  predicate IsCurrentUserRow(currentUser: Value, user: Value)
    ensures IsCurrentUserRow(currentUser, user) ==> Truthy(currentUser)
    ensures IsSelf(currentUser, Get(user, "id")) ==> IsCurrentUserRow(currentUser, user)
    ensures (Truthy(currentUser) && Get(currentUser, "username").Str? && Get(currentUser, "username") == Get(user, "username"))
              ==> IsCurrentUserRow(currentUser, user)
  {
    Truthy(currentUser) && (
      || StrictEquals(Get(currentUser, "id"), Get(user, "id"))
      || StrictEquals(Get(currentUser, "user_id"), Get(user, "id"))
      || StrictEquals(Get(currentUser, "username"), Get(user, "username"))
      || ToJsString(Get(currentUser, "id")) == ToJsString(Get(user, "id")))
  }

  /** The control in a row's Actions column. */
  datatype RowControl = OwnAccountLock | DefaultAdminLock | DeleteButton

  function RowAction(currentUser: Value, user: Value): (c: RowControl)
    ensures c == OwnAccountLock <==> IsCurrentUserRow(currentUser, user)
    ensures c == DefaultAdminLock <==> !IsCurrentUserRow(currentUser, user) && IsDefaultAdmin(user)
    ensures c == DeleteButton <==> !IsCurrentUserRow(currentUser, user) && !IsDefaultAdmin(user)
  {
    if IsCurrentUserRow(currentUser, user) then OwnAccountLock
    else if IsDefaultAdmin(user) then DefaultAdminLock
    else DeleteButton
  }

  /** The control in a row's Admin column: a locked badge, or a button that
      shows the current role and toggles it. */
  datatype AdminBadge = LockedAdminBadge | ToggleButton(showsAdmin: bool)

  function Badge(user: Value): (b: AdminBadge)
    ensures b.LockedAdminBadge? <==> ProtectedAdminFlag(user)
    ensures b.ToggleButton? ==> b.showsAdmin == Truthy(Get(user, "is_admin"))
  {
    if ProtectedAdminFlag(user) then LockedAdminBadge else ToggleButton(Truthy(Get(user, "is_admin")))
  }

  /** `users.find(u => u.id === userId)`. */
  function FindById(users: seq<Value>, userId: Value): (r: Option<Value>)
    ensures r.None? <==> forall i | 0 <= i < |users| :: !StrictEquals(Get(users[i], "id"), userId)
    ensures r.Some? ==> exists i | 0 <= i < |users| ::
              && users[i] == r.value
              && StrictEquals(Get(users[i], "id"), userId)
              && forall j | 0 <= j < i :: !StrictEquals(Get(users[j], "id"), userId)
  {
    if |users| == 0 then None
    else if StrictEquals(Get(users[0], "id"), userId) then Some(users[0])
    else
      var r := FindById(users[1..], userId);
      assert forall i | 1 <= i < |users| :: users[i] == users[1..][i - 1];
      r
  }

  /** The refusal `handleDelete` issues before any request, if any: the
      default-admin check comes first, then the self check. */
  function DeleteRefusal(users: seq<Value>, currentUser: Value, userId: Value): (m: Option<string>)
    ensures m == Some(ProtectedDeleteMessage) <==>
              FindById(users, userId).Some? && IsDefaultAdmin(FindById(users, userId).value)
    ensures m == Some(SelfDeleteMessage) <==>
              !(FindById(users, userId).Some? && IsDefaultAdmin(FindById(users, userId).value))
              && IsSelf(currentUser, userId)
    ensures m.None? <==>
              !(FindById(users, userId).Some? && IsDefaultAdmin(FindById(users, userId).value))
              && !IsSelf(currentUser, userId)
  {
    var target := FindById(users, userId);
    if target.Some? && IsDefaultAdmin(target.value) then Some(ProtectedDeleteMessage)
    else if IsSelf(currentUser, userId) then Some(SelfDeleteMessage)
    else None
  }

  /** How a guarded call settles for the page: the response was ok, or there
      is an error message (thrown by the guard, or built from the error body). */
  datatype Settled = Succeeded | Failed(message: string)

  function Settle(result: Result<Response, string>, detailFallback: string): (s: Settled)
    ensures s.Succeeded? <==> result.Ok? && result.value.Ok()
    ensures result.Err? ==> s == Failed(result.error)
    ensures result.Ok? && !result.value.Ok() ==> s == Failed(DetailMessage(result.value.body, detailFallback))
  {
    match result
    case Err(m) => Failed(m)
    case Ok(response) => if response.Ok() then Succeeded else Failed(DetailMessage(response.body, detailFallback))
  }

  /** The error text after a failure: an "Authentication failed" error leaves
      it as it was (the guard has already redirected), any other error sets it
      to its message, or to the fallback when the message is empty. */
  function ErrorAfter(error: string, message: string, fallback: string): (e: string)
    ensures message == UseAuth.AuthFailedMessage ==> e == error
    ensures message != UseAuth.AuthFailedMessage && message != "" ==> e == message
    ensures message != UseAuth.AuthFailedMessage && message == "" ==> e == fallback
  {
    if message == UseAuth.AuthFailedMessage then error else MessageOr(message, fallback)
  }

  /** The options of the PUT that flips the admin flag: `is_admin: !user.is_admin`
      (the body before `JSON.stringify`). */
  function ToggleOptions(user: Value): (o: UseAuth.Options)
    ensures o.headers == map[]
    ensures o.fields.Keys == {"method", "body"} && o.fields["method"] == Str("PUT")
    ensures o.fields["body"] == Obj(map["is_admin" := Bool(!Truthy(Get(user, "is_admin")))])
  {
    UseAuth.Options(map["method" := Str("PUT"), "body" := Obj(map["is_admin" := Bool(!Truthy(Get(user, "is_admin")))])],
                    map[])
  }

  const DeleteOptions := UseAuth.Options(map["method" := Str("DELETE")], map[])

  /** The error text `fetchUsers` shows for a failed listing. */
  function ListingError(e: Pagination.FetchError): string {
    MessageOr(Pagination.ErrorMessage(e), "Error fetching users")
  }

  class UsersPage {
    var users: seq<Value>
    var filteredUsers: seq<Value>
    var loading: bool
    var error: string
    var showDeleteModal: bool
    var userToDelete: Value

    constructor()
      ensures users == [] && filteredUsers == [] && loading && error == ""
      ensures !showDeleteModal && userToDelete == Null
    {
      users := [];
      filteredUsers := [];
      loading := true;
      error := "";
      showDeleteModal := false;
      userToDelete := Null;
    }

    /** The delete confirmation is shown only with a selected user. */
    predicate DeleteModalVisible()
      reads this
      ensures DeleteModalVisible() ==> showDeleteModal && userToDelete != Null
      ensures !showDeleteModal ==> !DeleteModalVisible()
    {
      showDeleteModal && Truthy(userToDelete)
    }

    /** `fetchUsers()`: every page of the user list with the stored token;
        on success both lists become the data and the error is cleared, on
        failure the lists stay and the error is set. Loading ends false. */
    method FetchUsers(w: Window, server: Request -> Pagination.Reply<Value>)
      modifies this, w
      ensures var f := Pagination.Run(server, Pagination.UsersListing(old(w.GetItem(AccessTokenKey))), 1);
        && w.sent == old(w.sent) + f.issued
        && (f.result.Ok? ==> users == f.result.value && filteredUsers == f.result.value && error == "")
        && (f.result.Err? ==> users == old(users) && filteredUsers == old(filteredUsers)
                              && error == ListingError(f.result.error))
      ensures !loading
      ensures showDeleteModal == old(showDeleteModal) && userToDelete == old(userToDelete)
      ensures w.storage == old(w.storage) && w.history == old(w.history)
    {
      loading := true;
      var token := w.GetItem(AccessTokenKey);
      var result, issued := Pagination.FetchAllUsers(server, token);
      w.Send(issued);
      if result.Ok? {
        users := result.value;
        filteredUsers := result.value;
        error := "";
      } else {
        error := ListingError(result.error);
      }
      loading := false;
    }

    /** `toggleAdminStatus(user)`: refused with no request for the protected
        default admin; otherwise a guarded PUT that flips the flag, followed by
        a reload of the list when it succeeds. */
    method ToggleAdminStatus(w: Window, user: Value, network: Request -> Reply,
                             server: Request -> Pagination.Reply<Value>)
      modifies this, w
      ensures ProtectedAdminFlag(user) ==>
                && error == ProtectedFlagMessage
                && users == old(users) && filteredUsers == old(filteredUsers) && loading == old(loading)
                && w.sent == old(w.sent) && w.storage == old(w.storage) && w.history == old(w.history)
      ensures !ProtectedAdminFlag(user) ==>
                var stored := old(w.GetItem(AccessTokenKey));
                var o := UseAuth.Guard(stored, UserUrl(Get(user, "id")), ToggleOptions(user), network);
                var s := Settle(o.result, "Failed to update user admin status");
                && w.history == old(w.history) + o.navigations
                && w.storage == old(w.storage) - o.removed
                && (s.Failed? ==>
                      && error == ErrorAfter(old(error), s.message, "Error updating user admin status")
                      && users == old(users) && filteredUsers == old(filteredUsers) && loading == old(loading)
                      && w.sent == old(w.sent) + o.sent)
                && (s.Succeeded? ==>
                      var f := Pagination.Run(server, Pagination.UsersListing(stored), 1);
                      && w.sent == old(w.sent) + o.sent + f.issued
                      && !loading
                      && (f.result.Ok? ==> users == f.result.value && filteredUsers == f.result.value && error == "")
                      && (f.result.Err? ==> users == old(users) && filteredUsers == old(filteredUsers)
                                            && error == ListingError(f.result.error)))
      ensures showDeleteModal == old(showDeleteModal) && userToDelete == old(userToDelete)
    {
      if ProtectedAdminFlag(user) {
        error := ProtectedFlagMessage;
        return;
      }
      var result := UseAuth.AuthenticatedFetch(w, UserUrl(Get(user, "id")), ToggleOptions(user), network);
      var settled := Settle(result, "Failed to update user admin status");
      if settled.Failed? {
        error := ErrorAfter(error, settled.message, "Error updating user admin status");
      } else {
        FetchUsers(w, server);
      }
    }

    /** `handleDelete(userId)`: the default admin and the user's own account
        are refused with no request (closing the modal); otherwise a guarded
        DELETE, followed on success by a reload and closing the modal. A
        failure keeps the modal open. */
    method HandleDelete(w: Window, userId: Value, currentUser: Value, network: Request -> Reply,
                        server: Request -> Pagination.Reply<Value>)
      modifies this, w
      ensures var refusal := DeleteRefusal(old(users), currentUser, userId);
        refusal.Some? ==>
          && error == refusal.value && !showDeleteModal && userToDelete == Null
          && users == old(users) && filteredUsers == old(filteredUsers) && loading == old(loading)
          && w.sent == old(w.sent) && w.storage == old(w.storage) && w.history == old(w.history)
      ensures DeleteRefusal(old(users), currentUser, userId).None? ==>
                var stored := old(w.GetItem(AccessTokenKey));
                var o := UseAuth.Guard(stored, UserUrl(userId), DeleteOptions, network);
                var s := Settle(o.result, "Failed to delete user");
                && w.history == old(w.history) + o.navigations
                && w.storage == old(w.storage) - o.removed
                && (s.Failed? ==>
                      && error == ErrorAfter(old(error), s.message, "Error deleting user")
                      && users == old(users) && filteredUsers == old(filteredUsers) && loading == old(loading)
                      && showDeleteModal == old(showDeleteModal) && userToDelete == old(userToDelete)
                      && w.sent == old(w.sent) + o.sent)
                && (s.Succeeded? ==>
                      var f := Pagination.Run(server, Pagination.UsersListing(stored), 1);
                      && w.sent == old(w.sent) + o.sent + f.issued
                      && !loading && !showDeleteModal && userToDelete == Null
                      && (f.result.Ok? ==> users == f.result.value && filteredUsers == f.result.value && error == "")
                      && (f.result.Err? ==> users == old(users) && filteredUsers == old(filteredUsers)
                                            && error == ListingError(f.result.error)))
    {
      var refusal := DeleteRefusal(users, currentUser, userId);
      if refusal.Some? {
        error := refusal.value;
        showDeleteModal := false;
        userToDelete := Null;
        return;
      }
      var result := UseAuth.AuthenticatedFetch(w, UserUrl(userId), DeleteOptions, network);
      var settled := Settle(result, "Failed to delete user");
      if settled.Failed? {
        error := ErrorAfter(error, settled.message, "Error deleting user");
      } else {
        FetchUsers(w, server);
        showDeleteModal := false;
        userToDelete := Null;
      }
    }

    /** The delete button of a row: select the row's user and open the modal. */
    method OpenDeleteModal(user: Value)
      modifies this
      ensures userToDelete == user && showDeleteModal
      ensures users == old(users) && filteredUsers == old(filteredUsers) && loading == old(loading)
      ensures error == old(error)
    {
      userToDelete := user;
      showDeleteModal := true;
    }

    /** The Cancel button of the modal. */
    method CancelDelete()
      modifies this
      ensures !showDeleteModal && userToDelete == Null && !DeleteModalVisible()
      ensures users == old(users) && filteredUsers == old(filteredUsers) && loading == old(loading)
      ensures error == old(error)
    {
      showDeleteModal := false;
      userToDelete := Null;
    }
  }

  /** The toggle handler refuses exactly the rows whose badge is locked, so
      the locked badge and the guard agree. */
  lemma ToggleRefusedExactlyWhenLocked(user: Value)
    ensures ProtectedAdminFlag(user) <==> Badge(user) == LockedAdminBadge
  {
  }

  /** The row's own-account check is at least as strict as the handler's:
      any user id the handler would refuse as one's own shows the lock. */
  lemma OwnAccountLockCoversSelfCheck(currentUser: Value, user: Value)
    requires IsSelf(currentUser, Get(user, "id"))
    ensures RowAction(currentUser, user) == OwnAccountLock
  {
  }

  /** A row that shows the delete button passes both refusals of the handler
      when its id finds that same row. */
  lemma DeleteButtonPassesGuards(users: seq<Value>, currentUser: Value, user: Value)
    requires RowAction(currentUser, user) == DeleteButton
    requires FindById(users, Get(user, "id")) == Some(user)
    ensures DeleteRefusal(users, currentUser, Get(user, "id")).None?
  {
  }

  /** The default admin is refused before the self check: an administrator
      who is the "admin" account sees the default-admin message. */
  lemma AdminCheckComesFirst(users: seq<Value>, currentUser: Value, userId: Value)
    requires FindById(users, userId).Some? && IsDefaultAdmin(FindById(users, userId).value)
    requires IsSelf(currentUser, userId)
    ensures DeleteRefusal(users, currentUser, userId) == Some(ProtectedDeleteMessage)
  {
  }

  /** The printed comparison catches an id held as a number on one side and
      as its decimal string on the other. */
  lemma NumericIdMatchesItsString(n: int, currentUser: Value)
    requires currentUser.Obj? && currentUser.fields == map["id" := Num(n)]
    ensures IsSelf(currentUser, Str(IntToString(n)))
    ensures !StrictEquals(Get(currentUser, "id"), Str(IntToString(n)))
  {
  }
}

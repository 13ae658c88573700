# Authentication, pagination and authorization layer of a React admin front-end

This project models the non-presentational core of a small React admin
front-end (brunononogaki/react_boilerplate) in Dafny and proves what that core
promises. The core covers:

- the paginated collection fetch that walks `skip`/`limit` pages until the
  server reports no next page, with a ceiling of 1000 requests;
- the client-side decoder of the bearer token and its claim fallbacks;
- the expiry check, which purges the stored token;
- the `authenticatedFetch` session guard: bearer headers, a redirect when no
  token is stored, and on a 401 the purge of both credentials plus a redirect
  with a message;
- the current-user resolver with its token fallback, and the admin route gate
  with its legacy heuristic;
- the authorization rules of the users page: the default "admin" account cannot
  be deleted and keeps its admin flag, and nobody can delete their own account;
- the admin filter of the sidebar menu;
- the validation chain and update payload of the edit-user form.

One Dafny module stands for each source file. `Pagination` is
src/utils/api.js, `Auth` src/utils/auth.js, `UseAuth` src/hooks/useAuth.js,
and `UserContext` src/contexts/UserContext.jsx. `AdminRoute` and `Sidebar` are
the files of the same name under src/components/common/. `UsersPage` is
src/pages/Users.jsx and `EditUserModal` src/components/users/EditUserModal.jsx.

Four support modules hold what these share:
- `Js` models JavaScript values: truthiness, property access, `||` chains,
  `===` and `String(x)`.
- `Http` holds requests, responses and the bearer headers.
- `Browser` holds a `Window` class. It stands for localStorage, the router's
  navigation history and the log of requests handed to `fetch`.
- `Wrappers` holds `Option` and `Result`.

The things the code cannot see become parameters:
- the network, as an oracle from request to reply;
- `atob` and `JSON.parse`, as partial functions where `None` means the call
  throws;
- the clock, as an integer of milliseconds.

Each state-changing handler is a `method` on a class holding the component's
state cells. It is proved equal to a pure specification function (`Run`,
`Guard`, `CheckToken`, `NextUser`, `GateDecision`, `Validate`, …), and the
source's promises are proved as lemmas about those functions.

Where the description of the system and the code disagree, the model follows
the code:
- **Header precedence.** `authenticatedFetch` spreads the caller's headers
  after the defaults. A caller's `Authorization` or `Content-Type` therefore
  overrides the bearer header (`UseAuth.MergeHeaders`).
- **Undecodable tokens.** A token that cannot be decoded leaves storage
  untouched. Only an expired token is removed.

## Model

| member | source | states |
|---|---|---|
| Pagination.PageRequestQuery | src/utils/api.js:21-34 | the k-th request asks for `skip = (k-1)*pageSize` and `limit = pageSize`, carries the caller's headers, and holds exactly the caller's parameters that are neither null nor undefined; a caller's `skip`/`limit` is overwritten |
| Pagination.FetchAllPaginated | src/utils/api.js:13-62 | the loop's result and issued requests equal the recursive specification `Run` from page 1, whose properties the lemmas below state |
| Pagination.StepPage | src/utils/api.js:40-53 | a page's items and request join the accumulated ones; the fetch goes on from the next page exactly when `has_next` is truthy below the ceiling, and otherwise ends with the accumulated items |
| Pagination.StepFailure | src/utils/api.js:36-58 | a failed page request ends the fetch with its error, discarding the accumulated items |
| Pagination.Run | src/utils/api.js:18-61 | the loop of `fetchAllPaginated` from a page on: it issues at least one request and never more than the pages left below the 1000-page ceiling |
| Pagination.RunIssued | src/utils/api.js:18-53 | from any starting page, the requests are for consecutive pages and never more than the ceiling allows, so a fetch from page 1 issues between 1 and 1000 requests, the k-th for page k |
| Pagination.RunContinuedPages | src/utils/api.js:18-47 | every request but the last got a page whose `has_next` was truthy |
| Pagination.RunLastReply | src/utils/api.js:36-61 | success exactly when the last reply was a page, then all pages' items in order and a stop by falsy `has_next` or the ceiling; otherwise the last reply's error |
| Pagination.RunOutcome | src/utils/api.js:36-61 | every reply but the last was a page with truthy `has_next`; success exactly when the last reply was a page, and then the result is the concatenation of all pages' items in request order, and the loop stopped on a falsy `has_next` or at the ceiling; otherwise the error of the last reply |
| Pagination.RunIgnoresItems | src/utils/api.js:43-47 | only `has_next` decides continuation: servers agreeing on reply kinds and `has_next` truthiness issue the same requests, so an empty page with `has_next` true does not stop the fetch |
| Pagination.AlwaysMoreStopsAtCeiling | src/utils/api.js:49-53 | a server that always reports another page gets exactly 1000 requests, and the accumulated items are returned, not an error |
| Pagination.FailureReturnsNoItems | src/utils/api.js:36-38 | if any issued request failed, the fetch fails; no partial array is returned |
| Pagination.PrependTwice | src/utils/api.js:43 | accumulating two pages in turn equals accumulating their concatenation |
| Pagination.PrependNothing | src/utils/api.js:14 | the empty accumulator changes nothing |
| Pagination.CountRequest | src/utils/api.js:113-124 | the count request asks for `skip=0` and `limit=1` |
| Pagination.GetTotalCount | src/utils/api.js:110-139 | `total_count` when the page fetch succeeded and it is truthy, 0 on every other path (falsy count, non-ok status, exception) |
| Pagination.FetchAllDevices | src/utils/api.js:70-85 | the device listing is `Run` over the devices endpoint; every request carries the bearer headers; `monitoring` is in the query exactly when the filter is neither null nor undefined, and then equals the filter |
| Pagination.DevicesParams | src/utils/api.js:70-82 | `monitoring` is a parameter exactly when the filter, after the `null` default, is not null, and then it is the filter; nothing else is added |
| Pagination.FetchAllUsers | src/utils/api.js:186-195 | the users listing is `Run` over the users endpoint with the bearer headers and no extra parameters |
| Http.BearerHeaders | src/utils/api.js:186-190 | exactly the `Authorization` and `Content-Type` headers, the token printed after "Bearer " (a missing token prints as "null") |
| Http.MessageOr | src/pages/Users.jsx:73 | `message || fallback` on strings: a non-empty message is kept, an empty one gives the fallback, and the result is empty only when both are |
| Http.DetailMessage | src/pages/Users.jsx:64-65 | the message thrown after a failed response: the `response.json()` rejection when the body is not JSON, else the printed `detail` when it is truthy, else the fallback text |
| Js.Get | src/components/common/AdminRoute.jsx:35 | optional property access: an object's own property, `undefined` for anything else |
| Js.FirstTruthy | src/utils/auth.js:55-60 | a `||` chain yields the fallback when no operand is truthy, and otherwise the first truthy operand |
| Js.Or | src/utils/api.js:133 | `a || b` is `a` when truthy and `b` otherwise |
| Js.ToLower | src/components/common/AdminRoute.jsx:35 | `toLowerCase` on ASCII: keeps the length and lower-cases each character |
| Js.Contains | src/components/common/AdminRoute.jsx:35 | `includes` holds for a prefix, and only for a substring no longer than the string |
| Js.FirstTruthyAt | src/utils/auth.js:55-60 | an `||` chain yields its first truthy operand |
| Js.IntToStringInjective | src/pages/Users.jsx:96 | two integers print the same exactly when they are equal |
| Js.ToJsStringOnNumbers | src/pages/Users.jsx:96 | `String(a) === String(b)` on numbers is equality, and a number matches a string exactly when the string is its decimal form |
| Browser.Window.constructor | src/hooks/useAuth.js:25 | a window with the given storage, no navigation and no request yet |
| Browser.Window.GetItem | src/hooks/useAuth.js:25 | `localStorage.getItem`: the stored string, or null when the key is absent |
| Browser.Window.RemoveItem | src/hooks/useAuth.js:10-11 | `localStorage.removeItem` drops exactly that key and touches nothing else |
| Browser.Window.Navigate | src/hooks/useAuth.js:14-17 | `navigate` appends exactly one entry to the history |
| Browser.Window.Send | src/hooks/useAuth.js:32-39 | handing requests to `fetch` appends them to the log of sent requests |
| Auth.Split | src/utils/auth.js:12 | splitting yields one more part than there are separators, and no part contains the separator |
| Auth.JoinSplit | src/utils/auth.js:12 | joining the parts with the separator gives back the original string |
| Auth.SplitWithoutSeparator | src/utils/auth.js:12 | a string without the separator splits into itself alone |
| Auth.SplitAfterPart | src/utils/auth.js:12 | a separator-free part followed by the separator splits into that part and the split of the rest |
| Auth.SplitJoin | src/utils/auth.js:12 | splitting separator-free parts joined by the separator gives back the parts |
| Auth.ThreeSegments | src/utils/auth.js:12-13 | a token has three segments exactly when it holds two dots |
| Auth.Base64UrlToStandard | src/utils/auth.js:16 | same length, every '-' becomes '+', every '_' becomes '/', every other character is kept, and no '-' or '_' remains |
| Auth.DecodeToken | src/utils/auth.js:8-23 | null for a missing or empty token and for a token without exactly three segments; for a three-segment token, exactly what `JSON.parse` gives for the `atob` of the translated middle segment, and null when either of them fails |
| Auth.DecodeAssembledToken | src/utils/auth.js:12-18 | a token assembled from three dot-free segments decodes to the parse of its decoded middle segment, or null when decoding or parsing fails |
| Auth.DecodeDependsOnlyOnPayload | src/utils/auth.js:15-16 | header and signature segments do not affect the decoded value |
| Auth.Claims | src/utils/auth.js:55-65 | the claims read in the given order |
| Auth.FirstTruthyOfThree | src/utils/auth.js:65 | a three-operand `||` chain, case by case |
| Auth.ResolveClaims | src/utils/auth.js:55-72 | the resolved username and user id are always truthy; email is a truthy `email` or null; first name is `first_name`, else `given_name`, else null, and last name likewise from `last_name` and `family_name`; `exp` and `iat` are copied |
| Auth.UsernameResolution | src/utils/auth.js:55-60 | the username is the first truthy of username, sub, user_id, email, preferred_username, and "User" when none is |
| Auth.UserIdResolution | src/utils/auth.js:65 | the user id is sub if truthy, else user_id if truthy, else the resolved username |
| Auth.CheckToken | src/utils/auth.js:31-72 | no token exactly when the stored value is missing or empty; for a stored token, undecodable exactly when the decoded payload is falsy, expired exactly when it is truthy and expired, valid exactly when it is truthy and unexpired, with the user resolved from it |
| Auth.ExpiresBefore | src/utils/auth.js:48 | `exp < now` in seconds: for a number, exactly when `exp * 1000` is below the clock in milliseconds; only numbers and booleans can compare below |
| Auth.IsExpired | src/utils/auth.js:48 | expiry needs an object payload with an `exp`; a zero or false `exp` is never expired |
| Auth.ExpiredTokenIsPurged | src/utils/auth.js:46-52 | a stored token whose payload is truthy and expired yields the expired verdict |
| Auth.UnexpiredTokenYieldsUser | src/utils/auth.js:46-72 | a stored token whose payload is truthy and unexpired yields the user resolved from its claims |
| Auth.GetUserFromToken | src/utils/auth.js:29-77 | a user exactly for a valid verdict, equal to the resolved claims; `access_token` removed exactly for an expired token; storage otherwise, navigation and requests unchanged |
| Auth.IsAuthenticated | src/utils/auth.js:83-86 | true exactly when `getUserFromToken` yields a user, with the same purge |
| Auth.ExpiryBoundary | src/utils/auth.js:47-48 | one second past `exp` is expired, one second before is not |
| UseAuth.MergeHeaders | src/hooks/useAuth.js:32-39 | the bearer defaults overlaid by the caller's headers: every caller entry wins, and a default survives only where the caller gives none |
| UseAuth.Guard | src/hooks/useAuth.js:24-47 | no token: "No token available", one login redirect, nothing sent or removed; otherwise exactly the one merged request is sent; an ok result is never a 401 and purges and redirects nothing; any purge comes with "Authentication failed" |
| UseAuth.UnauthorizedEndsSession | src/hooks/useAuth.js:7-44 | a 401 removes `access_token` and `user_data`, navigates once to /login with replace and the expiry message, and yields "Authentication failed" |
| UseAuth.OtherAnswersPassThrough | src/hooks/useAuth.js:21-46 | any other status returns the response unmodified and touches nothing |
| UseAuth.NetworkErrorPropagates | src/hooks/useAuth.js:32-46 | a request `fetch` rejects rethrows its error, with nothing purged and no navigation |
| UseAuth.HandleAuthError | src/hooks/useAuth.js:7-22 | true exactly on a 401, which removes both keys and appends the one redirect; otherwise nothing changes |
| UseAuth.AuthenticatedFetch | src/hooks/useAuth.js:24-47 | result, requests sent, keys removed and navigations are exactly those of `Guard` on the token stored at the call |
| UserContext.Classify | src/contexts/UserContext.jsx:24-44 | a profile exactly for an ok response with a JSON body; "Authentication failed" exactly for that message (also as a body rejection); every other outcome takes the fallback |
| UserContext.FallbackProfile | src/contexts/UserContext.jsx:34-39 | the fallback profile carries the user id as `id` and `user_id`, the username, and `is_admin` false |
| UserContext.TokenFallback | src/contexts/UserContext.jsx:32-33 | a fallback profile exactly when the token user exists with a truthy user id |
| UserContext.NextUser | src/contexts/UserContext.jsx:26-56 | the body verbatim on a profile; unchanged after "Authentication failed"; the fallback profile when the token yields one, else unchanged |
| UserContext.IsAdminProfile | src/contexts/UserContext.jsx:71-73 | `currentUser?.is_admin === true`: only an object whose `is_admin` is exactly `true`; any other flag, truthy or not, is refused |
| UserContext.UserProvider.constructor | src/contexts/UserContext.jsx:17-18 | no user and loading |
| UserContext.UserProvider.FetchCurrentUser | src/contexts/UserContext.jsx:21-60 | the new user is `NextUser` of the guarded `/users/me` outcome and of the token verdict; loading ends false on every path; the window changes as `Guard` says, plus the expiry purge on a fallback |
| UserContext.UserProvider.ClearUser | src/contexts/UserContext.jsx:66-69 | no user, not loading, not admin |
| UserContext.UserProvider.IsAdmin | src/contexts/UserContext.jsx:71-73 | `isAdmin()` is the strict test on the current user, so it needs an object user |
| UserContext.FallbackIsNeverAdmin | src/contexts/UserContext.jsx:31-73 | the token fallback never passes `isAdmin` |
| UserContext.AdminOnlyFromServer | src/contexts/UserContext.jsx:21-73 | after the fetch the user is an administrator only if the server's profile had `is_admin === true`, or the user already was one and the call failed |
| UserContext.ValidTokenAlwaysFallsBack | src/contexts/UserContext.jsx:29-56 | a valid token always yields the fallback profile (the user id is never falsy) |
| AdminRoute.ContainsAt | src/components/common/AdminRoute.jsx:35 | `includes` finds a substring at any position |
| AdminRoute.ContainsOccurs | src/components/common/AdminRoute.jsx:35 | conversely, when `includes` holds, the substring starts at some position |
| AdminRoute.LegacyHeuristic | src/components/common/AdminRoute.jsx:35 | admits exactly a lower-cased string username containing "admin", or `id === 1` when the username is a string, null or undefined; any other username type throws |
| AdminRoute.AdminFromProfile | src/components/common/AdminRoute.jsx:27-38 | a null profile throws; a defined `is_admin` decides by `=== true` alone; an undefined one falls back to the heuristic |
| AdminRoute.GateDecision | src/components/common/AdminRoute.jsx:13-48 | admitted exactly when the token yields a user, the guarded `/users/me` answers ok with a JSON body, and the profile is judged admin; every other path, each thrown error included, denies |
| AdminRoute.AdminGate.constructor | src/components/common/AdminRoute.jsx:8-9 | verdict null and loading |
| AdminRoute.AdminGate.Render | src/components/common/AdminRoute.jsx:53-68 | the spinner exactly while loading, the children exactly once loaded with a true verdict, otherwise a replacing redirect to "/" |
| AdminRoute.AdminGate.CheckAdminStatus | src/components/common/AdminRoute.jsx:13-48 | the verdict is `GateDecision`, loading ends false, and the children render exactly then; without a valid token user no request is sent |
| AdminRoute.ExplicitFlagWins | src/components/common/AdminRoute.jsx:30-33 | a profile with `is_admin` set is judged by `=== true` alone |
| AdminRoute.LegacyAdminName | src/components/common/AdminRoute.jsx:33-35 | without the flag, "SuperAdmin" is admitted |
| AdminRoute.LegacyFirstUser | src/components/common/AdminRoute.jsx:33-35 | without the flag, id 1 is admitted whatever the name |
| AdminRoute.NonStringUsernameThrows | src/components/common/AdminRoute.jsx:35-44 | without the flag, a numeric username throws and denies |
| AdminRoute.GateIsMoreLenient | src/components/common/AdminRoute.jsx:30-36 | every strict `is_admin === true` profile is admitted, and a legacy profile without the flag is admitted too |
| UsersPage.IsSelf | src/pages/Users.jsx:93-97 | the self check needs a truthy current user, and an equal numeric `id` always matches |
| UsersPage.IsCurrentUserRow | src/pages/Users.jsx:272-277 | the row check needs a truthy current user, matches every id the self check matches, and also a matching string username |
| UsersPage.RowAction | src/pages/Users.jsx:271-311 | the own-account lock exactly for the current user (id, user_id, username or printed id match), else the admin lock exactly for "admin", else the delete button |
| UsersPage.Badge | src/pages/Users.jsx:229-267 | the locked badge exactly for "admin" with a truthy flag; otherwise a toggle showing the flag's truthiness |
| UsersPage.FindById | src/pages/Users.jsx:82 | none when no id matches strictly, else the first matching user |
| UsersPage.DeleteRefusal | src/pages/Users.jsx:82-102 | the default-admin refusal exactly when the found user is "admin"; the self refusal exactly when not that but the id is one's own; no refusal otherwise |
| UsersPage.Settle | src/pages/Users.jsx:63-112 | success exactly for an ok response; otherwise the thrown message or the error body's detail with the fallback |
| UsersPage.ErrorAfter | src/pages/Users.jsx:70-123 | "Authentication failed" leaves the error text; any other message sets it, an empty one the fallback |
| UsersPage.ToggleOptions | src/pages/Users.jsx:56-61 | a PUT whose body sets `is_admin` to the negated truthiness of the user's flag |
| UsersPage.UsersPage.constructor | src/pages/Users.jsx:12-21 | empty lists, loading, no error, no modal |
| UsersPage.UsersPage.FetchUsers | src/pages/Users.jsx:27-44 | the listing's requests are sent; on success both lists become the data and the error is cleared, on failure the lists stay and the error shows the message; loading ends false |
| UsersPage.UsersPage.ToggleAdminStatus | src/pages/Users.jsx:48-77 | refused with no request for the protected admin flag; otherwise the guarded PUT, then either the error rule or a reload of the list |
| UsersPage.UsersPage.HandleDelete | src/pages/Users.jsx:80-125 | a refusal closes the modal with no request; otherwise the guarded DELETE, then a reload that also closes the modal, or the error rule with the modal left open |
| UsersPage.UsersPage.OpenDeleteModal | src/pages/Users.jsx:299-302 | selects the row's user and opens the modal |
| UsersPage.UsersPage.CancelDelete | src/pages/Users.jsx:356-359 | closes the modal and clears the selection |
| UsersPage.UsersPage.DeleteModalVisible | src/pages/Users.jsx:341 | the confirmation shows only when the flag is set and a user is selected |
| UsersPage.ToggleRefusedExactlyWhenLocked | src/pages/Users.jsx:50-267 | the toggle's refusal and the locked badge agree |
| UsersPage.OwnAccountLockCoversSelfCheck | src/pages/Users.jsx:93-280 | any id the handler refuses as one's own shows the lock in its row |
| UsersPage.DeleteButtonPassesGuards | src/pages/Users.jsx:82-310 | a row with the delete button passes both refusals of the handler |
| UsersPage.AdminCheckComesFirst | src/pages/Users.jsx:85-102 | the default-admin refusal precedes the self refusal |
| UsersPage.NumericIdMatchesItsString | src/pages/Users.jsx:96 | a numeric id matches its decimal string only through the printed comparison |
| Sidebar.FilterChildren | src/components/common/Sidebar.jsx:73-78 | keeps exactly the allowed children in their order (a subsequence), and all of them for an admin |
| Sidebar.Visible | src/components/common/Sidebar.jsx:66-87 | a kept item is allowed and unchanged but for its filtered children; an allowed leaf is kept as it is; an allowed parent is kept exactly when some child survives the filter |
| Sidebar.VisibleMenu | src/components/common/Sidebar.jsx:66-87 | the shown items are exactly the items the callback keeps: each kept item appears, and each shown item is the kept form of a defined one |
| Sidebar.Ids | src/components/common/Sidebar.jsx:66 | the ids of the items in order |
| Sidebar.VisibleMenuIsSafe | src/components/common/Sidebar.jsx:66-83 | for a non-admin nothing admin-only survives at either level, and no parent is shown with an empty children list |
| Sidebar.VisibleMenuKeepsOrder | src/components/common/Sidebar.jsx:66 | the shown ids are an order-preserving subsequence of the defined ids |
| Sidebar.AllowedLeavesAreShown | src/components/common/Sidebar.jsx:66-86 | every allowed leaf item is shown unchanged |
| Sidebar.AdminSeesEverything | src/components/common/Sidebar.jsx:66-87 | an administrator sees every item and child of a menu with no empty children list |
| Sidebar.TheMenu | src/components/common/Sidebar.jsx:20-87 | an administrator sees the whole menu, anyone else Home alone |
| Sidebar.Toggled | src/components/common/Sidebar.jsx:12-17 | the section flips (a missing key counts as closed) and every other section shows as before |
| Sidebar.ToggleTwice | src/components/common/Sidebar.jsx:12-17 | toggling twice restores every section's shown state |
| Sidebar.SidebarState.constructor | src/components/common/Sidebar.jsx:6-8 | only `inventory`, expanded |
| Sidebar.SidebarState.ToggleSection | src/components/common/Sidebar.jsx:12-17 | the sections become `Toggled` of the old ones |
| EditUserModal.TextOr | src/components/users/EditUserModal.jsx:20-22 | a string is kept, a falsy value becomes "" |
| EditUserModal.InitForm | src/components/users/EditUserModal.jsx:17-28 | string fields copied, password fields empty, the flag copied when truthy and false otherwise |
| EditUserModal.ApplyInput | src/components/users/EditUserModal.jsx:30-36 | only the named text field takes the value; the checkbox sets only the flag to `checked` |
| EditUserModal.LeadingWhitespace | src/components/users/EditUserModal.jsx:44 | the length of the white-space prefix: all of it white space, the next character not |
| EditUserModal.TrailingWhitespace | src/components/users/EditUserModal.jsx:44 | the length of the white-space suffix: all of it white space, the character before it not |
| EditUserModal.TrimStart | src/components/users/EditUserModal.jsx:44 | a suffix without leading white space, everything removed being white space |
| EditUserModal.TrimEnd | src/components/users/EditUserModal.jsx:44 | a prefix without trailing white space, everything removed being white space |
| EditUserModal.BlankIffAllWhitespace | src/components/users/EditUserModal.jsx:44-60 | a field fails the required check exactly when all its characters are white space |
| EditUserModal.MatchesEmailPattern | src/components/users/EditUserModal.jsx:63-64 | the regex needs three non-empty runs and two separators, so an accepted address has at least five characters |
| EditUserModal.EmailPatternCharacterized | src/components/users/EditUserModal.jsx:63-64 | the regex accepts exactly the strings with no white space and exactly one '@', not first, followed later by a '.' that is neither right after it nor last |
| EditUserModal.EmailPartOfSlice | src/components/users/EditUserModal.jsx:63 | a slice is one run of `[^\s@]+` exactly when it is non-empty and holds neither white space nor '@' |
| EditUserModal.PatternIsValidEmail | src/components/users/EditUserModal.jsx:63-64 | every string the regex accepts satisfies the character-wise rule |
| EditUserModal.ValidEmailMatchesPattern | src/components/users/EditUserModal.jsx:63-64 | every string satisfying the character-wise rule is accepted by the regex |
| EditUserModal.AcceptsPlainAddress | src/components/users/EditUserModal.jsx:63 | "ana@example.com" is accepted |
| EditUserModal.RejectsMissingLocalPart | src/components/users/EditUserModal.jsx:63 | "@example.com" is rejected |
| EditUserModal.RejectsMissingDot | src/components/users/EditUserModal.jsx:63 | "ana@example" is rejected |
| EditUserModal.Validate | src/components/users/EditUserModal.jsx:44-83 | passes exactly when the three fields are non-blank, the email matches, and a non-empty password has at least 6 characters and equals its confirmation |
| EditUserModal.FirstFailure | src/components/users/EditUserModal.jsx:44-83 | none exactly when all checks pass, else the message of the first failing one |
| EditUserModal.ValidateReportsFirstFailure | src/components/users/EditUserModal.jsx:44-83 | the early-return chain reports the first failing check in source order |
| EditUserModal.FirstFailureUnfolds | src/components/users/EditUserModal.jsx:44-83 | six checks in order, first failure wins |
| EditUserModal.Payload | src/components/users/EditUserModal.jsx:88-103 | never `confirmPassword`; email and names always; password exactly when non-empty; the flag exactly when present and defined |
| EditUserModal.UpdateRequest | src/components/users/EditUserModal.jsx:86-104 | a PATCH of the payload to the user's URL with the stored token's bearer headers |
| EditUserModal.SubmitError | src/components/users/EditUserModal.jsx:106-125 | none exactly for an ok response; otherwise the rejection's message or the detail with the status fallback, empty messages replaced |
| EditUserModal.UnauthorizedIsPlainFailure | src/components/users/EditUserModal.jsx:106-110 | a 401 shows "Failed to update user (401)" like any other status |
| EditUserModal.EditForm.constructor | src/components/users/EditUserModal.jsx:5-14 | the empty form with the flag false, not loading, no error |
| EditUserModal.EditForm.SyncFromUser | src/components/users/EditUserModal.jsx:17-28 | a truthy user fills the form, otherwise nothing changes |
| EditUserModal.EditForm.HandleInputChange | src/components/users/EditUserModal.jsx:30-36 | the form becomes `ApplyInput` of the event |
| EditUserModal.EditForm.HandleSubmit | src/components/users/EditUserModal.jsx:38-129 | a failed check shows its message and sends nothing; otherwise exactly the PATCH is sent, and on success the form resets, the error clears and the modal closes, else the error shows; loading ends false; storage and navigation untouched |
| EditUserModal.EditForm.HandleClose | src/components/users/EditUserModal.jsx:131-140 | the form resets and the error clears |
| EditUserModal.ResetDropsAdminFlag | src/components/users/EditUserModal.jsx:112-119 | after a reset, neither the flag nor a password is sent |
| EditUserModal.EmptyPasswordSkipsPasswordChecks | src/components/users/EditUserModal.jsx:71-95 | with an empty password, the confirmation does not matter, and no password is sent |

## Left out

- Markup, CSS, icons, Layout, ResponsiveTable, Home, Login and Header are not modelled: they are presentation or form plumbing.
- React scheduling, effects and async interleaving are not modelled. Each handler is one sequential step.
- `console` output is not modelled.
- URL serialisation is left out. The query keeps each value as set, and printing it with `String(value)` belongs to the `URL` class. A base endpoint that `new URL` rejects is not modelled.
- `import.meta.env.VITE_API_BASE_URL` is not modelled. The base URL is the built-in default.
- `fetchAllCircuits`, `fetchAllClients`, `fetchAllServices`, `getDevicesCount` and `getCircuitsCount` are not modelled separately. Each is `FetchAllPaginated` or `GetTotalCount` with another endpoint or fixed parameters, as `FetchAllDevices` and `FetchAllUsers` show.
- Numbers are integers, and JSON arrays are not a value of their own. An array behaves like an object without the named properties.
- Auth.ExpiresBefore: an `exp` that is a numeric string compares as NaN (not expired), whereas JavaScript would convert the string to a number.
- `===` on two objects is always false, since the model has no object identity.
- `toLowerCase` is modelled on ASCII letters only. String length counts characters, not UTF-16 units.
- Http.DetailMessage: a JSON body of `null` makes `errorData.detail` throw a TypeError whose message is engine-specific. The model uses the fallback message instead.
- UsersPage.FindById: a null entry in the users list makes `u.id` throw in the source. The model treats the entry as having no id.
- EditUserModal.InitForm: a truthy non-string `email`, `first_name` or `last_name` is printed with `String(value)`. In the source it stays a non-string, and the later `trim()` throws outside the handler's `try`.
- EditUserModal.EditForm.HandleSubmit: requires a non-null user, because `user.id` would throw an engine-specific message. The `onClose` and `onUserUpdated` callbacks are reported through the `closed` result.
- The request body is the value given to `JSON.stringify`, not the printed JSON text.
- Header names are compared case-sensitively.
- The in-place reassignment of `item.children` in the sidebar filter is modelled on values. The menu array is rebuilt on every render, so nothing observes the mutation.

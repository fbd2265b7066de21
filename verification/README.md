# Access management, verified

A Dafny 4.11 model of the identity and access management server: role bindings and namespace
managers, login lock-out, request authorization, token lifetimes and list queries. `dafny verify
dfyconfig.toml` checks all of it.

The code that changes things step by step is modelled by classes and methods with the same steps
(`Membership.AmOperator`, `GlobalRoles.AmOperator`, `Finalizer.UserReconciler`, `Lockout.LoginSystem`,
`Cache.InMemoryCache`, `Tokens.TokenOperator`, the visitor, the request parser, the list methods).
Each method is proved equal to a function on values, and the theorems are about those functions:
over every input, every run, every fault and every listing order.

| module | what it covers |
|---|---|
| `Iam`, `Strings`, `Sorting`, `Slices` | API objects, call faults, string and slice operations |
| `Naming` | binding names "user-role" and when they are injective |
| `Membership` | granting, handing over and removing namespace roles, one fallible API call at a time |
| `MembershipRuns` | the same under any faults: retries, runs, and what failing lists leave behind |
| `Unmanaged` | namespaces without a manager on record: what a hand-over does to unlabelled bindings |
| `GlobalRoles` | platform roles and their two readers |
| `Finalizer` | clean-up after a deleted user |
| `Lockout` | failed-login records, locking, unlocking, record collection |
| `Login` | the platform role a login reports |
| `Rules`, `Authorization` | policy rules, the RBAC visitor, the path authorizer and the union |
| `RequestPath` | scope, verb and object of a request path |
| `EndToEnd` | what a grant or a removal does to requests in the namespace |
| `Cache`, `Tokens` | the expiring cache, its cleaner, and token expiry |
| `Listing`, `Results`, `UserJoin` | paging, list filtering, users mentioned by bindings |

A call to the API server is `Delivered`, lost before it takes effect (`RequestLost`) or lost after it
(`ResponseLost`); bulk deletes may also fail half way. Lists answer in any order.

What the proofs found out about the code:

- A failed `List` is taken for an empty one. A grant can then report success and leave the user, or
  the old manager, with two bindings. `MembershipRuns.FailedListsDuplicate` says exactly when, for
  any fates of all calls; `MembershipRuns.DuplicatesHappen` gives a namespace where either list does
  it. Retrying never repairs it (`MembershipRuns.DuplicatesSurvive`):
  `MembershipRuns.RetryConvergesIff` says that a retried grant ends where an uninterrupted one does
  exactly when nobody touched is left with two bindings.
- For the same reason a removal can report success and remove nothing
  (`MembershipRuns.RemoveOutcome`; `MembershipRuns.RemovalIgnored` gives a namespace), and the role
  then stays in force for requests (`EndToEnd.RemovalTakesEffect`); after a grant the old role can
  stay in force beside the new one (`EndToEnd.GrantTakesEffect`), and the old manager's admin role
  beside the operator one (`EndToEnd.HandOverTakesEffect`).
- A namespace without the creator annotation has the empty string for its manager, which is also the
  label of every binding made by other means. Granting somebody admin there deletes the first such
  binding listed and creates one named "-operator" for nobody (`Unmanaged.UnlabelledOutcome` says
  exactly when, `Unmanaged.ForeignBindingLost` gives a namespace). Repeating a failed grant can
  delete another one: `Unmanaged.AlwaysConvergesIff` says that such grants can be repeated safely
  exactly when at most one binding is unlabelled. Without any annotation the grant then panics,
  after all its deletions and creations (`Unmanaged.PanicsIff`). An API server that refuses a
  subject without a name makes the creation for nobody fail, which the theorems cover as a lost
  call.
- Some admin binding exists after every call of a hand-over, but granting the manager admin again,
  or retrying a hand-over whose old manager has lost the admin binding, passes through a namespace
  without one (`MembershipRuns.AdminThroughout` gives the exact condition,
  `MembershipRuns.AdminMissing` a namespace).
- The login path reports the user "admin" as platform admin whatever is stored, and takes a lost Get
  for a missing binding (`GlobalRoles.ReadersAgree`). It asks under the login as typed, so by mail
  address it finds no role at all (`Login.LoginReportsRole`); the token endpoint is spared that,
  because it first describes the user by the login as a name (`Login.GrantedTokenReportsRole`).
- A wrong password sent under a mail address is recorded for the address with its '@' replaced, not
  for the user found by it, so a user attacked only that way is never locked
  (`Lockout.NeverLockedByAlias`).
- Attempts with an empty password are recorded even while the user is locked, so each of them spends
  part of the budget that an unlock should restore (`Lockout.EmptyPasswordsSpendTheBudget`; without
  such records `Lockout.RelockNeedsTenNewFailures` holds).
- `Exists` ignores deadlines, so token acceptance depends on the cleaner never being early. Where
  the JWT library accepts the second named by `exp`, which section 4.1.4 of RFC 7519 excludes, and
  the clock skew is less than a second, it can be: unless both configured lifetimes end a nanosecond
  short of a whole second, some run sweeps a token whose expiry claim still holds, whether or not
  sweeps come in the middle of an issue (`Tokens.ConfiguredRunsExactIff`). If tokens are also issued
  with lifetimes of their own, no lifetimes help, because the same refresh token can be cached again
  with an earlier deadline (`Tokens.AllRunsExactIff`).
- An access token issued with a given lifetime of zero never expires, whatever the cache holds
  (`Tokens.GivenAccessAccepted`), while its refresh token is never cached and so never accepted
  (`Tokens.GivenRefreshRejected`).
- Lists over all namespaces can hold different objects that tie; the order of such a list depends on
  the order of arrival and on the library sort (`Listing.OneAnswerIff`).
- A few resource names are not addressable everywhere (`RequestPath.RoundTrip`). A watch whose label
  selector names a workspace leaves the scope of the namespace in its path, so that namespace's
  bindings do not count for it (`EndToEnd.WorkspaceWatchIsGlobal`).
- Groups count only for requests without a user name (`Authorization.NobodyAuthorizedMeans`).

## Model

| member | source | states |
|---|---|---|
| Naming.NamesInjectiveIff | pkg/middles/iam/am/am.go:503 | binding names over a role vocabulary tell (user, role) pairs apart if and only if no "-r" ends another role's "-s" |
| Naming.NameDetermines | pkg/middles/iam/am/am.go:534 | over such a vocabulary a name determines its user and role |
| Membership.AmOperator.GetNamespaceRoleBindingByUser | pkg/middles/iam/am/am.go:711-725 | the scan of the listed bindings finds the first one labelled with the user, and a failed list reads as none |
| Membership.AmOperator.DeleteNamespaceRoleBindingByUser | pkg/middles/iam/am/am.go:727-733 | the calls made, their errors and the namespace after each |
| Membership.AmOperator.CreateNamespaceRoleBinding | pkg/middles/iam/am/am.go:481-563 | for any faults the call-by-call history of the namespace and the error are those the theorems below are about, the panic on a nil annotation map standing as an outcome of its own; a missing namespace is an error and changes nothing |
| Membership.AmOperator.RemoveUserFromNamespace | pkg/middles/iam/am/am.go:565-582 | the same for removing a member |
| Membership.AmOperator.CreateNamespaceMembers | pkg/aiapis/iam/v1/handler.go:332-357 | a bulk request grants in order and stops at the first error |
| Membership.Refusals | pkg/middles/iam/am/am.go:520-522 | a call that gets through is refused if its object is missing, or there already, and then changes nothing |
| Membership.FindTidy | pkg/middles/iam/am/am.go:711-725 | in a tidy namespace a user's binding is found exactly if there is one, whatever the listing order |
| Membership.DeleteByUserTidy | pkg/middles/iam/am/am.go:727-733 | whatever becomes of the delete, only that user's binding can go; without an error it is gone |
| Membership.CreateForTidy | pkg/middles/iam/am/am.go:501-522 | the name for a user without binding is always free, so creating never meets "already exists" |
| Membership.GrantOutcome | pkg/middles/iam/am/am.go:481-563 | with both lists answered and any other faults, one attempt from any state left by earlier ones, nobody touched having two bindings: after every call only touched users differ, the old manager is operator before the annotation changes, and success, or the panic at the nil map, means the target state is reached |
| MembershipRuns.GrantAnyFault | pkg/middles/iam/am/am.go:481-563 | with any faults at all, failing lists included, and with or without a manager on record: after every call only touched users differ, bindings are canonical, the old manager is operator before the annotation changes, and nobody but the user loses a binding before the user is admin. Nobody counts as the manager touched where there is none on record |
| MembershipRuns.RetryConvergesIff | pkg/middles/iam/am/am.go:481-563 | any number of attempts with any faults, then a clean one: it ends with exactly the namespace and error of one uninterrupted call if and only if the attempts left nobody touched with two bindings, provided nobody touched had two to begin with |
| Unmanaged.AlwaysConvergesIff | pkg/middles/iam/am/am.go:481-563 | with lists answered all retries converge, for all orders of listing, if and only if the grant does not take over a namespace without a manager in which two bindings are unlabelled |
| MembershipRuns.RetryConverges | pkg/middles/iam/am/am.go:481-563 | as long as lists are answered it always does |
| MembershipRuns.DuplicatesSurvive | pkg/middles/iam/am/am.go:501-558 | no grant that reports success or panics, from any sound namespace and under any faults, ends the doubling of anybody |
| MembershipRuns.AdminThroughout | pkg/middles/iam/am/am.go:495-558 | under any faults, with or without a manager on record, some admin binding exists after every single call if somebody other than the user is admin at the start, and without faults only then |
| MembershipRuns.AdminMissing | pkg/middles/iam/am/am.go:495-518 | in a concrete good namespace granting the manager admin again, without any fault, ends where it began and passes through a namespace without admin |
| MembershipRuns.AnotherAdminInGood | pkg/middles/iam/am/am.go:525 | in a good namespace that condition holds for everybody but the manager, so for every hand-over |
| MembershipRuns.RunKeeps | pkg/aiapis/iam/v1/handler.go:332-384 | over every run of add, update, bulk add and remove: canonical bindings, and a manager once on record, under any faults; at most one binding per user if lists are answered; without faults exactly one admin, the creator on record |
| MembershipRuns.RunStep | pkg/aiapis/iam/v1/handler.go:332-384 | a run is its requests one after the other |
| MembershipRuns.FailedListsDuplicate | pkg/middles/iam/am/am.go:481-563 | for every grant not refused, with or without a manager on record, and any fates of its calls, read off the start: when it reports success, when it panics, and when it leaves the user or the old manager with two bindings |
| MembershipRuns.GrantEnds | pkg/middles/iam/am/am.go:481-563 | from any namespace and under any fates of the calls, which error a grant ends with and what it leaves, read off the bindings |
| MembershipRuns.BulkSteps | pkg/aiapis/iam/v1/handler.go:332-357 | a bulk request goes through the states of its grants one after the other, up to the first that fails, and ends with that error |
| MembershipRuns.DuplicatesHappen | pkg/middles/iam/am/am.go:711-733 | in a concrete good namespace a hand-over with only the first or only the second list lost reports success and breaks the one-binding rule |
| MembershipRuns.RemoveOutcome | pkg/middles/iam/am/am.go:565-582 | every removal, whatever the fates of its calls: when it reports success, when it is refused, and what it leaves; without faults every user but the manager is left without a binding, and if the list fails it can report success and change nothing |
| MembershipRuns.RemovalIgnored | pkg/middles/iam/am/am.go:565-582 | in a concrete good namespace a removal with only the list lost reports success and leaves the member's binding |
| MembershipRuns.GrantedBindings | pkg/middles/iam/am/am.go:481-563 | after a grant that reports success, under any faults, the user's bindings are the new one and, if the first list failed, the old one |
| MembershipRuns.OldManagersBindings | pkg/middles/iam/am/am.go:524-558 | after a hand-over that reports success, the old manager's bindings are the operator one and, if the second list failed, the one held before |
| Unmanaged.UnlabelledOutcome | pkg/middles/iam/am/am.go:481-563 | from any namespace whose labelled bindings are canonical, under any faults: an unlabelled binding is lost exactly if a namespace without a manager is taken over, there is one, the second list is answered and its delete is not lost; then exactly the first one listed; and the unlabelled bindings in the end |
| Unmanaged.PanicsIff | pkg/middles/iam/am/am.go:535-550 | for any namespace and any faults, a grant panics exactly if it takes over a namespace without annotations and every call before the write to them succeeds |
| Unmanaged.ForeignBindingLost | pkg/middles/iam/am/am.go:481-563 | in a concrete namespace a grant without any fault deletes a binding made by other means, and reports success, or panics if there are no annotations |
| GlobalRoles.AmOperator.ListGlobalRoleBindings | pkg/middles/iam/am/am.go:208-223 | the listed bindings that name the user, in order |
| GlobalRoles.AmOperator.CreateGlobalRoleBinding | pkg/middles/iam/am/am.go:320-371 | the store and error after the loop of deletes and the create, for any faults |
| GlobalRoles.PlatformRolesUnambiguous | pkg/api/iam.ai.io/v1/types.go:17-19 | whatever the configured prefix, the three platform roles give injective binding names |
| GlobalRoles.DropOthersOutcome | pkg/middles/iam/am/am.go:333-345 | the delete loop touches the user's bindings only and finishes with none left, unless it keeps the requested one and then changes nothing |
| GlobalRoles.GrantGlobalOutcome | pkg/middles/iam/am/am.go:320-371 | under any faults bindings stay canonical and at most one per user, nobody else's change; success leaves exactly the requested role |
| GlobalRoles.GrantGlobalEnds | pkg/middles/iam/am/am.go:320-371 | when a grant reports success or an unknown role, and what it leaves, read off the store and the fates of the calls |
| GlobalRoles.GrantToUnnamed | pkg/middles/iam/am/am.go:346-371 | in any store, for a user whom no listed binding names, the binding is created unless its name is taken |
| GlobalRoles.GrantEachStep | pkg/middles/iam/am/am.go:320-371 | a run is its grants one after the other |
| EndToEnd.GlobalGrantTakesEffect | pkg/aiserver/authorization/rbac/rbac.go:181-213 | after a platform role was granted without error the global bindings allow the user's requests exactly if that role does |
| GlobalRoles.ReadersAgree | pkg/middles/auth/authenticator.go:130-148 | after every run of grants, with any calls lost, the name-guessing reader, whose Gets may be lost, and the subject-scanning reader agree up to the prefix exactly when the Get of the stored binding is answered; for "admin" exactly when it is bound as platform admin |
| GlobalRoles.ScannedRole | pkg/middles/iam/am/am.go:100-118 | the scanning reader reports a role exactly when the binding with the name for it is stored |
| Finalizer.UserReconciler.DeleteUserRoleBindings | pkg/controllers/user/user_controller.go:100-120 | the cluster after deleting global and per-namespace bindings, stopping at the first failure |
| Finalizer.UserReconciler.Reconcile | pkg/controllers/user/user_controller.go:54-78 | the cluster after reconciling a user being deleted |
| Finalizer.ReconcileOutcome | pkg/controllers/user/user_controller.go:54-78 | the finalizer goes if and only if every clean-up call succeeded and the update took effect; then nothing labelled with the user is left and everything else is as before |
| Finalizer.NothingToDo | pkg/controllers/user/user_controller.go:60-62 | without the finalizer nothing changes and nothing fails |
| Finalizer.CleanUpConverges | pkg/controllers/user/user_controller.go:54-128 | any number of failing reconciles, each getting any distance, and a clean one end where one clean reconcile would |
| Lockout.LoginSystem.SyncUserStatus | pkg/controllers/user/user_controller.go:148-206 | the cluster and the error after one sync of a user not being deleted, with the counting loop, a list that may fail and an update that may be lost |
| Lockout.LoginSystem.RecordLogin | pkg/middles/auth/login_recorder.go:29-63 | unless the request is lost exactly one record is added, labelled with the login name with '@' replaced |
| Lockout.LoginSystem.AuthenticatePassword | pkg/aiserver/authentication/authoricators/basic/basic.go:33-54 | only an incorrect password is recorded, a failing lookup is not, and a failure to record is ignored |
| Lockout.LoginSystem.ReconcileLoginRecord | pkg/controllers/loginrecord/loginrecord_controller.go:24-57 | last-login update, unless the user is being deleted, and collection of one record, either of which may fail, and the error |
| Lockout.CountIsCardinality | pkg/controllers/user/user_controller.go:185-192 | the counter equals the number of failed records in the window |
| Lockout.LocksIff | pkg/controllers/user/user_controller.go:194-203 | a sync locks an active user who is not being deleted exactly when the records are listed, ten failed ones are less than ten minutes old, and the update is not lost |
| Lockout.SyncOutcome | pkg/controllers/user/user_controller.go:148-206 | everything a sync does to any user: who becomes active, who is locked or locked again, what is written, and when it fails |
| Lockout.LockHolds | pkg/controllers/user/user_controller.go:164-176 | in every run a lock lasts ten minutes from its transition time unless the user is disabled |
| Lockout.LockTimeBound | pkg/controllers/user/user_controller.go:164-203 | in every run a locked user's transition time is less than ten minutes after the newest failed record ever written, though re-locking refreshes it |
| Lockout.UnlockedAfterTwentyMinutes | pkg/controllers/user/user_controller.go:164-203 | twenty minutes after the newest failure any sync whose update is not lost makes a locked user who is not being deleted active, even if the records cannot be listed, and no sync locks anybody |
| Lockout.DisabledStays | pkg/controllers/user/user_controller.go:149-151 | no run takes a user out of Disabled |
| Lockout.AuthenticateMeans | pkg/middles/auth/authenticator.go:56-128 | who gets in: exactly an active user with the right password that the login finds, by name or as the first listed with that mail address; and who else is told what |
| Lockout.NobodyLogsIn | pkg/middles/auth/authenticator.go:72-81 | over every run no attempt logs a user in within ten minutes of a lock, nor ever after the user was disabled |
| Lockout.AttemptOutcome | pkg/aiserver/authentication/authoricators/basic/basic.go:33-54 | an attempt changes nothing but for the one failed record an incorrect password leaves |
| Lockout.OtherEvents | pkg/middles/iam/im/im.go:131-142 | what creating, deleting and disabling users, changed passwords, successful logins and the clock do in a run |
| Lockout.RunStep | pkg/controllers/user/user_controller.go:148-206 | a run is its events one after the other |
| Lockout.LabelOfDashes | pkg/middles/auth/login_recorder.go:29-40 | the label of a record is the login with a dash for every '@' |
| Lockout.RelockNeedsTenNewFailures | pkg/controllers/user/user_controller.go:185-203 | if nothing was written for the user while locked, a lock has ten recent failures numbered after the last unlock |
| Lockout.UnlockCarriesOver | pkg/controllers/user/user_controller.go:164-203 | in any run the recent failures that survive an unlock are those written since the last locking; none if nothing was written while locked |
| Lockout.FailureWhileLocked | pkg/middles/auth/authenticator.go:56-82 | the attempts that write a failed record for a locked user: under the user's own name exactly those with an empty password; under other logins exactly those with '@' signs in place of dashes that have an empty password or are mistaken about somebody else |
| Lockout.NeverLockedByAlias | pkg/middles/auth/login_recorder.go:29-40 | in no run is a user locked who is attacked only under logins whose label is not the user's name |
| Lockout.EmptyPasswordsSpendTheBudget | pkg/middles/auth/authenticator.go:57-60 | after any number of empty passwords sent before an unlock, the sync after the unlock locks again exactly when they make ten with the recent failures there were |
| Login.LoginReportsRole | pkg/middles/auth/authenticator.go:56-95 | the role reported by a login is the scanned one: by the user's own name exactly when the name-based reader sees the binding, by mail address exactly when the user has no role |
| Login.PasswordGrantMeans | pkg/aiapis/oauth/handler.go:86-114 | who is granted a token: exactly an active user with the right password, under the user's own name |
| Login.GrantedTokenReportsRole | pkg/aiapis/oauth/handler.go:86-114 | the token endpoint only lets users in by name, so there the first case is the only one |
| Lockout.CollectionInvisible | pkg/controllers/loginrecord/loginrecord_controller.go:47-53 | leaving every collection out of a run changes no user's state, reason or transition time, now or later |
| Lockout.CollectOutcome | pkg/controllers/loginrecord/loginrecord_controller.go:40-76 | everything reconciling a record does: the last login becomes its time if that is later, a record more than seven days old goes, and when it fails |
| Lockout.CollectRefuses | pkg/controllers/loginrecord/loginrecord_controller.go:24-33 | a record that is gone is no error; a record of nobody, or of a user who does not exist, is left alone with one |
| Lockout.YoungRecordsStay | pkg/controllers/loginrecord/loginrecord_controller.go:47-53 | no run loses a record in its first seven days |
| Rules.Atomisation | pkg/aiserver/authorization/rbac/rbac.go:133-148 | a rule allows a request if and only if one of its atoms (one verb, group, resource, at most one name; or one verb and URL) does |
| Rules.ResourceAtomAllows | pkg/aiserver/authorization/rbac/rbac.go:133-148 | a resource atom allows exactly the resource requests that its verb, group, resource (alone, with subresource, or "*/" and subresource) and names fit |
| Rules.URLAtomAllows | pkg/aiserver/authorization/rbac/evaluation_helpers.go:84-103 | a URL atom allows exactly the other requests that its verb fits and whose path is its URL or starts with it up to its trailing stars |
| Rules.RuleMeans | pkg/aiserver/authorization/rbac/rbac.go:133-148 | what a rule allows, in terms of its lists and the request |
| Authorization.AppliesTo | pkg/aiserver/authorization/rbac/rbac.go:253-285 | the index of a subject that applies, none exactly if no subject does |
| Authorization.AppliesMeans | pkg/aiserver/authorization/rbac/rbac.go:264-285 | to whom a subject applies, service accounts in their own namespace or the binding's included |
| Authorization.VisitRulesFor | pkg/aiserver/authorization/rbac/rbac.go:181-249 | for any visitor, the state after visiting in order, stopping where the visitor says so and its answer is heeded |
| Authorization.Authorize | pkg/aiserver/authorization/rbac/rbac.go:72-127 | decision and reason of the short-circuiting visitor |
| Authorization.RulesFor | pkg/aiserver/authorization/rbac/rbac.go:175-179 | the rules and errors the collecting visitor gathers |
| Authorization.AuthorizedMeans | pkg/aiserver/authorization/rbac/rbac.go:72-127 | a named user is allowed if and only if a consulted binding has the user as a User subject and a resolvable role whose policy or a rule allows; otherwise no opinion, never denied; lookup errors neither grant nor block |
| Authorization.NobodyAuthorizedMeans | pkg/aiserver/authorization/rbac/rbac.go:72-127 | without a user name exactly the consulted bindings that name the empty user or a group of the request count |
| Authorization.RoleGrantsMeans | pkg/aiserver/authorization/rbac/rbac.go:181-249 | where the role of a binding is looked up, by kind, and that one that is missing or broken grants nothing |
| Authorization.EarlyExitRefinesCollection | pkg/aiserver/authorization/rbac/rbac.go:40-70 | stopping early allows exactly when some collected rule, or some policy, allows |
| Authorization.CollectedMeans | pkg/aiserver/authorization/rbac/rbac.go:175-179 | the collected rules are exactly those of the roles found of the consulted bindings that name the user, the errors those of all failed lookups in order |
| Authorization.BrokenRoleGoesOn | pkg/aiserver/authorization/rbac/rbac.go:190-208 | for any visitor, a failed role lookup never stops the visiting |
| Authorization.AnswerStops | pkg/aiserver/authorization/rbac/rbac.go:181-249 | an answer that is heeded and says so ends the visiting |
| Authorization.AllElseHeeded | pkg/aiserver/authorization/rbac/rbac.go:181-249 | the answers to policies, rules and a failed global list are heeded |
| Authorization.ReasonNamesFirstGrant | pkg/aiserver/authorization/rbac/rbac.go:188-208 | the reported source is that of the first permitting visit |
| Authorization.ReasonMeans | pkg/aiserver/authorization/rbac/rbac.go:188-208 | the reported source is the first listed binding that names the user and grants, global ones first, with the first of its subjects that applies |
| Authorization.ReasonListsErrors | pkg/aiserver/authorization/rbac/rbac.go:40-70 | when nothing allows the reason lists exactly the failed lookups, in order, and there is none without any |
| Authorization.VisitsOfGrant | pkg/aiserver/authorization/rbac/rbac.go:190-208 | visiting a binding permits exactly when it applies and its role grants |
| Authorization.NewPathAuthorizer | pkg/aiserver/authorization/path/path.go:14-48 | rejected exactly for a star that is not trailing; otherwise a path is allowed exactly if a pattern matches it |
| Authorization.PatternMeans | pkg/aiserver/authorization/path/path.go:20-44 | one leading slash does not count, a star may stand at the end only, and then the pattern matches what starts with the rest |
| Authorization.UnionAuthorize | pkg/aiserver/authorization/union/union.go:23-47 | the opinion the loop over the chain ends with |
| Authorization.UnionIsFirstOpinion | pkg/aiserver/authorization/union/union.go:29-46 | the union gives the first opinion in the chain, none exactly if nobody has one |
| Authorization.UnionReports | pkg/aiserver/authorization/union/union.go:23-47 | without an opinion the union reports all reasons and errors, in order |
| Authorization.ChainMeans | pkg/aiserver/aiserver.go:118-128 | the server's chain allows if and only if the path authorizer or RBAC does, and never denies or errs |
| RequestPath.NewRequestInfo | pkg/aiserver/request/requestinfo.go:27-145 | every path parses to the specified result, with no access out of range |
| RequestPath.ReadTail | pkg/aiserver/request/requestinfo.go:80-197 | verb, scope and object of what follows the version |
| RequestPath.SplitPathParts | pkg/aiserver/request/requestinfo.go:267-273 | the parts of any path have no slash and, joined, make up the path but for slashes at its ends |
| RequestPath.SplitRender | pkg/aiserver/request/requestinfo.go:267-273 | a rendered address splits into the parts it was made of |
| RequestPath.RoundTrip | pkg/aiserver/request/requestinfo.go:55-197 | for every query, parsing a rendered address gives its fields, its scope and what it asks for (get, list or watch by name and query, a watch restricted to a workspace, the name of a field selector) if and only if the resource name is not reserved in its place; the path is kept and the Kubernetes flag is told by the prefix |
| RequestPath.SpecialRoundTrip | pkg/aiserver/request/requestinfo.go:80-86 | with "watch" or "proxy" in front the address is read off as without, whatever the HTTP method and the query, but a proxy request has no subresource |
| RequestPath.EveryPath | pkg/aiserver/request/requestinfo.go:27-80 | for every path: whether it is a resource request, whether it is for Kubernetes, when parsing fails, and that nothing is read off other paths |
| RequestPath.NamespaceScopeIff | pkg/aiserver/request/requestinfo.go:180-189 | for every path and query the scope is the namespace exactly when one was read and no workspace watch replaced it |
| EndToEnd.GrantTakesEffect | pkg/aiserver/filters/authorization.go:50-80 | after a grant that reports success, under any faults, requests addressed to the namespace are allowed exactly by a global binding, by the role just granted, or, if the first list failed, by the role held before |
| EndToEnd.HandOverTakesEffect | pkg/middles/iam/am/am.go:524-558 | after a hand-over that reports success the old manager's requests are allowed exactly by a global binding, by the operator role, or, if the second list failed, by the role held before |
| EndToEnd.RemovalTakesEffect | pkg/middles/iam/am/am.go:565-582 | after a removal that reports success the namespace grants the user nothing, unless the list failed: then it grants what it granted before |
| EndToEnd.NamespaceContributes | pkg/middles/iam/am/am.go:225-240 | in a sound namespace the user's labelled bindings are all that decides namespaced requests beside global bindings |
| EndToEnd.AddressAttributes | pkg/aiserver/filters/authorization.go:50-80 | a request whose path is an address is authorized by the verb, object, namespace, scope and path that the address and the query say |
| EndToEnd.WorkspaceWatchIsGlobal | pkg/aiserver/request/requestinfo.go:180-189 | a watch restricted to a workspace by its label selector is decided by global bindings alone, whatever namespace its path is in |
| Cache.InMemoryCache.CleanInvalidToken | pkg/client/cache/simple_cache.go:67-73 | the sweep removes exactly the entries past their deadline |
| Cache.InMemoryCache.SetValue | pkg/client/cache/simple_cache.go:94-107 | one key is written with value and deadline, the others stay |
| Cache.InMemoryCache.DelKeys | pkg/client/cache/simple_cache.go:109-114 | exactly the given keys go |
| Cache.InMemoryCache.GetValue | pkg/client/cache/simple_cache.go:116-124 | the value of an entry before its deadline; a successful read implies existence |
| Cache.InMemoryCache.Exists | pkg/client/cache/simple_cache.go:126-134 | whether all keys are stored, deadlines ignored |
| Cache.InMemoryCache.ExpireKey | pkg/client/cache/simple_cache.go:136-154 | a new deadline for a readable entry, an error and no change otherwise |
| Cache.CleaningInvisible | pkg/client/cache/simple_cache.go:28-36 | over any calls with a clock that does not go back, sweeps inserted anywhere change no answer of Get or Expire |
| Cache.ReadAfterSet | pkg/client/cache/simple_cache.go:94-124 | what was set is read back until its deadline and not after, through any sweeps and traffic on other keys |
| Cache.ReadAfterExpire | pkg/client/cache/simple_cache.go:136-154 | a new deadline of a readable entry holds like a first one, an unreadable entry stays unreadable |
| Cache.AwayAfterDel | pkg/client/cache/simple_cache.go:109-114 | what was deleted stays away until it is set again, and nothing else goes |
| Cache.WritesOneKey | pkg/client/cache/simple_cache.go:94-154 | a write and a new deadline touch no other key |
| Cache.SweepTakes | pkg/client/cache/simple_cache.go:67-73 | a sweep takes exactly the entries whose deadline is past |
| Cache.RepliesStep | pkg/client/cache/simple_cache.go:116-154 | what Get and Expire reply in a run |
| Cache.ApplyAllStep | pkg/client/cache/simple_cache.go:94-154 | a run is its calls one after the other |
| Tokens.TokenOperator.IssueTo | pkg/middles/auth/token.go:55-99 | the two tokens and the cache after one issue |
| Tokens.TokenOperator.Verify | pkg/middles/auth/token.go:38-53 | accepted exactly if the token opens, its claims are valid and, for configured tokens, the cache has the key for this very token |
| Tokens.IssuedFor | pkg/middles/auth/token.go:55-86 | what an issue signs opens to the user and the type asked for, and both tokens are cached exactly if the access lifetime is positive |
| Tokens.AcceptedForLifetime | pkg/aiserver/authentication/token/jwt.go:43-60 | over every run, with skew enough, a token is accepted from its write until its lifetime less the skew and two seconds has passed, and rejected from two seconds after that lifetime on |
| Tokens.ClaimsMean | pkg/aiserver/authentication/token/jwt.go:32-41 | when claims of any origin are valid, in nanoseconds |
| Tokens.ForgedRejected | pkg/aiserver/authentication/token/jwt.go:32-41 | a token that was not signed is not accepted |
| Tokens.NotYetValid | pkg/aiserver/authentication/token/jwt.go:43-60 | a clock that is behind by more than the skew and a second rejects a token as not yet valid |
| Tokens.NeverExpiring | pkg/middles/auth/token.go:44-47 | if configured tokens do not expire the cache does not matter |
| Tokens.KeyInjective | pkg/middles/auth/token.go:111-112 | cache keys tell users and tokens apart |
| Tokens.AcceptedWhileUnexpired | pkg/middles/auth/token.go:38-117 | after any interleaving of single cache writes and sweeps in which every lifetime fits, a token with a positive lifetime, configured or given, whose write is among them is accepted exactly while its exp claim holds |
| Tokens.WritesOfIssues | pkg/middles/auth/token.go:55-99 | those writes are exactly the ones issues with configured and with given lifetimes make |
| Tokens.IssueIsWrites | pkg/middles/auth/token.go:88-97 | an issue that nothing comes between is its two writes |
| Tokens.ConfiguredRunsExactIff | pkg/middles/auth/token.go:38-117 | over all runs of writes with configured lifetimes and sweeps, and equally over those of whole issues, acceptance agrees with the exp claim if and only if the skew suffices or both configured lifetimes are a nanosecond short of a whole second |
| Tokens.AllRunsExactIff | pkg/middles/auth/token.go:55-99 | over all runs that may also write tokens with lifetimes of their own, and equally over those of whole issues, if and only if the skew suffices |
| Tokens.GivenAccessAccepted | pkg/middles/auth/token.go:43-46 | whatever the cache holds, an access token with a given lifetime is accepted exactly as its claims say, and always if the lifetime is not positive |
| Tokens.UnwrittenRejected | pkg/middles/auth/token.go:47-50 | while configured tokens expire, a token other than a static one is not accepted in a run that has not written it |
| Tokens.GivenRefreshRejected | pkg/middles/auth/token.go:88-97 | the refresh token of an issue with given lifetimes that are not positive is never written and never accepted as long as others are written with positive lifetimes |
| Listing.DefaultObjectMetaFilter | pkg/middles/resources/v1alpha3/interface.go:119-162 | every field of the metadata filter, with label matching as a parameter |
| Listing.MetaFilterMeans | pkg/middles/resources/v1alpha3/interface.go:119-162 | what each field asks for, and that an unknown one lets nothing through |
| Listing.DefaultList | pkg/middles/resources/v1alpha3/interface.go:56-96 | total and page of the sorted list of the transformed objects that pass every filter, for any comparison, filter and transforms |
| Listing.AnswerMeans | pkg/aiserver/query/types.go:64-84 | the total, and which part of the list is answered for every pagination |
| Listing.SelectMember | pkg/middles/resources/v1alpha3/interface.go:57-74 | the listed objects are the transforms of those that pass the filter of every field |
| Listing.SelectTwice | pkg/middles/resources/v1alpha3/interface.go:57-74 | filtering by two groups of fields is filtering by one and then by the other |
| Listing.LessOrders | pkg/middles/resources/v1alpha3/interface.go:99-116 | for every field and direction sorting compares objects of which no two tie by a strict total order |
| Listing.ListCanonical | pkg/middles/resources/v1alpha3/interface.go:76-82 | if no two selected objects tie the list is their sorted permutation and the same for every order of arrival |
| Listing.OneAnswerIff | pkg/middles/resources/v1alpha3/interface.go:76-116 | every order of arrival and every library sort give the same list if and only if no two different selected objects tie, by name or by age and name |
| Listing.NewestFirst | pkg/middles/resources/v1alpha3/interface.go:99-116 | descending lists start with the newest, ties by descending name; by name they descend by name |
| Listing.ListByNames | pkg/middles/resources/v1alpha3/interface.go:121-127 | asking for comma-separated names lists exactly the objects so named, each once, in the order of the list |
| Listing.PagesConcatenate | pkg/aiserver/query/types.go:64-84 | pages 1, 2, ... from independently ordered listings make up the one sorted list, with one total, and are empty past the end |
| Listing.AscendingReverses | pkg/middles/resources/v1alpha3/interface.go:77-82 | the ascending list is the descending one backwards |
| Sorting.SortedUnique | pkg/middles/resources/v1alpha3/interface.go:77-82 | no other sorted permutation exists if nothing ties, so any correct library sort gives this answer |
| Sorting.TwoOrders | pkg/middles/resources/v1alpha3/interface.go:77-82 | if two different elements tie, two permutations are in order |
| Slices.RemoveString | pkg/utils/sliceutil/sliceutil.go:8-16 | splicing with a step back terminates with the order-preserving filter |
| Slices.RemoveSubSlice | pkg/utils/sliceutil/sliceutil.go:19-31 | distinct positions in any order: exactly the other positions remain, in order |
| Results.WithListAndFilter | pkg/api/types.go:87-143 | the data are the items passing all metadata filters, cleaned, and the total is their number, absent when there are none |
| Results.MatchesMeans | pkg/api/types.go:95-135 | which items pass, in terms of the query parameters |
| Results.CleanedMeans | pkg/api/types.go:253-269 | clearing the managed fields changes nothing else |
| Results.PassingIsOrderedSublist | pkg/api/types.go:118-135 | the data sit at exactly the positions that pass, in increasing order |
| UserJoin.ListAllUsersInNamespace | pkg/middles/resources/v1alpha3/user/user.go:87-133 | the nested loops add users mention by mention, or end in an error |
| UserJoin.MentionsAre | pkg/middles/resources/v1alpha3/user/user.go:93-104 | the mentions are exactly the User subjects of the bindings with the wanted role, binding by binding and subject by subject |
| UserJoin.AddIsJoin | pkg/middles/resources/v1alpha3/user/user.go:99-130 | the users are exactly the existing ones mentioned, each once, in order of first mention, with that mention's role; an error exactly if a mentioned user cannot be fetched for another reason than not existing |

## Left out

- Generated clients, listers, informers, deep copies and schemes: the API server is an atomic store with not-found, already-exists and lost-call errors. Informer staleness and resource-version conflicts are not modelled.
- API-server validation of object names, and requests for a user with an empty name: operations are about non-empty user names. Bindings without a label and namespaces without a manager are covered.
- Membership.GrantOutcome: takes lists as answered; `MembershipRuns` has what holds when they fail.
- Membership.AmOperator.CreateNamespaceRoleBinding: the panic on a nil annotation map is an outcome that ends the operation; how the web framework recovers from it is not part of the model.
- User deletion as a step of the membership runs: the handler looks at the first binding only.
- Cluster-role bindings, CreateRoleBinding, DeleteRoleBinding and the patch and create-or-update role methods: repeats of the modelled cases or not routed.
- The finalizer being added to a live user, and password encryption by the reconciler: one write each.
- Lockout.LoginSystem.ReconcileLoginRecord: a record with a deletion timestamp, which only a record with finalizers could keep, is not modelled. Users being deleted are; their removal from the store, and that of their records, is in `Finalizer` only.
- RequestPath.NewRequestInfo: the decoding of list options is a parameter, and the source address, the user agent and the other fields that are copied from the request are not modelled.
- Bcrypt, JWT signing, the policy engine, mail-address parsing and the decoding of list options: parameters of the model. Signing is idealised: a token opens to exactly the claims it was signed for and has no colon. Groups and extra fields of the claims are copied through and left out.
- Tokens.AcceptedWhileUnexpired: assumes a clock later than the skew since the epoch, because an expiry that computes to zero means "none"; floating-point rounding of durations is not modelled.
- Tokens.GivenRefreshRejected: a given lifetime that is positive with an inactivity timeout that makes the refresh lifetime zero or negative is covered by the model, but nothing is stated for it.
- Listing.DefaultList: the library sort is stood in for by an insertion sort, which `Sorting.SortedUnique` shows makes no difference unless objects tie. The order theorems are about the one comparison every resource uses.
- Listing.PagesConcatenate: integers are unbounded, so an offset that overflows is not modelled.
- Slices.RemoveString: slices are values, so sharing of the backing array with the caller is not captured; likewise Slices.RemoveSubSlice and the aliasing of the visitor's source describer, whose text is made at the moment of the visit.
- UserJoin.ListAllUsersInNamespace: the variants by global role and by cluster role differ in the filter's treatment of an empty role and in the annotation key only.
- Cache key patterns (regular expressions), HTTP handlers, the oauth token handler, configuration, logging, swagger, websockets and the health controller: plumbing.

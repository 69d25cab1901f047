# A model of the login system of go-devops-platform

The project models the state-keeping code of the platform's authentication: the OIDC login
entries with their cleanup, renewal and persistence, the login throttle, the user store and the
handlers that change it, the discovery and JWKS caches, the offset reader for files, and TOTP.

| file | what it models |
|---|---|
| `Cleanup.dfy`, `SortedKeys.dfy` | what a cleanup removes, and full passes in any visit order |
| `OidcStore.dfy`, `Storage.dfy`, `Caches.dfy` | the OIDC store object, its file, its two caches |
| `RenewalSpec.dfy`, `Renewal.dfy` | token refresh, the forced pass over all entries, the worker round |
| `Interleaving.dfy` | renewals, cleanups, redirects and callbacks as an interleaved state machine |
| `LoginSpec.dfy`, `LoginFlow.dfy` | redirect, callback, and the way from a bearer token to a user |
| `LoginRuns.dfy` | sequential runs of the whole system, with restarts: their invariant, retries, crash recovery |
| `RoundTrip.dfy`, `PendingLogins.dfy` | over those runs, the way from a returned token back to its user, and how long a redirect waits |
| `LoginSamples.dfy` | concrete runs |
| `Users.dfy`, `UserRuns.dfy` | the user store, and the map it stands for |
| `Handlers.dfy`, `RequestEffects.dfy` | the handlers that change it, and what they do to passwords and links |
| `Attempts.dfy`, `Throttle.dfy` | the throttle, alone and under concurrent requests |
| `Authentication.dfy`, `LocalTokens.dfy` | local login, and the way from its token back to the user; the handler that renews all tokens |
| `OpenFiles.dfy`, `Totp.dfy` | the offset reader, one-time passwords |

Conventions. Objects that the code updates in place are classes; each method is tied to a
function of the old state, and the theorems are about those functions. A range loop over a map is
a loop that picks any present key it has not visited. Every locked section, every
`CheckTooManyLogins` and every map read is one atomic step with one clock reading; time is an
integer number of nanoseconds (seconds in `Totp.dfy`). Network answers, random states and UUIDs,
password hashes, hook results and the success of saves are parameters. Signature checks, bcrypt,
base32 and HMAC are function-valued parameters.

Results about the code that its comments or callers might not lead one to expect:

- The cleanup removes pending entries that are *younger* than ten minutes
  (`auth/oidc/store/cleanup.go:36`), although the comment above it speaks of stale ones. The model
  follows the code: after a pass no pending entry that young is left (`Cleanup.SurvivorsAreClaimed`).
- "Superseded" is not transitive, so the survivors of a pass can depend on the visit order
  (`Cleanup.VisitOrderMatters`). `Cleanup.VisitOrderDoesNotMatterExactlyWhen` says exactly when they
  do: young pending entries aside, when some entry is superseded, but by no entry that itself is
  superseded by none.
- If saving the user list fails during a callback, the login is refused but the user stays linked
  to an entry that is still pending; a later login through that entry can then resolve to the wrong
  user (`LoginSamples.FailedUserSaveBreaksRoundTrip`).
- A callback does not check that the entry under its state was made for the provider in its path.
  With an email that changes, its token can then resolve to the user of an older login
  (`LoginSamples.MixedProvidersCanFail`); `RoundTrip.LoginRoundTrip` shows that it does not when
  issuer and subject determine the email.
- A repeated callback can return a token that resolves to nobody, although every save succeeded
  (`LoginSamples.RepeatedCallbackCanFail`); `RoundTrip.RepeatedCallbackResolvesExactlyWhen` gives the
  exact condition.
- For first callbacks `RoundTrip.RoundTripExactlyWhen` gives the exact condition in any run, whatever
  saves fail in it, and without any assumption on the identity providers.
- One completed login ends the others that were begun in the ten minutes before it
  (`PendingLogins.LoginEndsOthers`, `LoginSamples.LoginEndsAnother`);
  `PendingLogins.RedirectWaitsExactlyWhen` says exactly how long a redirect can be answered.
- The bound of three failed refreshes per entry holds in all interleavings with at most n copies of
  an entry in flight if and only if n is at most one (`Interleaving.ThreeFailuresExactlyWhen`). Two
  overlapping renewals allow any number of failures: a renewal that read the entry before a failure
  was counted, and succeeds after it, takes the count back (`Interleaving.TwoAreEnough`). Restarts
  after failed saves do so too (`LoginSamples.UnsavedFailuresAreForgotten`).
- With at most n > 0 requests of a login in flight, the throttle of three failures in three minutes
  lets through up to n + 2 of them, and no more (`Throttle.ThrottleBoundIsTight`): the check and the
  recording of a failure are separate steps.
- A SCIM PUT can never rename a user (`RequestEffects.ScimPutNeverRenames`).
- Setting up an admin that exists keeps the old password and blanks the ID
  (`RequestEffects.SetupKeepsOldPassword`); setup gives the admin the new password if and only if
  there was none before (`RequestEffects.SetupSetsPasswordExactlyWhen`).
- A patch of a user sets the password of the user whose ID is in the body, not in the path
  (`RequestEffects.PatchSetsAnotherPassword`); the user of the path gets it if and only if the body repeats
  its ID (`RequestEffects.PatchSetsOwnPasswordExactlyWhen`). As setup blanks the admin's ID, a patch whose
  body has no ID then sets the admin's password (`RequestEffects.PatchWithoutIDSetsAdminPassword`).
- The multi-interval TOTP check tries exactly the last `count` steps if and only if it does not
  reach back before time zero or the time is on a step boundary (`Totp.TriesExactlyTheLastSteps`).

## Model

| member | source | states |
|---|---|---|
| `SortedKeys.SortCompactEnumerates` | auth/oidc/store/cleanup.go:40-48 | sorting and compacting the collected keys visits their union once each |
| `OidcStore.Store.CleanupOAuth2Data` | auth/oidc/store/cleanup.go:18-50 | exactly the older entries of another ID with the same provider and subject or the same email, and the pending ones younger than 600 s, leave the map; the count is the sum of the three list lengths |
| `OidcStore.Store.CleanupOAuth2DataForAllEntries` | auth/oidc/store/cleanup.go:10-16 | ranging while deleting is a pass in some visit order, with the result and the count of that pass |
| `Cleanup.CleanupCountBounds` | auth/oidc/store/cleanup.go:40-49 | removed <= returned count <= 3 * removed, for one cleanup |
| `Cleanup.PassTerminates` | auth/oidc/store/cleanup.go:10-16 | a pass makes at most one visit per entry, and at least one when there is an entry |
| `Cleanup.PassRemovesOnlyObsolete` | auth/oidc/store/cleanup.go:24-48 | whatever a pass removes was superseded by an entry of the map, or pending and younger than ten minutes when the pass started |
| `Cleanup.SurvivorsDoNotSupersede` | auth/oidc/store/cleanup.go:10-34 | no survivor of a pass supersedes another survivor, in any visit order |
| `Cleanup.UnsupersededSurvive` | auth/oidc/store/cleanup.go:10-48 | a token-bearing entry that nothing superseded at the start survives unchanged |
| `Cleanup.SurvivorsArePairwiseDistinct` | auth/oidc/store/cleanup.go:24-34 | with distinct IDs and creation times, survivors have distinct emails and distinct (provider, subject) |
| `Cleanup.SurvivorsAreClaimed` | auth/oidc/store/cleanup.go:35-38 | after a pass no pending entry younger than ten minutes is left, now or later |
| `Cleanup.PassCountBounds` | auth/oidc/store/cleanup.go:10-49 | removed <= returned count <= 3 * removed, for a whole pass |
| `Cleanup.PassCountDetectsChange` | auth/oidc/store/renewal/worker.go:26-32 | the count is positive exactly when the pass changed the map |
| `Cleanup.PassIsIdempotent` | auth/oidc/store/cleanup.go:10-50 | a second pass deletes nothing and returns 0, whatever the two visit orders |
| `Cleanup.SurvivorsAreTheNewest` | auth/oidc/store/cleanup.go:10-34 | when identities are well defined, a token-bearing entry survives if and only if it is the newest of its identity |
| `Cleanup.PassIsConfluent` | auth/oidc/store/cleanup.go:10-34 | and so the token-bearing survivors are the same for every visit order |
| `Cleanup.VisitOrderMatters` | auth/oidc/store/cleanup.go:24-34 | three entries for which two visit orders leave different survivors |
| `Cleanup.VisitOrderDoesNotMatterExactlyWhen` | auth/oidc/store/cleanup.go:10-48 | for every map and start time: all passes agree if and only if each superseded entry is superseded by one that every pass keeps |
| `OidcStore.Store.NewStore` | auth/oidc/store/store.go:43-84 | opening a saved file gives its maps back, with missing maps empty; no file gives an empty store |
| `OidcStore.Store.SaveOAuth2Data` | auth/oidc/store/save.go:25-30 | the entry is in memory even when the save fails; a save that succeeds writes the whole store |
| `OidcStore.Store.GetDiscoveryURI` | auth/oidc/store/discovery.go:12-42 | a fresh document is answered from the cache; any other is fetched, answered and cached for 12 hours, or the lookup fails and changes nothing |
| `OidcStore.Store.GetJwks` | auth/oidc/store/jwks.go:12-44 | the same for keys, which are cached for 20 minutes |
| `OidcStore.Store.GetAllJwks` | auth/oidc/store/jwks.go:46-56 | per index, what a lone lookup of that provider from the starting cache returns; fails exactly when one of those does |
| `Caches.AnswersAreFresh` | auth/oidc/store/discovery.go:12-42 | every answer of a run was fetched from that very URI less than a time-to-live ago |
| `Caches.FetchesAreSpaced` | auth/oidc/store/jwks.go:12-44 | successful fetches of one URI are at least a time-to-live apart |
| `Caches.LoneAnswer` | auth/oidc/store/jwks.go:46-56 | earlier lookups of the same loop do not change an answer |
| `RenewalSpec.RefreshToken` | auth/oidc/store/renewal/refreshtoken.go:12-51 | a refresh that succeeds has a non-empty access token |
| `RenewalSpec.RefreshStores` | auth/oidc/store/renewal/renew.go:45-84 | a refresh stores access token, refresh token, expiry and time of the answer, and its ID token unless that is empty; without a new access token it adds one retry, and from the third on the entry has failed; nothing else changes |
| `RenewalSpec.ProviderIsFirst` | auth/oidc/store/renewal/renew.go:86-94 | the provider of an entry is the first with its ID, and there is none exactly when no ID matches |
| `RenewalSpec.RefreshKeeps` | auth/oidc/store/renewal/renew.go:45-75 | a refresh keeps retries in bounds, the identity, and a non-empty access token |
| `RenewalSpec.PassIsPerEntry` | auth/oidc/store/renewal/renew.go:16-44 | a pass treats each entry as it found it, whatever the visit order |
| `RenewalSpec.RefreshedWhenEligible` | auth/oidc/store/renewal/renew.go:19-26 | given its visits, a pass refreshes exactly the entries that are eligible as it found them |
| `RenewalSpec.RefreshedOnce` | auth/oidc/store/renewal/renew.go:16-44 | and each of them once |
| `RenewalSpec.GivesUpOnThirdFailure` | auth/oidc/store/renewal/renew.go:47-66 | an entry gives up exactly on its third failed refresh |
| `Renewal.EligibleAreRefreshedOnce` | auth/oidc/store/renewal/renew.go:16-44 | every renewable entry with a known provider and, for the worker, due, whose discovery request is answered, is refreshed exactly once; no other entry is |
| `Renewal.RefreshedExactlyWhen` | auth/oidc/store/renewal/renew.go:16-44 | an entry is refreshed if and only if it is eligible and its discovery document is cached or fetched when the pass stands at it |
| `Renewal.WorkerRefreshesExactlyWhen` | auth/oidc/store/renewal/renew.go:116-144 | over a worker pass: an entry is refreshed if and only if it has not failed, has an access token with a readable expiry that has passed or was last renewed longer ago than the renewal time, and its discovery document is found |
| `Renewal.ForcedPassRefreshesExactlyWhen` | auth/oidc/store/renewal/renew.go:16-26 | over a forced pass: an entry is refreshed if and only if it has not failed, has an access token, and its discovery document is found |
| `Renewal.AnsweredHasDocument` | auth/oidc/store/renewal/renew.go:20-21 | the document is found when the provider is known and discovery answers, and never for an unknown provider |
| `Renewal.PassStores` | auth/oidc/store/renewal/renew.go:16-84 | over a pass: each refreshed entry ends up with the tokens, expiry and time that the token endpoint answered for it, or with one more retry; every other entry stays as it was |
| `Renewal.SteadyPassRefreshes` | auth/oidc/store/renewal/worker.go:33-45 | while the network answers the same, which entries are refreshed does not depend on the visit order |
| `Renewal.FileFollows` | auth/oidc/store/renewal/renew.go:71-83 | a pass without a refresh leaves the file alone; one with a refresh, and saves that succeed, leaves its entries there |
| `Renewal.DisabledUsersAre` | auth/oidc/store/renewal/renew.go:26-34 | the pass returns the first linked users of the entries that gave up in it, and nobody else |
| `Renewal.FailedEntriesDisable` | auth/oidc/store/renewal/renew.go:26-34 | the pass returns exactly the first linked user of each entry that had not failed before it and has failed after it |
| `Renewal.Renewal.Renew` | auth/oidc/store/renewal/renew.go:45-84 | one refresh: what it stores of the answer, field by field, or the retry it counts; the result says whether the entry has failed for good; the file is saved |
| `Renewal.Renewal.RenewAllOIDCConnections` | auth/oidc/store/renewal/renew.go:16-44 | one visit per entry, in any order, each with the cached or fetched discovery document; entries, cache, file, refreshes and returned users are those of the visits |
| `Renewal.Renewal.GetOIDCProvider` | auth/oidc/store/renewal/renew.go:86-94 | first match in the provider list |
| `Renewal.Renewal.CanRenew` | auth/oidc/store/renewal/renew.go:116-144 | yes exactly for an entry that has not failed and has an access token that has expired or was renewed too long ago, whose provider and discovery document are found |
| `Renewal.Renewal.WorkerRound` | auth/oidc/store/renewal/worker.go:26-45 | cleanup pass on the clock, save when it changed the entries, then one visit per entry that refreshes what is due; entries, cache, file and refreshes |
| `Interleaving.RetriesInBoundsAlways` | auth/oidc/store/renewal/renew.go:16-84 | in any interleaving all entries and copies in flight keep 0 <= retries <= 3, and have failed exactly at 3 |
| `Interleaving.IdentityIsPermanent` | rest/auth.go:249-331 | once an entry bears a token, every later entry under its key bears one, with the same ID, provider, creation time, subject, issuer and email |
| `Interleaving.AtMostThreeFailures` | auth/oidc/store/renewal/renew.go:45-66 | in every interleaving where renewals of one entry do not overlap, no entry has more than three failed refreshes |
| `Interleaving.TwoAreEnough` | auth/oidc/store/renewal/renew.go:19-84 | for every m a run from the empty store, with at most two copies of an entry in flight, that has m failed refreshes of one entry and leaves its count at zero |
| `Interleaving.ThreeFailuresExactlyWhen` | auth/oidc/store/renewal/renew.go:16-84 | the bound of three holds over all runs with at most n copies of an entry in flight if and only if n <= 1 |
| `LoginSpec.WithTokenKeeps` | auth/oidc/token.go:28-111 | a token exchange stores the token and its time, subject and issuer from the claims, and as email the email claim or, only without one, an address in preferred_username; nothing else changes |
| `LoginSpec.WithTokenExactlyWhen` | auth/oidc/token.go:28-111 | it succeeds if and only if the token endpoint answers with an ID token that verifies and has subject, issuer, and an email claim or an address in preferred_username |
| `LoginFlow.Context.Redirect` | rest/auth.go:366-405 | stores a pending entry under the new state exactly when the provider is known and discovery answers, and succeeds exactly when that is saved; entries, cache and file |
| `LoginFlow.Context.Callback` | rest/auth.go:249-334 | entries, users, caches, both files and reply of a callback, on all its branches; a first callback that gets a reply found a token endpoint, and replies for the user whose login is the email in the ID token |
| `LoginFlow.UnknownCallbackIsRefused` | rest/auth.go:249-257 | a callback for an unknown provider, without a code, or under an unknown state is refused and changes nothing |
| `LoginFlow.RepeatedCallbackReplies` | rest/auth.go:258-274 | a repeated callback reports suspension, then a missing license, or else returns the stored token; it changes nothing |
| `LoginFlow.FirstCallbackReplies` | rest/auth.go:275-331 | a first callback gets a reply if and only if the exchange succeeds, the hook accepts the user and everything is saved; its user has the email as login, is linked to the entry, and gets the token unless suspended |
| `LoginFlow.FirstCallbackStores` | rest/auth.go:296-306 | its entry then bears the exchanged token and the suspension of its user |
| `LoginFlow.FirstCallbackCleansUp` | rest/auth.go:303-307 | it removes exactly the older entries with its provider and subject or its email, and the other pending ones younger than 600 s |
| `LoginFlow.Context.TokenToParse` | rest/middleware.go:36-52 | the ID token stored next to a matching access token, or none |
| `LoginFlow.Context.GetUserFromRequest` | rest/users.go:18-56 | claims without subject or issuer give nobody; local ones give the user whose login is the subject, without the hash, if and only if there is one; others a user linked to an entry for issuer and subject, if and only if there is one |
| `LoginFlow.Context.BearerUser` | rest/middleware.go:30-88 | a local token resolves by its own claims, to the user whose login is its subject; any other by those of an ID token stored next to it; no match or no verification gives no user |
| `LoginRuns.ReachableWorldsAreSound` | rest/auth.go:249-331 | every reachable state has: entry IDs distinct, an entry linked only by the user with its email and a pending one by nobody, in memory and in users.json, the store file ahead of memory by cleaned-up entries only |
| `LoginRuns.AtMostThreeFailures` | auth/oidc/store/renewal/renew.go:16-66 | in a sequential run whose restarts reload what was saved last, a key has at most three failed refreshes, its entry has counted them all, and after the third no pass refreshes it |
| `LoginSamples.UnsavedFailuresAreForgotten` | auth/oidc/store/renewal/renew.go:47-61 | when saves fail and restarts follow, a run with any number of failed refreshes of one entry |
| `LoginRuns.CrashRecovery` | rest/auth.go:303-310 | after a successful save, a pass over the reloaded file leaves the same token-bearing entries as a pass over memory |
| `RoundTrip.LoginRoundTrip` | rest/auth.go:249-330 | when issuer and subject determine the email, the token a first callback returns leads to one ID token, and that to the user whose login is its email, on whatever provider the callback came in |
| `RoundTrip.CallbackStep` | rest/auth.go:249-334 | the callback handler takes objects and files that hold one state of a run to the next state |
| `RoundTrip.LoginThenRequest` | rest/middleware.go:30-88 | callback and then a request with the returned token, on the objects: the request is made by the user whose login is the email |
| `RoundTrip.NewestLoginRoundTrip` | rest/auth.go:286-330 | the same for emails that may change, when the claimed entry is the newest and issuers are those of the providers the entries were made for |
| `RoundTrip.RepeatedCallbackResolvesExactlyWhen` | rest/auth.go:258-274 | a repeated callback changes nothing, and the identity behind its token resolves to its user if and only if that user is linked to an entry still stored for the identity |
| `RoundTrip.LoginKeepsResolving` | rest/users.go:40-54 | after a first callback that nothing supersedes, entry and resolution outlast all cleanups, renewals, restarts and requests that neither log the same identity in again nor remove the user |
| `LoginSamples.RoundTripApplies` | rest/auth.go:391-402 | a run to which the round trip applies |
| `RoundTrip.RoundTripExactlyWhen` | rest/auth.go:286-331 | in any run, whatever saves fail and whenever it restarts: a claimed entry resolves to the user who logged in if and only if no earlier user is linked to it or to another entry for its issuer and subject that the cleanup leaves |
| `PendingLogins.RedirectWaitsExactlyWhen` | rest/auth.go:391-396 | between restarts, the entry of a redirect can be claimed if and only if no event has claimed it and no cleanup has dropped it |
| `PendingLogins.PassDropsOnly` | auth/oidc/store/cleanup.go:24-38 | a pass drops it only within ten minutes of the redirect, or when an entry of the store supersedes it |
| `PendingLogins.LoginEndsOthers` | rest/auth.go:304-310 | a completed login removes every other pending entry younger than ten minutes, whose callback is then refused |
| `LoginSamples.LoginEndsAnother` | rest/auth.go:304-310 | two redirects and a callback a minute later, all saved, after which the other callback is refused |
| `RoundTrip.FailedUserSaveLeavesLink` | rest/auth.go:291-296 | a failed user save refuses the login, but leaves its user linked to the pending entry |
| `LoginSamples.FailedUserSaveBreaksRoundTrip` | rest/auth.go:291-308 | a redirect and two callbacks, of which the second returns a token for bob that resolves to alice |
| `LoginSamples.RepeatedCallbackCanFail` | rest/auth.go:258-274 | two redirects, two callbacks and a cleanup, all saved, after which a repeated callback returns a token that resolves to nobody |
| `LoginSamples.MixedProvidersCanFail` | rest/auth.go:248-310 | two redirects and two callbacks, all saved, the second on another provider than its entry: its token resolves to the user of the first |
| `Users.UserStore.AddUser` | users/localusers.go:10-33 | list, result and file after adding a user |
| `Users.UserStore.AddUsers` | users/localusers.go:35-58 | list, error, file and the overwritten batch after a bulk add, including one that fails part-way |
| `Users.UserStore.AuthUser` | users/localusers.go:105-115 | the first user with the login whose hash accepts the password |
| `Users.UserStore.UpdateUser` | users/localusers.go:125-139 | the record of the first user with the login is replaced, its stored hash kept |
| `Users.UserStore.UpdatePassword` | users/localusers.go:140-156 | list, error and file after a password change |
| `Users.UserStore.DeleteUserByID` | users/localusers.go:92-103 | the first user with the ID is removed in place |
| `Users.UserStore.GetUserByOIDCIDs` | users/oidcusers.go:5-15 | the first user linked to one of the IDs, hash included |
| `Users.UserStore.SaveUsers` | users/save.go:12-37 | the file holds the list, also when only the ownership change fails |
| `Users.UserStore.NewUserStore` | users/store.go:21-43 | reopening gives back the saved list |
| `UserRuns.MapOfIsInjective` | users/localusers.go:10-156 | the map keyed by login loses nothing of a list with distinct logins and IDs |
| `UserRuns.LookupByLogin` | users/localusers.go:70-78 | the first-match lookup by login is the map lookup |
| `UserRuns.LookupByID` | users/localusers.go:60-68 | the first-match lookup by ID finds the map entry with that ID |
| `UserRuns.OperationRefines` | users/localusers.go:10-156 | every store operation does to the list what it does to an insertion-ordered map |
| `UserRuns.OperationKeepsDistinct` | users/localusers.go:10-156 | every store operation keeps logins and IDs distinct |
| `UserRuns.RunRefines` | users/localusers.go:10-156 | both, over every run of operations |
| `UserRuns.UpdateKeepsLogins` | users/localusers.go:125-139 | an update leaves the sequence of logins unchanged |
| `UserRuns.HashChangesOnlyBySetPassword` | users/localusers.go:125-156 | an operation that neither sets a user's password nor removes the user keeps the stored hash |
| `UserRuns.HashOverRuns` | users/localusers.go:10-156 | the same over every run |
| `Handlers.UserHandlers.AddOrModifyExternalUser` | rest/users.go:207-256 | list, users.json and result of an external login |
| `Handlers.ExternalAcceptedExactlyWhen` | rest/users.go:208-236 | an external login is accepted unless the hook fails for a user whose connections are disabled, or a new user would have no login |
| `Handlers.ExternalWrites` | rest/users.go:207-256 | an accepted one sets the link of its kind and the login time, and enables the connections, in the record of its user or in a new one at the end; nothing else changes |
| `Handlers.UserHandlers.PostUsers` | rest/users.go:87-126 | list, users.json, and exactly when adding a user succeeds |
| `Handlers.UserHandlers.DeleteUserByPath` | rest/users.go:134-146 | list, users.json, and exactly when deleting a user succeeds |
| `Handlers.UserHandlers.Patch` | rest/users.go:147-201 | list, users.json, and exactly when a patch succeeds |
| `RequestEffects.PatchWrites` | rest/users.go:158-188 | a patch sets the suspension, and the role if the body names one, of the user in its path and of nobody else, unless the hook fails |
| `RequestEffects.PatchAcceptedExactlyWhen` | rest/users.go:158-188 | that part of a patch succeeds unless the hook fails or a change cannot be saved |
| `RequestEffects.DeletionWrites` | rest/users.go:134-146 | a deletion removes the record with the ID; a failing hook keeps it only in a SCIM DELETE |
| `RequestEffects.UpdatesWrite` | rest/auth.go:57-66 | a login sets the login time of its user and nothing else; likewise factors, and the mark of disabled connections |
| `RequestEffects.PatchSetsPasswordOf` | rest/users.go:189-195 | a patch that gets through sets the hash of the user whose ID is in its body, and of nobody else |
| `RequestEffects.PatchSetsOwnPasswordExactlyWhen` | rest/users.go:147-195 | the user in the path gets the new password if and only if the body repeats its ID |
| `RequestEffects.PatchSetsAnotherPassword` | rest/users.go:189-195 | a patch of alice that keeps her password and sets that of bob |
| `RequestEffects.PatchWithoutIDSetsAdminPassword` | rest/users.go:189-195 | after setup, a patch whose body has no ID sets the password of the admin |
| `Handlers.UserHandlers.ScimPutUser` | auth/provisioning/scim/users.go:90-140 | list, users.json, and exactly when a SCIM PUT succeeds |
| `RequestEffects.ScimPutWrites` | auth/provisioning/scim/users.go:90-140 | a SCIM PUT suspends exactly when it says inactive, if its hook succeeds and its user name is in use, and changes nothing else |
| `Handlers.UserHandlers.ScimPostUser` | auth/provisioning/scim/users.go:164-200 | list, users.json, and exactly when a SCIM POST is a conflict, succeeds or fails |
| `Handlers.UserHandlers.ScimDeleteUser` | auth/provisioning/scim/users.go:142-162 | list, users.json, and exactly when a SCIM DELETE succeeds; a failing hook keeps the user |
| `Handlers.UserHandlers.GetUsername` | auth/provisioning/scim/users.go:202-212 | the user name, or else the last email address that is marked primary, or nothing |
| `Handlers.UserHandlers.SetupAdminUser` | rest/setup.go:77-95 | list, users.json, and exactly when setting up the admin succeeds |
| `Handlers.HandlersKeepUsersSound` | rest/users.go:87-201 | every request keeps logins and IDs distinct, logins non-empty, and only the admin may lose its ID |
| `Handlers.MapDecidesAlike` | rest/users.go:58-256 | what a handler decides by loops over the list is what it would decide by lookups in the map |
| `Handlers.RequestRunsRefine` | rest/users.go:58-256 | over every run of requests the list follows a map that decides for itself |
| `RequestEffects.OnlyOidcLoginsSetLinks` | rest/users.go:132-256 | no request but an OIDC login links a user to an entry |
| `RequestEffects.OidcLoginLinks` | rest/users.go:207-256 | an accepted OIDC login links its user and no other; a refused one changes nothing |
| `RequestEffects.SparedKeepsLink` | rest/users.go:132-256 | a request that does not remove the user, log it in or set it up keeps its link |
| `RequestEffects.ScimPutNeverRenames` | auth/provisioning/scim/users.go:119-131 | a SCIM PUT with a free user name changes nothing, and none changes a login |
| `RequestEffects.SetupKeepsOldPassword` | rest/setup.go:77-88 | setting up an existing admin keeps its hash and blanks its ID |
| `RequestEffects.SetupWrites` | rest/setup.go:77-95 | setup appends an admin with the new password, or resets everything of an existing one but its password hash |
| `RequestEffects.SetupSetsPasswordExactlyWhen` | rest/setup.go:77-95 | setup gives the admin the new password if and only if there was no admin |
| `RequestEffects.HashOverRequests` | rest/users.go:134-195 | over every run of requests a stored hash changes only by a patch or password change with the ID of its user, or by that user's removal |
| `Attempts.LoginAttempts.CheckTooManyLogins` | rest/login/attempt.go:32-51 | true exactly when the list has three failures at most 180 s old; then it is cut to its last three, and otherwise nothing changes |
| `Attempts.RecentCounts` | rest/login/attempt.go:36-43 | the count reaches three exactly when there are three failures at most 180 s old |
| `Attempts.LoginAttempts.RecordAttempt` | rest/login/attempt.go:22-30 | appends the failure to the login's list |
| `Attempts.ThrottleRefinesHistory` | rest/login/attempt.go:16-51 | in every run a check answers as if the whole history since the last clear were kept |
| `Attempts.RecentAreLast` | rest/login/attempt.go:36-42 | in a list in order of time, n failures are recent exactly when the n-th from the end is |
| `Throttle.ThrottleBound` | rest/auth.go:38-71 | with at most n requests of a login in flight, three minutes without a success hold at most n + 2 failures |
| `Throttle.ThrottleBoundIsTight` | rest/auth.go:38-71 | and n + 2 is the least such bound, for every login and n > 0 |
| `Throttle.SequentialThrottle` | rest/auth.go:38-71 | with sequential handling the failure three later is more than three minutes later |
| `Authentication.Authenticate` | rest/login/auth.go:11-50 | a token, signed for its login and role, only for a user with that login whose hash accepts the password, who is not suspended, and who has no factor or gave a valid code for the named one; an error, the question for a factor, or nothing in the other cases |
| `Authentication.LogsInExactlyWhen` | rest/login/auth.go:11-50 | with distinct logins, both directions of that |
| `Authentication.RejectedExactlyWhen` | rest/login/auth.go:11-50 | nothing exactly with a wrong login or password, for a suspended user, or with a wrong code |
| `Authentication.FactorsAskedExactlyWhen` | rest/login/auth.go:23-28 | the question for a factor exactly when one is set up and none is named, with the names of all |
| `Authentication.AuthHandler.Post` | rest/auth.go:25-71 | status, response, attempts, users and users.json of a login request, in every case; a token only for a user who is not suspended and gave the right password; a login is a step of the request runs |
| `LocalTokens.LoginThenRequest` | rest/login/jwt.go:15-27 | a local login and then a request with the token it returned, on the objects: the request is made by the user whose login and password were given |
| `Authentication.RenewTokensHandler.Post` | rest/auth.go:473-492 | entries, cache, refreshes, users and both files of a forced renewal; it stops exactly at the first hook or update that fails |
| `Authentication.DisablingIsARun` | rest/auth.go:476-491 | marking the users one by one is a run of requests on the user list |
| `Authentication.DisabledMarksExactly` | rest/auth.go:476-491 | exactly the returned users are marked, and nothing else of them changes |
| `Authentication.MarksAllExactlyWhen` | rest/auth.go:476-491 | all of them are marked if and only if no hook and no save fails |
| `OpenFiles.OpenFilesFromPos` | storage/local/read.go:14-40 | the readers deliver the files end to end without the first pos bytes, and none is empty |
| `OpenFiles.DeliversFrom` | storage/local/read.go:14-40 | byte i that they deliver is byte pos + i of the files, and they deliver all there is |
| `OpenFiles.StreamConcat` | storage/local/read.go:20-40 | the stream of a list of files is their contents one after the other |
| `OpenFiles.ResumesAfterRead` | storage/local/read.go:28-37 | the readers opened at pos + n deliver exactly what those opened at pos had left after n bytes |
| `OpenFiles.AppendExtends` | storage/local/read.go:14-40 | the readers opened after an append to the last file deliver what the earlier ones did and then the appended bytes, from any position up to the old end |
| `Totp.GetToken` | mfa/totp/verify.go:16-37 | the code of the step, or an error exactly for a secret that does not decode |
| `Totp.CodeReadsBack` | mfa/totp/verify.go:26-36 | six digits, most significant first, which are the truncated value modulo a million |
| `Totp.TruncatedIs` | mfa/totp/verify.go:26-36 | the truncated value is the four bytes at the offset in the low four bits of the last byte, most significant first, without the first bit |
| `Totp.CounterReadsBack` | mfa/totp/verify.go:21-22 | the counter is eight bytes, most significant first, in two's complement |
| `Totp.CountersAreDistinct` | mfa/totp/verify.go:21-22 | distinct 64-bit counters give distinct byte strings |
| `Totp.MasksAreRemainders` | mfa/totp/verify.go:26-36 | the two bit masks are the remainders the model uses |
| `Totp.VerifyMultipleIntervals` | mfa/totp/verify.go:51-62 | accepts exactly the codes of the steps it tries |
| `Totp.TriesExactlyTheLastSteps` | mfa/totp/verify.go:52-53 | those are the steps T-count+1 to T if and only if the check stays at or after time zero or starts on a step boundary |
| `Totp.CodeLifetime` | rest/profile.go:84 | with count 20 a code's step is tried up to 570 s after it was made, and not from 600 s on |

## Left out

- Locking inside a section and Go data races: each section is atomic, and a cleanup or a throttle check reads the clock once.
- The clock of a sequential run: `LoginRuns` allows any clock readings, which only makes its theorems more general.
- Restarts in `Interleaving`: a crash drops the copies in flight, and an unsaved entry with them.
- Restarts after a failed save: every run of `LoginRuns` may have them; its invariant, crash recovery and the bound on failures are for restarts from a file whose last save succeeded.
- `PendingLogins.RedirectWaitsExactlyWhen`: is about runs without a restart, which can bring an entry back that a cleanup removed after the last save.
- `RoundTrip.LoginRoundTrip`: assumes what the design does, namely unique non-empty access tokens, emails that issuer and subject determine, fresh UUIDs, and user saves that succeed; tokens that expire between callback and use are not modelled.
- `RoundTrip.NewestLoginRoundTrip`: assumes that issuers are those of the providers the entries were made for, because without that, and with emails that change, it is false (`LoginSamples.MixedProvidersCanFail`).
- `RoundTrip.LoginKeepsResolving`: is about the entry and its identity; a refresh replaces the access token that the callback returned.
- `LoginRuns.CrashRecovery`: is about the entries; the caches are saved only together with an entry, so the file may hold older ones.
- `OpenFiles.OpenFilesFromPos`: the only failure is a file that cannot be opened; failing stat and seek calls, and readers left open after an error, are not modelled.
- `Totp.VerifyMultipleIntervals`: time in whole seconds, without the overflow of a duration for counts in the hundreds of millions.
- `LoginFlow.Context.Callback`: requires a user store that saves by itself, which is the only kind the program opens; the panics on claims of a wrong type are not modelled.
- `Renewal.Renewal.CanRenew`: the expiry date inside an access token is a parameter; parsing it is not modelled.
- `LocalTokens.LoginThenRequest`: the request follows the login at once; the 72 hours after which a local token expires are not modelled.
- SAML, licensing, cloud metadata, S3 and in-memory storage, TLS, routing, JSON and CORS output, logging and the audit log.
- The listing and paging of users, the provider list handlers, and profile handlers other than as updates of the user list.
- JSON encoding: a file is the value that was written to it.

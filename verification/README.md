# Miqaat Identity Federation: verified model

This project models the parts of the identity service whose correctness depends on time, on order and on several
stores agreeing with each other, and proves properties of whole runs:

* **Federation sessions.** Four Redis indexes with separately computed deadlines and two SQL tables, on an integer
  millisecond clock. `FederationSessions` has the service as a class over those stores. `SessionRuns` has runs of whole
  service calls by requests that hold session objects across calls; on it `ClientCache` compares the client set with the
  table, `Revocation` says when a revoked session comes back, and `Handles` when a handle answers what its sid answers. `SessionInterleaving` has concurrent requests interleaved
  one Redis or SQL command at a time.
* **Single logout.** `Notification` is the delivery loop of one back-channel notification. `LocalSessions` is an
  application's session store, and `LocalInterleaving` the same store with destroyBySid as its two commands.
  `SingleLogout` puts the Core and the stores of all applications into one machine.
* **Signing keys.** `Keyset` (rotation and validation), `SsmProvider` (per-key writes and torn reads), `Fingerprint` and
  `KeyStore` (the reload shortcut), `RotationTiming` (pods with old views, verifiers with older copies, tokens that live
  for a while) and `TornRotation` (the same with views that are torn reads).
* **Login transactions.** `Transactions` (the two Lua scripts), `LoginProtocol` (password, SSO, portal and workspace
  requests interleaved command by command), `LoginAudience` (for whom its assertions are), `Replay` (one-time use of
  tokens), `Callback` (from an issued assertion to a local session, over a network that loses, reorders, repeats and
  misdelivers) and `CallbackChecks` (the state presented and the time of the assertion).
* **Brute-force limits.** `LoginThrottle` (fixed-window counters), `Credentials` (the durable account lock) and
  `LockRaces` (the lock under overlapping verifies).
* **Password hashes.** `Base64Url` and `PasswordHash` (printer, reader and the recursive check); `GeneratedIds` (random
  tokens fit the patterns they are checked against).

`Redis` is the shared base: a map from keys to a value and a deadline. A key reads as present strictly before its
deadline. A `MULTI` block or a Lua script is one function application. Operations are functions on values; the classes
carry the same operations out in place and are proved against those functions; the properties are then proved about the
functions, over every run. A run is a list of events folded by `Step`; an event that is not enabled changes nothing, so
a statement about every list is a statement about every interleaving.

Conventions. SHA-256 is the injective constructor `Sha256`; signatures are ideal (a token that verifies was issued);
random ids, handles and transaction ids are arbitrary values that were not used before; a private key is a `Material`
with an identity and a size; scrypt is an arbitrary function with its documented contract (`Honest`). Arguments named
`now` are the clock readings of the source, and an operation reads the clock once unless it is
modelled in several steps.

Where the source and its comments disagree the model follows the code: a password sign-in always ends the old session
and opens a new sid (`src/modules/embed/services/login.service.ts:150-154`), although the comment at line 146 says that
the sid is kept for the same user.

Properties that hold only under a condition are stated with the exact condition or with a counterexample beside them:

* The client list is the table throughout a run exactly if every addClient finds the client set live or no other
  participant (`ClientCache.AgreesThroughoutExactlyWhen`). A session used only while `get` answers meets that until 999 ms
  before absolute expiry and no longer (`ClientCache.LastSecondDisagreesExactlyWhen`); a request that straddles idle expiry
  need not (`ClientCache.StraddlingHidesClient`), and a logout then misses a client.
* A revoked session comes back exactly if a request that still holds it touches it (`Revocation.ReturnedAgainExactlyWhen`,
  `Revocation.ObtainedAgainExactlyWhen`), though no handle leads to it (`SessionInterleaving.LateTouchRecreatesSession`,
  `SessionInterleaving.RevokedNeverYielded`); `revokeAllForUser` leaves exactly such sessions. Without
  such a touch a sid is returned at most once (`Revocation.ReturnedOnce`); with one it would be returned a second time
  (`Revocation.RepeatsExactlyWhen`).
* A handle answers what its sid answers throughout a run exactly if the session is never touched, before absolute expiry,
  after its handle key has gone (`Handles.AnswersThroughoutExactlyWhen`); a request that straddles idle expiry does it.
* An assertion is for the client that its login began for exactly if the record that `complete` finds is that client's
  (`LoginAudience.AudienceIsAskedExactlyWhen`). It is another client's if the record lapsed under way and that client
  created one under the same id (`LoginAudience.AudienceCanDiffer`).
* After the wait that a throttled request announces the window has lapsed unless the rest was rounded down
  (`LoginThrottle.WaitSuffices`).
* A local session escapes `destroyBySid` exactly if it is created between `SMEMBERS` and `DEL`
  (`LocalInterleaving.OrphanedExactlyWhen`).
* Some rotation strands a token exactly when its life plus the refresh interval exceeds the retirement minimum. The
  default minimum of the rotation script counts the assertion lifetime only, so long refresh intervals can strand access
  tokens (`RotationTiming.DefaultMinimumCoversAssertions`).
* The reload shortcut is exact precisely when the kids or statuses changed or no key material was replaced under a kid
  (`KeyStore.ReloadIsExactWhen`); the rotation history never replaces material (`KeyStore.PodsFollowTheHistory`).
* Verification and claim read the clock twice. A token is accepted twice exactly if a claim comes when the first claim of
  its token has lapsed (`Replay.AcceptedTwiceExactlyWhen`); a delay of 1 ms can do it (`Replay.SlowClaimsCollide`).
* In one login window at most `2 * max - 1` attempts pass, one fewer than two full windows, and that is attained
  (`LoginThrottle.WindowBoundIsAttained`). The bounds for requests in flight are attained, too
  (`LoginThrottle.IdentifierBoundIsAttained`, `LockRaces.RacingLockoutBoundIsAttained`).

Check everything with `dafny verify dfyconfig.toml`.

## Model

| member | source | states |
|---|---|---|
| FederationSessions.FederationSessionService.constructor | src/modules/sessions/services/federation-session.service.ts:25-29 | a service starts with no keys and no rows |
| FederationSessions.FederationSessionService.CreateSession | src/modules/sessions/services/federation-session.service.ts:31-63 | one MULTI writes session, handle and per-user set with their own deadlines, then the row is inserted; nothing else changes |
| FederationSessions.FederationSessionService.GetSession | src/modules/sessions/services/federation-session.service.ts:75-81 | a session is obtained exactly when its key is live, it is active and absolute expiry lies ahead |
| FederationSessions.FederationSessionService.GetByHandle | src/modules/sessions/services/federation-session.service.ts:65-73 | a malformed handle, a missing key or a session with another handle hash yields nothing |
| FederationSessions.FederationSessionService.TouchSession | src/modules/sessions/services/federation-session.service.ts:84-98 | idle expiry slides, capped by absolute expiry; whole seconds rounded down, at least one; an absent handle or client key is not re-created |
| FederationSessions.FederationSessionService.AddClientToSession | src/modules/sessions/services/federation-session.service.ts:100-108 | the client joins the cached set, whose deadline is recomputed, and the table |
| FederationSessions.FederationSessionService.ClientsOf | src/modules/sessions/services/federation-session.service.ts:110-115 | the cached set if it has members, otherwise the table |
| FederationSessions.FederationSessionService.RevokeSession | src/modules/sessions/services/federation-session.service.ts:118-134 | null exactly when key and unrevoked row are both missing; otherwise all four keys go, the row is stamped and the clients listed before the deletion are returned |
| FederationSessions.FederationSessionService.RevokeAllForUser | src/modules/sessions/services/federation-session.service.ts:136-149 | the loop revokes each distinct sid of the per-user set or the table once and collects the non-null results in order |
| FederationSessions.CreateWrites | src/modules/sessions/services/federation-session.service.ts:31-63 | session and handle key end at idle expiry, the user set at absolute expiry; auth_time is the second of the clock; the row says the same, unrevoked |
| FederationSessions.LookupAnswers | src/modules/sessions/services/federation-session.service.ts:75-81 | get answers s if and only if its key is live and holds s, s is active and its absolute expiry lies ahead |
| FederationSessions.LookupByHandleAnswers | src/modules/sessions/services/federation-session.service.ts:65-73 | getByHandle answers s if and only if moreover the handle is well formed, its key is live and leads there, and s carries its hash |
| FederationSessions.TouchWrites | src/modules/sessions/services/federation-session.service.ts:84-98 | the new idle expiry and deadline exactly; handle key and client set get the deadline of the session key while they live and are not brought back; the row follows; nothing else changes |
| FederationSessions.RevokeWrites | src/modules/sessions/services/federation-session.service.ts:118-134 | null exactly when there is nothing to revoke, and then nothing changes; otherwise owner and clients of before, and exactly what is deleted and stamped, with the time |
| FederationSessions.UserSidsAre | src/modules/sessions/services/federation-session.service.ts:136-142 | revokeAllForUser visits exactly the members of the user's live set and the user's unrevoked, unexpired rows |
| SessionRuns.RevokeOutcome | src/modules/sessions/services/federation-session.service.ts:118-134 | in every reachable state revoke returns a result exactly for a live session key, revoked or not, or an unrevoked row: owner and clients(sid) of that moment; null means nothing changed |
| SessionRuns.RevokeLeavesOthers | src/modules/sessions/services/federation-session.service.ts:127-131 | revoking one sid leaves every key, row and set membership of every other sid as it was |
| SessionRuns.RevokeEachFacts | src/modules/sessions/services/federation-session.service.ts:143-147 | the loop's results are exactly the due revocations of the listed sids, no sid twice; those sessions end, and unlisted sids are untouched |
| SessionRuns.AllDueInOrder | src/modules/sessions/services/federation-session.service.ts:143-147 | over listed sids whose rows are unrevoked the loop returns one result each, in the order of the visits |
| SessionRuns.RunKeepsInv | src/modules/sessions/services/federation-session.service.ts:31-149 | over every run in which requests hold session objects across calls: held and stored sessions agree with their rows, each unrevoked unexpired row is in its user's live set, that set lists unrevoked sessions of that user only, and live client sets are the table unless a client was hidden |
| SessionRuns.RowsMirrorSessions | src/modules/sessions/services/federation-session.service.ts:31-98 | at every moment of a run a stored session and its row name the same idle expiry |
| Handles.HandleAnswersAsSession | src/modules/sessions/services/federation-session.service.ts:65-98 | as long as no touch of a session came after its handle key had gone, getByHandle(handle) answers exactly what get(sid) answers, now and at any later time until the next call |
| Handles.TouchedInTimeAnswers | src/modules/sessions/services/federation-session.service.ts:65-98 | so it does whenever the session was touched only while get answered it |
| Handles.AnswersThroughoutExactlyWhen | src/modules/sessions/services/federation-session.service.ts:65-98 | at every moment of a run handle and sid get the same answer if and only if the session was never touched, before absolute expiry, after its handle key had gone |
| Handles.LateTouchDetaches | src/modules/sessions/services/federation-session.service.ts:90-95 | such a touch makes the sid obtainable and leaves the handle without an answer |
| Handles.StraddlingDetaches | src/modules/sessions/services/federation-session.service.ts:84-98 | a run in which that happens, for every configuration with idle below absolute lifetime: a request straddles idle expiry |
| ClientCache.ClientDeadline | src/modules/sessions/services/federation-session.service.ts:101 | the deadline addClient gives the client set is at least a second away and at most 999 ms before absolute expiry |
| ClientCache.UnsafeAddDisagrees | src/modules/sessions/services/federation-session.service.ts:100-115 | an addClient that finds the client set lapsed and another participant on record leaves clients(sid) short of the table |
| ClientCache.AgreesThroughoutExactlyWhen | src/modules/sessions/services/federation-session.service.ts:84-115 | clients(sid) is the participant rows throughout a run if and only if every addClient of the sid found the client set live or no other participant on record |
| ClientCache.TouchKeepsKept | src/modules/sessions/services/federation-session.service.ts:84-98 | a touch by any holder while get would answer never makes the client set lapse before the session, up to the last second |
| ClientCache.CacheAgreesWithTable | src/modules/sessions/services/federation-session.service.ts:100-115 | if the sid was only touched or given a client while get would have answered, clients(sid) is the participant rows at least 1000 ms before absolute expiry, revoked or not |
| ClientCache.LastSecondDisagreesExactlyWhen | src/modules/sessions/services/federation-session.service.ts:87-115 | such a run with a wrong list and an obtainable session exists d ms before absolute expiry if and only if 1 <= d <= 999 and the idle lifetime is at least two seconds |
| ClientCache.StraddlingHidesClient | src/modules/embed/services/login.service.ts:98-118 | a request that straddles idle expiry revives the session and leaves a list without an earlier client, long before absolute expiry; revoke returns that list |
| Revocation.ReturnedAgainExactlyWhen | src/modules/sessions/services/federation-session.service.ts:84-134 | after a revocation, revoke would return the sid again at some later moment if and only if a request that held the session touched it meanwhile |
| Revocation.ObtainedAgainExactlyWhen | src/modules/sessions/services/federation-session.service.ts:75-98 | and get answers it again at some later moment if and only if such a touch came before absolute expiry |
| Revocation.RevocationIsFinal | src/modules/sessions/services/federation-session.service.ts:118-149 | from any moment at which a session is revoked and its key gone, neither revoke nor revokeAllForUser returns it again, whatever is called, unless it was touched in between |
| Revocation.ReturnedIsGone | src/modules/sessions/services/federation-session.service.ts:118-149 | after revoke or revokeAllForUser every session they returned is revoked and its key gone |
| Revocation.ReturnedOnce | src/modules/sessions/services/federation-session.service.ts:118-149 | over every run, revoke and revokeAllForUser together return a sid at most once, and once they have it is gone, unless a request that held the session touched it while it was revoked |
| Revocation.RepeatsExactlyWhen | src/modules/sessions/services/federation-session.service.ts:84-149 | at some moment of a run a revoked sid would be returned if and only if a request that held the session had touched it while it was revoked |
| Revocation.LateTouchRevives | src/modules/sessions/services/federation-session.service.ts:84-98 | a run in which a touch after the revoke makes the session obtainable and returnable again, out of reach of revokeAllForUser |
| Revocation.UserSidsAreUnrevoked | src/modules/sessions/services/federation-session.service.ts:136-142 | revokeAllForUser visits only unrevoked sessions of the user, all the unexpired ones, and each of those is in the per-user set |
| Revocation.RevokeAllForUserLeavesExactly | src/modules/sessions/services/federation-session.service.ts:136-149 | afterwards exactly those sessions of the user that had been revoked before can still be obtained if they could before, other users' read as before, and the call adds one result per visited sid, in the order of the visits, with what clients(sid) was |
| Revocation.RevokeAllForUserEndsEverySession | src/modules/sessions/services/federation-session.service.ts:136-149 | no session of the user can be obtained afterwards if and only if no revoked one had been touched back to life |
| SessionInterleaving.LiveHandleHasLiveSession | src/modules/sessions/services/federation-session.service.ts:49-98 | under any interleaving of commands a live handle key implies a live session key with that handle hash |
| SessionInterleaving.RevokedNeverYielded | src/modules/sessions/services/federation-session.service.ts:65-73 | under any interleaving, once some revoke(sid) has returned, no getByHandle that begins later yields that sid |
| SessionInterleaving.LateTouchRecreatesSession | src/modules/sessions/services/federation-session.service.ts:84-98 | a reachable state in which a touch that read the clock before a revoke has re-created the session key after it, and its handle still leads nowhere |
| SessionInterleaving.ExecCreateKeepsInv | src/modules/sessions/services/federation-session.service.ts:49-55 | the MULTI of create keeps the interleaving invariant |
| SessionInterleaving.ExecTouchKeepsInv | src/modules/sessions/services/federation-session.service.ts:90-95 | the MULTI of touch keeps it, also for a session revoked since the clock was read |
| SessionInterleaving.ExecRevokeKeepsInv | src/modules/sessions/services/federation-session.service.ts:127-129 | the MULTI of revoke keeps it: afterwards no live handle leads to the sid |
| SessionInterleaving.RunKeepsInv | src/modules/sessions/services/federation-session.service.ts:31-134 | every interleaving of create, touch, revoke and getByHandle keeps the invariant |
| SessionInterleaving.CreateAlone | src/modules/sessions/services/federation-session.service.ts:31-63 | the commands of create, run with nothing in between, are the whole-call create |
| SessionInterleaving.TouchAlone | src/modules/sessions/services/federation-session.service.ts:84-98 | so are those of touch |
| SessionInterleaving.LookupAlone | src/modules/sessions/services/federation-session.service.ts:65-73 | the two GETs of getByHandle, run alone, answer exactly what the handle leads to |
| SessionInterleaving.RevokeAlone | src/modules/sessions/services/federation-session.service.ts:118-134 | the commands of revoke, run alone, are the whole-call revoke, whether or not there is something to revoke |
| LocalSessions.LocalSessionStore.constructor | examples/bu-reference-app/src/local-session-store.ts:20-24 | a store starts empty |
| LocalSessions.LocalSessionStore.CreateSession | examples/bu-reference-app/src/local-session-store.ts:26-36 | the session and its membership in the sid set get the same deadline, and the index stays complete |
| LocalSessions.LocalSessionStore.GetSession | examples/bu-reference-app/src/local-session-store.ts:38-42 | a malformed id reads as absent without a lookup |
| LocalSessions.LocalSessionStore.DestroySession | examples/bu-reference-app/src/local-session-store.ts:44-49 | returns what was stored and removes it from store and index |
| LocalSessions.LocalSessionStore.DestroyAllOfSid | examples/bu-reference-app/src/local-session-store.ts:51-56 | removes every listed session and the set, and counts the ids it listed |
| LocalSessions.LookupAnswers | examples/bu-reference-app/src/local-session-store.ts:38-42 | a session is read if and only if the id is well formed and its key is live |
| LocalSessions.CreateWrites | examples/bu-reference-app/src/local-session-store.ts:26-36 | a created session is read for exactly its lifetime, joins the list of its sid, and no other session reads differently |
| LocalSessions.DestroyWrites | examples/bu-reference-app/src/local-session-store.ts:44-49 | destroy of a readable session removes it and takes it off the list of its sid only; of any other id it changes nothing |
| LocalSessions.CreateKeepsComplete | examples/bu-reference-app/src/local-session-store.ts:29-34 | the new member pushes the set's deadline past every older session of the sid |
| LocalSessions.DestroyBySidEndsThemAll | examples/bu-reference-app/src/local-session-store.ts:51-56 | with a complete index no session of the sid stays readable and no session of another sid is touched |
| LocalSessions.RunIsComplete | examples/bu-reference-app/src/local-session-store.ts:26-56 | over every sequential run each live local session is a member of a live sid set that lives at least as long |
| LocalSessions.DestroyBySidIsComplete | examples/bu-reference-app/src/local-session-store.ts:51-56 | in a sequential run, where nothing comes between the two commands: afterwards no session of the sid can be read and all others read as before |
| LocalInterleaving.RunKeepsInv | examples/bu-reference-app/src/local-session-store.ts:26-56 | the interleaving invariant over every interleaving of create, destroy and the two commands of any number of destroyBySid calls |
| LocalInterleaving.OrphanedExactlyWhen | examples/bu-reference-app/src/local-session-store.ts:51-56 | a live session is missing from the set of its sid if and only if it was created between the SMEMBERS and the DEL of some completed destroyBySid of that sid |
| LocalInterleaving.DestroyBySidLeavesExactly | examples/bu-reference-app/src/local-session-store.ts:51-56 | a DEL leaves, of its sid, exactly the sessions created after its SMEMBERS or orphaned before it, and changes no other sid |
| LocalInterleaving.HandlingLeaves | examples/bu-reference-app/src/local-session-store.ts:51-56 | and at any later time nothing else of the sid can be read |
| LocalInterleaving.CreateBetweenEscapes | examples/bu-reference-app/src/local-session-store.ts:51-56 | in any reachable store a session created between the two commands stays readable and is not listed by the next destroyBySid |
| LocalInterleaving.EscapeLasts | examples/bu-reference-app/src/local-session-store.ts:44-56 | an orphan that no handler has listed stays until its deadline unless its own id is destroyed |
| LocalInterleaving.CommandsAlone | examples/bu-reference-app/src/local-session-store.ts:26-56 | create, and SMEMBERS and DEL with nothing in between, are the whole-call operations |
| LocalInterleaving.CloseAlone | examples/bu-reference-app/src/local-session-store.ts:44-49 | so is destroy of a session that can be read |
| Notification.NotifyClient | src/modules/federation/services/logout.service.ts:63-97 | SUCCEEDED exactly when some attempt got a 2xx after attempts that got neither 2xx nor 4xx; NO_ENDPOINT exactly without endpoint; at most three sends with waits of 500 and 1000 ms, none after a final answer |
| SingleLogout.CoreKeepsInv | src/modules/embed/services/login.service.ts:158-167 | whatever requests that hold a session do, who was added is a participant on record |
| SingleLogout.LogoutKeepsInv | src/modules/federation/services/logout.service.ts:32-47 | what logoutSession and logoutUser fan out to is every participant on record, for each sid of which no client had been hidden when the fan-out began |
| SingleLogout.HandleReadKeepsInv | examples/bu-reference-app/src/local-session-store.ts:52-53 | SMEMBERS of a logout token's handler, interleaved with everything else, keeps the invariant |
| SingleLogout.HandleDeleteKeepsInv | examples/bu-reference-app/src/local-session-store.ts:54 | so does its DEL: the handler has then ended every session it had to |
| SingleLogout.RunKeepsInv | src/modules/federation/services/logout.service.ts:32-110 | over every run: a fan-out begun before any client of its sid was hidden covers the participants of that moment for good, a success means a finished handler of that token, and a finished handler left only younger sessions or orphans |
| SingleLogout.HandledIsLoggedOut | examples/bu-reference-app/src/server.ts:300-307 | a finished handler means that every readable session of the sid was created after its SMEMBERS or orphaned before it |
| SingleLogout.NotHiddenInTime | src/modules/federation/services/logout.service.ts:32-38 | at least 1000 ms before absolute expiry no client is hidden if the sid was only touched or given a client while get would have answered |
| SingleLogout.SingleLogoutReachesEveryClient | src/modules/federation/services/logout.service.ts:32-61 | if a logout returned a result, no client of sid was hidden by then, and every listed client ended SUCCEEDED, then every client whose addClient preceded the logout listed its sessions for the token after it, and no readable session for sid is older than that, except orphans of an earlier token (OpenID Connect Back-Channel Logout 1.0, sections 2.3 and 2.6) |
| SingleLogout.FanOutReachesParticipants | src/modules/federation/services/logout.service.ts:40-47 | a fan-out begun before any client of its sid was hidden, whose listed clients have all SUCCEEDED by the end of the run, reached every participant of that moment, whatever ran in between, an addClient still in flight included |
| SingleLogout.LogoutUserFansOut | src/modules/federation/services/logout.service.ts:40-47 | logoutUser begins one fan-out per visited sid, in the order of the visits, to clients(sid) |
| SingleLogout.UserLogoutReachesEveryClient | src/modules/federation/services/logout.service.ts:40-47 | single logout for each sid that logoutUser visits: if no client of it was hidden at the call and every listed client ended SUCCEEDED, every client whose addClient preceded the call is logged out of it |
| SingleLogout.DeliverySucceeds | examples/bu-reference-app/src/server.ts:300-307 | in whatever state, a listed client that has not handled its token does so in two commands, with the effect of destroyBySid, and its notification then counts as SUCCEEDED |
| Keyset.ValidateKeyset | src/modules/keys/services/keyset.ts:63-79 | accepts exactly the valid keysets, and each complaint is true of the keyset |
| Keyset.ValidMeans | src/modules/keys/services/keyset.ts:63-79 | a keyset is valid if and only if it has exactly one ACTIVE and at most one NEXT key, distinct well-formed kids, RS256 keys of known status, and 2048 bits wherever a key is still in use |
| Keyset.PublishedIffStatus | src/modules/keys/services/keyset.ts:82-84 | a key is published exactly when it is NEXT, ACTIVE or RETIRING |
| Keyset.RotateKeyset | src/modules/keys/services/keyset.ts:103-145 | the loops over the copied entries compute the rotation, or fail without changing the keyset |
| Keyset.RotateRefuses | src/modules/keys/services/keyset.ts:103-145 | each of the three refusals exactly when its precondition fails |
| Keyset.RotateSucceeds | src/modules/keys/services/keyset.ts:103-145 | on a valid keyset a retirement, and the promotion of a staged key, always succeed; staging succeeds if and only if nothing is staged and the new key is well formed under its own kid |
| Keyset.RotateEvolves | src/modules/keys/services/keyset.ts:95-102 | every key keeps kid, material and birth; statuses stay or move one step forward; times once set stay; at most one key is added |
| Keyset.RotateKeepsStamps | src/modules/keys/services/keyset.ts:119-141 | every status carries its time, and no key is RETIRED before minRetiringSeconds |
| Keyset.HistoryOnlyGrows | src/modules/keys/services/keyset.ts:103-145 | over any run no kid is lost, no key material changes and no status moves back |
| Keyset.RunIsSound | src/modules/keys/services/keyset.ts:95-145 | over any run from the empty keyset: exactly one ACTIVE and at most one NEXT key, every RETIRING key carries its time, none retired early |
| SsmProvider.SsmKeyProvider.Save | src/modules/keys/services/key-providers.ts:133-147 | one write per key, in order |
| SsmProvider.Load | src/modules/keys/services/key-providers.ts:114-131 | the paging loop fails exactly on a non-empty parameter that is not a SecureString, and otherwise returns all values in order |
| SsmProvider.SaveCompletes | src/modules/keys/services/key-providers.ts:133-147 | a completed save of a rotation leaves exactly the rotated keyset stored |
| SsmProvider.TornReadIsMixture | src/modules/keys/services/key-providers.ts:114-147 | whatever writes a load overlaps, each kid it returns has the old or the new value |
| SsmProvider.PromoteMixture | src/modules/keys/services/keyset.ts:119-131 | a mixture of a promotion that validates is exactly the keyset before or after |
| SsmProvider.TornReadsAreHarmless | src/modules/keys/services/key-providers.ts:114-147 | a torn read that validates has the old or the new signing key and publishes between the intersection and the union of the two keysets |
| Fingerprint.SortSorts | src/modules/keys/services/key-store.service.ts:52 | the sort returns a sorted permutation |
| Fingerprint.SortedIsUnique | src/modules/keys/services/key-store.service.ts:52 | the sorted order of given strings is unique, so the order of the loaded keys does not matter |
| Fingerprint.TagInjective | src/modules/keys/services/keyset.ts:27 | kid:status determines kid and status, because the kid alphabet has no colon |
| Fingerprint.JoinInjective | src/modules/keys/services/key-store.service.ts:52 | comma-joining fields without commas loses nothing |
| Fingerprint.EqualExactlyWhenSamePairs | src/modules/keys/services/key-store.service.ts:52 | two valid keysets have equal fingerprints exactly when they have the same (kid, status) pairs |
| KeyStore.KeyStore.constructor | src/modules/keys/services/key-store.service.ts:29-33 | nothing is loaded at first |
| KeyStore.KeyStore.Reload | src/modules/keys/services/key-store.service.ts:49-64 | a failed load or an invalid keyset changes nothing; an equal fingerprint changes nothing; otherwise signing key and JWKS are recomputed; the signing key stays in the JWKS |
| KeyStore.KeyStore.SigningKey | src/modules/keys/services/key-store.service.ts:66-73 | an error only when nothing was ever loaded; otherwise the signing kid and key are in the JWKS |
| KeyStore.JwksAre | src/modules/keys/services/key-store.service.ts:57-62 | the JWKS has the public key of each NEXT, ACTIVE and RETIRING key under its kid, and no other |
| KeyStore.ReloadsEqualRecompute | src/modules/keys/services/key-store.service.ts:49-64 | after any reloads, some failing, signing key and JWKS set equal a full recompute on the last accepted keyset, and the signing kid is in the JWKS |
| KeyStore.ReloadIsExactWhen | src/modules/keys/services/key-store.service.ts:52-53 | one reload ends with the loaded keyset's keys if and only if the pairs changed or no material was replaced under a kid |
| KeyStore.HistoryAgrees | src/modules/keys/services/keyset.ts:103-145 | any two keysets of one rotation history agree on the material of every kid |
| KeyStore.PodsFollowTheHistory | src/modules/keys/services/key-store.service.ts:35-64 | hence a pod that loads snapshots of one history, in any order, is always exact |
| RotationTiming.RetiringBeganLater | src/modules/keys/services/keyset.ts:122-127 | a key that is ACTIVE in the snapshot of time u and retires later began retiring after u |
| RotationTiming.PublishedBeforeSigning | src/modules/keys/services/keyset.ts:114-130 | every key but the bootstrap key was published for refresh plus cache before it began to sign |
| RotationTiming.NeverStranded | scripts/signing-keys.ts:36-40 | with views at most refresh old, copies at most cache old, promotion delayed by both and life plus refresh within the retirement minimum, the signing kid is in every copy during the token's whole life |
| RotationTiming.CanBeStranded | scripts/signing-keys.ts:36-40 | for any longer life there is a disciplined rotation that strands a token |
| RotationTiming.StrandsExactlyWhen | scripts/signing-keys.ts:36-40 | some rotation strands a token if and only if life plus refresh exceeds the retirement minimum |
| RotationTiming.DefaultMinimumCoversAssertions | scripts/signing-keys.ts:37 | the default minimum never strands a login assertion, even with 300 s of tolerance, and strands some access token exactly when its life exceeds the assertion lifetime by more than 300 s and, with the refresh interval, an hour |
| TornRotation.TornLoadBetween | src/modules/keys/services/key-providers.ts:114-147 | a valid torn read lies between the two keysets of the save it overlaps: its keys come from them, and it publishes what both publish |
| TornRotation.TornViewsNeverStrand | scripts/signing-keys.ts:36-40 | with saves that take at most save ms and pods that may load in the middle of them, no token is stranded if save + 1 ms is added to the refresh interval |
| Transactions.TransactionService.constructor | src/modules/transactions/services/transaction.service.ts:37-40 | starts without records |
| Transactions.TransactionService.CreateTransaction | src/modules/transactions/services/transaction.service.ts:46-78 | SET NX; a repeat of the same request resumes a pending record, reports a completed one as used, and anything else conflicts |
| Transactions.TransactionService.RequirePending | src/modules/transactions/services/transaction.service.ts:93-99 | invalid, used and foreign records are told apart in that order |
| Transactions.TransactionService.CompleteTransaction | src/modules/transactions/services/transaction.service.ts:101-106 | PENDING becomes COMPLETED once, with the deadline kept |
| Transactions.TransactionService.BindToSession | src/modules/transactions/services/transaction.service.ts:113-118 | binds unless the session is over, the record is gone, or it is bound elsewhere and overwriting was not asked for |
| Transactions.BindDeadline | src/modules/transactions/services/transaction.service.ts:114-116 | a bound record ends within the last second before the session's absolute expiry and never after it |
| Transactions.CreateAnswers | src/modules/transactions/services/transaction.service.ts:46-78 | malformed, new, resumed, used and conflict, each exactly: over a live key the store does not change and the answer is a conflict if and only if one of the five parameters differs |
| Transactions.CreateResumes | src/modules/transactions/services/transaction.service.ts:66-78 | whoever gets a record gets one of its own request; repeating the request while it lives resumes that record, and after complete it is used |
| Transactions.PendingAnswers | src/modules/transactions/services/transaction.service.ts:93-99 | a record is handed out if and only if the id is well formed and the record live, PENDING and of the client that asks |
| Transactions.CompleteAnswers | src/modules/transactions/services/transaction.service.ts:12-19 | succeeds if and only if the record is live and PENDING; then only its status changes, not its deadline nor another record |
| Transactions.CompletesOnce | src/modules/transactions/services/transaction.service.ts:12-19 | a second complete, and any requirePending, of a completed record fails |
| Transactions.BindAnswers | src/modules/transactions/services/transaction.service.ts:113-118 | succeeds if and only if the session has a second left and the record is live and unbound, bound to it, or to be overwritten; then only its sid and deadline change |
| Transactions.BoundStays | src/modules/transactions/services/transaction.service.ts:25-33 | a bound record refuses every other session and accepts its own again |
| LoginProtocol.CompletableInstance | src/modules/transactions/services/transaction.service.ts:12-19 | what complete finds pending was completed by nobody before, and is a portal record only if the login was for one |
| LoginProtocol.RunKeepsInv | src/modules/embed/services/login.service.ts:62-118 | every interleaving of logins, SSO continuations, portal pages, sign-ins and workspace selections keeps the protocol invariant |
| LoginProtocol.OneAssertionPerInstance | src/modules/embed/services/login.service.ts:158-182 | each stored transaction instance yields at most one assertion, with that instance's audience, transaction, state and delivery target, about the owner of its session |
| LoginProtocol.NeverPendingAgain | src/modules/transactions/services/transaction.service.ts:12-19 | whatever runs afterwards, a completed instance is never stored as PENDING |
| LoginProtocol.PortalBindingFreezes | src/modules/embed/services/login.service.ts:92-95 | once the completing sign-in has bound a portal record, no later step changes its sid and its deadline never passes that session's absolute expiry |
| LoginProtocol.BindPageKeepsInv | src/modules/portal/v1/portal.controller.ts:42-51 | the overwriting bind of a new page happens before anybody can have signed in with it |
| LoginProtocol.BindScopeKeepsInv | src/modules/portal/services/portal-login.service.ts:87-91 | the bind of a workspace selection never moves a record from one session to another |
| LoginProtocol.IssuedKeepsInv | src/modules/assertions/services/assertion.service.ts:46-65 | an assertion takes its claims from the completed record and the session, with a fresh jti and exp = iat + lifetime |
| LoginAudience.CreateServes | src/modules/transactions/services/transaction.service.ts:46-78 | over an id that the client can know, the client is served exactly the record that create answers with |
| LoginAudience.LoginBegins | src/modules/embed/services/login.service.ts:62-67 | a login begins if and only if its record is live, PENDING and of the client named, the csrf token is the record's, and the page is of the right kind |
| LoginAudience.Issues | src/modules/embed/services/login.service.ts:158-182 | an assertion is issued if and only if the login is done, not for the portal, with a new jti; each claim and the delivery are those of the completed record, iat the second of the clock |
| LoginAudience.ScopeBegins | src/modules/portal/services/portal-login.service.ts:80-91 | a workspace selection goes on if and only if the record is live and of the portal |
| LoginAudience.PortalBinds | src/modules/embed/services/login.service.ts:92-95 | the bind after a portal sign-in takes effect if and only if the session has a second left and the record is live, and freezes the completed instance if and only if that is what it bound |
| LoginAudience.CreateServesOwn | src/modules/transactions/services/transaction.service.ts:46-78 | over every run, whoever create answered got the csrf token of a record of its own client |
| LoginAudience.AudienceIsAskedExactlyWhen | src/modules/embed/services/login.service.ts:62-64 | over every run, the audience of an assertion is the client its login began for if and only if the record that complete found is of that client; it is, unless the record the login began with lapsed and another was stored under its id |
| LoginAudience.CompletesForAnother | src/modules/embed/services/login.service.ts:158-165 | complete ends a login with the record of another client if and only if the record stored at that moment is live, PENDING and of another client |
| LoginAudience.AudienceCanDiffer | src/modules/embed/services/login.service.ts:158-165 | a run in which that happens, for every configuration |
| Replay.ClaimCoversWindow | examples/bu-reference-app/src/core-assertion-verifier.ts:155 | a claim made within the acceptance window lapses at its end plus the fraction of a second of its own clock reading, a later one a second after it (section 4.1.4 of RFC 7519) |
| Replay.MemoryReplayStore.constructor | examples/bu-reference-app/src/core-assertion-verifier.ts:188-189 | starts empty |
| Replay.MemoryReplayStore.Claim | examples/bu-reference-app/src/core-assertion-verifier.ts:191-197 | the sweep loop removes exactly the lapsed entries before the claim |
| Replay.StoresAnswerFromLatest | examples/bu-reference-app/src/core-assertion-verifier.ts:176-198 | each store accepts exactly a token that verifies and whose latest accepted claim has lapsed, the map a millisecond later than Redis |
| Replay.StoresRefineLog | examples/bu-reference-app/src/core-assertion-verifier.ts:151-198 | with separate clock readings for verification and claim, each store answers a run as an append-only log if and only if no claim comes when the first claim of its token has lapsed |
| Replay.AcceptedTwiceExactlyWhen | examples/bu-reference-app/src/core-assertion-verifier.ts:151-158 | some token is accepted twice in a run if and only if some claim comes that late |
| Replay.AcceptedOnce | examples/bu-reference-app/src/core-assertion-verifier.ts:151-158 | claims made inside the window never collide, however long the run |
| Replay.SlowClaimsCollide | examples/bu-reference-app/src/core-assertion-verifier.ts:131-158 | if claims follow verification by at most a given delay, some run accepts a token twice if and only if the delay is at least 1 ms for Redis, 2 ms for the map |
| Callback.RunKeepsInv | examples/bu-reference-app/src/server.ts:168-245 | every interleaving of starts, callbacks and Core steps keeps the correspondence invariant |
| Callback.InjectiveCorrespondence | examples/bu-reference-app/src/server.ts:188-245 | each local session matches exactly one issued assertion with its aud, sub, sid and txn and one pending record its application started; no two sessions share the record, the assertion or the Core instance |
| CallbackChecks.StartStores | examples/bu-reference-app/src/server.ts:168-184 | start makes the state readable for the pending lifetime and touches no other transaction |
| CallbackChecks.TakeAnswers | examples/bu-reference-app/src/server.ts:197-202 | a callback goes on if and only if the pending record is live and holds the state it presents; right or wrong, the record is gone |
| CallbackChecks.VerifyAnswers | examples/bu-reference-app/src/core-assertion-verifier.ts:82-89 | it goes on if and only if the assertion is for this application and this transaction and in time |
| CallbackChecks.ClaimAnswers | examples/bu-reference-app/src/core-assertion-verifier.ts:151-158 | it goes on if and only if no live claim of the jti is held; from then on one is, to the end of the acceptance window |
| CallbackChecks.CreateAnswers | examples/bu-reference-app/src/server.ts:225-237 | the session carries the assertion's sub, sid, jti and txn |
| CallbackChecks.SessionsAreChecked | examples/bu-reference-app/src/server.ts:188-245 | over every run, each local session comes from a callback that presented the very state stored for its transaction, with an assertion in time at its verification |
| LoginThrottle.LoginThrottleService.constructor | src/modules/rate-limit/services/login-throttle.service.ts:16-19 | starts without counters |
| LoginThrottle.LoginThrottleService.AssertAllowed | src/modules/rate-limit/services/login-throttle.service.ts:21-43 | every attempt counts against its address, opening a window only if none is live; allowed exactly within both limits; the address limit is reported first, with a wait of at least one second |
| LoginThrottle.LoginThrottleService.RecordFailure | src/modules/rate-limit/services/login-throttle.service.ts:45-48 | one failure more for the identifier; a live window keeps its deadline, a new one gets its full length; no other identifier changes |
| LoginThrottle.LoginThrottleService.RecordSuccess | src/modules/rate-limit/services/login-throttle.service.ts:50-52 | forgets the identifier's failures at every time |
| LoginThrottle.RefusedUntil | src/modules/rate-limit/services/login-throttle.service.ts:36-42 | the address limit comes first; a refusal announces the wait for the counter that refused, and attempts pass that counter again exactly from the end of its window on |
| LoginThrottle.WaitSuffices | src/modules/rate-limit/services/login-throttle.service.ts:36-42 | after the announced wait the window has lapsed if and only if at most a second was left or the rest was not rounded down |
| LoginThrottle.WindowBound | src/modules/rate-limit/services/login-throttle.service.ts:26-41 | in any half-open interval of one window at most 2 * max - 1 attempts of an address pass, under any interleaving |
| LoginThrottle.WindowBoundIsAttained | src/modules/rate-limit/services/login-throttle.service.ts:26-41 | a schedule that reaches the bound, for all limits |
| LoginThrottle.ViewIsSeen | src/modules/rate-limit/services/login-throttle.service.ts:23-33 | what an address is counted for depends on its own attempts and the clock only |
| LoginThrottle.IdentifierBound | src/modules/rate-limit/services/login-throttle.service.ts:36-48 | with at most c requests in flight for an identifier its failure counter never passes max - 1 + c, not even when all of them fail |
| LoginThrottle.IdentifierBoundIsAttained | src/modules/rate-limit/services/login-throttle.service.ts:36-48 | for all limits and every c a run with at most c requests in flight that takes the counter to max - 1 + c |
| LoginThrottle.LimitHolds | src/modules/rate-limit/services/login-throttle.service.ts:42-48 | at the limit no attempt is allowed from any address until the window lapses or a request in flight succeeds |
| Credentials.CredentialService.constructor | src/modules/credentials/services/credential.service.ts:54-57 | takes the limits, the hasher and the table |
| Credentials.CredentialService.Verify | src/modules/credentials/services/credential.service.ts:59-109 | every branch: unknown or passwordless accounts, locked ones, wrong passwords, inactive accounts, success with counter reset and hash upgrade |
| Credentials.CredentialService.VerifyFound | src/modules/credentials/services/credential.service.ts:76-108 | the branches for an account with a password, one row changed at most |
| Credentials.CredentialService.RecordFailure | src/modules/credentials/services/credential.service.ts:86-93 | count plus one; the lock is set from the limit on and left alone below it |
| Credentials.CredentialService.RecordSuccess | src/modules/credentials/services/credential.service.ts:102-106 | count and lock cleared; an outdated hash replaced |
| Credentials.CredentialService.SpendTime | src/modules/credentials/services/credential.service.ts:70-74 | the check against the dummy hash never throws and answers as verify would on it |
| Credentials.Answers | src/modules/credentials/services/credential.service.ts:70-108 | signed in if and only if hash, no lock, right password and ACTIVE; unavailable, with the row unchanged, if and only if only ACTIVE is missing; every other answer and what it counts |
| Credentials.SignsInExactlyWhen | src/modules/credentials/services/credential.service.ts:59-109 | an attempt signs exactly the account in that it names by id or unique name and kind, if that account may sign in; no other row changes |
| Credentials.OnlyActiveSignIn | src/modules/credentials/services/credential.service.ts:97-100 | an account that is not ACTIVE never signs in, whatever is attempted before |
| Credentials.StatusHidden | src/modules/credentials/services/credential.service.ts:84-100 | without the right password every account status gives the same answer |
| Credentials.LockedAnswers | src/modules/credentials/services/credential.service.ts:76-81 | while locked nothing is counted, the answer is independent of the password, and the announced wait is the least number of whole seconds that suffices |
| Credentials.SignInKeepsWorking | src/modules/credentials/services/credential.service.ts:102-108 | whatever hash a sign-in leaves, the same password signs in again and the hash is not replaced a second time |
| Credentials.LockSpacesGuesses | src/modules/credentials/services/credential.service.ts:76-93 | without a success every counted failure stays in the count, lapsed locks included, and from the limit on the k-th counted comparison comes at least (k - j) lock lengths after the j-th |
| Credentials.LockoutBound | src/modules/credentials/services/credential.service.ts:76-93 | any stretch of consecutive counted comparisons that takes time T has at most max + floor(T / lock) of them |
| Credentials.EveryGuessCounts | src/modules/credentials/services/credential.service.ts:76-93 | max guesses at once and one each time the lock lapses are all counted |
| Credentials.LockoutBoundIsAttained | src/modules/credentials/services/credential.service.ts:76-93 | they meet the bound exactly, for every limit, lock and number |
| LockRaces.RacingGuessesSpaced | src/modules/credentials/services/credential.service.ts:59-95 | with overlapping verifies, at most c in flight: the counted comparison c places after one at the limit comes at least a lock length later |
| LockRaces.RacingLockoutBound | src/modules/credentials/services/credential.service.ts:59-95 | any stretch of counted comparisons that takes time T has at most max - 1 + c * (floor(T / lock) + 1) of them |
| LockRaces.RacingLockoutBoundIsAttained | src/modules/credentials/services/credential.service.ts:59-95 | for every limit, lock, c and number of lapses a run with at most c in flight whose counted comparisons are exactly as many as the bound allows |
| Base64Url.DecodeEncode | src/modules/credentials/services/password-hasher.ts:28-41 | decoding what was encoded gives the same bytes (section 5 of RFC 4648, unpadded) |
| Base64Url.EncodeDecode | src/modules/credentials/services/password-hasher.ts:28 | encoding what was decoded gives the same text exactly for canonical text: no lone last symbol, no unused bit set |
| Base64Url.AlphabetInOrder | src/modules/credentials/services/password-hasher.ts:39-41 | the alphabet of section 5 of RFC 4648, in order |
| Base64Url.EncodeAppends | src/modules/credentials/services/password-hasher.ts:39-41 | the bit layout of section 4 of RFC 4648: each three bytes are four symbols, most significant bits first |
| GeneratedIds.TokensAreWellFormed | src/common/utils/crypto.util.ts:3-6 | a generated handle or local session id of 32 bytes matches the pattern that getByHandle and the local store demand |
| GeneratedIds.TransactionsAreWellFormed | src/common/utils/crypto.util.ts:8-11 | generated transaction ids and states match the patterns that create demands |
| GeneratedIds.GeneratedDiffer | src/common/utils/crypto.util.ts:3-11 | different random bytes make different tokens and ids |
| PasswordHash.SplitIsThePattern | src/modules/credentials/services/password-hasher.ts:24-27 | the reader's captures are exactly the well-formed pieces whose concatenation is the text |
| PasswordHash.ParsePrint | src/modules/credentials/services/password-hasher.ts:24-41 | parse recovers ln, r, p, salt and hash from what is printed exactly for numbers below 100 and non-empty bytes, and otherwise answers null |
| PasswordHash.PrintParse | src/modules/credentials/services/password-hasher.ts:24-41 | printing a parsed text gives it back exactly when it has no leading zero and canonical base64url |
| PasswordHash.PrintedForm | src/modules/credentials/services/password-hasher.ts:3-7 | a new hash is written in the documented format |
| PasswordHash.HashedIsCurrent | src/modules/credentials/services/password-hasher.ts:35-59 | a new hash parses back, is usable and needs no rehash |
| PasswordHash.VerdictOnPrinted | src/modules/credentials/services/password-hasher.ts:44-54 | over everything the printer can write: true if and only if the password has 1 to 256 characters, ln is 14 to 20 and the scrypt key is the stored hash; an error if and only if scrypt rejects |
| PasswordHash.VerdictOnUnreadable | src/modules/credentials/services/password-hasher.ts:44-50 | a missing or unreadable text never verifies |
| PasswordHash.RehashedWhen | src/modules/credentials/services/password-hasher.ts:56-59 | a stored hash is replaced if and only if it is unreadable, of lower cost, or of other block parameters |
| PasswordHash.HashVerifies | src/modules/credentials/services/password-hasher.ts:35-54 | a password verifies against a new hash exactly when scrypt gives it the same key |
| PasswordHash.HashGroupDecides | src/modules/credentials/services/password-hasher.ts:25-54 | a usable text refuses no password, whatever scrypt is, if and only if its hash group is a single symbol, which decodes to no bytes |
| PasswordHash.DummyPasswordInRange | src/modules/credentials/services/password-hasher.ts:62-65 | the random dummy password always has an accepted length |
| PasswordHash.PasswordHasher.constructor | src/modules/credentials/services/password-hasher.ts:31-33 | no dummy hash yet |
| PasswordHash.PasswordHasher.Hash | src/modules/credentials/services/password-hasher.ts:35-42 | succeeds exactly for 1 to 256 characters, and the result verifies the password and needs no rehash |
| PasswordHash.PasswordHasher.GetDummyHash | src/modules/credentials/services/password-hasher.ts:62-65 | made once, the same ever after, with current parameters |
| PasswordHash.PasswordHasher.Verify | src/modules/credentials/services/password-hasher.ts:44-54 | terminates after at most one recursive call; false for unusable text, an error when scrypt rejects, otherwise whether the keys are equal |

## Left out

- HTTP controllers, request validation, cookies, CSP, HTML, browser scripts: plumbing around the operations modelled here.
- RSA, SHA-256, scrypt, JWE and JWT encoding: ideal or uninterpreted functions; issuer, kid and header checks of a genuine token always pass.
- AWS calls, file I/O, TypeORM, migrations, logging, audit and attempt records, metrics, key metadata: nothing modelled reads them.
- Client configuration, client revalidation and the Authorization service: their answers are arbitrary, so a request may stop at any point.
- The order of client and sid lists: lists are sets, and the loops visit them in an arbitrary order.
- Revoke reasons, display fields, created_at and expires_at of records: no property depends on them.
- SingleLogout.SingleLogoutReachesEveryClient: revoke is one step, so two concurrent revokes that both fan out are outside the statement; a client whose addClient comes after the logout was not listed and is not promised anything.
- RotationTiming.NeverStranded: a pod's view is a snapshot the provider held; TornRotation.TornViewsNeverStrand covers views that are torn reads of a save in progress.
- LocalSessions.DestroyBySidIsComplete: sequential runs, with destroyBySid as one step; LocalInterleaving.DestroyBySidLeavesExactly is the statement for its two commands.
- LocalSessions.RunIsComplete: sequential runs, destroyBySid as one step; LocalInterleaving has the exact statements for its two commands.
- Replay.StoresRefineLog: the clock of claims does not run backwards, and a token is verified before it is claimed.
- Replay.SlowClaimsCollide: verification and claim are two clock readings, but the entry's lifetime (`examples/bu-reference-app/src/core-assertion-verifier.ts:155`) and its application by the store (line 192, or Redis) are one, the claim's; a store that applies the lifetime later keeps the entry that much longer.
- Credentials.LockoutBound: verifies run one at a time and the database and the service read one clock; LockRaces.RacingLockoutBound has the bound for overlapping verifies.
- Credentials.CredentialService.Verify: the identifier arrives normalised (trimming and lower-casing are Unicode operations), and a name finds the one row of the unique index.
- PasswordHash.PasswordHasher.Verify: Unicode normalisation is part of the uninterpreted scrypt; the timing that the dummy check equalises is not modelled.
- Callback.InjectiveCorrespondence: the cookie that ties a transaction to one browser is not modelled; a callback may present any transaction and state.
- LoginThrottle.LoginThrottleService.AssertAllowed: an unavailable Redis, which the source reports as an error, is not modelled.
- LoginProtocol.PortalBindingFreezes: the bind reads the clock and runs its script at one reading.

# Verified model of the SSO backend

The project models the parts of the backend that carry state and time, and proves what they promise.

* **Login, tokens and sessions.** `AuthModel` is a transition system: a clock, a Redis keyspace with expiry
  instants (`TtlStore`), the user and group tables (`Directory`), the requests in flight, and a record of
  everything issued and used so far. A request takes one step per `await`, so the steps of all requests
  interleave in every possible order. `AuthInvariants` proves an invariant of every step, `Provenance` where
  every token comes from, `Sessions` what the session key and the blacklist guarantee, `SignOn` that a timely
  sign-on succeeds. Over all continuations of all reachable states (`Continuations`), `Logout` says which
  requests a logged-out token can still carry, `Readmission` when a logged-out user comes back without a new
  code, `OneShot` and `OneShotStates` how much one auth code and one login state can yield, and `Revocation`
  what taking authority away does; `Lifetimes` how long tokens live and what they claim. `AuthServices` holds the service and the endpoints as classes over Redis
  and the database; each endpoint advances the transition system, so the theorems about reachable states hold
  of the running objects.
* **Roles.** `Directory` says what each operation does to the tables, `DirectoryServices` is the imperative
  code proved against it, `Writes` says column by column what changes, `DirectoryLaws` and `Privileges` prove the whitelist and privilege policies over runs,
  `LoginRaces` and `UpdateRaces` take a login and an update apart into their database visits.
* **Rate limiter.** `RateLimit` proves the pruned, expiring sorted set equal to the unpruned request history.
* **Audit log, cache, pagination, wire formats.** `Audit`, `Cache` (with `Query`), `Pagination`, `EventStream`,
  `Notification`, `SsoCrypto` (with `Encodings`); `Sets` and `Wrappers` are shared helpers.

Assumptions: one clock that never runs backwards; ids drawn from `uuid4` are new; a signature verifies only on
a token this server signed; a Redis key is visible while `now` is before its expiry instant, and EXPIRE on a key
that is not visible does nothing; the identity provider's answer is a parameter. Redis answers every command.
AES-GCM is a pair of functions of which only the inverse law, the tag length and that it takes every 16-octet IV
are assumed. The key digest
of the cache is a parameter, assumed free of collisions among the queries actually asked.

## What the code does and does not keep

* When an auth code is first deleted, at most one token pair will ever be signed for it exactly if no other
  request has read it by then (or its owner's row is deleted): every request that has read it can still sign a
  pair, and nobody else can (`OneShotExactly`, `PairsExactly`, `SignersExactly`). Two requests that both read a
  code before either deletes it both sign (`OverlappingReadsHold`).
* A login state is no better: every callback that read it before its first deletion can issue a code of its own
  (`StateOneShotExactly`, `CodesExactly`), but for one whose ID token names a deleted, inactive employee.
* After a logout the token is refused at every blacklist read up to the last second before its `exp`, and on a
  clock of whole seconds up to `exp`. It still carries through the gate exactly the live user's requests that had
  read the blacklist before the logout (`LogoutLeavesExactly`, `LogoutLeavesExactlyOnWholeSeconds`). And since
  decoding and the blacklist read are separate steps, a request that decodes the token before its `exp` and reads
  the blacklist once the entry is gone is accepted too, as long as the user is live (`LateReadsPassExactly`).
  Before `exp` itself there is such a read exactly if the logout fell between two whole seconds; `exp` is written
  in whole seconds (`LogoutTailExactly`).
* A logout does not end every access until a new sign-on. With no further code of the user read, the user can
  be accepted again exactly if live and one of these was under way: a request that had been told the session
  exists, an exchange that had read its code, or one that had signed its tokens, with a token still in hand to use
  the session it opens (`LogoutEndsAccessExactly`). An inactive account is no obstacle at the service
  layer, where `update_user` reactivates any live row whoever asks; over HTTP that takes an active ADMIN.
* A logout whose token expires between the gate and the handler does nothing and says it succeeded
  (`LogoutTakesEffectExactly`).
* Taking a role or an account's activity away stops every request of the user at once, those past the session
  check and those with an administrator's claim in their token included, until one of the listed steps restores it
  (`RevocationHolds`, `RestoresExactly`, `LostRoleStaysLost`); at the service layer a live user's always can be
  (`ReturnsExactly`).
* A login interleaved with other operations can leave its user waiting in a whitelisted department
  (`InterleavedLoginAgreesExactly`). A new employee: exactly if the department was switched on between the group's
  SELECT and the INSERT. An employee with a row: exactly if the login moves a user who is waiting at the flush into
  a department whitelisted by then, and either it was switched on after the group's SELECT (`SwitchOnStrands`) or
  the user was sent back to waiting after the user's SELECT (`DemotionStrands`); `StrandingHasCause` finds that
  operation in between.
* An administrator role held at such a login's flush is lost there exactly if the row was waiting at the user's
  SELECT and the group's SELECT led to promotion; a super administrator has then given the role in between
  (`PromotionLostExactly`). A super administrator made during a login can so end as a plain user, with no sponsor
  for the loss (`FreshSuperAdminLost`).
* An `update_user` interleaved with other operations moves an administrator role without an allowed cause exactly if
  its actor has stopped being a super administrator since loaded, or its user has become an administrator since the
  check (`InterleavedUpdateMovesExactly`): an administrator's routine update can take away a role a super
  administrator has just given (`AdminOverridesPromotion`).
* Nobody waits for permission in a whitelisted department, unless `update_user` sets PERMISSION_REQUIRED on
  one of its members (`AgreementStep`).
* Login and switching a department on commute, unless the user leaves that department at this login or is
  known to it by department name only (`LoginCommutesWithSwitch`).
* An off-then-on cycle is idempotent, unless the department was off and has an administrator in it: the
  first cycle leaves that role, the second demotes it to a plain user (`CycleIdempotent`).
* The role endpoint's guard admits ADMIN only, and the service then demands SUPERADMIN, so over HTTP no
  administrator role can be given at all (`AdminRolesFrozenOverHttp`). The request-permission endpoint's
  guard refuses the only role it serves (`RequestPermissionUnreachable`).
* Requests at one instant collapse into one member of the rate set; distinct instants are bounded, requests
  are not (`AdmissionBound`, `SimultaneousRequestsAllAdmitted`).
* Pages ordered by `created_at` partition the table exactly when no tie straddles a page boundary
  (`ListingPartitionsExactly`).
* A bulk role update bypasses the audit hook, and the log then stops replaying to the row
  (`BulkUpdateEscapesLog`).
* An event stream delivers its payloads exactly when none contains a newline; what `send` publishes never
  does (`StreamFaithfulExactly`, `EncodeOneLine`).
* `decrypt` undoes `encrypt` exactly when the IV has 16 octets (`RoundTripExactly`).

Where code and documentation differ the model follows the code: docs/login_architecture.md says refresh
renews the session (line 466) and a login state lives 300 s (lines 312 and 404), while the code leaves Redis
alone on refresh (app/api/v1/endpoints/auth.py:172-215) and stores the state for 600 s
(app/api/v1/endpoints/auth.py:74).

## Model

| member | source | states |
|---|---|---|
| AuthInvariants.StepKeepsInv | app/api/v1/endpoints/auth.py:67-215 | every step of every request keeps the whole invariant: stored states and codes are exactly the issued, unconsumed ones with the right expiry; every suspended request and every token has a sound origin |
| AuthInvariants.RunKeepsInv | app/api/v1/endpoints/auth.py:67-215 | the invariant over every run from every state that has it |
| AuthInvariants.StepExtends | app/crud/base.py:161-175 | histories only grow and rows never disappear or come back from soft deletion |
| AuthInvariants.MintedOriginsSound | app/services/auth/service.py:90-97 | a freshly signed pair extends the record of sound origins |
| AuthInvariants.SyncedUserFound | app/services/auth/service.py:20-70 | a login returns the row of the employee the ID token named |
| AuthInvariants.GateMoveCarries | app/core/security/deps.py:40-72 | the gate and the logout keep the token decoded at the start |
| Provenance.TokenProvenance | app/api/v1/endpoints/auth.py:67-215 | in every reachable state every access token descends, through refreshes that each used a then-unexpired refresh token of the same subject, from an exchange within the code lifetime of a callback for that user, itself within 600 s of a login whose nonce equals the ID token's |
| Provenance.ChainDescent | app/api/v1/endpoints/auth.py:172-215 | every chain of refreshes carries one subject and timely parents down to a sound exchange |
| Provenance.CodeReadableExactly | app/services/auth/service.py:72-88 | a code can be read exactly while issued, unspent and younger than its lifetime |
| Provenance.StateReadableExactly | app/api/v1/endpoints/auth.py:67-98 | a login state can be consumed exactly while stored, unconsumed and less than 600 s old |
| Provenance.SpentCodeStaysSpent | app/services/auth/service.py:79-88 | after any exchange has deleted a code no read of it succeeds in any continuation |
| Provenance.ConsumedStateStaysConsumed | app/api/v1/endpoints/auth.py:93-98 | after any callback has deleted a login state no read of it succeeds in any continuation |
| Provenance.OverlappingReadsHold | app/services/auth/service.py:84-86 | any readable code can be read by two requests before either deletes it, and both go on with it |
| OneShotCodes.SignersExactly | app/services/auth/service.py:79-88 | once a code is deleted, a request can still sign tokens for it in some continuation exactly if it had read it before and the owner is live |
| OneShotCodes.PairsExactly | app/api/v1/endpoints/auth.py:125-169 | over every continuation a deleted code yields at most k pairs exactly when the pairs it has and, for a live owner, its holders number at most k |
| OneShotCodes.OneShotExactly | app/services/auth/service.py:79-88 | from its first deletion on a code yields at most one pair exactly if the deleting request is its only reader, or its owner is not live |
| OneShotStates.IssuersExactly | app/api/v1/endpoints/auth.py:93-116 | once a login state is deleted, a callback can still issue a code for it in some continuation exactly if it had read it before and was not told of a barred employee |
| OneShotStates.CodesExactly | app/api/v1/endpoints/auth.py:80-121 | over every continuation a deleted login state yields at most k codes exactly when the codes it has and the callbacks that can finish number at most k |
| OneShotStates.StateOneShotExactly | app/api/v1/endpoints/auth.py:93-98 | from its first deletion on a login state yields at most one code exactly if no other callback has read it |
| Sessions.SessionVisibleExactly | app/services/auth/service.py:99-116 | in every reachable state the session key is visible exactly when there is an exchange with no later logout since which every gap between session commands is shorter than the idle timeout |
| Sessions.SessionFrame | app/services/auth/service.py:99-129 | a step changes a user's session key only by the SET, EXPIRE or DEL it logs |
| Sessions.OnlyExchangeOpensSession | app/services/auth/service.py:106-129 | under every interleaving only the last step of an exchange takes a session from absent to present |
| Sessions.ClosedSessionRun | app/core/security/deps.py:56-61 | with the session closed and no exchange, no further request of the user passes the session check |
| Readmission.LogoutEndsAccessExactly | app/services/auth/service.py:118-129 | after a logout, with no further code of the user read, some continuation accepts the user exactly if live with a request past the session check, an exchange that will sign tokens, or one that will open the session with a token in hand |
| Readmission.ReadmissionExactly | app/core/security/deps.py:56-72 | the same from every sound state in which the user's session is closed |
| Logout.LogoutLeavesExactly | app/core/security/deps.py:40-72 | after a logout, without a blacklist read in the last second before expiry or later, a request can be accepted with the token in some continuation exactly if it was past that read at the logout and the user is live |
| Logout.LogoutLeavesExactlyOnWholeSeconds | app/services/auth/service.py:124-127 | the same on a clock of whole seconds, where only reads at the expiry or later are late |
| Logout.LateReadsPassExactly | app/core/security/deps.py:41-54 | with late reads, a request that had decoded the token, or a new one, can be accepted with it exactly if the user is live |
| Logout.LogoutTailExactly | app/services/auth/service.py:125 | a first logout leaves a continuation, without another logout of the token, in which a read before expiry passes exactly if it fell between whole seconds |
| Logout.LogoutTakesEffectExactly | app/api/v1/endpoints/auth.py:238-245 | however other requests interleave with its two steps, a logout closes the session exactly when its token has not expired at the first |
| Revocation.RevocationHolds | app/core/security/deps.py:75-86 | after an administrative step that takes a user's authority away, no request of the user passes the active-user check in any continuation without a restoring step, whatever step it had reached |
| Revocation.RestoresExactly | app/services/user.py:61-113 | the steps that give a user without authority authority again are exactly the listed updates, approval, switch-ons and logins |
| Revocation.RevokesExactly | app/services/user.py:61-134 | an authorised user is so no longer after a step exactly if it is an update not refused to a waiting role or to inactive, a deletion, a rejection, or the switching off of the department of a USER or ADMIN |
| Revocation.RevokingStepHolds | app/core/security/deps.py:75-86 | from such a step on no request of the user passes the active-user check in any continuation without a restoring step |
| Revocation.LostRoleStaysLost | app/core/security/deps.py:89-102 | an administrator role once gone, no request passes a guard for it until a super administrator gives it back, tokens that claim it included |
| Revocation.ReturnsExactly | app/core/security/deps.py:63-86 | some continuation lets the user pass the active-user check exactly if the row is live |
| Sessions.DeletionIsTerminal | app/crud/base.py:52-62 | a deleted user is never accepted and never minted another token in any continuation |
| Sessions.AcceptedUserSignedOn | app/core/security/deps.py:24-72 | whoever is accepted holds a token with a sound descent for that same account |
| SignOn.TimelySignOnIsAccepted | app/api/v1/endpoints/auth.py:35-169 | every reachable state can be followed by a sign-on that, kept within the four lifetimes and leading to a live active account, ends in an accepted request under the new token |
| SignOn.BlacklistIssuedRun | app/services/auth/service.py:124-127 | in every run only tokens that were issued are ever blacklisted |
| SlidingKey.StoredExpiryMatchesHistory | app/services/auth/service.py:99-116 | for any history of SET, EXPIRE and DEL the stored expiry shows the key exactly when the history says it is alive |
| AuthServices.AuthService.SsoSyncUser | app/services/auth/service.py:20-70 | what a login writes, column by column, for a known and for an unknown employee, and on whom it fails; other rows are untouched, and unique keys, the agreement and the administrator roles are kept |
| Writes.LoginWritesColumns | app/services/auth/service.py:24-70 | the same of the specification: profile and clock from the claims, e-mail address, activity and deletion as they were or as a new account's, the role by the whitelisted group the code, or else the name, of the department names |
| AuthServices.AuthService.GenerateAuthCode | app/services/auth/service.py:72-77 | the user can be read back under the code exactly until its lifetime is over, and every other key is untouched |
| AuthServices.AuthService.ExchangeAuthCode | app/services/auth/service.py:79-88 | returns the stored user and deletes the code, or changes nothing |
| AuthServices.AuthService.ActivateSession | app/services/auth/service.py:99-104 | the session is visible exactly for the idle timeout, whatever it was before, and every other key is untouched |
| AuthServices.AuthService.TouchSession | app/services/auth/service.py:106-116 | reports visibility at EXISTS and renews only what is still visible at EXPIRE |
| AuthServices.AuthService.Logout | app/services/auth/service.py:118-129 | lists the token for the whole seconds it has left, if any, and deletes the session |
| AuthServices.AuthEndpoints.LoginViaSso | app/api/v1/endpoints/auth.py:35-76 | after a healthy provider the nonce and the verifier can be read back under the state for exactly 600 s |
| AuthServices.AuthEndpoints.SsoCallback | app/api/v1/endpoints/auth.py:80-121 | yields a readable code, for the synced user, exactly when the state was readable, the nonce matches and the sync succeeds; a read state is consumed either way |
| AuthServices.AuthEndpoints.ProcessAnswer | app/services/auth/oidc/hmg_provider.py:84-97 | the callback gets an account exactly when the ID token's nonce is the stored one and the sync succeeds, and the request goes on for that login state only |
| AuthServices.AuthEndpoints.ExchangeToken | app/api/v1/endpoints/auth.py:125-169 | succeeds exactly for a readable code of an undeleted, active account; the two tokens returned are the two signed, under the two new ids and of one origin, the role claimed is the row's, the session is open, the code is spent even on failure |
| AuthServices.AuthEndpoints.RefreshTokens | app/api/v1/endpoints/auth.py:173-215 | succeeds exactly for an unexpired refresh token of an undeleted, active account, and leaves Redis as it was; the two tokens returned are the two signed, and the new refresh token decodes |
| Lifetimes.AccessLifetimeExactly | app/core/security/jwt.py:14-27 | in every reachable state the gate decodes an access token exactly if it was signed here and it is before the whole second in which JWT_ACCESS_TOKEN_EXPIRE_MINUTES after its signing are over |
| Lifetimes.RefreshLifetimeExactly | app/core/security/jwt.py:30-42 | likewise a refresh token and JWT_REFRESH_TOKEN_EXPIRE_DAYS |
| Lifetimes.RefreshAgainExactly | app/api/v1/endpoints/auth.py:184-195 | a refresh token handed out yields another pair, in any continuation, exactly within that time while its account is undeleted and active |
| Lifetimes.RoleClaimIsRoleAtSigning | app/services/auth/service.py:90-92 | the role an access token claims is its user's at the step that signed it |
| AuthServices.AuthEndpoints.GetCurrentUser | app/core/security/deps.py:24-72 | succeeds exactly for an issued token unexpired when decoded, unlisted when looked up, its session visible when asked for, its row live |
| AuthServices.AuthEndpoints.GetCurrentActiveUser | app/core/security/deps.py:75-86 | succeeds exactly if that does and the row is active in USER, ADMIN or SUPERADMIN, whatever the token claims; otherwise 401 exactly if that fails, AUTH_007 for a user who must ask, AUTH_008 for one who has asked, a plain refusal for an inactive one |
| AuthServices.AuthEndpoints.RequireRole | app/core/security/deps.py:89-102 | on top of that exactly for the roles listed, a higher one not being enough; which refusal the others get |
| AuthServices.AuthEndpoints.Logout | app/api/v1/endpoints/auth.py:219-250 | deletes the session and revokes the token when it has not expired, changes nothing otherwise |
| AuthServices.TouchEffect | app/services/auth/service.py:106-116 | EXISTS and EXPIRE with nothing between them renew exactly an open session |
| Directory.RowsPersist | app/crud/base.py:136-175 | every operation keeps unique keys, every row and every soft deletion |
| Directory.RowsPersistOverRuns | app/crud/base.py:136-175 | the same over every run of operations |
| Policies.PoliciesKept | app/services/user_group.py:56-121 | every operation keeps unique keys, rows and soft deletions, the agreement unless it demotes a whitelisted member, and the administrator roles but for an allowed cause |
| DirectoryServices.UserGroupService.CreateGroup | app/services/user_group.py:56-66 | the columns of the new group and the promotion of its waiting members if whitelisted, or the failure and no change; keeps the policies |
| Writes.CreateWritesColumns | app/crud/base.py:119-134 | the same of the specification, with the length limits |
| DirectoryServices.UserGroupService.UpdateGroup | app/services/user_group.py:68-83 | writes the name and the switch it is sent and nothing else of the group, moves the members' roles exactly when the switch moved, or fails and changes nothing; keeps the policies |
| Writes.GroupWritesColumns | app/crud/base.py:147-159 | the same of the specification, column by column |
| Writes.MembersMovedBySync | app/services/user_group.py:98-121 | the bulk update changes roles only, of the department's members only: waiting to USER, or USER and ADMIN to waiting |
| DirectoryServices.UserGroupService.DeleteGroup | app/services/user_group.py:85-89 | keeps the policies and exactly the other groups live; no member's role moves, and every department stays as whitelisted as it was, the deleted one included |
| DirectoryServices.UserGroupService.SyncGroupMembersRoles | app/services/user_group.py:91-130 | the bulk update row by row, and the count of rows changed |
| DirectoryServices.UserService.UpdateUser | app/services/user.py:61-90 | writes the role and the activity it is sent and no other column or row, or is refused, with which error, and changes nothing; keeps the policies |
| Writes.UpdateWritesColumns | app/services/user.py:74-90 | the same of the specification, column by column |
| DirectoryServices.UserService.DeleteUser | app/services/user.py:92-97 | no later operations make the row live again, logins still find it instead of registering anew, other rows are untouched; keeps the policies |
| DirectoryServices.UserService.ApproveUser | app/services/user.py:99-113 | succeeds exactly for a live row with a requested permission, which then passes the active-user check, fails the administrator's guard and cannot be approved twice; keeps the policies |
| DirectoryServices.UserService.RequestPermission | app/services/user.py:115-121 | succeeds exactly for a live row that must ask, which is then refused as pending until an approval, which will succeed, and cannot ask twice; keeps the policies |
| DirectoryServices.UserService.RejectUser | app/services/user.py:123-134 | succeeds exactly for a live row, which then keeps its role, fails the active-user check and is refused at every login; keeps the policies |
| DirectoryLaws.AgreementStep | app/services/auth/service.py:28-64 | one operation keeps the whitelist agreement exactly when it is not an explicit demotion of a whitelisted member |
| DirectoryLaws.AgreementOverRuns | app/services/user_group.py:56-121 | the agreement holds throughout a run exactly when no step of the run is such a demotion |
| LoginRaces.InterleavedLoginAgreesExactly | app/services/auth/service.py:24-66 | with any operations between its two SELECTs and its flush, a login keeps the agreement exactly unless a new employee's department was switched on after the group's SELECT, or an employee waiting at the flush moves into a whitelisted department that was switched on after the group's SELECT or was sent back after the user's |
| LoginRaces.StrandingHasCause | app/services/auth/service.py:32-66 | such a move was caused by a switch-on between group SELECT and flush or a sending back between user SELECT and flush |
| LoginRaces.SwitchOnStrands | app/services/auth/service.py:34-66 | a concrete run of the first cause |
| LoginRaces.DemotionStrands | app/services/auth/service.py:24-61 | a concrete run of the second cause |
| LoginRaces.UndisturbedLogin | app/services/auth/service.py:24-66 | with none in between, the three visits are the single step of the protocol |
| LoginRaces.PromotionLostExactly | app/services/auth/service.py:24-66 | an administrator role held at the flush is lost there exactly if the row was waiting at the user's SELECT and the group's SELECT led to promotion, and then a super administrator gave it in between |
| LoginRaces.FreshSuperAdminLost | app/services/auth/service.py:60-66 | a concrete run whose flush turns a fresh super administrator into a plain user, sponsored by nobody |
| UpdateRaces.InterleavedUpdateMovesExactly | app/services/user.py:74-90 | with any operations between the gate's load, the service's and the flush, an update moves an administrator role without an allowed cause exactly if the actor's super administrator role or the user's plain one was outdated by the flush |
| UpdateRaces.OverridingHasCause | app/services/user.py:80-90 | each way needs a super administrator's own update of the actor or of the user in between |
| UpdateRaces.AdminOverridesPromotion | app/services/user.py:80-90 | a concrete run of the second way |
| UpdateRaces.UndisturbedUpdate | app/services/user.py:61-90 | with none in between, the visits are the single operation of the model |
| DirectoryLaws.LoginCommutesWithSwitch | app/services/auth/service.py:32-61 | switching a group on and a login give the same tables in either order exactly outside the two named cases, for existing, new and refused users |
| DirectoryLaws.LoginOfMemberCommutes | app/services/user_group.py:79-123 | they always commute for a login that reports the group's own code |
| DirectoryLaws.CycleEffect | app/services/user_group.py:79-123 | an off-then-on cycle changes only that department, row by row |
| DirectoryLaws.CycleIdempotent | app/services/user_group.py:98-118 | two cycles equal one exactly when the department was whitelisted or has no administrator |
| Privileges.PrivilegeStep | app/services/user.py:80-88 | every role change into or out of the administrator roles has an allowed cause |
| Privileges.EveryPromotionHasSponsor | app/services/user.py:80-90 | over a run, an administrator role gained was given by a super administrator of that moment |
| Privileges.EverySuperAdminLossHasSponsor | app/services/user.py:80-90 | over a run, a super administrator lost was changed by a super administrator of that moment |
| Privileges.EveryAdminLossHasCause | app/services/user_group.py:109-118 | over a run, an ADMIN lost was changed so or their department was de-whitelisted |
| Privileges.NoSuperAdminFromNothing | app/services/user.py:80-90 | without a super administrator no run makes one, nor a new ADMIN |
| Privileges.AdminRolesFrozenOverHttp | app/core/security/deps.py:89-102 | behind the HTTP guards no run gives an administrator role or changes a super administrator |
| Privileges.AdministratorsAloneManage | app/api/v1/endpoints/users.py:102-169 | an operation of an administrator is served exactly for a live, active row with role ADMIN, and a role update under the name of its caller alone |
| Privileges.RequestPermissionUnreachable | app/core/security/deps.py:79-82 | the request-permission endpoint never changes anything |
| RateLimit.StoredSetMatchesHistory | app/utils/rate_limit.py:59-69 | the stored set, pruned at any later instant, is the set of distinct request instants in the window; pruning and key expiry lose none |
| RateLimit.CountMatchesHistory | app/utils/rate_limit.py:61-71 | what a request counts is the distinct instants of its client in the RATE_LIMIT_WINDOW_SECONDS that end with it, of the full history |
| RateLimit.AnswersExactly | app/utils/rate_limit.py:56-101 | a request is served exactly if those are at most MAX, with the rest of MAX remaining; a refused one is told to wait RATE_LIMIT_WINDOW_SECONDS |
| RateLimit.OtherClientsIrrelevant | app/utils/rate_limit.py:53-68 | a client's stored set is what its own requests alone would have left |
| RateLimit.AdmissionBound | app/utils/rate_limit.py:56-73 | any RATE_LIMIT_WINDOW_SECONDS, ending at any instant, hold at most MAX distinct served instants of a client |
| RateLimit.RequestBound | app/utils/rate_limit.py:56-73 | the admitted requests of a window are as many as its admitted instants exactly when no two of them share one, and then at most MAX |
| RateLimit.CountsEveryRequestExactly | app/utils/rate_limit.py:64 | every request is counted exactly when no two share an instant |
| RateLimit.SimultaneousRequestsAllAdmitted | app/utils/rate_limit.py:64 | any number of requests at one instant is admitted |
| RateLimit.RemainingIsHonoured | app/utils/rate_limit.py:97-101 | after an answer with Remaining = r the next r requests of the client are served, whatever their times |
| RateLimit.RetryAfterIsEnough | app/utils/rate_limit.py:80-94 | a refused client whose next request comes no sooner than the Retry-After it was given is served, although its refused requests were recorded |
| RateLimit.RateLimitMiddleware.Record | app/utils/rate_limit.py:60-71 | the four pipelined commands amount to one pruned insertion, under a key that lasts one second longer than the window |
| RateLimit.RateLimitMiddleware.Limit | app/utils/rate_limit.py:56-101 | the request joins the history and gets the answer that this history calls for |
| RateLimit.RateLimitMiddleware.Dispatch | app/utils/rate_limit.py:35-101 | exactly the five listed paths pass unrecorded; any other request joins the history and gets the answer it calls for |
| Audit.RecordIsPatch | app/core/audit.py:83-104 | `new_data` takes the rendered loaded row to the rendered current one, `old_data` takes it back |
| Audit.AuditChain | app/core/audit.py:41-122 | over any writes and flushes, in any flush order, the log replays forward to the flushed row and backward to the start |
| Audit.AuditReplay | app/core/audit.py:58-108 | from an empty log, folding the records turns the first row into the last on audited columns, and back |
| Audit.NoNetChangeNoRecord | app/core/audit.py:106-108 | a flush writes no record exactly when no audited column differs from its loaded value |
| Audit.FlushAbout | app/core/audit.py:58-60 | a flush holds exactly the one record of each object with an audited change |
| Audit.BulkUpdateEscapesLog | app/services/user_group.py:100-121 | after a bulk update the log replays to the row exactly when the column is skipped or renders as before |
| Audit.Session.SetAttr | app/crud/base.py:152-154 | one attribute write, as a step of the run |
| Audit.Session.CreateAuditRecord | app/core/audit.py:67-122 | the attribute loop adds the record of the changed audited columns, or nothing |
| Audit.Session.Flush | app/core/audit.py:42-60 | one record per changed object in some order, as a step of the run |
| Query.CanonicalExactly | app/utils/cache.py:62-63 | two queries have one sorted form exactly when they give every name the same value |
| Query.PermutationKeepsCanonical | app/utils/cache.py:62 | reordering parameters with distinct names changes nothing |
| Query.SortSpec | app/utils/cache.py:62 | sorting yields the same items in strict text order |
| Query.LastWins | app/utils/cache.py:62 | of a repeated name the last value counts |
| Cache.KeyParts | app/utils/cache.py:62-64 | keys are equal exactly when paths and digests are, separators in paths included |
| Cache.KeyText | app/utils/cache.py:64 | a key is prefix, path and digest with colons between |
| Cache.KeyExactly | app/utils/cache.py:62-64 | without collisions, exactly when path and name-to-value map are |
| Cache.ServedExactly | app/utils/cache.py:66-86 | a lookup finds exactly the newest write for its path and map while that is younger than ttl, however lookups and writes interleave |
| Cache.CachedEndpoint.Lookup | app/utils/cache.py:66-71 | a hit is the JSON image of that write's result; a miss means there is none |
| Cache.CachedEndpoint.Store | app/utils/cache.py:78-89 | a result that serialises joins the writes and can be read back for exactly ttl; no other key is touched |
| Cache.CachedEndpoint.Serve | app/utils/cache.py:45-91 | a hit exactly when a young write exists, otherwise the handler's own result, now cached |
| Pagination.PagesPartition | app/crud/base.py:64-117 | for one order of a table's undeleted rows, pages 1 to `pages` list each of them once, in order; all but the last are full, the last is not empty, later ones are; each page's meta block says total, page, size and pages |
| Pagination.ListingPartitionsExactly | app/crud/base.py:75-83 | whatever tie order each page query uses, the pages show every undeleted row of a table on exactly one page and nothing else, exactly when no tie straddles a boundary |
| Pagination.SplitTieListsTwice | app/crud/base.py:80 | a straddling tie can list one row on two pages |
| Pagination.PagesCover | app/schemas/base.py:49-53 | `pages` is the least number of pages that holds `total` rows, 0 exactly for none |
| EventStream.StreamFaithfulExactly | app/services/notification/sse.py:72-85 | a reader of the stream gets exactly the published payloads if and only if none contains a newline |
| EventStream.StreamReadsBack | app/services/notification/sse.py:77-82 | from between frames, single-line payloads come out one unnamed event each and heartbeats leave no trace |
| EventStream.CutStreamDeliversPrefix | app/services/notification/sse.py:72-92 | a connection cut anywhere has delivered a prefix of the payloads |
| EventStream.Subscribe | app/services/notification/sse.py:55-92 | the loop writes the frames of the rounds before the first error |
| EventStream.FrameTexts | app/services/notification/sse.py:61-85 | the texts of a message frame, a heartbeat and the message without Redis |
| Notification.DecodeEncode | app/services/notification/sse.py:42-49 | the JSON text decodes to the title and content sent, whatever characters they hold |
| Notification.EncodeForm | app/services/notification/sse.py:42-49 | the three members of the JSON text by name and in order |
| Notification.EscapeExamples | app/services/notification/sse.py:49 | how quotes, backslashes and control characters are escaped |
| Notification.EncodeOneLine | app/services/notification/sse.py:49 | the JSON text has no newline, whatever the title and content |
| Notification.NotificationsArrive | app/services/notification/sse.py:29-92 | the far end decodes exactly the notifications sent, in order |
| Utf8.DecodeEncode | app/services/auth/sso/crypto.py:41-54 | the strict UTF-8 decoder undoes the encoder for every text |
| Utf8.EncodeDecode | app/services/auth/sso/crypto.py:54 | only the encoding of a text decodes to it |
| Base64.DecodeEncode | app/services/auth/sso/crypto.py:44-51 | base64url decoding undoes encoding for every octet string |
| Base64.LetterTable | app/services/auth/sso/crypto.py:44-45 | the letters are those of table 2 of RFC 4648, hyphen and underscore last |
| SsoCrypto.RoundTrip | app/services/auth/sso/crypto.py:36-56 | `decrypt` undoes `encrypt` for every text, under a random and under any named 16-octet IV |
| SsoCrypto.WireForm | app/services/auth/sso/crypto.py:43-46 | what is sent is the IV followed by the sealed text, and the IV once more by itself |
| SsoCrypto.RoundTripExactly | app/services/auth/sso/crypto.py:36-56 | for any IV the cipher takes, exactly when it has 16 octets |
| SsoCrypto.DecryptExactly | app/services/auth/sso/crypto.py:48-56 | a message decrypts to a text exactly when both arguments decode, which takes ASCII, and what follows the first 16 octets is that text sealed under the given IV |

## Left out

- HTTP, cookies, SQLAlchemy, PyJWT, JWKS and the provider's token endpoint: replaced by values, tables, unforgeable tokens and a parameter.
- Several database sessions: each operation of the transition system sees the committed tables; logins and `update_user` are taken apart in `LoginRaces` and `UpdateRaces`, the other services are not.
- The Redis-absent and Redis-failing fallbacks, among them app/utils/rate_limit.py:103-105 and the `except` branches around the cache's Redis calls (app/utils/cache.py:72-73 and 88-89).
- Redis eviction and restarts: keys vanish only by DEL, pruning and expiry.
- INSERT and DELETE audit rows: an INSERT row is built before its id is assigned, so only UPDATE records replay.
- Audit switched off (`AUDIT_LOG_ENABLED`) and the order of `session.dirty`: the flush order is left open instead.
- `list_group_users`: it has its own page formula and fields the response model lacks.
- Binary floating point in `math.ceil(total / size)` and `time.time()`: exact quotients and real instants instead.
- Field lengths other than a group's code and name, and NULL text columns: an absent text is the empty string.
- The `retry` field of an event stream and reconnection: they dispatch nothing.
- Surrogate pairs in JSON escapes: the encoder writes such characters unescaped.
- Parsing of the hexadecimal cipher key (app/services/auth/sso/crypto.py:20-24): the key is inside the abstract cipher.
- Health check of the provider, SSO error maps, claim fallbacks of `_extract_user_info`: single-function branching.
- Superset, arq worker, logging, Sentry, exception handlers, the second event-stream generator in app/utils/sse.py.
- Non-positive lifetimes and windows in the settings of login and rate limiting: taken as positive, as the defaults are.
- AuthServices.AuthEndpoints.GetCurrentUser: runs one request at a time; interleaved requests are covered by the transition system it advances.
- The user sync of a login is one step of the transition system; its three database visits are taken apart in `LoginRaces` over the tables alone.

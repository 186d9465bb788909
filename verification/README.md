# A verified model of the LMS backend's stateful cores

The backend serves many tenants from one database. Most of it is plain record keeping; this project models the
parts whose correctness depends on order, time or several components at once, and proves what holds of every run.

`dafny verify dfyconfig.toml` checks everything (Dafny 4.11).

| file | what it models |
|---|---|
| `RowSecurity.dfy`, `TenantStore.dfy` | the row-level-security policy in SQL's three-valued logic, transaction-local settings on pooled connections, interleaved transactions, the repository's own tenant filter |
| `Jwt.dfy`, `RequestBinding.dfy` | token claims and expiry; from the request's headers to the scope of its database transaction |
| `Lineage.dfy`, `Sessions.dfy`, `SessionTheorems.dfy`, `SessionEffects.dfy`, `AuthService.dfy` | refresh-token sessions and password reset |
| `ResetStore.dfy` | the lazily expiring in-memory store of reset tokens |
| `Licensing.dfy`, `LicenseCache.dfy`, `LicenseReader.dfy`, `LicensingService.dfy` | module entitlements and their 60-second cache |
| `RateLimiter.dfy` | the fixed-window rate limiter |
| `AutoGrade.dfy`, `GradeBook.dfy`, `AssignmentService.dfy` | quiz scoring and the life of a grade |
| `Enrollment.dfy`, `Dashboard.dfy` | the enrolment counter and the dashboard's read side |
| `EventBus.dfy`, `AuditTrail.dfy`, `SlugCache.dfy`, `Pagination.dfy` | event fan-out and audit, tenant slugs, page arithmetic |

Protocols are functions `Step` over a state and an event, and whole-run results are lemmas about sequences of events.
Where the program changes an object in place there is a class whose methods are proved to do exactly what `Step` says.
Fields that only record history (`past`, `starts`, `admitted`, `overlapped`, a session's `parent`, `at`) decide nothing:
steps read them only to record more, and `LicenseCache.Enabled` reads the time of `past[at]` only to state the bound `gap`
on a reader's delay.

Clock readings, random draws (token ids, reset tokens) and the outcome of failing handlers are parameters of the events.
A token is the record it was signed from; a password is compared as it is. In the identity chain the tenant header
arrives resolved.

## Where code and documentation differ

* A superuser's flag is documented as bypassing row-level security (`app/modules/auth/models.py:86`). `get_db` binds the
  transaction before `get_current_user` sets the flag, so no request transaction bypasses the policy
  (`RequestBinding.RequestsNeverBypass`).
* The limiter is documented as keyed by (route, identity, window) (`app/core/middleware/rate_limit.py:5`); the key has no
  window part, and the window is the key's lifetime.
* "Writes invalidate the tenant's cache key" (`app/core/licensing/service.py:4`): the deletion comes before the commit, so
  a reader can put the old set back (`LicenseCache.InvalidationCanBeOvertaken`); `LicenseCache.FreshIff` says exactly when
  every later answer is fresh.
* The clock of `_compute_enabled` is read before its first query, so it can return a set that was true at no moment
  (`LicenseReader.TrueAtNoMoment`); `LicenseReader.AnswerTrueIff` says exactly of which moments an answer was true, and
  `LicenseReader.BoundedStaleness` exactly when one of them is recent.
* The enrolment counter is a read-modify-write without a lock and can lose an update (`Enrollment.UpdatesCanBeLost`);
  `Enrollment.CounterExactIff` says exactly when it is right.
* The stored grade is rounded and can show full marks for less (`AutoGrade.StoredFullMarksForLess`);
  `AutoGrade.StoredFullMarksIff` says exactly when.
* A token from the future is refused by the library.  If the clock passes a token's `iat` while a request is under way, the
  middleware and `get_current_user` disagree about it; a request that passes is still bound to its token's tenant
  (`RequestBinding.PassingIsBoundToToken`).

## Model

| member | source | states |
|---|---|---|
| RowSecurity.BindScopes | app/core/database/session.py:40-52 | on a connection used before in any way, binding makes the policy show exactly the rows of the bound tenant (all when bypassed, none when unbound or when binding is switched off), and ending the transaction leaves the connection neutral |
| RowSecurity.Connection.BindSettings | app/core/database/session.py:40-52 | the settings of the session change as the binding function says |
| RowSecurity.Connection.Open | app/core/database/session.py:61-65 | an idle connection becomes scoped to the request's tenant |
| RowSecurity.Connection.Close | app/core/database/session.py:66-70 | commit and rollback alike discard the transaction-local settings, so the connection is idle again |
| TenantStore.StepKeepsInv | app/core/database/session.py:55-91 | every begin, statement, commit and rollback, bypassing the policy or not, keeps: idle connections name no tenant and no bypass, busy ones are scoped to their request, pending writes of a request that does not bypass belong to its tenant, connections are not shared |
| TenantStore.ForeignStep | alembic/versions/0002_row_level_security.py:52-64 | an event of another tenant, or of a bypassing transaction with no writes on a tenant's rows, leaves all that this tenant can observe unchanged |
| TenantStore.OwnStep | alembic/versions/0002_row_level_security.py:52-64 | the same event in two worlds a tenant cannot tell apart is answered alike and leaves them indistinguishable |
| TenantStore.Noninterference | app/core/database/session.py:40-91 | two whole runs with the same actions of one tenant, from worlds agreeing on its rows, give it the same answers and the same final rows, whatever the others do, whatever bypassing transactions read or write elsewhere, and whichever connections serve whom |
| TenantStore.RowsUntouched | alembic/versions/0002_row_level_security.py:52-64 | no run of other tenants' requests changes a tenant's rows, nor do bypassing transactions that do not write on them |
| TenantStore.InitialWorld | app/core/database/session.py:24-31 | an empty pool over any data satisfies the invariants |
| TenantStore.ReadingSpares | app/core/tenancy/service.py:69-70 | bypassing transactions that only read, as slug look-ups do, meet the isolation theorems' hypothesis for every tenant |
| TenantStore.BypassReachesEveryRow | app/core/database/session.py:73-91 | a bypassing job can delete any row of any tenant, the same job without the bypass none |
| TenantStore.OwnTransaction | app/core/database/session.py:61-70 | a tenant's query returns exactly its matching rows with its own pending writes; commit publishes exactly those, rollback and a failed transaction nothing |
| TenantStore.OwnWrites | app/core/database/session.py:61-70 | in any reachable state what an insert, update or delete of a tenant's transaction does to the tenant's rows, and when it is refused |
| TenantStore.BeginsClean | app/core/database/session.py:61-65 | a transaction starts from the committed rows with nothing of its own |
| TenantStore.OthersStand | app/core/database/session.py:61-70 | no event touches another request's transaction, nor, short of a commit, the committed rows |
| TenantStore.InsertEffect | alembic/versions/0002_row_level_security.py:62-64 | an insert is accepted iff the row names the bound tenant, and then the transaction sees it |
| TenantStore.DeleteEffect | alembic/versions/0002_row_level_security.py:62-64 | a delete removes exactly the tenant's matching rows from the transaction's view |
| TenantStore.UpdateAccepted | alembic/versions/0002_row_level_security.py:62-64 | an update that leaves rows their tenant rewrites exactly the tenant's matching rows |
| TenantStore.UpdateMoves | app/core/database/session.py:61-70 | whatever the scope, an accepted update replaces each row it hits by its new version, where that belongs, and leaves every other row |
| TenantStore.UpdateRefused | alembic/versions/0002_row_level_security.py:62-64 | an update that would move a row to another tenant is refused and fails the transaction |
| TenantStore.RepositoryAddsNothing | app/core/database/repository.py:103-109 | under the policy the repository's tenant filter removes nothing; without it the filter alone confines reads to the tenant; soft-deleted rows are hidden |
| TenantStore.CreateAccepted | app/core/database/repository.py:111-114 | a repository create is accepted iff no foreign tenant was named |
| Jwt.DecodeBackwards | app/core/security/jwt.py:75-86 | a token accepted now was accepted at an earlier instant iff it had been issued by then |
| Jwt.DecodeAcceptsIff | app/core/security/jwt.py:75-86 | a token is accepted iff it was signed, has the kind asked for, and the clock is between `iat` and `exp`; what was signed is returned |
| Jwt.EncodeDecodes | app/core/security/jwt.py:35-47 | a fresh token decodes to its claims exactly from its `iat` until its lifetime in whole seconds is over |
| RequestBinding.SameToken | app/core/middleware/context.py:73-79 | the middleware and the security dependency read the same token out of a header, except for an empty one |
| RequestBinding.HeadersRead | app/core/middleware/context.py:72-75 | a header is read iff it begins with the word bearer in any case and a space, and the token is all that follows |
| RequestBinding.IdentityMeans | app/core/middleware/context.py:70-84 | a request starts as the tenant and user of the valid access token it bears, or else as its header's tenant and nobody |
| RequestBinding.AuthenticatedIsBound | app/modules/auth/dependencies.py:29-52 | a request that passes ran, without bypass, in a transaction bound to its token's tenant whatever the tenant header said, provided the token had been issued when the middleware read it (otherwise to the header's), and found a user of the bound tenant |
| RequestBinding.PassingIsBoundToToken | app/modules/auth/service.py:142-154 | tokens being signed only for a user and that user's tenant, every passing request's transaction is bound to its token's tenant, whatever the header and the clock |
| RequestBinding.AuthenticationSucceedsIff | app/modules/auth/dependencies.py:33-42 | a request passes iff transactions are bound at all, its header bears an access token between `iat` and `exp`, and the token's user exists in the bound tenant, active and not deleted |
| RequestBinding.AuthenticationRefusals | app/modules/auth/dependencies.py:33-42 | which refused requests are told that the token is missing and which that it is bad |
| RequestBinding.RequestsNeverBypass | app/core/database/session.py:57-64 | no request transaction is bound with the policy bypassed |
| RequestBinding.RequestContext.constructor | app/core/middleware/context.py:42-50 | the context carries the token's identity, or else the header's tenant |
| RequestBinding.RequestContext.GetCurrentUser | app/modules/auth/dependencies.py:44-52 | on success the context is enriched in place, on failure it is untouched |
| Lineage.RotateKeepsChain | app/modules/auth/service.py:174-179 | replacing an open node by its child keeps every lineage a single line |
| Lineage.ChainHasNoForks | app/modules/auth/service.py:174-179 | in such a forest no two nodes share a parent |
| Lineage.RootIsTop | app/modules/auth/service.py:174-179 | a session's root is its one ancestor without a parent |
| Sessions.Find | app/modules/auth/repository.py:40-42 | finds a row with that jti if there is one |
| Sessions.StepKeepsInv | app/modules/auth/service.py:119-233 | every request keeps: jti unique, one matching session outliving each issued token, sessions in their user's tenant, lineages single lines; and changes a row only by its first revocation |
| SessionTheorems.RunKeepsInv | app/modules/auth/service.py:134-191 | over every run a session row changes at most once, when it is revoked |
| SessionTheorems.LineageIsALine | app/modules/auth/service.py:161-179 | of two sessions from one login the earlier is revoked and an ancestor of the later, and no session was rotated twice, so at most the newest is active |
| SessionTheorems.TokenHasItsSession | app/modules/auth/service.py:142-153 | each issued refresh token has exactly one session row, with its user and tenant, expiring no earlier than the token |
| SessionTheorems.RefreshSucceedsIff | app/modules/auth/service.py:161-179 | the exact condition for a refresh to succeed; the session's own expiry check can only decide when time passes between the two clock readings |
| SessionTheorems.RefreshRotates | app/modules/auth/service.py:174-179 | a refresh revokes the redeemed session, opens one child for the same user and tenant, and touches no other |
| SessionEffects.RefreshEffect | app/modules/auth/service.py:161-179 | the row and token a refresh writes, with their times; accounts and resets stay; a refused refresh changes nothing |
| SessionEffects.RefreshRefusals | app/modules/auth/service.py:167-171 | when a refresh is told that its session is revoked and when that it has expired |
| SessionTheorems.LoginSucceedsIff | app/modules/auth/service.py:111-132 | the exact condition for a login to succeed; it opens one session of a new lineage |
| SessionEffects.LoginEffect | app/modules/auth/service.py:119-159 | the account, session row and token a login writes, with their times, and nothing else |
| SessionEffects.LoginRefusals | app/modules/auth/service.py:111-122 | which logins are refused for what, and that these change nothing |
| SessionTheorems.RedeemedOnce | app/modules/auth/service.py:167-176 | a refresh token is redeemed at most once, whatever happens in between |
| SessionTheorems.LogoutIsFinal | app/modules/auth/service.py:181-191 | a token shown at a logout is never redeemed afterwards |
| SessionEffects.LogoutEffect | app/modules/auth/service.py:181-191 | a logout revokes exactly the session of the token it was shown and changes nothing else; any other logout changes nothing |
| SessionTheorems.ResetEndsEarlierSessions | app/modules/auth/service.py:224-229 | after a successful reset no session the user opened earlier can be refreshed in any continuation |
| SessionTheorems.ResetTouchesOnlyItsUser | app/modules/auth/repository.py:44-51 | a reset changes only its user's password and sessions, and a refused one neither |
| SessionEffects.ForgotEffect | app/modules/auth/service.py:194-210 | asking for a reset stores one entry for an hour iff the bound tenant has the user, and changes nothing else |
| SessionEffects.ResetEffect | app/modules/auth/service.py:224-233 | a reset changes the one password, stamps exactly its user's active sessions and uses the token up |
| SessionEffects.ResetRefusals | app/modules/auth/service.py:212-222 | which resets are refused for what; all one may do is drop a stale entry |
| SessionTheorems.ResetTokenWorksOnce | app/modules/auth/service.py:230-233 | a reset token that succeeded is refused ever after, unless drawn again |
| SessionTheorems.ForgotThenReset | app/modules/auth/service.py:194-222 | whatever other requests come between, a reset token sets exactly its user's password, in its tenant, for its hour, unless the user was deleted |
| AuthService.Service.IssueTokens | app/modules/auth/service.py:134-159 | signs a token and inserts its session, or fails leaving everything |
| AuthService.Service.Login | app/modules/auth/service.py:119-132 | does what the login step says |
| AuthService.Service.Refresh | app/modules/auth/service.py:161-179 | does what the refresh step says; a failed insert undoes the revocation |
| AuthService.Service.Logout | app/modules/auth/service.py:181-191 | does what the logout step says |
| AuthService.Service.ForgotPassword | app/modules/auth/service.py:194-210 | does what the forgot-password step says |
| AuthService.Service.ResetPassword | app/modules/auth/service.py:212-233 | does what the reset step says |
| AuthService.Service.RevokeAllForUser | app/modules/auth/repository.py:44-51 | revokes exactly the user's active sessions in the bound tenant |
| ResetStore.LazyIsEager | app/modules/auth/service.py:50-70 | every sequence of calls in time order is answered as by a map whose entries expire by themselves |
| ResetStore.PartitionJoin | app/modules/auth/service.py:204-220 | the stored text splits back into the two ids iff the tenant part has no colon |
| ResetStore.ResetTokens.StoreReset | app/modules/auth/service.py:50-53 | stores the value with its deadline |
| ResetStore.ResetTokens.GetReset | app/modules/auth/service.py:56-66 | reads a live value and deletes a stale one |
| ResetStore.ResetTokens.DeleteReset | app/modules/auth/service.py:69-70 | forgets the token |
| Licensing.ComputeIsEntitled | app/core/licensing/service.py:46-72 | the two queries and the set difference equal one filter per grant plus the core modules, given the unique constraints |
| Licensing.EntitledMeans | app/core/licensing/service.py:46-72 | the entitlement set in terms of catalog and grant columns |
| Licensing.UniquenessIsNeeded | app/core/licensing/models.py:33-35 | without the constraint they can differ |
| Licensing.SetModuleKeepsUnique | app/core/licensing/service.py:86-119 | set_module preserves the unique constraints and the catalog |
| Licensing.SetModuleFinds | app/core/licensing/service.py:99-116 | the one grant that is rewritten, or the one that is added |
| Licensing.SetModuleDecides | app/core/licensing/service.py:86-119 | set_module decides the one module it names, and no other tenant's or module's entitlement moves |
| Licensing.BetweenTheQueries | app/core/licensing/service.py:57-69 | any number of set_module commits between the two queries cannot change the result |
| Licensing.ClockReadEarly | app/core/licensing/service.py:47-57 | the result is the entitlement set of the query's instant iff no live grant expired since the clock was read |
| Licensing.ClockReadTooEarly | app/core/licensing/service.py:47-57 | tables and instants for which it is not |
| Licensing.EntitledAlikeIff | app/core/licensing/service.py:46-72 | two tables with the same expiry dates, judged at two instants, give the same entitlement set iff no live grant lapsed in between and no module that still counts was switched |
| LicenseCache.BoundedStaleness | app/core/licensing/service.py:33-44 | in every interleaving each answer is the true entitlement set of a moment at most 60 seconds plus the reader's own delay ago |
| LicenseCache.CachedForAMinute | app/core/licensing/service.py:37-43 | a stored set answers every reader for 60 seconds unless invalidated or refilled |
| LicenseCache.FreshIff | app/core/licensing/service.py:80-119 | every answer of every continuation of a commit is true at some moment since that commit, iff the live cache entry and each computed set that can still be stored equal the set the commit makes true |
| LicenseCache.FreshAfterSettledCommit | app/core/licensing/service.py:80-83 | in particular when nothing is cached and no computed set is on its way at the commit |
| LicenseCache.InvalidatedAnswersNobody | app/core/licensing/service.py:80-83 | after an invalidation, whatever was cached, nobody is answered from the cache until a reader stores a set |
| LicenseCache.InvalidateThenCommit | app/core/licensing/service.py:117-119 | whatever was cached, if no reader holds a set still to be stored and none queries or stores until the commit, every later answer is true of a moment since |
| LicenseCache.CommitPublishes | app/core/licensing/service.py:117-119 | a commit makes visible exactly the change its transaction flushed, and nothing before it does |
| LicenseCache.RolledBackIsGone | app/core/licensing/service.py:117-119 | a rolled-back change leaves the tables alone and is never committed |
| LicenseCache.ReaderSteps | app/core/licensing/service.py:33-44 | what each step of a reader changes and leaves alone |
| LicenseCache.AnsweredIff | app/core/licensing/service.py:36-39 | a look-up is answered exactly by an entry that has not expired |
| LicenseCache.InvalidationCanBeOvertaken | app/core/licensing/service.py:117-119 | a run in which the invalidated set is back in the cache after the commit and answered 60 seconds later |
| LicenseReader.ComputedIsTrueIff | app/core/licensing/service.py:46-72 | with the clock and the two queries read in separate steps, a computed set is the true one of its first query's moment iff no live grant lapsed since the clock was read |
| LicenseReader.EveryAnswer | app/core/licensing/service.py:33-72 | in every run, whatever its writers do, each answer is what a clock reading and two queries gave, the first query at most 60 seconds plus the reader's own delay ago |
| LicenseReader.SetModuleKeepsExpiry | app/core/licensing/service.py:86-119 | runs whose only writers are set_module rewrite no expiry date |
| LicenseReader.AnswerTrueIff | app/core/licensing/service.py:33-72 | when nobody rewrites an expiry date, each answer is the entitlement set of the tables its first query saw, judged at its clock reading, and was the true set of any moment iff between that reading and that moment no live grant lapsed and no module that still counts was switched |
| LicenseReader.RunSimulated | app/core/licensing/service.py:33-72 | a run of three-step readers whose reads are coherent is a run of one-step readers with the same tables, cache and answers |
| LicenseReader.CoherentStaleness | app/core/licensing/service.py:33-72 | in runs of coherent reads, expiry dates rewritten or not, every answer was true at some moment of the last 60 seconds plus the reader's own delay |
| LicenseReader.BoundedStaleness | app/core/licensing/service.py:33-72 | an answer was true at some moment of the last 60 seconds plus the reader's own delay iff one of those moments has no relevant lapse or switch between itself and what was read; with nothing committed before the first query it was true when the clock was read, and true at the first query iff no live grant lapsed since |
| LicenseReader.TrueAtNoMoment | app/core/licensing/service.py:46-72 | a run in which a reader is told a set that was true at no moment |
| LicensingService.Service.ComputeEnabled | app/core/licensing/service.py:46-72 | computes the entitlement set |
| LicensingService.Service.EnabledCodes | app/core/licensing/service.py:33-44 | a live entry is returned as it is, anything else is computed and stored for 60 seconds |
| LicensingService.Service.TenantHasModule | app/core/licensing/service.py:74-78 | core modules are always available, others iff in the set |
| LicensingService.Service.Invalidate | app/core/licensing/service.py:80-83 | drops the tenant's entry |
| LicensingService.Service.SetModule | app/core/licensing/service.py:86-119 | writes the grant, keeps the constraints and drops the tenant's entry; an unknown module changes nothing |
| RateLimiter.SlidingBound | app/core/middleware/rate_limit.py:48-57 | in every interleaving of INCR and EXPIRE any interval of length `seconds` admits at most 2*times - 1 requests |
| RateLimiter.SlidingBoundIsReached | app/core/middleware/rate_limit.py:48-57 | for every limit some run reaches that bound |
| RateLimiter.PerWindowBound | app/core/middleware/rate_limit.py:49-52 | one lifetime of the key admits at most `times` requests |
| RateLimiter.AdmittedIff | app/core/middleware/rate_limit.py:49-57 | a request is admitted iff the live window has admitted fewer than `times` |
| RateLimiter.WindowEndStands | app/core/middleware/rate_limit.py:50-51 | once EXPIRE has run no request, admitted or rejected, moves the end of the window |
| RateLimiter.ReopensOnTime | app/core/middleware/rate_limit.py:49-52 | the first request after the end is admitted |
| RateLimiter.Limiter.IncrKey | app/core/middleware/rate_limit.py:49 | increments a live counter or starts one at 1 |
| RateLimiter.Limiter.ExpireKey | app/core/middleware/rate_limit.py:50-51 | starts the window's clock |
| RateLimiter.Limiter.Call | app/core/middleware/rate_limit.py:31-57 | an uninterrupted request is admitted iff the window has a place left, and starts the clock iff it opened the window |
| AutoGrade.Grade | app/modules/assignments/service.py:103-115 | the loop computes the scaled score |
| AutoGrade.ScoreMeans | app/modules/assignments/service.py:103-115 | the score is to the maximum as the points of the questions whose correct choices, and no others, were picked are to all points |
| AutoGrade.ScoreWithin | app/modules/assignments/service.py:114-115 | the exact and the stored score lie between 0 and the maximum |
| AutoGrade.OnlySelectionsMatter | app/modules/assignments/service.py:107-112 | repeated choices and answers to unknown questions do not matter |
| AutoGrade.OrderDoesNotMatter | app/modules/assignments/service.py:107-112 | the order of the questions does not matter |
| AutoGrade.AnsweringOneMore | app/modules/assignments/service.py:107-115 | answering one question with all of its correct choices and no others never lowers the score |
| AutoGrade.FullMarksIff | app/modules/assignments/service.py:107-115 | the exact score is the maximum iff of every question worth points all the correct choices, and no others, were picked |
| AutoGrade.StoredFullMarksIff | app/modules/assignments/models.py:151-152 | the stored score is the maximum iff the scaled points missing are at most half a hundredth |
| AutoGrade.StoredFullMarksForLess | app/modules/assignments/models.py:151-152 | a quiz and answers, not all right, whose stored score is the maximum |
| AutoGrade.StoredWithin | app/modules/assignments/models.py:151-152 | rounding to hundredths stays within the maximum and moves a value by at most half a hundredth |
| GradeBook.GradesFollowHistory | app/modules/assignments/service.py:136-181 | over every run: at most one grade per submission, graded iff it has one, points those last recorded and within the maximum, automatic iff never graded by hand, feedback the last one given |
| GradeBook.SubmitIff | app/modules/assignments/service.py:64-89 | a submission is accepted iff its assignment exists, is published and not deleted and its id is new; it then adds its row, graded at once iff a quiz |
| GradeBook.GradeManuallyIff | app/modules/assignments/service.py:120-134 | a grading is accepted iff the submission exists, its assignment is not deleted and the points lie between nothing and its maximum |
| GradeBook.AdministerEffect | app/modules/assignments/models.py:60-75 | administration changes one assignment's visibility and nothing else |
| GradeBook.RecordEffect | app/modules/assignments/service.py:148-170 | recording a grade inserts or overwrites that submission's grade, marks it graded, and changes no other |
| AssignmentService.Service.Record | app/modules/assignments/service.py:136-170 | does what recording a grade says |
| AssignmentService.Service.Submit | app/modules/assignments/service.py:64-95 | does what the submit step says, grading a quiz at once |
| AssignmentService.Service.GradeSubmission | app/modules/assignments/service.py:120-134 | does what the manual grading step says, with its refusals |
| Enrollment.CounterExactIff | app/modules/courses/service.py:56-73 | under every interleaving the counter never exceeds the enrolments, and equals them iff no transaction committed after another had committed since it read the counter |
| Enrollment.UpdatesCanBeLost | app/modules/courses/service.py:56-73 | a run of two overlapping enrolments that leaves two rows and a counter of one |
| Enrollment.StepKeepsInv | app/modules/courses/models.py:106 | every step keeps what the theorem needs, using the unique constraint and the row lock |
| Enrollment.Course.Enroll | app/modules/courses/service.py:56-73 | an uninterrupted enrolment is its four steps, keeps the counter exact, and is refused for a missing, closed or already joined course |
| Dashboard.PendingIsAntiJoin | app/modules/dashboard/service.py:53-74 | the filtered outer join counts exactly the published, undeleted assignments of active courses never submitted |
| Dashboard.PendingFollowsHistory | app/modules/dashboard/service.py:53-74 | over every run the pending count is the number of published, undeleted assignments of the courses joined that the user never submitted to |
| Dashboard.SubmissionLowersPending | app/modules/dashboard/service.py:58-74 | a first submission to a pending assignment lowers the count by one, any other by nothing |
| Dashboard.OthersSubmissions | app/modules/dashboard/service.py:62-66 | somebody else's submission changes nothing on this dashboard |
| Dashboard.CountersAreFolds | app/modules/dashboard/service.py:31-51 | over every run the counters are the distinct courses joined, the distinct lessons completed and the submissions made |
| Dashboard.CountersMean | app/modules/dashboard/service.py:31-51 | whatever the tables hold, the counters are the user's rows not cancelled, completed, and submitted |
| Dashboard.EnrollEffect | app/modules/courses/service.py:56-73 | when enrolling adds a row, and which |
| Dashboard.CompleteEffect | app/modules/learning/service.py:32-53 | the user's row for the lesson ends up completed at the given position and all others stay |
| Dashboard.CompletingAgain | app/modules/learning/service.py:38-53 | completing a lesson again leaves one row and every counter as it was |
| Dashboard.Records.Complete | app/modules/learning/service.py:32-53 | inserts the progress row the first time and overwrites it afterwards |
| EventBus.ResolvedOncePerRegistration | app/core/events/bus.py:32-40 | each handler is resolved exactly once per registration under the event's type or an ancestor, whatever the order of subscriptions |
| EventBus.ReachedIff | app/core/events/bus.py:35-40 | a handler is reached iff it is subscribed to the event's type or one it derives from, and to no other |
| EventBus.FailuresLogged | app/core/events/bus.py:46-54 | exactly the runs that fail are logged |
| EventBus.Bus.SubscribeTo | app/core/events/bus.py:32-33 | appends to the type's list, creating it if needed |
| EventBus.Bus.ResolveFor | app/core/events/bus.py:35-40 | collects the lists of all matching types in dictionary order |
| EventBus.Bus.Publish | app/core/events/bus.py:42-54 | every resolved handler runs once, whichever fail; exactly the failures are logged |
| AuditTrail.OneRowPerAuditedEvent | app/core/audit/handlers.py:15-28 | an event has one audit row iff it names a tenant and a descriptor and the consumer succeeded, however its transaction ended |
| AuditTrail.TrailDescribes | app/core/audit/handlers.py:15-28 | the rows are exactly the descriptions - tenant, user, action, resource - of the published events that name a tenant and a descriptor |
| AuditTrail.CommittedIff | app/core/audit/service.py:59-72 | which events count as committed: those a transaction published before it committed |
| AuditTrail.CommittedActionsAreAudited | app/core/audit/handlers.py:15-28 | a committed action's audited event has exactly one row |
| AuditTrail.RolledBackActionKeepsItsRow | app/core/audit/service.py:59-72 | a rolled-back action keeps its row |
| AuditTrail.SubscribedOnce | app/core/audit/handlers.py:15-16 | the one subscription to the base type is resolved once for every event type |
| SlugCache.CachedEqualsUncached | app/core/tenancy/service.py:54-75 | every answer, from the cache or not, is what the uncached look-up returns at that instant |
| SlugCache.CreatedResolves | app/core/tenancy/service.py:36-40 | after a tenant is created every answer for its slug, in every continuation, is its id |
| SlugCache.WhenAnswered | app/core/tenancy/service.py:63-75 | a look-up is answered at once by a live entry or when nobody has the slug, and otherwise with a cache write for five minutes |
| SlugCache.Resolver.Resolve | app/core/tenancy/service.py:63-75 | an uninterrupted call answers as uncached, and caches only what it found and did not have |
| Pagination.PagesPartition | app/shared/schemas.py:26-47 | pages 1 to `pages` laid end to end are the list, none is empty, all but the last are full, later ones are empty |

## Left out

- TenantStore.Noninterference: uniqueness and foreign-key checks, which can reveal another tenant's key, and pool exhaustion are not modelled; a bypassing transaction that writes on the tenant's own rows is excluded, as it changes what the tenant sees.
- TenantStore.OwnTransaction: two open transactions of one tenant that write the same row are not made to wait for each other; the later commit wins.
- TenantStore.UpdateAccepted: tables outside the policy (tenants, modules, tenant_modules, permissions, the role link tables) are not part of this store.
- SessionTheorems.RedeemedOnce: requests are atomic; two overlapping refreshes of one token are not covered, as the code takes no lock (app/modules/auth/service.py:167-176). The same holds for reset_password.
- SessionTheorems.ForgotThenReset: the e-mail look-up is represented by the id it finds, and only the in-memory store is modelled; Redis expires its copy by itself, which is the eager map of `ResetStore.LazyIsEager`.
- LicenseReader.AnswerTrueIff: for runs in which nobody rewrites an expiry date, as no code of the service does; for any other run `LicenseReader.EveryAnswer` and `LicenseReader.CoherentStaleness` remain.
- AutoGrade.Grade: scores are exact rationals; the 28-digit precision of Python's decimal division before the final rounding is not modelled.
- GradeBook.GradesFollowHistory: an assignment's maximum and quiz never change, as no code edits them; question points are assumed non-negative.
- Enrollment.CounterExactIff: re-enrolment after a cancellation, which no code performs and the unique constraint would abort.
- Dashboard.CountersAreFolds: whether a course, lesson or assignment exists and is open is part of each event, so its own administration is not modelled; the recent-activity list is left out.
- RateLimiter.SlidingBound: a crash between INCR and EXPIRE, eviction by the server, `retry_after` and the parsing of rate texts.
- SlugCache.CachedEqualsUncached: identifiers that are UUIDs, which are returned as they are; no step deactivates, deletes or renames a tenant, as the application has none.
- Pagination.PagesPartition: rows are in one fixed total order; the order of ties and text search are the database's.
- JWT signatures, password hashing and random generation: foreign libraries; tokens are unforgeable records and ids fresh values.
- Routers, request parsing, CORS, exception envelopes, health checks, migrations, seed scripts and administration endpoints: plumbing.
- Roles and permission guards: set comparisons on values read per request.
- Course editing and listing, and lesson listing: plain attribute updates and filtered queries.
- Schema or database promotion of tenants: declared by the repository, acted on by no code.

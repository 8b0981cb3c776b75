# MKK-Luna: verified model of the concurrent core

MKK-Luna is a task-management backend over MySQL and Redis. What is hard about it is a set of small
protocols that many requests run at once. This project models those protocols in Dafny and proves what
holds in every interleaving, including failed commands, rollbacks, expired leases and lost replies.

| file | models |
|---|---|
| `TaskPatch.dfy` | a JSON patch becoming a column update and history rows, in any map order |
| `AuditLog.dfy` | create, update and delete of tasks under row locks, history rows, cascade, integrity |
| `Teams.dfy` | teams, roles and the invite race |
| `Lease.dfy` | the Redis lease lock |
| `Idempotency.dfy`, `Recorder.dfy` | the idempotency protocol; recording and replaying a response |
| `Sessions.dfy` | login and refresh-token rotation |
| `RateLimit.dfy`, `LimiterRuns.dfy` | the memory limiter; its runs, with clock readings out of order |
| `RedisLimiter.dfy` | Redis limiter with fallback; per-user epochs |
| `Lockout.dfy`, `LoginAttempts.dfy` | login lockout; concurrent attempts |
| `TaskCache.dfy` | the versioned task-list cache against the direct query |
| `Canonical.dfy` | canonical query, filter string and request fingerprint |
| `Shutdown.dfy` | server goroutines, error channel, wait group |

How the source is represented:

- A protocol is a state, a `Step` datatype and a relation `Next(s, step, s')`; a run is any sequence of
  steps from `Init`. Main results quantify over every run and every position in it.
- Objects that the program updates in place (locker, limiters, lockout, response recorder) are classes;
  each method is tied to a function on values, and the results about runs are proved of that function.
  Loops over Go maps are loops that pick keys in any order.
- MySQL: a transaction keeps its writes to itself until it commits; `FOR UPDATE` blocks until the row lock
  is free; history ids come from a counter that rollbacks do not return.
- Redis: a map with expiries; a key is visible before its expiry and not from then on. Each command is
  atomic and may fail.
- Clocks, UUIDs, passwords, the email service and the outcome of each command are parameters or step
  choices. Hashes are taken as injective, UUIDs as fresh, signed tokens as unforgeable.
- `created`, `lines`, `redeemed`, `countAt`, `storedAt`, `addedBy` and similar fields record what happened so that
  theorems can speak about it; no modelled branch reads them.

Where the code guarantees less than its documentation suggests, the code is followed, a concrete run or
input shows the gap, and the exact condition is proved:

- Idempotency does not run a handler at most once: the store is not read again after the lock is taken
  (`TwoRunsArePossible`). A late start belongs to a request that read before the write
  (`LateStartReadEarly`), one that reads after it never starts (`RetryNeverStarts`), and one that missed
  always can (`MissedRequestRuns`).
- A cached page can be outdated at the current version (`RaceLeavesStaleEntry`), or show the total of one
  table with the items of another, since COUNT and SELECT are two statements (`TornPage`). A current page
  predates the last invalidated commit exactly when a commit fell between its first statement and its
  second version read (`StaleExactlyByRace`). An invalidation is no barrier if the version key was never created
  (`LostKeyBreaksBarrier`, `BarrierNeedsVersionKey`).
- The memory limiter reads the clock before it takes its mutex. Calls that enter late can exceed 2·limit
  (`LimiterRuns.BoundIsReached`) by as many as they are (`TwiceLimitPerSpan`), and a cleanup can be noticed
  (`CleanupCanShow`), exactly as `CleanupIsUnobservable` says.
- Login attempts overlap, and then more passwords are checked than the lockout allows (`OverlappingChecks`):
  those of attempts that were past the lock check when the lock was set (`FailedChecksPerLockPeriod`,
  `OvertakenByTheLock`).
- Waiting exactly the memory limiter's `Retry-After` (section 10.2.3 of RFC 9110) is refused again when the
  reset is a whole number of seconds away (`RetryAfterRefusal`).
- Two list requests can share a cache key, and two requests a fingerprint (`HandlerStringCollides`,
  `FingerprintCollides`); `HandlerStringsAgree` and `FingerprintsAgree` say exactly which do.
- A login whose insert took effect and lost its reply fails, and still leaves an active session
  (`ActiveSessionsCountLogins` counts them).
- A final status that a handler sets after an informational one is lost (`StatusCanBeLost`); otherwise the
  recorder is transparent (`RecorderIsTransparent`).
- A Redis limiter key whose EXPIRE failed never expires and refuses for ever once full (`RedisLimiter.RetryAfterRefusal`);
  the per-user middleware is spared because its keys change with the epoch.
- A response that the handler never wrote explicitly loses its headers on replay (`ReplayShowsOriginal`).

## Model

| member | source | states |
|---|---|---|
| `TaskPatch.ParseTaskPatch` | internal/service/task.go:485-552 | in any visiting order: accepted exactly when the patch is non-empty and each key is known and holds what the API allows, spelt out key by key (non-blank title, string or null description, the three statuses and priorities, null or the number of a team member, null or a calendar day written YYYY-MM-DD) and no failing look-up is needed; the result has exactly those keys and, shown as JSON again, their very values; errors are BadRequest or the failed look-up |
| `TaskPatch.DatesAreRead` | internal/service/task.go:541-545 | a string is read as a due date exactly when it is a calendar day written YYYY-MM-DD, and then as midnight of that day |
| `TaskPatch.AllowedMeans` | internal/service/task.go:700-713 | owners and admins may patch all six keys, members exactly status and assignee_id, others nothing |
| `TaskPatch.Change` | internal/service/task.go:559-639 | each case of the switch skips exactly when the value is unchanged as history shows it, and otherwise yields the column value with the logged old and new value |
| `TaskPatch.BuildTaskDiffEntries` | internal/service/task.go:554-643 | in any visiting order: updates are exactly the patched columns whose logged value changes, with one history row each |
| `TaskPatch.BuildSetClause` | internal/repository/task_repo.go:134-148 | the SET clause, built in any order and executed left to right, is the same row update; no fields is an error |
| `TaskPatch.PatchTakesEffect` | internal/service/task.go:240-247 | afterwards the row agrees with the patch, every updated column did change, nothing else changed |
| `TaskPatch.PatchIsCarried` | internal/service/task.go:240-247 | field by field, the updated row holds the values of the JSON patch, and every column that the patch does not name is as before |
| `TaskPatch.EmptyDiff` | internal/service/task.go:241-243 | a patch is diffed to nothing exactly when the row holds its values already |
| `TaskPatch.EntriesNameUpdates` | internal/service/task.go:554-643 | update keys and history field names correspond one to one |
| `TaskPatch.UndoRestores` | internal/service/task.go:645-655 | writing the old values back in reverse restores the row at date granularity |
| `TaskPatch.RepeatedPatchIsEmpty` | internal/service/task.go:240-243 | repeating an applied patch yields no updates and no history |
| `AuditLog.NewRow` | internal/service/task.go:97-145 | accepted exactly when status and priority are valid or empty; empty ones become todo and medium, a blank description becomes NULL, title, team, assignee, due date and author are the requested ones |
| `AuditLog.CreatedAsAsked` | internal/service/task.go:136-147 | in every run the insert of a creation adds one task, under a number not in use, with the values its request asked for and the documented defaults |
| `AuditLog.CreationIsPossible` | internal/service/task.go:84-147 | in every reachable state a member can create such a task for a member or nobody |
| `AuditLog.CommittedUpdate` | internal/service/task.go:196-256 | in every run the commit of an update leaves in its row exactly the values of the JSON patch it was begun with and the other columns as they were; its author may patch those keys, the appended history rows bear the author's name, and no other task or history changes |
| `AuditLog.CommittedDeletion` | internal/service/task.go:295-352 | in every run the commit of a deletion removes the task and all of its history and nothing else, and its author is an owner or admin of the team |
| `AuditLog.PatchIsExecuted` | internal/service/task.go:228-247 | in every run a readable patch that its caller may send and that shows something the row does not is executed, and no other is |
| `AuditLog.UpdateIsPossible` | internal/service/task.go:196-256 | in every reachable state such a patch of a task that nobody holds can run from its beginning to a commit after which the row carries it |
| `AuditLog.DeletionIsPossible` | internal/service/task.go:295-352 | likewise an owner or admin can delete any task that nobody holds |
| `AuditLog.HistoryIsAChain` | internal/service/task.go:196-256 | in every run, for every column of a live task: first old value is the creation value, each old value is the previous new value, last new value is the row's |
| `AuditLog.ReplayYieldsRow` | internal/repository/task_history_repo.go:38-65 | in every run, replaying a live task's history on its creation row yields its current row at date granularity |
| `AuditLog.HistoryOrder` | internal/repository/task_history_repo.go:67-85 | the order of ListByTask (creation time, then id, latest first) is commit order for each task, under a server clock that is never set back; every visible row is a field change of a live task, since the cascade removes the deletion record |
| `AuditLog.TablesChangeOnlyByCommit` | internal/repository/task_repo.go:61-74 | a task row changes or disappears only when the transaction holding its row lock commits |
| `AuditLog.NoIntegrityIssues` | internal/repository/analytics_repo.go:113-121 | in every reachable state the integrity query returns nothing |
| `AuditLog.MembersStayInScope` | internal/service/task.go:700-713 | in every reachable state a history row authored by a plain member concerns status or assignee |
| `AuditLog.DisallowedPatchWritesNothing` | internal/service/task.go:228-254 | over a whole request in any run: if its patch names a field its author may not write, alone or among allowed ones, none of its steps changes either table, whatever runs in between |
| `AuditLog.CommittedPatchIsAllowed` | internal/service/task.go:233-238 | at any commit of an update in any run, every key of its patch is a field that the author's role in the team allows |
| `AuditLog.DecidedUpdates` | internal/service/task.go:228-243 | what parsing and diffing let through is typed, within the patch, and assigns only team members |
| `AuditLog.CommitDeleteKeeps` | internal/service/task.go:295-352 | deleting a task with its history keeps the invariant for every other task and transaction |
| `AuditLog.RunKeepsInv` | internal/service/task.go:196-352 | the inductive invariant holds at every position of every run |
| `AuditLog.CommitIsPossible` | internal/service/task.go:245-254 | in every reachable state an executed update that has logged all its entries can commit |
| `AuditLog.DecideIsPossible` | internal/service/task.go:223-247 | every patch has an outcome: its transaction can always parse and decide it, with success exactly when every key parses |
| `AuditLog.UpdateCanFinish` | internal/repository/task_history_repo.go:38-65 | every run in which an update has been executed goes on to one that commits it, with one history row for each of its entries |
| `Teams.OneOwner` | internal/service/team.go:82-100 | each team has exactly one owner, its creator |
| `Teams.WhoAddedWhom` | internal/service/team.go:133-142 | admins were added by the owner, plain members by the owner or an admin, no other role exists |
| `Teams.NextKeepsMayInvite` | internal/service/team.go:196-205 | an invite past the role check stays entitled to it whatever else happens |
| `Teams.RolesNeverChange` | internal/repository/team_member_repo.go:26-40 | between any two moments of a run members only join and no role changes |
| `Teams.InviteIsPossible` | internal/service/team.go:133-193 | in every reachable state the owner's invite of a member or admin, and an admin's of a member, can run to the inserted row with that role and inviter, if the user is no member and the lock is free |
| `Teams.OnlyEntitledInvites` | internal/service/team.go:196-205 | in every run each member row but a creator's is inserted for an inviter who may give that role |
| `Teams.InviteSucceedsOnce` | internal/service/team.go:187-193 | at most one invite per (team, user) ever succeeds, also when the lock is bypassed or outlived |
| `Teams.EmailsBounded` | internal/service/team.go:152-193 | if the lock is neither bypassed nor outlived, emails number at most one more than failed inserts |
| `Teams.SectionIsExclusive` | internal/service/team.go:152-173 | undisturbed, one invite per pair is between acquire and release |
| `Teams.ReleaseUnlocks` | internal/service/team.go:162-171 | an invite's release that reaches Redis within the lease frees its lock |
| `Teams.NoRowWithoutMail` | internal/service/team.go:181-187 | in every run an invite about to insert its row has had its email accepted, or no email service is configured |
| `Lease.Locker.Acquire` | internal/infra/redislock/locker.go:32-53 | SET NX with the effective lease: succeeds exactly when the key is not visible; an error means that the command did not run, or ran and lost its reply |
| `Lease.Locker.Release` | internal/infra/redislock/locker.go:55-64 | compare-and-delete, with or without its reply arriving; empty key or token does nothing |
| `Lease.OverlapNeedsExpiry` | internal/infra/redislock/locker.go:32-64 | in every run, two clients share a section only if the earlier lease had expired when the later one began |
| `Lease.OnlyOwnReleaseRemoves` | internal/infra/redislock/locker.go:15-20 | in every run a lock value goes away only by its own expiry or a release with its own token |
| `Lease.LateReleaseIsHarmless` | internal/infra/redislock/locker.go:15-20 | a release after expiry leaves the next holder's lock |
| `Lease.EffectiveTtl` | internal/infra/redislock/locker.go:39-41 | a positive lease is honoured, any other becomes 15 seconds |
| `Lease.HeldForItsTerm` | internal/infra/redislock/locker.go:32-53 | in every run an acquired lock keeps everybody else out for its whole term, until its client leaves |
| `Lease.TakenWithinATerm` | internal/infra/redislock/locker.go:42-52 | and a key is taken only within the term of the SET NX that put its token there |
| `Lease.ReleaseFrees` | internal/infra/redislock/locker.go:15-20 | a release within its term frees the key |
| `Idempotency.SectionOverlapNeedsExpiry` | internal/api/middleware/idempotency.go:128-148 | two requests of one key are between acquire and release together only after the earlier lease ran out |
| `Idempotency.LateStartReadEarly` | internal/api/middleware/idempotency.go:107-155 | a handler started under the lease while a live response is stored belongs to a request that read the store before that write |
| `Idempotency.RetryNeverStarts` | internal/api/middleware/idempotency.go:107-126 | a request that reads the store while a live response is there never starts the handler at any later step |
| `Idempotency.ReplayIsGenuine` | internal/api/middleware/idempotency.go:157-171 | a replayed response is cacheable and was produced by a handler run of the same key and fingerprint |
| `Idempotency.StoredStays` | internal/infra/idempotency/store.go:51-60 | in every run a response saved at time T stays readable up to T + the response time |
| `Idempotency.StoredExpires` | internal/infra/idempotency/store.go:51-60 | without a later save it is readable exactly that long, unaltered |
| `Idempotency.RetriesAreAnswered` | internal/api/middleware/idempotency.go:107-126 | in every run each read of the key within that time replays or conflicts; without a later save it replays exactly that response to the same request and conflicts with any other |
| `Idempotency.NoStartWhileStored` | internal/api/middleware/idempotency.go:107-155 | no request that arrives within that time starts the handler under the lease before the time is over |
| `Idempotency.OnlyKeptIsReplayed` | internal/api/middleware/idempotency.go:157-161 | in every run only 2xx, 400, 403, 404 and 409 responses are stored or replayed; never a 5xx |
| `Idempotency.OthersAreTurnedAway` | internal/api/middleware/idempotency.go:128-139 | while a request is in its section and its lease lasts, every other request of the key that comes to the lock gets the in-progress answer |
| `Idempotency.AnsweredByOwnRun` | internal/api/middleware/idempotency.go:153-171 | in every run the handler runs at most once for a request, and the request is answered with what that run returned, whatever the store and the lock do |
| `Idempotency.ReleaseUnlocks` | internal/api/middleware/idempotency.go:140-148 | a release that reaches Redis within the lease frees the key, after a panic too |
| `Idempotency.MissedRequestRuns` | internal/api/middleware/idempotency.go:128-155 | a request that missed and finds the lock free runs the handler whatever is stored by then |
| `Idempotency.TwoRunsArePossible` | internal/api/middleware/idempotency.go:107-155 | a run without failure or expiry in which two requests of one key both run the handler |
| `Recorder.ResponseRecorder.WriteHeader` | internal/api/middleware/idempotency.go:254-265 | first call records status, content type and a copy of the headers and forwards; later calls do nothing |
| `Recorder.ResponseRecorder.Write` | internal/api/middleware/idempotency.go:267-273 | implies a 200 header, records and forwards the bytes |
| `Recorder.ReplayStoredResponse` | internal/api/middleware/idempotency.go:211-228 | what the replay puts on the writer |
| `Recorder.ReplayShowsOriginal` | internal/api/middleware/idempotency.go:161-168 | for every call sequence with a cacheable status: status, body, content type and location are reproduced exactly when the handler wrote at least once or set neither header |
| `Recorder.RecorderIsTransparent` | internal/api/middleware/idempotency.go:254-273 | after every call the server's writer is as if the calls had been made on it directly, if and only if no final status follows an informational one that began the response, before the first Write |
| `Recorder.StatusCanBeLost` | internal/api/middleware/idempotency.go:254-265 | a handler whose 201 the client sees as a 200, because early hints came first |
| `Recorder.LaterWriteHeaderIsIgnored` | internal/api/middleware/idempotency.go:254-257 | a WriteHeader call inserted anywhere after the first write changes neither what goes out nor what is recorded, whatever follows |
| `Sessions.RedeemedAtMostOnce` | internal/service/auth.go:193-234 | in every run each refresh token is redeemed at most once, and exactly once if revoked (rotation as in section 4.14.2 of RFC 9700) |
| `Sessions.LoginsAreLines` | internal/service/auth.go:193-234 | every session lies on exactly one login's line, its parent is the token before it, exactly the last is unrevoked |
| `Sessions.OneChildEach` | internal/service/auth.go:213-231 | no token was redeemed for two sessions |
| `Sessions.SessionUserIsSubject` | internal/service/auth.go:221-227 | every session's user is its token's subject |
| `Sessions.ActiveSessionsCountLogins` | internal/service/auth.go:146-151 | a user's unrevoked sessions are as many as that user's successful logins plus the logins that failed only because the reply to their insert was lost |
| `Sessions.ReuseFails` | internal/service/auth.go:201-203 | a redeemed token can only fail and changes no table |
| `Sessions.PairIsIssued` | internal/service/auth.go:272-282 | a login and a swap issue an access and a refresh token of their user, fresh, that live for their respective lifetimes |
| `Sessions.RefreshIsPossible` | internal/service/auth.go:193-234 | in every reachable state an unrevoked and unlocked token can begin, lock, swap and commit up to the refresh lifetime after its login or rotation, leaving an active child of the same user (at the last moment itself given a positive clock skew) |
| `Sessions.SwapIsInTime` | internal/service/auth.go:204-206 | in every run a refresh swaps only if it began within the refresh lifetime of its token's login or rotation |
| `Sessions.CommitIsInTime` | internal/service/auth.go:193-234 | in every run only such refreshes commit |
| `Sessions.CommitIsPossible` | internal/repository/session_repo.go:75-85 | a transaction that has swapped its sessions can always commit |
| `RateLimit.FixedWindowReset` | internal/infra/ratelimit/memory.go:80-91 | the reset lies strictly in the future, one window after the start of the aligned interval that holds the current time; one second ahead for windows below a second |
| `RateLimit.GenerationsApart` | internal/infra/ratelimit/memory.go:47-51 | an entry created after another's reset resets at least one span later |
| `RateLimit.MemoryLimiter.Allow` | internal/infra/ratelimit/memory.go:36-63 | verdict and new table as the window rule says, for every limit, window and key |
| `RateLimit.MemoryLimiter.Cleanup` | internal/infra/ratelimit/memory.go:65-78 | drops exactly the entries past their reset |
| `LimiterRuns.TwiceLimitPerSpan` | internal/infra/ratelimit/memory.go:36-63 | whatever order calls and cleanups take the mutex in: in any closed interval of one span, at most 2·limit plus the late calls of a key are admitted, a call being late if an operation before it had read past a reset that it has not; for whole-second windows the span is the window, and calls in the order of their readings are never late (windows below a second: only runs without late calls) |
| `LimiterRuns.BoundIsReached` | internal/infra/ratelimit/memory.go:41-51 | for every limit, whole-second window and number of late calls the bound is attained; so a late call can exceed 2·limit |
| `LimiterRuns.CleanupIsUnobservable` | internal/infra/ratelimit/memory.go:65-78 | the cleanups of a run go unnoticed by all calls if and only if no call comes, first of its key since, after a cleanup that had read past its entry's reset while the call has not; readings in order always qualify |
| `LimiterRuns.CleanupShows` | internal/infra/ratelimit/memory.go:46-56 | one cleanup shows to one call exactly when the call's reading is at or before the reset and the cleanup's is past it, and changes the verdict exactly when the entry is full besides |
| `LimiterRuns.CleanupCanShow` | internal/infra/ratelimit/memory.go:41-44 | for every limit and window, a run in which a call that read the clock early is admitted because of a cleanup |
| `RateLimit.RetryAfterRefusal` | internal/infra/ratelimit/memory.go:53-59 | a retry is admitted exactly after the reset; waiting the rounded hint fails exactly when the reset is whole seconds away |
| `RateLimit.CeilDuration` | internal/infra/ratelimit/redis.go:77-83 | least whole number of seconds covering the duration |
| `RateLimit.RemainingDuration` | internal/infra/ratelimit/redis.go:85-95 | positive whole seconds that lead to the next window boundary |
| `RedisLimiter.Limiter.Allow` | internal/infra/ratelimit/redis.go:29-65 | verdict, counters and fallback entries under every combination of command failures |
| `RedisLimiter.LimitPerEpoch` | internal/api/middleware/user_ratelimit.go:35-51 | if INCR succeeds on a user's requests, at most limit are admitted per epoch, whatever EXPIRE and TTL do |
| `RedisLimiter.TwiceLimitPerEpoch` | internal/infra/ratelimit/redis.go:37-41 | at most 2·limit per user and epoch under any pattern of failures, lost replies included |
| `RedisLimiter.TwiceLimitIsReached` | internal/infra/ratelimit/redis.go:37-41 | for every limit, window, user and epoch the bound 2·limit is attained |
| `RedisLimiter.RetryHint` | internal/infra/ratelimit/redis.go:49-61 | the hint is a positive number of whole seconds: the least that cover the rest of the key's life, or those to the next window boundary when no life span can be had |
| `RedisLimiter.RetryAfterRefusal` | internal/infra/ratelimit/redis.go:43-61 | a refused key is admitted again exactly from its expiry on, so after waiting the hint; a key whose EXPIRE failed refuses for ever |
| `RedisLimiter.RefusedAfterLimit` | internal/api/middleware/user_ratelimit.go:35-51 | under any pattern of failures a request is refused only after limit earlier ones of its user and epoch, and with a positive hint |
| `RedisLimiter.WindowFromFirstRequest` | internal/infra/ratelimit/redis.go:43-47 | a key expires one window after its first request, however many follow |
| `Lockout.Lockout.IsLocked` | internal/infra/auth/lockout.go:51-64 | locked exactly while the lock key lives, with its remaining time |
| `Lockout.Lockout.OnFailure` | internal/infra/auth/lockout.go:66-93 | counter and lock after a failed password, under command failures |
| `Lockout.Lockout.OnSuccess` | internal/infra/auth/lockout.go:95-105 | both keys are gone, or nothing changed if the command failed |
| `Lockout.Lockout.Attempt` | internal/api/auth.go:121-153 | an attempt that no other one overlaps: the handler's outcome and the login's record, also when a good password is followed by a failed session creation; other logins are untouched |
| `Lockout.FailuresPerLockPeriod` | internal/infra/auth/lockout.go:66-93 | serialised attempts, after any history of them: a success-free half-open interval of one lock period holds at most max(M, 2M−2) ≤ 2M−1 failed checks, M = maxAttempts (M, if the period is a single instant) |
| `Lockout.BoundIsReached` | internal/infra/auth/lockout.go:66-93 | every configuration attains that bound with serialised attempts |
| `Lockout.LockedMeansNoChecks` | internal/api/auth.go:127-131 | serialised attempts: from the failure that fills the counter, every attempt of the next lock period is refused unchecked |
| `Lockout.RefusedOnlyAfterFailures` | internal/api/auth.go:127-153 | serialised attempts: one is refused only within one lock period of a failure that is at least the maxAttempts-th since the last success and within one lock period, with no success since |
| `Lockout.SuccessClearsFailures` | internal/api/auth.go:151-153 | so with fewer than maxAttempts failures since the last success an attempt is judged by its password alone |
| `LoginAttempts.FailedChecksPerLockPeriod` | internal/api/auth.go:121-153 | concurrent attempts, after any history: a success-free lock period holds at most the serial bound, plus the failures recorded when the login was already locked, plus those not yet recorded |
| `LoginAttempts.OvertakenByTheLock` | internal/api/auth.go:127-137 | an attempt in progress while the login is locked was past its check, and not yet recorded, when another attempt set the lock that has been in force since |
| `LoginAttempts.LockRefusesChecks` | internal/infra/auth/lockout.go:51-64 | from the failure that fills the counter until a success clears it, every check of one lock period refuses, whatever attempts are in progress |
| `LoginAttempts.LockedOnlyAfterFailures` | internal/infra/auth/lockout.go:66-93 | however attempts interleave, a login is locked only within one lock period of a recorded failure that is at least the maxAttempts-th since the last success and within one lock period, with no success since |
| `LoginAttempts.SuccessClearsFailures` | internal/infra/auth/lockout.go:95-105 | so with fewer than maxAttempts failures recorded since the last success every check lets its attempt pass |
| `LoginAttempts.SerialChecksPerLockPeriod` | internal/api/auth.go:121-153 | in runs whose attempts never overlap the serial bound holds |
| `LoginAttempts.OverlappingChecks` | internal/api/auth.go:127-137 | any number of attempts can pass the check and be judged before one is recorded, so no bound holds that does not count them |
| `TaskCache.InvalidationIsABarrier` | internal/infra/cache/task_cache.go:31-97 | a request starting after an invalidation never returns a page stored before it, provided the version key existed when the version of that page was read |
| `TaskCache.BarrierNeedsVersionKey` | internal/infra/cache/task_cache.go:68-84 | an increment leaves older entries current exactly when the version key was absent and an entry of version 1 existed |
| `TaskCache.StaleExactlyByRace` | internal/infra/cache/task_cache.go:51-66 | once every commit of a team has been followed by an invalidation, an entry at the current version is older than the last commit if and only if a commit fell between its first statement and its second version read |
| `TaskCache.EntryAsQueried` | internal/repository/task_repo.go:84-123 | every cached page is the total of the table at its COUNT with the items of the table at its SELECT |
| `TaskCache.PageIsRight` | internal/repository/task_repo.go:84-119 | a page holds, in table order, the rows with the requested status and assignee from the offset on, as many as the limit allows and the table has left; the total counts every such row |
| `TaskCache.MatchingIsUnique` | internal/repository/task_repo.go:84-95 | the positions of those rows are determined by the table and the filter |
| `TaskCache.PagesCoverEverything` | internal/repository/task_repo.go:104-113 | pages at offsets 0, limit, 2·limit, … joined together are all matching rows, each once |
| `TaskCache.AnswerIsRight` | internal/api/tasks.go:198-248 | in every run a request answers the page of the entry it hit, or on a miss the total and items of the tables at two steps since it arrived |
| `TaskCache.PageIsServed` | internal/api/tasks.go:198-204 | a page at the current version is there for the next request of the same parameters |
| `TaskCache.NoWriterPending` | internal/api/tasks.go:338-340 | if no writer is between commit and invalidate, every commit has been followed by an invalidation |
| `TaskCache.CurrentEntriesAgree` | internal/api/tasks.go:198-248 | entry by entry: without a commit between its first statement and its second version read, an entry at the current version equals the direct query whenever every commit has been followed by an invalidation |
| `TaskCache.HitIsOwnRequest` | internal/api/tasks.go:191-215 | a hit, looked up before the parameters are parsed, shows a page that the same request stored, unless the assignee of one of the two swallows the key of the other; without `&` in the assignees it is always the same request |
| `TaskCache.RaceLeavesStaleEntry` | internal/infra/cache/task_cache.go:51-66 | a run in which that race leaves an outdated page current |
| `TaskCache.TornPage` | internal/repository/task_repo.go:98-114 | a run in which a write between COUNT and SELECT leaves a page at the current version that no table answers |
| `TaskCache.LostKeyBreaksBarrier` | internal/infra/cache/task_cache.go:79-84 | a run in which a failed SET NX makes the next invalidation ineffective |
| `TaskCache.InvalidationIsRemembered` | internal/api/tasks.go:338-340 | every completed invalidation of a team is the latest one or older |
| `Canonical.CanonicalQuery` | internal/infra/idempotency/store.go:81-99 | sorted keys, sorted values, one part per value, in any visiting order |
| `Canonical.CanonicalQueryIsOrderFree` | internal/infra/idempotency/store.go:81-99 | the result depends on neither map order nor value order |
| `Canonical.QueryRoundTrip` | internal/infra/idempotency/store.go:81-99 | reading a canonical query back gives the sorted values of each key, when values have no `&` and keys no `&` or `=` |
| `Canonical.CanonicalQueryIsInjective` | internal/infra/idempotency/store.go:81-99 | on such queries the canonical form is injective up to the order of values |
| `Canonical.CanonicalQueryString` | internal/infra/cache/task_cache.go:122-136 | sorted keys, one part per key, in any visiting order |
| `Canonical.FilterRoundTrip` | internal/infra/cache/task_cache.go:122-136 | parsing inverts it when values have no `&` and keys no `&` or `=` |
| `Canonical.FilterIsInjective` | internal/infra/cache/task_cache.go:116-136 | on such maps it is injective |
| `Canonical.HandlerStringIsCanonical` | internal/api/tasks.go:191-196 | the string that the list handler's four filters are keyed by |
| `Canonical.HandlerStringsAgree` | internal/api/tasks.go:191-196 | two list requests share a cache key if and only if they are equal, or the assignee of one is the key of the other from its assignee up to some `t` and the other's status is `t` followed by the end of the first key |
| `Canonical.HandlerStringIsInjective` | internal/api/tasks.go:191-196 | so two different list requests without `&` in the assignee never share a cache key; the status may contain anything |
| `Canonical.HandlerStringCollides` | internal/api/tasks.go:191-199 | every request has such a counterpart |
| `Canonical.FingerprintIsInjective` | internal/infra/idempotency/store.go:63-74 | without line breaks before the body, equal fingerprints mean equal requests |
| `Canonical.FingerprintsAgree` | internal/infra/idempotency/store.go:63-74 | two requests share a fingerprint if and only if method, route and media type agree and either query and body do, or one query continues the other past a line break into its body |
| `Canonical.FingerprintIdentifiesRequest` | internal/infra/idempotency/store.go:63-99 | equal fingerprints mean the same request up to the order of the values of a query key, for plain queries without line breaks |
| `Canonical.FingerprintCollides` | internal/infra/idempotency/store.go:63-74 | with one in the query, different requests share a fingerprint |
| `Shutdown.ClosedMeansNoSenders` | internal/application/application.go:102-105 | in every schedule the channel is closed only after every possible sender has finished |
| `Shutdown.GroupCountsGoroutines` | pkg/nethttp/runner/runner.go:45-72 | the wait group counts the unfinished goroutines and never goes negative |
| `Shutdown.EveryErrorIsReceived` | internal/application/application.go:91-105 | when Wait returns, the errors received are exactly those reported |
| `Shutdown.WaitReturnsReportedError` | internal/application/application.go:85-115 | Wait returns an error exactly when some goroutine reported one, and then one of those |
| `Shutdown.WaitReturnsLastError` | internal/application/application.go:91-98 | of several errors Wait returns the one received last |
| `Shutdown.ReportedErrorIsReturned` | pkg/nethttp/runner/runner.go:50-53 | an error reported at any step is received and makes Wait return an error |
| `Shutdown.SchedulesAreBounded` | internal/application/application.go:85-115 | a schedule without new servers has at most as many steps as its starting rank |
| `Shutdown.NeverStuck` | internal/application/application.go:102-105 | after cancellation some step is possible until Wait has returned |
| `Shutdown.ErrorShutsDown` | internal/application/application.go:91-105 | once an error has been reported some step other than an outside signal is possible until Wait has returned |

## Left out

- JWT signing and parsing, bcrypt, SHA, UUIDs, JSON encoding: library code, replaced by the assumptions above.
- Fallbacks without a database or history (`updateTaskNoTx`, `deleteTaskNoTx`): no lock and no log, nothing to relate.
- Timestamps of task rows: the rows of a team are a sequence in list order, which commits replace.
- Foreign keys to users and the look-up of an invited user by email: users are never deleted by the program.
- Tables and cached pages are values inside a state, not heap objects: concurrent requests share them only through steps, so aliasing inside one process is not modelled there.
- Second-granularity of Redis TTL replies in the lockout: key expiry is taken as exact.
- A configured idempotency response time of zero, with which Redis keeps a response without expiry; in the model it would expire at once.
- The clock readings within one login or one refresh: they are taken as one, in whole seconds.
- Content-type sniffing by the HTTP server for handlers that set none: only headers that were set are compared.
- `time.Until` reading the clock a second time in the memory limiter: one clock reading per call.
- Trimming and case folding before fingerprinting, and JSON canonicalisation of the body: the fingerprint starts from the five normalised parts.
- The per-user limiter results take the clock reading of the key and the fallback's own reading as one.
- The commands of one recorded failure (INCR, EXPIRE, SET) run as one step among concurrent attempts, without failures.
- Other processes incrementing the same Redis counter: they can only lower what one process admits.
- Statistics cache, email circuit breaker, JWT blacklist, comments, metrics, logging, configuration, migrator, routing: plumbing, or settled by reading one branch.

# ThreatScope XDR: verified model

A Dafny model of the parts of ThreatScope XDR whose correctness only shows over
whole runs or unbounded inputs, with proofs of what they promise.

- **Accounts, lockout, sessions and multi-factor authentication.** `AccessTables`
  holds the database rows, `AttemptLog` the shared login-attempt log, and
  `AccessSpec` says what each HTTP request does to them as a function `Next` from
  one state to the next; `Run` is a sequence of requests. The requests are those
  of the access-control router, the identity steps of SOAR playbooks, and the
  retention runs that delete old login attempts, sessions and challenges.
  `AccessStore` is the same service as a mutable store, statement by statement:
  `Serve` is proved to have exactly the effect `Next` gives, and `ServeAll` states
  the results about runs as postconditions of the store. The theorems are in
  `AdminSafety`, `LockoutSafety`, `Activation`, `Suspension`, `Throttling`,
  `Quotas`, `SessionSafety`, `MfaSafety` and `FactorUse`; `AccountEffects` is the
  one account of what a request can do to the account table, and `AccessRuns`
  joins the invariants. `LoginAnswers`, `FactorChecks`, `OrderAnswers` and
  `DecisionAnswers` say, for every request and every state, exactly when it is
  answered how and which rows it leaves behind, in terms of the stored rows, the
  presented password, code or cookie, and the clock.
- **Audit log** (`AuditChain`): appending, verifying, and what the newest digest
  commits to. `Redaction` is the redactor every record passes through.
- **Crawler** (`Crawler`): breadth-first search with duplicate queue entries, a
  page budget and a depth limit.
- **Analytics** (`Samples`, `Baselines`, `Windows`, `Stability`, `Quality`): order
  statistics, winsorising, seasonal buckets, window tiling, the stability index,
  feedback folding.
- **Role seeding** (`RoleSeeding`): reconciling stored roles with definitions.

## Modelling decisions

- One request is one atomic step at one instant. The deployment is one worker on
  one SQLite file. The clock never goes backwards where a theorem needs it (`Timed`).
- Times are integers in microseconds, the resolution of the stored timestamps.
- Hashing, password verification, one-time code generation, URL joining, case
  folding, the logarithm, the square root and rounding are arbitrary functions.
  What a theorem needs of one (an injective hash, a monotone rounding, an
  increasing logarithm) is stated in that theorem. The audit theorems assume
  nothing of the digest: they conclude equal histories or exhibit a collision.
- Random values (tokens, secrets, recovery codes, password hashes) are inputs, so
  the theorems hold for every choice. A token or code that breaks a unique
  constraint is refused with status 500 and rolled back as in the source.
- Permission and CSRF checks are one input, `permitted`, free to take either value.
  For a playbook step it also stands for the approval of the step: each sensitive
  step waits for its own approval, so a request performs at most one.
- Which rows a retention preview listed is an input; of these only the rows that
  still qualify are deleted. A preview that no longer matches deletes nothing,
  which is the same effect as a preview that listed nothing.
- `World.prunes` is true in the source. It is a parameter so that a log that is
  never shortened by age, neither by logins nor by retention, can be compared with
  the real one.
- Ids are never reused. SQLite may reuse the id of a deleted newest row; the model
  treats such rows as different rows.
- A deleted session keeps its place in the table and is marked `purged`; no query
  finds it.
- Followed as coded: unlocking makes a locked account active whatever it was
  before (rate_limit_service.py:118-124; `Activation` says what follows from it);
  the idle deadline is capped by the lifetime on refresh but not at creation
  (session_service.py:50-51, 96-99); a lookup for a locked account fails without
  revoking the session (session_service.py:92-93); a playbook overwrites the
  reason of an earlier revocation (soar/service.py:443).

## Model

| member | source | states |
|---|---|---|
| `AccessStore.Store.Serve` | backend/app/modules/access_control/router.py:124-664 | serving any request has exactly the specified effect on every table and gives exactly the specified answer |
| `AccessStore.Store.ServeAll` | backend/app/modules/access_control/router.py:124-664 | serving requests one after another ends where the run ends, with its answers; an administrator stays, the joint invariant stays, every revoked session keeps its time and opens nothing, and an account under a lock stays as it is |
| `AccessStore.Store.RevokeRoleHolders` | backend/app/modules/access_control/router.py:612-613 | the loop over the users of a role revokes exactly the live sessions of its holders |
| `AccessStore.Store.ActiveAdministratorCount` | backend/app/modules/access_control/user_service.py:95-102 | counts the active and pending-password administrators other than the excluded one |
| `AccessStore.Store.VerifyTotp` | backend/app/modules/access_control/mfa_service.py:106-126 | the loop accepts the earliest matching counter of three, only above the last one used, and stores it |
| `AccountEffects.NextEdit` | backend/app/modules/access_control/router.py:124-664 | every request leaves the account table alone, adds one unlocked account, or rewrites one account so that the last counted administrator stays, a lock has an end, no name is taken over, and, without an order on the account, a lock in force is untouched and a waiting or barred account stays so unless a login tries it |
| `LoginAnswers.LoginIsExact` | backend/app/modules/access_control/authentication.py:21-50 | the answer to every login: too many recent failures, or refused exactly when no named account that is neither disabled nor under a lock in force has a stored hash that accepts the password, or else held back, challenged or let in by the status and flag of that account |
| `LoginAnswers.LoginCounts` | backend/app/modules/access_control/rate_limit_service.py:98-131 | a wrong password is counted once and locks for the full lockout at the limit, a right one clears the count and the lock, a shut account is untouched |
| `LoginAnswers.LoginLogs` | backend/app/modules/access_control/rate_limit_service.py:81-115 | an examined login adds its own row, wipes exactly the failures under the account's names when it should, and drops exactly the rows older than thirty days |
| `LoginAnswers.LoginStores` | backend/app/modules/access_control/router.py:124-148 | a session or challenge is for the account that was named and whose password was presented, with its deadlines |
| `LoginAnswers.SecondStepIsExact` | backend/app/modules/access_control/router.py:176-194 | only an unused challenge within five minutes and five failures, of an account that is not barred, takes a guess; it is used up by a session or counts the failure |
| `OrderAnswers.GateIsExact` | backend/app/modules/access_control/session_service.py:79-101 | a cookie enters exactly the live session it names, of an account neither disabled nor locked; an expired one is revoked and nothing else is touched |
| `OrderAnswers.OwnActionIsExact` | backend/app/modules/access_control/router.py:207-265 | logging out, logging out everywhere, changing the password with the old one, and deleting a session of one's own: when they go through and exactly whose sessions go |
| `OrderAnswers.OrderIsExact` | backend/app/modules/access_control/router.py:482-567 | an administrator's order goes through exactly when it may, with the last administrator in terms of another one that exists, and changes that account, its sessions and its factors and nothing else |
| `OrderAnswers.SingleOrderIsExact` | backend/app/modules/access_control/user_service.py:46-92 | creating an account needs a free name and email and enabled roles; revoking a session needs its owner |
| `DecisionAnswers.RegistrationIsExact` | backend/app/modules/access_control/account_service.py:64-143 | registering oneself: off, limited, recorded when refused, and otherwise an ordinary account that waits where approval is required |
| `DecisionAnswers.DecideIsExact` | backend/app/modules/access_control/account_service.py:158-206 | approving, rejecting, reopening and unlocking go through exactly from the statuses that allow them, and change that account and, on rejection, its sessions |
| `DecisionAnswers.DecisionIsExact` | backend/app/modules/access_control/rate_limit_service.py:46-65 | decisions are refused after twenty in five minutes and otherwise recorded even when they fail; unlocking is neither, and wipes the account's failures |
| `DecisionAnswers.StepIsExact` | backend/app/modules/soar/service.py:435-456 | a playbook step needs a reason, a target and its own guard, two active administrators to suspend one, and changes that target alone |
| `DecisionAnswers.RoleChangeIsExact` | backend/app/modules/access_control/router.py:583-647 | system roles keep name and state, a held role stays, and a changed role logs exactly its holders out |
| `DecisionAnswers.RetentionIsExact` | backend/app/modules/platform_operations/retention_service.py:66-132 | retention deletes exactly the listed rows that are old enough and done with |
| `AccountEffects.PlaybookGuardIsStronger` | backend/app/modules/soar/service.py:446-450 | whatever the guard of a playbook lets through, the last-administrator check would let through |
| `AdminSafety.LawfulEditKeepsAdmin` | backend/app/modules/access_control/user_service.py:95-107 | the check that leaves locked administrators uncounted still never lets the last one go |
| `AdminSafety.AdministratorSurvives` | backend/app/modules/access_control/user_service.py:95-117 | once there is an administrator that is active, pending a password change or locked, there is one after every run of requests, under both the last-administrator check and the different guard of playbooks |
| `LockoutSafety.LockedAccountsHaveAnEnd` | backend/app/modules/access_control/rate_limit_service.py:98-124 | in every reachable state a locked account has an end of lock |
| `LockoutSafety.LockHolds` | backend/app/modules/access_control/authentication.py:28-46 | requests before the end of a lock, other than orders on the account, leave the account exactly as it is |
| `LockoutSafety.NamingHolds` | backend/app/modules/access_control/user_service.py:63-68 | a name or email that names an account under a lock goes on naming it while the lock lasts |
| `LockoutSafety.ExpiredLockAccepts` | backend/app/modules/access_control/authentication.py:29-50 | a correct password at or after the end is let in and not throttled, whatever the log holds |
| `LockoutSafety.LockEndsOnTime` | backend/app/modules/access_control/rate_limit_service.py:98-131 | both together over a run, for whatever name or email names the account at its start: the lock neither moves nor lifts early, and then the correct password works |
| `Activation.WaitingIsActivatedExactlyBy` | backend/app/modules/access_control/rate_limit_service.py:98-131 | without an order on it, an account pending approval or rejected becomes active in a run exactly when wrong passwords lock it and a later login tries it after that lock |
| `Activation.PendingLetsItselfIn` | backend/app/modules/access_control/authentication.py:28-50 | a run in which an account pending approval gets in without approval |
| `Suspension.DisabledIsShutOut` | backend/app/modules/access_control/session_service.py:92-93 | in every run without an order on it, a disabled account stays as it is, and no cookie, password or second step lets anybody in |
| `AttemptLog.KeysAreDisjoint` | backend/app/modules/access_control/rate_limit_service.py:14-23 | login, registration and management keys never coincide under an injective hash |
| `AttemptLog.ManagementKeysAreSeparate` | backend/app/modules/access_control/rate_limit_service.py:22-23 | different actors or kinds of decision are counted under different keys |
| `AttemptLog.CountForget` | backend/app/modules/access_control/rate_limit_service.py:107-115 | clearing empties the cleared keys' failure counts and changes no other count |
| `Throttling.NextLog` | backend/app/modules/access_control/rate_limit_service.py:38-115 | every request deletes the failures of the keys it clears, adds at most one row, and trims only rows a day old; a failed check adds its own row and was not throttled |
| `Throttling.TrimKeepsLastDay` | backend/app/modules/platform_operations/retention_service.py:66-71 | neither the pruning of logins nor retention deletes a login attempt of the last day |
| `Throttling.WindowInvariant` | backend/app/modules/access_control/rate_limit_service.py:68-95 | from the start of a span without clearing on, failed checks to come in it plus failures of it already logged never exceed the limit |
| `Throttling.FailedChecksAreBounded` | backend/app/modules/access_control/rate_limit_service.py:68-78 | in every run, any fifteen minutes that themselves hold no clearing of the identifier hold at most the maximum of failed password checks from one address |
| `Quotas.QuotasHold` | backend/app/modules/access_control/rate_limit_service.py:26-65 | in every run any five minutes hold at most twenty decisions of one kind by one actor from one address, and any fifteen at most five failed registrations of one email from one address |
| `Throttling.OtherRowsSurvive` | backend/app/modules/access_control/rate_limit_service.py:18-65 | no run of requests, retention included, lowers a registration or management tally over the last day |
| `Throttling.StepAgrees` | backend/app/modules/access_control/rate_limit_service.py:26-95 | two states that differ only in login attempts more than a day old answer alike and stay so |
| `Throttling.PruningIsInvisible` | backend/app/modules/access_control/rate_limit_service.py:93-94 | in every run, shortening the log by age, at logins and by retention, changes no answer and no other table |
| `SessionSafety.NextEvolves` | backend/app/modules/access_control/session_service.py:39-126 | a request keeps every session's identity and time of revocation, overwrites the reason only of the session a playbook selects, deletes only revoked sessions past their lifetime, and moves the timing only of the session it presents |
| `SessionSafety.SessionsAreKept` | backend/app/modules/access_control/session_service.py:39-126 | in every run a session keeps user, token, creation, lifetime and time of revocation, and is only ever deleted once revoked |
| `SessionSafety.RevocationIsPermanent` | backend/app/modules/access_control/session_service.py:112-126 | in every run the time of a revocation never changes, and its reason becomes that of a playbook exactly if some request of the run makes a playbook select the session, and is otherwise kept |
| `SessionSafety.ReasonCanChange` | backend/app/modules/soar/service.py:439-443 | a session that was logged out gets a new reason from a playbook that selects it |
| `SessionSafety.RevokingOrderIsFinal` | backend/app/modules/access_control/router.py:504-519 | the sessions of an account at its disabling, by an administrator or a playbook, or at any other order that revokes them, are unusable in every later run, also after re-enabling |
| `SessionSafety.PasswordChangeIsFinal` | backend/app/modules/access_control/router.py:225-236 | after a password change only the current session of that user can ever be used again |
| `SessionSafety.SessionsStaySound` | backend/app/modules/access_control/session_service.py:50-99 | the effective deadline is always the earlier of lifetime and last use plus idle time, capped at creation or not |
| `SessionSafety.IdleExpiryIsTwoSided` | backend/app/modules/access_control/session_service.py:79-101 | after any use, of whatever kind of request and including the login that opened the session, a use the idle time or more later fails; a use at least a minute sooner, before the lifetime ends, succeeds |
| `SessionSafety.LifetimeIsAbsolute` | backend/app/modules/access_control/session_service.py:87-91 | no use succeeds at or after creation plus the session lifetime |
| `MfaSafety.NextKeepsMfa` | backend/app/modules/access_control/router.py:268-370 | every request keeps at most one device per user, the flag in step with it, and codes only where the flag is on |
| `MfaSafety.FlagMeansOneDevice` | backend/app/modules/access_control/mfa_service.py:150-185 | in every reachable state the flag is on exactly when exactly one device is enabled, and without it no recovery code exists |
| `FactorChecks.AcceptedWasPresented` | backend/app/modules/access_control/mfa_service.py:100-126 | whatever request has a factor accepted presented six digits that are the device's code at the earliest matching of the three steps around the clock, later than any step it took, or the text of an unused recovery code |
| `FactorChecks.FactorIsExact` | backend/app/modules/access_control/mfa_service.py:226-261 | and conversely: such a code or text of the user is accepted, and nothing else is |
| `FactorChecks.SecondStepFactor` | backend/app/modules/access_control/router.py:176-194 | at an open challenge exactly the factor of its account is accepted and consumed |
| `FactorChecks.SetupIsExact` | backend/app/modules/access_control/router.py:268-297 | starting a setup takes an eligible account and its password and leaves exactly one, ten minutes long, or the live one |
| `FactorChecks.ConfirmationIsExact` | backend/app/modules/access_control/mfa_service.py:159-185 | exactly the right code of a live setup with fewer than five failures enables it, sets the flag and issues codes; a wrong one is counted |
| `FactorChecks.SwitchOffIsExact` | backend/app/modules/access_control/router.py:338-357 | needs confirmation, password and factor, and then leaves nothing of the user's second factor and all of other users' |
| `FactorChecks.RegenerationIsExact` | backend/app/modules/access_control/router.py:360-370 | needs password and one-time code; then every new text is a stored unused code of the user, the old ones are gone and others' stay |
| `FactorChecks.SetupsEndExactly` | backend/app/modules/access_control/mfa_service.py:188-223 | cancelling deletes exactly the user's setups in progress, the status request exactly a lapsed newest one |
| `FactorUse.NextConsumes` | backend/app/modules/access_control/mfa_service.py:106-261 | every accepted factor is new and near the clock, consumed codes and challenges stay consumed, and ids are never reused |
| `FactorUse.TotpIsOneTime` | backend/app/modules/access_control/mfa_service.py:106-126 | over any run a device accepts strictly increasing counters, so none twice, as section 5.2 of RFC 6238 asks |
| `FactorUse.TotpUsesAreBounded` | backend/app/modules/access_control/mfa_service.py:100-126 | a device accepts at most b - a + 3 codes while the clock's counter is in [a, b] |
| `FactorUse.RecoveryCodeIsOneTime` | backend/app/modules/access_control/mfa_service.py:226-233 | over any run a stored recovery code is accepted at most once, and never after it was used or replaced |
| `FactorUse.ChallengeIsBounded` | backend/app/modules/access_control/mfa_service.py:236-251 | over any run a login challenge opens at most one session and takes at most five wrong guesses |
| `AccessRuns.ReachableStatesAreSound` | backend/app/modules/access_control/router.py:124-664 | every state reached from a new installation has an administrator, dated locks, sound sessions seen in the past, and devices, flags and codes in step |
| `AuditChain.AuditLog.AppendEvent` | backend/app/modules/access_control/audit_service.py:48-93 | numbers, links and hashes the event; each field says what happened, to the width of its column; the log verifies exactly when it did before |
| `AuditChain.AuditLog.VerifyIntegrity` | backend/app/modules/access_control/audit_service.py:96-122 | valid exactly when every event is intact, otherwise it names the least failing position with its hashes |
| `AuditChain.AppendPreserves` | backend/app/modules/access_control/audit_service.py:66-93 | appending neither breaks nor repairs a chain |
| `AuditChain.BuiltVerifies` | backend/app/modules/access_control/audit_service.py:48-93 | every log built by appends verifies |
| `AuditChain.PrefixVerifies` | backend/app/modules/access_control/audit_service.py:13-16 | every prefix of a verifying log verifies, so truncation is not detected |
| `AuditChain.NewestDigestCommits` | backend/app/modules/access_control/audit_service.py:23-45 | verifying logs with the same newest digest agree in length and every hashed field, or exhibit a collision |
| `AuditChain.TamperingIsDetected` | backend/app/modules/access_control/audit_service.py:96-112 | without collisions, no edit, deletion or reordering before an unchanged newest event verifies |
| `AuditChain.EditIsLocated` | backend/app/modules/access_control/audit_service.py:99-112 | rewriting an event that keeps its number leaves it intact exactly if it is linked and carries its digest, the next one exactly if the digest is unchanged, and all others intact; a changed field before the newest event breaks one of the two or exhibits a collision |
| `AuditChain.RenumberingIsDetected` | backend/app/modules/access_control/audit_service.py:97-100 | an event with a changed number is detected, wherever that number puts it |
| `Crawler.Crawler.Crawl` | backend/app/scanner/crawler.py:19-84 | each recorded page has its exact link distance and a recorded parent one step nearer, and none but the root has a fragment; the budget holds; an empty queue means the record is exactly the same-origin URLs within the depth limit; the loop ends |
| `Crawler.Crawler.Follow` | backend/app/scanner/crawler.py:73-82 | appends exactly the unvisited same-origin links of the page, one step deeper |
| `Crawler.FragmentIsCut` | backend/app/scanner/crawler.py:78-79 | the followed URL is the part of the joined one before its first #, and the only such part |
| `Crawler.Walk.PathsAreCovered` | backend/app/scanner/crawler.py:20-82 | whatever has a path within the limit is recorded by then, or something as near still waits |
| `Crawler.Walk.HeadIsExact` | backend/app/scanner/crawler.py:20-26 | an unvisited head of the queue carries its shortest distance |
| `Crawler.Walk.SkipKeeps` | backend/app/scanner/crawler.py:23-24 | dropping a duplicate entry loses nothing |
| `Crawler.Walk.VisitKeeps` | backend/app/scanner/crawler.py:26-82 | visiting the head and appending its links keeps order, exactness and coverage |
| `Crawler.Walk.EmptyQueueIsComplete` | backend/app/scanner/crawler.py:20-84 | with an empty queue the record is exactly the URLs within the depth limit |
| `Samples.SortBelow` | backend/app/modules/analytics/features.py:95-95 | raising samples raises every order statistic |
| `Samples.QuantileIgnoresOrder` | backend/app/modules/analytics/features.py:88-99 | the quantile does not depend on the order of the sample |
| `Samples.QuantileMonotone` | backend/app/modules/analytics/features.py:96-98 | the quantile is monotone in the requested percentage |
| `Samples.QuantileRises` | backend/app/modules/analytics/features.py:95-98 | the quantile is never lowered by raising a sample |
| `Samples.QuantileLandmarks` | backend/app/modules/analytics/features.py:88-99 | 0, 50 and 100 give the minimum, the median and the maximum |
| `Samples.QuantileAtRank` | backend/app/modules/analytics/features.py:95-98 | at the percentage 100k/(n-1) the percentile is the value of rank k, by how many values lie at or below and at or above it |
| `Samples.QuantileIsAffine` | backend/app/modules/analytics/features.py:96-98 | between the percentages of neighbouring ranks it is a straight line |
| `Samples.PercentLiesBetweenRanks` | backend/app/modules/analytics/features.py:96-97 | every percentage lies between those of two neighbouring ranks |
| `Baselines.PercentileOf` | backend/app/modules/analytics/features.py:88-99 | an error exactly for too long a sample or a percentage out of range, nothing exactly for an empty sample |
| `Baselines.PercentileInterpolates` | backend/app/modules/analytics/features.py:88-99 | a fraction of the way between two ranks the answer is that fraction of the way between the values of these ranks, rounded |
| `Baselines.PercentileIgnoresOrder` | backend/app/modules/analytics/features.py:88-99 | the rounded answer, errors included, does not depend on the order of the sample |
| `Baselines.PercentileIsMonotone` | backend/app/modules/analytics/features.py:88-99 | the rounded percentile is monotone in the percentage and in every sample at once |
| `Baselines.CleanValues` | backend/app/modules/analytics/features.py:36-61 | refuses exactly values that are not numeric, not finite, beyond 1e300, negative or missing where that is not allowed, and over-long series; otherwise keeps the numbers in order and counts exactly the missing ones |
| `Baselines.SummaryIsOrdered` | backend/app/modules/analytics/baselines.py:18-27 | min, p5, p25, median, p75, p95, max are in order, the mean lies between min and max, and IQR, MAD and standard deviation are not negative, under any monotone rounding and root |
| `Baselines.SummaryMoments` | backend/app/modules/analytics/baselines.py:18-27 | the mean by the sum of the values, the standard deviation by their pairwise differences |
| `Baselines.SummaryPercentiles` | backend/app/modules/analytics/baselines.py:18-27 | all other members by percentiles of the values and of their distances to the median |
| `Baselines.VarianceIsPairwise` | backend/app/modules/analytics/baselines.py:24-24 | population variance is the sum of squared pairwise differences over the square of the size |
| `Baselines.VarianceShrinks` | backend/app/modules/analytics/baselines.py:38-47 | any change that brings no two values further apart does not increase the variance |
| `Baselines.WinsorisingTames` | backend/app/modules/analytics/baselines.py:38-41 | winsorising keeps length and order, moves exactly the outliers to the nearer percentile, and never increases the variance |
| `Baselines.WinsorisedDeviation` | backend/app/modules/analytics/baselines.py:24-24 | winsorising never increases the reported standard deviation |
| `Baselines.FillBuckets` | backend/app/modules/analytics/baselines.py:51-58 | the loop files exactly the present values of each bucket, in order |
| `Baselines.BucketsPartition` | backend/app/modules/analytics/baselines.py:54-58 | every present value is filed under exactly one bucket, so the bucket sizes add up to the number of values |
| `Baselines.BucketsFollowTheCalendar` | backend/app/modules/analytics/features.py:151-164 | buckets follow the hour and weekday of the UTC calendar |
| `Baselines.BuildStatistics` | backend/app/modules/analytics/baselines.py:30-66 | fails exactly for a bad minimum, uncleanable values or missing timestamps; otherwise the summaries before and after winsorising, the counts, the seasonal summaries, and a status that depends only on peer group and number of values |
| `Baselines.StatisticsDecide` | backend/app/modules/analytics/baselines.py:42-64 | ready exactly with enough numbers and a peer group of five, a bucket exactly with three numbers and the minimum or ten; winsorised values are counted where they differ |
| `Windows.WindowSeries` | backend/app/modules/analytics/features.py:303-318 | fails exactly for an unapproved window, a bad range or more than a thousand windows; otherwise exactly the full windows that fit |
| `Windows.TilesCoverTheRange` | backend/app/modules/analytics/features.py:311-318 | the windows are full length, contiguous from the start, end by the cutoff, leave less than one uncovered, and each counts its events up to the cap |
| `Windows.CountsAddUp` | backend/app/modules/analytics/features.py:185-186 | the window counts sum to the count over the covered range exactly when no window exceeds the cap |
| `Windows.FutureIsInvisible` | backend/app/modules/analytics/features.py:185-186 | event sequences that agree before the cutoff, in any order and interleaved with any later events, give the same windows |
| `Windows.BuildBaseline` | backend/app/modules/analytics/baselines.py:76-89 | succeeds exactly for an approved window, a lookback of one window to 366 days and at most a thousand windows, and a minimum in bounds; the result is the statistics of the full windows before the cutoff |
| `Windows.ValidatedIsReady` | backend/app/modules/analytics/schemas.py:36-41 | a validated configuration of at most a thousand windows yields a baseline over all its windows, at least the minimum of them, ready unless the peer group is too small |
| `Stability.StabilityIndex` | backend/app/modules/analytics/drift.py:34-45 | fails exactly for empty, mismatched, over-long, negative or empty-total histograms; otherwise the sum of the terms |
| `Stability.TermFacts` | backend/app/modules/analytics/drift.py:43-44 | each term is non-negative, symmetric, and zero exactly for equal shares |
| `Stability.IndexMeasuresShift` | backend/app/modules/analytics/drift.py:41-45 | the index is non-negative, symmetric, and zero exactly when the floored shares agree |
| `Stability.IndexIsDivergence` | backend/app/modules/analytics/drift.py:41-45 | the index is the relative entropy of each distribution with respect to the other, added up, over shares of at least one in a million |
| `Stability.IndexIgnoresScale` | backend/app/modules/analytics/drift.py:42-44 | scaling either histogram changes nothing |
| `Quality.QualityMetrics` | backend/app/modules/analytics/evaluation.py:6-28 | computes the metrics of the folded feedback, which the lemmas below are about |
| `Quality.LatestRevisions` | backend/app/modules/analytics/evaluation.py:8-12 | the loop keeps one row for each anomaly and analyst that occur, each of them a given row that no other revision supersedes |
| `Quality.FoldIsNewest` | backend/app/modules/analytics/evaluation.py:8-12 | with unique revisions the fold holds exactly the newest row of each anomaly and analyst |
| `Quality.OrderIsIrrelevant` | backend/app/modules/analytics/evaluation.py:6-28 | with unique revisions (models.py:218) no metric depends on the order of feedback |
| `Quality.SupersededIsIrrelevant` | backend/app/modules/analytics/evaluation.py:9-11 | adding a superseded revision anywhere changes no metric |
| `Quality.EstimatesAreShares` | backend/app/modules/analytics/evaluation.py:13-21 | unrounded precision and false-positive estimates are the shares of confirmed and of dismissed rows among both, lie in [0, 1], sum to one, and exist exactly when something was reviewed |
| `Quality.RatesAreShares` | backend/app/modules/analytics/evaluation.py:18-28 | coverage, repetition and suppression are shares of what they should be, and the review time is the median of the measured ones |
| `Redaction.RedactValue` | backend/app/modules/access_control/redaction.py:17-32 | the recursion with its loops computes the specified redaction |
| `Redaction.RedactedIsClean` | backend/app/modules/access_control/redaction.py:17-32 | at every depth, sensitive keys hold only the marker, keys are distinct and short, containers and texts bounded |
| `Redaction.CleanIsFixed` | backend/app/modules/access_control/redaction.py:17-32 | a value within the bounds is left as it is |
| `Redaction.SecretsAreMasked` | backend/app/modules/access_control/redaction.py:12-26 | a dictionary entry becomes the marker exactly if its key, cut, folded and with dashes as underscores, holds one of the thirteen sensitive parts, and is otherwise redacted one level deeper |
| `Redaction.RestIsKept` | backend/app/modules/access_control/redaction.py:26-32 | texts keep their first 500 characters, lists their first 50 items one by one, plain values everything |
| `Redaction.RedactionIsIdempotent` | backend/app/modules/access_control/redaction.py:17-32 | redacting twice is redacting once, for every value and depth |
| `Redaction.RedactedOutputIsBounded` | backend/app/modules/access_control/redaction.py:18-27 | output never nests more than seven containers and keeps every bound |
| `RoleSeeding.RoleTables.Reconcile` | backend/app/modules/access_control/role_service.py:32-38 | a role's grants become exactly the desired ones, or nothing happens if one is unknown |
| `RoleSeeding.RoleTables.Seed` | backend/app/modules/access_control/role_service.py:12-39 | all definitions are applied, or none when a definition names an unknown permission |
| `RoleSeeding.DefinedIsExact` | backend/app/modules/access_control/role_service.py:21-38 | every defined role ends up enabled with its name and exactly the permissions it lists, all of them for a lone star, whatever was stored |
| `RoleSeeding.OthersAreUntouched` | backend/app/modules/access_control/role_service.py:21-31 | a role no definition names is left as it was |
| `RoleSeeding.SeedingIsIdempotent` | backend/app/modules/access_control/role_service.py:12-39 | seeding again changes nothing |

## Left out

- Concurrent requests on one database: requests are atomic steps.
- Normalisation of usernames, emails, one-time and recovery codes: requests carry normalised text, and one-time codes are ASCII.
- Field validation (display names, terms, privacy notice, password policy): one input that says whether it passed.
- Notifications, activity records, CSRF rotation, and account fields nothing here depends on.
- What a role permits, and effective permissions: of a role only its key, its enabled flag and whether it is a system role are kept.
- Everything of SOAR but the four identity steps: playbooks, approvals, and steps that touch no access-control table.
- Retention previews as stored rows, and retention of tables other than login attempts, sessions and challenges.
- Restoring a backup: it replaces the whole database while the service is stopped, so a run ends there.
- Decryption failure of stored one-time secrets: the encryption key is taken to be configured.
- Account changes from the command line (manage_accounts.py): runs consist of HTTP requests.
- Audit event ids and time of verification; JSON encoding of the hashed fields is part of the digest function.
- Fetching, HTML parsing and page details of the crawler beyond links, depth and parent.
- Exponential averages, consecutive failures and ratios.
- Baselines.BuildStatistics: leaves out the data hash and the text of the insufficiency reason.
- Windows.BuildBaseline: leaves out storing the row and finding an existing one by its hash; values are windowed counts.
- Drift signals other than the stability index, and the quality gates.
- Feature extraction other than windowed counts, since it reads current row status.
- Floating-point error: arithmetic is exact.

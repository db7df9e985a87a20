# Verification of the stateful and arithmetic core

A Dafny model of the backend's components whose correctness spans many calls, and proofs of
what they keep. `dafny verify dfyconfig.toml` checks everything.

| part | files |
|---|---|
| wall-clock time to UTC, and local days | `Calendar`, `Timezone`, `LocalTime` |
| one-time passwords: issue, verify, prune | `OtpTable`, `OtpService`, `OtpRuns`, `OtpCodes`, `OtpHistory`, `OtpExcess`, `OtpSchedule`, `OtpTightness`, `OtpPruning`, `OtpInterleaving`, `OtpEmbedding`, `OtpOverrun`, `OtpDuration` |
| refresh-token rotation | `RefreshTokens`, `RefreshProtocol`, `RefreshSafety`, `RefreshPruning` |
| the outbound WhatsApp queue | `WhatsappQueue` |
| the WhatsApp credential store | `WhatsappAuth` |
| the cached authentication principal | `AuthCache`, `AuthScreening`, `AuthServices`, `AuthRuns`, `AuthInterleaving` |
| key case conversion | `CaseConverter` |
| storage keys and batch URL signing | `StorageKeys`, `StorageUrls` |
| strings and sums | `Text`, `Totals` |

Services and repositories are classes with the fields of the originals. Each method is proved
against a step function on plain values, and the theorems are about every sequence of steps.
Where calls overlap, each database statement or event-loop turn is one atomic step, a call in
flight is a value that remembers what it has read, and steps interleave freely. A table is a
sequence or map of rows with generated ids; times are milliseconds on one clock; a sum over
rows and a count of calls in flight share the weights of `Totals`.

Assumptions that are parameters or preconditions of the model:

- Zone offsets are an arbitrary step function with jumps further apart than its range is wide;
  through the string interface offsets are whole seconds and years are 1000 to 9999.
- One-time-password settings are positive, as their schema demands, and the clock is monotone.
- The queue's minimum delay is at most its maximum, and sleeps are never short.
- Credential uploads succeed, and storage operations take effect in the order issued.
- Refresh tokens generated in a run with prunings are distinct and not empty.
- Hashes are injective; generated codes, tokens, jitter, city checks, connectivity and token
  verification are inputs of the step.
- A batch signing reply lists its URLs in the order of the request.

Where the repository's own comments differ from its code, the code is modelled:

- the daylight-saving policy at lines 7 to 11 of the time-zone utilities holds only for some
  zones (`Timezone.DocumentedPolicyFails`; `GapResolution` and `OverlapResolution` say when);
- the phone lock caps failures per lock window less the code lifetime plus one millisecond, not
  per lock window: `OtpRuns.FailureCap` proves that length for all settings,
  `OtpTightness.GuardedLengthIsTightIff` tells exactly which settings fail a millisecond beyond
  it, and `OtpTightness.ShippedExceeds` finds those of the environment files among them;
- the response field for the queue position describes 1 as next to be sent, but an idle queue
  reports 0 (`WhatsappQueue.ReportedPosition`);
- logout ends the presented session unless a rotation of it commits in between
  (`RefreshSafety.LogoutEndsSessionIff`, `RefreshSafety.LogoutCanBeOvertaken`);
- lines 46 to 50 of the refresh-token repository say that pruning never loses the reuse signal
  for live tokens; it does when a replaced token expires before its live successor
  (`RefreshPruning.PruningInvisibleIff`, `RefreshPruning.AlarmCanBeLost`), and a rotation in
  flight can lose to a pruning (`RefreshPruning.PruneInFlightIff`);
- lines 174 to 178 of the user service say that a deactivation takes effect on the next request;
  that holds for atomic calls (`AuthRuns.DeactivationHolds`), but a request in flight may write
  the old row back after the deletion (`AuthInterleaving.StaleIffStraddled`,
  `AuthInterleaving.StaleServed`).

## Model

| member | source | states |
|---|---|---|
| `Calendar.DateOfDayInverts` | src/shared/utils/timezone.util.ts:88-91 | reading year, month and day back from the day number of any valid date of the proleptic Gregorian calendar returns that date (ECMA-262, section 21.4.1) |
| `Calendar.SuccessorIsNextDay` | src/shared/utils/timezone.util.ts:86-92 | adding one to the day number is the Gregorian successor: leap years, month ends and year ends included |
| `Timezone.ResolveInvertsOutsideGaps` | src/shared/utils/timezone.util.ts:55-70 | for every offset step function whose jumps are further apart than its range is wide, the two passes return an instant that shows the requested wall clock if and only if no forward jump skips it |
| `Timezone.ShownIffNotSkipped` | src/shared/utils/timezone.util.ts:55-70 | some instant shows a wall clock if and only if no gap skips it, so the two passes fail only where nothing could succeed |
| `Timezone.GapResolution` | src/shared/utils/timezone.util.ts:64-69 | for a skipped wall clock the result lies after the jump if and only if the literal-UTC reading does |
| `Timezone.OverlapResolution` | src/shared/utils/timezone.util.ts:64-69 | a repeated wall clock is shown at exactly two instants, one each side of the jump, and the earlier is chosen if and only if the literal-UTC reading precedes the jump |
| `Timezone.RoundTrip` | src/shared/utils/timezone.util.ts:55-70 | instant to wall clock and back is the identity, except exactly on the side of an overlap that is not chosen |
| `Timezone.SeparatesIffHarmless` | src/shared/utils/timezone.util.ts:33-44 | a resolved midnight is the instant at which local time passes midnight if and only if every jump that touches it is of the two harmless kinds |
| `Timezone.DayRangeIsLocalDay` | src/shared/utils/timezone.util.ts:32-44 | the half-open range of a local day holds exactly the instants whose wall clock reads that day, if and only if every jump is harmless to both its midnights |
| `Timezone.DaysAdvance` | src/shared/utils/timezone.util.ts:37-44 | when offsets differ by less than a day, consecutive midnights resolve in strictly increasing order, so no day range is empty |
| `Timezone.DaysTile` | src/shared/utils/timezone.util.ts:32-44 | every instant of a span of any number of consecutive days lies in exactly one of the day ranges |
| `Timezone.DocumentedPolicyFails` | src/shared/utils/timezone.util.ts:7-11 | two concrete zones in which the comment on daylight-saving changes is not what the code does |
| `LocalTime.AddOneLocalDayIsSuccessor` | src/shared/utils/timezone.util.ts:85-93 | on every valid four-digit date, the string function returns the Gregorian successor in the same format if and only if the successor's year is at least 1000 (below, padding and the two-digit-year rule of `Date.UTC` interfere) |
| `LocalTime.FormattedFieldsReadOffset` | src/shared/utils/timezone.util.ts:99-126 | the offset read back from formatted calendar fields is the zone's offset, whether midnight is printed as hour 0 or 24 |
| `LocalTime.LocalTimeToUtcResolves` | src/shared/utils/timezone.util.ts:55-70 | parsing, the literal reading, both passes and the 24:00 sentinel together compute the two-pass correction of the requested wall clock |
| `LocalTime.LocalDayIs` | src/shared/utils/timezone.util.ts:22-30 | `localDayOf` prints a date if and only if the wall clock at the instant reads that date |
| `LocalTime.DayBoundsCoverLocalDay` | src/shared/utils/timezone.util.ts:32-44 | through the string interface: the bounds of a local day hold their own start, and hold exactly the instants that `localDayOf` puts on that day if and only if the jumps are harmless to both midnights |
| `LocalTime.DayBoundsAbut` | src/shared/utils/timezone.util.ts:37-44 | the end of one local day's bounds is the start of the next day's, for every offset reader |
| `LocalTime.IsoDayIs` | src/shared/utils/timezone.util.ts:18-62 | the date and time strings of these statements, digit by digit: a four-digit year, zero-padded month, day, hours and minutes |
| `LocalTime.EpochIsZero` | src/shared/utils/timezone.util.ts:60-62 | day numbers and midnights count from the first of January 1970 |
| `OtpService.OtpRepository.FindActiveByPhoneAndPurpose` | src/modules/otps/repositories/otp.repository.ts:26-36 | the newest row of the phone and purpose that is unconsumed and expires strictly after now: no later row qualifies, and there is none only if no row at all qualifies |
| `OtpService.OtpRepository.FindLatestByPhoneAndPurpose` | src/modules/otps/repositories/otp.repository.ts:38-43 | the row of the phone and purpose with the greatest id, consumed or not; none only if the phone and purpose have no row |
| `OtpService.OtpRepository.Save` | src/modules/otps/repositories/otp.repository.ts:22-24 | appends the row and advances the id, touching no other row |
| `OtpService.OtpRepository.Increment` | src/modules/otps/repositories/otp.repository.ts:45-47 | one more attempt on the row with the id, if it is there, and nothing else |
| `OtpService.OtpRepository.Consume` | src/modules/otps/repositories/otp.repository.ts:49-51 | sets the consumption time of the row with the id, whatever it was |
| `OtpService.OtpRepository.Invalidate` | src/modules/otps/repositories/otp.repository.ts:53-55 | consumes every unconsumed row of the phone and purpose and no other |
| `OtpService.OtpRepository.DeleteCreatedBefore` | src/modules/otps/repositories/otp.repository.ts:63-75 | keeps exactly the rows created at or after the cutoff and reports how many went |
| `OtpService.Service.Issue` | src/modules/otps/services/otp.service.ts:68-113 | every exit of an issue, in order: locked, rate exceeded, cooling down, or a new row after the older ones are invalidated; the new row holds the digest of the fixed code when one is configured and of the generated one otherwise |
| `OtpCodes.SentCodeVerifies` | src/modules/otps/services/otp.service.ts:83-136 | after an issue that succeeds, on an unlocked phone and until the lifetime is over: the fixed code when one is configured, and otherwise the generated one, is accepted, and every other code is invalid |
| `OtpCodes.IssueAnswers` | src/modules/otps/services/otp.service.ts:68-113 | after any run, each answer to an issue from the history alone: locked by the failures on recent codes, rate exceeded by the recent issues, cooling down for the stated whole seconds while the last code is unused, or issued for the lifetime |
| `OtpService.Service.Verify` | src/modules/otps/services/otp.service.ts:115-136 | every exit of a verification, in order: locked, no active code, exhausted (and consumed), wrong (and charged), right (and consumed) |
| `OtpCodes.VerificationAnswers` | src/modules/otps/services/otp.service.ts:115-136 | after any run, each answer to a verification from the history alone: locked, no code alive, the last code sent missed too often, that very code, or another one |
| `OtpCodes.EveryWinIsSent` | src/modules/otps/services/otp.service.ts:115-136 | every success of a run, whatever the settings, presented the code last sent to that phone and purpose, within its lifetime |
| `OtpService.Service.PruneStaleOtps` | src/modules/otps/services/otp.service.ts:138-148 | rows older than the longer of the two counting windows go |
| `OtpService.Service.AssertPhoneNotLocked` | src/modules/otps/services/otp.service.ts:176-190 | locked if and only if the attempts on rows created in the closed lock window reach the cap |
| `OtpService.Service.AssertIssueRateNotExceeded` | src/modules/otps/services/otp.service.ts:161-174 | exceeded if and only if the rows created in the half-open issue window reach the cap |
| `OtpTable.DeleteBefore` | src/modules/otps/repositories/otp.repository.ts:68-75 | a row survives if and only if it was in the table and is not older than the cutoff |
| `OtpRuns.RunKeepsInvariant` | src/modules/otps/services/otp.service.ts:68-148 | in every run of issues, verifications and prunes on a monotone clock: sums and counts in the table mirror the failures and issues of the history, however many rows were pruned |
| `OtpRuns.FailureCap` | src/modules/otps/services/otp.service.ts:115-136 | when the lock window is at least the code lifetime, at most the cap of failed verifications of a phone and purpose fall in any closed interval as long as the lock window less the code lifetime plus one millisecond, although the code counts by row creation time |
| `OtpHistory.RunKeepsHistory` | src/modules/otps/services/otp.service.ts:68-148 | in every run: every issue is spaced from the last one of its phone and purpose by the cooldown, a consumption or a pruning; every failure passed the lock check against the failures before it; and a missing row is older than both windows |
| `OtpExcess.ExcessNeeds` | src/modules/otps/services/otp.service.ts:68-190 | a run that puts more failures than the cap into an interval a millisecond longer needs settings that admit it: enough further codes, under issue rate and cooldown, between the last millisecond of a code and the first one after it has left the lock window |
| `OtpTightness.GuardedLengthIsTightIff` | src/modules/otps/services/otp.service.ts:68-190 | for all valid settings with a lock window of at least the code lifetime: some run exceeds the cap within that millisecond more if and only if issue rate, cap on attempts and cooldown let enough codes follow |
| `OtpTightness.ShippedExceeds` | env/.env.production.example:91-98 | the settings of the environment files are such settings, so under them some run puts more failures than the cap into an interval shorter than the lock window |
| `OtpRuns.IssueCap` | src/modules/otps/services/otp.service.ts:161-174 | at most the maximum of issues of a phone and purpose fall in any half-open issue window, wherever it starts |
| `OtpRuns.AttemptCap` | src/modules/otps/services/otp.service.ts:123-133 | no code is ever tried wrongly more often than the per-code cap, even after its row was pruned |
| `OtpRuns.OneActiveCode` | src/modules/otps/services/otp.service.ts:83-93 | at most one row of a phone and purpose is unconsumed, and it is the one issued last |
| `OtpRuns.RedeemedOnce` | src/modules/otps/services/otp.service.ts:129-135 | no two successful verifications of a run are on the same issued code |
| `OtpRuns.VerifiedIsLastIssued` | src/modules/otps/services/otp.service.ts:119-135 | a success presented the very code of the last issue of that phone and purpose, before it expired |
| `OtpPruning.PruningInvisibleIff` | src/modules/otps/services/otp.service.ts:138-148 | for valid settings: every run returns the same outcomes with its prunes as without them if and only if neither the code lifetime nor the cooldown exceeds the longer counting window |
| `OtpInterleaving.RunKeepsInvariant` | src/modules/otps/services/otp.service.ts:68-136 | with every statement a separate step and calls interleaving freely, table totals plus calls in flight stay within the caps plus the load |
| `OtpInterleaving.FailuresOverrun` | src/modules/otps/services/otp.service.ts:115-136 | with at most k verifications of a phone and purpose between lock check and finish, the attempts in the lock window never exceed the cap plus k - 1; k = 1 gives the cap |
| `OtpOverrun.OverrunAttainedIff` | src/modules/otps/services/otp.service.ts:115-190 | for all valid settings: for every k some run with that load reaches the cap plus k - 1 exactly, if and only if the codes that one verification at a time takes to reach the cap fit the lock window under the issue rate |
| `OtpOverrun.ShippedAttains` | env/.env.production.example:91-98 | under the settings of the environment files the bound is reached for every k |
| `OtpDuration.FailureTimesOverrun` | src/modules/otps/services/otp.service.ts:115-136 | with at most k verifications in flight, each making its last statement within d milliseconds of its lock check, at most the cap plus k - 1 failures fall in any closed interval as long as the guarded one less d; k = 1 and d = 0 give the atomic cap |
| `OtpInterleaving.IssuesOverrun` | src/modules/otps/services/otp.service.ts:68-93 | with at most k issues between rate check and insert, the rows in the issue window never exceed the maximum plus k - 1 |
| `OtpInterleaving.OpenOverrun` | src/modules/otps/services/otp.service.ts:83-93 | and at most k codes of a phone and purpose are unconsumed together |
| `OtpInterleaving.CodeOverrun` | src/modules/otps/services/otp.service.ts:123-135 | with at most k overlapping verifications, attempts on one code never exceed its cap plus k - 1 and one code is redeemed at most k times |
| `OtpInterleaving.VerifyAlone` | src/modules/otps/services/otp.service.ts:115-136 | the stepwise verification that nothing interleaves with is the atomic one |
| `OtpInterleaving.IssueAlone` | src/modules/otps/services/otp.service.ts:68-113 | so is the stepwise issue |
| `OtpEmbedding.AtomicRunsEmbed` | src/modules/otps/services/otp.service.ts:68-148 | every chronological run of atomic calls is reached statement by statement, with never more than one verification and one issue in flight: same table, same instant |
| `RefreshTokens.RefreshTokenRepository.FindByToken` | src/modules/refresh-tokens/repositories/refresh-token.repository.ts:30-33 | the one row with the token's hash, or none |
| `RefreshTokens.RefreshTokenRepository.Save` | src/modules/refresh-tokens/repositories/refresh-token.repository.ts:26-28 | inserts unless the hash is taken; the id is used up either way |
| `RefreshTokens.RefreshTokenRepository.Revoke` | src/modules/refresh-tokens/repositories/refresh-token.repository.ts:35-37 | stamps the row with the id, whatever its state, and leaves its other columns and every other row as they were |
| `RefreshTokens.RefreshTokenRepository.RevokeAllForUser` | src/modules/refresh-tokens/repositories/refresh-token.repository.ts:39-44 | leaves the user and role no unrevoked row, and changes exactly the rows of theirs that were unrevoked |
| `RefreshTokens.RefreshTokenRepository.DeleteExpiredBefore` | src/modules/refresh-tokens/repositories/refresh-token.repository.ts:46-58 | keeps exactly the rows that expire at or after now and reports how many went |
| `RefreshTokens.RefreshTokenService.Issue` | src/modules/refresh-tokens/services/refresh-token.service.ts:44-57 | a new unrevoked row of the owner with the digest of the generated token and the full lifetime, which the caller is told |
| `RefreshTokens.RefreshTokenService.Rotate` | src/modules/refresh-tokens/services/refresh-token.service.ts:59-115 | every exit: unknown, reused (all tokens of the owner revoked), revoked or expired, lost, or rotated |
| `RefreshTokens.RotatedIff` | src/modules/refresh-tokens/services/refresh-token.service.ts:64-115 | a rotation succeeds if and only if the row of the presented token is there, unrevoked and unexpired, and the generated token is unused |
| `RefreshTokens.RotatedReports` | src/modules/refresh-tokens/services/refresh-token.service.ts:64-115 | and then it reports the owner of the presented token and the full lifetime, and the table gains exactly one row of that owner with the digest of the new token, for which the presented row is spent |
| `RefreshTokens.RefusedRotation` | src/modules/refresh-tokens/services/refresh-token.service.ts:64-82 | a refused rotation changes no row, unless the token was replaced before: then exactly the unrevoked rows of its owner are revoked |
| `RefreshTokens.RefreshTokenService.InTransaction` | src/modules/refresh-tokens/services/refresh-token.service.ts:84-112 | both writes happen or neither: the new row stays if and only if the old one was still unrevoked |
| `RefreshTokens.RefreshTokenService.Revoke` | src/modules/refresh-tokens/services/refresh-token.service.ts:117-121 | revokes the presented token if it is known and unrevoked, and no other |
| `RefreshTokens.LogoutRevokes` | src/modules/refresh-tokens/services/refresh-token.service.ts:117-121 | row by row: only the row with the digest of the presented token changes, and only if it was unrevoked |
| `RefreshTokens.RefreshTokenService.RevokeAllForUser` | src/modules/refresh-tokens/services/refresh-token.service.ts:123-125 | revokes exactly the owner's unrevoked tokens and uses up no id |
| `RefreshTokens.RefreshTokenService.PruneExpiredTokens` | src/modules/refresh-tokens/services/refresh-token.service.ts:127-131 | drops the expired rows and no other |
| `RefreshProtocol.RunKeepsInvariant` | src/modules/refresh-tokens/services/refresh-token.service.ts:44-131 | every interleaving of issue, rotation, logout, revoke-all and pruning keeps chains linked and owned, histories and links equal, and at most one unrevoked row for each issue |
| `RefreshSafety.RotatedOnce` | src/modules/refresh-tokens/services/refresh-token.service.ts:84-112 | over every interleaving no token is rotated twice, no two rotations share a replacement, and replacements have greater ids |
| `RefreshSafety.ReplacementsInjective` | src/modules/refresh-tokens/services/refresh-token.service.ts:99-107 | in the table itself the replacement link is injective and increasing |
| `RefreshSafety.SuccessorsStay` | src/modules/refresh-tokens/services/refresh-token.service.ts:99-107 | a replaced row is revoked and its replacement is in the table, of the same owner and expiring no earlier: pruning leaves no dangling link |
| `RefreshSafety.LiveAtMostIssues` | src/modules/refresh-tokens/services/refresh-token.service.ts:84-112 | unrevoked rows of an owner never outnumber the owner's issues, since losing transactions leave no row |
| `RefreshSafety.RevokeAllIsFinal` | src/modules/refresh-tokens/services/refresh-token.service.ts:67-74 | after a revoke-all or a detected reuse no token with an older id is ever rotated again, even by requests that had looked it up before, and every unrevoked token of the owner descends from a later issue |
| `RefreshSafety.LogoutEndsSessionIff` | src/modules/refresh-tokens/services/refresh-token.service.ts:117-121 | a logout's write ends its session if and only if it finds the presented token still unrevoked |
| `RefreshSafety.LogoutIsFinal` | src/modules/refresh-tokens/services/refresh-token.service.ts:117-121 | a session so ended stays ended through everything that follows |
| `RefreshSafety.EndedForGood` | src/modules/refresh-tokens/services/refresh-token.service.ts:64-115 | no token of a session without unrevoked rows is ever rotated again |
| `RefreshSafety.LogoutCanBeOvertaken` | src/modules/refresh-tokens/services/refresh-token.service.ts:117-121 | an interleaving in which the session survives a logout, because a rotation commits between its lookup and its write |
| `RefreshSafety.PruneLosesOnlyAlarms` | src/modules/refresh-tokens/services/refresh-token.service.ts:127-131 | a pruning does not change the verdict of the next atomic presentation, and changes what it leaves in the table if and only if the pruned row was evidence of reuse against tokens still there |
| `RefreshPruning.PruningInvisible` | src/modules/refresh-tokens/services/refresh-token.service.ts:127-131 | in every run of atomic calls with distinct generated tokens, all replies are the same with and without its prunings as long as no presentation is of a replaced token pruned while its owner holds a live one |
| `RefreshPruning.PruningInvisibleIff` | src/modules/refresh-tokens/repositories/refresh-token.repository.ts:46-58 | a run can be told from the same run without prunings, by one more presentation at some point of it, if and only if it makes such a presentation |
| `RefreshPruning.AlarmCanBeLost` | src/modules/refresh-tokens/repositories/refresh-token.repository.ts:46-58 | for every lifetime, a concrete run in which reuse goes undetected and the live token stays usable because the evidence was pruned |
| `RefreshPruning.PruneInFlightIff` | src/modules/refresh-tokens/services/refresh-token.service.ts:84-112 | over every interleaving, a pruning between a rotation's decision and its transaction defeats it if and only if it would have committed and the presented token has expired meanwhile |
| `RefreshSafety.RotateAlone` | src/modules/refresh-tokens/services/refresh-token.service.ts:64-115 | the stepwise rotation that nothing interleaves with is the atomic one |
| `RefreshSafety.RotateAloneReports` | src/modules/refresh-tokens/services/refresh-token.service.ts:64-115 | and its one swap hands the new row to the owner the caller is told, with the digest of the generated token |
| `RefreshSafety.LogoutAlone` | src/modules/refresh-tokens/services/refresh-token.service.ts:117-121 | so is the stepwise logout |
| `WhatsappQueue.WhatsappQueueService.EnqueueText` | src/modules/whatsapp/services/whatsapp-queue.service.ts:69-94 | refused when disconnected or full; otherwise appended, and an idle worker takes the head in the same turn, before the position is read |
| `WhatsappQueue.EnqueueAnswers` | src/modules/whatsapp/services/whatsapp-queue.service.ts:69-94 | refused as not connected if and only if it is, as full if and only if connected and full, without any change; otherwise the job is last in line, and an idle worker takes the first, at once or until exactly the drawn delay after the last send |
| `WhatsappQueue.SettleTakesNext` | src/modules/whatsapp/services/whatsapp-queue.service.ts:115-149 | after a send that settles the worker takes the next job in line, with the delay counted from that instant |
| `WhatsappQueue.WhatsappQueueService.StartWorker` | src/modules/whatsapp/services/whatsapp-queue.service.ts:109-113 | starts the loop only when none is running |
| `WhatsappQueue.WhatsappQueueService.ProcessLoop` | src/modules/whatsapp/services/whatsapp-queue.service.ts:115-149 | one turn of the loop: it ends, or takes the head and sleeps until the spacing is over, or sends at once |
| `WhatsappQueue.WhatsappQueueService.WakeUp` | src/modules/whatsapp/services/whatsapp-queue.service.ts:128-135 | after the sleep: stop if shutting down, otherwise send the job in hand |
| `WhatsappQueue.WhatsappQueueService.SendSettled` | src/modules/whatsapp/services/whatsapp-queue.service.ts:134-145 | a send that settled, well or badly, stamps the time and the loop goes on |
| `WhatsappQueue.WhatsappQueueService.OnModuleDestroy` | src/modules/whatsapp/services/whatsapp-queue.service.ts:101-103 | only the shutdown flag changes |
| `WhatsappQueue.NoLostWakeUp` | src/modules/whatsapp/services/whatsapp-queue.service.ts:109-149 | at every turn boundary of every run the worker is live if and only if `isProcessing` says so, before shutdown it is live whenever a job waits, and the queue never exceeds its size |
| `WhatsappQueue.InOrderOnce` | src/modules/whatsapp/services/whatsapp-queue.service.ts:74-149 | accepted jobs are, in order, those sent, at most one in flight or in hand, and those queued; shutdown drops at most one |
| `WhatsappQueue.Paced` | src/modules/whatsapp/services/whatsapp-queue.service.ts:121-144 | across idle gaps and failed sends each send starts at least the minimum delay after the previous one settled, so a window holds at most its length over that delay, and one more |
| `WhatsappQueue.SleepsWithinDelays` | src/modules/whatsapp/services/whatsapp-queue.service.ts:121-132 | in every run a sleeping worker waits until between the minimum and the maximum delay after the last send |
| `WhatsappQueue.NoSendAfterShutdown` | src/modules/whatsapp/services/whatsapp-queue.service.ts:101-131 | once shutting down no send ever starts |
| `WhatsappQueue.Drains` | src/modules/whatsapp/services/whatsapp-queue.service.ts:115-149 | from every reachable point before shutdown, some schedule that only ends waits leads to exactly the accepted jobs having been sent, in order |
| `WhatsappQueue.EveryScheduleDrains` | src/modules/whatsapp/services/whatsapp-queue.service.ts:115-149 | and every schedule does: each sleep or send that ends lowers what is left to do, so only so many can end, and when the worker is idle exactly the accepted jobs have been sent, in order |
| `WhatsappQueue.ReportedPosition` | src/modules/whatsapp/services/whatsapp-queue.service.ts:90-93 | the reported position is 0 if the idle worker took the job at once, and otherwise its place in the queue counted from 1 |
| `WhatsappAuth.WhatsappAuthService.BeginLoad` | src/modules/whatsapp/services/whatsapp-auth.service.ts:42-46 | answers from memory once hydrated; otherwise issues one read |
| `WhatsappAuth.WhatsappAuthService.EndLoad` | src/modules/whatsapp/services/whatsapp-auth.service.ts:45-57 | the value read becomes the snapshot, whatever happened meanwhile |
| `WhatsappAuth.WhatsappAuthService.Save` | src/modules/whatsapp/services/whatsapp-auth.service.ts:66-76 | the snapshot changes at once, the write is pending, and a timer is armed unless one is |
| `WhatsappAuth.WhatsappAuthService.TimerFired` | src/modules/whatsapp/services/whatsapp-auth.service.ts:72-75 | a fired timer is a flush |
| `WhatsappAuth.WhatsappAuthService.Flush` | src/modules/whatsapp/services/whatsapp-auth.service.ts:83-102 | waits for the upload in flight if there is one, otherwise uploads what is pending |
| `WhatsappAuth.WhatsappAuthService.Resume` | src/modules/whatsapp/services/whatsapp-auth.service.ts:89-101 | a resumed flush uploads what is pending now, without looking for another upload in flight |
| `WhatsappAuth.WhatsappAuthService.UploadSettled` | src/modules/whatsapp/services/whatsapp-auth.service.ts:97-99 | any upload that settles clears the in-flight marker |
| `WhatsappAuth.WhatsappAuthService.Clear` | src/modules/whatsapp/services/whatsapp-auth.service.ts:104-118 | snapshot, pending write, timer and stored object all go |
| `WhatsappAuth.WhatsappAuthService.SessionExists` | src/modules/whatsapp/services/whatsapp-auth.service.ts:120-123 | decided by the snapshot once hydrated, and by the store before |
| `WhatsappAuth.WriteBehind` | src/modules/whatsapp/services/whatsapp-auth.service.ts:66-118 | however saves, timers, overlapping flushes, uploads and clears interleave: a pending value is the snapshot and is covered by an armed timer or a suspended flush, and with nothing pending the store is the snapshot |
| `WhatsappAuth.EndLoadKeepsInvariantIff` | src/modules/whatsapp/services/whatsapp-auth.service.ts:42-58 | a load that ends keeps this if and only if it does not overwrite a newer value |
| `WhatsappAuth.LateLoadOverwrites` | src/modules/whatsapp/services/whatsapp-auth.service.ts:42-58 | the run in which a load begun before a save ends after it, and the store and the snapshot part |
| `WhatsappAuth.SnapshotIsLastWrite` | src/modules/whatsapp/services/whatsapp-auth.service.ts:66-118 | the snapshot is the value of the last save or clear |
| `WhatsappAuth.QuiescentIsDurable` | src/modules/whatsapp/services/whatsapp-auth.service.ts:66-118 | with no timer armed and no flush suspended the store holds the last write, and a new process loads it |
| `WhatsappAuth.Quiesces` | src/modules/whatsapp/services/whatsapp-auth.service.ts:83-102 | from every reachable state, timers firing and uploads settling suffice to bring the store to the snapshot |
| `WhatsappAuth.FlushPersists` | src/modules/whatsapp/services/whatsapp-auth.service.ts:78-102 | a flush that is not held up, and one that resumes, leave nothing pending and the snapshot in the store |
| `WhatsappAuth.UploadsAtMostSaves` | src/modules/whatsapp/services/whatsapp-auth.service.ts:60-76 | uploads, and a pending one, never outnumber saves |
| `WhatsappAuth.UploadsDebounced` | src/modules/whatsapp/services/whatsapp-auth.service.ts:60-102 | the debounce: however many saves, uploads never outnumber the timers that fire and the flushes asked for, and a timer fires at most once for each burst of saves |
| `WhatsappAuth.ApartIsTimely` | src/modules/whatsapp/services/whatsapp-auth.service.ts:42-58 | if nothing is saved or cleared while a load is in flight, no load of the run overwrites a newer value and the store and the snapshot stay coherent |
| `WhatsappAuth.ExistsAgrees` | src/modules/whatsapp/services/whatsapp-auth.service.ts:120-123 | with nothing pending, `exists` tells whether the store holds a session, hydrated or not |
| `WhatsappAuth.ExistsIsLastWrite` | src/modules/whatsapp/services/whatsapp-auth.service.ts:120-123 | pending or not: after a save or clear, `exists` tells which of the two came last |
| `WhatsappAuth.LoadAnswers` | src/modules/whatsapp/services/whatsapp-auth.service.ts:42-58 | a load answers with the last save or clear, and before any with the stored session |
| `AuthCache.CacheKeyInjective` | src/infrastructure/cache/cache.constants.ts:6-9 | two accounts never share a cache key |
| `AuthServices.CacheService.GetOrSet` | src/infrastructure/cache/cache.service.ts:39-63 | a live entry answers without the factory; otherwise the loaded value answers and is stored unless it is missing |
| `AuthServices.CacheService.Set` | src/infrastructure/cache/cache.service.ts:23-25 | a caching driver answers with the value for exactly the time to live, and other keys answer as before |
| `AuthServices.CacheService.Delete` | src/infrastructure/cache/cache.service.ts:27-29 | the key answers at no instant any more, and every other key answers as before |
| `AuthServices.JwtAuthGuard.CanActivate` | src/core/guards/jwt-auth.guard.ts:35-81 | every verdict in order: public, missing token, invalid token or role, forbidden role, unknown account, disabled account, admitted |
| `AuthRuns.GuardAnswers` | src/core/guards/jwt-auth.guard.ts:35-123 | over any coherent cache, every verdict with its own condition, the header, role names and roles of the route spelled out |
| `AuthRuns.AdmittedIff` | src/core/guards/jwt-auth.guard.ts:35-123 | a request is admitted as a principal if and only if its header is `Bearer` and a token, its claims verify and name role `admin` or `user`, the route allows that role, and the principal is the active row of that role and id |
| `AuthServices.UserService.UploadPhoto` | src/modules/users/services/user.service.ts:100-115 | the reloaded row gets the photo key and its cache entry goes |
| `AuthServices.UserService.UpdateMe` | src/modules/users/services/user.service.ts:117-125 | city check, then the changes are merged into the reloaded row and its cache entry goes |
| `AuthServices.UserService.CompleteProfile` | src/modules/users/services/user.service.ts:127-139 | refused once completed; otherwise merged, marked complete and invalidated |
| `AuthServices.UserService.DeactivateByAdmin` | src/modules/users/services/user.service.ts:174-185 | the gate closes, sessions are revoked and the cache entry goes |
| `AuthServices.UserService.ActivateByAdmin` | src/modules/users/services/user.service.ts:187-197 | the gate opens and the cache entry goes |
| `AuthServices.UserService.FindOneOrCreateByPhone` | src/modules/users/services/user.service.ts:70-85 | the existing row of the phone, or a new incomplete one, with no invalidation |
| `AuthServices.UserService.CreateByAdmin` | src/modules/users/services/user.service.ts:161-172 | refused if the phone is taken or the city missing; otherwise a new complete row, with no invalidation |
| `AuthScreening.UserWrites` | src/modules/users/services/user.service.ts:100-197 | column by column, what each write of a user changes and that the other columns stay |
| `AuthScreening.NewUsers` | src/modules/users/services/user.service.ts:70-172 | a phone without a row gets an active one, incomplete on sign-up and complete when an admin creates it; a phone with a row is returned or refused |
| `AuthServices.AdminService.UploadPhoto` | src/modules/admins/services/admin.service.ts:70-87 | the reloaded row gets the photo key and its cache entry goes |
| `AuthServices.AdminService.UpdateMe` | src/modules/admins/services/admin.service.ts:101-144 | credential changes need the current password and a free username, and revoke sessions; every change invalidates |
| `AuthScreening.AdminWrites` | src/modules/admins/services/admin.service.ts:70-144 | column by column for admins; a new name or password needs the current password, and then revokes the sessions |
| `AuthRuns.RunKeepsInvariant` | src/modules/users/services/user.service.ts:76-197 | after any calls every cache entry, expired or not, is the account's present row |
| `AuthRuns.CreateKeepsInvariant` | src/modules/users/services/user.service.ts:161-172 | an insert needs no invalidation, since a missing account is never cached |
| `AuthRuns.CacheIsInvisible` | src/infrastructure/cache/cache.service.ts:39-63 | from any database, every call of every run of atomic calls has the same outcome under the caching driver as under the one that caches nothing |
| `AuthRuns.DeactivationHolds` | src/modules/users/services/user.service.ts:174-185 | from a user's deactivation until the next activation every request with that user's token is rejected as disabled, under either driver |
| `AuthRuns.ActivationHolds` | src/modules/users/services/user.service.ts:187-197 | from an activation until the next deactivation every such request is admitted |
| `AuthInterleaving.RunKeepsInvariant` | src/infrastructure/cache/cache.service.ts:48-63 | with cache reads, row reads, cache writes, updates and invalidations as separate steps, whatever is cached or served was the row when it was read |
| `AuthInterleaving.StalenessBounded` | src/core/guards/jwt-auth.guard.ts:62-71 | any principal served is the database row at some instant no older than the time to live and the delay from row read to cache write |
| `AuthInterleaving.StaleIffStraddled` | src/infrastructure/cache/cache.service.ts:53-62 | after an invalidation completes, an older principal is served if and only if it comes out of a request that read the row before the write and wrote the cache after the deletion |
| `AuthInterleaving.StaleServed` | src/modules/users/services/user.service.ts:174-185 | such a run: a new request is served the row as it was before an update whose invalidation has completed, a millisecond less than the time to live later |
| `CaseConverter.CamelOfSnakeIff` | src/shared/utils/case-converter.utils.ts:27-33 | camel case undoes snake case on a key if and only if no separator in it directly precedes a lower-case letter |
| `CaseConverter.SnakeOfCamelIff` | src/shared/utils/case-converter.utils.ts:27-33 | snake case undoes camel case on a key if and only if it has no upper-case letter and no hyphen directly before a lower-case one |
| `CaseConverter.CamelIsSafe` | src/shared/utils/case-converter.utils.ts:27-29 | a camel-cased key has no separator left before a lower-case letter |
| `CaseConverter.RoundsSettle` | src/shared/utils/case-converter.utils.ts:27-33 | one round trip reaches a key that further rounds leave alone |
| `CaseConverter.SnakeReplaces` | src/shared/utils/case-converter.utils.ts:31-33 | each capital becomes an underscore and its small letter, and a stretch without capitals stays |
| `CaseConverter.CamelReplaces` | src/shared/utils/case-converter.utils.ts:27-29 | each hyphen or underscore with a letter after it becomes the capital, from the left, and what comes before the first stays |
| `CaseConverter.NoCollisions` | src/shared/utils/case-converter.utils.ts:21-24 | with distinct converted keys a record is converted field by field, in place |
| `CaseConverter.LastFieldWins` | src/shared/utils/case-converter.utils.ts:21-24 | of the fields whose keys convert alike, the last gives the value |
| `CaseConverter.ConvertRenamesIff` | src/shared/utils/case-converter.utils.ts:16-25 | one pass returns the body with its keys renamed and nothing else changed (the same atoms, arrays in order, fields in place) if and only if no two keys of a record convert alike and none becomes `__proto__` |
| `CaseConverter.RenamesUnique` | src/shared/utils/case-converter.utils.ts:16-25 | and there is only one such body |
| `CaseConverter.CamelBodyRoundTripIff` | src/shared/utils/case-converter.utils.ts:16-33 | a whole body, at every depth, comes back from snake to camel case if and only if every key in it does and none becomes `__proto__` |
| `CaseConverter.SnakeBodyRoundTripIff` | src/shared/utils/case-converter.utils.ts:16-33 | a whole body comes back from camel to snake case if and only if every key in it does and none is `__proto__` |
| `StorageKeys.SanitizeSettles` | src/infrastructure/storage/utils/path.util.ts:3-16 | normalising a key a second time changes nothing |
| `StorageKeys.SanitizeIff` | src/infrastructure/storage/utils/path.util.ts:3-16 | a key is accepted if and only if, but for slashes at its ends and backslashes for slashes, it is a path of non-empty segments other than dots without null characters, and stands for that path |
| `StorageKeys.LocationRebuilds` | src/infrastructure/storage/providers/supabase/supabase.provider.ts:158-171 | visibility and path spell the normalised key out again if and only if its first segment names a visibility and another follows |
| `StorageKeys.LocationInjective` | src/infrastructure/storage/providers/supabase/supabase.provider.ts:158-171 | with distinct buckets, two such keys have the same bucket and path if and only if they normalise alike |
| `StorageKeys.VisibilitiesAgree` | src/infrastructure/storage/service/storage.service.ts:151-156 | where the service can tell the visibility of a valid key, the provider finds the same one |
| `StorageKeys.TargetKeepsVisibility` | src/infrastructure/storage/service/storage.service.ts:125-133 | the key built for an upload tells the visibility it was built for, whatever the folder and file name |
| `StorageKeys.TargetSpells` | src/infrastructure/storage/service/storage.service.ts:125-133 | the key of an upload is the visibility, the folder and the file name with single slashes between them |
| `StorageUrls.SupabaseStorageProvider.SignedUrls` | src/infrastructure/storage/providers/supabase/supabase.provider.ts:118-156 | a batch grouped by bucket succeeds if and only if every key signs to a non-empty URL, and then each slot holds its own key's; otherwise the error is one of the keys' |
| `StorageUrls.SupabaseStorageProvider.GroupByBucket` | src/infrastructure/storage/providers/supabase/supabase.provider.ts:119-126 | every key is filed once, under its own bucket, with its own path and index |
| `StorageUrls.SupabaseStorageProvider.SignBucket` | src/infrastructure/storage/providers/supabase/supabase.provider.ts:131-153 | fills exactly the slots of one bucket, each of which was unset |
| `StorageUrls.StorageService.GetAccessUrls` | src/infrastructure/storage/service/storage.service.ts:96-123 | the scatter and gather equals the one-key form mapped over the list, public and private mixed in any order |
| `StorageUrls.BatchIsSingleIff` | src/infrastructure/storage/service/storage.service.ts:87-123 | a key's batch result is its single result unless the signed URL is empty, which only the batch refuses |
| `StorageUrls.PublicUrlFailsOnlyIfInvalid` | src/infrastructure/storage/service/storage.service.ts:87-94 | where the service sees a public key, a public URL fails if and only if the key is invalid |
| `StorageUrls.PublicUrlIs` | src/infrastructure/storage/providers/supabase/supabase.provider.ts:95-102 | for every clean path s, `public/` and s is served by the URL of s itself in the public bucket, without expiry, alone and in a batch |
| `StorageUrls.PrivateUrlIs` | src/infrastructure/storage/providers/supabase/supabase.provider.ts:104-116 | and `private/` and s by what signing s in the private bucket replies, expiring the given seconds from now, alone and in a batch |
| `StorageUrls.UploadedIsServed` | src/infrastructure/storage/service/storage.service.ts:87-133 | a file uploaded into a folder is served from that folder and name of the bucket of its visibility |

## Left out

- Two-digit and three-digit years through the string interface, beyond the successor: `LocalTime.AddOneLocalDayIsSuccessor` shows where they go wrong.
- Malformed day and time strings other than non-digits: JavaScript's `Number` also reads signs, blanks, exponents and hexadecimal.
- Instants outside the range of a JavaScript date, and the time-zone database behind `Intl`.
- WhatsApp dispatch after an issue, with its timeout and warning: it changes no row.
- Messages, translations and the minutes they quote, logging, and HTTP status codes.
- OtpInterleaving.FailuresOverrun: bounds attempts by row creation time as the code does, whatever the durations; the bound by failure time, `OtpDuration.FailureTimesOverrun`, takes the longest duration as a parameter.
- OtpCodes.VerificationAnswers: needs a code lifetime, and OtpCodes.IssueAnswers a cooldown, of at most the longer counting window; beyond it the answers depend on when rows were pruned (`OtpPruning.PruningInvisibleIff`).
- OtpOverrun.OverrunAttainedIff: characterises the settings under which the bound is reached for every k together; for a single larger k fewer codes may do, since overlapping verifications also overrun the cap of each code.
- RefreshPruning.PruningInvisibleIff: compares atomic calls; of interleaved ones it is only proved what a pruning does to a rotation in flight.
- RefreshProtocol.RunKeepsInvariant: takes the rotation's transaction as one atomic step, so it says nothing about what weaker isolation between the insert and the commit would let a concurrent revoke-all miss.
- Refresh requests that carry something other than a string, and the client side of a stolen token.
- Failing uploads of the credential store: a failed upload loses its pending value, and its error reaches the caller.
- Deletion of the stored credentials failing, and two processes sharing one store.
- AuthRuns.CacheIsInvisible: compares plain fields only; the `role` getter that a cached principal loses, and the guard that reads profile completion from it, are not part of this model.
- Lost updates between overlapping profile edits, which the cache does not influence.
- Dates inside cached principals, which become strings; the model holds every profile column as text.
- Pattern deletion in the cache, and the driver's connection handling.
- Objects other than plain records in case conversion, and integer-like keys, which JavaScript orders first.
- Image processing, upload validation, unique file names, the local storage provider, and deletion in batches.
- Whole-batch failures of the signing service while single signing works: `StorageUrls` takes each reply entry to be that of the single request.
- Pagination, byte sizes, single-field validators, city and area names, seeders and internationalisation scripts: single-field checks and text, with no state across calls.

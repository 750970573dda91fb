# Verification model of the login service

A Dafny model of the stateful core of the central login service: single sign-on sessions per realm,
back-channel logout, one-time codes and assurance levels, trusted handoff between applications,
throttles, signing-key rotation, and four small codecs and rewriters. Properties are stated for all
inputs, all runs and all interleavings, and proved with Dafny 4.11 (`dafny verify dfyconfig.toml`).

## How it is built

| file | component |
|---|---|
| `LogoutQueue.dfy`, `LogoutProtocol.dfy`, `LogoutAnswers.dfy`, `LogoutDrain.dfy`, `LogoutWorker.dfy` | the leased logout queue, its workers statement by statement, and the worker's wake-up loop |
| `GlobalSession.dfy`, `SessionRuns.dfy` | realm sessions: Redis hot copy over durable rows |
| `OidcStore.dfy`, `TokenIndex.dfy`, `LogoutRuns.dfy`, `LogoutEffects.dfy` | token storage, its grant index, and what a logout leaves behind, command by command |
| `OtpChallenge.dfy`, `Totp.dfy`, `Base32.dfy`, `Bits32.dfy`, `Numerals.dfy` | one-time codes |
| `Assurance.dfy`, `UpgradesOnce.dfy` | when a second factor is required, what results report, and that each proof is spent once |
| `HandoffPath.dfy`, `Handoff.dfy`, `HandoffTarget.dfy`, `HandoffRuns.dfy` | trusted handoff end to end |
| `Lockout.dfy`, `RateLimit.dfy` | throttles |
| `Keys.dfy`, `KeyLoading.dfy` | key commands, loader, metadata |
| `Views.dfy`, `HtmlText.dfy`, `PasswordCipher.dfy` | template renderer, legacy cipher |

Code that updates rows or Redis keys is a class whose methods are proved against functions on the
state; the state machines then interleave those same functions, one database statement, Redis command
or MULTI per step. The state machines are composed: assurance runs over sessions, one-time codes and
TOTP together, and the handoff over those. A run is a sequence of states and steps; an invariant is proved step by step and the
theorems are read off it.

## What is assumed

- Each SQL statement and each MULTI is atomic, and there is one monotone clock for the service, its
  databases and the target application. Redis deadlines are whole seconds.
- SHA-256, HMAC and signatures are injective and unforgeable on the values used; random identifiers,
  secrets and key bytes are parameters, fresh where the code relies on it. Identifiers are numbers.
- A logout worker records before its lease ends, or it has crashed (what `LEASE_SECONDS` is for).
- Public session methods are one atomic step at one clock reading. `deliver` signs at the reading of its
  assurance decision, and a target reads the clock once for expiry and replay check. A session is logged
  out once. `LogoutRuns` starts a logout when the session is revoked, and interleaves every later command.
- PostgreSQL's cast of elapsed seconds to an integer and Redis TTLs round to the nearest unit, halves up.
- Calls for one account in the lockout are taken one at a time; key commands run one at a time. The
  registered clients do not change during a handoff run, nor a member's TOTP secret during an assurance run.
- The member's OTP flag is an input of each request, as the request read it from the member's record.

## What the proofs found

- **Replay window.** The target's one-time map is enough exactly when the assertion lifetime is at most
  90 s (`HandoffTarget.ReplayIff`). The default is 60 s, but the configuration sets no upper bound.
- **Lockout waiting time.** The age of the last failure is rounded to the nearest second, so the reported
  waiting time can be too short by up to half a second (`Lockout.RoundingUpFallsShort`); `UnlockedIff`
  says exactly when it is enough, and one second more always is.
- **Grant lists.** `upsert` reads the list's TTL, and `revokeByGrantId` the list, before the MULTI that relies
  on it. Overlapping upserts of one grant can shorten the list (`TokenIndex.OverlappingUpserts`), a TTL read
  one second earlier can leave the list a second short (`TtlReadASecondAgo`), and a code exchanged during a
  revocation leaves an access token that no later revocation finds (`ExchangeDuringRevoke`).
  `UpsertKeepsIndexIff` and `RevokeKeepsIndexIff` are the exact conditions for one MULTI, and
  `LogoutRuns.TokensIndexedIff` the exact condition over a run.
- **Late clients.** A client that joins between the participant query and the job is marked PENDING and never
  told (`LogoutRuns.LateClientIsMissed`); `DeliveriesAreClients` says exactly when nobody is missed.
- **Lost wake-up.** If a pass fails, the `again` flag set meanwhile is dropped until the next timer tick
  (`LogoutWorker.FailureLosesWakeUp`, `WakeUpServedIff`).
- **NUL in values.** An escaped value, or a template, with NUL characters can imitate a placeholder; then
  inserted text is scanned again (`Views.NulValueIsRescanned`), although the code says it never is.
  `NeverRescannedIff` is the exact condition. Raw values, such as the page in the layout, may hold anything.
- **Colons in codes.** The text under the HMAC of a code joins its fields with colons, so a submitted code with
  a colon can have another owner's hash (`OtpChallenge.ColonShiftsFields`, `SameOwner`). It is harmless,
  because the code compares the owner before the hash.
- **Documentation.** The worker's comment lists 5xx, 408, 429, timeouts and network errors as retryable; the
  code also retries any other answer outside 2xx and 4xx, such as 3xx, and the model follows it. The cipher's comment says Windows-1252
  bytes 3..189 are supported; the self-check refuses 128..159, and so does the model.

## Model

| member | source | states |
|---|---|---|
| LogoutQueue.LogoutRepository.CreateJob | src/database/repositories/logout.repository.ts:28-43 | The job row, one delivery per distinct client and the PENDING marks appear together; with no client the job is COMPLETED at once and no participant changes. |
| LogoutQueue.LogoutRepository.ClaimDue | src/database/repositories/logout.repository.ts:46-74 | Claims a batch of due rows: each gets one more attempt and a lease, every other row stays, and each row is returned as it is after the update. |
| LogoutQueue.BatchExists | src/database/repositories/logout.repository.ts:48-54 | Whatever rows other claims hold locked, there is a result the claim query can return: due, unlocked, at most the limit, earliest first, and short only when nothing is left. |
| LogoutQueue.LogoutRepository.Record | src/database/repositories/logout.repository.ts:77-105 | The three statements in order; a RETRY stops after the first, a final outcome marks the participant and closes the job when no delivery is open. |
| LogoutQueue.Classify | src/modules/logout/logout-delivery.worker.ts:73-122 | RETRY exactly for a retryable answer with schedule left, DEAD exactly for a retryable answer without; the schedule index is in range. |
| LogoutQueue.LogoutRepository.Deliver | src/modules/logout/logout-delivery.worker.ts:73-137 | The row after each answer of the client: SUCCEEDED exactly for 2xx, FAILED exactly for an insecure endpoint or a 4xx other than 408 and 429, NO_ENDPOINT exactly without a URI, else RETRY after the schedule's delay or DEAD; the participant shows the final outcomes. |
| LogoutProtocol.StepKeeps | src/database/repositories/logout.repository.ts:46-105 | Every single statement of every worker, a crash, a join at any moment, a new job for the clients as they were read, and the clock keep the queue invariant. |
| LogoutProtocol.Reachable | src/database/repositories/logout.repository.ts:46-105 | The invariant holds in every state of every interleaving of any number of workers. |
| LogoutProtocol.FinishedForever | src/database/repositories/logout.repository.ts:77-104 | Rows are never lost, the jti of a delivery never changes, a terminal delivery and a closed job never change again. |
| LogoutProtocol.JobOutcome | src/database/repositories/logout.repository.ts:96-104 | A job that left PENDING has only SUCCEEDED, FAILED, NO_ENDPOINT and DEAD deliveries, and is COMPLETED_WITH_FAILURES exactly when one is FAILED or DEAD. |
| LogoutProtocol.JobOwed | src/database/repositories/logout.repository.ts:90-104 | If every delivery is terminal and the job is still PENDING, some recorder has not run its job update, or crashed before it. |
| LogoutProtocol.QuietMeansClosed | src/database/repositories/logout.repository.ts:90-104 | With no recorder left half way, the job is closed and every participant row shows the outcome of its delivery. |
| LogoutProtocol.ClaimsBounded | src/modules/logout/logout-delivery.worker.ts:117-121 | A delivery is claimed at most schedule length plus crashed claims times; DEAD means the schedule was used up. |
| LogoutProtocol.AlwaysRetryable | src/modules/logout/logout-delivery.worker.ts:108-121 | An endpoint that always fails retryably ends DEAD and nothing else; without crashes after exactly schedule-length recorded attempts. |
| LogoutDrain.DrainWork | src/modules/logout/logout-delivery.worker.ts:59-65 | Remaining attempts are a measure: over a span with no new job they fall by every claim and every recorded outcome, up to one per crash. |
| LogoutDrain.DrainEnds | src/modules/logout/logout-delivery.worker.ts:59-65 | With no new job, claims and recorded outcomes number at most two per delivery and schedule entry, plus one per crash: the drain ends. |
| LogoutAnswers.AnswerDecides | src/modules/logout/logout-delivery.worker.ts:73-122 | Over every run a delivery is SUCCEEDED if and only if some answer to it was 2xx, FAILED if and only if the endpoint was insecure or some answer a 4xx other than 408 and 429, and NO_ENDPOINT if and only if it had no URI. |
| LogoutAnswers.RetryWaits | src/modules/logout/logout-delivery.worker.ts:117-120 | A RETRY row goes back to an answer that was none of these with schedule left, and unless claimed since is due at its recording time plus 1000 times the entry of the schedule. |
| LogoutAnswers.RetriedNoEarlier | src/database/repositories/logout.repository.ts:48-62 | A delivery is claimed again no earlier than that. |
| LogoutAnswers.AnswerIsShown | src/database/repositories/logout.repository.ts:90-95 | Once its recorder wrote it, the participant of a 2xx delivery shows SUCCEEDED, of one without URI NO_ENDPOINT, and of any other finished one FAILED. |
| LogoutWorker.LogoutDeliveryWorker.Tick | src/modules/logout/logout-delivery.worker.ts:53-62 | A call that finds a pass running only sets the flag; otherwise it starts one and calls claimDue. |
| LogoutWorker.LogoutDeliveryWorker.Delivered | src/modules/logout/logout-delivery.worker.ts:63-65 | After the batch: another claimDue exactly when the batch was full or a call came meanwhile; otherwise the worker is idle. |
| LogoutWorker.LogoutDeliveryWorker.Rejected | src/modules/logout/logout-delivery.worker.ts:66-70 | A rejected await ends the pass, releases the worker and leaves the flag alone. |
| LogoutWorker.OneDrainLoop | src/modules/logout/logout-delivery.worker.ts:53-71 | In every interleaving at the awaits exactly one drain loop is active while the worker is running, and none otherwise. |
| LogoutWorker.PassBegins | src/modules/logout/logout-delivery.worker.ts:53-62 | A call that finds the worker idle starts the only pass with the flag down, any other only raises the flag. |
| LogoutWorker.WakeUpNotLost | src/modules/logout/logout-delivery.worker.ts:53-71 | Without failures every tick() gets a claimDue that starts at or after the call, before the worker is idle again. |
| LogoutWorker.WakeUpServedIff | src/modules/logout/logout-delivery.worker.ts:53-71 | A call that found a pass running is served by that pass if and only if the pass ends by itself instead of failing. |
| LogoutWorker.FullBatchGoesOn | src/modules/logout/logout-delivery.worker.ts:59-65 | A pass claims again if and only if it had claimed 20 rows or tick() was called meanwhile; otherwise the worker is idle. |
| LogoutWorker.FailureLosesWakeUp | src/modules/logout/logout-delivery.worker.ts:66-70 | A concrete run: a second tick, then a failing claim; the worker is idle and nothing was claimed for the second call. |
| GlobalSession.GlobalSessionService.Fetch | src/modules/sessions/global-session.service.ts:139-171 | load: returns what the hot copy or else the ACTIVE row gives within both expiries, and rebuilds a missing hot copy. |
| GlobalSession.GlobalSessionService.WriteHotCopy | src/modules/sessions/global-session.service.ts:177-181 | The hot copy lives whole seconds up to the earlier expiry; a session already over is not written. |
| GlobalSession.GlobalSessionService.CreateSession | src/modules/sessions/global-session.service.ts:57-88 | A new AAL1 session with its row and hot copy, both expiries set from one clock reading. |
| GlobalSession.GlobalSessionService.TouchSession | src/modules/sessions/global-session.service.ts:91-99 | Slides the idle expiry in row and hot copy, never past the absolute expiry; nothing without a session. |
| GlobalSession.GlobalSessionService.UpgradeToAal2 | src/modules/sessions/global-session.service.ts:105-123 | Refused when the cookie no longer loads that session; otherwise AAL2, method and time, a new secret hash, and the old hot copy gone. |
| GlobalSession.GlobalSessionService.RevokeSession | src/modules/sessions/global-session.service.ts:129-137 | Returns the session that was ended; its hot copy is gone and its row no longer ACTIVE. |
| SessionRuns.HotCopyRefinesRow | src/modules/sessions/global-session.service.ts:139-171 | In every reachable state, with any hot keys lost at any time, load returns exactly what a load using only auth_sessions returns. |
| SessionRuns.OneSecret | src/modules/sessions/global-session.service.ts:105-123 | Two secrets that both load the same session are equal and of the same realm: at most one accepted secret per session. |
| SessionRuns.AbsoluteExpiry | src/modules/sessions/global-session.service.ts:57-72 | Whatever loads was created by an earlier create of the same sid, realm and member, less than SESSION_ABSOLUTE_TTL_SECONDS ago on the clock, whatever slid in between. |
| SessionRuns.IdleExpiry | src/modules/sessions/global-session.service.ts:91-99 | Whatever loads was created or touched less than SESSION_IDLE_TTL_SECONDS ago on the clock. |
| SessionRuns.LoadsUntilIdle | src/modules/sessions/global-session.service.ts:57-88 | A session that is not touched, upgraded or revoked loads by its secret until the shorter of the two lifetimes after its creation, at AAL1 and for its member, and not from then on. |
| SessionRuns.LoadsIff | src/modules/sessions/global-session.service.ts:139-171 | A cookie loads if and only if an ACTIVE row of the realm has its secret and neither expiry has come. |
| SessionRuns.OperationsCache | src/modules/sessions/global-session.service.ts:166-181 | What a load returns and what create makes is in the hot copy afterwards. |
| SessionRuns.EndCloses | src/modules/sessions/global-session.service.ts:129-137 | Revoke removes the hot copy and takes the row out of ACTIVE. |
| SessionRuns.StartedBy | src/modules/sessions/global-session.service.ts:57-84 | Every session row goes back to the create that drew its sid: its member, realm and time of authentication are those of that step. |
| SessionRuns.DeadForEver | src/modules/sessions/global-session.service.ts:105-171 | An issued secret that does not load any more (rotated, revoked, idle or absolutely expired) never loads again. |
| SessionRuns.RealmsIsolated | src/modules/sessions/global-session.service.ts:139-175 | An operation in one realm changes no load result of the other realm. |
| SessionRuns.StartLoads | src/modules/sessions/global-session.service.ts:57-88 | The issued secret loads the new AAL1 session with its member, realm, time of authentication and the two expiries, counted from this reading. |
| SessionRuns.StepUpRotates | src/modules/sessions/global-session.service.ts:105-123 | When the cookie still loads that session, the old secret loads nothing and the new one the same session with AAL2, pwd and otp, method and time of this step; otherwise the new secret loads nothing and the cookie what it loaded before. |
| SessionRuns.EndKills | src/modules/sessions/global-session.service.ts:129-137 | After revoke the secret loads nothing. |
| SessionRuns.SlideSlides | src/modules/sessions/global-session.service.ts:91-99 | After touch the session loads with the idle expiry moved to now plus the idle time, capped by the absolute expiry, and is otherwise unchanged. |
| SessionRuns.StepKeeps | src/database/repositories/session.repository.ts:23-62 | Every session operation, clock tick and loss of hot keys keeps rows and hot copies consistent. |
| SessionRuns.Reachable | src/database/repositories/session.repository.ts:23-62 | The consistency of rows, hot copies and issued secrets holds in every reachable state. |
| OidcStore.OidcRedis.UpsertArtifact | src/modules/oidc/oidc-redis.adapter.ts:18-44 | An upsert that nothing interrupts: the artifact with its TTL and, for a grantable one, its place on the grant list, whose expiry is raised when the new token outlives it. |
| OidcStore.OidcRedis.PushToList | src/modules/oidc/oidc-redis.adapter.ts:29-34 | For any TTL read before: the list gets the key at its end, and its expiry becomes the token's exactly when that is longer than the TTL read. |
| OidcStore.OidcRedis.FindArtifact | src/modules/oidc/oidc-redis.adapter.ts:46-55 | Finds the payload exactly while the artifact has not expired. |
| OidcStore.OidcRedis.ReadList | src/modules/oidc/oidc-redis.adapter.ts:73-73 | The keys on the grant's list, none when it is missing or expired. |
| OidcStore.OidcRedis.DeleteTokens | src/modules/oidc/oidc-redis.adapter.ts:72-76 | For any keys read before: deletes exactly those keys, and the list as it is now with whatever was pushed since. |
| OidcStore.OidcRedis.RevokeByGrantId | src/modules/oidc/oidc-redis.adapter.ts:71-77 | Both commands with nothing between them: every listed key and the list are gone, and nothing else. |
| OidcStore.OidcRedis.RevokeGrants | src/modules/logout/logout.service.ts:146-161 | With nothing between its commands, the loop over the session's grants removes exactly the listed artifacts, the grants, their contexts and the set; returns their number. |
| OidcStore.StoredIsFound | src/modules/oidc/oidc-redis.adapter.ts:18-55 | Any stored artifact is found with its payload exactly until its TTL ends, unconsumed, and no other key is affected. |
| OidcStore.StoredIsListed | src/modules/oidc/oidc-redis.adapter.ts:24-44 | A token of a grant goes to the end of its list, and nothing else to any list. |
| OidcStore.RevokedIsGone | src/modules/oidc/oidc-redis.adapter.ts:71-77 | The MULTI takes away exactly the keys it was given and the list. |
| OidcStore.AllRevoked | src/modules/logout/logout.service.ts:146-161 | After the revocation no listed token and no Grant of the session is found, lists, contexts and the set are gone, and everything else is as before. |
| OidcStore.FinishedIsJoined | src/modules/oidc/interaction.service.ts:212-215 | A finished grant is in its session set, with its context, until the set expires. |
| TokenIndex.UpsertKeepsIndexIff | src/modules/oidc/oidc-redis.adapter.ts:29-34 | Whatever TTL was read before the MULTI: the grant's index survives if and only if the list's expiry after it still covers the new token and every live token of the grant. |
| TokenIndex.OverlappingUpserts | src/modules/oidc/oidc-redis.adapter.ts:31-33 | A concrete overlap: two upserts of one grant that both read the TTL first leave the longer-lived access token findable after the grant was revoked. |
| TokenIndex.TtlReadASecondAgo | src/modules/oidc/oidc-redis.adapter.ts:32-33 | A concrete upsert whose TTL read is one second old: the new token outlives the list by that second. |
| TokenIndex.RevokeKeepsIndexIff | src/modules/oidc/oidc-redis.adapter.ts:71-77 | Whatever list was read before the MULTI: no live token of the grant is left, and its index survives, if and only if every token live at the MULTI was on the list as read. |
| TokenIndex.ExchangeDuringRevoke | src/modules/oidc/oidc-redis.adapter.ts:73-76 | A concrete race: a code is exchanged between LRANGE and MULTI; the access token lives on without a list and a second revocation misses it. |
| LogoutRuns.LogoutService.EndSession | src/modules/logout/logout.service.ts:128-143 | With nothing in between: grants revoked first, then one job with one delivery per client that joined. |
| LogoutRuns.TokensIndexedIff | src/modules/oidc/oidc-redis.adapter.ts:18-77 | Over every interleaving of Redis commands, for each grant: every live token is on the grant's list, which expires no earlier, in all states so far if and only if every upsert and revocation MULTI on that grant fitted what it found. |
| LogoutRuns.FreshReadsFit | src/modules/oidc/oidc-redis.adapter.ts:18-77 | Every MULTI fits as long as what it read before, the TTL or the list, is still so when it runs. |
| LogoutRuns.StepKeeps | src/modules/logout/logout.service.ts:128-161 | Every single command of finish, endSession, upsert and revocation, failures, crashes and time keep the session's grant set alive long enough and every grant of a logout accounted for. |
| LogoutRuns.Reachable | src/modules/oidc/interaction.service.ts:209-215 | That holds in every reachable state. |
| LogoutRuns.LogoutIsComplete | src/modules/logout/logout.service.ts:128-161 | Once a logout is done with its grants: every grant finished in the session by the time it read the set, and not failed on, had its tokens deleted; if its MULTIs fitted, any live token of it was stored after that, and the Grant itself is found only if stored again after the read. |
| LogoutRuns.OnlyLaterTokens | src/modules/oidc/oidc-redis.adapter.ts:71-77 | After a fitting deletion of a grant's tokens, every live token of the grant was stored later, at a step of the run. |
| LogoutRuns.DeliveriesAreClients | src/modules/logout/logout.service.ts:130-131 | The job tells exactly the clients joined when they were read; it tells all joined clients if and only if none joined between the read and the job. |
| LogoutRuns.LateClientIsMissed | src/modules/logout/logout.service.ts:130-131 | A concrete client that joins in between: marked PENDING by the job and never told. |
| LogoutEffects.FinishDoes | src/modules/oidc/interaction.service.ts:212-216 | The three statements of finish write the context of the grant, put it in the set of the session beside those already there, with a new expiry, and make the client a participant. |
| LogoutEffects.EndDoes | src/modules/logout/logout.service.ts:129-160 | What each command of endSession reads, deletes and goes on to, in the order of the code. |
| LogoutEffects.ContextForgotten | src/modules/logout/logout.service.ts:148-158 | A logout that is through with a grant removed its context, even when the revocation failed. |
| LogoutEffects.SetForgotten | src/modules/logout/logout.service.ts:159 | Before it reads the participants a logout removed the set of grants of the session. |
| OtpChallenge.OtpChallengeRepository.SpendAttempt | src/database/repositories/mfa.repository.ts:81-92 | One attempt is spent exactly when the challenge is unconsumed, unexpired and has attempts left; the number returned is the new count. |
| OtpChallenge.OtpChallengeRepository.ConsumeChallenge | src/database/repositories/mfa.repository.ts:95-103 | Only the first caller consumes; later ones change nothing and are told so. |
| OtpChallenge.OtpChallengeRepository.VerifyOtp | src/modules/mfa/mfa.service.ts:173-190 | Each verdict with its exact condition, what is spent and consumed with it, and nothing touched for somebody else's challenge. |
| OtpChallenge.SameCode | src/modules/mfa/mfa.service.ts:207-209 | For one member, session and interaction, equal code hashes mean equal codes. |
| OtpChallenge.SameOwner | src/modules/mfa/mfa.service.ts:207-209 | For an issued code and a submitted one with the same hash: same code, member, session and interaction if and only if the submitted code has no colon. |
| OtpChallenge.ColonShiftsFields | src/modules/mfa/mfa.service.ts:207-209 | A concrete submitted code with a colon that has the hash of a code issued to another owner. |
| OtpChallenge.OneWinnerKept | src/modules/mfa/mfa.service.ts:173-190 | No step lets a second verification of one challenge succeed. |
| OtpChallenge.AttemptsBounded | src/modules/mfa/mfa.service.ts:173-190 | However many verifications run interleaved, at most maxAttempts codes are compared and at most one verification succeeds. |
| OtpChallenge.SuccessWasEarned | src/modules/mfa/mfa.service.ts:173-190 | Every success spent its attempt before expiresAt, on an unconsumed challenge with attempts left, of the same owner and code hash, under any interleaving. |
| OtpChallenge.SuccessHadTheCode | src/modules/mfa/mfa.service.ts:103-190 | Every success submitted the very code that was issued to that member, session and interaction, less than the lifetime of the code after it was issued. |
| OtpChallenge.StepVerdicts | src/modules/mfa/mfa.service.ts:173-190 | What each statement of a verification answers, with the remaining attempts, while others run. |
| OtpChallenge.Reachable | src/database/repositories/mfa.repository.ts:77-103 | The bookkeeping behind both holds in every interleaving. |
| Totp.HotpIsSixDigits | src/modules/mfa/totp.ts:40-47 | Always exactly six digits, and their number is the 31-bit truncation modulo 10^6 (section 5.3 of RFC 4226). |
| Totp.BinaryIsTruncated | src/modules/mfa/totp.ts:44-45 | The 32-bit shifts and ors compute the big-endian 31-bit number at the dynamic offset. |
| Totp.TruncatedBytes | src/modules/mfa/totp.ts:43-46 | The number of a code from the four bytes at the offset in the low half of the last byte. |
| Totp.VerifyTotp | src/modules/mfa/totp.ts:53-62 | Malformed codes are refused before the secret is read. Otherwise the result is the earliest 30-second step at most one step from the clock whose six-digit code this is, or none; a code of the current step is always found. |
| Totp.MatchAround | src/modules/mfa/totp.ts:57-61 | The loop over the window finds the first matching step and misses none. |
| Totp.MfaFactorRepository.AcceptTotpStep | src/database/repositories/mfa.repository.ts:33-41 | Accepted exactly when newer than the last accepted step, which it then replaces. |
| Totp.AcceptedSteps | src/modules/mfa/mfa.service.ts:192-204 | Under any interleaving of verifiers the accepted steps of a factor strictly increase, each from 30 s before its step began to 60 s after, and the code submitted for it is the code of that step under the factor's secret. |
| Totp.AcceptedAtMost | src/modules/mfa/mfa.service.ts:192-204 | Checks made between t0 and t1 milliseconds are accepted at most t1/30000 - t0/30000 + 3 times (section 5.2 of RFC 6238). |
| Base32.Base32Encode | src/modules/mfa/totp.ts:23-37 | With wrap-around at 32 bits: the quintets written are the bits of the input, zero-padded to a multiple of five (section 6 of RFC 4648); the length is ceil(8n/5). |
| Base32.Base32Decode | src/modules/mfa/totp.ts:5-21 | Fails exactly on a character outside the alphabet; the bytes are the quintets' bits, with fewer than eight left over. |
| Base32.EncodeThenDecode | src/modules/mfa/totp.ts:5-37 | Decoding an encoding gives back every byte sequence, and the encoded length is ceil(8n/5). |
| Base32.CleanReads | src/modules/mfa/totp.ts:5-6 | Case, white space and equals signs at the end do not matter to the decoder. |
| Base32.LetterTable | src/modules/mfa/totp.ts:3-3 | The letter of every five-bit value. |
| Base32.RoundTrip | src/modules/mfa/totp.ts:5-37 | Quintets that encode a byte sequence decode to that sequence only. |
| Assurance.EffectiveMaxAge | src/modules/mfa/mfa.service.ts:67-70 | Never longer than the platform cap nor than a positive requested age, and always one of the two. |
| Assurance.StepKeeps | src/modules/oidc/interaction.service.ts:128-229 | Every session operation, step of a one-time code or TOTP verification, upgrade, refused upgrade, request and clock tick keeps: an AAL2 row goes back to an upgrade with a proof of that session and interaction, and every report is honest. |
| Assurance.AssuranceSound | src/modules/oidc/interaction.service.ts:128-229 | Over every run of sessions, one-time codes and TOTP together: when AAL2 was required the result reports it, and every reported AAL2 follows an upgrade of that sid and member within the cap, and within the requested age when required, which rests on a one-time code or TOTP code verified for that member, session and interaction. |
| Assurance.RequiredIsReported | src/modules/oidc/interaction.service.ts:175-176 | Over every run a result reports AAL2 whenever the policy asks everybody for it, acr_values name it, the client default names it and there are no acr_values, or the honoured flag of the member is set. |
| Assurance.ReportedAtOnce | src/modules/oidc/interaction.service.ts:174-194 | A request with a session is answered at once if and only if AAL2 is not required or the session was upgraded within the age asked for and the cap; the answer is AAL2 exactly when it was within the cap. |
| Assurance.RaiseOutcome | src/modules/oidc/interaction.service.ts:128-143 | After a verification AAL2 is reported exactly when the cookie still loads the verified session. |
| Assurance.RaiseMethod | src/modules/oidc/interaction.service.ts:140 | The upgraded row records by which method the second factor was verified. |
| Assurance.VerifiedWithinAge | src/modules/mfa/mfa.service.ts:67-75 | With one clock reading per request, the verification of that very session, by one-time code or TOTP, is within the cap and the requested age. |
| Assurance.ProofNamesSession | src/modules/mfa/mfa.service.ts:173-204 | One proof, by one-time code or TOTP, is of one member, session, interaction and moment only. |
| Assurance.ProofWasEarned | src/modules/mfa/mfa.service.ts:173-190 | A proof by one-time code comes from an attempt spent before expiry while unconsumed with attempts left, and from the very code issued to the same member, session and interaction less than its lifetime before. |
| Assurance.TotpProofWasEarned | src/modules/mfa/mfa.service.ts:192-204 | A proof by TOTP comes from a request of the same member, session and interaction whose code is the six-digit code of the step under the member's secret, the first in the window at that clock reading; the step was accepted in a run of the TOTP protocol. |
| Assurance.MfaBegan | src/modules/oidc/interaction.service.ts:128-143 | Every verification under way goes back to a request that loaded that very session and submitted that very code. |
| UpgradesOnce.OneUpgradePerProof | src/modules/mfa/mfa.service.ts:173-204 | Over every run, however many requests submit one code at once: no challenge, and no time step of a member, supports two upgrades. |
| Views.EscapeInjective | src/modules/views/view.service.ts:8-12 | Different texts have different escapes. |
| Views.EscapedIsInert | src/modules/views/view.service.ts:8-12 | An escaped text holds no raw <, >, quote or backtick. |
| HtmlText.EscapeReadsBack | src/modules/views/view.service.ts:8-12 | Read as HTML, an escaped value is the value: every special character has its own reference. |
| HtmlText.TagIff | src/modules/views/view.service.ts:46-56 | A tag stands exactly where its braces enclose a word of letters, digits and underscores. |
| HtmlText.ShowIs | src/modules/views/view.service.ts:54-55 | A text prints as itself, a number in decimal without leading zeros, a flag as true or false, and a missing value as nothing. |
| HtmlText.SectionKept | src/modules/views/view.service.ts:46-49 | A section is kept exactly when its value is set and not empty, zero or false, an inverted one otherwise. |
| HtmlText.TagsMean | src/modules/views/view.service.ts:53-56 | A raw tag means the value and an escaped tag the escaped value. |
| HtmlText.PlainStays | src/modules/views/view.service.ts:45-57 | Text without braces stays as it is. |
| Views.ReplaceRaw | src/modules/views/view.service.ts:52-54 | The second replace with its growing array is the recursive pass: each placeholder carries the index of the value pushed for it. |
| Views.Fill | src/modules/views/view.service.ts:45-57 | The chained replaces compute the composition of the four passes. |
| Views.SectionMeaning | src/modules/views/view.service.ts:46-49 | A block is kept exactly when its flag is truthy (or falsy for the inverted form), up to its first closing tag. |
| Views.IndexOfIsFirst | src/modules/views/view.service.ts:46-46 | The lazy body ends at the first closing tag. |
| Views.PassesMark | src/modules/views/view.service.ts:50-55 | For every template and data: after three passes the page is the stretches between raw tags, escaped values put in, with numbered marks between them; one reading of the template gives the same stretches with the raw values. |
| Views.StrayIff | src/modules/views/view.service.ts:56-56 | The last pass finds a mark that begins in a stretch exactly when the stretch contains NUL digits NUL, or ends in NUL digits before a raw tag. |
| Views.NeverRescannedIff | src/modules/views/view.service.ts:50-56 | For every template and data: whatever the raw values are, each lands in its place and nothing inserted is scanned again, if and only if no stretch contains NUL digits NUL and none before a raw tag ends in NUL digits. |
| Views.FourPassesAreOne | src/modules/views/view.service.ts:45-57 | Under that condition the four passes equal one left-to-right interpretation of the section-resolved template. |
| Views.NulFreeIsOnePass | src/modules/views/view.service.ts:45-57 | In particular for templates and escaped values without NUL; raw values may be any text. |
| Views.NoIndexOutOfRange | src/modules/views/view.service.ts:52-56 | Under that condition every placeholder index is in range: what an out-of-range one would give makes no difference. |
| Views.NulValueIsRescanned | src/modules/views/view.service.ts:50-56 | A concrete escaped value with NUL characters that is scanned again. |
| Views.RenderIsOnePass | src/modules/views/view.service.ts:30-34 | A page filled and then inserted raw into the layout equals two interpretations, under the condition for both; the page itself may hold any text. |
| HandoffPath.DecodeOfEscaped | src/modules/handoff/handoff-path.ts:27-32 | Percent-decoding gives back every text whose characters were escaped in UTF-8. |
| HandoffPath.DecodeIff | src/modules/handoff/handoff-path.ts:27-32 | Decoding succeeds exactly on texts that write some text with percent escapes of its UTF-8 bytes, in either case of digits, and gives that text. |
| HandoffPath.Normalize | src/modules/handoff/handoff-path.ts:16-40 | Null, or the input itself, or the input without one trailing question mark. |
| HandoffPath.NormalizeDropsOnlyBareMark | src/modules/handoff/handoff-path.ts:24-39 | An accepted input is changed exactly when it ends at its first question mark. |
| HandoffPath.NormalizeIsIdempotent | src/modules/handoff/handoff-path.ts:16-40 | Normalizing an accepted result changes nothing. |
| HandoffPath.FixedPointIffNoDots | src/modules/handoff/handoff-path.ts:33-37 | A path that starts with a slash is unchanged by remove_dot_segments (section 5.2.4 of RFC 3986) exactly when no segment is . or .. |
| HandoffPath.AcceptedIsResolved | src/modules/handoff/handoff-path.ts:16-40 | For an accepted path, the raw path part and its decoding start with one slash, are fixed points of remove_dot_segments and do not begin with a URL scheme. |
| HandoffPath.AcceptedIff | src/modules/handoff/handoff-path.ts:16-40 | Accepted if and only if 1 to 512 characters of the allowed set start with exactly one slash, and the part before the question mark decodes to a text with exactly one leading slash, no control character or backslash, unchanged by remove_dot_segments and not read as a URL with a scheme. |
| HandoffPath.PlainSegmentSurvives | src/modules/handoff/handoff-path.ts:27-36 | A segment written without escapes is still a segment after decoding. |
| HandoffPath.AllowedIsCovered | src/modules/handoff/handoff-path.ts:43-51 | For paths and patterns that start with a slash: allowed exactly when the path part is some pattern with each * segment replaced by a non-empty slash-free text. |
| Handoff.HandoffRepository.FindPending | src/database/repositories/handoff.repository.ts:33-41 | Returns exactly an open request; a PENDING one past its expiry is marked EXPIRED on the way. |
| Handoff.HandoffRepository.Complete | src/database/repositories/handoff.repository.ts:44-52 | Wins exactly on an open request and then binds member, session and jti to it. |
| Handoff.HandoffRepository.Cancel | src/database/repositories/handoff.repository.ts:54-56 | Cancels a PENDING request and leaves any other alone. |
| Handoff.HandoffService.CreateRequest | src/modules/handoff/handoff.service.ts:69-114 | A row is stored exactly when every check passes; otherwise the rejection is that of the first failing check and nothing is stored. |
| Handoff.NewRequestIsSound | src/modules/handoff/handoff.service.ts:78-102 | A stored request is PENDING for its lifetime from now and joins two different clients of one realm and environment, the source active and outbound, the target active, inbound and with a callback, on a normalized path of the target's allowlist. |
| Handoff.HandoffService.Deliver | src/modules/handoff/handoff.service.ts:209-257 | The assertion leaves exactly when signing worked and this call completed the open request; only then the target joins the session. |
| HandoffTarget.TargetApp.Prune | scripts/test-console.ts:393-394 | The loop removes exactly the entries older than the window. |
| HandoffTarget.TargetApp.VerifyHandoff | scripts/test-console.ts:357-403 | Accepted exactly when every check passes and the jti is not remembered; the map after the call, also when the path is refused after the jti was stored. |
| HandoffTarget.StillKnown | scripts/test-console.ts:393-396 | What the map knows about a jti after one call it still knows after every later one, until more than the window has passed. |
| HandoffTarget.TwiceNeedsLongLife | scripts/test-console.ts:374-396 | Two acceptances of one assertion need a lifetime plus tolerance above the replay window. |
| HandoffTarget.ReplayIff | scripts/test-console.ts:374-396 | Some presentation schedule makes the target accept one assertion twice if and only if lifetime + 30 s exceeds 120 s. |
| HandoffRuns.StepKeeps | src/modules/handoff/handoff.service.ts:209-257 | Every statement of every browser, cancel, expiry, failure and the clock keep rows, flights and released assertions consistent. |
| HandoffRuns.ReleasedOnce | src/modules/handoff/handoff.service.ts:209-257 | At most one assertion is released per request, under any interleaving. |
| HandoffRuns.ReleasedIsBound | src/modules/handoff/handoff.service.ts:217-256 | A released assertion has the sub, sid and jti of its completed row, completed in time; its target already takes part in the session; its path passes normalization and the target's allowlist. |
| HandoffRuns.ReleasedInTime | src/modules/handoff/handoff.service.ts:97-103 | A released assertion completed its request less than the request lifetime after it was created, between clients that may hand off and receive, and lives the assertion lifetime from its signing. |
| HandoffRuns.ReleasedIsAssured | src/modules/handoff/handoff.service.ts:193-234 | A released assertion says what its own delivery reported when it was signed: AAL2 whenever the policy, the default of its target or the member's flag as read for it requires AAL2, and AAL2 only within the cap of an upgrade of that session that rests on a code verified for that member and session. |
| HandoffRuns.ClosedForEver | src/database/repositories/handoff.repository.ts:33-56 | A request that left PENDING never changes again. |
| HandoffRuns.AcceptedOnce | scripts/test-console.ts:357-403 | End to end: with lifetime + 30 s at most 120 s, the target accepts at most one presentation per request, however often it is presented. |
| Lockout.CredentialService.RecentFailures | src/database/repositories/login-attempt.repository.ts:30-53 | The count of wrong passwords of this account inside the window and after every success, and the seconds since the latest, rounded. |
| Lockout.CredentialService.VerifyPassword | src/modules/identity/credential.service.ts:65-103 | Locked exactly while that many wrong passwords count; otherwise welcome exactly with the non-empty stored password, allowed and eligible; a wrong password is written as such. Verdicts and rows of every case. |
| Lockout.Outcome | src/modules/identity/credential.service.ts:65-103 | A wrong password is written only while the account is not locked. |
| Lockout.WrongPasswordsBounded | src/modules/identity/credential.service.ts:83-93 | In any span of LOGIN_ACCOUNT_LOCK_SECONDS without a success an account collects at most LOGIN_MAX_FAILURES_PER_ACCOUNT wrong passwords. |
| Lockout.WrongRowsBounded | src/modules/identity/credential.service.ts:75-98 | The same bound on the rows themselves. |
| Lockout.LockIsLiteral | src/modules/identity/credential.service.ts:125-131 | Locked exactly while enough wrong passwords are younger than the lock and every success, for the lock less the rounded seconds since the latest of them, at least one second. |
| Lockout.UnlockedIff | src/modules/identity/credential.service.ts:126-131 | Waiting exactly the reported time unlocks if and only if the elapsed time was not rounded up, or fewer than the limit are younger than what it was rounded to. |
| Lockout.RoundingUpFallsShort | src/database/repositories/login-attempt.repository.ts:41-42 | A concrete log: one failure 0.6 s ago, and after the reported 899 s the account is still locked. |
| Lockout.OneMoreSecondUnlocks | src/modules/identity/credential.service.ts:126-131 | One second more than reported always unlocks, with anything but a wrong password written meanwhile. |
| RateLimit.RateLimitService.Hit | src/modules/security/rate-limit.service.ts:16-26 | Allowed exactly up to the limit within the key's life; the key always ends up with an expiry; a refused caller who waits misses the end of the window by at most half a second. |
| RateLimit.WindowBounded | src/modules/security/rate-limit.service.ts:16-26 | At most limit hits pass per window, with MULTI and EXPIRE of different calls interleaved and calls that die between them. |
| RateLimit.SpanBounded | src/modules/security/rate-limit.service.ts:16-26 | At most twice the limit pass in any half-open span of windowSeconds. |
| RateLimit.FirstHitsPass | src/modules/security/rate-limit.service.ts:16-26 | A hit passes if and only if fewer than the limit came before it in its window, which began with the first hit after the last one ended. |
| RateLimit.WindowEnd | src/modules/security/rate-limit.service.ts:16-26 | A window with an end ends exactly windowSeconds after an EXPIRE made while it was open. |
| RateLimit.RateLimitService.Cooldown | src/modules/security/rate-limit.service.ts:29-35 | Zero exactly when no cooldown runs, and then one starts; otherwise the time left is reported at most half a second too long, and at least one second. |
| RateLimit.GrantsApart | src/modules/security/rate-limit.service.ts:28-35 | In any sequence of calls, two that may go on are at least the cooldown apart. |
| RateLimit.GrantedIff | src/modules/security/rate-limit.service.ts:28-36 | A call may go on if and only if no call that went on is less than the cooldown ago. |
| RateLimit.StepKeeps | src/modules/security/rate-limit.service.ts:16-26 | Windows begin at least windowSeconds apart and no window passes more than its counter. |
| Keys.KeyStore.Execute | scripts/keys.ts:156-208 | Each command makes exactly its planned writes, or reports why not and changes nothing. |
| Keys.KeyStore.Demote | scripts/keys.ts:176-176 | The loop turns every listed ACTIVE key to RETIRING. |
| Keys.KeyStore.ActivateKey | scripts/keys.ts:173-180 | Only a NEXT, unrevoked key is activated, after the ACTIVE ones were demoted. |
| Keys.KeyStore.RevokeKey | scripts/keys.ts:188-205 | The key is RETIRED and revoked; if it was ACTIVE, the first NEXT key is promoted or a new one created. |
| Keys.CommandKeeps | scripts/keys.ts:165-208 | After any number of a command's writes: distinct kids, at most one ACTIVE, revoked implies RETIRED, and no status went back. |
| Keys.NeverTwoActive | scripts/keys.ts:156-208 | From an empty store, with crashes anywhere, there are never two ACTIVE keys at any write, and revoked keys are RETIRED. |
| Keys.RankNeverGoesBack | scripts/keys.ts:156-208 | A key's status only moves NEXT, ACTIVE, RETIRING, RETIRED, and a revocation is never undone. |
| Keys.OneActiveAfterWholeCommands | scripts/keys.ts:156-208 | Without crashes there is no key at all or exactly one ACTIVE key after every command. |
| Keys.RefusedIff | scripts/keys.ts:168-207 | Refused exactly for an unknown kid, an activation of a key that is not an unrevoked NEXT one, and a retirement of one that is not RETIRING. |
| Keys.GenerateAdds | scripts/keys.ts:168-172 | A new key is NEXT beside an unrevoked ACTIVE one and ACTIVE otherwise. |
| Keys.ActivateActivates | scripts/keys.ts:173-180 | The named key becomes ACTIVE, the one that was ACTIVE RETIRING, and no other key changes. |
| Keys.RetireRetires | scripts/keys.ts:181-187 | The named key becomes RETIRED and no other changes. |
| Keys.RevokeRevokes | scripts/keys.ts:188-203 | The named key becomes RETIRED and revoked; if it was ACTIVE the first unrevoked NEXT key, or a new one, takes its place; no other key changes. |
| KeyLoading.SortOk | src/modules/keys/signing-key.service.ts:57-57 | The sort keeps every key as often as it was there and orders them ACTIVE, NEXT, RETIRING. |
| KeyLoading.SortIsStable | src/modules/keys/signing-key.service.ts:57-57 | Keys of one status keep the order of the store. |
| KeyLoading.LoadsActiveFirst | src/modules/keys/signing-key.service.ts:54-100 | For every store the commands can reach, loading succeeds exactly when one key is ACTIVE; that key is first, and what is loaded is exactly what is neither RETIRED nor revoked. |
| KeyLoading.RetiringLast | src/modules/keys/signing-key.service.ts:57-60 | Of the loaded keys the RETIRING ones come last. |
| KeyLoading.SigningKeyService.LoadForProvider | src/modules/keys/signing-key.service.ts:50-100 | The first loaded key signs and all loaded keys are published; a refused store changes nothing. |
| KeyLoading.SigningKeyService.SignJws | src/modules/keys/signing-key.service.ts:111-117 | Signs with the first published key, and fails exactly when no keys are loaded. |
| KeyLoading.SignerStaysPublished | src/modules/keys/signing-key.service.ts:20-34 | A key a service signed with is published in every later store until it is retired or revoked by name. |
| KeyLoading.LeavesByCommand | scripts/keys.ts:181-205 | No command, whole or cut short, takes out of the JWKS a key it does not name for retiring or revoking. |
| KeyLoading.GoneStaysGone | src/modules/keys/signing-key.service.ts:20-34 | A key of the store that is not published is never published again. |
| KeyLoading.SigningKeyRepository.Upsert | src/database/repositories/signing-key.repository.ts:24-42 | Whole new row: first date kept, activation date set once, a revocation date never cleared. |
| KeyLoading.SigningKeyRepository.SetStatus | src/database/repositories/signing-key.repository.ts:59-65 | Status and its dates of an existing row; a missing row is not created. |
| KeyLoading.SigningKeyRepository.FindPublishableKms | src/database/repositories/signing-key.repository.ts:45-49 | Exactly the KMS keys of the environment that are neither RETIRED nor revoked. |
| KeyLoading.RevocationIsFinal | src/database/repositories/signing-key.repository.ts:24-65 | After any sequence of metadata writes a revoked key is still revoked, never publishable, and keeps its first date. |
| PasswordCipher.LegacyPasswordCipher.Decrypt | src/modules/identity/legacy-password-cipher.ts:27-42 | Empty for empty or odd input; otherwise each unit is 255 minus the two bytes, modulo 65536. |
| PasswordCipher.LegacyPasswordCipher.Encrypt | src/modules/identity/legacy-password-cipher.ts:52-71 | For every choice of key bytes: succeeds exactly on non-empty texts of units 3..127 and 160..189; the result is printable, twice as long, and decrypts to the plaintext. |
| PasswordCipher.PublishedTableFits | src/modules/identity/legacy-password-cipher.ts:36-37 | The published Windows-1252 table has what the cipher relies on: identity outside 128..159, and no byte in it that is its own code unit. |
| PasswordCipher.OwnByte | src/modules/identity/legacy-password-cipher.ts:56-63 | Of the characters the loop accepts, exactly the storable ones are their own byte, so the self-check is what refuses the rest. |

## Left out

- HTTP, cookies, CSRF, pages, email and SMS delivery, audit, health, environment parsing, migrations and start-up wiring: input and output without deep properties.
- Two concurrent logouts of one session, a touch racing a revoke between Redis and PostgreSQL, and a record after its lease: the code does not guard them, so the assumption is stated instead.
- Ending all sessions after a key revocation (`--revoke-sessions`) and the hourly cap of `startOtp`: only easy members would be added.
- The adapter's lookups by user code and by uid: they do not take part in revocation.
- The template file cache, and data keys that name members of `Object.prototype`.
- Trimming of the submitted ITS ID and its range check: a malformed one is None in the model.
- Strings with lone surrogates in handoff paths: the character check refuses them, and Dafny strings cannot hold them.
- The audience, issuer and required-claim checks of the JWT library at the target are one outcome, and its signature check is abstract.
- `touch` inside `deliver` of the handoff: it changes no row of the handoff, and the session model covers it.
- KMS and key-file formats: a key is its kid, status and revocation; a crash of the file store, which writes once at the end, is the case of no write.
- OidcStore.OidcRedis.RevokeByGrantId: the method is the uninterrupted call; its two commands are separate steps in `LogoutRuns`.
- OidcStore.OidcRedis.RevokeGrants: likewise, for all commands of the loop.
- OidcStore.OidcRedis.UpsertArtifact: likewise, with its TTL read and its MULTI.
- LogoutRuns.LogoutService.EndSession: likewise; it also takes the participant query and the job together.
- LogoutRuns.LogoutIsComplete: a grant on which the code caught an error, and a grant added to the session's set after it was read, are not promised to be revoked, because the code does not.
- OtpChallenge.SameOwner: member and session have no colons, because the service itself forms them from digits and a uuid.
